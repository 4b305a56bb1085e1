/** The enumeration families of HpiLibrary/mapping.py: each wrapper resolves a
    token against the protocol's constant module with one fixed prefix. */
module Mapping {
  import opened Values
  import opened Chars
  import opened PyInt
  import opened Normalizing
  import opened Utils

  function FindEventType(sahpi: SymbolTable, eventType: Arg): (r: Result<int>)
    ensures Resolves(sahpi, Str(eventType), "SAHPI_ET_", r)
  {
    FindAttribute(sahpi, eventType, "SAHPI_ET_")
  }

  function FindFumiAccessProtocol(sahpi: SymbolTable, proto: Arg): (r: Result<int>)
    ensures Resolves(sahpi, Str(proto), "SAHPI_FUMI_PROT_", r)
  {
    FindAttribute(sahpi, proto, "SAHPI_FUMI_PROT_")
  }

  function FindFumiCapabilities(sahpi: SymbolTable, capabilities: Arg): (r: Result<int>)
    ensures Resolves(sahpi, Str(capabilities), "SAHPI_FUMI_CAP_", r)
  {
    FindAttribute(sahpi, capabilities, "SAHPI_FUMI_CAP_")
  }

  function FindFumiUpgradeState(sahpi: SymbolTable, state: Arg): (r: Result<int>)
    ensures Resolves(sahpi, Str(state), "SAHPI_FUMI_", r)
  {
    FindAttribute(sahpi, state, "SAHPI_FUMI_")
  }

  function FindFumiSourceStatus(sahpi: SymbolTable, status: Arg): (r: Result<int>)
    ensures Resolves(sahpi, Str(status), "SAHPI_FUMI_SRC_", r)
  {
    FindAttribute(sahpi, status, "SAHPI_FUMI_SRC_")
  }

  function FindDimiTestServiceImpact(sahpi: SymbolTable, impact: Arg): (r: Result<int>)
    ensures Resolves(sahpi, Str(impact), "SAHPI_DIMITEST_", r)
  {
    FindAttribute(sahpi, impact, "SAHPI_DIMITEST_")
  }

  function FindDimiTestCapabilities(sahpi: SymbolTable, capabilities: Arg): (r: Result<int>)
    ensures Resolves(sahpi, Str(capabilities), "SAHPI_DIMITEST_CAPABILITY_", r)
  {
    FindAttribute(sahpi, capabilities, "SAHPI_DIMITEST_CAPABILITY_")
  }

  function FindDimiTestStatus(sahpi: SymbolTable, status: Arg): (r: Result<int>)
    ensures Resolves(sahpi, Str(status), "SAHPI_DIMITEST_STATUS_", r)
  {
    FindAttribute(sahpi, status, "SAHPI_DIMITEST_STATUS_")
  }

  function FindDimiTestStatusError(sahpi: SymbolTable, status: Arg): (r: Result<int>)
    ensures Resolves(sahpi, Str(status), "SAHPI_DIMITEST_STATUSERR_", r)
  {
    FindAttribute(sahpi, status, "SAHPI_DIMITEST_STATUSERR_")
  }

  // ---------------------------------------------------------------------------
  // The nine families taken together
  // ---------------------------------------------------------------------------

  datatype Family =
    | EventType | FumiAccessProtocol | FumiCapabilities | FumiUpgradeState | FumiSourceStatus
    | DimiTestServiceImpact | DimiTestCapabilities | DimiTestStatus | DimiTestStatusError

  function Prefix(f: Family): string {
    match f
    case EventType => "SAHPI_ET_"
    case FumiAccessProtocol => "SAHPI_FUMI_PROT_"
    case FumiCapabilities => "SAHPI_FUMI_CAP_"
    case FumiUpgradeState => "SAHPI_FUMI_"
    case FumiSourceStatus => "SAHPI_FUMI_SRC_"
    case DimiTestServiceImpact => "SAHPI_DIMITEST_"
    case DimiTestCapabilities => "SAHPI_DIMITEST_CAPABILITY_"
    case DimiTestStatus => "SAHPI_DIMITEST_STATUS_"
    case DimiTestStatusError => "SAHPI_DIMITEST_STATUSERR_"
  }

  /** The wrapper of a family. */
  function Find(f: Family, sahpi: SymbolTable, token: Arg): (r: Result<int>)
    ensures Resolves(sahpi, Str(token), Prefix(f), r)
  {
    match f
    case EventType => FindEventType(sahpi, token)
    case FumiAccessProtocol => FindFumiAccessProtocol(sahpi, token)
    case FumiCapabilities => FindFumiCapabilities(sahpi, token)
    case FumiUpgradeState => FindFumiUpgradeState(sahpi, token)
    case FumiSourceStatus => FindFumiSourceStatus(sahpi, token)
    case DimiTestServiceImpact => FindDimiTestServiceImpact(sahpi, token)
    case DimiTestCapabilities => FindDimiTestCapabilities(sahpi, token)
    case DimiTestStatus => FindDimiTestStatus(sahpi, token)
    case DimiTestStatusError => FindDimiTestStatusError(sahpi, token)
  }

  /** Every wrapper is find_attribute with its family's prefix. */
  lemma FindIsFindAttribute(f: Family, sahpi: SymbolTable, token: Arg)
    ensures Find(f, sahpi, token) == FindAttribute(sahpi, token, Prefix(f))
  {
    ResolvesFunctional(sahpi, Str(token), Prefix(f), Find(f, sahpi, token), FindAttribute(sahpi, token, Prefix(f)));
  }

  /** In every family a number that names no symbol resolves to itself. */
  lemma NumericFallbackEveryFamily(f: Family, sahpi: SymbolTable, n: int)
    requires NoMatch(sahpi, Normalize(Prefix(f) + DecimalLiteral(n)))
    ensures Find(f, sahpi, Num(n)) == Ok(n)
    ensures Find(f, sahpi, Text(DecimalLiteral(n))) == Ok(n)
  {
    FindIsFindAttribute(f, sahpi, Num(n));
    FindIsFindAttribute(f, sahpi, Text(DecimalLiteral(n)));
    IntegerFallback(sahpi, n, Prefix(f));
  }

  /** Every wrapper fails exactly when find_attribute does: no symbol, no integer literal. */
  lemma FailsExactlyWhenUnresolvable(f: Family, sahpi: SymbolTable, token: Arg)
    ensures Find(f, sahpi, token).Err? <==>
      NoMatch(sahpi, Normalize(Prefix(f) + Str(token))) && ParseInt(Str(token), AnyBase).None?
    ensures Find(f, sahpi, token).Err? ==> Find(f, sahpi, token).error == AttributeNotFound(Str(token))
  {
    FindIsFindAttribute(f, sahpi, token);
    FindAttributeFails(sahpi, token, Prefix(f));
  }

  // ---------------------------------------------------------------------------
  // Families leak into each other
  // ---------------------------------------------------------------------------

  /** A family whose prefix extends another's by q is reachable through the shorter
      prefix: a token q + x resolves there exactly as x does in the longer family,
      as long as x names a symbol. If it does not, the shorter family fails
      (q + x is no integer) where the longer one may still read x as an integer. */
  lemma NestedPrefixLeak(sahpi: SymbolTable, p: string, q: string, x: string)
    requires q != [] && IsLetter(q[0])
    ensures FindAttribute(sahpi, Text(q + x), p) ==
      if NoMatch(sahpi, Normalize(p + q + x)) then Err(AttributeNotFound(q + x))
      else FindAttribute(sahpi, Text(x), p + q)
  {
    assert p + (q + x) == p + q + x;
    LetterIsNoInteger(q + x, AnyBase);
    var key := Normalize(p + q + x);
    var found := FindSymbol(sahpi, key);
    if found.Some? {
      assert FindAttribute(sahpi, Text(x), p + q) == Ok(sahpi[found.value].value);
    }
  }

  /** find_fumi_upgrade_state('CAP_' + x) is find_fumi_capabilities(x) for every symbolic x. */
  lemma UpgradeStateReachesCapabilities(sahpi: SymbolTable, x: string)
    ensures FindFumiUpgradeState(sahpi, Text("CAP_" + x)) ==
      if NoMatch(sahpi, Normalize("SAHPI_FUMI_CAP_" + x)) then Err(AttributeNotFound("CAP_" + x))
      else FindFumiCapabilities(sahpi, Text(x))
  {
    assert "SAHPI_FUMI_" + "CAP_" == "SAHPI_FUMI_CAP_";
    NestedPrefixLeak(sahpi, "SAHPI_FUMI_", "CAP_", x);
  }

  /** find_dimi_test_service_impact('STATUS_' + x) is find_dimi_test_status(x) for every symbolic x. */
  lemma ServiceImpactReachesStatus(sahpi: SymbolTable, x: string)
    ensures FindDimiTestServiceImpact(sahpi, Text("STATUS_" + x)) ==
      if NoMatch(sahpi, Normalize("SAHPI_DIMITEST_STATUS_" + x)) then Err(AttributeNotFound("STATUS_" + x))
      else FindDimiTestStatus(sahpi, Text(x))
  {
    assert "SAHPI_DIMITEST_" + "STATUS_" == "SAHPI_DIMITEST_STATUS_";
    NestedPrefixLeak(sahpi, "SAHPI_DIMITEST_", "STATUS_", x);
  }

  /** Because underscores are ignored, the status family also reaches the
      status-error family: find_dimi_test_status('ERR_' + x) is
      find_dimi_test_status_error(x) for every symbolic x. */
  lemma StatusReachesStatusError(sahpi: SymbolTable, x: string)
    ensures FindDimiTestStatus(sahpi, Text("ERR_" + x)) ==
      if NoMatch(sahpi, Normalize("SAHPI_DIMITEST_STATUSERR_" + x)) then Err(AttributeNotFound("ERR_" + x))
      else FindDimiTestStatusError(sahpi, Text(x))
  {
    var head := "SAHPI_DIMITEST_STATUS";
    assert "SAHPI_DIMITEST_STATUS_" + ("ERR_" + x) == head + ['_'] + ("ERR_" + x);
    assert "SAHPI_DIMITEST_STATUSERR_" + x == head + ("ERR_" + x);
    NormalizeIgnores(head, '_', "ERR_" + x);
    LetterIsNoInteger("ERR_" + x, AnyBase);
    FindIsFindAttribute(DimiTestStatus, sahpi, Text("ERR_" + x));
    FindIsFindAttribute(DimiTestStatusError, sahpi, Text(x));
    var key := Normalize("SAHPI_DIMITEST_STATUSERR_" + x);
    var found := FindSymbol(sahpi, key);
    if found.Some? {
      assert FindAttribute(sahpi, Text(x), "SAHPI_DIMITEST_STATUSERR_") == Ok(sahpi[found.value].value);
    }
  }

  /** A one-entry table shows the leak: a capability name read as an upgrade state. */
  lemma CapabilityReadAsUpgradeState()
    ensures FindFumiUpgradeState([Symbol("SAHPI_FUMI_CAP_ROLLBACK", 1)], Text("CAP_ROLLBACK")) == Ok(1)
  {
    var sahpi := [Symbol("SAHPI_FUMI_CAP_ROLLBACK", 1)];
    assert "SAHPI_FUMI_" + "CAP_ROLLBACK" == sahpi[0].name;
    assert FindSymbol(sahpi, Normalize(sahpi[0].name)) == Some(0);
  }
}
