/** The helpers of HpiLibrary/utils.py: the symbolic-name resolver, the integer
    argument parser, the log-level check and the per-connection selection store. */
module Utils {
  import opened Values
  import opened Chars
  import opened PyInt
  import opened Normalizing

  /** One attribute of the protocol's constant module: its name and its value. */
  datatype Symbol = Symbol(name: string, value: int)

  /** The constant module's attributes in the order `dir()` lists them. */
  type SymbolTable = seq<Symbol>

  // ---------------------------------------------------------------------------
  // find_attribute
  // ---------------------------------------------------------------------------

  /** Python's str() of a keyword argument. */
  function Str(a: Arg): string {
    match a
    case Text(s) => s
    case Num(n) => DecimalLiteral(n)
  }

  /** Entry i is the first one in table order whose normalized name is key. */
  ghost predicate FirstMatch(table: SymbolTable, key: string, i: int) {
    && 0 <= i < |table|
    && Normalize(table[i].name) == key
    && forall j :: 0 <= j < i ==> Normalize(table[j].name) != key
  }

  ghost predicate NoMatch(table: SymbolTable, key: string) {
    forall i :: 0 <= i < |table| ==> Normalize(table[i].name) != key
  }

  /** The scan of the table from entry k on. */
  function FindSymbolFrom(table: SymbolTable, key: string, k: nat): (r: Option<nat>)
    requires k <= |table|
    requires forall j :: 0 <= j < k ==> Normalize(table[j].name) != key
    ensures r.Some? ==> FirstMatch(table, key, r.value)
    ensures r.None? ==> NoMatch(table, key)
    decreases |table| - k
  {
    if k == |table| then None
    else if Normalize(table[k].name) == key then Some(k)
    else FindSymbolFrom(table, key, k + 1)
  }

  /** The index of the first symbol whose normalized name is key. */
  function FindSymbol(table: SymbolTable, key: string): (r: Option<nat>)
    ensures r.Some? ==> FirstMatch(table, key, r.value)
    ensures r.None? ==> NoMatch(table, key)
  {
    FindSymbolFrom(table, key, 0)
  }

  /** There is at most one first match. */
  lemma FirstMatchUnique(table: SymbolTable, key: string, i: int, j: int)
    requires FirstMatch(table, key, i) && FirstMatch(table, key, j)
    ensures i == j
  {
  }

  /** What find_attribute promises, stated without the scan: the value of the first
      symbol in table order whose normalized name equals the normalized
      prefix + token; failing that, the token read as an integer literal; failing
      that, an error naming the token. */
  ghost predicate Resolves(table: SymbolTable, token: string, prefix: string, r: Result<int>) {
    var key := Normalize(prefix + token);
    if !NoMatch(table, key) then
      exists i :: FirstMatch(table, key, i) && r == Ok(table[i].value)
    else
      match ParseInt(token, AnyBase)
      case Some(n) => r == Ok(n)
      case None => r == Err(AttributeNotFound(token))
  }

  /** Resolves determines its result. */
  lemma ResolvesFunctional(table: SymbolTable, token: string, prefix: string, r: Result<int>, r': Result<int>)
    requires Resolves(table, token, prefix, r) && Resolves(table, token, prefix, r')
    ensures r == r'
  {
    var key := Normalize(prefix + token);
    if !NoMatch(table, key) {
      var i :| FirstMatch(table, key, i) && r == Ok(table[i].value);
      var j :| FirstMatch(table, key, j) && r' == Ok(table[j].value);
      FirstMatchUnique(table, key, i, j);
    }
  }

  /** find_attribute(obj, attr, prefix) over the table standing for `obj`. */
  function FindAttribute(table: SymbolTable, attr: Arg, prefix: string): (r: Result<int>)
    ensures Resolves(table, Str(attr), prefix, r)
  {
    var token := Str(attr);
    match FindSymbol(table, Normalize(prefix + token))
    case Some(i) => Ok(table[i].value)
    case None =>
      match ParseInt(token, AnyBase)
      case Some(n) => Ok(n)
      case None => Err(AttributeNotFound(token))
  }

  /** A symbolic match wins over an integer reading of the same token. */
  lemma SymbolBeforeInteger(table: SymbolTable, attr: Arg, prefix: string, i: nat)
    requires FirstMatch(table, Normalize(prefix + Str(attr)), i)
    ensures FindAttribute(table, attr, prefix) == Ok(table[i].value)
  {
    var r := FindAttribute(table, attr, prefix);
    ResolvesFunctional(table, Str(attr), prefix, r, Ok(table[i].value));
  }

  /** Without a symbolic match an integer argument, or its decimal spelling, resolves to itself. */
  lemma IntegerFallback(table: SymbolTable, n: int, prefix: string)
    requires NoMatch(table, Normalize(prefix + DecimalLiteral(n)))
    ensures FindAttribute(table, Num(n), prefix) == Ok(n)
    ensures FindAttribute(table, Text(DecimalLiteral(n)), prefix) == Ok(n)
  {
    DecimalRoundTrip(n, AnyBase);
  }

  /** Without a symbolic match a hexadecimal, octal or binary literal resolves to its value. */
  lemma PrefixedFallback(table: SymbolTable, n: int, base: nat, prefix: string)
    requires base == 2 || base == 8 || base == 16
    requires NoMatch(table, Normalize(prefix + PrefixedLiteral(n, base)))
    ensures FindAttribute(table, Text(PrefixedLiteral(n, base)), prefix) == Ok(n)
  {
    PrefixedRoundTrip(n, base);
  }

  /** find_attribute fails exactly when no symbol matches and the token is no integer literal. */
  lemma FindAttributeFails(table: SymbolTable, attr: Arg, prefix: string)
    ensures FindAttribute(table, attr, prefix).Err? <==>
      NoMatch(table, Normalize(prefix + Str(attr))) && ParseInt(Str(attr), AnyBase).None?
  {
    var key := Normalize(prefix + Str(attr));
    if !NoMatch(table, key) {
      var i :| 0 <= i < |table| && Normalize(table[i].name) == key;
      assert FindSymbol(table, key).Some?;
    }
  }

  /** Two spellings of a token with the same normalized form resolve alike
      whenever one of them names a symbol. */
  lemma SpellingIrrelevant(table: SymbolTable, prefix: string, a: string, b: string)
    requires Normalize(a) == Normalize(b)
    requires !NoMatch(table, Normalize(prefix + a))
    ensures FindAttribute(table, Text(a), prefix) == FindAttribute(table, Text(b), prefix)
  {
    NormalizeConcat(prefix, a);
    NormalizeConcat(prefix, b);
    var key := Normalize(prefix + a);
    assert Normalize(prefix + b) == key;
    var found := FindSymbol(table, key);
    assert found.Some?;
    assert FindAttribute(table, Text(a), prefix) == Ok(table[found.value].value);
    assert FindAttribute(table, Text(b), prefix) == Ok(table[found.value].value);
  }

  /** The case of a symbolic token does not matter. */
  lemma CaseIrrelevant(table: SymbolTable, prefix: string, a: string)
    requires !NoMatch(table, Normalize(prefix + a))
    ensures FindAttribute(table, Text(UpperCase(a)), prefix) == FindAttribute(table, Text(a), prefix)
    ensures FindAttribute(table, Text(LowerCase(a)), prefix) == FindAttribute(table, Text(a), prefix)
  {
    NormalizeUpperCase(a);
    NormalizeLowerCase(a);
    SpellingIrrelevant(table, prefix, a, UpperCase(a));
    SpellingIrrelevant(table, prefix, a, LowerCase(a));
  }

  /** Underscores and whitespace inside a symbolic token do not matter. */
  lemma SeparatorIrrelevant(table: SymbolTable, prefix: string, a: string, c: char, b: string)
    requires Ignored(c)
    requires !NoMatch(table, Normalize(prefix + (a + b)))
    ensures FindAttribute(table, Text(a + [c] + b), prefix) == FindAttribute(table, Text(a + b), prefix)
  {
    NormalizeIgnores(a, c, b);
    SpellingIrrelevant(table, prefix, a + b, a + [c] + b);
  }

  // ---------------------------------------------------------------------------
  // int_any_base
  // ---------------------------------------------------------------------------

  /** int_any_base(i) with its default base 0: an argument that is not a string is
      returned as it is; a string is read as an integer literal or rejected. */
  function IntAnyBase(i: Arg): (r: Result<Arg>)
    ensures i.Num? ==> r == Ok(i)
    ensures i.Text? ==> (r.Err? <==> ParseInt(i.s, AnyBase).None?)
    ensures i.Text? && ParseInt(i.s, AnyBase).Some? ==> r == Ok(Num(ParseInt(i.s, AnyBase).value))
    ensures r.Ok? ==> r.value.Num?
    ensures r.Err? ==> r.error == InvalidInteger(i.s)
  {
    match i
    case Num(_) => Ok(i)
    case Text(s) =>
      match ParseInt(s, AnyBase)
      case Some(n) => Ok(Num(n))
      case None => Err(InvalidInteger(s))
  }

  /** The string forms of an integer read back as that integer. */
  lemma IntAnyBaseRoundTrip(n: int, base: nat)
    requires base == 2 || base == 8 || base == 16
    ensures IntAnyBase(Text(DecimalLiteral(n))) == Ok(Num(n))
    ensures IntAnyBase(Text(PrefixedLiteral(n, base))) == Ok(Num(n))
  {
    DecimalRoundTrip(n, AnyBase);
    PrefixedRoundTrip(n, base);
  }

  // ---------------------------------------------------------------------------
  // Logging._is_valid_log_level
  // ---------------------------------------------------------------------------

  const LogLevels: seq<string> := ["TRACE", "DEBUG", "INFO", "WARN", "HTML"]

  /** The level is None or a string naming a level in any case. */
  predicate KnownLevel(level: Option<Arg>) {
    level.None? || (level.value.Text? && UpperCase(level.value.s) in LogLevels)
  }

  function IsValidLogLevel(level: Option<Arg>, raiseIfInvalid: bool): (r: Result<bool>)
    ensures r == Ok(true) <==> KnownLevel(level)
    ensures r == Ok(false) <==> !KnownLevel(level) && !raiseIfInvalid
    ensures r.Err? <==> !KnownLevel(level) && raiseIfInvalid
    ensures r.Err? ==> r.error == InvalidLogLevel(level.value)
  {
    if level.None? then Ok(true)
    else if level.value.Text? && UpperCase(level.value.s) in LogLevels then Ok(true)
    else if !raiseIfInvalid then Ok(false)
    else Err(InvalidLogLevel(level.value))
  }

  /** A level name is accepted in lower case exactly when it is in any other case. */
  lemma LogLevelCaseInsensitive(s: string, raiseIfInvalid: bool)
    ensures IsValidLogLevel(Some(Text(LowerCase(s))), raiseIfInvalid) == Ok(true) <==>
            IsValidLogLevel(Some(Text(s)), raiseIfInvalid) == Ok(true)
    ensures IsValidLogLevel(Some(Text(LowerCase(s))), raiseIfInvalid).Err? <==>
            IsValidLogLevel(Some(Text(s)), raiseIfInvalid).Err?
  {
    UpperOfLower(s);
  }

  lemma LogLevelExamples()
    ensures IsValidLogLevel(Some(Text("warn")), true) == Ok(true)
    ensures IsValidLogLevel(Some(Text("ERROR")), false) == Ok(false)
    ensures IsValidLogLevel(Some(Num(1)), true).Err?
    ensures IsValidLogLevel(None, true) == Ok(true)
  {
    assert UpperCase("warn") == "WARN";
    assert UpperCase("ERROR") == "ERROR";
  }

  // ---------------------------------------------------------------------------
  // PerConnectionStorage
  // ---------------------------------------------------------------------------

  /** The dictionary `_cp` hands out: a connection's selections by key. */
  class Scope<V> {
    var entries: map<string, V>

    constructor ()
      ensures entries == map[]
    {
      entries := map[];
    }

    /** scope[key] = value */
    method Put(key: string, value: V)
      modifies this
      ensures entries == old(entries)[key := value]
    {
      entries := entries[key := value];
    }

    /** scope[key], which raises KeyError for a key never written. */
    function Get(key: string): (r: Result<V>)
      reads this
      ensures r.Ok? <==> key in entries
      ensures r.Ok? ==> r.value == entries[key]
      ensures r.Err? ==> r.error == UnsetSelection(key)
    {
      if key in entries then Ok(entries[key]) else Err(UnsetSelection(key))
    }
  }

  /** The owner's active-connection attribute as `_cp` finds it: missing, None, or a connection. */
  datatype ActiveProperty<C> = Missing | NoneValue | Active(conn: C)

  /** One scope per connection, created on first use and never shared. */
  class PerConnectionStorage<C(==), V> {
    var storage: map<C, Scope<V>>

    /** No two connections share a scope object. */
    ghost predicate Valid()
      reads this
    {
      forall c, d :: c in storage && d in storage && c != d ==> storage[c] != storage[d]
    }

    /** The scopes' contents, by connection. */
    ghost function View(): map<C, map<string, V>>
      reads this, storage.Values
    {
      map c | c in storage :: storage[c].entries
    }

    /** A connection's selections; an absent scope reads as empty. */
    ghost function EntriesOf(c: C): map<string, V>
      reads this, storage.Values
    {
      if c in View() then View()[c] else map[]
    }

    /** Every scope of the earlier storage is still there, as the same object. */
    ghost predicate Extends(earlier: map<C, Scope<V>>)
      reads this
    {
      forall c :: c in earlier ==> c in storage && storage[c] == earlier[c]
    }

    constructor ()
      ensures Valid() && storage == map[]
    {
      storage := map[];
    }

    /** The `_cp` property: the active connection's scope, created empty on first use. */
    method Cp(active: ActiveProperty<C>) returns (r: Result<Scope<V>>)
      requires Valid()
      modifies this
      ensures Valid() && Extends(old(storage))
      ensures active.Missing? ==> r == Err(NoActiveConnectionProperty) && storage == old(storage)
      ensures active.NoneValue? ==> r == Err(NoConnectionActive) && storage == old(storage)
      ensures active.Active? && active.conn in old(storage) ==>
        r == Ok(old(storage)[active.conn]) && storage == old(storage)
      ensures active.Active? && active.conn !in old(storage) ==>
        r.Ok? && fresh(r.value) && r.value.entries == map[] &&
        storage == old(storage)[active.conn := r.value]
      ensures r.Ok? ==> active.Active? && active.conn in storage && storage[active.conn] == r.value
      ensures forall c :: c in storage ==> c in old(storage) || fresh(storage[c])
      ensures View() == if active.Active? then old(View())[active.conn := old(EntriesOf(active.conn))] else old(View())
    {
      match active
      case Missing => return Err(NoActiveConnectionProperty);
      case NoneValue => return Err(NoConnectionActive);
      case Active(c) =>
        if c !in storage {
          var scope := new Scope<V>();
          storage := storage[c := scope];
        }
        return Ok(storage[c]);
    }
  }

  /** Two connections get two scopes, and writing one leaves the other as it was. */
  method ScopesAreSeparate<C(==)>(a: C, b: C)
    requires a != b
  {
    var store := new PerConnectionStorage<C, int>();
    var ra := store.Cp(Active(a));
    var rb := store.Cp(Active(b));
    assert ra.Ok? && rb.Ok? && ra.value != rb.value;
    ra.value.Put("entity_path", 1);
    assert rb.value.entries == map[];
    var again := store.Cp(Active(a));
    assert again == ra && again.value.Get("entity_path") == Ok(1);
    var none := store.Cp(NoneValue);
    assert none == Err(NoConnectionActive);
  }
}
