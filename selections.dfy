/** The value-level logic inside the library's keywords: picking the one resource
    of an entity path, the first matching record, test parameter, or event, the
    name=value split of test parameters, and the checks the assertion keywords make. */
module Selections {
  import opened Values
  import opened Pyhpi

  /** The position of the first element satisfying p, or |s| when there is none:
      the linear search with early return that the keywords write as loops and
      filters. */
  function FirstIndex<T>(s: seq<T>, p: T -> bool): (i: nat)
    ensures i <= |s|
    ensures i < |s| ==> p(s[i])
    ensures forall j :: 0 <= j < i ==> !p(s[j])
  {
    if s == [] || p(s[0]) then 0 else 1 + FirstIndex(s[1..], p)
  }

  // ---------------------------------------------------------------------------
  // _selected_resource: exactly one resource per entity path
  // ---------------------------------------------------------------------------

  /** Position i holds the only resource of rs with the entity path. */
  ghost predicate ExactlyOneAt(rs: seq<Resource>, path: EntityPath, i: int) {
    && 0 <= i < |rs| && rs[i].entityPath == path
    && forall j :: 0 <= j < |rs| && j != i ==> rs[j].entityPath != path
  }

  ghost predicate ExactlyOne(rs: seq<Resource>, path: EntityPath) {
    exists i :: ExactlyOneAt(rs, path, i)
  }

  lemma MatchingEmpty(rs: seq<Resource>, path: EntityPath)
    ensures Matching(rs, path) == [] <==> forall j :: 0 <= j < |rs| ==> rs[j].entityPath != path
  {
    if Matching(rs, path) != [] {
      assert Matching(rs, path)[0] in Matching(rs, path);
    } else {
      forall j | 0 <= j < |rs|
        ensures rs[j].entityPath != path
      {
        assert rs[j] in rs;
      }
    }
  }

  /** The client's filter yields a single resource exactly when one position
      of the resource table carries the path, and then it yields that resource. */
  lemma {:induction false} MatchingOne(rs: seq<Resource>, path: EntityPath)
    ensures |Matching(rs, path)| == 1 <==> ExactlyOne(rs, path)
    ensures forall i :: ExactlyOneAt(rs, path, i) ==> Matching(rs, path) == [rs[i]]
    decreases |rs|
  {
    if rs != [] {
      var t := rs[1..];
      MatchingOne(t, path);
      MatchingEmpty(t, path);
      if rs[0].entityPath == path {
        assert Matching(rs, path) == [rs[0]] + Matching(t, path);
        forall i | ExactlyOneAt(rs, path, i)
          ensures i == 0
        {
        }
        assert ExactlyOneAt(rs, path, 0) <==> forall j :: 0 <= j < |t| ==> t[j].entityPath != path by {
          if forall j :: 0 <= j < |t| ==> t[j].entityPath != path {
            forall j | 0 < j < |rs|
              ensures rs[j].entityPath != path
            {
              assert rs[j] == t[j - 1];
            }
          }
          if ExactlyOneAt(rs, path, 0) {
            forall j | 0 <= j < |t|
              ensures t[j].entityPath != path
            {
              assert t[j] == rs[j + 1];
            }
          }
        }
      } else {
        assert Matching(rs, path) == Matching(t, path);
        forall i | ExactlyOneAt(rs, path, i)
          ensures i > 0 && ExactlyOneAt(t, path, i - 1)
        {
          forall j | 0 <= j < |t| && j != i - 1
            ensures t[j].entityPath != path
          {
            assert t[j] == rs[j + 1];
          }
        }
        forall i | ExactlyOneAt(t, path, i)
          ensures ExactlyOneAt(rs, path, i + 1)
        {
          forall j | 0 < j < |rs| && j != i + 1
            ensures rs[j].entityPath != path
          {
            assert rs[j] == t[j - 1];
          }
        }
      }
    }
  }

  /** The resource of an entity path; none and several are the same error. */
  function UniqueResource(rs: seq<Resource>, path: EntityPath): (r: Result<Resource>)
    ensures r.Ok? <==> ExactlyOne(rs, path)
    ensures forall i :: ExactlyOneAt(rs, path, i) ==> r == Ok(rs[i])
    ensures r.Err? ==> r.error == NotExactlyOneResource
  {
    MatchingOne(rs, path);
    var found := Matching(rs, path);
    if |found| != 1 then Err(NotExactlyOneResource) else Ok(found[0])
  }

  // ---------------------------------------------------------------------------
  // _find_rdr: the first record of a kind with an id string
  // ---------------------------------------------------------------------------

  predicate RdrMatches(rdr: Rdr, kind: RdrKind, id: string) {
    rdr.kind == kind && rdr.idString == id
  }

  /** Position i holds the first matching record. */
  ghost predicate FirstRdrAt(rdrs: seq<Rdr>, kind: RdrKind, id: string, i: int) {
    0 <= i < |rdrs| && RdrMatches(rdrs[i], kind, id) && forall j :: 0 <= j < i ==> !RdrMatches(rdrs[j], kind, id)
  }

  function FirstRdr(rdrs: seq<Rdr>, kind: RdrKind, id: string): (r: Option<Rdr>)
    ensures r.None? <==> forall j :: 0 <= j < |rdrs| ==> !RdrMatches(rdrs[j], kind, id)
    ensures r.Some? ==> RdrMatches(r.value, kind, id) && r.value in rdrs
    ensures forall i :: FirstRdrAt(rdrs, kind, id, i) ==> r == Some(rdrs[i])
  {
    var i := FirstIndex(rdrs, (rdr: Rdr) => RdrMatches(rdr, kind, id));
    if i < |rdrs| then Some(rdrs[i]) else None
  }

  /** The scan over res.rdrs() with its early return. */
  method FindRdrIn(rdrs: seq<Rdr>, kind: RdrKind, id: string) returns (r: Option<Rdr>)
    ensures r == FirstRdr(rdrs, kind, id)
  {
    for i := 0 to |rdrs|
      invariant forall j :: 0 <= j < i ==> !RdrMatches(rdrs[j], kind, id)
    {
      if RdrMatches(rdrs[i], kind, id) {
        assert FirstRdrAt(rdrs, kind, id, i);
        return Some(rdrs[i]);
      }
    }
    return None;
  }

  // ---------------------------------------------------------------------------
  // Parameter lookup by name
  // ---------------------------------------------------------------------------

  ghost predicate FirstParameterAt(ps: seq<Parameter>, name: string, i: int) {
    0 <= i < |ps| && ps[i].name == name && forall j :: 0 <= j < i ==> ps[j].name != name
  }

  /** filter(name matches, parameters)[0], or None where that raises IndexError. */
  function FirstParameter(ps: seq<Parameter>, name: string): (r: Option<Parameter>)
    ensures r.None? <==> forall j :: 0 <= j < |ps| ==> ps[j].name != name
    ensures r.Some? ==> r.value.name == name && r.value in ps
    ensures forall i :: FirstParameterAt(ps, name, i) ==> r == Some(ps[i])
  {
    var i := FirstIndex(ps, (p: Parameter) => p.name == name);
    if i < |ps| then Some(ps[i]) else None
  }

  /** The default-value assertion on a test (or the error of looking it up). */
  function DefaultValueCheck(test: Result<DimiTest>, name: string, expected: Arg): (o: Outcome)
    ensures o == Pass <==>
      test.Ok? && FirstParameter(test.value.parameters, name).Some? &&
      FirstParameter(test.value.parameters, name).value.default == expected
    ensures test.Err? ==> o == Fail(test.error)
    ensures test.Ok? && (forall j :: 0 <= j < |test.value.parameters| ==> test.value.parameters[j].name != name) ==>
      o == Fail(ParameterNotFound(name))
  {
    match test
    case Err(e) => Fail(e)
    case Ok(t) =>
      match FirstParameter(t.parameters, name)
      case None => Fail(ParameterNotFound(name))
      case Some(p) => if expected == p.default then Pass else Fail(NotEqual(expected, p.default))
  }

  // ---------------------------------------------------------------------------
  // start_test: name=value parameters
  // ---------------------------------------------------------------------------

  /** The position of the first '=' in p, or |p|. */
  function IndexOfEquals(p: string): nat {
    FirstIndex(p, (c: char) => c == '=')
  }

  /** p.split('=', 1) when it has two parts, None when it has one. */
  function PartitionAtEquals(p: string): (r: Option<(string, string)>)
    ensures r.Some? <==> '=' in p
    ensures r.Some? ==> p == r.value.0 + "=" + r.value.1 && '=' !in r.value.0
  {
    var i := IndexOfEquals(p);
    if i == |p| then None
    else
      assert p == p[..i] + "=" + p[i + 1..] by {
        assert p == p[..i] + [p[i]] + p[i + 1..];
      }
      Some((p[..i], p[i + 1..]))
  }

  /** The split is at the first '=': whatever follows it, further '=' included, is the value. */
  lemma PartitionAtFirstEquals(name: string, value: string)
    requires '=' !in name
    ensures PartitionAtEquals(name + "=" + value) == Some((name, value))
  {
    var p := name + "=" + value;
    var i := IndexOfEquals(p);
    assert p[|name|] == '=';
    assert forall j :: 0 <= j < |name| ==> p[j] == name[j];
    assert p[..i] == name;
    assert p[i + 1..] == value;
  }

  lemma PartitionExamples()
    ensures PartitionAtEquals("a=b=c") == Some(("a", "b=c"))
    ensures PartitionAtEquals("a=") == Some(("a", ""))
    ensures PartitionAtEquals("ab") == None
  {
    assert "a=b=c" == "a" + "=" + "b=c";
    PartitionAtFirstEquals("a", "b=c");
    assert "a=" == "a" + "=" + "";
    PartitionAtFirstEquals("a", "");
    assert "ab"[0] != '=' && "ab"[1] != '=';
  }

  /** pairs is the list of parts of ps, token by token. */
  ghost predicate SplitsAs(ps: seq<string>, pairs: seq<(string, string)>) {
    |pairs| == |ps| && forall i :: 0 <= i < |ps| ==> PartitionAtEquals(ps[i]) == Some(pairs[i])
  }

  /** Every token has an '='. */
  predicate AllSplittable(ps: seq<string>) {
    forall i :: 0 <= i < |ps| ==> '=' in ps[i]
  }

  lemma SplitsAsUnique(ps: seq<string>, a: seq<(string, string)>, b: seq<(string, string)>)
    requires SplitsAs(ps, a) && SplitsAs(ps, b)
    ensures a == b
  {
    forall i | 0 <= i < |a|
      ensures a[i] == b[i]
    {
      assert PartitionAtEquals(ps[i]) == Some(a[i]);
    }
  }

  /** The list comprehension over the tokens and the check that each split in two. */
  method SplitParameters(ps: seq<string>) returns (r: Result<seq<(string, string)>>)
    ensures r.Ok? <==> AllSplittable(ps)
    ensures r.Ok? ==> SplitsAs(ps, r.value)
    ensures r.Err? ==> r.error == MalformedParameter
  {
    var pairs: seq<(string, string)> := [];
    for i := 0 to |ps|
      invariant SplitsAs(ps[..i], pairs)
      invariant AllSplittable(ps[..i])
    {
      var part := PartitionAtEquals(ps[i]);
      if part.None? {
        return Err(MalformedParameter);
      }
      pairs := pairs + [part.value];
      assert ps[..i + 1] == ps[..i] + [ps[i]];
    }
    assert ps[..|ps|] == ps;
    return Ok(pairs);
  }

  /** The request test.start(...) receives: the list of pairs, or None for no tokens. */
  ghost predicate StartedWith(req: StartRequest, test: DimiTest, ps: seq<string>) {
    && req.test == test
    && (ps == [] ==> req.parameters.None?)
    && (ps != [] ==> req.parameters.Some? && SplitsAs(ps, req.parameters.value))
  }

  // ---------------------------------------------------------------------------
  // Events
  // ---------------------------------------------------------------------------

  /** The position of the first event of the type in the queue, or |q|. */
  function FirstEventIndex(q: seq<Event>, eventType: int): nat {
    FirstIndex(q, (e: Event) => e.eventType == eventType)
  }

  /** The status assertion on the selected event: the type guard comes before the
      expected value is resolved, so an event of another type fails with the guard's
      error whatever the expected value is. */
  function CheckEventStatus(event: Result<Event>, eventType: int, notOfType: Error, expected: Result<int>): (o: Outcome)
    ensures o == Pass <==> event.Ok? && event.value.eventType == eventType && expected == Ok(event.value.status)
    ensures event.Err? ==> o == Fail(event.error)
    ensures event.Ok? && event.value.eventType != eventType ==> o == Fail(notOfType)
    ensures event.Ok? && event.value.eventType == eventType && expected.Err? ==> o == Fail(expected.error)
  {
    match event
    case Err(e) => Fail(e)
    case Ok(ev) =>
      if ev.eventType != eventType then Fail(notOfType)
      else
        match expected
        case Err(e) => Fail(e)
        case Ok(v) => if v == ev.status then Pass else Fail(NotEqual(Num(v), Num(ev.status)))
  }
}
