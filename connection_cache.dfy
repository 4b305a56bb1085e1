/** The test runner's connection cache, reduced to what the library relies on:
    registration with 1-based indices, switching by alias or index, the readable
    current index, and closing everything. */
module ConnectionCaching {
  import opened Values
  import opened PyInt
  import opened Pyhpi

  class ConnectionCache {
    var connections: seq<Session>
    var aliases: map<string, nat>
    var currentIndex: Option<nat>

    ghost predicate Valid()
      reads this
    {
      && (currentIndex.Some? <==> connections != [])
      && (currentIndex.Some? ==> 1 <= currentIndex.value <= |connections|)
      && forall a :: a in aliases ==> 1 <= aliases[a] <= |connections|
    }

    /** The connection at the current index. */
    function Current(): (r: Option<Session>)
      reads this
      requires Valid()
      ensures r.Some? <==> connections != []
    {
      if currentIndex.Some? then Some(connections[currentIndex.value - 1]) else None
    }

    constructor ()
      ensures Valid() && connections == [] && aliases == map[] && currentIndex == None
    {
      connections := [];
      aliases := map[];
      currentIndex := None;
    }

    /** The next index, counting from 1; the new connection becomes the current one. */
    method Register(conn: Session, alias: Option<string>) returns (index: nat)
      requires Valid()
      modifies this
      ensures Valid()
      ensures connections == old(connections) + [conn]
      ensures index == |old(connections)| + 1 && currentIndex == Some(index)
      ensures aliases == if alias.Some? then old(aliases)[alias.value := index] else old(aliases)
    {
      connections := connections + [conn];
      index := |connections|;
      currentIndex := Some(index);
      if alias.Some? {
        aliases := aliases[alias.value := index];
      }
    }

    /** An alias is tried first, then the argument is read as a decimal index in range. */
    function ResolveIndex(indexOrAlias: Arg): (r: Option<nat>)
      reads this
      requires Valid()
      ensures r.Some? ==> 1 <= r.value <= |connections|
      ensures indexOrAlias.Text? && indexOrAlias.s in aliases ==> r == Some(aliases[indexOrAlias.s])
    {
      if indexOrAlias.Text? && indexOrAlias.s in aliases then Some(aliases[indexOrAlias.s])
      else
        match IntOf(indexOrAlias)
        case Ok(n) => if 0 < n <= |connections| then Some(n) else None
        case Err(_) => None
    }

    method Switch(indexOrAlias: Arg) returns (r: Result<Session>)
      requires Valid()
      modifies this
      ensures Valid() && connections == old(connections) && aliases == old(aliases)
      ensures old(ResolveIndex(indexOrAlias)).None? ==>
        r == Err(NonExistingConnection(indexOrAlias)) && currentIndex == old(currentIndex)
      ensures old(ResolveIndex(indexOrAlias)).Some? ==>
        currentIndex == old(ResolveIndex(indexOrAlias)) && r == Ok(connections[currentIndex.value - 1])
    {
      var index := ResolveIndex(indexOrAlias);
      if index.None? {
        return Err(NonExistingConnection(indexOrAlias));
      }
      currentIndex := index;
      return Ok(connections[index.value - 1]);
    }

    /** Closes every registered connection and empties the cache, so that the next
        registration gets index 1 again. */
    method CloseAll()
      requires Valid()
      modifies this, connections
      ensures Valid() && connections == [] && aliases == map[] && currentIndex == None
      ensures forall s :: s in old(connections) ==> !s.isOpen
      ensures forall s :: s in old(connections) ==> s.events == old(s.events) && s.started == old(s.started)
    {
      var closing := connections;
      for i := 0 to |closing|
        invariant connections == closing
        invariant forall j :: 0 <= j < i ==> !closing[j].isOpen
        invariant forall s :: s in closing ==> s.events == old(s.events) && s.started == old(s.started)
      {
        closing[i].Close();
      }
      connections := [];
      aliases := map[];
      currentIndex := None;
    }
  }
}
