/** The keyword library object: the active session, the connection cache, and the
    per-connection selections its keywords read and write. The library's base
    class PerConnectionStorage becomes the field `store`, keyed by the active session. */
module HpiLibrary {
  import opened Values
  import opened PyInt
  import opened Utils
  import opened Mapping
  import opened Pyhpi
  import opened ConnectionCaching
  import opened Selections

  const EntityPathKey: string := "entity_path"
  const SelectedRdrKey: string := "selected_rdr"
  const SelectedTestKey: string := "selected_dimi_test"
  const SelectedEventKey: string := "selected_event"

  /** What a scope holds under the four keys modelled here. */
  datatype Selection =
    | PathSel(path: EntityPath)
    | RdrSel(rdr: Rdr)
    | TestSel(test: DimiTest)
    | EventSel(event: Event)

  /** Each key holds the kind of value the library stores under it. */
  ghost predicate WellKeyed(m: map<string, Selection>) {
    && (EntityPathKey in m ==> m[EntityPathKey].PathSel?)
    && (SelectedRdrKey in m ==> m[SelectedRdrKey].RdrSel?)
    && (SelectedTestKey in m ==> m[SelectedTestKey].TestSel?)
    && (SelectedEventKey in m ==> m[SelectedEventKey].EventSel?)
  }

  class Library {
    const sahpi: SymbolTable
    const etFumi: int
    const etDimi: int
    const cache: ConnectionCache
    const store: PerConnectionStorage<Session, Selection>
    var activeSession: Option<Session>
    var activeDevice: Option<Session>

    ghost predicate Valid()
      reads this, cache, store, store.storage.Values
    {
      && cache.Valid() && store.Valid()
      && (activeSession.Some? ==> activeSession.value in cache.connections)
      && forall c :: c in store.View() ==> WellKeyed(store.View()[c])
    }

    /** The library's sahpi module and its SAHPI_ET_FUMI and SAHPI_ET_DIMI constants. */
    constructor (sahpi: SymbolTable, etFumi: int, etDimi: int)
      ensures Valid() && fresh(cache) && fresh(store)
      ensures this.sahpi == sahpi && this.etFumi == etFumi && this.etDimi == etDimi
      ensures activeSession == None && activeDevice == None
      ensures cache.connections == [] && cache.currentIndex == None && store.storage == map[]
    {
      this.sahpi := sahpi;
      this.etFumi := etFumi;
      this.etDimi := etDimi;
      cache := new ConnectionCache();
      store := new PerConnectionStorage<Session, Selection>();
      activeSession := None;
      activeDevice := None;
    }

    /** The `_active_session` attribute as `_cp` finds it: always present, maybe None. */
    function ActiveProp(): (p: ActiveProperty<Session>)
      reads this
      ensures p.Active? <==> activeSession.Some?
      ensures activeSession.Some? ==> p.conn == activeSession.value
    {
      if activeSession.Some? then Active(activeSession.value) else NoneValue
    }

    // -------------------------------------------------------------------------
    // What the keywords see through `self._cp`
    // -------------------------------------------------------------------------

    /** self._cp[key] */
    ghost function Selected(key: string): Result<Selection>
      reads this, store, store.storage.Values
    {
      if activeSession.None? then Err(NoConnectionActive)
      else
        var e := store.EntriesOf(activeSession.value);
        if key in e then Ok(e[key]) else Err(UnsetSelection(key))
    }

    ghost function SelectedPath(): Result<EntityPath>
      requires Valid()
      reads this, cache, store, store.storage.Values
    {
      match Selected(EntityPathKey)
      case Err(e) => Err(e)
      case Ok(s) => Ok(s.path)
    }

    ghost function SelectedRdr(): Result<Rdr>
      requires Valid()
      reads this, cache, store, store.storage.Values
    {
      match Selected(SelectedRdrKey)
      case Err(e) => Err(e)
      case Ok(s) => Ok(s.rdr)
    }

    ghost function SelectedTest(): Result<DimiTest>
      requires Valid()
      reads this, cache, store, store.storage.Values
    {
      match Selected(SelectedTestKey)
      case Err(e) => Err(e)
      case Ok(s) => Ok(s.test)
    }

    ghost function SelectedEvent(): Result<Event>
      requires Valid()
      reads this, cache, store, store.storage.Values
    {
      match Selected(SelectedEventKey)
      case Err(e) => Err(e)
      case Ok(s) => Ok(s.event)
    }

    /** The store once `_cp` has been read: the active session has a scope. Every
        connection's selections are what they were. */
    ghost function Touched(): map<Session, map<string, Selection>>
      reads this, store, store.storage.Values
    {
      if activeSession.Some? then store.View()[activeSession.value := store.EntriesOf(activeSession.value)]
      else store.View()
    }

    /** The store once `self._cp[key] = v` has run: only the active scope changes, at key. */
    ghost function Written(key: string, v: Selection): map<Session, map<string, Selection>>
      reads this, store, store.storage.Values
    {
      if activeSession.Some? then store.View()[activeSession.value := store.EntriesOf(activeSession.value)[key := v]]
      else store.View()
    }

    /** _selected_resource() */
    ghost function SelectedResourceSpec(): Result<Resource>
      requires Valid()
      reads this, cache, store, store.storage.Values
    {
      match SelectedPath()
      case Err(e) => Err(e)
      case Ok(path) => UniqueResource(activeSession.value.resources, path)
    }

    /** _find_rdr(kind, id) */
    ghost function FindRdrSpec(kind: RdrKind, id: string): Result<Option<Rdr>>
      requires Valid()
      reads this, cache, store, store.storage.Values
    {
      match SelectedResourceSpec()
      case Err(e) => Err(e)
      case Ok(res) => Ok(FirstRdr(res.rdrs, kind, id))
    }

    /** self._cp[key], reading through the `_cp` property. */
    method ReadSelection(key: string) returns (r: Result<Selection>)
      requires Valid()
      modifies store
      ensures Valid() && store.Extends(old(store.storage))
      ensures r == old(Selected(key)) && store.View() == old(Touched())
      ensures forall c :: c in store.storage ==> c in old(store.storage) || fresh(store.storage[c])
      ensures forall k :: Selected(k) == old(Selected(k))
      ensures forall k, v :: Written(k, v) == old(Written(k, v))
    {
      var scope := store.Cp(ActiveProp());
      if scope.Err? {
        return Err(scope.error);
      }
      r := scope.value.Get(key);
    }

    /** self._cp[key] = v */
    method WriteSelection(key: string, v: Selection) returns (o: Outcome)
      requires Valid() && WellKeyed(map[key := v])
      modifies store, store.storage.Values
      ensures Valid() && store.Extends(old(store.storage))
      ensures o == if activeSession.None? then Fail(NoConnectionActive) else Pass
      ensures store.View() == old(Written(key, v))
      ensures Selected(key) == if activeSession.None? then Err(NoConnectionActive) else Ok(v)
      ensures forall k :: k != key ==> Selected(k) == old(Selected(k))
      ensures forall c :: c in store.storage ==> c in old(store.storage) || fresh(store.storage[c])
    {
      var scope := store.Cp(ActiveProp());
      if scope.Err? {
        return Fail(scope.error);
      }
      PutSelection(scope.value, key, v);
      return Pass;
    }

    /** The assignment into the dictionary `_cp` returned. */
    method PutSelection(scope: Scope<Selection>, key: string, v: Selection)
      requires Valid() && WellKeyed(map[key := v])
      requires activeSession.Some? && activeSession.value in store.storage && store.storage[activeSession.value] == scope
      modifies scope
      ensures Valid()
      ensures store.View() == old(store.View())[activeSession.value := old(store.View())[activeSession.value][key := v]]
    {
      ghost var before := store.View();
      scope.Put(key, v);
      assert forall c :: c in store.storage && c != activeSession.value ==> store.storage[c] != scope;
      assert store.View() == before[activeSession.value := before[activeSession.value][key := v]];
    }

    // -------------------------------------------------------------------------
    // Connections
    // -------------------------------------------------------------------------

    /** open_hpi_connection(host, port, alias) against the daemon at host:port. */
    method OpenHpiConnection(port: Arg, alias: Option<string>, daemon: Daemon) returns (r: Result<nat>)
      requires Valid()
      modifies this, cache
      ensures Valid() && activeDevice == old(activeDevice)
      ensures IntOf(port).Err? ==>
        r == Err(IntOf(port).error) && activeSession == old(activeSession) && unchanged(cache)
      ensures IntOf(port).Ok? && !daemon.reachable ==>
        r == Err(TransportError) && activeSession == old(activeSession) && unchanged(cache)
      ensures IntOf(port).Ok? && daemon.reachable ==>
        && r == Ok(|old(cache.connections)| + 1)
        && activeSession.Some? && fresh(activeSession.value)
        && activeSession.value.resources == daemon.resources
        && activeSession.value.events == daemon.pendingEvents
        && activeSession.value.isOpen && activeSession.value.started == []
        && cache.connections == old(cache.connections) + [activeSession.value]
        && cache.currentIndex == Some(r.value)
        && cache.aliases == if alias.Some? then old(cache.aliases)[alias.value := r.value] else old(cache.aliases)
    {
      var p := IntOf(port);
      if p.Err? {
        return Err(p.error);
      }
      if !daemon.reachable {
        return Err(TransportError);
      }
      var session := new Session(daemon);
      activeSession := Some(session);
      var index := cache.Register(session, alias);
      return Ok(index);
    }

    /** switch_hpi_connection(index_or_alias): the cache switches and the switched-to
        session lands in `_active_device`; `_active_session`, and with it the scope
        the keywords use, stays where it was. */
    method SwitchHpiConnection(indexOrAlias: Arg) returns (r: Result<Option<nat>>)
      requires Valid()
      modifies this, cache
      ensures Valid() && activeSession == old(activeSession)
      ensures cache.connections == old(cache.connections) && cache.aliases == old(cache.aliases)
      ensures old(cache.ResolveIndex(indexOrAlias)).None? ==>
        && r == Err(NonExistingConnection(indexOrAlias))
        && cache.currentIndex == old(cache.currentIndex) && activeDevice == old(activeDevice)
      ensures old(cache.ResolveIndex(indexOrAlias)).Some? ==>
        && r == Ok(old(cache.currentIndex))
        && cache.currentIndex == old(cache.ResolveIndex(indexOrAlias))
        && activeDevice == cache.Current()
      ensures forall k :: Selected(k) == old(Selected(k))
    {
      var oldIndex := cache.currentIndex;
      var device := cache.Switch(indexOrAlias);
      if device.Err? {
        return Err(device.error);
      }
      activeDevice := Some(device.value);
      return Ok(oldIndex);
    }

    /** close_hpi_connection(): closes the active session, which must not be None. */
    method CloseHpiConnection() returns (o: Outcome)
      requires Valid()
      modifies if activeSession.Some? then {activeSession.value} else {}
      ensures Valid()
      ensures activeSession.None? ==> o == Fail(NoSession)
      ensures activeSession.Some? ==>
        && o == Pass && !activeSession.value.isOpen
        && activeSession.value.events == old(activeSession.value.events)
        && activeSession.value.started == old(activeSession.value.started)
    {
      if activeSession.None? {
        return Fail(NoSession);
      }
      activeSession.value.Close();
      return Pass;
    }

    /** close_all_hpi_connections(): every cached session is closed, the cache is
        emptied, and the active session becomes what close_all returns, None.
        The scopes are not cleared. */
    method CloseAllHpiConnections()
      requires Valid()
      modifies this, cache, cache.connections
      ensures Valid() && activeSession == None && activeDevice == old(activeDevice)
      ensures cache.connections == [] && cache.currentIndex == None && cache.aliases == map[]
      ensures forall s :: s in old(cache.connections) ==> !s.isOpen
      ensures store.View() == old(store.View())
    {
      cache.CloseAll();
      activeSession := None;
    }

    // -------------------------------------------------------------------------
    // Selections
    // -------------------------------------------------------------------------

    /** set_entity_path(ep), where parsed is EntityPath().from_string(ep) or None
        where that raises ValueError. */
    method SetEntityPath(parsed: Option<EntityPath>) returns (o: Outcome)
      requires Valid()
      modifies store, store.storage.Values
      ensures Valid() && store.Extends(old(store.storage))
      ensures parsed.None? ==>
        o == Fail(InvalidEntityPath) && store.storage == old(store.storage) && store.View() == old(store.View())
      ensures parsed.Some? ==>
        && o == (if activeSession.None? then Fail(NoConnectionActive) else Pass)
        && store.View() == old(Written(EntityPathKey, PathSel(parsed.value)))
      ensures parsed.Some? && activeSession.Some? ==> Selected(EntityPathKey) == Ok(PathSel(parsed.value))
      ensures forall k :: k != EntityPathKey ==> Selected(k) == old(Selected(k))
      ensures forall c :: c in store.storage ==> c in old(store.storage) || fresh(store.storage[c])
    {
      if parsed.None? {
        return Fail(InvalidEntityPath);
      }
      o := WriteSelection(EntityPathKey, PathSel(parsed.value));
    }

    /** _selected_resource(): the stored path must name exactly one resource of the session. */
    method SelectedResource() returns (r: Result<Resource>)
      requires Valid()
      modifies store
      ensures Valid() && store.Extends(old(store.storage)) && store.View() == old(Touched())
      ensures r == old(SelectedResourceSpec())
      ensures r.Ok? ==> old(SelectedPath()).Ok? && r.value.entityPath == old(SelectedPath()).value
      ensures forall c :: c in store.storage ==> c in old(store.storage) || fresh(store.storage[c])
      ensures forall k :: Selected(k) == old(Selected(k))
      ensures forall k, v :: Written(k, v) == old(Written(k, v))
    {
      var sel := ReadSelection(EntityPathKey);
      if sel.Err? {
        return Err(sel.error);
      }
      var found := activeSession.value.ResourcesByEntityPath(sel.value.path);
      MatchingOne(activeSession.value.resources, sel.value.path);
      if |found| != 1 {
        return Err(NotExactlyOneResource);
      }
      assert found[0] in found;
      return Ok(found[0]);
    }

    /** _find_rdr(kind, id) */
    method FindRdr(kind: RdrKind, id: string) returns (r: Result<Option<Rdr>>)
      requires Valid()
      modifies store
      ensures Valid() && store.Extends(old(store.storage)) && store.View() == old(Touched())
      ensures r == old(FindRdrSpec(kind, id))
      ensures forall c :: c in store.storage ==> c in old(store.storage) || fresh(store.storage[c])
      ensures forall k :: Selected(k) == old(Selected(k))
    {
      var res := SelectedResource();
      if res.Err? {
        return Err(res.error);
      }
      var rdr := FindRdrIn(res.value.rdrs, kind, id);
      return Ok(rdr);
    }

    /** _rdr_should_exist(kind, id): the found record is selected; on failure nothing is written. */
    method RdrShouldExist(kind: RdrKind, id: string) returns (o: Outcome)
      requires Valid()
      modifies store, store.storage.Values
      ensures Valid() && store.Extends(old(store.storage))
      ensures old(FindRdrSpec(kind, id)).Err? ==>
        o == Fail(old(FindRdrSpec(kind, id)).error) && store.View() == old(Touched())
      ensures old(FindRdrSpec(kind, id)) == Ok(None) ==>
        o == Fail(RdrNotFound(id)) && store.View() == old(Touched())
      ensures old(FindRdrSpec(kind, id)).Ok? && old(FindRdrSpec(kind, id)).value.Some? ==>
        o == Pass && store.View() == old(Written(SelectedRdrKey, RdrSel(FindRdrSpec(kind, id).value.value)))
      ensures o == Pass ==> Selected(SelectedRdrKey) == Ok(RdrSel(old(FindRdrSpec(kind, id)).value.value))
      ensures o != Pass ==> forall k :: Selected(k) == old(Selected(k))
      ensures forall c :: c in store.storage ==> c in old(store.storage) || fresh(store.storage[c])
    {
      var found := FindRdr(kind, id);
      if found.Err? {
        return Fail(found.error);
      }
      if found.value.None? {
        return Fail(RdrNotFound(id));
      }
      o := WriteSelection(SelectedRdrKey, RdrSel(found.value.value));
    }

    /** fumi_rdr_should_exist(id), which select_fumi_rdr(id) calls. */
    method FumiRdrShouldExist(id: string) returns (o: Outcome)
      requires Valid()
      modifies store, store.storage.Values
      ensures Valid() && store.Extends(old(store.storage))
      ensures o == Pass <==> old(FindRdrSpec(FumiRdr, id)).Ok? && old(FindRdrSpec(FumiRdr, id)).value.Some?
      ensures old(FindRdrSpec(FumiRdr, id)).Err? ==>
        o == Fail(old(FindRdrSpec(FumiRdr, id)).error) && store.View() == old(Touched())
      ensures old(FindRdrSpec(FumiRdr, id)) == Ok(None) ==>
        o == Fail(RdrNotFound(id)) && store.View() == old(Touched())
      ensures o == Pass ==>
        && store.View() == old(Written(SelectedRdrKey, RdrSel(FindRdrSpec(FumiRdr, id).value.value)))
        && SelectedRdr() == Ok(old(FindRdrSpec(FumiRdr, id)).value.value)
        && RdrMatches(SelectedRdr().value, FumiRdr, id)
      ensures o != Pass ==> forall k :: Selected(k) == old(Selected(k))
      ensures forall c :: c in store.storage ==> c in old(store.storage) || fresh(store.storage[c])
    {
      o := RdrShouldExist(FumiRdr, id);
    }

    /** dimi_rdr_should_exist(id), which select_dimi_rdr(id) calls. */
    method DimiRdrShouldExist(id: string) returns (o: Outcome)
      requires Valid()
      modifies store, store.storage.Values
      ensures Valid() && store.Extends(old(store.storage))
      ensures o == Pass <==> old(FindRdrSpec(DimiRdr, id)).Ok? && old(FindRdrSpec(DimiRdr, id)).value.Some?
      ensures old(FindRdrSpec(DimiRdr, id)).Err? ==>
        o == Fail(old(FindRdrSpec(DimiRdr, id)).error) && store.View() == old(Touched())
      ensures old(FindRdrSpec(DimiRdr, id)) == Ok(None) ==>
        o == Fail(RdrNotFound(id)) && store.View() == old(Touched())
      ensures o == Pass ==>
        && store.View() == old(Written(SelectedRdrKey, RdrSel(FindRdrSpec(DimiRdr, id).value.value)))
        && SelectedRdr() == Ok(old(FindRdrSpec(DimiRdr, id)).value.value)
        && RdrMatches(SelectedRdr().value, DimiRdr, id)
      ensures o != Pass ==> forall k :: Selected(k) == old(Selected(k))
      ensures forall c :: c in store.storage ==> c in old(store.storage) || fresh(store.storage[c])
    {
      o := RdrShouldExist(DimiRdr, id);
    }

    /** select_test(number), where test is what the client's get_test_by_num(number)
        returns for the DIMI of the selected resource and record. */
    method SelectTest(number: Arg, test: DimiTest) returns (o: Outcome)
      requires Valid()
      modifies store, store.storage.Values
      ensures Valid() && store.Extends(old(store.storage))
      ensures IntOf(number).Err? ==>
        o == Fail(IntOf(number).error) && store.storage == old(store.storage) && store.View() == old(store.View())
      ensures IntOf(number).Ok? && old(SelectedResourceSpec()).Err? ==>
        o == Fail(old(SelectedResourceSpec()).error) && store.View() == old(Touched())
      ensures IntOf(number).Ok? && old(SelectedResourceSpec()).Ok? && old(SelectedRdr()).Err? ==>
        o == Fail(old(SelectedRdr()).error) && store.View() == old(Touched())
      ensures IntOf(number).Ok? && old(SelectedResourceSpec()).Ok? && old(SelectedRdr()).Ok? ==>
        o == Pass && store.View() == old(Written(SelectedTestKey, TestSel(test)))
      ensures forall c :: c in store.storage ==> c in old(store.storage) || fresh(store.storage[c])
    {
      var n := IntOf(number);
      if n.Err? {
        return Fail(n.error);
      }
      var res := SelectedResource();
      if res.Err? {
        return Fail(res.error);
      }
      var rdr := ReadSelection(SelectedRdrKey);
      if rdr.Err? {
        return Fail(rdr.error);
      }
      o := WriteSelection(SelectedTestKey, TestSel(test));
    }

    /** default_value_of_parameter_of_selected_test_should_be(name, expected) */
    method DefaultValueOfParameterOfSelectedTestShouldBe(name: string, expected: Arg) returns (o: Outcome)
      requires Valid()
      modifies store
      ensures Valid() && store.Extends(old(store.storage)) && store.View() == old(Touched())
      ensures o == DefaultValueCheck(old(SelectedTest()), name, expected)
      ensures forall c :: c in store.storage ==> c in old(store.storage) || fresh(store.storage[c])
    {
      var sel := ReadSelection(SelectedTestKey);
      if sel.Err? {
        return Fail(sel.error);
      }
      var parameter := FirstParameter(sel.value.test.parameters, name);
      if parameter.None? {
        return Fail(ParameterNotFound(name));
      }
      if expected != parameter.value.default {
        return Fail(NotEqual(expected, parameter.value.default));
      }
      return Pass;
    }

    /** start_test(*parameters): every token is split before the selected test is
        looked up, and the test is started on the session with the pairs, or with
        None when there are no tokens. */
    method StartTest(parameters: seq<string>) returns (o: Outcome)
      requires Valid()
      modifies store, if activeSession.Some? then {activeSession.value} else {}
      ensures Valid() && store.Extends(old(store.storage))
      ensures !AllSplittable(parameters) ==>
        && o == Fail(MalformedParameter)
        && store.storage == old(store.storage) && store.View() == old(store.View())
        && (activeSession.Some? ==> activeSession.value.started == old(activeSession.value.started))
      ensures AllSplittable(parameters) && old(SelectedTest()).Err? ==>
        && o == Fail(old(SelectedTest()).error) && store.View() == old(Touched())
        && (activeSession.Some? ==> activeSession.value.started == old(activeSession.value.started))
      ensures AllSplittable(parameters) && old(SelectedTest()).Ok? ==>
        && o == Pass && store.View() == old(Touched()) && activeSession.Some?
        && |activeSession.value.started| == |old(activeSession.value.started)| + 1
        && activeSession.value.started[..|old(activeSession.value.started)|] == old(activeSession.value.started)
        && StartedWith(activeSession.value.started[|old(activeSession.value.started)|], old(SelectedTest()).value, parameters)
      ensures activeSession.Some? ==>
        activeSession.value.events == old(activeSession.value.events) && activeSession.value.isOpen == old(activeSession.value.isOpen)
      ensures forall c :: c in store.storage ==> c in old(store.storage) || fresh(store.storage[c])
    {
      var pairs := SplitParameters(parameters);
      if pairs.Err? {
        return Fail(pairs.error);
      }
      var sel := ReadSelection(SelectedTestKey);
      if sel.Err? {
        return Fail(sel.error);
      }
      var request := if parameters == [] then None else Some(pairs.value);
      activeSession.value.StartTest(sel.value.test, request);
      return Pass;
    }

    // -------------------------------------------------------------------------
    // Events
    // -------------------------------------------------------------------------

    /** clear_event_queue(): takes events until the listener has none. */
    method ClearEventQueue() returns (o: Outcome)
      requires Valid()
      modifies if activeSession.Some? then {activeSession.value} else {}
      ensures Valid()
      ensures activeSession.None? ==> o == Fail(NoSession)
      ensures activeSession.Some? ==>
        && o == Pass && activeSession.value.events == []
        && activeSession.value.isOpen == old(activeSession.value.isOpen)
        && activeSession.value.started == old(activeSession.value.started)
    {
      if activeSession.None? {
        return Fail(NoSession);
      }
      var listener := activeSession.value;
      while true
        invariant listener.isOpen == old(listener.isOpen) && listener.started == old(listener.started)
        decreases |listener.events|
      {
        var event := listener.GetEvent();
        if event.None? {
          return Pass;
        }
      }
    }

    /** wait_until_event_queue_contains_event_type(event_type) over the events already
        queued: events of other types are taken and dropped, the first of the type is
        selected, and a queue that runs dry fails the wait. */
    method WaitUntilEventQueueContainsEventType(eventType: Arg) returns (o: Outcome)
      requires Valid()
      modifies store, store.storage.Values, if activeSession.Some? then {activeSession.value} else {}
      ensures Valid() && store.Extends(old(store.storage))
      ensures activeSession.None? ==> o == Fail(NoSession) && store.View() == old(store.View())
      ensures activeSession.Some? && FindEventType(sahpi, eventType).Err? ==>
        && o == Fail(FindEventType(sahpi, eventType).error)
        && store.View() == old(store.View()) && activeSession.value.events == old(activeSession.value.events)
      ensures activeSession.Some? && FindEventType(sahpi, eventType).Ok? ==>
        var wanted := FindEventType(sahpi, eventType).value;
        var queue := old(activeSession.value.events);
        var k := FirstEventIndex(queue, wanted);
        && (k == |queue| ==>
              o == Fail(NoEventOfType(wanted)) && activeSession.value.events == []
              && store.View() == old(store.View()))
        && (k < |queue| ==>
              o == Pass && activeSession.value.events == queue[k + 1..]
              && store.View() == old(Written(SelectedEventKey, EventSel(queue[k]))))
      ensures activeSession.Some? ==>
        activeSession.value.isOpen == old(activeSession.value.isOpen) &&
        activeSession.value.started == old(activeSession.value.started)
      ensures forall c :: c in store.storage ==> c in old(store.storage) || fresh(store.storage[c])
    {
      if activeSession.None? {
        return Fail(NoSession);
      }
      var listener := activeSession.value;
      var wanted := FindEventType(sahpi, eventType);
      if wanted.Err? {
        return Fail(wanted.error);
      }
      var event := TakeEventOfType(listener, wanted.value);
      if event.None? {
        return Fail(NoEventOfType(wanted.value));
      }
      var stored := WriteSelection(SelectedEventKey, EventSel(event.value));
      return Pass;
    }

    /** upgrade_state_of_fumi_event_should_be(expected): the selected event must be a
        FUMI event before expected is resolved as an upgrade state. */
    method UpgradeStateOfFumiEventShouldBe(expected: Arg) returns (o: Outcome)
      requires Valid()
      modifies store
      ensures Valid() && store.Extends(old(store.storage)) && store.View() == old(Touched())
      ensures o == CheckEventStatus(old(SelectedEvent()), etFumi, EventNotFumi, FindFumiUpgradeState(sahpi, expected))
      ensures forall c :: c in store.storage ==> c in old(store.storage) || fresh(store.storage[c])
    {
      var sel := ReadSelection(SelectedEventKey);
      if sel.Err? {
        return Fail(sel.error);
      }
      if sel.value.event.eventType != etFumi {
        return Fail(EventNotFumi);
      }
      var state := FindFumiUpgradeState(sahpi, expected);
      if state.Err? {
        return Fail(state.error);
      }
      if state.value != sel.value.event.status {
        return Fail(NotEqual(Num(state.value), Num(sel.value.event.status)));
      }
      return Pass;
    }

    /** test_status_of_dimi_event_should_be(expected): the selected event must be a
        DIMI event before expected is resolved as a test status. */
    method TestStatusOfDimiEventShouldBe(expected: Arg) returns (o: Outcome)
      requires Valid()
      modifies store
      ensures Valid() && store.Extends(old(store.storage)) && store.View() == old(Touched())
      ensures o == CheckEventStatus(old(SelectedEvent()), etDimi, EventNotDimi, FindDimiTestStatus(sahpi, expected))
      ensures forall c :: c in store.storage ==> c in old(store.storage) || fresh(store.storage[c])
    {
      var sel := ReadSelection(SelectedEventKey);
      if sel.Err? {
        return Fail(sel.error);
      }
      if sel.value.event.eventType != etDimi {
        return Fail(EventNotDimi);
      }
      var status := FindDimiTestStatus(sahpi, expected);
      if status.Err? {
        return Fail(status.error);
      }
      if status.value != sel.value.event.status {
        return Fail(NotEqual(Num(status.value), Num(sel.value.event.status)));
      }
      return Pass;
    }
  }

  /** The wait loop of wait_until_event_queue_contains_event_type: events are taken
      from the listener until one has the wanted type. */
  method TakeEventOfType(listener: Session, wanted: int) returns (e: Option<Event>)
    modifies listener
    ensures var k := FirstEventIndex(old(listener.events), wanted);
      && (k == |old(listener.events)| ==> e.None? && listener.events == [])
      && (k < |old(listener.events)| ==>
            e == Some(old(listener.events)[k]) && listener.events == old(listener.events)[k + 1..])
    ensures listener.isOpen == old(listener.isOpen) && listener.started == old(listener.started)
  {
    ghost var queue := listener.events;
    ghost var taken := 0;
    while true
      invariant 0 <= taken <= |queue| && listener.events == queue[taken..]
      invariant forall j :: 0 <= j < taken ==> queue[j].eventType != wanted
      invariant listener.isOpen == old(listener.isOpen) && listener.started == old(listener.started)
      decreases |listener.events|
    {
      var event := listener.GetEvent();
      if event.None? {
        return None;
      }
      assert event.value == queue[taken];
      if event.value.eventType == wanted {
        return event;
      }
      taken := taken + 1;
    }
  }

  /** Indices count from 1, a switch answers the previous index, and closing
      everything starts the numbering again. */
  method NumberingScenario(daemon: Daemon)
    requires daemon.reachable
  {
    var lib := new Library([], 1, 2);
    var first := lib.OpenHpiConnection(Num(4743), None, daemon);
    assert first == Ok(1);
    var second := lib.OpenHpiConnection(Num(4743), Some("shelf"), daemon);
    assert second == Ok(2);
    var third := lib.OpenHpiConnection(Num(4743), None, daemon);
    assert third == Ok(3);
    var previous := lib.SwitchHpiConnection(Text("shelf"));
    assert previous == Ok(Some(3));
    lib.CloseAllHpiConnections();
    var again := lib.OpenHpiConnection(Num(4743), None, daemon);
    assert again == Ok(1);
  }

  /** The keywords keep using the scope of the session opened last, whatever
      connection was switched to. */
  method ScopeScenario(lib: Library, daemon: Daemon, path: EntityPath)
    requires lib.Valid() && daemon.reachable
    modifies lib, lib.cache, lib.store, lib.store.storage.Values
  {
    var first := lib.OpenHpiConnection(Num(4743), Some("shelf"), daemon);
    var second := lib.OpenHpiConnection(Num(4743), None, daemon);
    var stored := lib.SetEntityPath(Some(path));
    assert stored == Pass;
    var previous := lib.SwitchHpiConnection(Text("shelf"));
    assert previous.Ok? && lib.activeDevice != lib.activeSession;
    var read := lib.ReadSelection(EntityPathKey);
    assert read == Ok(PathSel(path));
  }
}
