/** The HPI client the library drives, reduced to what the library reads and
    changes: a session's resources, its event queue, whether it is open, and the
    test starts sent through it. Every other call into the client is left out. */
module Pyhpi {
  import opened Values

  /** A hierarchical locator: (entity type, instance) pairs. */
  datatype EntityPath = EntityPath(elements: seq<(string, int)>)

  /** The record classes the library tells apart with isinstance(). */
  datatype RdrKind = FumiRdr | DimiRdr | OtherRdr

  /** A resource data record: its class, its id string and its FUMI or DIMI number. */
  datatype Rdr = Rdr(kind: RdrKind, idString: string, number: int)

  /** A resource: the entity path of its RPT entry and its records, in the client's order. */
  datatype Resource = Resource(entityPath: EntityPath, rdrs: seq<Rdr>)

  datatype Parameter = Parameter(name: string, default: Arg)

  /** A DIMI test as get_test_by_num hands it out. */
  datatype DimiTest = DimiTest(number: int, name: string, parameters: seq<Parameter>)

  /** An event: its type and, for FUMI events, the upgrade status, for DIMI events, the run status. */
  datatype Event = Event(eventType: int, status: int)

  /** A test.start(parameters) call: the test and the parameter list or None. */
  datatype StartRequest = StartRequest(test: DimiTest, parameters: Option<seq<(string, string)>>)

  /** What the HPI daemon at the configured host and port offers to a new session. */
  datatype Daemon = Daemon(reachable: bool, resources: seq<Resource>, pendingEvents: seq<Event>)

  class Session {
    const resources: seq<Resource>
    var events: seq<Event>
    var isOpen: bool
    var started: seq<StartRequest>

    /** Session(), open() and attach_event_listener() against a reachable daemon. */
    constructor (daemon: Daemon)
      requires daemon.reachable
      ensures resources == daemon.resources && events == daemon.pendingEvents
      ensures isOpen && started == []
    {
      resources := daemon.resources;
      events := daemon.pendingEvents;
      isOpen := true;
      started := [];
    }

    /** get_resources_by_entity_path(path): the resources whose entity path is path, in order. */
    function ResourcesByEntityPath(path: EntityPath): (r: seq<Resource>)
      ensures forall x :: x in r <==> x in resources && x.entityPath == path
    {
      Matching(resources, path)
    }

    /** event_listener.get(timeout=0): the oldest queued event, or None. */
    method GetEvent() returns (e: Option<Event>)
      modifies this
      ensures old(events) == [] ==> e.None? && events == []
      ensures old(events) != [] ==> e == Some(old(events)[0]) && events == old(events)[1..]
      ensures isOpen == old(isOpen) && started == old(started)
    {
      if events == [] {
        e := None;
      } else {
        e := Some(events[0]);
        events := events[1..];
      }
    }

    /** test.start(parameters) for a test of this session. */
    method StartTest(test: DimiTest, parameters: Option<seq<(string, string)>>)
      modifies this
      ensures started == old(started) + [StartRequest(test, parameters)]
      ensures events == old(events) && isOpen == old(isOpen)
    {
      started := started + [StartRequest(test, parameters)];
    }

    method Close()
      modifies this
      ensures !isOpen && events == old(events) && started == old(started)
    {
      isOpen := false;
    }
  }

  /** The resources of rs whose entity path is path, in order. */
  function Matching(rs: seq<Resource>, path: EntityPath): (r: seq<Resource>)
    ensures |r| <= |rs|
    ensures forall x :: x in r <==> x in rs && x.entityPath == path
  {
    if rs == [] then []
    else (if rs[0].entityPath == path then [rs[0]] else []) + Matching(rs[1..], path)
  }
}
