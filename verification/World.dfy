/** All paths together. A path's cells are touched by the callbacks on that path alone (their names
    in the cache directory and in both tables differ, see NamesCollideIff), except that a crash
    hits every path at once. */
module World {
  import opened Basics
  import opened StampCodec
  import opened Protocol
  import opened Invariant
  import opened Reachable
  import opened Theorems
  import C = ClientCell

  type Paths = map<Bytes, State>

  /** A client's crash says of which paths an erased timestamp comes back as a tombstone. */
  datatype WorldEvent =
    | At(path: Bytes, event: Event)
    | ClientDown(client: ClientId, tombstones: set<Bytes>)
    | ServerDown

  /** The client cannot start: the mark of a local file is on its disk, for whatever path. */
  ghost predicate CannotStart(w: Paths, client: ClientId)
  {
    exists p :: p in w && client in w[p].cells && (w[p].cells[client].marked || w[p].cells[client].pc.Dead?)
  }

  /** Crashes are events of the world, not of one path. */
  ghost function WorldNext(w: Paths, e: WorldEvent): Paths
  {
    match e
    case At(path, event) =>
      if path in w && !event.ClientCrash? && !event.ServerCrash? then w[path := Next(w[path], event)] else w
    case ClientDown(client, tombstones) =>
      map p | p in w :: Next(w[p], ClientCrash(client, p in tombstones, CannotStart(w, client)))
    case ServerDown => map p | p in w :: Next(w[p], ServerCrash)
  }

  ghost function WorldRun(w: Paths, events: seq<WorldEvent>): Paths
  {
    if events == [] then w else WorldNext(WorldRun(w, events[..|events| - 1]), events[|events| - 1])
  }

  ghost function WorldStart(paths: set<Bytes>, clients: set<ClientId>): Paths
  {
    map p | p in paths :: Initial(clients)
  }

  /** What a run of the world does to one path is a run of that path. */
  ghost function Projected(w: Paths, events: seq<WorldEvent>, path: Bytes): seq<Event>
  {
    if events == [] then []
    else
      var front, e := events[..|events| - 1], events[|events| - 1];
      var before := Projected(w, front, path);
      match e
      case At(p, event) => if p == path && !event.ClientCrash? && !event.ServerCrash? then before + [event] else before
      case ClientDown(client, tombstones) =>
        before + [ClientCrash(client, path in tombstones, CannotStart(WorldRun(w, front), client))]
      case ServerDown => before + [ServerCrash]
  }

  lemma {:induction false} WorldRunProjects(w: Paths, events: seq<WorldEvent>, path: Bytes)
    requires path in w
    ensures WorldRun(w, events).Keys == w.Keys
    ensures WorldRun(w, events)[path] == Run(w[path], Projected(w, events, path))
  {
    hide Next, CannotStart;
    if events == [] {
    } else {
      var front := events[..|events| - 1];
      WorldRunProjects(w, front, path);
      var before, after := Projected(w, front, path), Projected(w, events, path);
      if after != before {
        assert after[..|after| - 1] == before;
      }
    }
  }

  /** An event of one path as one of the world; a client's crash is no event of one path. */
  function Lifted(path: Bytes, e: Event): WorldEvent
  {
    if e.ServerCrash? then ServerDown else At(path, e)
  }

  function LiftedAll(path: Bytes, events: seq<Event>): (es: seq<WorldEvent>)
    ensures |es| == |events|
  {
    seq(|events|, i requires 0 <= i < |events| => Lifted(path, events[i]))
  }

  /** Conversely every run of one path without client crashes is one of the world in which the other
      paths stand still, but for uploads that a server crash ends. */
  lemma {:induction false} RunIsWorldRun(w: Paths, path: Bytes, events: seq<Event>)
    requires path in w && forall e :: e in events ==> !e.ClientCrash?
    ensures var t := WorldRun(w, LiftedAll(path, events));
      && path in t && t[path] == Run(w[path], events)
      && forall p :: p in w && p != path ==> p in t && t[p] == w[p].(uploads := t[p].uploads)
  {
    hide Next;
    if events == [] {
    } else {
      var front, e := events[..|events| - 1], events[|events| - 1];
      RunIsWorldRun(w, path, front);
      assert LiftedAll(path, events)[..|events| - 1] == LiftedAll(path, front);
      assert e in events;
      var t := WorldRun(w, LiftedAll(path, front));
      WorldStep(t, path, e);
    }
  }

  lemma WorldStep(w: Paths, path: Bytes, e: Event)
    requires path in w && !e.ClientCrash?
    ensures var t := WorldNext(w, Lifted(path, e));
      && path in t && t[path] == Next(w[path], e)
      && forall p :: p in w && p != path ==> p in t && t[p] == w[p].(uploads := t[p].uploads)
  {
  }

  /** A client on whose disk every mark has been dropped starts again. */
  lemma MarksDropped(w: Paths, client: ClientId, tombstones: set<Bytes>, path: Bytes)
    requires path in w && client in w[path].cells
    requires forall p :: p in w && client in w[p].cells ==>
      !w[p].cells[client].pc.Exited? && !w[p].cells[client].pc.Dead? && w[p].cells[client].stamp != Some(LOCAL)
    ensures var unmarked := map p | p in w :: Next(w[p], Snapshot(client));
      WorldNext(unmarked, ClientDown(client, tombstones))[path].cells[client].pc.Idle?
  {
    var unmarked := map p | p in w :: Next(w[p], Snapshot(client));
    forall p | p in unmarked && client in unmarked[p].cells
      ensures !unmarked[p].cells[client].marked && !unmarked[p].cells[client].pc.Dead?
    {
      assert p in w && client in w[p].cells;
    }
    RestartIsAllOrNone(unmarked, client, tombstones, path);
  }

  /** A restart is one of the whole client: it is up on every path or, for good, on none. */
  lemma RestartIsAllOrNone(w: Paths, client: ClientId, tombstones: set<Bytes>, path: Bytes)
    requires path in w && client in w[path].cells
    ensures var t := WorldNext(w, ClientDown(client, tombstones));
      && path in t && client in t[path].cells
      && (if CannotStart(w, client) then t[path].cells[client].pc.Dead? && CannotStart(t, client)
          else t[path].cells[client].pc.Idle? && !CannotStart(t, client))
  {
    var t := WorldNext(w, ClientDown(client, tombstones));
    assert t[path].cells[client].pc.Dead? ==> CannotStart(t, client);
    if !CannotStart(w, client) {
      forall p | p in t && client in t[p].cells ensures !t[p].cells[client].marked && !t[p].cells[client].pc.Dead? {
        assert !w[p].cells[client].marked;
      }
    }
  }

  /** Coherence for every client and every path, in every run. */
  lemma WorldCoherence(paths: set<Bytes>, clients: set<ClientId>, events: seq<WorldEvent>, path: Bytes, id: ClientId)
    requires path in paths && id in clients
    ensures var w := WorldRun(WorldStart(paths, clients), events);
      && path in w && id in w[path].cells && Inv(w[path])
      && var s := w[path]; var c := s.cells[id];
         Named(s.file, c) && !c.dirty && c.cache.Some? ==> c.cache.value == s.file.value.data
  {
    hide Next, CellInv;
    var w := WorldStart(paths, clients);
    WorldRunProjects(w, events, path);
    InitialInv(clients);
    RunInv(Initial(clients), Projected(w, events, path));
    LastWriterWins(Initial(clients), Projected(w, events, path));
    CacheCoherence(clients, Projected(w, events, path), id);
  }
}
