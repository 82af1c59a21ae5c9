/** Where the promises end: inputs on which the code falls short, and exactly when. */
module Limits {
  import opened Basics
  import opened Chunks
  import opened StampCodec
  import opened Protocol
  import opened Invariant
  import opened Reachable
  import opened Theorems
  import C = ClientCell

  /** A timestamp of the server for a cache file that is not there. */
  ghost predicate Missing(c: C.Cell)
  {
    c.stamp.Some? && c.stamp.value != LOCAL && c.stamp.value != ERASED && c.cache.None?
  }

  /** Outside afs_unlink. */
  ghost predicate Stray(c: C.Cell)
  {
    Missing(c) && !c.pc.UnStamp?
  }

  /** A step leads there if and only if it is a crash between the two removals of afs_unlink. */
  lemma StrayOnlyByCrash(file: Option<Version>, h: History, c: C.Cell, i: C.Input)
    requires FileInv(file, h) && CellInv(file, h, c) && Feeds(file, h, c, i) && !Stray(c)
    ensures Stray(C.Next(c, i)) <==> i.Crash? && Missing(c)
  {
    hide SeenInv, Coherent, StampInv, TornInv, MarkInv, FileInv, C.OwnStep, C.OnStat, C.OnFailure;
    match i {
      case Step => StrayStepOnly(file, h, c);
      case StatIs(reply, index) => OnlyPcMoves(c, C.OnStat(c, reply, index));
      case Failed => OnlyPcMoves(c, C.OnFailure(c));
      case _ =>
    }
  }

  lemma StrayStepOnly(file: Option<Version>, h: History, c: C.Cell)
    requires CellInv(file, h, c) && !Stray(c)
    ensures !Stray(C.OwnStep(c))
  {
    hide SeenInv, Coherent, StampInv, TornInv, MarkInv;
  }

  lemma OnlyPcMoves(c: C.Cell, d: C.Cell)
    requires (exists reply, index :: d == C.OnStat(c, reply, index)) || d == C.OnFailure(c)
    ensures Stray(d) ==> Stray(c)
  {
  }

  // -- The same over runs ------------------------------------------------------------------------

  ghost function After(clients: set<ClientId>, events: seq<Event>, n: int): State
    requires 0 <= n <= |events|
  {
    Run(Initial(clients), events[..n])
  }

  ghost predicate StrayAt(clients: set<ClientId>, events: seq<Event>, n: int, id: ClientId)
  {
    0 <= n <= |events| && id in After(clients, events, n).cells && Stray(After(clients, events, n).cells[id])
  }

  /** The n-th event is a crash of the client between removing the cache file and its timestamp. */
  ghost predicate CrashInUnlinkAt(clients: set<ClientId>, events: seq<Event>, n: int, id: ClientId)
  {
    && 0 <= n < |events| && events[n].ClientCrash? && events[n].client == id
    && id in After(clients, events, n).cells
    && After(clients, events, n).cells[id].pc.UnStamp? && Missing(After(clients, events, n).cells[id])
  }

  lemma StrayStep(clients: set<ClientId>, events: seq<Event>, n: nat, id: ClientId)
    requires n < |events| && !StrayAt(clients, events, n, id)
    ensures StrayAt(clients, events, n + 1, id) <==> CrashInUnlinkAt(clients, events, n, id)
  {
    hide Run, Next, Inv, CellInv, FileInv, C.Next, Feeds, Missing;
    var s, e := After(clients, events, n), events[n];
    assert events[..n + 1] == events[..n] + [e];
    RunSnoc(Initial(clients), events[..n], e);
    InitialInv(clients);
    RunInv(Initial(clients), events[..n]);
    NextHistory(s, e);
    if id in s.cells {
      NextCell(s, e, id);
      CellsInv(s, id);
      var i := InputOf(s, e, id);
      if i.Some? && !i.value.ReplyIs? {
        InputIsFed(s, e, id);
        StrayOnlyByCrash(s.file, s.history, s.cells[id], i.value);
      } else if i.Some? {
        ReplyKeepsCopy(s.cells[id], i.value);
      }
      CrashIsInput(s, e, id);
    }
  }

  lemma InputIsFed(s: State, e: Event, id: ClientId)
    requires Inv(s) && id in s.cells && InputOf(s, e, id).Some? && !InputOf(s, e, id).value.ReplyIs?
    ensures Feeds(s.file, s.history, s.cells[id], InputOf(s, e, id).value)
  {
  }

  lemma ReplyKeepsCopy(c: C.Cell, i: C.Input)
    requires i.ReplyIs?
    ensures Stray(C.Next(c, i)) ==> Stray(c)
  {
  }

  lemma CrashIsInput(s: State, e: Event, id: ClientId)
    requires id in s.cells
    ensures InputOf(s, e, id).Some? && InputOf(s, e, id).value.Crash? <==> e.ClientCrash? && e.client == id
  {
    hide C.Next, Fresh;
  }

  /** The exact condition over whole runs: a client outside afs_unlink holds a timestamp of the
      server without a cache file if and only if it crashed between the two removals and nothing
      since then has mended it. */
  lemma {:induction false} StrayIff(clients: set<ClientId>, events: seq<Event>, n: nat, id: ClientId)
    requires n <= |events|
    ensures StrayAt(clients, events, n, id) <==>
      exists k :: CrashInUnlinkAt(clients, events, k, id) && k < n && forall j :: k < j <= n ==> StrayAt(clients, events, j, id)
  {
    hide StrayAt, CrashInUnlinkAt;
    if n == 0 {
      NotStrayAtFirst(clients, events, id);
    } else if StrayAt(clients, events, n, id) {
      if StrayAt(clients, events, n - 1, id) {
        StrayIff(clients, events, n - 1, id);
        var k :| CrashInUnlinkAt(clients, events, k, id) && k < n - 1 && forall j :: k < j <= n - 1 ==> StrayAt(clients, events, j, id);
        assert forall j :: k < j <= n ==> StrayAt(clients, events, j, id);
      } else {
        StrayStep(clients, events, n - 1, id);
        assert CrashInUnlinkAt(clients, events, n - 1, id);
      }
    }
  }

  lemma NotStrayAtFirst(clients: set<ClientId>, events: seq<Event>, id: ClientId)
    ensures !StrayAt(clients, events, 0, id)
  {
  }

  /** So at some moment of a run a client is in that state if and only if one such crash occurs. */
  lemma EverStrayIff(clients: set<ClientId>, events: seq<Event>, id: ClientId)
    ensures (exists n :: StrayAt(clients, events, n, id)) <==> exists k :: CrashInUnlinkAt(clients, events, k, id)
  {
    hide CrashInUnlinkAt;
    if n: int :| StrayAt(clients, events, n, id) {
      StrayIff(clients, events, n, id);
    }
    if k: int :| CrashInUnlinkAt(clients, events, k, id) {
      CrashLeavesStray(clients, events, k, id);
    }
  }

  lemma CrashLeavesStray(clients: set<ClientId>, events: seq<Event>, k: int, id: ClientId)
    requires CrashInUnlinkAt(clients, events, k, id)
    ensures StrayAt(clients, events, k + 1, id)
  {
    hide Missing;
    if !StrayAt(clients, events, k, id) {
      StrayStep(clients, events, k, id);
    }
  }

  /** A cache hit hands out a live handle if and only if the cache file exists; in a run, unless
      such a crash came before and nothing has mended it. */
  lemma HitIsLiveIff(clients: set<ClientId>, events: seq<Event>, id: ClientId)
    requires var s := Run(Initial(clients), events);
      id in s.cells && s.cells[id].pc.OpenStat? && Named(s.file, s.cells[id])
    ensures var s := Run(Initial(clients), events);
      var d := Next(s, Advance(id)).cells[id];
      && d.pc.Idle? && d.stamp == s.cells[id].stamp
      && (d.handle.Live? <==> s.cells[id].cache.Some?)
      && (!d.handle.Live? <==> exists k :: CrashInUnlinkAt(clients, events, k, id)
                                 && forall j :: k < j <= |events| ==> StrayAt(clients, events, j, id))
  {
    hide Run, CrashInUnlinkAt;
    InitialInv(clients);
    RunInv(Initial(clients), events);
    var s := Run(Initial(clients), events);
    HitCell(s, id);
    assert events[..|events|] == events;
    StrayIff(clients, events, |events|, id);
    CrashesAreEarlier(clients, events, id);
  }

  lemma CrashesAreEarlier(clients: set<ClientId>, events: seq<Event>, id: ClientId)
    ensures forall k :: CrashInUnlinkAt(clients, events, k, id) ==> 0 <= k < |events|
  {
  }

  lemma HitCell(s: State, id: ClientId)
    requires Inv(s) && id in s.cells && s.cells[id].pc.OpenStat? && Named(s.file, s.cells[id])
    ensures var c, d := s.cells[id], Next(s, Advance(id)).cells[id];
      && d.pc.Idle? && d.stamp == c.stamp && (d.handle.Live? <==> c.cache.Some?)
      && (Stray(c) <==> c.cache.None?)
  {
    hide Next;
    CellsInv(s, id);
    NextCell(s, Advance(id), id);
    NamedIsKnown(s.file, s.history, s.cells[id]);
    KnownIsStamp(s.file, s.history, s.cells[id].stamp.value);
  }

  // -- Such a run, and a commit that falls between opening and stamping --------------------------

  /** A state with one client. */
  function One(file: Option<Version>, uploads: map<CallId, Upload>, history: History, c: C.Cell): State
  {
    State(file, uploads, history, map[0 := c])
  }

  const NEW := C.Cell(None, None, false, false, C.Idle, C.Closed, false, [])

  /** afs_mknod, undisturbed. */
  lemma Created(mtime: Bytes) returns (events: seq<Event>)
    requires |mtime| == STAMP_LENGTH && mtime != ERASED
    ensures var v := Version([], mtime);
      Run(Initial({0}), events) == One(Some(v), map[], [v], NEW.(cache := Some([]), stamp := Some(mtime)))
  {
    events := CreatedStart();
    events := CreatedSend(Initial({0}), events, NEW.(cache := Some([]), pc := C.MkSend));
    events := CreatedEnd(Initial({0}), events, NEW.(cache := Some([]), pc := C.MkWait(7)), mtime);
  }

  lemma Beginning()
    ensures Initial({0}) == One(None, map[], [], NEW)
  {
  }

  lemma MknodAsks()
    ensures Next(One(None, map[], [], NEW), Call(0, C.Mknod)) == One(None, map[], [], NEW.(pc := C.MkStat))
  {
  }

  lemma MknodIsFree()
    ensures Next(One(None, map[], [], NEW.(pc := C.MkStat)), Advance(0)) == One(None, map[], [], NEW.(pc := C.MkCreate))
  {
  }

  lemma MknodCreates()
    ensures Next(One(None, map[], [], NEW.(pc := C.MkCreate)), Advance(0))
         == One(None, map[], [], NEW.(cache := Some([]), pc := C.MkSend))
  {
  }

  lemma CreatedStart() returns (events: seq<Event>)
    ensures Run(Initial({0}), events) == One(None, map[], [], NEW.(cache := Some([]), pc := C.MkSend))
  {
    hide Run, Initial, Next;
    var s0 := Initial({0});
    RunNothing(s0);
    Beginning();
    MknodAsks();
    MknodIsFree();
    MknodCreates();
    events := [Call(0, C.Mknod)];
    assert [] + events == events;
    RunSnoc(s0, [], Call(0, C.Mknod));
    assert Run(s0, events) == One(None, map[], [], NEW.(pc := C.MkStat));
    RunSnoc(s0, events, Advance(0));
    events := events + [Advance(0)];
    assert Run(s0, events) == One(None, map[], [], NEW.(pc := C.MkCreate));
    RunSnoc(s0, events, Advance(0));
    events := events + [Advance(0)];
  }

  lemma CreatedSend(s0: State, made: seq<Event>, c: C.Cell) returns (events: seq<Event>)
    requires c == NEW.(cache := Some([]), pc := C.MkSend) && Run(s0, made) == One(None, map[], [], c)
    ensures Run(s0, events) == One(None, map[7 := Upload(0, [[]], [[]])], [], c.(pc := C.MkWait(7)))
  {
    hide Run;
    var empty: Bytes := [];
    assert Chunked([]) == [empty] && [empty][..1] == [empty];
    RunSnoc(s0, made, Start(0, 7));
    events := made + [Start(0, 7)];
    assert Run(s0, events) == One(None, map[7 := Upload(0, [[]], [])], [], c.(pc := C.MkWait(7)));
    RunSnoc(s0, events, Receive(7));
    events := events + [Receive(7)];
  }

  lemma CreatedEnd(s0: State, sent: seq<Event>, waiting: C.Cell, mtime: Bytes) returns (events: seq<Event>)
    requires |mtime| == STAMP_LENGTH && mtime != ERASED
    requires waiting == NEW.(cache := Some([]), pc := C.MkWait(7))
    requires Run(s0, sent) == One(None, map[7 := Upload(0, [[]], [[]])], [], waiting)
    ensures var v := Version([], mtime);
      Run(s0, events) == One(Some(v), map[], [v], waiting.(stamp := Some(mtime), pc := C.Idle))
  {
    hide Run;
    var v := Version([], mtime);
    var empty: Bytes := [];
    assert [empty][..0] == [] && Joined([empty]) == [];
    RunSnoc(s0, sent, Commit(7, mtime));
    events := sent + [Commit(7, mtime)];
    assert [] + [v] == [v];
    assert Run(s0, events) == One(Some(v), map[], [v], waiting.(pc := C.MkReply(mtime)));
    RunSnoc(s0, events, Advance(0));
    events := events + [Advance(0)];
  }

  /** A run that ends there: its next open takes the cache hit, hands out a dead handle and reports
      success. */
  lemma UnlinkWindow(mtime: Bytes) returns (events: seq<Event>)
    requires |mtime| == STAMP_LENGTH && mtime != ERASED
    ensures var s := Run(Initial({0}), events);
      var t := Next(Next(s, Call(0, C.Open)), Advance(0));
      && 0 in s.cells && 0 in t.cells
      && Named(s.file, s.cells[0]) && !s.cells[0].dirty && Missing(s.cells[0])
      && t.cells[0].pc.Idle? && t.cells[0].handle.Detached?
  {
    hide Run;
    events := Created(mtime);
    var v := Version([], mtime);
    var s0 := Initial({0});
    RunSnoc(s0, events, Call(0, C.Unlink));
    events := events + [Call(0, C.Unlink)];
    RunSnoc(s0, events, ClientCrash(0, false, false));
    events := events + [ClientCrash(0, false, false)];
    var s := Run(s0, events);
    assert s == One(Some(v), map[], [v], NEW.(stamp := Some(mtime)));
  }

  function Steps(c: C.Cell, n: nat): C.Cell
    decreases n
  {
    if n == 0 then c else Steps(C.Next(c, C.Step), n - 1)
  }

  lemma {:induction false} ReceiveAll(c: C.Cell)
    requires c.pc.OpenReceive? && c.cache.Some?
    decreases if c.pc.OpenReceive? then |c.pc.msgs| else 0
    ensures var done := Steps(c, |c.pc.msgs| + 1);
      done == c.(cache := Some(c.cache.value + Joined(c.pc.msgs)), torn := false,
                 pc := C.OpenClosed(c.pc.since, c.pc.index, c.pc.mtime))
  {
    if c.pc.msgs == [] {
      assert c.cache.value + [] == c.cache.value;
      assert Steps(c, 1) == Steps(C.Next(c, C.Step), 0);
    } else {
      var m, rest := c.pc.msgs[0], c.pc.msgs[1..];
      assert c.pc.msgs == [m] + rest;
      JoinedHead(m, rest);
      assert c.cache.value + (m + Joined(rest)) == (c.cache.value + m) + Joined(rest);
      ReceiveAll(C.Next(c, C.Step));
    }
  }

  lemma StepsAgain(c: C.Cell, n: nat)
    ensures Steps(c, n + 1) == C.Next(Steps(c, n), C.Step)
    decreases n
  {
    if n > 0 {
      StepsAgain(C.Next(c, C.Step), n - 1);
    }
  }

  /** GetContent opens the file first and takes its timestamp afterwards. If a commit falls between
      the two, the client ends up clean, with the new version's timestamp on the old version's
      bytes: coherent if and only if the two versions have the same bytes. */
  lemma CommitBetweenOpenAndStat(c: C.Cell, read: Version, stamped: Version, index: nat)
    requires c.pc.OpenFetch?
    ensures var received := C.Next(c, C.ContentIs(index, stamped.mtime, Chunked(read.data)));
      var done := Steps(received, |Chunked(read.data)| + 3);
      && done.pc.Idle? && !done.dirty && Named(Some(stamped), done)
      && (Coherent(Some(stamped), done) <==> read.data == stamped.data)
  {
    var msgs := Chunked(read.data);
    var received := C.Next(c, C.ContentIs(index, stamped.mtime, msgs));
    TransferRoundTrip(read.data);
    ReceiveAll(received);
    assert [] + read.data == read.data;
    StepsAgain(received, |msgs| + 1);
    StepsAgain(received, |msgs| + 2);
  }
}
