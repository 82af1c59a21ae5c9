/** What a callback comes to when nothing disturbs it: from any state the invariant allows, a run of
    this client's steps and of its own upload alone completes it. */
module Progress {
  import opened Basics
  import opened Chunks
  import opened StampCodec
  import opened Protocol
  import opened Invariant
  import opened Reachable
  import opened Theorems
  import C = ClientCell

  /** No other client, no failure, no crash. */
  ghost predicate Undisturbed(events: seq<Event>, id: ClientId, call: CallId)
  {
    forall e :: e in events ==>
      || (e.Call? && e.client == id) || (e.Advance? && e.client == id) || (e.Start? && e.client == id && e.id == call)
      || (e.Receive? && e.id == call) || (e.Commit? && e.id == call)
  }

  function With(s: State, id: ClientId, c: C.Cell): State
  {
    s.(cells := s.cells[id := c])
  }

  lemma Joins(s: State, a: seq<Event>, b: seq<Event>, id: ClientId, call: CallId)
    requires Undisturbed(a, id, call) && Undisturbed(b, id, call)
    ensures Run(s, a + b) == Run(Run(s, a), b) && Undisturbed(a + b, id, call)
  {
    hide Next, Run;
    RunConcat(s, a, b);
  }

  lemma One(s: State, e: Event)
    ensures Run(s, [e]) == Next(s, e)
  {
    hide Next;
    RunNothing(s);
    assert [] + [e] == [e];
    RunSnoc(s, [], e);
  }

  // -- Downloads ---------------------------------------------------------------------------------

  lemma {:induction false} Receives(s: State, id: ClientId, call: CallId) returns (events: seq<Event>)
    requires id in s.cells && s.cells[id].pc.OpenReceive? && s.cells[id].cache.Some?
    ensures Undisturbed(events, id, call)
    ensures var c := s.cells[id];
      Run(s, events) == With(s, id, c.(cache := Some(c.cache.value + Joined(c.pc.msgs)), torn := false,
                                       pc := C.OpenClosed(c.pc.since, c.pc.index, c.pc.mtime)))
    decreases if id in s.cells && s.cells[id].pc.OpenReceive? then |s.cells[id].pc.msgs| else 0
  {
    hide Run;
    var c := s.cells[id];
    events := [Advance(id)];
    One(s, Advance(id));
    if c.pc.msgs == [] {
      assert c.cache.value + [] == c.cache.value;
    } else {
      var m, rest := c.pc.msgs[0], c.pc.msgs[1..];
      assert c.pc.msgs == [m] + rest;
      JoinedHead(m, rest);
      assert c.cache.value + (m + Joined(rest)) == (c.cache.value + m) + Joined(rest);
      var t := Next(s, Advance(id));
      var more := Receives(t, id, call);
      Joins(s, events, more, id, call);
      events := events + more;
    }
  }

  lemma FetchBegins(s: State, id: ClientId)
    requires id in s.cells && s.cells[id].pc.OpenFetch? && s.file.Some? && s.history != []
    ensures var c := s.cells[id];
      Next(s, Advance(id)) == With(s, id, c.(cache := Some([]), torn := true,
        pc := C.OpenReceive(c.pc.since, |s.history| - 1, s.file.value.mtime, Chunked(s.file.value.data))))
  {
  }

  lemma FetchEnds(s: State, id: ClientId)
    requires id in s.cells && s.cells[id].pc.OpenClosed? && s.cells[id].cache.Some?
    ensures var c, t := s.cells[id], Next(Next(s, Advance(id)), Advance(id));
      id in t.cells && t == With(s, id, t.cells[id])
      && t.cells[id] == c.(stamp := Some(c.pc.mtime), dirty := false, pc := C.Idle, handle := C.Live, seen := t.cells[id].seen)
  {
    var c := s.cells[id];
    assert Next(s, Advance(id)) == With(s, id, c.(stamp := Some(c.pc.mtime), pc := C.OpenStamped(c.pc.since, c.pc.index)));
  }

  lemma FetchCompletes(s: State, id: ClientId, call: CallId) returns (events: seq<Event>)
    requires id in s.cells && s.cells[id].pc.OpenFetch? && s.file.Some? && s.history != []
    ensures Undisturbed(events, id, call)
    ensures Fetched(s, Run(s, events), id)
  {
    hide Run, Next;
    FetchBegins(s, id);
    TransferRoundTrip(s.file.value.data);
    One(s, Advance(id));
    events := [Advance(id)];
    var t := Run(s, events);
    var more := Receives(t, id, call);
    Joins(s, events, more, id, call);
    events := events + more;
    var u := Run(t, more);
    assert [] + s.file.value.data == s.file.value.data;
    FetchEnds(u, id);
    Two(u, Advance(id), Advance(id));
    Joins(s, events, [Advance(id), Advance(id)], id, call);
    events := events + [Advance(id), Advance(id)];
  }

  /** The client has the server's file, clean and open; nothing else changed. */
  ghost predicate Fetched(s: State, t: State, id: ClientId)
  {
    && id in s.cells && id in t.cells && s.file.Some? && t == With(s, id, t.cells[id])
    && var c, d := s.cells[id], t.cells[id];
       && d.cache == Some(s.file.value.data) && d.stamp == Some(s.file.value.mtime) && !d.dirty
       && d.handle.Live? && d.pc.Idle? && d.marked == c.marked
  }

  lemma Two(s: State, a: Event, b: Event)
    ensures Run(s, [a, b]) == Next(Next(s, a), b)
  {
    hide Next, Run;
    One(s, a);
    assert [a] + [b] == [a, b];
    RunSnoc(s, [a], b);
  }

  // -- Opens -------------------------------------------------------------------------------------

  lemma OpenStarts(s: State, id: ClientId)
    requires id in s.cells && s.cells[id].pc.Idle? && s.cells[id].handle.Closed? && s.cells[id].stamp != Some(LOCAL)
    ensures var c := s.cells[id];
      Next(s, Call(id, C.Open)) == With(s, id, c.(pc := if c.stamp.None? then C.OpenFetch(|s.history|) else C.OpenStat(|s.history|)))
  {
  }

  /** The copy is outdated: evicted. */
  lemma Evicts(s: State, id: ClientId, call: CallId) returns (events: seq<Event>)
    requires Inv(s) && id in s.cells && s.cells[id].pc.OpenStat? && !Named(s.file, s.cells[id])
    ensures Undisturbed(events, id, call)
    ensures var c := s.cells[id];
      Run(s, events) == With(s, id, c.(stamp := None, cache := None, torn := false, pc := C.OpenFetch(c.pc.since)))
  {
    hide Run, Inv;
    var c := s.cells[id];
    StatMisses(s, id);
    var t := With(s, id, c.(pc := C.OpenEvict(c.pc.since)));
    One(s, Advance(id));
    Two(t, Advance(id), Advance(id));
    assert Next(t, Advance(id)) == With(s, id, c.(stamp := None, pc := C.OpenUnlink(c.pc.since)));
    Joins(s, [Advance(id)], [Advance(id), Advance(id)], id, call);
    events := [Advance(id)] + [Advance(id), Advance(id)];
  }

  lemma StatMisses(s: State, id: ClientId)
    requires Inv(s) && id in s.cells && s.cells[id].pc.OpenStat? && !Named(s.file, s.cells[id])
    ensures var c := s.cells[id]; Next(s, Advance(id)) == With(s, id, c.(pc := C.OpenEvict(c.pc.since)))
  {
    hide CellInv, FileInv, UploadInv;
    CellsInv(s, id);
    if s.cells[id].stamp == Some([]) {
      Empty(s, id);
    }
    assert s.file.Some? ==> s.history != [] by { HasHistory(s); }
  }

  lemma Empty(s: State, id: ClientId)
    requires Inv(s) && id in s.cells
    ensures s.cells[id].stamp != Some([])
  {
    CellsInv(s, id);
    if s.cells[id].stamp == Some([]) {
      KnownIsStamp(s.file, s.history, []);
    }
  }

  lemma HasHistory(s: State)
    requires Inv(s)
    ensures s.file.Some? ==> s.history != []
  {
  }

  /** An open of a file on the server gives a live handle on a clean copy of exactly the server's
      bytes, whatever the client had before: unless it keeps a modified copy of the very version
      that is there, has lost that copy's file, or has the path as a local file. */
  lemma OpenCompletes(s: State, id: ClientId, call: CallId) returns (events: seq<Event>)
    requires Inv(s) && id in s.cells && s.cells[id].pc.Idle? && s.cells[id].handle.Closed? && s.file.Some?
    requires s.cells[id].stamp != Some(LOCAL)
    requires Named(s.file, s.cells[id]) ==> !s.cells[id].dirty && s.cells[id].cache.Some?
    ensures Undisturbed(events, id, call) && Fetched(s, Run(s, events), id)
  {
    hide Run, Next, Inv;
    var c := s.cells[id];
    HasHistory(s);
    OpenStarts(s, id);
    One(s, Call(id, C.Open));
    NextInv(s, Call(id, C.Open));
    events := [Call(id, C.Open)];
    var t := Run(s, events);
    if c.stamp.Some? && Named(s.file, c) {
      Hits(t, id);
      One(t, Advance(id));
      Joins(s, events, [Advance(id)], id, call);
      events := events + [Advance(id)];
    } else {
      if c.stamp.Some? {
        var more := Evicts(t, id, call);
        Joins(s, events, more, id, call);
        events := events + more;
        t := Run(s, events);
      }
      var rest := FetchCompletes(t, id, call);
      Joins(s, events, rest, id, call);
      events := events + rest;
    }
  }

  lemma Hits(s: State, id: ClientId)
    requires Inv(s) && id in s.cells && s.cells[id].pc.OpenStat? && Named(s.file, s.cells[id])
    requires !s.cells[id].dirty && s.cells[id].cache.Some?
    ensures Fetched(s, Next(s, Advance(id)), id)
  {
    hide FileInv, UploadInv, SeenInv, PcInv, StampInv, TornInv, MarkInv;
    HasHistory(s);
    CellsInv(s, id);
  }

  /** An open of a file that the server does not have makes an empty, clean, local one. */
  lemma OpenCreates(s: State, id: ClientId, call: CallId) returns (events: seq<Event>)
    requires Inv(s) && id in s.cells && s.cells[id].pc.Idle? && s.cells[id].handle.Closed? && s.file.None?
    requires s.cells[id].stamp != Some(LOCAL)
    ensures Undisturbed(events, id, call)
    ensures var c, t := s.cells[id], Run(s, events);
      t == With(s, id, c.(cache := Some([]), torn := false, stamp := Some(LOCAL), marked := true, dirty := false,
                          handle := C.Live, pc := C.Idle))
  {
    hide Run, Next, Inv;
    var c := s.cells[id];
    OpenStarts(s, id);
    One(s, Call(id, C.Open));
    NextInv(s, Call(id, C.Open));
    events := [Call(id, C.Open)];
    var t := Run(s, events);
    if c.stamp.Some? {
      var more := Evicts(t, id, call);
      Joins(s, events, more, id, call);
      events := events + more;
      t := Run(s, events);
    }
    AbsentSteps(t, id);
    Two(t, Advance(id), Advance(id));
    Joins(s, events, [Advance(id), Advance(id)], id, call);
    events := events + [Advance(id), Advance(id)];
    var u := Run(s, events);
    Two(u, Advance(id), Advance(id));
    Joins(s, events, [Advance(id), Advance(id)], id, call);
    events := events + [Advance(id), Advance(id)];
  }

  lemma AbsentSteps(s: State, id: ClientId)
    requires id in s.cells && s.cells[id].pc.OpenFetch? && s.file.None?
    ensures var c := s.cells[id];
      var t := With(s, id, c.(stamp := Some(LOCAL), marked := true, pc := C.OpenCreat));
      && Next(Next(s, Advance(id)), Advance(id)) == t
      && Next(Next(t, Advance(id)), Advance(id))
         == With(s, id, c.(cache := Some([]), torn := false, stamp := Some(LOCAL), marked := true, dirty := false,
                           handle := C.Live, pc := C.Idle))
  {
    var c := s.cells[id];
    assert Next(s, Advance(id)) == With(s, id, c.(pc := C.OpenAbsent));
    var t := With(s, id, c.(stamp := Some(LOCAL), marked := true, pc := C.OpenCreat));
    assert Next(t, Advance(id)) == With(s, id, c.(cache := Some([]), torn := false, stamp := Some(LOCAL), marked := true,
                                                  pc := C.OpenLocalClean));
  }

  // -- Uploads -----------------------------------------------------------------------------------

  lemma {:induction false} Arrives(s: State, id: ClientId, call: CallId) returns (events: seq<Event>)
    requires call in s.uploads && s.uploads[call].got <= s.uploads[call].want
    ensures Undisturbed(events, id, call)
    ensures var u := s.uploads[call]; Run(s, events) == s.(uploads := s.uploads[call := u.(got := u.want)])
    decreases if call in s.uploads then |s.uploads[call].want| - |s.uploads[call].got| else 0
  {
    hide Run;
    var u := s.uploads[call];
    if |u.got| == |u.want| {
      events := [];
      RunNothing(s);
      assert u.got == u.want;
    } else {
      events := [Receive(call)];
      One(s, Receive(call));
      var more := Arrives(Next(s, Receive(call)), id, call);
      Joins(s, events, more, id, call);
      events := events + more;
    }
  }

  /** An upload, from its start to the reply: one version more, which is the server's. */
  lemma UploadCompletes(s: State, id: ClientId, call: CallId, mtime: Bytes) returns (events: seq<Event>)
    requires MayStart(s, id, call) && Fresh(s.history, mtime)
    ensures Undisturbed(events, id, call)
    ensures var c := s.cells[id];
      var v := Version(if c.pc.RelSend? then c.pc.data else [], mtime);
      Run(s, events) == With(s.(file := Some(v), history := s.history + [v]), id,
        c.(pc := if c.pc.RelSend? then C.RelReply(c.pc.data, mtime) else C.MkReply(mtime)))
  {
    hide Run, Next, Fresh, Joined, Chunked;
    var c := s.cells[id];
    var data := if c.pc.RelSend? then c.pc.data else [];
    TransferRoundTrip(data);
    UploadStarts(s, id, call);
    One(s, Start(id, call));
    events := [Start(id, call)];
    var t := Run(s, events);
    var more := ArrivesAndCommits(t, id, call, mtime);
    Joins(s, events, more, id, call);
    events := events + more;
    Rounded(s, t, id, call, Upload(id, Chunked(data), []), t.cells[id], Run(t, more).cells[id], Version(data, mtime));
  }

  /** An upload that has come and gone. */
  lemma Rounded(s: State, t: State, id: ClientId, call: CallId, u: Upload, c: C.Cell, d: C.Cell, v: Version)
    requires call !in s.uploads && t == With(s.(uploads := s.uploads[call := u]), id, c)
    ensures With(t.(file := Some(v), history := t.history + [v], uploads := t.uploads - {call}), id, d)
         == With(s.(file := Some(v), history := s.history + [v]), id, d)
  {
    assert s.uploads[call := u] - {call} == s.uploads;
  }

  lemma ArrivesAndCommits(s: State, id: ClientId, call: CallId, mtime: Bytes) returns (events: seq<Event>)
    requires call in s.uploads && s.uploads[call].owner == id && s.uploads[call].got == [] && Fresh(s.history, mtime)
    requires id in s.cells && C.Awaits(s.cells[id], call)
    ensures Undisturbed(events, id, call)
    ensures var c := s.cells[id]; var v := Version(Joined(s.uploads[call].want), mtime);
      Run(s, events) == With(s.(file := Some(v), history := s.history + [v], uploads := s.uploads - {call}), id,
        c.(pc := if c.pc.RelWait? then C.RelReply(c.pc.data, mtime) else C.MkReply(mtime)))
  {
    hide Run, Next, Fresh, Joined;
    events := Arrives(s, id, call);
    var u := s.uploads[call];
    var t := Run(s, events);
    UploadCommits(t, id, call, mtime);
    One(t, Commit(call, mtime));
    Joins(s, events, [Commit(call, mtime)], id, call);
    events := events + [Commit(call, mtime)];
    assert s.uploads[call := u.(got := u.want)] - {call} == s.uploads - {call};
  }

  lemma UploadStarts(s: State, id: ClientId, call: CallId)
    requires MayStart(s, id, call)
    ensures var c := s.cells[id]; var data := if c.pc.RelSend? then c.pc.data else [];
      Next(s, Start(id, call)) == With(s.(uploads := s.uploads[call := Upload(id, Chunked(data), [])]), id,
        c.(pc := if c.pc.RelSend? then C.RelWait(c.pc.data, call) else C.MkWait(call)))
  {
  }

  lemma UploadCommits(s: State, id: ClientId, call: CallId, mtime: Bytes)
    requires MayCommit(s, call, mtime) && s.uploads[call].owner == id && id in s.cells && C.Awaits(s.cells[id], call)
    ensures var c := s.cells[id]; var v := Version(Joined(s.uploads[call].want), mtime);
      Next(s, Commit(call, mtime)) == With(s.(file := Some(v), history := s.history + [v], uploads := s.uploads - {call}), id,
        c.(pc := if c.pc.RelWait? then C.RelReply(c.pc.data, mtime) else C.MkReply(mtime)))
  {
    hide Fresh;
  }

  // -- Release, mknod, unlink --------------------------------------------------------------------

  /** A release publishes exactly the modified bytes, as one new version, and leaves the copy clean
      under its timestamp. */
  lemma ReleaseCompletes(s: State, id: ClientId, call: CallId, mtime: Bytes) returns (events: seq<Event>)
    requires id in s.cells && s.cells[id].pc.Idle? && !s.cells[id].handle.Closed?
    requires s.cells[id].dirty && s.cells[id].cache.Some? && call !in s.uploads && Fresh(s.history, mtime)
    ensures Undisturbed(events, id, call)
    ensures var c := s.cells[id]; var v := Version(c.cache.value, mtime);
      Run(s, events) == With(s.(file := Some(v), history := s.history + [v]), id,
        c.(dirty := false, stamp := Some(mtime), handle := C.Closed))
  {
    hide Run, Next, Fresh;
    var c := s.cells[id];
    ReleaseStarts(s, id);
    One(s, Call(id, C.Release));
    events := [Call(id, C.Release)];
    var t := Run(s, events);
    var more := UploadCompletes(t, id, call, mtime);
    Joins(s, events, more, id, call);
    events := events + more;
    var u := Run(s, events);
    ReleaseEnds(u, id);
    Two(u, Advance(id), Advance(id));
    Joins(s, events, [Advance(id), Advance(id)], id, call);
    events := events + [Advance(id), Advance(id)];
  }

  lemma ReleaseStarts(s: State, id: ClientId)
    requires id in s.cells && s.cells[id].pc.Idle? && !s.cells[id].handle.Closed? && s.cells[id].dirty && s.cells[id].cache.Some?
    ensures var c := s.cells[id];
      Next(s, Call(id, C.Release)) == With(s, id, c.(handle := C.Closed, pc := C.RelSend(c.cache.value)))
  {
  }

  lemma ReleaseEnds(s: State, id: ClientId)
    requires id in s.cells && s.cells[id].pc.RelReply?
    ensures var c := s.cells[id];
      Next(Next(s, Advance(id)), Advance(id)) == With(s, id, c.(dirty := false, stamp := Some(c.pc.mtime), pc := C.Idle))
  {
    var c := s.cells[id];
    assert Next(s, Advance(id)) == With(s, id, c.(dirty := false, pc := C.RelClean(c.pc.data, c.pc.mtime)));
  }

  /** afs_mknod of a path that neither the server nor the cache has: an empty file on both. */
  lemma MknodCompletes(s: State, id: ClientId, call: CallId, mtime: Bytes) returns (events: seq<Event>)
    requires id in s.cells && s.cells[id].pc.Idle? && s.cells[id].cache.None? && s.file.None?
    requires call !in s.uploads && Fresh(s.history, mtime)
    ensures Undisturbed(events, id, call)
    ensures var c := s.cells[id]; var v := Version([], mtime);
      Run(s, events) == With(s.(file := Some(v), history := s.history + [v]), id,
        c.(cache := Some([]), torn := false, stamp := Some(mtime)))
  {
    hide Run, Next, Fresh;
    MknodStarts(s, id);
    var begin := Call(id, C.Mknod);
    Two(s, begin, Advance(id));
    var t := Run(s, [begin, Advance(id)]);
    One(t, Advance(id));
    Joins(s, [begin, Advance(id)], [Advance(id)], id, call);
    events := [begin, Advance(id)] + [Advance(id)];
    var u := Run(s, events);
    var more := UploadCompletes(u, id, call, mtime);
    Joins(s, events, more, id, call);
    events := events + more;
    var w := Run(s, events);
    MknodEnds(w, id);
    One(w, Advance(id));
    Joins(s, events, [Advance(id)], id, call);
    events := events + [Advance(id)];
  }

  lemma MknodStarts(s: State, id: ClientId)
    requires id in s.cells && s.cells[id].pc.Idle? && s.cells[id].cache.None? && s.file.None?
    ensures var c := s.cells[id];
      Next(Next(Next(s, Call(id, C.Mknod)), Advance(id)), Advance(id))
      == With(s, id, c.(cache := Some([]), torn := false, pc := C.MkSend))
  {
    var c := s.cells[id];
    assert Next(s, Call(id, C.Mknod)) == With(s, id, c.(pc := C.MkStat));
    assert Next(With(s, id, c.(pc := C.MkStat)), Advance(id)) == With(s, id, c.(pc := C.MkCreate));
  }

  lemma MknodEnds(s: State, id: ClientId)
    requires id in s.cells && s.cells[id].pc.MkReply?
    ensures var c := s.cells[id]; Next(s, Advance(id)) == With(s, id, c.(stamp := Some(c.pc.mtime), pc := C.Idle))
  {
  }

  /** afs_unlink leaves nothing of the path, here or on the server. */
  lemma UnlinkCompletes(s: State, id: ClientId, call: CallId) returns (events: seq<Event>)
    requires id in s.cells && s.cells[id].pc.Idle?
    ensures Undisturbed(events, id, call)
    ensures var c := s.cells[id];
      Run(s, events) == With(s.(file := None), id,
        c.(cache := None, torn := false, stamp := None, dirty := false,
           handle := if c.handle.Closed? then C.Closed else C.Detached))
  {
    hide Run, Next;
    var c := s.cells[id];
    var gone := c.(cache := None, torn := false, handle := if c.handle.Closed? then C.Closed else C.Detached);
    UnlinkBegins(s, id);
    var begin := Call(id, C.Unlink);
    Two(s, begin, Advance(id));
    var t := Run(s, [begin, Advance(id)]);
    UnlinkEnds(t, id);
    Two(t, Advance(id), Advance(id));
    Joins(s, [begin, Advance(id)], [Advance(id), Advance(id)], id, call);
    events := [begin, Advance(id)] + [Advance(id), Advance(id)];
  }

  lemma UnlinkBegins(s: State, id: ClientId)
    requires id in s.cells && s.cells[id].pc.Idle?
    ensures var c := s.cells[id];
      Next(Next(s, Call(id, C.Unlink)), Advance(id))
      == With(s, id, c.(cache := None, torn := false, stamp := None, pc := C.UnDirty,
                        handle := if c.handle.Closed? then C.Closed else C.Detached))
  {
    var c := s.cells[id];
    var gone := c.(cache := None, torn := false, handle := if c.handle.Closed? then C.Closed else C.Detached);
    assert Next(s, Call(id, C.Unlink)) == With(s, id, gone.(pc := C.UnStamp));
  }

  lemma UnlinkEnds(s: State, id: ClientId)
    requires id in s.cells && s.cells[id].pc.UnDirty?
    ensures Next(Next(s, Advance(id)), Advance(id)) == With(s.(file := None), id, s.cells[id].(dirty := false, pc := C.Idle))
  {
    assert Next(s, Advance(id)) == With(s, id, s.cells[id].(dirty := false, pc := C.UnRpc));
  }

  // -- Close-to-open, end to end -----------------------------------------------------------------

  /** What one client releases another one opens: a close and then an open of anyone who has the
      path neither open nor as a local file end with exactly the released bytes in the opener's
      hands, whatever it had cached before, modified or not. */
  lemma CloseThenOpen(s: State, a: ClientId, b: ClientId, call: CallId, mtime: Bytes) returns (close: seq<Event>, open: seq<Event>)
    requires Inv(s) && a in s.cells && b in s.cells && a != b
    requires s.cells[a].pc.Idle? && !s.cells[a].handle.Closed? && s.cells[a].dirty && s.cells[a].cache.Some?
    requires s.cells[b].pc.Idle? && s.cells[b].handle.Closed? && s.cells[b].stamp != Some(LOCAL)
    requires call !in s.uploads && Fresh(s.history, mtime)
    ensures Undisturbed(close, a, call) && Undisturbed(open, b, call)
    ensures var t := Run(Run(s, close), open);
      && b in t.cells && t.cells[b].handle.Live? && t.cells[b].pc.Idle? && !t.cells[b].dirty
      && t.cells[b].cache == s.cells[a].cache && t.cells[b].stamp == Some(mtime)
      && t.file == Some(Version(s.cells[a].cache.value, mtime))
  {
    hide Run, Next, Inv, Fresh;
    close := ReleaseCompletes(s, a, call, mtime);
    RunInv(s, close);
    NotNamed(s, b, s.cells[a].cache.value, mtime);
    open := OpenCompletes(Run(s, close), b, call);
  }

  lemma NotNamed(s: State, id: ClientId, data: Bytes, mtime: Bytes)
    requires Inv(s) && id in s.cells && Fresh(s.history, mtime)
    ensures !Named(Some(Version(data, mtime)), s.cells[id])
  {
    CellsInv(s, id);
    CommitKeepsCell(s.file, s.history, s.cells[id], Version(data, mtime));
  }
}
