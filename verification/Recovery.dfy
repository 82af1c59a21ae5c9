/** What a client finds again after a crash, and what the server is left with. */
module Recovery {
  import opened Basics
  import opened Chunks
  import opened StampCodec
  import opened Protocol
  import opened Invariant
  import opened Reachable
  import opened Theorems
  import C = ClientCell

  ghost predicate Concerns(e: Event, id: ClientId)
  {
    match e
    case Call(x, _) => x == id
    case Advance(x) => x == id
    case Fail(x) => x == id
    case Start(x, _) => x == id
    case ClientCrash(x, _, _) => x == id
    case _ => false
  }

  ghost predicate Others(events: seq<Event>, id: ClientId)
  {
    forall e :: e in events ==> !Concerns(e, id)
  }

  /** Snapshots, which other paths may bring about, move nothing but the mark. */
  ghost predicate SameButMark(c: C.Cell, d: C.Cell)
  {
    c.(marked := false) == d.(marked := false) && (d.marked ==> c.marked || c.stamp == Some(LOCAL))
  }

  /** Other clients and the server, whatever they do, leave a client's cell alone unless it waits
      for a reply to an upload. */
  lemma {:induction false} OthersLeave(s: State, events: seq<Event>, id: ClientId)
    requires id in s.cells && Others(events, id)
    requires !s.cells[id].pc.RelWait? && !s.cells[id].pc.MkWait?
    ensures id in Run(s, events).cells && SameButMark(s.cells[id], Run(s, events).cells[id])
  {
    hide Next;
    if events == [] {
    } else {
      var front, e := events[..|events| - 1], events[|events| - 1];
      OthersLeave(s, front, id);
      assert e in events;
      NextCell(Run(s, front), e, id);
    }
  }

  /** A modified copy that was not uploaded. */
  ghost predicate Unsaved(c: C.Cell, data: Bytes)
  {
    c.dirty && c.cache == Some(data) && !c.pc.Dead?
  }

  /** A crash at any point of any callback, the next open (others may run in between) and its
      answer from the server. */
  ghost function Reopened(s: State, id: ClientId, tombstone: bool, aborts: bool, es1: seq<Event>, es2: seq<Event>): State
  {
    Run(Next(Run(Next(s, ClientCrash(id, tombstone, aborts)), es1), Call(id, C.Open)), es2)
  }

  /** The restart fails for good, or the open asks for the version the timestamp names. */
  ghost predicate Asks(c: C.Cell, d: C.Cell, tombstone: bool, aborts: bool)
  {
    && d.handle.Closed? && d.cache == c.cache && d.dirty == c.dirty
    && (if c.marked || aborts then d.pc.Dead?
        else d.stamp == C.Restarted(c, tombstone, false).stamp && !d.marked
             && if d.stamp.None? then d.pc.OpenFetch? else d.pc.OpenStat?)
  }

  lemma ReopenedCell(s: State, id: ClientId, tombstone: bool, aborts: bool, es1: seq<Event>, es2: seq<Event>, data: Bytes)
    requires Inv(s) && id in s.cells && Unsaved(s.cells[id], data) && Others(es1, id) && Others(es2, id)
    ensures var t := Reopened(s, id, tombstone, aborts, es1, es2);
      id in t.cells && Asks(s.cells[id], t.cells[id], tombstone, aborts)
  {
    hide Run, CellInv;
    var s1 := Next(s, ClientCrash(id, tombstone, aborts));
    MarkOf(s, id);
    OthersLeave(s1, es1, id);
    var s2 := Next(Run(s1, es1), Call(id, C.Open));
    OthersLeave(s2, es2, id);
  }

  lemma MarkOf(s: State, id: ClientId)
    requires Inv(s) && id in s.cells
    ensures MarkInv(s.cells[id])
  {
    assert CellInv(s.file, s.history, s.cells[id]);
  }

  /** Unsaved writes survive a client crash if and only if the client starts again (no mark of a
      local file is on its disk), its next open reaches the server, and that open finds the version
      they were made on. Then the open returns the modified bytes. Otherwise it returns no handle;
      if the client did start and holds a timestamp, its next two steps delete them. */
  lemma UnsavedWritesSurviveIff(s: State, id: ClientId, tombstone: bool, aborts: bool, es1: seq<Event>, es2: seq<Event>,
                                data: Bytes, reached: bool)
    requires Inv(s) && id in s.cells && Unsaved(s.cells[id], data) && Others(es1, id) && Others(es2, id)
    ensures var t := Reopened(s, id, tombstone, aborts, es1, es2); var c := s.cells[id];
      var answered := Next(t, if reached then Advance(id) else Fail(id));
      var later := Next(Next(answered, Advance(id)), Advance(id));
      var kept := !c.marked && !aborts && reached && t.file.Some? && c.stamp == Some(t.file.value.mtime);
      && id in t.cells && id in answered.cells && id in later.cells
      && (kept ==> answered.cells[id].handle.Live? && Unsaved(answered.cells[id], data)
                   && answered.cells[id].pc.Idle? && answered.cells[id].stamp == c.stamp)
      && (!kept ==> answered.cells[id].handle.Closed?)
      && (!kept && !c.marked && !aborts && c.stamp.Some? && c.stamp.value != ERASED ==>
            later.cells[id].cache.None? && later.cells[id].stamp.None?)
      && (c.marked || aborts ==> answered.cells[id].pc.Dead?)
  {
    hide Run, Next, Reopened, Inv;
    ReopenedCell(s, id, tombstone, aborts, es1, es2, data);
    var t := Reopened(s, id, tombstone, aborts, es1, es2);
    ReopenedInv(s, id, tombstone, aborts, es1, es2);
    if s.cells[id].marked || aborts {
      DeadCell(t, id, reached);
    } else {
      if t.file.Some? {
        NotErased(t);
      }
      AnswerCell(t, id, reached, data);
    }
  }

  lemma NotErased(t: State)
    requires Inv(t) && t.file.Some?
    ensures t.file.value.mtime != ERASED
  {
    assert t.file.value in t.history;
  }

  lemma ReopenedInv(s: State, id: ClientId, tombstone: bool, aborts: bool, es1: seq<Event>, es2: seq<Event>)
    requires Inv(s)
    ensures Inv(Reopened(s, id, tombstone, aborts, es1, es2))
  {
    hide Run, Next, Inv;
    var crash := ClientCrash(id, tombstone, aborts);
    NextInv(s, crash);
    RunInv(Next(s, crash), es1);
    NextInv(Run(Next(s, crash), es1), Call(id, C.Open));
    RunInv(Next(Run(Next(s, crash), es1), Call(id, C.Open)), es2);
  }

  lemma DeadCell(t: State, id: ClientId, reached: bool)
    requires id in t.cells && t.cells[id].pc.Dead?
    ensures var answered := Next(t, if reached then Advance(id) else Fail(id));
      var later := Next(Next(answered, Advance(id)), Advance(id));
      id in answered.cells && id in later.cells && answered.cells[id] == t.cells[id]
  {
    hide Next;
    var answered := Next(t, if reached then Advance(id) else Fail(id));
    NextCell(t, if reached then Advance(id) else Fail(id), id);
    NextCell(answered, Advance(id), id);
    NextCell(Next(answered, Advance(id)), Advance(id), id);
  }

  lemma AnswerCell(t: State, id: ClientId, reached: bool, data: Bytes)
    requires Inv(t) && id in t.cells && Unsaved(t.cells[id], data) && t.cells[id].handle.Closed?
    requires if t.cells[id].stamp.None? then t.cells[id].pc.OpenFetch? else t.cells[id].pc.OpenStat?
    ensures var answered := Next(t, if reached then Advance(id) else Fail(id));
      var later := Next(Next(answered, Advance(id)), Advance(id));
      var kept := reached && t.file.Some? && t.cells[id].stamp == Some(t.file.value.mtime);
      && id in answered.cells && id in later.cells
      && (kept ==> answered.cells[id].handle.Live? && Unsaved(answered.cells[id], data)
                   && answered.cells[id].pc.Idle? && answered.cells[id].stamp == t.cells[id].stamp)
      && (!kept ==> answered.cells[id].handle.Closed?)
      && (!kept && t.cells[id].stamp.Some? ==> later.cells[id].cache.None? && later.cells[id].stamp.None?)
  {
    hide Next, StampInv, TornInv, SeenInv, Coherent;
    var e := if reached then Advance(id) else Fail(id);
    var answered := Next(t, e);
    assert CellInv(t.file, t.history, t.cells[id]);
    NextCell(t, e, id);
    NextCell(answered, Advance(id), id);
    NextCell(Next(answered, Advance(id)), Advance(id), id);
    if t.cells[id].stamp.Some? && !(reached && t.file.Some? && t.cells[id].stamp == Some(t.file.value.mtime)) {
      NotEmpty(t.file, t.history, t.cells[id]);
      EvictCell(answered, id);
    }
  }

  lemma NotEmpty(file: Option<Version>, h: History, c: C.Cell)
    requires FileInv(file, h) && CellInv(file, h, c)
    ensures c.stamp != Some([])
  {
    if c.stamp == Some([]) {
      KnownIsStamp(file, h, []);
    }
  }

  lemma EvictCell(s: State, id: ClientId)
    requires id in s.cells && s.cells[id].pc.OpenEvict? && s.cells[id].handle.Closed?
    ensures var t := Next(Next(s, Advance(id)), Advance(id));
      id in t.cells && t.cells[id].cache.None? && t.cells[id].stamp.None?
  {
  }

  /** ... and once they are open again, the close uploads exactly them. */
  lemma CloseUploadsThem(s: State, id: ClientId, data: Bytes, es: seq<Event>, call: CallId)
    requires id in s.cells && Unsaved(s.cells[id], data) && s.cells[id].pc.Idle? && !s.cells[id].handle.Closed?
    requires Others(es, id)
    requires call !in Run(Next(s, Call(id, C.Release)), es).uploads
    ensures var t := Next(Run(Next(s, Call(id, C.Release)), es), Start(id, call));
      call in t.uploads && t.uploads[call] == Upload(id, Chunked(data), []) && Joined(Chunked(data)) == data
  {
    hide Run;
    OthersLeave(Next(s, Call(id, C.Release)), es, id);
    TransferRoundTrip(data);
  }

  /** Read your close: after a successful dirty release with no later commit, the copy is clean,
      named by the server's timestamp and equal to the server's bytes, so the same client's next
      open is a cache hit. */
  lemma ReadYourClose(s: State, id: ClientId, es1: seq<Event>, es2: seq<Event>)
    requires Inv(s) && id in s.cells && s.cells[id].pc.RelClean?
    requires Others(es1, id) && Others(es2, id)
    requires var t := Run(Next(Run(Next(s, Advance(id)), es1), Call(id, C.Open)), es2);
      t.file.Some? && t.file.value.mtime == s.cells[id].pc.mtime
    ensures var t := Run(Next(Run(Next(s, Advance(id)), es1), Call(id, C.Open)), es2);
      var u := Next(t, Advance(id));
      && id in t.cells && id in u.cells && t.cells[id].pc.OpenStat?
      && u.cells[id].handle.Live? && u.cells[id].pc.Idle? && !u.cells[id].dirty
      && u.cells[id].cache == Some(s.cells[id].pc.data) && s.cells[id].pc.data == t.file.value.data
      && |u.cells[id].seen| == |s.cells[id].seen| + 1
  {
    hide Run, Inv;
    var s0 := Next(s, Advance(id));
    ReleasedCell(s, id);
    OthersLeave(s0, es1, id);
    var s1 := Next(Run(s0, es1), Call(id, C.Open));
    OthersLeave(s1, es2, id);
    var t := Run(s1, es2);
    NextInv(s, Advance(id));
    RunInv(s0, es1);
    NextInv(Run(s0, es1), Call(id, C.Open));
    RunInv(s1, es2);
    HitCell(t, id, s.cells[id].pc.data, s.cells[id].pc.mtime);
  }

  lemma ReleasedCell(s: State, id: ClientId)
    requires Inv(s) && id in s.cells && s.cells[id].pc.RelClean?
    ensures var c, d := s.cells[id], Next(s, Advance(id)).cells[id];
      && d == c.(stamp := Some(c.pc.mtime), pc := C.Idle)
      && c.cache == Some(c.pc.data) && !c.dirty && c.handle.Closed?
      && |c.pc.mtime| == STAMP_LENGTH
  {
    assert CellInv(s.file, s.history, s.cells[id]);
  }

  lemma HitCell(t: State, id: ClientId, data: Bytes, mtime: Bytes)
    requires Inv(t) && id in t.cells && t.cells[id].pc.OpenStat? && !t.cells[id].dirty
    requires t.cells[id].cache == Some(data) && t.cells[id].stamp == Some(mtime)
    requires t.file.Some? && t.file.value.mtime == mtime
    ensures var u := Next(t, Advance(id));
      && id in u.cells && u.cells[id].handle.Live? && u.cells[id].pc.Idle? && !u.cells[id].dirty
      && u.cells[id].cache == Some(data) && data == t.file.value.data
      && |u.cells[id].seen| == |t.cells[id].seen| + 1
  {
    assert CellInv(t.file, t.history, t.cells[id]);
    NextCell(t, Advance(id), id);
  }

  /** afs_write leaves a modified copy at every point: the flag is logged before the bytes change. */
  lemma WriteIsUnsaved(s: State, id: ClientId, offset: nat, bytes: Bytes, data: Bytes)
    requires id in s.cells && s.cells[id].pc.Idle? && s.cells[id].handle.Live?
    requires s.cells[id].cache == Some(data)
    ensures var marked := Next(s, Call(id, C.Write(offset, bytes)));
      var written := Next(marked, Advance(id));
      && Unsaved(marked.cells[id], data) && marked.cells[id].stamp == written.cells[id].stamp == s.cells[id].stamp
      && Unsaved(written.cells[id], C.PWrite(data, offset, bytes))
  {
  }

  // -- A release is all or nothing ---------------------------------------------------------------

  /** No new modifications: files are opened and closed, and anything may crash or fail. */
  ghost predicate NoWrites(e: Event)
  {
    e.Call? ==> e.call.Open? || e.call.Release?
  }

  /** The content before, if there was a file, or the one to be released. */
  ghost predicate Either(data: Bytes, before: Option<Bytes>, after: Bytes)
  {
    before == Some(data) || data == after
  }

  ghost predicate Opening(pc: C.Pc)
  {
    pc.Idle? || pc.Exited? || pc.Dead? || pc.OpenStat? || pc.OpenEvict? || pc.OpenUnlink? || pc.OpenFetch?
    || pc.OpenReceive? || pc.OpenClosed? || pc.OpenStamped? || pc.OpenAbsent? || pc.OpenCreat? || pc.OpenLocalClean?
  }

  /** A client with nothing to upload. */
  ghost predicate Reader(c: C.Cell)
  {
    Opening(c.pc) && !c.dirty
  }

  ghost predicate OldOrNewFile(file: Option<Version>, before: Option<Bytes>, after: Bytes)
  {
    match file
    case None => before.None?
    case Some(v) => Either(v.data, before, after)
  }

  ghost predicate OldOrNewUpload(u: Upload, id: ClientId, before: Option<Bytes>, after: Bytes)
  {
    u.owner == id && u.got <= u.want && Either(Joined(u.want), before, after)
  }

  /** The only contents on their way are the old and the new one. */
  ghost predicate OldOrNew(s: State, id: ClientId, before: Option<Bytes>, after: Bytes)
  {
    && id in s.cells
    && OldOrNewFile(s.file, before, after)
    && (forall call :: call in s.uploads ==> OldOrNewUpload(s.uploads[call], id, before, after))
    && WriterInv(s.cells[id], before, after)
    && forall x :: x in s.cells && x != id ==> Reader(s.cells[x])
  }

  /** A modified copy is one of the two, except that an open which finds no file on the server is
      about to replace it by an empty clean one (a crash there keeps the client from starting). */
  ghost predicate WriterInv(c: C.Cell, before: Option<Bytes>, after: Bytes)
  {
    && (Opening(c.pc) || c.pc.RelSend? || c.pc.RelWait? || c.pc.RelReply? || c.pc.RelClean?)
    && (c.dirty && c.cache.Some? && !c.torn && !c.pc.OpenLocalClean? && !c.pc.Dead? ==> Either(c.cache.value, before, after))
    && (c.pc.OpenReceive? && c.cache.Some? ==> Either(c.cache.value + Joined(c.pc.msgs), before, after))
    && ((c.pc.RelSend? || c.pc.RelWait?) ==> Either(c.pc.data, before, after))
  }

  /** What the environment of the writer feeds it under these events. */
  ghost predicate WriterFeeds(i: C.Input, before: Option<Bytes>, after: Bytes)
  {
    && (i.Begin? ==> i.call.Open? || i.call.Release?)
    && (i.ContentIs? ==> Either(Joined(i.msgs), before, after))
  }

  lemma WriterFed(c: C.Cell, i: C.Input, before: Option<Bytes>, after: Bytes)
    requires WriterInv(c, before, after) && WriterFeeds(i, before, after) && TornInv(c) && MarkInv(c)
    requires c.pc.OpenReceive? ==> c.torn
    requires c.pc.OpenLocalClean? ==> c.stamp == Some(LOCAL)
    ensures WriterInv(C.Next(c, i), before, after)
  {
    hide C.OwnStep;
    if i.ContentIs? {
      assert [] + Joined(i.msgs) == Joined(i.msgs);
    }
    if i.Step? {
      WriterStep(c, before, after);
    }
  }

  lemma WriterStep(c: C.Cell, before: Option<Bytes>, after: Bytes)
    requires WriterInv(c, before, after) && (c.pc.OpenReceive? ==> c.torn)
    ensures WriterInv(C.OwnStep(c), before, after)
  {
    if c.pc.OpenReceive? && c.cache.Some? {
      if c.pc.msgs == [] {
        assert c.cache.value + [] == c.cache.value;
      } else {
        var m, rest := c.pc.msgs[0], c.pc.msgs[1..];
        assert c.pc.msgs == [m] + rest;
        JoinedHead(m, rest);
        assert c.cache.value + (m + Joined(rest)) == (c.cache.value + m) + Joined(rest);
      }
    }
  }

  lemma ReaderFed(c: C.Cell, i: C.Input)
    requires Reader(c) && (i.Begin? ==> i.call.Open? || i.call.Release?)
    ensures Reader(C.Next(c, i))
  {
  }

  lemma OldOrNewNext(s: State, e: Event, id: ClientId, before: Option<Bytes>, after: Bytes)
    requires Inv(s) && OldOrNew(s, id, before, after) && NoWrites(e)
    ensures OldOrNew(Next(s, e), id, before, after)
  {
    hide C.Next, WriterInv, Reader, SeenInv, Coherent, StampInv, FileInv, OldOrNewUpload, OldOrNewFile;
    forall x | x in s.cells
      ensures x in Next(s, e).cells
      ensures if x == id then WriterInv(Next(s, e).cells[x], before, after) else Reader(Next(s, e).cells[x])
    {
      CellOldOrNew(s, e, x, id, before, after);
    }
    ServerOldOrNew(s, e, id, before, after);
    NextHistory(s, e);
  }

  lemma CellOldOrNew(s: State, e: Event, x: ClientId, id: ClientId, before: Option<Bytes>, after: Bytes)
    requires Inv(s) && OldOrNew(s, id, before, after) && NoWrites(e) && x in s.cells
    ensures x in Next(s, e).cells
    ensures if x == id then WriterInv(Next(s, e).cells[x], before, after) else Reader(Next(s, e).cells[x])
  {
    hide Next, C.Next, Reader, WriterInv, SeenInv, Coherent, StampInv;
    NextCell(s, e, x);
    var i := InputOf(s, e, x);
    if s.file.Some? {
      TransferRoundTrip(s.file.value.data);
    }
    assert CellInv(s.file, s.history, s.cells[x]);
    if i.Some? {
      if x == id {
        WriterFed(s.cells[x], i.value, before, after);
      } else {
        ReaderFed(s.cells[x], i.value);
      }
    }
  }

  lemma ServerOldOrNew(s: State, e: Event, id: ClientId, before: Option<Bytes>, after: Bytes)
    requires Inv(s) && OldOrNew(s, id, before, after) && NoWrites(e)
    ensures var t := Next(s, e);
      && OldOrNewFile(t.file, before, after)
      && forall call :: call in t.uploads ==> OldOrNewUpload(t.uploads[call], id, before, after)
  {
    hide C.Next, FileInv, CellInv, Fresh;
    if e.Start? && MayStart(s, e.client, e.id) {
      assert e.client == id;
      var pc := s.cells[id].pc;
      TransferRoundTrip(if pc.RelSend? then pc.data else []);
    }
  }

  /** A release is crash-safe at every point. While no other client has anything to upload, and
      whoever opens and closes the file again, crashes, fails and recovers, in whatever order, the
      server holds the whole old content (or still no file, if it had none) or the whole new one,
      and clean copies stay coherent. */
  lemma {:induction false} ReleaseIsAllOrNothing(s: State, events: seq<Event>, id: ClientId, before: Option<Bytes>, after: Bytes)
    requires Inv(s) && OldOrNew(s, id, before, after)
    requires forall e :: e in events ==> NoWrites(e)
    ensures var t := Run(s, events);
      && (if t.file.None? then before.None? else before == Some(t.file.value.data) || t.file.value.data == after)
      && Inv(t) && OldOrNew(t, id, before, after)
  {
    hide WriterInv, Reader, OldOrNewUpload, Inv, Next;
    if events == [] {
    } else {
      var front, e := events[..|events| - 1], events[|events| - 1];
      ReleaseIsAllOrNothing(s, front, id, before, after);
      assert e in events;
      OldOrNewNext(Run(s, front), e, id, before, after);
      NextInv(Run(s, front), e);
    }
  }

  /** Where that begins: a client about to close its modified copy, be there a file on the server or
      not, and no one else with anything to upload. */
  lemma BeforeRelease(s: State, id: ClientId)
    requires Inv(s) && id in s.cells && s.uploads == map[]
    requires s.cells[id].pc.Idle? && !s.cells[id].handle.Closed? && s.cells[id].dirty && s.cells[id].cache.Some?
    requires forall x :: x in s.cells && x != id ==> Reader(s.cells[x])
    ensures OldOrNew(s, id, if s.file.Some? then Some(s.file.value.data) else None, s.cells[id].cache.value)
  {
  }
}
