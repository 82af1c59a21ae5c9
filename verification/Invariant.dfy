/** What holds in every reachable state of the protocol. */
module Invariant {
  import opened Basics
  import opened Chunks
  import opened StampCodec
  import opened Protocol
  import C = ClientCell

  type History = seq<Version>

  ghost predicate Known(h: History, mtime: Bytes)
  {
    exists v :: v in h && v.mtime == mtime
  }

  ghost predicate Distinct(h: History)
  {
    forall i, j :: 0 <= i < j < |h| ==> h[i].mtime != h[j].mtime
  }

  /** The client's timestamp is the one the server reports now. */
  ghost predicate Named(file: Option<Version>, c: C.Cell)
  {
    file.Some? && c.stamp == Some(file.value.mtime)
  }

  /** The central property: a clean copy whose timestamp is the server's holds the server's bytes. */
  ghost predicate Coherent(file: Option<Version>, c: C.Cell)
  {
    Named(file, c) && !c.dirty && c.cache.Some? ==> c.cache.value == file.value.data
  }

  ghost predicate FileInv(file: Option<Version>, h: History)
  {
    && Distinct(h)
    && (forall v :: v in h ==> |v.mtime| == STAMP_LENGTH && v.mtime != ERASED)
    && (file.Some? ==> h != [] && file.value == h[|h| - 1])
  }

  ghost predicate StampInv(h: History, c: C.Cell)
  {
    c.stamp.Some? ==> c.stamp.value == LOCAL || c.stamp.value == ERASED || Known(h, c.stamp.value)
  }

  ghost predicate MarkInv(c: C.Cell)
  {
    c.stamp == Some(LOCAL) ==> c.marked
  }

  /** Half a download is never named by a timestamp of the server, nor open. */
  ghost predicate TornInv(c: C.Cell)
  {
    c.torn ==>
      && c.cache.Some? && c.handle.Closed?
      && (c.stamp.None? || c.stamp.value == ERASED || (c.stamp.value == LOCAL && (c.pc.OpenCreat? || c.pc.Dead?)))
  }

  ghost predicate SeenInv(h: History, c: C.Cell)
  {
    && (forall r :: r in c.seen ==> r.index < |h| && r.since <= r.index + 1 && r.data == h[r.index].data)
    && (forall i, j :: 0 <= i < j < |c.seen| ==> c.seen[i].index < c.seen[j].since <= c.seen[j].index + 1)
  }

  /** An open that began with `since` versions committed. */
  ghost predicate OpenInv(h: History, c: C.Cell, since: nat)
  {
    since <= |h| && c.handle.Closed? && forall r :: r in c.seen ==> r.index < since
  }

  ghost predicate PcInv(file: Option<Version>, h: History, c: C.Cell)
  {
    match c.pc
    case Idle => true
    case Exited => c.handle.Closed?
    case Dead => c.handle.Closed?
    case OpenStat(since) => OpenInv(h, c, since) && c.stamp.Some? && c.stamp.value != LOCAL
    case OpenEvict(since) => OpenInv(h, c, since)
    case OpenUnlink(since) => OpenInv(h, c, since) && c.stamp.None?
    case OpenFetch(since) => OpenInv(h, c, since) && c.stamp.None?
    case OpenReceive(since, index, mtime, msgs) =>
      && OpenInv(h, c, since) && c.stamp.None? && c.cache.Some? && c.torn
      && since <= index + 1 && index < |h| && h[index] == Version(c.cache.value + Joined(msgs), mtime)
    case OpenClosed(since, index, mtime) =>
      && OpenInv(h, c, since) && c.stamp.None? && c.cache.Some? && !c.torn
      && since <= index + 1 && index < |h| && h[index] == Version(c.cache.value, mtime)
    case OpenStamped(since, index) =>
      && OpenInv(h, c, since) && c.stamp.Some? && c.cache.Some? && !c.torn
      && since <= index + 1 && index < |h| && h[index] == Version(c.cache.value, c.stamp.value)
    case OpenAbsent => c.stamp.None? && c.handle.Closed?
    case OpenCreat => c.stamp == Some(LOCAL) && c.handle.Closed?
    case OpenLocalClean => c.stamp == Some(LOCAL) && c.handle.Closed? && !c.torn
    case Writing(_, _) => c.dirty && !c.torn
    case RelSend(data) => c.dirty && c.cache == Some(data) && c.handle.Closed? && !c.torn
    case RelWait(data, _) => c.dirty && c.cache == Some(data) && c.handle.Closed? && !c.torn
    case RelReply(data, mtime) =>
      && c.dirty && c.cache == Some(data) && c.handle.Closed? && !c.torn
      && !Named(file, c) && Version(data, mtime) in h
    case RelClean(data, mtime) =>
      && !c.dirty && c.cache == Some(data) && c.handle.Closed? && !c.torn
      && !Named(file, c) && Version(data, mtime) in h
    case MkStat => true
    case MkCreate => !Named(file, c)
    case MkSend => !Named(file, c) && c.cache == Some([]) && !c.torn
    case MkWait(_) => !Named(file, c) && c.cache == Some([]) && !c.torn
    case MkReply(mtime) => !Named(file, c) && c.cache == Some([]) && !c.torn && Version([], mtime) in h
    case UnStamp => c.cache.None?
    case UnDirty => c.cache.None? && c.stamp.None?
    case UnRpc => c.cache.None? && c.stamp.None?
  }

  ghost predicate CellInv(file: Option<Version>, h: History, c: C.Cell)
  {
    && Coherent(file, c)
    && StampInv(h, c)
    && MarkInv(c)
    && TornInv(c)
    && SeenInv(h, c)
    && (c.handle.Live? ==> c.cache.Some?)
    && PcInv(file, h, c)
  }

  ghost predicate UploadInv(s: State, call: CallId)
    requires call in s.uploads
  {
    var u := s.uploads[call];
    && u.got <= u.want
    && (u.owner in s.cells && C.Awaits(s.cells[u.owner], call) ==>
          u.want == Chunked(if s.cells[u.owner].pc.RelWait? then s.cells[u.owner].pc.data else []))
  }

  ghost predicate Inv(s: State)
  {
    && FileInv(s.file, s.history)
    && (forall call :: call in s.uploads ==> UploadInv(s, call))
    && forall id :: id in s.cells ==> CellInv(s.file, s.history, s.cells[id])
  }

  /** What the environment of a cell guarantees about the inputs it gives it. */
  ghost predicate Feeds(file: Option<Version>, h: History, c: C.Cell, i: C.Input)
  {
    match i
    case Begin(_, now) => now == |h|
    case StatIs(reply, index) =>
      if file.Some? then reply == Some(file.value.mtime) && index == |h| - 1 else reply.None?
    case ContentIs(index, mtime, msgs) =>
      file.Some? && index == |h| - 1 && mtime == file.value.mtime && msgs == Chunked(file.value.data)
    case ReplyIs(mtime) =>
      && !Named(file, c)
      && (c.pc.RelWait? ==> Version(c.pc.data, mtime) in h)
      && (c.pc.MkWait? ==> Version([], mtime) in h)
    case _ => true
  }

  lemma KnownIsStamp(file: Option<Version>, h: History, mtime: Bytes)
    requires FileInv(file, h) && Known(h, mtime)
    ensures |mtime| == STAMP_LENGTH && mtime != ERASED && mtime != LOCAL && mtime != []
  {
  }

  lemma NamedIsKnown(file: Option<Version>, h: History, c: C.Cell)
    requires FileInv(file, h) && Named(file, c)
    ensures Known(h, c.stamp.value)
  {
    assert file.value in h;
  }

  lemma SameIndex(h: History, i: nat, j: nat)
    requires Distinct(h) && i < |h| && j < |h| && h[i].mtime == h[j].mtime
    ensures i == j
  {
  }

  /** Timestamps are unique, so the version a timestamp names is determined. */
  lemma SameVersion(file: Option<Version>, h: History, v: Version)
    requires FileInv(file, h) && v in h && file.Some? && v.mtime == file.value.mtime
    ensures v == file.value
  {
    var i :| 0 <= i < |h| && h[i] == v;
    SameIndex(h, i, |h| - 1);
  }

  lemma BeginKeeps(file: Option<Version>, h: History, c: C.Cell, call: C.Call)
    requires FileInv(file, h) && CellInv(file, h, c)
    ensures CellInv(file, h, C.Next(c, C.Begin(call, |h|)))
  {
    hide SeenInv, FileInv, C.OwnStep, C.OnStat, C.OnFailure, C.Restarted;
    if c.pc.Idle? {
      SeenOnly(h, c, C.BeginCall(c, call, |h|));
    }
  }

  lemma OpenStepKeeps(file: Option<Version>, h: History, c: C.Cell)
    requires FileInv(file, h) && CellInv(file, h, c)
    requires c.pc.OpenEvict? || c.pc.OpenUnlink? || c.pc.OpenReceive? || c.pc.OpenAbsent? || c.pc.OpenCreat?
    ensures CellInv(file, h, C.OwnStep(c))
  {
    if c.pc.OpenReceive? {
      if c.pc.msgs == [] {
        assert c.cache.value + [] == c.cache.value;
      } else {
        var m, rest := c.pc.msgs[0], c.pc.msgs[1..];
        assert c.pc.msgs == [m] + rest;
        JoinedHead(m, rest);
        assert c.cache.value + (m + Joined(rest)) == (c.cache.value + m) + Joined(rest);
      }
    }
  }

  /** The download is complete: the timestamp is set first, the dirty flag cleared after it. */
  lemma OpenEndKeeps(file: Option<Version>, h: History, c: C.Cell)
    requires FileInv(file, h) && CellInv(file, h, c)
    requires c.pc.OpenClosed? || c.pc.OpenStamped? || c.pc.OpenLocalClean?
    ensures CellInv(file, h, C.OwnStep(c))
  {
    if !c.pc.OpenLocalClean? {
      var v := h[c.pc.index];
      assert v in h && Known(h, v.mtime);
      KnownIsStamp(file, h, v.mtime);
      if file.Some? && file.value.mtime == v.mtime {
        SameVersion(file, h, v);
      }
    } else if Named(file, c) {
      NamedIsKnown(file, h, c);
      KnownIsStamp(file, h, LOCAL);
    }
  }

  /** The window in which the dirty flag is cleared and the timestamp still names the old version. */
  lemma ReleaseStepKeeps(file: Option<Version>, h: History, c: C.Cell)
    requires FileInv(file, h) && CellInv(file, h, c)
    requires c.pc.RelReply? || c.pc.RelClean? || c.pc.MkReply? || c.pc.MkCreate?
    ensures CellInv(file, h, C.OwnStep(c))
  {
    if !c.pc.RelReply? && !c.pc.MkCreate? {
      var v := Version(if c.pc.RelClean? then c.pc.data else [], c.pc.mtime);
      assert v in h && Known(h, v.mtime);
      if file.Some? && file.value.mtime == v.mtime {
        SameVersion(file, h, v);
      }
    }
  }

  lemma OtherStepKeeps(file: Option<Version>, h: History, c: C.Cell)
    requires FileInv(file, h) && CellInv(file, h, c)
    requires c.pc.Writing? || c.pc.UnStamp? || c.pc.UnDirty? || c.pc.UnRpc?
    ensures CellInv(file, h, C.OwnStep(c))
  {
  }

  lemma StatKeeps(file: Option<Version>, h: History, c: C.Cell, reply: Option<Bytes>, index: nat)
    requires FileInv(file, h) && CellInv(file, h, c) && Feeds(file, h, c, C.StatIs(reply, index))
    ensures CellInv(file, h, C.OnStat(c, reply, index))
  {
    if c.pc.OpenStat? && c.stamp == Some(if reply.Some? then reply.value else []) {
      if c.stamp == Some([]) {
        KnownIsStamp(file, h, []);
      }
      HitKeeps(file, h, c, index);
    } else {
      hide SeenInv, FileInv;
      SeenOnly(h, c, C.OnStat(c, reply, index));
    }
  }

  lemma HitKeeps(file: Option<Version>, h: History, c: C.Cell, index: nat)
    requires FileInv(file, h) && CellInv(file, h, c) && c.pc.OpenStat? && Named(file, c) && index == |h| - 1
    ensures CellInv(file, h, C.OnStat(c, Some(file.value.mtime), index))
  {
    var d := C.OnStat(c, Some(file.value.mtime), index);
    NamedIsKnown(file, h, c);
    KnownIsStamp(file, h, c.stamp.value);
    assert SeenInv(h, d) by {
      if |d.seen| > |c.seen| {
        SeenOneMore(h, c, d.seen[|c.seen|]);
      }
      SeenOnly(h, d, c.(seen := d.seen));
    }
    hide SeenInv, FileInv, Known;
  }

  lemma SeenOneMore(h: History, c: C.Cell, r: C.Read)
    requires SeenInv(h, c) && forall x :: x in c.seen ==> x.index < r.since
    requires r.since <= r.index + 1 && r.index < |h| && r.data == h[r.index].data
    ensures SeenInv(h, c.(seen := c.seen + [r]))
  {
  }

  lemma FailureKeeps(file: Option<Version>, h: History, c: C.Cell)
    requires FileInv(file, h) && CellInv(file, h, c)
    ensures CellInv(file, h, C.OnFailure(c))
  {
  }

  /** A crash keeps the invariant at every point of every callback. */
  lemma CrashKeeps(file: Option<Version>, h: History, c: C.Cell, tombstone: bool, aborts: bool)
    requires FileInv(file, h) && CellInv(file, h, c)
    ensures CellInv(file, h, C.Restarted(c, tombstone, aborts))
  {
    var d := C.Restarted(c, tombstone, aborts);
    if Named(file, d) {
      NamedIsKnown(file, h, d);
      KnownIsStamp(file, h, d.stamp.value);
    }
  }

  lemma ContentKeeps(file: Option<Version>, h: History, c: C.Cell)
    requires FileInv(file, h) && CellInv(file, h, c) && file.Some?
    ensures CellInv(file, h, C.Next(c, C.ContentIs(|h| - 1, file.value.mtime, Chunked(file.value.data))))
  {
    TransferRoundTrip(file.value.data);
    assert [] + file.value.data == file.value.data;
  }

  /** The client automaton keeps the invariant under every input its environment may give it. */
  lemma CellKeeps(file: Option<Version>, h: History, c: C.Cell, i: C.Input)
    requires FileInv(file, h) && CellInv(file, h, c) && Feeds(file, h, c, i)
    ensures CellInv(file, h, C.Next(c, i))
  {
    hide CellInv, FileInv;
    match i {
      case Begin(call, now) => BeginKeeps(file, h, c, call);
      case Step => StepKeeps(file, h, c);
      case StatIs(reply, index) => StatKeeps(file, h, c, reply, index);
      case ContentIs(index, mtime, msgs) => ContentKeeps(file, h, c);
      case Failed => FailureKeeps(file, h, c);
      case Crash(tombstone, aborts) => CrashKeeps(file, h, c, tombstone, aborts);
      case Snapshot => SnapshotKeeps(file, h, c);
      case ContentAbsent => ReplyKeeps(file, h, c, i);
      case UploadStarted(call) => ReplyKeeps(file, h, c, i);
      case ReplyIs(mtime) => ReplyKeeps(file, h, c, i);
    }
  }

  lemma StepKeeps(file: Option<Version>, h: History, c: C.Cell)
    requires FileInv(file, h) && CellInv(file, h, c)
    ensures CellInv(file, h, C.OwnStep(c))
  {
    hide CellInv, FileInv;
    match c.pc {
      case OpenEvict(_) => OpenStepKeeps(file, h, c);
      case OpenUnlink(_) => OpenStepKeeps(file, h, c);
      case OpenReceive(_, _, _, _) => OpenStepKeeps(file, h, c);
      case OpenAbsent => OpenStepKeeps(file, h, c);
      case OpenCreat => OpenStepKeeps(file, h, c);
      case OpenClosed(_, _, _) => OpenEndKeeps(file, h, c);
      case OpenStamped(_, _) => OpenEndKeeps(file, h, c);
      case OpenLocalClean => OpenEndKeeps(file, h, c);
      case RelReply(_, _) => ReleaseStepKeeps(file, h, c);
      case RelClean(_, _) => ReleaseStepKeeps(file, h, c);
      case MkReply(_) => ReleaseStepKeeps(file, h, c);
      case MkCreate => ReleaseStepKeeps(file, h, c);
      case Writing(_, _) => OtherStepKeeps(file, h, c);
      case UnStamp => OtherStepKeeps(file, h, c);
      case UnDirty => OtherStepKeeps(file, h, c);
      case UnRpc => OtherStepKeeps(file, h, c);
      case _ =>
    }
  }

  lemma ReplyKeeps(file: Option<Version>, h: History, c: C.Cell, i: C.Input)
    requires FileInv(file, h) && CellInv(file, h, c) && Feeds(file, h, c, i)
    requires i.ContentAbsent? || i.UploadStarted? || i.ReplyIs?
    ensures CellInv(file, h, C.Next(c, i))
  {
    hide SeenInv, FileInv, C.OwnStep, C.OnStat, C.OnFailure, C.Restarted, C.BeginCall;
    SeenOnly(h, c, C.Next(c, i));
  }

  /** A snapshot drops the mark of a path that is no local file any more. */
  lemma SnapshotKeeps(file: Option<Version>, h: History, c: C.Cell)
    requires FileInv(file, h) && CellInv(file, h, c)
    ensures CellInv(file, h, C.Next(c, C.Snapshot))
  {
    hide SeenInv, FileInv;
    SeenOnly(h, c, C.Next(c, C.Snapshot));
  }

  lemma SeenOnly(h: History, c: C.Cell, d: C.Cell)
    requires c.seen == d.seen
    ensures SeenInv(h, c) == SeenInv(h, d)
    ensures SeenInv(h, c) ==> forall r :: r in c.seen ==> r.index < |h|
  {
  }

  /** A commit makes every timestamp a client holds an old one. */
  lemma CommitKeepsCell(file: Option<Version>, h: History, c: C.Cell, v: Version)
    requires FileInv(file, h) && CellInv(file, h, c) && Fresh(h, v.mtime)
    ensures !Named(Some(v), c)
    ensures CellInv(Some(v), h + [v], c)
  {
    assert !Known(h, v.mtime) && v.mtime != LOCAL;
    forall w | w in h ensures w in h + [v] {}
    if c.stamp.Some? && Known(h, c.stamp.value) {
      var w :| w in h && w.mtime == c.stamp.value;
      assert w in h + [v];
    }
  }

  lemma UnlinkKeepsCell(file: Option<Version>, h: History, c: C.Cell)
    requires FileInv(file, h) && CellInv(file, h, c)
    ensures CellInv(None, h, c)
  {
  }
}

/** The invariant holds in every run: any clients, any interleaving, any crashes. */
module Reachable {
  import opened Basics
  import opened Chunks
  import opened StampCodec
  import opened Protocol
  import opened Invariant
  import C = ClientCell

  lemma InitialInv(clients: set<ClientId>)
    ensures Inv(Initial(clients))
  {
  }

  /** A step of one cell that leaves the server alone. */
  lemma SetCellInv(s: State, id: ClientId, i: C.Input)
    requires Inv(s) && id in s.cells && Feeds(s.file, s.history, s.cells[id], i)
    requires !i.UploadStarted?
    ensures Inv(SetCell(s, id, i))
  {
    hide CellInv, FileInv, Feeds, C.Next;
    CellKeeps(s.file, s.history, s.cells[id], i);
    var t := SetCell(s, id, i);
    forall call | call in t.uploads ensures UploadInv(t, call) {
      assert UploadInv(s, call);
      if s.uploads[call].owner == id && C.Awaits(t.cells[id], call) {
        StillAwaits(s.cells[id], i, call);
      }
    }
  }

  /** No other input makes a client wait for an upload. */
  lemma StillAwaits(c: C.Cell, i: C.Input, call: CallId)
    requires !i.UploadStarted? && C.Awaits(C.Next(c, i), call)
    ensures C.Next(c, i).pc == c.pc
  {
    hide C.OwnStep, C.BeginCall;
    if i.Step? {
      StepDoesNotAwait(c, call);
    } else if i.Begin? && c.pc.Idle? {
      BeginDoesNotAwait(c, i.call, i.now, call);
    }
  }

  lemma StepDoesNotAwait(c: C.Cell, call: CallId)
    requires C.Awaits(C.OwnStep(c), call)
    ensures C.OwnStep(c).pc == c.pc
  {
  }

  lemma BeginDoesNotAwait(c: C.Cell, fuse: C.Call, now: nat, call: CallId)
    requires c.pc.Idle?
    ensures !C.Awaits(C.BeginCall(c, fuse, now), call)
  {
  }

  lemma StartedInv(s: State, id: ClientId, call: CallId)
    requires Inv(s) && MayStart(s, id, call)
    ensures Inv(Started(s, id, call))
  {
    hide CellInv, FileInv;
    CellKeeps(s.file, s.history, s.cells[id], C.UploadStarted(call));
    var t := Started(s, id, call);
    forall other | other in t.uploads ensures UploadInv(t, other) {
      if other != call {
        assert UploadInv(s, other);
      }
    }
  }

  lemma UnlinkInv(s: State, id: ClientId)
    requires Inv(s) && id in s.cells && s.cells[id].pc.UnRpc?
    ensures Inv(Advanced(s, id))
  {
    hide CellInv, C.Next;
    var t := SetCell(s, id, C.Step);
    SetCellInv(s, id, C.Step);
    forall other | other in t.cells ensures CellInv(None, t.history, t.cells[other]) {
      UnlinkKeepsCell(t.file, t.history, t.cells[other]);
    }
    forall call | call in t.uploads ensures UploadInv(t.(file := None), call) {
      assert UploadInv(t, call);
    }
  }

  lemma AdvancedInv(s: State, id: ClientId)
    requires Inv(s) && id in s.cells
    ensures Inv(Advanced(s, id))
  {
    hide CellInv, C.Next, UploadInv;
    var pc := s.cells[id].pc;
    if pc.OpenStat? || pc.MkStat? {
      if s.file.None? {
        SetCellInv(s, id, C.StatIs(None, 0));
      } else {
        SetCellInv(s, id, C.StatIs(Some(s.file.value.mtime), |s.history| - 1));
      }
    } else if pc.OpenFetch? {
      if s.file.None? {
        SetCellInv(s, id, C.ContentAbsent);
      } else {
        SetCellInv(s, id, C.ContentIs(|s.history| - 1, s.file.value.mtime, Chunked(s.file.value.data)));
      }
    } else if pc.UnRpc? {
      UnlinkInv(s, id);
    } else {
      SetCellInv(s, id, C.Step);
    }
  }

  lemma ReceivedInv(s: State, call: CallId)
    requires Inv(s) && call in s.uploads
    ensures Inv(Next(s, Receive(call)))
  {
    hide CellInv, FileInv;
    var t := Next(s, Receive(call));
    forall other | other in t.uploads ensures UploadInv(t, other) {
      assert UploadInv(s, other);
    }
  }

  lemma FewerUploadsInv(s: State, uploads: map<CallId, Upload>)
    requires Inv(s) && forall call :: call in uploads ==> call in s.uploads && uploads[call] == s.uploads[call]
    ensures Inv(s.(uploads := uploads))
  {
    hide CellInv, FileInv;
    forall call | call in uploads ensures UploadInv(s.(uploads := uploads), call) {
      assert UploadInv(s, call);
    }
  }

  /** The new version is on the server and the upload is over; the reply is not yet sent. */
  lemma RenamedInv(s: State, call: CallId, mtime: Bytes)
    requires Inv(s) && MayCommit(s, call, mtime)
    ensures var v := Version(Joined(s.uploads[call].got), mtime);
      var t := s.(file := Some(v), history := s.history + [v], uploads := s.uploads - {call});
      && Inv(t) && v in t.history
      && forall id :: id in s.cells ==> !Named(t.file, s.cells[id])
  {
    hide CellInv, FileInv, Named, Fresh;
    var v := Version(Joined(s.uploads[call].got), mtime);
    var t := s.(file := Some(v), history := s.history + [v], uploads := s.uploads - {call});
    FileCommitted(s, v);
    forall id | id in s.cells
      ensures CellInv(t.file, t.history, s.cells[id]) && !Named(t.file, s.cells[id])
    {
      CommitKeepsCell(s.file, s.history, s.cells[id], v);
    }
    forall other | other in t.uploads ensures UploadInv(t, other) {
      assert UploadInv(s, other);
    }
  }

  lemma CommittedInv(s: State, call: CallId, mtime: Bytes)
    requires Inv(s) && MayCommit(s, call, mtime)
    ensures Inv(Committed(s, call, mtime))
  {
    hide CellInv, FileInv, Named, Fresh, C.Next, Inv;
    RenamedInv(s, call, mtime);
    var u := s.uploads[call];
    var v := Version(Joined(u.got), mtime);
    var t := s.(file := Some(v), history := s.history + [v], uploads := s.uploads - {call});
    if u.owner in s.cells && C.Awaits(s.cells[u.owner], call) {
      var pc := s.cells[u.owner].pc;
      assert UploadInv(s, call) by { UploadsInv(s, call); }
      TransferRoundTrip(if pc.RelWait? then pc.data else []);
      SetCellInv(t, u.owner, C.ReplyIs(mtime));
    }
  }

  lemma UploadsInv(s: State, call: CallId)
    requires Inv(s) && call in s.uploads
    ensures UploadInv(s, call)
  {
  }

  lemma FileCommitted(s: State, v: Version)
    requires FileInv(s.file, s.history) && Fresh(s.history, v.mtime)
    ensures FileInv(Some(v), s.history + [v])
  {
  }

  lemma NextInv(s: State, e: Event)
    requires Inv(s)
    ensures Inv(Next(s, e))
  {
    hide CellInv, FileInv, UploadInv, C.Next;
    match e {
      case Call(id, call) => if id in s.cells { SetCellInv(s, id, C.Begin(call, |s.history|)); }
      case Advance(id) => if id in s.cells { AdvancedInv(s, id); }
      case Start(id, call) => if MayStart(s, id, call) { StartedInv(s, id, call); }
      case Fail(id) => if id in s.cells { SetCellInv(s, id, C.Failed); }
      case Receive(call) => if call in s.uploads { ReceivedInv(s, call); }
      case Commit(call, mtime) => if MayCommit(s, call, mtime) { CommittedInv(s, call, mtime); }
      case Drop(call) => FewerUploadsInv(s, s.uploads - {call});
      case Snapshot(id) => if id in s.cells { SetCellInv(s, id, C.Snapshot); }
      case ClientCrash(id, tombstone, aborts) => if id in s.cells { SetCellInv(s, id, C.Crash(tombstone, aborts)); }
      case ServerCrash => FewerUploadsInv(s, map[]);
    }
  }

  lemma {:induction false} RunInv(s: State, events: seq<Event>)
    requires Inv(s)
    ensures Inv(Run(s, events))
  {
    hide Inv, Next;
    if events == [] {
    } else {
      RunInv(s, events[..|events| - 1]);
      NextInv(Run(s, events[..|events| - 1]), events[|events| - 1]);
    }
  }
}
