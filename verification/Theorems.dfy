/** What the protocol promises, over whole runs. */
module Theorems {
  import opened Basics
  import opened Chunks
  import opened StampCodec
  import opened Protocol
  import opened Invariant
  import opened Reachable
  import C = ClientCell

  /** In every reachable state a clean cache file whose timestamp is the server's holds exactly the
      server's bytes, and no half-downloaded file carries a timestamp the server ever reported. */
  lemma CacheCoherence(clients: set<ClientId>, events: seq<Event>, id: ClientId)
    requires id in Run(Initial(clients), events).cells
    ensures var s := Run(Initial(clients), events); var c := s.cells[id];
      && (Named(s.file, c) && !c.dirty && c.cache.Some? ==> c.cache.value == s.file.value.data)
      && (c.torn && c.stamp.Some? ==> !Known(s.history, c.stamp.value))
  {
    InitialInv(clients);
    RunInv(Initial(clients), events);
    var s := Run(Initial(clients), events);
    var c := s.cells[id];
    if c.torn && c.stamp.Some? && Known(s.history, c.stamp.value) {
      KnownIsStamp(s.file, s.history, c.stamp.value);
    }
  }

  lemma NextHistory(s: State, e: Event)
    ensures s.history <= Next(s, e).history && Next(s, e).cells.Keys == s.cells.Keys
    ensures Next(s, e).file == s.file || Next(s, e).file.None?
            || (|Next(s, e).history| == |s.history| + 1 && Next(s, e).file == Some(Next(s, e).history[|s.history|]))
  {
    hide C.Next;
  }

  /** Last writer wins: committed versions form an append-only history in the order of the renames,
      and the server holds the last of them or, after an unlink, none. */
  lemma {:induction false} LastWriterWins(s: State, events: seq<Event>)
    requires Inv(s)
    ensures var t := Run(s, events);
      && s.history <= t.history && t.cells.Keys == s.cells.Keys
      && (t.file.Some? ==> t.history != [] && t.file.value == t.history[|t.history| - 1])
  {
    hide CellInv, Next;
    RunInv(s, events);
    if events == [] {
    } else {
      var front := events[..|events| - 1];
      LastWriterWins(s, front);
      NextHistory(Run(s, front), events[|events| - 1]);
    }
  }

  /** The clean, server-checked opens of one client: each returned the bytes of a committed version
      at least as new as the last commit before it began, and they never go back. */
  lemma OpensAreFreshAndMonotonic(clients: set<ClientId>, events: seq<Event>, id: ClientId)
    requires id in Run(Initial(clients), events).cells
    ensures var s := Run(Initial(clients), events); var seen := s.cells[id].seen;
      && (forall r :: r in seen ==>
            r.since <= r.index + 1 && r.index < |s.history| && r.data == s.history[r.index].data)
      && (forall i, j :: 0 <= i < j < |seen| ==> seen[i].index <= seen[j].index)
  {
    InitialInv(clients);
    RunInv(Initial(clients), events);
  }

  // -- Close-to-open ---------------------------------------------------------------------------

  /** The input a cell gets from an event, if any. */
  ghost function InputOf(s: State, e: Event, id: ClientId): Option<C.Input>
    requires id in s.cells
  {
    match e
    case Call(x, call) => if x == id then Some(C.Begin(call, |s.history|)) else None
    case Advance(x) => if x == id then AdvanceInput(s, s.cells[id].pc) else None
    case Fail(x) => if x == id then Some(C.Failed) else None
    case Start(x, call) => if x == id && MayStart(s, id, call) then Some(C.UploadStarted(call)) else None
    case Commit(call, mtime) =>
      if MayCommit(s, call, mtime) && s.uploads[call].owner == id && C.Awaits(s.cells[id], call) then Some(C.ReplyIs(mtime)) else None
    case Snapshot(x) => if x == id then Some(C.Snapshot) else None
    case ClientCrash(x, tombstone, aborts) => if x == id then Some(C.Crash(tombstone, aborts)) else None
    case Receive(_) => None
    case Drop(_) => None
    case ServerCrash => None
  }

  ghost function AdvanceInput(s: State, pc: C.Pc): Option<C.Input>
  {
    if pc.OpenStat? || pc.MkStat? then
      if s.file.None? then Some(C.StatIs(None, 0))
      else if s.history == [] then None else Some(C.StatIs(Some(s.file.value.mtime), |s.history| - 1))
    else if pc.OpenFetch? then
      if s.file.None? then Some(C.ContentAbsent)
      else if s.history == [] then None
      else Some(C.ContentIs(|s.history| - 1, s.file.value.mtime, Chunked(s.file.value.data)))
    else Some(C.Step)
  }

  ghost function Fed(c: C.Cell, i: Option<C.Input>): C.Cell
  {
    if i.None? then c else C.Next(c, i.value)
  }

  /** An event changes a cell by the input it feeds it and in no other way. */
  lemma NextCell(s: State, e: Event, id: ClientId)
    requires id in s.cells
    ensures id in Next(s, e).cells && Next(s, e).cells[id] == Fed(s.cells[id], InputOf(s, e, id))
  {
    hide C.Next, Fresh;
  }

  /** Everything the client opens from here on begins with at least n versions committed. */
  ghost predicate Since(c: C.Cell, before: seq<C.Read>, n: nat)
  {
    && before <= c.seen
    && (forall i :: |before| <= i < |c.seen| ==> c.seen[i].since >= n)
    && BeganSince(c.pc, n)
  }

  ghost predicate BeganSince(pc: C.Pc, n: nat)
  {
    match pc
    case OpenStat(since) => since >= n
    case OpenEvict(since) => since >= n
    case OpenUnlink(since) => since >= n
    case OpenFetch(since) => since >= n
    case OpenReceive(since, _, _, _) => since >= n
    case OpenClosed(since, _, _) => since >= n
    case OpenStamped(since, _) => since >= n
    case _ => true
  }

  lemma SinceFed(c: C.Cell, i: C.Input, before: seq<C.Read>, n: nat)
    requires Since(c, before, n) && (i.Begin? ==> i.now >= n)
    ensures Since(C.Next(c, i), before, n)
  {
    hide C.Next, BeganSince;
    BeganFed(c, i, n);
    SeenFed(c, i, n);
  }

  lemma BeganFed(c: C.Cell, i: C.Input, n: nat)
    requires BeganSince(c.pc, n) && (i.Begin? ==> i.now >= n)
    ensures BeganSince(C.Next(c, i).pc, n)
  {
    hide C.OwnStep;
    if i.Step? {
      BeganStep(c, n);
    }
  }

  lemma BeganStep(c: C.Cell, n: nat)
    requires BeganSince(c.pc, n)
    ensures BeganSince(C.OwnStep(c).pc, n)
  {
  }

  lemma SeenFed(c: C.Cell, i: C.Input, n: nat)
    requires BeganSince(c.pc, n)
    ensures C.Next(c, i).seen != c.seen ==>
      |C.Next(c, i).seen| == |c.seen| + 1 && c.seen <= C.Next(c, i).seen && C.Next(c, i).seen[|c.seen|].since >= n
  {
    hide C.OwnStep, C.BeginCall;
    if i.Step? {
      SeenStep(c, n);
    } else if i.Begin? && c.pc.Idle? {
      SeenBegin(c, i.call, i.now);
    }
  }

  lemma SeenStep(c: C.Cell, n: nat)
    requires BeganSince(c.pc, n)
    ensures C.OwnStep(c).seen != c.seen ==>
      |C.OwnStep(c).seen| == |c.seen| + 1 && c.seen <= C.OwnStep(c).seen && C.OwnStep(c).seen[|c.seen|].since >= n
  {
  }

  lemma SeenBegin(c: C.Cell, call: C.Call, now: nat)
    requires c.pc.Idle?
    ensures C.BeginCall(c, call, now).seen == c.seen
  {
  }

  lemma {:induction false} SinceRun(s: State, events: seq<Event>, id: ClientId, before: seq<C.Read>, n: nat)
    requires Inv(s) && id in s.cells && Since(s.cells[id], before, n) && n <= |s.history|
    ensures id in Run(s, events).cells && Since(Run(s, events).cells[id], before, n)
  {
    hide Since, Inv, C.Next, Next;
    if events == [] {
    } else {
      var front, e := events[..|events| - 1], events[|events| - 1];
      SinceRun(s, front, id, before, n);
      LastWriterWins(s, front);
      var t := Run(s, front);
      NextCell(t, e, id);
      var i := InputOf(t, e, id);
      if i.Some? {
        SinceFed(t.cells[id], i.value, before, n);
      }
    }
  }

  /** Close-to-open: what a client opens clean after the n-th commit is version n or a later one,
      byte for byte; if nothing was committed since, it is exactly what was released last. */
  lemma CloseToOpen(s: State, events: seq<Event>, id: ClientId)
    requires Inv(s) && id in s.cells && s.cells[id].pc.Idle?
    ensures var t := Run(s, events); var before := s.cells[id].seen;
      && id in t.cells && before <= t.cells[id].seen
      && forall i :: |before| <= i < |t.cells[id].seen| ==>
           var r := t.cells[id].seen[i];
           && |s.history| <= r.index + 1 && r.index < |t.history| && r.data == t.history[r.index].data
           && (t.history == s.history && s.history != [] ==> r.data == s.history[|s.history| - 1].data)
  {
    hide Next, Run, PcInv, TornInv, StampInv, Coherent;
    RunInv(s, events);
    SinceRun(s, events, id, s.cells[id].seen, |s.history|);
    LastWriterWins(s, events);
    var t := Run(s, events);
    forall i | |s.cells[id].seen| <= i < |t.cells[id].seen|
      ensures t.cells[id].seen[i] in t.cells[id].seen
    {
    }
  }

  /** An open that ends with a live handle is recorded, with the bytes handed out, exactly if the
      copy is clean and not that of a local file. */
  lemma OpenIsRecorded(file: Option<Version>, h: History, c: C.Cell, i: C.Input)
    requires FileInv(file, h) && CellInv(file, h, c) && c.handle.Closed? && C.Next(c, i).handle.Live?
    ensures var d := C.Next(c, i);
      if !d.dirty && d.stamp != Some(LOCAL)
      then |d.seen| == |c.seen| + 1 && c.seen <= d.seen && d.cache == Some(d.seen[|c.seen|].data)
      else d.seen == c.seen
  {
    hide SeenInv, Coherent, StampInv, TornInv, MarkInv, FileInv, C.OwnStep;
    if i.Step? {
      StepIsRecorded(file, h, c);
    }
  }

  lemma StepIsRecorded(file: Option<Version>, h: History, c: C.Cell)
    requires FileInv(file, h) && CellInv(file, h, c) && c.handle.Closed? && C.OwnStep(c).handle.Live?
    ensures var d := C.OwnStep(c);
      if !d.dirty && d.stamp != Some(LOCAL)
      then |d.seen| == |c.seen| + 1 && c.seen <= d.seen && d.cache == Some(d.seen[|c.seen|].data)
      else d.seen == c.seen
  {
    hide SeenInv, Coherent, StampInv, TornInv, MarkInv;
    if c.pc.OpenStamped? {
      assert h[c.pc.index] in h;
    }
  }

  /** Close-to-open, for the handle: whenever a client that was idle after the n-th commit opens the
      file and finds its copy clean and not local, it has version n or a later one, byte for byte;
      if nothing was committed since, exactly what was released last. */
  lemma OpenedIsFresh(s: State, events: seq<Event>, e: Event, id: ClientId)
    requires Inv(s) && id in s.cells && s.cells[id].pc.Idle? && s.history != []
    requires id in Run(s, events).cells && Run(s, events).cells[id].handle.Closed?
    requires var u := Next(Run(s, events), e);
      id in u.cells && u.cells[id].handle.Live? && !u.cells[id].dirty && u.cells[id].stamp != Some(LOCAL)
    ensures var u := Next(Run(s, events), e);
      && (exists k :: |s.history| - 1 <= k < |u.history| && u.cells[id].cache == Some(u.history[k].data))
      && (u.history == s.history ==> u.cells[id].cache == Some(s.history[|s.history| - 1].data))
  {
    hide Next, Inv, CellInv, FileInv, C.Next;
    var t, u := Run(s, events), Next(Run(s, events), e);
    var c := t.cells[id];
    RunInv(s, events);
    NextCell(t, e, id);
    assert FileInv(t.file, t.history) && CellInv(t.file, t.history, c) by { CellsInv(t, id); }
    OpenIsRecorded(t.file, t.history, c, InputOf(t, e, id).value);
    RunSnoc(s, events, e);
    CloseToOpen(s, events, id);
    CloseToOpen(s, events + [e], id);
    var k := u.cells[id].seen[|c.seen|].index;
    assert |s.history| - 1 <= k < |u.history|;
  }

  lemma CellsInv(s: State, id: ClientId)
    requires Inv(s) && id in s.cells
    ensures FileInv(s.file, s.history) && CellInv(s.file, s.history, s.cells[id])
  {
  }

  lemma RunSnoc(s: State, events: seq<Event>, e: Event)
    ensures Run(s, events + [e]) == Next(Run(s, events), e)
  {
    assert (events + [e])[..|events|] == events;
  }

  lemma {:induction false} RunConcat(s: State, a: seq<Event>, b: seq<Event>)
    ensures Run(s, a + b) == Run(Run(s, a), b)
  {
    hide Next;
    if b == [] {
      assert a + b == a;
    } else {
      RunConcat(s, a, b[..|b| - 1]);
      assert (a + b)[..|a + b| - 1] == a + b[..|b| - 1];
    }
  }

  // -- When the server has the file --------------------------------------------------------------

  ghost predicate Commits(s: State, e: Event)
  {
    e.Commit? && MayCommit(s, e.id, e.mtime)
  }

  /** The Unlink RPC of an afs_unlink reaches the server. */
  ghost predicate Unlinks(s: State, e: Event)
  {
    e.Advance? && e.client in s.cells && s.cells[e.client].pc.UnRpc?
  }

  /** A commit puts its version there, a completed unlink removes the file, and nothing else touches
      it: not an unlink that fails, a cancelled upload or a crash. */
  lemma FileAfter(s: State, e: Event)
    ensures Commits(s, e) ==> Next(s, e).file == Some(Version(Joined(s.uploads[e.id].want), e.mtime))
    ensures Unlinks(s, e) ==> Next(s, e).file == None
    ensures !Commits(s, e) && !Unlinks(s, e) ==> Next(s, e).file == s.file
  {
    hide C.Next, Fresh;
  }

  ghost predicate CommitAt(s: State, events: seq<Event>, k: int)
  {
    0 <= k < |events| && Commits(Run(s, events[..k]), events[k])
  }

  ghost predicate UnlinkAt(s: State, events: seq<Event>, k: int)
  {
    0 <= k < |events| && Unlinks(Run(s, events[..k]), events[k])
  }

  /** One of the first n events is a commit that has no completed unlink after it. */
  ghost predicate Standing(s: State, events: seq<Event>, n: int, k: int)
  {
    0 <= k < n && CommitAt(s, events, k) && forall j :: k < j < n ==> !UnlinkAt(s, events, j)
  }

  lemma OneMoreEvent(s: State, events: seq<Event>, n: nat)
    requires n < |events|
    ensures var before, after := Run(s, events[..n]), Run(s, events[..n + 1]);
      && (CommitAt(s, events, n) ==> after.file == Some(Committing(s, events, n)))
      && (UnlinkAt(s, events, n) ==> after.file == None)
      && (!CommitAt(s, events, n) && !UnlinkAt(s, events, n) ==> after.file == before.file)
      && !(CommitAt(s, events, n) && UnlinkAt(s, events, n))
  {
    hide Next, Run, Commits, Unlinks;
    assert events[..n + 1] == events[..n] + [events[n]];
    RunSnoc(s, events[..n], events[n]);
    FileAfter(Run(s, events[..n]), events[n]);
    NotBoth(Run(s, events[..n]), events[n]);
  }

  /** At every moment of every run the server has the file if and only if some commit has no
      completed unlink after it ... */
  lemma {:induction false} FileIff(s: State, events: seq<Event>, n: nat)
    requires s.file.None? && n <= |events|
    ensures Run(s, events[..n]).file.Some? <==> exists k :: Standing(s, events, n, k)
  {
    hide Run, CommitAt, UnlinkAt;
    if n == 0 {
      RunNothing(s);
    } else {
      var m := n - 1;
      FileIff(s, events, m);
      OneMoreEvent(s, events, m);
      if CommitAt(s, events, m) {
        assert Standing(s, events, n, m);
      } else if UnlinkAt(s, events, m) {
        forall k ensures !Standing(s, events, n, k) {
        }
      } else {
        forall k ensures Standing(s, events, n, k) <==> Standing(s, events, m, k) {
        }
      }
    }
  }

  /** The version that the k-th event commits. */
  ghost function Committing(s: State, events: seq<Event>, k: nat): Version
    requires CommitAt(s, events, k)
  {
    Version(Joined(Run(s, events[..k]).uploads[events[k].id].want), events[k].mtime)
  }

  /** ... and then it has the version of the last commit. */
  lemma {:induction false} FileIsLast(s: State, events: seq<Event>, n: nat, k: nat)
    requires k < n <= |events| && Standing(s, events, n, k) && forall j :: k < j < n ==> !CommitAt(s, events, j)
    ensures Run(s, events[..n]).file == Some(Committing(s, events, k))
  {
    hide Run, CommitAt, UnlinkAt, Committing;
    OneMoreEvent(s, events, n - 1);
    if n == k + 1 {
    } else {
      FileIsLast(s, events, n - 1, k);
    }
  }

  lemma NotBoth(s: State, e: Event)
    ensures !(Commits(s, e) && Unlinks(s, e))
    ensures Commits(s, e) ==> e.Commit? && e.id in s.uploads
  {
  }

  lemma RunNothing(s: State)
    ensures Run(s, []) == s
  {
  }

  // -- What a failure changes --------------------------------------------------------------------

  /** An RPC or system call that fails, at whatever point of whatever callback, changes neither the
      cache file nor the tables nor the handle; the callback ends, or an open goes on to evict. */
  lemma FailureMovesNothing(c: C.Cell)
    ensures var d := C.Next(c, C.Failed);
      && d == c.(pc := d.pc)
      && (d.pc == c.pc || d.pc.Idle? || (c.pc.OpenStat? && d.pc.OpenEvict?))
      && (InRpc(c.pc) ==> d.pc.Idle?)
  {
  }

  /** An RPC is under way whose failure ends the callback, or a pwrite. */
  ghost predicate InRpc(pc: C.Pc)
  {
    pc.RelSend? || pc.RelWait? || pc.RelReply? || pc.MkSend? || pc.MkWait? || pc.MkReply?
    || pc.OpenFetch? || pc.OpenReceive? || pc.UnRpc? || pc.MkStat? || pc.Writing?
  }

  /** A half download counts as one from its first byte until the copy is complete, removed or
      replaced by an empty file; nothing else forgets it, no crash either. */
  lemma HalfDownloads(c: C.Cell, i: C.Input)
    ensures c.pc.OpenFetch? && i.ContentIs? ==> C.Next(c, i).torn
    ensures c.torn && !C.Next(c, i).torn ==>
      || C.Next(c, i).cache.None? || C.Next(c, i).cache == Some([])
      || (i.Step? && c.pc.OpenReceive? && c.pc.msgs == [])
  {
    hide C.OwnStep;
    if i.Step? {
      HalfDownloadsStep(c);
    }
  }

  lemma HalfDownloadsStep(c: C.Cell)
    ensures c.torn && !C.OwnStep(c).torn ==>
      C.OwnStep(c).cache.None? || C.OwnStep(c).cache == Some([]) || (c.pc.OpenReceive? && c.pc.msgs == [])
  {
  }

  /** A snapshot drops the mark of a path that is no local file any more, and does nothing else. */
  lemma SnapshotUnmarks(s: State, id: ClientId)
    requires id in s.cells && !s.cells[id].pc.Exited? && !s.cells[id].pc.Dead?
    ensures Next(s, Snapshot(id)).cells == s.cells[id := s.cells[id].(marked := s.cells[id].stamp == Some(LOCAL))]
    ensures Next(s, Snapshot(id)) == s.(cells := Next(s, Snapshot(id)).cells)
  {
  }
}
