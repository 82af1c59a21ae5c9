/** When overlapping Writes of one path do harm: exactly when one opens the temporary file while
    another, whose stream has arrived in full, is still to rename it. */
module OverlappingWrites {
  import opened Basics
  import opened Chunks
  import opened ServerMachine
  import opened AtomicPublication

  /** The step opens a temporary file that a handler which has its whole stream is to rename. */
  predicate Clash(s: Server, e: Event)
  {
    e.OpenTmp? && MayOpen(s, e.h) && Overlaps(s, e.h)
  }

  ghost predicate ClashFree(events: seq<Event>)
  {
    forall i :: 0 <= i < |events| ==> !Clash(Run(AsWritten, EMPTY, events[..i]), events[i])
  }

  /** A publication that is not the whole of its own stream under the timestamp replied for it, or
      a handler about to reply success for a temporary file that is gone. */
  ghost predicate Torn(s: Server)
  {
    || (exists c :: c in s.log && !Settled(s, c))
    || (exists h :: h in s.handlers && s.handlers[h].phase.Stamped? && s.handlers[h].path !in s.tmp)
  }

  /** The handlers under way can tear a published file, without any new one opening. */
  ghost predicate CanTear(s: Server)
  {
    exists tail: seq<Event> :: NoOpens(tail) && Torn(Run(AsWritten, s, tail))
  }

  predicate NoOpens(events: seq<Event>)
  {
    forall e :: e in events ==> !e.OpenTmp?
  }

  /** A step that is no clash is one of the disciplined server. */
  lemma StepKeeps(s: Server, e: Event)
    requires Inv(NoOverlap, s) && !Clash(s, e)
    ensures Inv(NoOverlap, Next(AsWritten, s, e))
  {
    hide Inv;
    SameStep(s, e);
    NextKeeps(NoOverlap, s, e);
  }

  lemma SameStep(s: Server, e: Event)
    requires !Clash(s, e)
    ensures Next(AsWritten, s, e) == Next(NoOverlap, s, e)
  {
  }

  lemma {:induction false} TailKeeps(s: Server, tail: seq<Event>)
    requires Inv(NoOverlap, s) && NoOpens(tail)
    ensures Inv(NoOverlap, Run(AsWritten, s, tail))
  {
    hide Inv, Next;
    if tail == [] {
    } else {
      var front, e := tail[..|tail| - 1], tail[|tail| - 1];
      assert e in tail;
      TailKeeps(s, front);
      StepKeeps(Run(AsWritten, s, front), e);
    }
  }

  lemma {:induction false} ClashFreeKeeps(events: seq<Event>)
    requires ClashFree(events)
    ensures Inv(NoOverlap, Run(AsWritten, EMPTY, events))
  {
    hide Inv, Next, Clash;
    if events == [] {
      EmptyInv();
    } else {
      var n := |events| - 1;
      var front := events[..n];
      forall i | 0 <= i < n ensures !Clash(Run(AsWritten, EMPTY, front[..i]), front[i]) {
        assert front[..i] == events[..i] && front[i] == events[i];
      }
      ClashFreeKeeps(front);
      StepKeeps(Run(AsWritten, EMPTY, front), events[n]);
    }
  }

  lemma EmptyInv()
    ensures Inv(NoOverlap, EMPTY)
  {
  }

  /** After a clash the handlers already under way can go on so that one publishes nothing: g
      renames the temporary file that h has truncated, and h, having appended its messages to
      what is then published, finds no file to stamp and rename. */
  lemma ClashTears(s: Server, h: HandlerId) returns (tail: seq<Event>)
    requires Inv(NoOverlap, s) && Clash(s, OpenTmp(h))
    ensures NoOpens(tail) && Torn(Run(AsWritten, Next(AsWritten, s, OpenTmp(h)), tail))
  {
    hide Run, Next, Inv, Clashing, Streams;
    var g :| g in s.handlers && s.handlers[g].path == s.handlers[h].path && Pending(s.handlers[g]);
    NotStreaming(s, g);
    var t := Next(AsWritten, s, OpenTmp(h));
    ClashOpens(s, g, h);
    ClashStat(t, g, h);
    var t1 := Next(AsWritten, t, StatTmp(g));
    ClashRename(t1, g, h);
    var t2 := Next(AsWritten, t1, Rename(g));
    RunNothing(AsWritten, t);
    assert [] + [StatTmp(g)] == [StatTmp(g)];
    RunSnoc(AsWritten, t, [], StatTmp(g));
    tail := [StatTmp(g), Rename(g)];
    RunSnoc(AsWritten, t, [StatTmp(g)], Rename(g));
    assert [StatTmp(g)] + [Rename(g)] == tail;
    tail := AppendRest(t, tail, h);
    EndTears(Run(AsWritten, t, tail), h);
    RunSnoc(AsWritten, t, tail, CloseTmp(h));
    RunSnoc(AsWritten, t, tail + [CloseTmp(h)], StatTmp(h));
    tail := tail + [CloseTmp(h)] + [StatTmp(h)];
  }

  lemma NotStreaming(s: Server, g: HandlerId)
    requires Inv(NoOverlap, s) && s.lock.None? && g in s.handlers
    ensures !s.handlers[g].phase.Streaming?
  {
    hide DiskInv, LogInv, PubInv, WriterInv;
  }

  /** h streams into an inode that is there. */
  ghost predicate Streams(s: Server, h: HandlerId)
  {
    && h in s.handlers && s.handlers[h].phase.Streaming? && s.handlers[h].got <= |s.handlers[h].want|
    && s.handlers[h].ino in s.inodes
  }

  /** h streams into the temporary file that g, with its stream complete, is to rename. */
  ghost predicate Clashing(s: Server, g: HandlerId, h: HandlerId)
  {
    && g in s.handlers && g != h && Streams(s, h)
    && s.handlers[g].path == s.handlers[h].path && s.handlers[g].path in s.tmp
    && (s.handlers[g].phase.Stamped? || (s.handlers[g].phase.Closed? && s.handlers[g].got == |s.handlers[g].want|))
  }

  lemma ClashOpens(s: Server, g: HandlerId, h: HandlerId)
    requires Inv(NoOverlap, s) && MayOpen(s, h)
    requires g in s.handlers && s.handlers[g].path == s.handlers[h].path && Pending(s.handlers[g])
    requires !s.handlers[g].phase.Streaming?
    ensures Clashing(Next(AsWritten, s, OpenTmp(h)), g, h)
  {
    hide PubInv, LogInv, LockInv;
    assert WriterInv(s, g);
  }

  lemma ClashStat(t: Server, g: HandlerId, h: HandlerId)
    requires Clashing(t, g, h)
    ensures Clashing(Next(AsWritten, t, StatTmp(g)), g, h) && Next(AsWritten, t, StatTmp(g)).handlers[g].phase.Stamped?
  {
  }

  lemma ClashRename(t: Server, g: HandlerId, h: HandlerId)
    requires Clashing(t, g, h) && t.handlers[g].phase.Stamped?
    ensures var u := Next(AsWritten, t, Rename(g)); Streams(u, h) && u.handlers[h].path !in u.tmp
  {
  }

  /** The rest of the messages of h. */
  lemma {:induction false} AppendRest(t: Server, made: seq<Event>, h: HandlerId) returns (tail: seq<Event>)
    requires NoOpens(made) && Streams(Run(AsWritten, t, made), h)
    requires var u := Run(AsWritten, t, made); u.handlers[h].path !in u.tmp
    decreases var u := Run(AsWritten, t, made); |u.handlers[h].want| - u.handlers[h].got
    ensures NoOpens(tail) && Streams(Run(AsWritten, t, tail), h)
    ensures var u := Run(AsWritten, t, tail); u.handlers[h].path !in u.tmp && u.handlers[h].got == |u.handlers[h].want|
  {
    hide Run;
    var u := Run(AsWritten, t, made);
    if u.handlers[h].got == |u.handlers[h].want| {
      tail := made;
    } else {
      RunSnoc(AsWritten, t, made, Append(h));
      tail := AppendRest(t, made + [Append(h)], h);
    }
  }

  lemma EndTears(u: Server, h: HandlerId)
    requires Streams(u, h) && u.handlers[h].path !in u.tmp && u.handlers[h].got == |u.handlers[h].want|
    ensures Torn(Next(AsWritten, Next(AsWritten, u, CloseTmp(h)), StatTmp(h)))
  {
    var t := Next(AsWritten, Next(AsWritten, u, CloseTmp(h)), StatTmp(h));
    assert h in t.handlers && t.handlers[h].phase.Stamped? && t.handlers[h].path !in t.tmp;
  }

  /** The code as written, exactly: a run contains no clash if and only if at no moment of it the
      handlers under way could tear a published file. */
  lemma SafeIffClashFree(events: seq<Event>)
    ensures ClashFree(events) <==> forall i :: 0 <= i <= |events| ==> !CanTear(Run(AsWritten, EMPTY, events[..i]))
  {
    hide Run, Clash, CanTear;
    if ClashFree(events) {
      forall i | 0 <= i <= |events| ensures !CanTear(Run(AsWritten, EMPTY, events[..i])) {
        PrefixFree(events, i);
        ClashFreeKeeps(events[..i]);
        CannotTear(Run(AsWritten, EMPTY, events[..i]));
      }
    } else {
      assert events[..|events|] == events;
      var i := FirstClash(events, |events|);
      ClashFreeKeeps(events[..i]);
      ClashCanTear(events, i);
    }
  }

  lemma PrefixFree(events: seq<Event>, n: nat)
    requires ClashFree(events) && n <= |events|
    ensures ClashFree(events[..n])
  {
    hide Run, Clash;
    forall i | 0 <= i < n ensures !Clash(Run(AsWritten, EMPTY, events[..n][..i]), events[..n][i]) {
      assert events[..n][..i] == events[..i];
    }
  }

  lemma CannotTear(s: Server)
    requires Inv(NoOverlap, s)
    ensures !CanTear(s)
  {
    hide Run, Torn, Inv;
    forall tail: seq<Event> | NoOpens(tail) ensures !Torn(Run(AsWritten, s, tail)) {
      TailKeeps(s, tail);
      NotTorn(Run(AsWritten, s, tail));
    }
  }

  lemma NotTorn(s: Server)
    requires Inv(NoOverlap, s)
    ensures !Torn(s)
  {
    hide LockInv, DiskInv, PubInv;
    forall h | h in s.handlers && s.handlers[h].phase.Stamped? ensures s.handlers[h].path in s.tmp {
      assert WriterInv(s, h);
    }
  }

  /** The least clash. */
  lemma {:induction false} FirstClash(events: seq<Event>, n: nat) returns (i: nat)
    requires n <= |events| && !ClashFree(events[..n])
    ensures i < n && ClashFree(events[..i]) && Clash(Run(AsWritten, EMPTY, events[..i]), events[i])
  {
    hide Run, Clash;
    var k :| 0 <= k < n && Clash(Run(AsWritten, EMPTY, events[..n][..k]), events[..n][k]);
    assert events[..n][..k] == events[..k];
    if ClashFree(events[..k]) {
      i := k;
    } else {
      i := FirstClash(events, k);
    }
  }

  lemma ClashCanTear(events: seq<Event>, i: nat)
    requires i < |events| && Clash(Run(AsWritten, EMPTY, events[..i]), events[i])
    requires Inv(NoOverlap, Run(AsWritten, EMPTY, events[..i]))
    ensures CanTear(Run(AsWritten, EMPTY, events[..i + 1]))
  {
    hide Run, Inv, Next, Torn;
    var s := Run(AsWritten, EMPTY, events[..i]);
    var tail := ClashTears(s, events[i].h);
    RunSnoc(AsWritten, EMPTY, events[..i], events[i]);
    assert events[..i] + [events[i]] == events[..i + 1];
  }
}
