/** Any number of operations, crashes and restarts of one table. A crash may hit an operation
    after any number of its disk effects; the next process starts from the disk it left. */
module TableOps {
  import opened Basics
  import opened Hashing
  import opened Replay
  import Counter

  datatype Op<V> = SetOp(path: Bytes, value: V) | EraseOp(path: Bytes)

  /** tmpOpens says whether the temporary file of a snapshot can be opened. A crash comes after
      `effects` of the operation's disk effects; the new process finds `counter` in its memory. */
  datatype Step<V> = Finish(op: Op<V>, tmpOpens: bool)
                   | Crash(op: Op<V>, tmpOpens: bool, effects: nat, counter: int)

  function Perform<V>(sha: Bytes -> Digest, t: Table<V>, op: Op<V>): Table<V>
  {
    match op
    case SetOp(path, value) => t[Name(sha, path) := value]
    case EraseOp(path) => t - {Name(sha, path)}
  }

  /** What the run leaves: an operation hit by a crash took place if and only if its first disk
      effect, the append to the log, was made. */
  function Outcome<V>(sha: Bytes -> Digest, t: Table<V>, steps: seq<Step<V>>): Table<V>
  {
    if steps == [] then t
    else
      var before, last := Outcome(sha, t, steps[..|steps| - 1]), steps[|steps| - 1];
      if last.Crash? && last.effects == 0 then before else Perform(sha, before, last.op)
  }

  /** A session without crashes, and how many of its operations are sets that change something. */
  function PerformAll<V>(sha: Bytes -> Digest, t: Table<V>, ops: seq<Op<V>>): Table<V>
  {
    if ops == [] then t else Perform(sha, PerformAll(sha, t, ops[..|ops| - 1]), ops[|ops| - 1])
  }

  function Changes<V(==)>(sha: Bytes -> Digest, t: Table<V>, ops: seq<Op<V>>): nat
  {
    if ops == [] then 0
    else
      var before, last := PerformAll(sha, t, ops[..|ops| - 1]), ops[|ops| - 1];
      Changes(sha, t, ops[..|ops| - 1]) + (if last.SetOp? && Perform(sha, before, last) != before then 1 else 0)
  }

  lemma OneMoreOp<V>(sha: Bytes -> Digest, t: Table<V>, ops: seq<Op<V>>, n: nat)
    requires n < |ops|
    ensures var before := PerformAll(sha, t, ops[..n]);
      && PerformAll(sha, t, ops[..n + 1]) == Perform(sha, before, ops[n])
      && Changes(sha, t, ops[..n + 1])
         == Changes(sha, t, ops[..n]) + (if ops[n].SetOp? && Perform(sha, before, ops[n]) != before then 1 else 0)
  {
    assert ops[..n + 1][..n] == ops[..n];
  }

  /** No snapshot yet: none of the first n changing sets brought the counter to 0. */
  ghost predicate NotYet(counter: int, n: nat)
  {
    forall m :: 1 <= m <= n ==> Counter.After(counter, m) != 0
  }

  lemma NotYetMeansFew(counter: int, n: nat)
    requires counter < Counter.INT_MAX && NotYet(counter, n)
    ensures n < Counter.SNAPSHOT_FREQUENCY
  {
    Counter.FirstSnapshotWithinTen(counter);
  }

  lemma NotYetAtFirst(counter: int)
    ensures NotYet(counter, 0)
  {
  }

  lemma OneMoreChange(counter: int, n: nat)
    requires NotYet(counter, n) && Counter.Next(Counter.After(counter, n)) != 0
    ensures NotYet(counter, n + 1)
  {
    Counter.AfterOneMore(counter, n);
  }
}

module DirtyRuns {
  import opened Basics
  import opened Hashing
  import opened Files
  import opened Replay
  import opened TableOps
  import opened DirtyTable
  import Counter

  method Do(t: IsDirtyTable, op: Op<bool>, tmpOpens: bool) returns (disks: seq<Disk>)
    requires t.Valid()
    modifies t
    ensures t.Valid() && t.table == Perform(t.sha, old(t.table), op)
    ensures AllHold(disks, t.table) && (disks == [] ==> t.table == old(t.table))
    ensures op.SetOp? && t.table != old(t.table) ==> t.counter == Counter.Next(old(t.counter))
    ensures op.SetOp? && t.table != old(t.table) && t.counter == 0 && tmpOpens ==> t.settled
    ensures op.SetOp? && t.table != old(t.table) && t.counter != 0 ==> t.settled == old(t.settled)
    ensures op.EraseOp? || t.table == old(t.table) ==> t.counter == old(t.counter) && t.settled == old(t.settled)
  {
    match op
    case SetOp(path, value) => disks := t.Set(path, value, tmpOpens);
    case EraseOp(path) => disks := t.Erase(path);
  }

  /** The log stays short: whatever the counter started from, and however many erases there are,
      once ten sets have changed something it has at most 18 records more than the snapshot (as
      long as snapshots succeed). */
  method Session(t: IsDirtyTable, ops: seq<Op<bool>>)
    requires t.Valid() && t.counter < Counter.INT_MAX
    modifies t
    ensures t.Valid() && t.table == PerformAll(t.sha, old(t.table), ops)
    ensures t.counter == Counter.After(old(t.counter), Changes(t.sha, old(t.table), ops))
    ensures Changes(t.sha, old(t.table), ops) >= 10 ==> |Records(t.disk.log)| <= |Records(t.disk.snapshot)| + 18
  {
    hide IsDirtyTable.Valid, Perform, Counter.Next, NotYet;
    ghost var start, c0, n := t.table, t.counter, 0;
    assert ops[..0] == [] && NotYet(c0, 0) by { NotYetAtFirst(c0); }
    for i := 0 to |ops|
      invariant t.Valid() && t.table == PerformAll(t.sha, start, ops[..i])
      invariant n == Changes(t.sha, start, ops[..i]) && t.counter == Counter.After(c0, n)
      invariant t.settled || NotYet(c0, n)
    {
      OneMoreOp(t.sha, start, ops, i);
      ghost var before := t.table;
      var _ := Do(t, ops[i], true);
      if ops[i].SetOp? && t.table != before {
        Counter.AfterOneMore(c0, n);
        if !t.settled {
          OneMoreChange(c0, n);
        }
        n := n + 1;
      }
    }
    assert ops[..|ops|] == ops;
    if n >= Counter.SNAPSHOT_FREQUENCY {
      if !t.settled {
        NotYetMeansFew(c0, n);
      }
      t.LogBound();
    }
  }

  /** One operation, and the restart if it is hit by a crash. */
  method OneStep(t: IsDirtyTable, step: Step<bool>) returns (next: IsDirtyTable)
    requires t.Valid()
    modifies t
    ensures next == t || fresh(next)
    ensures next.Valid() && next.sha == t.sha
    ensures next.table == if step.Crash? && step.effects == 0 then old(t.table) else Perform(t.sha, old(t.table), step.op)
  {
    hide Holds, Perform, Counter.Next;
    var left := t.disk;
    ghost var kept := t.table;
    ValidHolds(t);
    var disks := Do(t, step.op, step.tmpOpens);
    next := t;
    if step.Crash? {
      if step.effects > 0 {
        kept := t.table;
        if disks != [] {
          left := disks[if step.effects <= |disks| then step.effects - 1 else |disks| - 1];
          assert left in disks;
        }
      }
      next := Reopen(t.sha, left, step.counter, kept);
    }
  }

  /** A restart on a disk that holds a table. */
  method Reopen(sha: Bytes -> Digest, disk: Disk, counter: int, ghost held: Table<bool>) returns (t: IsDirtyTable)
    requires Holds(disk, held)
    ensures fresh(t) && t.Valid() && t.sha == sha && t.table == held && t.disk == disk
  {
    var r := IsDirtyTable.Restart(sha, disk, counter);
    t := r;
  }

  /** Crash refinement of is_dirty_t: the recovered table is always the one the operations that
      reached the disk describe. */
  method CrashRun(sha: Bytes -> Digest, start: Disk, ghost initial: Table<bool>, counter: int, steps: seq<Step<bool>>)
    returns (table: Table<bool>, disk: Disk)
    requires Holds(start, initial)
    ensures table == Outcome(sha, initial, steps)
    ensures Holds(disk, table)
  {
    hide Holds, Perform;
    var t := Reopen(sha, start, counter, initial);
    assert steps[..0] == [];
    for i := 0 to |steps|
      invariant fresh(t) && t.Valid() && t.sha == sha
      invariant t.table == Outcome(sha, initial, steps[..i])
    {
      assert steps[..i + 1][..i] == steps[..i];
      t := OneStep(t, steps[i]);
    }
    assert steps[..|steps|] == steps;
    ValidHolds(t);
    table, disk := t.table, t.disk;
  }

  lemma ValidHolds(t: IsDirtyTable)
    requires t.Valid()
    ensures Holds(t.disk, t.table)
  {
  }
}

module StampRuns {
  import opened Basics
  import opened Hashing
  import opened Files
  import opened Replay
  import opened TableOps
  import opened StampCodec
  import opened LastModifiedTable
  import Counter

  /** What an operation means once tombstones are dropped: setting sixteen 0xFF bytes erases. */
  function Plain(op: Op<Bytes>): Op<Bytes>
  {
    if op.SetOp? && op.value == ERASED then EraseOp(op.path) else op
  }

  function PlainSteps(steps: seq<Step<Bytes>>): (r: seq<Step<Bytes>>)
    ensures |r| == |steps|
  {
    seq(|steps|, i requires 0 <= i < |steps| => steps[i].(op := Plain(steps[i].op)))
  }

  /** The values are those the client stores: timestamps and the mark of a local file. */
  ghost predicate Framed(steps: seq<Step<Bytes>>)
  {
    forall s :: s in steps && s.op.SetOp? ==> IsValue(s.op.value)
  }

  ghost predicate AllFramed(ops: seq<Op<Bytes>>)
  {
    forall op :: op in ops && op.SetOp? ==> IsValue(op.value)
  }

  lemma PerformLive(sha: Bytes -> Digest, t: Stamps, op: Op<Bytes>)
    ensures Live(Perform(sha, t, op)) == Perform(sha, Live(t), Plain(op))
  {
    var k := Name(sha, op.path);
    if op.SetOp? {
      assert Perform(sha, t, op)[k] == op.value;
    }
  }

  method Do(t: StampTable, op: Op<Bytes>, tmpOpens: bool) returns (disks: seq<Disk>)
    requires t.Valid() && t.framed && (op.SetOp? ==> IsValue(op.value))
    modifies t
    ensures t.Valid() && t.framed && t.table == Perform(t.sha, old(t.table), op)
    ensures AllHold(disks, t.table, MarksAfter(t.sha, old(Marks(t.disk)), op))
    ensures disks == [] ==> t.table == old(t.table) && t.disk == old(t.disk)
    ensures Marks(t.disk) <= MarksAfter(t.sha, old(Marks(t.disk)), op)
    ensures op.SetOp? && t.table != old(t.table) ==> t.counter == Counter.Next(old(t.counter))
    ensures op.SetOp? && t.table != old(t.table) && t.counter == 0 && tmpOpens ==> t.settled
    ensures op.SetOp? && t.table != old(t.table) && t.counter != 0 ==> t.settled == old(t.settled)
    ensures op.EraseOp? || t.table == old(t.table) ==> t.counter == old(t.counter) && t.settled == old(t.settled)
  {
    match op
    case SetOp(path, value) => disks := t.Set(path, value, tmpOpens);
    case EraseOp(path) => disks := t.Erase(path);
  }

  /** The same bound on the log as for the dirty flags. */
  method Session(t: StampTable, ops: seq<Op<Bytes>>)
    requires t.Valid() && t.framed && AllFramed(ops) && t.counter < Counter.INT_MAX
    modifies t
    ensures t.Valid() && t.framed && t.table == PerformAll(t.sha, old(t.table), ops)
    ensures t.counter == Counter.After(old(t.counter), Changes(t.sha, old(t.table), ops))
    ensures Changes(t.sha, old(t.table), ops) >= 10 ==> |Records(t.disk.log)| <= |Records(t.disk.snapshot)| + 18
  {
    hide StampTable.Valid, Holds, Live, AllHold, Marks, Perform, Counter.Next, NotYet;
    ghost var start, c0, n := t.table, t.counter, 0;
    assert ops[..0] == [] && NotYet(c0, 0) by { NotYetAtFirst(c0); }
    for i := 0 to |ops|
      invariant t.Valid() && t.framed && t.table == PerformAll(t.sha, start, ops[..i])
      invariant n == Changes(t.sha, start, ops[..i]) && t.counter == Counter.After(c0, n)
      invariant t.settled || NotYet(c0, n)
    {
      OneMoreOp(t.sha, start, ops, i);
      assert ops[i] in ops;
      ghost var before := t.table;
      var _ := Do(t, ops[i], true);
      if ops[i].SetOp? && t.table != before {
        Counter.AfterOneMore(c0, n);
        if !t.settled {
          OneMoreChange(c0, n);
        }
        n := n + 1;
      }
    }
    assert ops[..|ops|] == ops;
    if n >= Counter.SNAPSHOT_FREQUENCY {
      if !t.settled {
        NotYetMeansFew(c0, n);
      }
      t.LogBound();
    }
  }

  /** One operation and, if it is hit by a crash, the restart, which fails (null) if and only if
      the disk left has a mark on it. */
  method OneStep(t: StampTable, step: Step<Bytes>) returns (next: StampTable?, left: Disk)
    requires t.Valid() && t.framed && (step.op.SetOp? ==> IsValue(step.op.value))
    modifies t
    ensures next == null <==> step.Crash? && Marks(left) != {}
    ensures next != null ==> (next == t || fresh(next)) && next.Valid() && next.framed && next.sha == t.sha
    ensures next != null ==> next.disk == left && Live(next.table) == Meant(left)
    ensures IsPrinted(left.snapshot) && IsPrinted(left.log)
    ensures var before, op := Live(old(t.table)), Plain(step.op);
      Meant(left) == if step.Crash? && step.effects == 0 then before else Perform(t.sha, before, op)
    ensures Marks(left) <= MarksAfter(t.sha, old(Marks(t.disk)), step.op)
  {
    hide Live, Meant, Perform, Plain, IsPrinted, Marks, AllHold, StampTable.Valid, Counter.Next;
    PerformLive(t.sha, t.table, step.op);
    left := t.disk;
    ghost var kept, high := t.table, MarksAfter(t.sha, Marks(t.disk), step.op);
    ValidHolds(t);
    var disks := Do(t, step.op, step.tmpOpens);
    next := t;
    if step.Crash? {
      if step.effects > 0 {
        kept := t.table;
        if disks != [] {
          left := disks[if step.effects <= |disks| then step.effects - 1 else |disks| - 1];
          OneHolds(disks, left, kept, high);
        }
      }
      next := StampTable.Restart(t.sha, left, step.counter);
    } else {
      left := t.disk;
      ValidHolds(t);
    }
  }

  lemma OneHolds(disks: seq<Disk>, d: Disk, t: Stamps, high: set<Bytes>)
    requires AllHold(disks, t, high) && d in disks
    ensures Holds(d, t) && Marks(d) <= high
  {
  }

  function MarksAfter(sha: Bytes -> Digest, marks: set<Bytes>, op: Op<Bytes>): set<Bytes>
  {
    marks + (if op.SetOp? && op.value == LOCAL then {Name(sha, op.path)} else {})
  }

  /** The keys that the steps store the mark of a local file for. */
  function LocalNames(sha: Bytes -> Digest, steps: seq<Step<Bytes>>): set<Bytes>
  {
    set s | s in steps && s.op.SetOp? && s.op.value == LOCAL :: Name(sha, s.op.path)
  }

  lemma LocalNamesSnoc(sha: Bytes -> Digest, steps: seq<Step<Bytes>>, n: nat)
    requires n < |steps|
    ensures LocalNames(sha, steps[..n + 1]) == MarksAfter(sha, LocalNames(sha, steps[..n]), steps[n].op)
  {
    assert steps[..n + 1] == steps[..n] + [steps[n]];
    assert forall s :: s in steps[..n + 1] <==> s in steps[..n] || s == steps[n];
  }

  /** Crash refinement of last_modified_t. After any part of the run the disk means, up to
      tombstones, exactly what the operations that reached it describe. The run goes on to its end
      unless a start fails, and one fails if and only if a mark of a local file is on the disk,
      where only a set of that value can have put it. */
  method CrashRun(sha: Bytes -> Digest, start: Disk, ghost initial: Stamps, counter: int, steps: seq<Step<Bytes>>)
    returns (table: Option<Stamps>, disk: Disk, done: nat)
    requires Holds(start, initial) && Framed(steps)
    ensures done <= |steps| && IsPrinted(disk.snapshot) && IsPrinted(disk.log)
    ensures Meant(disk) == Outcome(sha, Live(initial), PlainSteps(steps[..done]))
    ensures Marks(disk) <= Marks(start) + LocalNames(sha, steps[..done])
    ensures table.Some? ==> done == |steps| && Live(table.value) == Meant(disk)
    ensures done == 0 || steps[done - 1].Crash? ==> (table.Some? <==> Marks(disk) == {})
    ensures table.None? ==> done == 0 || steps[done - 1].Crash?
  {
    hide Live, Meant, Perform, Plain, IsPrinted, Marks, StampTable.Valid, PlainSteps, LocalNames;
    disk, done := start, 0;
    var t := StampTable.Restart(sha, start, counter);
    NothingDone(sha, Live(initial), steps);
    while done < |steps| && t != null
      invariant done <= |steps| && IsPrinted(disk.snapshot) && IsPrinted(disk.log)
      invariant t != null ==> fresh(t) && t.Valid() && t.framed && t.sha == sha && t.disk == disk && Live(t.table) == Meant(disk)
      invariant Meant(disk) == Outcome(sha, Live(initial), PlainSteps(steps[..done]))
      invariant Marks(disk) <= Marks(start) + LocalNames(sha, steps[..done])
      invariant done == 0 || steps[done - 1].Crash? ==> (t != null <==> Marks(disk) == {})
      invariant t == null ==> done == 0 || steps[done - 1].Crash?
      decreases |steps| - done, t != null
    {
      assert steps[done] in steps;
      OneMoreStep(sha, Live(initial), steps, done);
      LocalNamesSnoc(sha, steps, done);
      t, disk := OneStep(t, steps[done]);
      done := done + 1;
    }
    assert steps[..|steps|] == steps;
    table := if t == null then None else Some(t.table);
  }

  lemma NothingDone(sha: Bytes -> Digest, t: Stamps, steps: seq<Step<Bytes>>)
    ensures Outcome(sha, t, PlainSteps(steps[..0])) == t && LocalNames(sha, steps[..0]) == {}
  {
  }

  lemma OneMoreStep(sha: Bytes -> Digest, t: Stamps, steps: seq<Step<Bytes>>, n: nat)
    requires n < |steps|
    ensures var before, s := Outcome(sha, t, PlainSteps(steps[..n])), steps[n];
      Outcome(sha, t, PlainSteps(steps[..n + 1]))
      == if s.Crash? && s.effects == 0 then before else Perform(sha, before, Plain(s.op))
  {
    hide Perform, Plain;
    assert PlainSteps(steps[..n + 1])[..n] == PlainSteps(steps[..n]);
  }

  lemma ValidHolds(t: StampTable)
    requires t.Valid() && t.framed
    ensures Holds(t.disk, t.table) && StampsOnly(t.table)
  {
  }
}
