/** The persistent dirty flags: a table in memory, an append-only log and a snapshot on disk. */
module DirtyTable {
  import opened Basics
  import opened Hashing
  import opened Files
  import opened Replay
  import opened DirtyCodec
  import Counter

  /** What a start of the client makes of a disk; None if an assertion fails while reading. */
  function Recover(disk: Disk): Option<Table<bool>>
  {
    match (Parse(disk.snapshot), Parse(disk.log))
    case (Some(snap), Some(log)) => Some(Rebuilt(snap, log))
    case _ => None
  }

  function Rebuilt(snap: seq<Rec<bool>>, log: seq<Rec<bool>>): Table<bool>
  {
    ReplayAll(ReplayAll(map[], snap), log)
  }

  function Records(file: Bytes): seq<Rec<bool>>
  {
    match Parse(file)
    case None => []
    case Some(rs) => rs
  }

  /** A file holding printed records and nothing else: the only files the program leaves. */
  ghost predicate IsPrinted(file: Bytes)
  {
    Printable(Records(file)) && file == Print(Records(file))
  }

  ghost predicate NamesOnly(t: Table<bool>)
  {
    forall k :: k in t ==> |k| == NAME_LENGTH && NEWLINE !in k
  }

  /** A disk as the program leaves it, holding this table. */
  ghost predicate Holds(disk: Disk, t: Table<bool>)
  {
    IsPrinted(disk.snapshot) && IsPrinted(disk.log) && Recover(disk) == Some(t) && NamesOnly(t)
  }

  ghost predicate AllHold(disks: seq<Disk>, t: Table<bool>)
  {
    forall d :: d in disks ==> Holds(d, t)
  }

  lemma HoldsPrinted(disk: Disk, snap: seq<Rec<bool>>, log: seq<Rec<bool>>)
    requires Printable(snap) && Printable(log)
    requires disk.snapshot == Print(snap) && disk.log == Print(log)
    ensures Holds(disk, Rebuilt(snap, log)) && Records(disk.snapshot) == snap && Records(disk.log) == log
  {
    RoundTrip(snap);
    RoundTrip(log);
    KeysOfReplay(map[], snap);
    KeysOfReplay(ReplayAll(map[], snap), log);
  }

  /** One more log record changes the recovered table by that record. */
  lemma HoldsAppend(disk: Disk, t: Table<bool>, r: Rec<bool>)
    requires Holds(disk, t) && Printable([r])
    ensures Holds(disk.(log := disk.log + PrintOne(r)), Apply(t, r))
    ensures Records(disk.log + PrintOne(r)) == Records(disk.log) + [r]
  {
    var snap, log := Records(disk.snapshot), Records(disk.log);
    assert r in [r];
    assert (log + [r])[..|log|] == log;
    RoundTrip(snap);
    RoundTrip(log);
    HoldsPrinted(disk.(log := disk.log + PrintOne(r)), snap, log + [r]);
  }

  /** A start does not read the temporary file. */
  lemma TmpIgnored(disk: Disk, tmp: Bytes, t: Table<bool>)
    requires Holds(disk, t)
    ensures Holds(disk.(tmp := tmp), t)
  {
  }

  /** A complete temporary file renamed over the snapshot: the log is then replayed over a state
      that already contains it, and nothing is lost either when it is truncated. */
  lemma HoldsRenamed(disk: Disk, t: Table<bool>, order: seq<Bytes>)
    requires Holds(disk, t)
    requires (forall k :: k in order <==> k in t) && disk.tmp == Print(Puts(t, order))
    ensures Holds(disk.(snapshot := disk.tmp, tmp := []), t)
    ensures Holds(Disk(disk.tmp, [], []), t)
    ensures Records(disk.tmp) == Puts(t, order) && Records([]) == []
  {
    var snap, log := Records(disk.snapshot), Records(disk.log);
    RoundTrip(snap);
    RoundTrip(log);
    SnapshotOrderFree(t, order);
    ReplayIdempotent(ReplayAll(map[], snap), log);
    HoldsPrinted(disk.(snapshot := disk.tmp, tmp := []), Puts(t, order), log);
    HoldsPrinted(Disk(disk.tmp, [], []), Puts(t, order), []);
  }

  lemma PrintPuts(t: Table<bool>, order: seq<Bytes>, k: Bytes)
    requires k in t && forall o :: o in order ==> o in t
    ensures Print(Puts(t, order + [k])) == Print(Puts(t, order)) + PrintOne(Put(k, t[k]))
  {
    assert Puts(t, order + [k])[..|order|] == Puts(t, order);
  }

  /** One turn of the reading loop, `done` being read already. */
  lemma ParseLine(done: seq<Rec<bool>>, rest: Bytes)
    requires rest != [] && |GetLine(rest).text| == NAME_LENGTH + 2
    ensures Then(done, Parse(rest)) == Then(done + LineRecords(GetLine(rest).text), Parse(GetLine(rest).rest))
  {
    var l := GetLine(rest);
    var one := LineRecords(l.text);
    ThenThen(done, one, Parse(l.rest));
    assert one + [] == one;
  }

  /** One more record on the log. */
  function Logged(disk: Disk, r: Rec<bool>): Disk
  {
    disk.(log := disk.log + PrintOne(r))
  }

  /** The snapshot alone holds the table, with one record a key. */
  ghost predicate IsSnapshotOf(disk: Disk, t: Table<bool>)
  {
    Holds(disk, t) && disk.log == [] && disk.tmp == [] && |Records(disk.snapshot)| == |t|
  }

  lemma NoneHold(t: Table<bool>)
    ensures AllHold([], t)
  {
  }

  class IsDirtyTable {
    const sha: Bytes -> Digest
    var table: Table<bool>
    var counter: int
    var disk: Disk
    ghost var settled: bool   // this process has taken a snapshot and none failed after it
    ghost var sets: nat       // changing sets and erases since that snapshot
    ghost var erases: nat

    ghost predicate Valid()
      reads this
    {
      Holds(disk, table) && (settled ==> Bounded())
    }

    ghost predicate Bounded()
      reads this
    {
      && |Records(disk.log)| == sets + erases
      && sets == counter < Counter.SNAPSHOT_FREQUENCY
      && erases + |table| <= |Records(disk.snapshot)| + sets
    }

    /** At every operation boundary the log is short: at most nine sets, and no more erases than
        there were keys to erase. */
    lemma LogBound()
      requires Valid() && settled
      ensures |Records(disk.log)| <= |Records(disk.snapshot)| + 18 && sets <= 9
    {
    }

    /** The state of a table just read from the disk; see Restart. */
    constructor (sha: Bytes -> Digest, table: Table<bool>, counter: int, disk: Disk)
      ensures this.sha == sha && this.table == table && this.counter == counter && this.disk == disk
      ensures !settled
    {
      this.sha, this.table, this.counter, this.disk := sha, table, counter, disk;
      settled, sets, erases := false, 0, 0;
    }

    /** The switch on the flag of one line. */
    static method ApplyLine(text: Bytes, before: Table<bool>) returns (after: Table<bool>)
      requires |text| == NAME_LENGTH + 2
      ensures after == ReplayAll(before, LineRecords(text))
    {
      var key, flag := text[..NAME_LENGTH], text[NAME_LENGTH + 1];
      after := before;
      if flag == ERASE {
        after := before - {key};
      } else if flag == DIRTY {
        after := before[key := true];
      } else if flag == CLEAN {
        after := before[key := false];
      }
    }

    /** The loop of the constructor over one file. */
    static method ReloadFile(file: Bytes, before: Table<bool>) returns (ok: bool, after: Table<bool>)
      ensures ok <==> Parse(file).Some?
      ensures ok ==> after == ReplayAll(before, Parse(file).value)
    {
      after := before;
      var rest := file;
      ghost var done: seq<Rec<bool>> := [];
      ThenNothing(Parse(file));
      while rest != []
        invariant Parse(file) == Then(done, Parse(rest))
        invariant after == ReplayAll(before, done)
        decreases |rest|
      {
        var line := GetLine(rest);
        if |line.text| != NAME_LENGTH + 2 {
          return false, before;
        }
        ghost var one := LineRecords(line.text);
        ParseLine(done, rest);
        ReplayConcat(before, done, one);
        after := ApplyLine(line.text, after);
        done := done + one;
        rest := line.rest;
      }
      ok := true;
      assert done + [] == done;
    }

    /** A start of the client: null when reading runs into assert(false). The counter is whatever
        the memory held. */
    static method Restart(sha: Bytes -> Digest, disk: Disk, counter: int) returns (t: IsDirtyTable?)
      ensures t == null <==> Recover(disk) == None
      ensures t != null ==> fresh(t) && t.sha == sha && t.disk == disk && t.counter == counter
      ensures t != null ==> Recover(disk) == Some(t.table) && !t.settled
      ensures forall tab :: Holds(disk, tab) ==> t != null && t.Valid() && t.table == tab
    {
      var ok, tab := ReloadFile(disk.snapshot, map[]);
      if !ok {
        return null;
      }
      ok, tab := ReloadFile(disk.log, tab);
      if !ok {
        return null;
      }
      t := new IsDirtyTable(sha, tab, counter, disk);
    }

    function Get(path: Bytes): bool
      reads this
    {
      Name(sha, path) in table && table[Name(sha, path)]
    }

    /** `disks` are the disks the operation passes through, one for each effect. All of them hold
        the new table: a crash leaves the table before the operation (if it comes before the
        append) or the table after it. */
    method Set(path: Bytes, state: bool, tmpOpens: bool) returns (disks: seq<Disk>)
      requires Valid()
      modifies this
      ensures Valid()
      ensures table == old(table)[Name(sha, path) := state]
      ensures AllHold(disks, table) && disk == (if disks == [] then old(disk) else disks[|disks| - 1])
      ensures table == old(table) ==> disks == [] && counter == old(counter) && settled == old(settled)
      ensures table != old(table) ==> disks != [] && counter == Counter.Next(old(counter))
      ensures table != old(table) ==> disks[0] == Logged(old(disk), Put(Name(sha, path), state))
      ensures table != old(table) && !(counter == 0 && tmpOpens) ==> |disks| == 1
      ensures table != old(table) && counter == 0 && tmpOpens ==> settled && IsSnapshotOf(disk, table)
      ensures table != old(table) && counter == 0 && tmpOpens ==>
        3 <= |disks| && disks[|disks| - 2] == Disk(disk.snapshot, [], disks[0].log)
      ensures table != old(table) && counter != 0 ==> settled == old(settled)
    {
      hide Holds, Records, PrintOne, IsSnapshotOf, Bounded, AllHold;
      var key := HashPath(sha, path);
      if key in table && table[key] == state {
        assert table[key := state] == table;
        NoneHold(table);
        disks := [];
      } else {
        assert key !in table || table[key] != table[key := state][key];
        disks := Change(key, state, tmpOpens);
      }
    }

    /** A set that changes something. */
    method Change(key: Bytes, state: bool, tmpOpens: bool) returns (disks: seq<Disk>)
      requires Valid() && |key| == NAME_LENGTH && NEWLINE !in key
      modifies this
      ensures Valid() && table == old(table)[key := state] && counter == Counter.Next(old(counter))
      ensures AllHold(disks, table) && disks != [] && disk == disks[|disks| - 1]
      ensures disks[0] == Logged(old(disk), Put(key, state))
      ensures !(counter == 0 && tmpOpens) ==> |disks| == 1
      ensures counter == 0 && tmpOpens ==>
        settled && IsSnapshotOf(disk, table) && 3 <= |disks| && disks[|disks| - 2] == Disk(disk.snapshot, [], disks[0].log)
      ensures counter != 0 ==> settled == old(settled)
    {
      hide Holds, Records, PrintOne;
      var before := table;
      table := before[key := state];
      assert |table| <= |before| + 1;
      disks := Append(Put(key, state), before);
      sets := sets + 1;
      counter := Counter.Next(counter);
      if counter == 0 {
        if tmpOpens {
          var more := DoSnapshot();
          disks := disks + more;
        } else {
          settled := false;
        }
      }
    }

    method Erase(path: Bytes) returns (disks: seq<Disk>)
      requires Valid()
      modifies this
      ensures Valid()
      ensures table == old(table) - {Name(sha, path)}
      ensures AllHold(disks, table) && disk == (if disks == [] then old(disk) else disks[|disks| - 1])
      ensures disks == if Name(sha, path) in old(table) then [Logged(old(disk), Del(Name(sha, path)))] else []
      ensures counter == old(counter) && settled == old(settled)
    {
      hide Holds, Records;
      disks := [];
      var key := HashPath(sha, path);
      var before := table;
      if key in table {
        table := before - {key};
        disks := Append(Del(key), before);
        erases := erases + 1;
      } else {
        assert table - {key} == table;
      }
    }

    /** One append to the log, flushed whole, after the table was changed in memory. */
    method Append(r: Rec<bool>, ghost before: Table<bool>) returns (disks: seq<Disk>)
      requires Holds(disk, before) && Printable([r]) && table == Apply(before, r)
      modifies this`disk
      ensures Holds(disk, table) && disks == [disk] && disk == Logged(old(disk), r)
      ensures Records(disk.log) == Records(old(disk).log) + [r]
    {
      HoldsAppend(disk, before, r);
      disk := disk.(log := disk.log + PrintOne(r));
      disks := [disk];
    }

    /** The temporary file is written one entry at a time, in whatever order the hash map yields
        them, then renamed over the snapshot; only then is the log truncated. */
    method DoSnapshot() returns (disks: seq<Disk>)
      requires Holds(disk, table)
      modifies this`disk, this`settled, this`sets, this`erases
      ensures AllHold(disks, table) && disks != [] && disk == disks[|disks| - 1]
      ensures settled && sets == erases == 0 && IsSnapshotOf(disk, table) && Records(disk.log) == []
      ensures 2 <= |disks| && disks[|disks| - 2] == Disk(disk.snapshot, [], old(disk).log)
    {
      hide Holds, Records;
      TmpIgnored(disk, [], table);
      disk := disk.(tmp := []);
      disks := [disk];
      var keys := table.Keys;
      ghost var order: seq<Bytes> := [];
      while keys != {}
        invariant keys <= table.Keys
        invariant forall k :: k in order <==> k in table.Keys - keys
        invariant |order| + |keys| == |table.Keys|
        invariant disk == old(disk).(tmp := Print(Puts(table, order)))
        invariant Holds(disk, table) && AllHold(disks, table)
        modifies this`disk
        decreases |keys|
      {
        var k :| k in keys;
        keys := keys - {k};
        PrintPuts(table, order, k);
        TmpIgnored(disk, disk.tmp + PrintOne(Put(k, table[k])), table);
        disk := disk.(tmp := disk.tmp + PrintOne(Put(k, table[k])));
        disks := disks + [disk];
        order := order + [k];
      }
      HoldsRenamed(disk, table, order);
      disk := disk.(snapshot := disk.tmp, tmp := []);
      disks := disks + [disk];
      disk := disk.(log := []);
      disks := disks + [disk];
      settled, sets, erases := true, 0, 0;
    }
  }
}
