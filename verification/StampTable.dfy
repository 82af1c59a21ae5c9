/** The persistent server timestamps of cached files: the same scheme as the dirty flags, with raw
    16-byte values, an erasure written as sixteen 0xFF bytes, and a replay with a quirk. */
module LastModifiedTable {
  import opened Basics
  import opened Hashing
  import opened Files
  import opened Replay
  import opened StampCodec
  import Counter

  type Stamps = Table<Bytes>

  /** The quirk: an erasure of a key that is not there inserts the sixteen 0xFF bytes. */
  function ApplyEntry(t: Stamps, e: Entry): Stamps
  {
    if e.value == ERASED && e.key in t then t - {e.key} else t[e.key := e.value]
  }

  function ReplayEntries(t: Stamps, es: seq<Entry>): Stamps
  {
    if es == [] then t else ApplyEntry(ReplayEntries(t, es[..|es| - 1]), es[|es| - 1])
  }

  /** The table without its tombstones. */
  function Live(t: Stamps): Stamps
  {
    map k | k in t && t[k] != ERASED :: t[k]
  }

  function Meaning(e: Entry): Rec<Bytes>
  {
    if e.value == ERASED then Del(e.key) else Put(e.key, e.value)
  }

  function Meanings(es: seq<Entry>): (rs: seq<Rec<Bytes>>)
    ensures |rs| == |es|
  {
    seq(|es|, i requires 0 <= i < |es| => Meaning(es[i]))
  }

  lemma QuirkOnce(t: Stamps, e: Entry)
    ensures Live(ApplyEntry(t, e)) == Apply(Live(t), Meaning(e))
  {
  }

  /** Dropping tombstones turns the quirky replay into the plain one. */
  lemma {:induction false} QuirkCommutes(t: Stamps, es: seq<Entry>)
    ensures Live(ReplayEntries(t, es)) == ReplayAll(Live(t), Meanings(es))
  {
    hide Live, Apply, ApplyEntry;
    if es == [] {
    } else {
      var front, last := es[..|es| - 1], es[|es| - 1];
      QuirkCommutes(t, front);
      QuirkOnce(ReplayEntries(t, front), last);
      assert Meanings(es)[..|es| - 1] == Meanings(front);
    }
  }

  lemma {:induction false} ReplayEntriesConcat(t: Stamps, a: seq<Entry>, b: seq<Entry>)
    ensures ReplayEntries(t, a + b) == ReplayEntries(ReplayEntries(t, a), b)
  {
    if b == [] {
      assert a + b == a;
    } else {
      ReplayEntriesConcat(t, a, b[..|b| - 1]);
      assert (a + b)[..|a + b| - 1] == a + b[..|b| - 1];
    }
  }

  function EntriesOf(t: Stamps, keys: seq<Bytes>): (es: seq<Entry>)
    requires forall k :: k in keys ==> k in t
    ensures |es| == |keys|
  {
    seq(|keys|, i requires 0 <= i < |keys| => Entry(keys[i], t[keys[i]]))
  }

  lemma {:induction false} ReplaySome(t: Stamps, keys: seq<Bytes>)
    requires Distinct(keys) && forall k :: k in keys ==> k in t
    ensures ReplayEntries(map[], EntriesOf(t, keys)) == Restricted(t, keys)
  {
    hide ApplyEntry, Restricted;
    if keys == [] {
      RestrictedSnoc(t, keys);
    } else {
      var front, last := keys[..|keys| - 1], keys[|keys| - 1];
      ReplaySome(t, front);
      assert EntriesOf(t, keys)[..|keys| - 1] == EntriesOf(t, front);
      RestrictedSnoc(t, keys);
    }
  }

  function Restricted(t: Stamps, keys: seq<Bytes>): Stamps
  {
    map k | k in t && k in keys :: t[k]
  }

  lemma RestrictedSnoc(t: Stamps, keys: seq<Bytes>)
    requires Distinct(keys) && forall k :: k in keys ==> k in t
    ensures Restricted(t, []) == map[]
    ensures keys != [] ==>
      var front, last := keys[..|keys| - 1], keys[|keys| - 1];
      Restricted(t, keys) == ApplyEntry(Restricted(t, front), Entry(last, t[last]))
  {
    if keys != [] {
      var front, last := keys[..|keys| - 1], keys[|keys| - 1];
      assert keys == front + [last] && last !in front;
    }
  }

  /** A snapshot is reloaded exactly, tombstones included, whatever order it was written in. */
  lemma SnapshotExact(t: Stamps, keys: seq<Bytes>)
    requires Distinct(keys) && forall k :: k in keys <==> k in t
    ensures ReplayEntries(map[], EntriesOf(t, keys)) == t
  {
    ReplaySome(t, keys);
  }

  /** The entries a file was written with. */
  function Records(file: Bytes): seq<Entry>
  {
    Scan(file)
  }

  function Rebuilt(snap: seq<Entry>, log: seq<Entry>): Stamps
  {
    ReplayEntries(ReplayEntries(map[], snap), log)
  }

  /** What a start of the client makes of a disk; None if an assertion fails while reading. The
      buffer values are read into is cleared for each file. */
  function Recover(disk: Disk): Option<Stamps>
  {
    match (Parse(disk.snapshot, ZEROS), Parse(disk.log, ZEROS))
    case (Some(snap), Some(log)) => Some(Rebuilt(snap, log))
    case _ => None
  }

  ghost predicate IsPrinted(file: Bytes)
  {
    Stored(Records(file)) && file == Print(Records(file))
  }

  ghost predicate NamesOnly(t: Stamps)
  {
    forall k :: k in t ==> |k| == NAME_LENGTH && NEWLINE !in k
  }

  ghost predicate StampsOnly(t: Stamps)
  {
    forall k :: k in t ==> IsValue(t[k])
  }

  /** The live entries that a disk stands for. */
  function Meant(disk: Disk): Stamps
  {
    Live(Rebuilt(Records(disk.snapshot), Records(disk.log)))
  }

  /** A disk as the program leaves it, standing for this table up to tombstones. */
  ghost predicate Holds(disk: Disk, t: Stamps)
  {
    IsPrinted(disk.snapshot) && IsPrinted(disk.log) && Meant(disk) == Live(t)
  }

  function MarksIn(es: seq<Entry>): set<Bytes>
  {
    set e | e in es && e.value == LOCAL :: e.key
  }

  /** The keys that a record with the mark of a local file stands for. */
  function Marks(disk: Disk): set<Bytes>
  {
    MarksIn(Records(disk.snapshot)) + MarksIn(Records(disk.log))
  }

  function LocalKeys(t: Stamps): set<Bytes>
  {
    set k | k in t && t[k] == LOCAL
  }

  /** A disk can be read again if and only if no mark is on it. */
  lemma RecoversIff(disk: Disk, t: Stamps)
    requires Holds(disk, t)
    ensures Recover(disk).Some? <==> Marks(disk) == {}
    ensures Recover(disk).Some? ==> Recover(disk) == Some(Rebuilt(Records(disk.snapshot), Records(disk.log)))
    ensures Recover(disk).Some? ==> Live(Recover(disk).value) == Live(t)
  {
    hide Parse, Scan, Print, ReplayEntries, Live;
    ReadsIff(Records(disk.snapshot), ZEROS);
    ReadsIff(Records(disk.log), ZEROS);
    NoMarks(Records(disk.snapshot));
    NoMarks(Records(disk.log));
  }

  lemma NoMarks(es: seq<Entry>)
    requires Stored(es)
    ensures Printable(es) <==> MarksIn(es) == {}
  {
    if MarksIn(es) == {} {
      forall e | e in es ensures |e.value| == STAMP_LENGTH {
        assert e.value == LOCAL ==> e.key in MarksIn(es);
      }
    }
  }

  /** A value in a table comes from a record. */
  lemma {:induction false} MarkComesFromRecord(t: Stamps, es: seq<Entry>, k: Bytes)
    requires k in ReplayEntries(t, es) && ReplayEntries(t, es)[k] == LOCAL
    ensures k in MarksIn(es) || (k in t && t[k] == LOCAL)
  {
    if es == [] {
    } else {
      var front, last := es[..|es| - 1], es[|es| - 1];
      if last.key == k && last.value == LOCAL {
        assert last in es;
      } else {
        MarkComesFromRecord(t, front, k);
        assert forall e :: e in front ==> e in es;
      }
    }
  }

  lemma LocalIsMarked(disk: Disk, t: Stamps)
    requires Holds(disk, t)
    ensures LocalKeys(t) <= Marks(disk)
  {
    var snap, log := Records(disk.snapshot), Records(disk.log);
    forall k | k in LocalKeys(t) ensures k in Marks(disk) {
      assert k in Live(t) && Live(t)[k] == LOCAL;
      assert k in Live(Rebuilt(snap, log));
      MarkComesFromRecord(ReplayEntries(map[], snap), log, k);
      if k !in MarksIn(log) {
        MarkComesFromRecord(map[], snap, k);
      }
    }
  }

  lemma MarksOfAppend(disk: Disk, e: Entry)
    requires Records(disk.log + PrintOne(e)) == Records(disk.log) + [e]
    ensures Marks(disk.(log := disk.log + PrintOne(e))) == Marks(disk) + (if e.value == LOCAL then {e.key} else {})
  {
    var log := Records(disk.log);
    assert forall x :: x in log + [e] <==> x in log || x == e;
  }

  lemma StoredEntries(t: Stamps, order: seq<Bytes>)
    requires NamesOnly(t) && StampsOnly(t) && forall k :: k in order ==> k in t
    ensures Stored(EntriesOf(t, order))
  {
  }

  lemma MarksOfEntries(t: Stamps, order: seq<Bytes>)
    requires forall k :: k in order <==> k in t
    ensures MarksIn(EntriesOf(t, order)) == LocalKeys(t)
  {
    var es := EntriesOf(t, order);
    forall k | k in LocalKeys(t) ensures k in MarksIn(es) {
      var i :| 0 <= i < |order| && order[i] == k;
      assert es[i] in es;
    }
  }

  /** All of them stand for the table, and no mark comes up that is not in high. */
  ghost predicate AllHold(disks: seq<Disk>, t: Stamps, high: set<Bytes>)
  {
    forall d :: d in disks ==> Holds(d, t) && Marks(d) <= high
  }

  lemma AllHoldNone(t: Stamps, high: set<Bytes>)
    ensures AllHold([], t, high)
  {
  }

  lemma AllHoldSnoc(disks: seq<Disk>, d: Disk, t: Stamps, high: set<Bytes>)
    requires AllHold(disks, t, high) && Holds(d, t) && Marks(d) <= high
    ensures AllHold(disks + [d], t, high)
  {
  }

  lemma {:induction false} ShapeOfReplay(t: Stamps, es: seq<Entry>)
    requires NamesOnly(t) && StampsOnly(t) && Stored(es)
    ensures NamesOnly(ReplayEntries(t, es)) && StampsOnly(ReplayEntries(t, es))
  {
    if es == [] {
    } else {
      ShapeOfReplay(t, es[..|es| - 1]);
      assert es[|es| - 1] in es;
    }
  }

  /** The shape of what a start reads from a disk the program left. */
  lemma RecoveredShape(disk: Disk)
    ensures forall t :: Holds(disk, t) ==> (Recover(disk).Some? <==> Marks(disk) == {})
    ensures forall t :: Holds(disk, t) && Recover(disk).Some? ==>
      Live(Recover(disk).value) == Live(t) && NamesOnly(Recover(disk).value) && StampsOnly(Recover(disk).value)
      && Holds(disk, Recover(disk).value)
  {
    forall t | Holds(disk, t)
      ensures Recover(disk).Some? <==> Marks(disk) == {}
      ensures Recover(disk).Some? ==>
        Live(Recover(disk).value) == Live(t) && NamesOnly(Recover(disk).value) && StampsOnly(Recover(disk).value)
        && Holds(disk, Recover(disk).value)
    {
      hide Marks, Live, ReplayEntries, Print, Scan, Parse;
      RecoversIff(disk, t);
      ShapeOfReplay(map[], Records(disk.snapshot));
      ShapeOfReplay(ReplayEntries(map[], Records(disk.snapshot)), Records(disk.log));
    }
  }

  lemma HeldIsPrinted(disk: Disk)
    ensures forall t :: Holds(disk, t) ==> IsPrinted(disk.snapshot) && IsPrinted(disk.log)
    ensures IsPrinted(disk.snapshot) && IsPrinted(disk.log) ==> Holds(disk, Rebuilt(Records(disk.snapshot), Records(disk.log)))
  {
  }

  lemma HoldsPrinted(disk: Disk, snap: seq<Entry>, log: seq<Entry>)
    requires Stored(snap) && Stored(log)
    requires disk.snapshot == Print(snap) && disk.log == Print(log)
    ensures Records(disk.snapshot) == snap && Records(disk.log) == log
    ensures Holds(disk, Rebuilt(snap, log))
  {
    hide Scan, Print;
    ScanRoundTrip(snap);
    ScanRoundTrip(log);
  }

  lemma HoldsAppend(disk: Disk, t: Stamps, e: Entry)
    requires Holds(disk, t) && Stored([e])
    ensures forall u :: Live(u) == Apply(Live(t), Meaning(e)) ==> Holds(disk.(log := disk.log + PrintOne(e)), u)
    ensures Records(disk.log + PrintOne(e)) == Records(disk.log) + [e]
  {
    hide Scan, Live;
    var snap, log := Records(disk.snapshot), Records(disk.log);
    assert e in [e];
    assert (log + [e])[..|log|] == log;
    HoldsPrinted(disk.(log := disk.log + PrintOne(e)), snap, log + [e]);
    var base := ReplayEntries(map[], snap);
    QuirkCommutes(base, log);
    QuirkCommutes(base, log + [e]);
    assert Meanings(log + [e])[..|log|] == Meanings(log);
  }

  lemma TmpIgnored(disk: Disk, tmp: Bytes, t: Stamps)
    requires Holds(disk, t)
    ensures Holds(disk.(tmp := tmp), t) && Marks(disk.(tmp := tmp)) == Marks(disk)
  {
  }

  /** The log replayed over a snapshot that already contains it changes no live entry. */
  lemma HoldsRenamed(disk: Disk, t: Stamps, order: seq<Bytes>)
    requires Holds(disk, t) && NamesOnly(t) && StampsOnly(t)
    requires Distinct(order) && (forall k :: k in order <==> k in t) && disk.tmp == Print(EntriesOf(t, order))
    ensures Holds(disk.(snapshot := disk.tmp, tmp := []), t)
    ensures LocalKeys(t) <= Marks(disk.(snapshot := disk.tmp, tmp := [])) <= Marks(disk)
    ensures Records(disk.tmp) == EntriesOf(t, order)
  {
    hide Scan, Print, ReplayEntries, Live, NamesOnly, StampsOnly, MarksIn, LocalKeys, EntriesOf;
    var snap, log := Records(disk.snapshot), Records(disk.log);
    StoredEntries(t, order);
    var base := ReplayEntries(map[], snap);
    HoldsPrinted(disk, snap, log);
    SnapshotExact(t, order);
    HoldsPrinted(disk.(snapshot := disk.tmp, tmp := []), EntriesOf(t, order), log);
    QuirkCommutes(base, log);
    QuirkCommutes(t, log);
    ReplayIdempotent(Live(base), Meanings(log));
    MarksOfEntries(t, order);
    LocalIsMarked(disk, t);
  }

  /** After the truncation recovery is exact. */
  lemma HoldsTruncated(file: Bytes, t: Stamps, order: seq<Bytes>)
    requires NamesOnly(t) && StampsOnly(t)
    requires Distinct(order) && (forall k :: k in order <==> k in t) && file == Print(EntriesOf(t, order))
    ensures Holds(Disk(file, [], []), t) && Rebuilt(Records(file), Records([])) == t
    ensures Records(file) == EntriesOf(t, order) && Records([]) == []
    ensures Marks(Disk(file, [], [])) == LocalKeys(t)
  {
    hide Scan, Live, NamesOnly, StampsOnly, LocalKeys, EntriesOf;
    StoredEntries(t, order);
    SnapshotExact(t, order);
    HoldsPrinted(Disk(file, [], []), EntriesOf(t, order), []);
    MarksOfEntries(t, order);
  }

  lemma PrintEntries(t: Stamps, order: seq<Bytes>, k: Bytes)
    requires k in t && forall o :: o in order ==> o in t
    ensures Print(EntriesOf(t, order + [k])) == Print(EntriesOf(t, order)) + PrintOne(Entry(k, t[k]))
  {
    assert EntriesOf(t, order + [k])[..|order|] == EntriesOf(t, order);
  }

  lemma SetShape(t: Stamps, k: Bytes, v: Bytes)
    requires NamesOnly(t) && |k| == NAME_LENGTH && NEWLINE !in k
    ensures NamesOnly(t[k := v]) && (StampsOnly(t) && IsValue(v) ==> StampsOnly(t[k := v]))
  {
  }

  lemma SetChanges(t: Stamps, k: Bytes, v: Bytes)
    ensures t[k := v] == t <==> k in t && t[k] == v
    ensures |t[k := v]| <= |t| + 1
  {
    assert t[k := v][k] == v;
  }

  lemma EraseShape(t: Stamps, k: Bytes)
    requires NamesOnly(t) && k in t
    ensures NamesOnly(t - {k}) && (StampsOnly(t) ==> StampsOnly(t - {k})) && |t - {k}| == |t| - 1
  {
    assert t == (t - {k})[k := t[k]];
  }

  /** Setting an entry and logging it keeps the disk in step with the table ... */
  lemma HoldsSet(disk: Disk, t: Stamps, k: Bytes, v: Bytes)
    requires Holds(disk, t) && |k| == NAME_LENGTH && NEWLINE !in k && IsValue(v)
    ensures Holds(disk.(log := disk.log + PrintOne(Entry(k, v))), t[k := v])
    ensures Records(disk.log + PrintOne(Entry(k, v))) == Records(disk.log) + [Entry(k, v)]
    ensures Marks(disk.(log := disk.log + PrintOne(Entry(k, v)))) == MarksWith(disk, k, v)
  {
    hide Holds, Records, Marks;
    HoldsAppend(disk, t, Entry(k, v));
    MarksOfAppend(disk, Entry(k, v));
    assert Live(t[k := v]) == Apply(Live(t), Meaning(Entry(k, v)));
  }

  /** ... and so does erasing one, be it a tombstone. */
  lemma HoldsErase(disk: Disk, t: Stamps, k: Bytes)
    requires Holds(disk, t) && NamesOnly(t) && k in t
    ensures Holds(disk.(log := disk.log + PrintOne(Entry(k, ERASED))), t - {k})
    ensures Records(disk.log + PrintOne(Entry(k, ERASED))) == Records(disk.log) + [Entry(k, ERASED)]
    ensures Marks(disk.(log := disk.log + PrintOne(Entry(k, ERASED)))) == Marks(disk)
  {
    hide Holds, Records, Marks;
    HoldsAppend(disk, t, Entry(k, ERASED));
    MarksOfAppend(disk, Entry(k, ERASED));
    assert Live(t - {k}) == Apply(Live(t), Meaning(Entry(k, ERASED)));
  }

  /** The log since the last snapshot, counted: an erase takes away a key that was in the snapshot
      or was added by a set since. */
  ghost predicate Bounded(disk: Disk, t: Stamps, counter: int, sets: nat, erases: nat)
  {
    && |Records(disk.log)| == sets + erases
    && sets == counter < Counter.SNAPSHOT_FREQUENCY
    && erases + |t| <= |Records(disk.snapshot)| + sets
  }

  lemma BoundedFresh(disk: Disk, t: Stamps)
    requires Records(disk.log) == [] && |Records(disk.snapshot)| == |t|
    ensures Bounded(disk, t, 0, 0, 0)
  {
  }

  lemma BoundedSet(disk: Disk, t: Stamps, counter: int, sets: nat, erases: nat, k: Bytes, v: Bytes)
    requires Bounded(disk, t, counter, sets, erases) && Counter.Next(counter) != 0
    requires Records(disk.log + PrintOne(Entry(k, v))) == Records(disk.log) + [Entry(k, v)]
    ensures Bounded(disk.(log := disk.log + PrintOne(Entry(k, v))), t[k := v], Counter.Next(counter), sets + 1, erases)
  {
    hide Records, PrintOne;
    SetChanges(t, k, v);
  }

  lemma BoundedErase(disk: Disk, t: Stamps, counter: int, sets: nat, erases: nat, k: Bytes)
    requires Bounded(disk, t, counter, sets, erases) && NamesOnly(t) && k in t
    requires Records(disk.log + PrintOne(Entry(k, ERASED))) == Records(disk.log) + [Entry(k, ERASED)]
    ensures Bounded(disk.(log := disk.log + PrintOne(Entry(k, ERASED))), t - {k}, counter, sets, erases + 1)
  {
    hide Records, PrintOne;
    EraseShape(t, k);
  }

  ghost predicate Sound(disk: Disk, t: Stamps, counter: int, framed: bool, settled: bool, sets: nat, erases: nat)
  {
    && NamesOnly(t)
    && (framed ==> Holds(disk, t) && StampsOnly(t))
    && (settled ==> framed && Bounded(disk, t, counter, sets, erases))
  }

  /** An erasure is logged. */
  lemma SoundErase(disk: Disk, t: Stamps, counter: int, framed: bool, settled: bool, sets: nat, erases: nat, k: Bytes)
    requires Sound(disk, t, counter, framed, settled, sets, erases) && k in t
    ensures var written := disk.(log := disk.log + PrintOne(Entry(k, ERASED)));
      && Sound(written, t - {k}, counter, framed, settled, sets, erases + 1)
      && (framed ==> AllHold([written], t - {k}, Marks(written)) && Marks(written) == Marks(disk))
  {
    hide Holds, AllHold, Marks, Bounded, Records, NamesOnly, StampsOnly, PrintOne;
    var written := disk.(log := disk.log + PrintOne(Entry(k, ERASED)));
    EraseShape(t, k);
    if framed {
      HoldsErase(disk, t, k);
      AllHoldNone(t - {k}, Marks(written));
      AllHoldSnoc([], written, t - {k}, Marks(written));
      assert [] + [written] == [written];
    }
    if settled {
      BoundedErase(disk, t, counter, sets, erases, k);
    }
  }

  /** A set is logged, and no snapshot is due. */
  lemma SoundSet(disk: Disk, t: Stamps, counter: int, framed: bool, settled: bool, sets: nat, erases: nat, k: Bytes, v: Bytes)
    requires Sound(disk, t, counter, framed, settled, sets, erases) && |k| == NAME_LENGTH && NEWLINE !in k
    ensures var written, count := disk.(log := disk.log + PrintOne(Entry(k, v))), Counter.Next(counter);
      var keeps := framed && IsValue(v);
      && Sound(written, t[k := v], count, keeps, settled && keeps && count != 0, sets + 1, erases)
      && (keeps ==> Marks(written) == MarksWith(disk, k, v)) && (settled ==> framed)
  {
    hide Holds, Marks, MarksWith, Bounded, Records, NamesOnly, StampsOnly, PrintOne, Counter.Next;
    SetShape(t, k, v);
    if framed && IsValue(v) {
      HoldsSet(disk, t, k, v);
      if settled && Counter.Next(counter) != 0 {
        BoundedSet(disk, t, counter, sets, erases, k, v);
      }
    }
  }

  class StampTable {
    const sha: Bytes -> Digest
    var table: Stamps
    var counter: int
    var disk: Disk
    ghost var framed: bool    // every value on the disk is a timestamp or the mark of a local file
    ghost var settled: bool   // this process has taken such a snapshot and none failed after it
    ghost var sets: nat       // changing sets and erases since that snapshot
    ghost var erases: nat

    ghost predicate Valid()
      reads this
    {
      Sound(disk, table, counter, framed, settled, sets, erases)
    }

    lemma LogBound()
      requires Valid() && settled
      ensures |Records(disk.log)| <= |Records(disk.snapshot)| + 18 && sets <= 9
    {
    }

    /** The state of a table just read from the disk; see Restart. */
    constructor (sha: Bytes -> Digest, table: Stamps, counter: int, disk: Disk, ghost framed: bool)
      ensures this.sha == sha && this.table == table && this.counter == counter && this.disk == disk
      ensures this.framed == framed && !settled
    {
      this.sha, this.table, this.counter, this.disk := sha, table, counter, disk;
      this.framed, settled, sets, erases := framed, false, 0, 0;
    }

    /** The loop of the constructor over one file. `ts` is the buffer the values are read into. */
    static method ReloadFile(file: Bytes, before: Stamps) returns (ok: bool, after: Stamps)
      ensures ok <==> Parse(file, ZEROS).Some?
      ensures ok ==> after == ReplayEntries(before, Parse(file, ZEROS).value)
    {
      after := before;
      var rest, ts := file, ZEROS;
      ghost var done: seq<Entry> := [];
      ThenNothing(Parse(file, ZEROS));
      while rest != []
        invariant |ts| == STAMP_LENGTH
        invariant Parse(file, ZEROS) == Then(done, Parse(rest, ts))
        invariant after == ReplayEntries(before, done)
        decreases |rest|
      {
        var line := GetLine(rest);
        if |line.text| != NAME_LENGTH {
          return false, before;
        }
        ghost var old_ts, old_rest := ts, rest;
        var fn := line.text;
        var got := if |line.rest| < STAMP_LENGTH then |line.rest| else STAMP_LENGTH;
        ts := line.rest[..got] + ts[got..];
        rest := if |line.rest| <= STAMP_LENGTH then [] else line.rest[STAMP_LENGTH + 1..];
        ParseTurn(done, old_rest, old_ts, ts, rest);
        ReplayEntriesConcat(before, done, [Entry(fn, ts)]);
        assert [Entry(fn, ts)][..0] == [];
        if ts == ERASED && fn in after {
          after := after - {fn};
        } else {
          after := after[fn := ts];
        }
        done := done + [Entry(fn, ts)];
      }
      ok := true;
      assert done + [] == done;
    }

    /** A start of the client: null when reading runs into assert(false), that is when a local file's
        mark is on the disk. */
    static method Restart(sha: Bytes -> Digest, disk: Disk, counter: int) returns (t: StampTable?)
      ensures t == null <==> Recover(disk) == None
      ensures t != null ==> fresh(t) && t.sha == sha && t.disk == disk && t.counter == counter
      ensures t != null ==> Recover(disk) == Some(t.table) && !t.settled
      ensures forall tab :: Holds(disk, tab) ==> (t != null <==> Marks(disk) == {})
      ensures forall tab :: Holds(disk, tab) && t != null ==> t.Valid() && t.framed && Live(t.table) == Live(tab)
    {
      hide Parse, Scan, Print, Live, Holds, ReplayEntries, NamesOnly, StampsOnly, Marks, Records, IsPrinted;
      RecoveredShape(disk);
      HeldIsPrinted(disk);
      var ok, tab := ReloadFile(disk.snapshot, map[]);
      if !ok {
        return null;
      }
      ok, tab := ReloadFile(disk.log, tab);
      if !ok {
        return null;
      }
      ghost var printed := IsPrinted(disk.snapshot) && IsPrinted(disk.log);
      t := new StampTable(sha, tab, counter, disk, printed);
    }

    function Count(path: Bytes): bool
      reads this
    {
      Name(sha, path) in table
    }

    function Get(path: Bytes): Option<Bytes>
      reads this
    {
      if Name(sha, path) in table then Some(table[Name(sha, path)]) else None
    }

    /** As long as values are timestamps or marks of local files, every disk the operation passes
        through holds the new table, and the marks on it are known: a mark is put there with such
        a value, and goes away with a snapshot taken when the table has another value. A value of
        another length spoils the framing until a snapshot without one. */
    method Set(path: Bytes, state: Bytes, tmpOpens: bool) returns (disks: seq<Disk>)
      requires Valid()
      modifies this
      ensures Valid()
      ensures table == old(table)[Name(sha, path) := state]
      ensures old(framed) && IsValue(state) ==>
        framed && AllHold(disks, table, MarksWith(old(disk), Name(sha, path), state))
      ensures old(framed) && IsValue(state) && table != old(table) && counter == 0 && tmpOpens ==> Marks(disk) == LocalKeys(table)
      ensures old(framed) && IsValue(state) && !(table != old(table) && counter == 0 && tmpOpens) ==>
        Marks(disk) == MarksWith(old(disk), Name(sha, path), state)
      ensures disk == (if disks == [] then old(disk) else disks[|disks| - 1])
      ensures table != old(table) ==> disks != [] && disks[0] == Appended(old(disk), Name(sha, path), state)
      ensures !(table != old(table) && counter == 0 && tmpOpens) ==> |disks| <= 1
      ensures table == old(table) ==> disks == [] && counter == old(counter) && framed == old(framed) && settled == old(settled)
      ensures table != old(table) ==> disks != [] && counter == Counter.Next(old(counter))
      ensures table != old(table) && counter == 0 && tmpOpens && StampsOnly(table) ==> settled && framed
      ensures table != old(table) && counter == 0 && tmpOpens && StampsOnly(table) ==>
        IsSnapshotOf(disk, table) && 3 <= |disks| && disks[|disks| - 2] == Disk(disk.snapshot, [], disks[0].log)
      ensures table != old(table) && counter != 0 && IsValue(state) ==> settled == old(settled)
    {
      hide Sound, AllHold, MarksWith, Marks, LocalKeys, StampsOnly, IsSnapshotOf, PrintOne, Counter.Next;
      var key := HashPath(sha, path);
      SetChanges(table, key, state);
      if key in table && table[key] == state {
        NoChange(disk, table, counter, framed, settled, sets, erases, key);
        disks := [];
      } else {
        disks := Change(key, state, tmpOpens);
      }
    }

    /** A set that changes something. */
    method Change(key: Bytes, state: Bytes, tmpOpens: bool) returns (disks: seq<Disk>)
      requires Valid() && |key| == NAME_LENGTH && NEWLINE !in key
      modifies this
      ensures Valid() && table == old(table)[key := state] && counter == Counter.Next(old(counter))
      ensures disks != [] && disk == disks[|disks| - 1] && disks[0] == Appended(old(disk), key, state)
      ensures old(framed) && IsValue(state) ==> framed && AllHold(disks, table, MarksWith(old(disk), key, state))
      ensures old(framed) && IsValue(state) ==>
        Marks(disk) == if counter == 0 && tmpOpens then LocalKeys(table) else MarksWith(old(disk), key, state)
      ensures !(counter == 0 && tmpOpens) ==> |disks| == 1
      ensures counter != 0 && IsValue(state) ==> settled == old(settled)
      ensures counter == 0 && tmpOpens && StampsOnly(table) ==>
        settled && framed && IsSnapshotOf(disk, table) && 3 <= |disks| && disks[|disks| - 2] == Disk(disk.snapshot, [], disks[0].log)
    {
      hide Sound, AllHold, MarksWith, Marks, LocalKeys, StampsOnly, IsSnapshotOf, PrintOne, Counter.Next;
      SoundSet(disk, table, counter, framed, settled, sets, erases, key, state);
      var after, written := table[key := state], disk.(log := disk.log + PrintOne(Entry(key, state)));
      var count := Counter.Next(counter);
      framed := framed && IsValue(state);
      settled := settled && framed && count != 0;
      var snapshot := count == 0 && tmpOpens;
      written, disks := Logged(written, after, snapshot, framed, settled, count, sets + 1, erases);
      sets := sets + 1;
      if snapshot {
        framed, settled, sets, erases := StampsOnly(after), StampsOnly(after), 0, 0;
      }
      table, counter, disk := after, count, written;
    }

    /** The record is on the disk; every tenth time a snapshot follows. */
    static method Logged(start: Disk, t: Stamps, snapshot: bool, ghost framed: bool, ghost settled: bool, ghost counter: int,
                         ghost sets: nat, ghost erases: nat)
      returns (disk: Disk, disks: seq<Disk>)
      requires Sound(start, t, counter, framed, settled, sets, erases)
      ensures framed ==> AllHold(disks, t, Marks(start)) && StampsOnly(t)
      ensures disks != [] && disk == disks[|disks| - 1] && disks[0] == start
      ensures if snapshot then disk.log == [] else disk == start && disks == [start]
      ensures snapshot ==> 3 <= |disks| && disks[|disks| - 2] == Disk(disk.snapshot, [], start.log)
      ensures snapshot ==> Sound(disk, t, 0, StampsOnly(t), StampsOnly(t), 0, 0)
      ensures snapshot && StampsOnly(t) ==> IsSnapshotOf(disk, t) && Marks(disk) == LocalKeys(t)
    {
      hide Holds, AllHold, Marks, LocalKeys, Bounded, Records, NamesOnly, StampsOnly, PrintOne, IsSnapshotOf;
      AllHoldNone(t, Marks(start));
      if framed {
        AllHoldSnoc([], start, t, Marks(start));
        assert [] + [start] == [start];
      }
      disk, disks := start, [start];
      if snapshot {
        disk, disks := Snapshot(start, t, disks, framed, Marks(start));
        if StampsOnly(t) {
          BoundedFresh(disk, t);
        }
      }
    }

    method Erase(path: Bytes) returns (disks: seq<Disk>)
      requires Valid()
      modifies this
      ensures Valid()
      ensures table == old(table) - {Name(sha, path)}
      ensures framed == old(framed) && (framed ==> AllHold(disks, table, Marks(disk)) && Marks(disk) == old(Marks(disk)))
      ensures disks == [] <==> Name(sha, path) !in old(table)
      ensures disks != [] ==> disks == [disk] && disk == Appended(old(disk), Name(sha, path), ERASED)
      ensures disks == [] ==> disk == old(disk)
      ensures counter == old(counter) && settled == old(settled)
    {
      hide Sound, AllHold, Marks, PrintOne;
      var key := HashPath(sha, path);
      if key !in table {
        assert table - {key} == table;
        AllHoldNone(table, Marks(disk));
        return [];
      }
      SoundErase(disk, table, counter, framed, settled, sets, erases, key);
      table, disk := table - {key}, disk.(log := disk.log + PrintOne(Entry(key, ERASED)));
      erases := erases + 1;
      disks := [disk];
    }

    /** do_snapshot: the temporary file is written one entry at a time, in whatever order the hash
        map yields them, then renamed over the snapshot; only then is the log truncated. */
    static method Snapshot(start: Disk, t: Stamps, before: seq<Disk>, ghost framed: bool, ghost high: set<Bytes>)
      returns (disk: Disk, disks: seq<Disk>)
      requires NamesOnly(t)
      requires framed ==> Holds(start, t) && StampsOnly(t) && Marks(start) == high && AllHold(before, t, high)
      ensures framed ==> AllHold(disks, t, high)
      ensures before <= disks && |before| + 2 <= |disks| && disk == disks[|disks| - 1] && disk.log == []
      ensures disks[|disks| - 2] == Disk(disk.snapshot, [], start.log)
      ensures StampsOnly(t) ==> Holds(disk, t) && IsSnapshotOf(disk, t) && Marks(disk) == LocalKeys(t)
      ensures StampsOnly(t) ==> Records(disk.log) == [] && |Records(disk.snapshot)| == |t|
    {
      hide Holds, Records, Marks, LocalKeys, NamesOnly, StampsOnly, PrintOne, AllHold, IsSnapshotOf, EntriesOf;
      ghost var order;
      disk, disks, order := WriteTmp(start, t, before, framed, high);
      var renamed := disk.(snapshot := disk.tmp, tmp := []);
      disk := renamed.(log := []);
      if framed {
        RenamedHolds(start, renamed, disks, t, order);
        TruncatedHolds(renamed, disks + [renamed], t, order, high);
      }
      if StampsOnly(t) {
        SnapshotDone(disk, t, order);
      }
      disks := disks + [renamed] + [disk];
    }

    static method WriteTmp(start: Disk, t: Stamps, before: seq<Disk>, ghost framed: bool, ghost high: set<Bytes>)
      returns (disk: Disk, disks: seq<Disk>, ghost order: seq<Bytes>)
      requires framed ==> Holds(start, t) && Marks(start) == high && AllHold(before, t, high)
      ensures Distinct(order) && (forall k :: k in order <==> k in t) && |order| == |t|
      ensures disk == start.(tmp := Print(EntriesOf(t, order)))
      ensures before <= disks && (framed ==> AllHold(disks, t, high))
    {
      hide Holds, Marks, PrintOne, AllHold, EntriesOf;
      disk, disks, order := start.(tmp := []), before + [start.(tmp := [])], [];
      if framed {
        TmpHolds(start, [], before, t, high);
      }
      NoEntries(t);
      var keys := t.Keys;
      while keys != {}
        invariant keys <= t.Keys && Distinct(order) && before <= disks
        invariant forall k :: k in order <==> k in t.Keys - keys
        invariant |order| + |keys| == |t.Keys|
        invariant disk == start.(tmp := Print(EntriesOf(t, order)))
        invariant framed ==> AllHold(disks, t, high)
        decreases |keys|
      {
        var k :| k in keys;
        keys := keys - {k};
        assert k !in order;
        PrintEntries(t, order, k);
        disk := disk.(tmp := disk.tmp + PrintOne(Entry(k, t[k])));
        if framed {
          TmpHolds(start, disk.tmp, disks, t, high);
        }
        disks := disks + [disk];
        order := order + [k];
      }
    }
  }

  lemma NoEntries(t: Stamps)
    ensures Print(EntriesOf(t, [])) == []
  {
  }

  /** One more record on the log. */
  function Appended(disk: Disk, key: Bytes, value: Bytes): Disk
  {
    disk.(log := disk.log + PrintOne(Entry(key, value)))
  }

  /** The snapshot alone rebuilds the table, exactly, with one record a key. */
  ghost predicate IsSnapshotOf(disk: Disk, t: Stamps)
  {
    && IsPrinted(disk.snapshot) && disk.log == [] && disk.tmp == []
    && Rebuilt(Records(disk.snapshot), []) == t && |Records(disk.snapshot)| == |t|
    && forall e :: e in Records(disk.snapshot) ==> e.key in t && t[e.key] == e.value
  }

  /** The marks after a record was appended. */
  function MarksWith(disk: Disk, key: Bytes, value: Bytes): set<Bytes>
  {
    Marks(disk) + (if value == LOCAL then {key} else {})
  }

  lemma NoChange(disk: Disk, t: Stamps, counter: int, framed: bool, settled: bool, sets: nat, erases: nat, k: Bytes)
    requires Sound(disk, t, counter, framed, settled, sets, erases) && k in t
    ensures framed ==> Marks(disk) == MarksWith(disk, k, t[k]) && AllHold([], t, Marks(disk))
  {
    hide Marks, Holds;
    if framed {
      LocalIsMarked(disk, t);
      assert t[k] == LOCAL ==> k in LocalKeys(t);
    }
  }

  lemma TmpHolds(start: Disk, tmp: Bytes, disks: seq<Disk>, t: Stamps, high: set<Bytes>)
    requires Holds(start, t) && Marks(start) == high && AllHold(disks, t, high)
    ensures AllHold(disks + [start.(tmp := tmp)], t, high)
  {
    TmpIgnored(start, tmp, t);
    AllHoldSnoc(disks, start.(tmp := tmp), t, high);
  }

  lemma RenamedHolds(start: Disk, renamed: Disk, disks: seq<Disk>, t: Stamps, order: seq<Bytes>)
    requires Holds(start, t) && NamesOnly(t) && StampsOnly(t) && AllHold(disks, t, Marks(start))
    requires Distinct(order) && (forall k :: k in order <==> k in t)
    requires renamed == start.(snapshot := Print(EntriesOf(t, order)), tmp := [])
    ensures AllHold(disks + [renamed], t, Marks(start)) && LocalKeys(t) <= Marks(start)
  {
    hide Holds, AllHold, LocalKeys, Marks, NamesOnly, StampsOnly, EntriesOf;
    TmpIgnored(start, renamed.snapshot, t);
    HoldsRenamed(start.(tmp := renamed.snapshot), t, order);
    AllHoldSnoc(disks, renamed, t, Marks(start));
  }

  lemma TruncatedHolds(renamed: Disk, disks: seq<Disk>, t: Stamps, order: seq<Bytes>, high: set<Bytes>)
    requires NamesOnly(t) && StampsOnly(t) && AllHold(disks, t, high) && LocalKeys(t) <= high
    requires Distinct(order) && (forall k :: k in order <==> k in t)
    requires renamed.snapshot == Print(EntriesOf(t, order)) && renamed.tmp == []
    ensures AllHold(disks + [renamed.(log := [])], t, high)
  {
    hide Holds, AllHold, LocalKeys, Marks, NamesOnly, StampsOnly, EntriesOf;
    HoldsTruncated(renamed.snapshot, t, order);
    AllHoldSnoc(disks, renamed.(log := []), t, high);
  }

  lemma SnapshotDone(disk: Disk, t: Stamps, order: seq<Bytes>)
    requires NamesOnly(t) && StampsOnly(t) && Distinct(order) && forall k :: k in order <==> k in t
    requires disk == Disk(Print(EntriesOf(t, order)), [], []) && |order| == |t|
    ensures Holds(disk, t) && IsSnapshotOf(disk, t) && Marks(disk) == LocalKeys(t)
    ensures Records(disk.log) == [] && Records(disk.snapshot) == EntriesOf(t, order)
  {
    hide Live, Marks, LocalKeys, Scan, Print, ReplayEntries;
    HoldsTruncated(disk.snapshot, t, order);
    assert forall e :: e in EntriesOf(t, order) ==> e.key in t && t[e.key] == e.value;
  }

  /** One turn of the reading loop: `ts` becomes `value` and `rest` becomes `tail`. */
  lemma ParseTurn(done: seq<Entry>, rest: Bytes, ts: Bytes, value: Bytes, tail: Bytes)
    requires rest != [] && |GetLine(rest).text| == NAME_LENGTH && |ts| == STAMP_LENGTH
    requires var l := GetLine(rest);
      var got := if |l.rest| < STAMP_LENGTH then |l.rest| else STAMP_LENGTH;
      value == l.rest[..got] + ts[got..] && tail == if |l.rest| <= STAMP_LENGTH then [] else l.rest[STAMP_LENGTH + 1..]
    ensures Then(done, Parse(rest, ts)) == Then(done + [Entry(GetLine(rest).text, value)], Parse(tail, value))
  {
    var l := GetLine(rest);
    var e := Entry(l.text, value);
    ThenThen(done, [e], Parse(tail, value));
    if l.atEnd {
      assert value == ts;
    } else if |l.rest| < STAMP_LENGTH {
      assert value == l.rest + ts[|l.rest|..];
    } else {
      assert value == l.rest[..STAMP_LENGTH];
    }
    assert [e] + [] == [e];
  }
}
