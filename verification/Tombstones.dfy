/** The window between renaming a snapshot and truncating the log: the whole log is replayed over a
    snapshot that already contains it. Live entries survive that; this says which tombstones the
    quirk of the replay puts in or takes out. */
module Tombstones {
  import opened Basics
  import opened Hashing
  import opened Files
  import opened Replay
  import opened StampCodec
  import opened LastModifiedTable
  import Counter

  /** The log sets the key to a real value somewhere. */
  ghost predicate Sets(log: seq<Entry>, k: Bytes)
  {
    exists i :: 0 <= i < |log| && log[i].key == k && log[i].value != ERASED
  }

  /** The erasures of the key at the end of the log, after its last real value if there is one. */
  function Erasures(log: seq<Entry>, k: Bytes): nat
  {
    if log == [] then 0
    else
      var front, last := log[..|log| - 1], log[|log| - 1];
      if last.key != k then Erasures(front, k)
      else if last.value == ERASED then Erasures(front, k) + 1
      else 0
  }

  predicate Even(n: nat)
  {
    n % 2 == 0
  }

  lemma SetsSnoc(log: seq<Entry>, k: Bytes)
    requires log != []
    ensures var front, last := log[..|log| - 1], log[|log| - 1];
      Sets(log, k) <==> Sets(front, k) || (last.key == k && last.value != ERASED)
  {
    var front, last := log[..|log| - 1], log[|log| - 1];
    if Sets(front, k) {
      var i :| 0 <= i < |front| && front[i].key == k && front[i].value != ERASED;
      assert log[i] == front[i];
    }
    if Sets(log, k) && !(last.key == k && last.value != ERASED) {
      var i :| 0 <= i < |log| && log[i].key == k && log[i].value != ERASED;
      assert front[i] == log[i];
    }
  }

  /** Erasures toggle a key between being absent and being a tombstone. */
  lemma {:induction false} ReplayToggles(t: Stamps, log: seq<Entry>, k: Bytes)
    ensures var r, n := ReplayEntries(t, log), Erasures(log, k);
      && (n == 0 && !Sets(log, k) ==> SameAt(r, t, k))
      && (n == 0 && Sets(log, k) ==> k in r && r[k] != ERASED)
      && (n > 0 ==> (k in r <==> ((Sets(log, k) || k in t) <==> Even(n))))
      && (n > 0 && k in r ==> r[k] == ERASED)
  {
    if log == [] {
    } else {
      ReplayToggles(t, log[..|log| - 1], k);
      SetsSnoc(log, k);
    }
  }

  /** Replaying a log over a table that contains it gives the key its entry back: always if the log
      does not end by erasing the key, else by the parity of those erasures. In the common case,
      one erasure of a key the table no longer has, exactly if the log also sets it before. */
  ghost predicate ExactAt(t: Stamps, log: seq<Entry>, k: Bytes)
  {
    Erasures(log, k) > 0 ==> if Sets(log, k) then k !in t <==> !Even(Erasures(log, k)) else Even(Erasures(log, k))
  }

  lemma SameAtIff(t: Stamps, log: seq<Entry>, k: Bytes)
    requires Live(ReplayEntries(t, log)) == Live(t)
    ensures SameAt(ReplayEntries(t, log), t, k) <==> ExactAt(t, log, k)
  {
    hide ReplayEntries, Erasures, Sets;
    var r := ReplayEntries(t, log);
    ReplayToggles(t, log, k);
    assert k in Live(r) <==> k in Live(t);
    assert k in Live(r) ==> Live(r)[k] == Live(t)[k];
  }

  lemma ReplayExactIff(t: Stamps, log: seq<Entry>)
    requires Live(ReplayEntries(t, log)) == Live(t)
    ensures ReplayEntries(t, log) == t <==> forall k :: ExactAt(t, log, k)
  {
    hide ReplayEntries, ExactAt, Live;
    forall k ensures SameAt(ReplayEntries(t, log), t, k) <==> ExactAt(t, log, k) {
      SameAtIff(t, log, k);
    }
    if forall k :: ExactAt(t, log, k) {
      SameEverywhere(ReplayEntries(t, log), t);
    }
  }

  /** Recovery in the window is exact, for any table and any log on the disk, if and only if every
      key passes that count. */
  lemma WindowExactIff(disk: Disk, t: Stamps, order: seq<Bytes>)
    requires Holds(disk, t) && NamesOnly(t) && StampsOnly(t)
    requires Distinct(order) && (forall k :: k in order <==> k in t) && disk.tmp == Print(EntriesOf(t, order))
    ensures var window := disk.(snapshot := disk.tmp, tmp := []);
      Rebuilt(Records(window.snapshot), Records(window.log)) == t <==> forall k :: ExactAt(t, Records(disk.log), k)
  {
    hide Scan, Print, ReplayEntries, ExactAt, EntriesOf, Marks, Live;
    HoldsRenamed(disk, t, order);
    SnapshotExact(t, order);
    ReplayExactIff(t, Records(disk.log));
  }

  lemma StartHolds(k: Bytes, v: Bytes)
    requires |k| == NAME_LENGTH && NEWLINE !in k && |v| == STAMP_LENGTH
    ensures var disk := Disk(PrintOne(Entry(k, v)), [], []);
      Holds(disk, map[k := v]) && Marks(disk) == {} && Recover(disk) == Some(map[k := v])
  {
    hide Scan, Parse, PrintOne, Live;
    var snap := [Entry(k, v)];
    var disk := Disk(PrintOne(Entry(k, v)), [], []);
    assert snap[..0] == [] && [] + PrintOne(Entry(k, v)) == PrintOne(Entry(k, v));
    assert Print(snap) == PrintOne(Entry(k, v));
    HoldsPrinted(disk, snap, []);
    assert ReplayEntries(map[], snap) == map[k := v];
    RecoversIff(disk, map[k := v]);
  }

  lemma WindowRecovers(window: Disk, snap: Disk, p: Bytes, q: Bytes, w: Bytes)
    requires |p| == |q| == NAME_LENGTH && NEWLINE !in p && NEWLINE !in q && p != q && |w| == STAMP_LENGTH && w != ERASED
    requires IsSnapshotOf(snap, map[q := w]) && Holds(window, map[q := w]) && Marks(window) == {}
    requires window == Disk(snap.snapshot, [], PrintOne(Entry(p, ERASED)) + PrintOne(Entry(q, w)))
    ensures Recover(window) == Some(map[q := w, p := ERASED])
  {
    hide Scan, Parse, PrintOne, Live, Marks, Holds;
    var one, log := [Entry(p, ERASED)], [Entry(p, ERASED), Entry(q, w)];
    assert log[..1] == one && one[..0] == [] && [] + PrintOne(Entry(p, ERASED)) == PrintOne(Entry(p, ERASED));
    assert Print(one) == PrintOne(Entry(p, ERASED)) && Print(log) == window.log;
    ScanRoundTrip(log);
    RecoversIff(window, map[q := w]);
    var t := map[q := w];
    assert ReplayEntries(t, one) == t[p := ERASED];
    assert ReplayEntries(t, log) == t[p := ERASED][q := w];
    assert t[p := ERASED][q := w] == map[q := w, p := ERASED];
  }

  /** Why recovery is exact only up to tombstones: forgetting one path and then storing a timestamp
      for another takes a snapshot without the first key. A crash before the log that erases it is
      truncated brings the key back as a tombstone. */
  method TombstoneRun(sha: Bytes -> Digest, p: Bytes, q: Bytes, v: Bytes, w: Bytes) returns (disks: seq<Disk>, window: Disk)
    requires Name(sha, p) != Name(sha, q) && |v| == |w| == STAMP_LENGTH && v != ERASED && w != ERASED
    ensures window in disks && |disks| >= 2 && window == disks[|disks| - 2]
    ensures Recover(window) == Some(map[Name(sha, q) := w, Name(sha, p) := ERASED])
  {
    hide Scan, Parse, PrintOne, Live, Recover, Holds, IsSnapshotOf, Marks, Name, StampTable.Valid;
    var a := HashPath(sha, p);
    var b := HashPath(sha, q);
    StartHolds(a, v);
    var start := Disk(PrintOne(Entry(a, v)), [], []);
    var t := StampTable.Restart(sha, start, Counter.SNAPSHOT_FREQUENCY - 1);
    var _ := t.Erase(p);
    assert t.table == map[] && t.disk.log == PrintOne(Entry(a, ERASED)) by {
      assert [] + PrintOne(Entry(a, ERASED)) == PrintOne(Entry(a, ERASED));
    }
    disks := t.Set(q, w, true);
    assert t.table == map[b := w] && b in t.table && t.counter == 0;
    assert StampsOnly(t.table);
    window := disks[|disks| - 2];
    WindowRecovers(window, t.disk, a, b, w);
  }
}
