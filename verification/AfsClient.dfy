/** The FUSE callbacks as they run on the cache directory and the two tables. The answers of the
    server are parameters. Each callback is proved to take its path's cell through exactly the
    inputs of the protocol's automaton that those answers are, effect by effect: after each of its
    durable effects the disk is that of the cell after some prefix of those inputs, so a crash
    there is a crash of the automaton. Other paths are left alone. */
module AfsClientOps {
  import opened Basics
  import opened Hashing
  import opened Files
  import opened Chunks
  import opened StampCodec
  import C = ClientCell
  import D = DirtyTable
  import L = LastModifiedTable
  import StampRuns
  import DirtyRuns

  type Stamp = s: Bytes | |s| == STAMP_LENGTH witness ZEROS

  /** What Stat, GetContent and Write come back with; a timestamp is a struct timespec. A download
      delivers `arrives` of its messages; it is complete only if its status is OK. */
  datatype StatReply = StatLost | StatAnswer(mtime: Option<Stamp>, index: nat)
  datatype Download = NoAnswer | NoSuchFile | Stream(index: nat, mtime: Stamp, msgs: seq<Bytes>, arrives: nat, ok: bool)
  datatype UploadReply = UploadLost | UploadDone(mtime: Stamp)
  datatype UnlinkReply = UnlinkLost | UnlinkDone(removed: bool)

  datatype Outcome = Ok | Error | Exit

  ghost function Feed(c: C.Cell, inputs: seq<C.Input>): C.Cell
  {
    if inputs == [] then c else C.Next(Feed(c, inputs[..|inputs| - 1]), inputs[|inputs| - 1])
  }

  lemma FeedSnoc(c: C.Cell, inputs: seq<C.Input>, i: C.Input)
    ensures Feed(c, inputs + [i]) == C.Next(Feed(c, inputs), i)
  {
    assert (inputs + [i])[..|inputs|] == inputs;
  }

  function StepsOf(n: nat): (steps: seq<C.Input>)
    ensures |steps| == n
  {
    seq(n, _ => C.Step)
  }

  function StatInput(stat: StatReply): C.Input
  {
    match stat
    case StatLost => C.Failed
    case StatAnswer(mtime, index) => C.StatIs(mtime, index)
  }

  /** Setting a timestamp may bring about a snapshot. */
  function Snapped(snapped: bool): seq<C.Input>
  {
    if snapped then [C.Snapshot] else []
  }

  function DownloadInputs(download: Download, snapped: bool): seq<C.Input>
  {
    match download
    case NoAnswer => [C.Failed]
    case NoSuchFile => [C.ContentAbsent, C.Step] + Snapped(snapped) + [C.Step, C.Step]
    case Stream(index, mtime, msgs, arrives, ok) =>
      [C.ContentIs(index, mtime, msgs)] + StepsOf(arrives)
      + (if ok then [C.Step, C.Step] + Snapped(snapped) + [C.Step] else [C.Failed])
  }

  /** The inputs an open on this cell consumes. No stored timestamp is the empty string. */
  ghost function OpenInputs(c: C.Cell, now: nat, stat: StatReply, download: Download, snapped: bool): seq<C.Input>
  {
    var begin := [C.Begin(C.Open, now)];
    if c.stamp.None? then begin + DownloadInputs(download, snapped)
    else if c.stamp.value == LOCAL then begin
    else if stat.StatAnswer? && stat.mtime == c.stamp then begin + [StatInput(stat)]
    else begin + [StatInput(stat), C.Step, C.Step] + DownloadInputs(download, snapped)
  }

  ghost function ReleaseInputs(c: C.Cell, now: nat, call: C.CallId, reply: UploadReply, snapped: bool): seq<C.Input>
  {
    var begin := [C.Begin(C.Release, now)];
    if !c.dirty || c.cache.None? then begin
    else begin + [C.UploadStarted(call)] + UploadInputs(reply, [C.Step, C.Step], snapped)
  }

  /** How an upload ends, and the steps it takes to note it. */
  function UploadInputs(reply: UploadReply, steps: seq<C.Input>, snapped: bool): seq<C.Input>
  {
    match reply
    case UploadLost => [C.Failed]
    case UploadDone(mtime) => [C.ReplyIs(mtime)] + steps + Snapped(snapped)
  }

  ghost function MknodInputs(c: C.Cell, now: nat, stat: StatReply, call: C.CallId, reply: UploadReply, snapped: bool): seq<C.Input>
  {
    var begin := [C.Begin(C.Mknod, now), StatInput(stat)];
    if stat.StatLost? || stat.mtime.Some? then begin
    else if c.cache.Some? then begin + [C.Step]
    else begin + [C.Step, C.UploadStarted(call)] + UploadInputs(reply, [C.Step], snapped)
  }

  // -- The client's disk ------------------------------------------------------------------------

  /** What a crash leaves: the cache directory and the files of the two tables. */
  datatype Durable = Durable(files: map<Bytes, Bytes>, flags: Disk, stamps: Disk)

  /** What the disk says of one path; a tombstone says nothing. */
  datatype PathEntry = PathEntry(cache: Option<Bytes>, stamp: Option<Bytes>, dirty: bool, marked: bool)

  function Look<V>(m: map<Bytes, V>, k: Bytes): Option<V>
  {
    if k in m then Some(m[k]) else None
  }

  function Flags(disk: Disk): map<Bytes, bool>
  {
    match D.Recover(disk)
    case None => map[]
    case Some(t) => t
  }

  ghost function OnDisk(d: Durable, name: Bytes): PathEntry
  {
    PathEntry(Look(d.files, name), Look(L.Meant(d.stamps), name), Look(Flags(d.flags), name) == Some(true), name in L.Marks(d.stamps))
  }

  function OfCell(c: C.Cell): PathEntry
  {
    PathEntry(c.cache, if c.stamp == Some(ERASED) then None else c.stamp, c.dirty, c.marked)
  }

  /** The tables' files are as the program writes them. */
  ghost predicate Readable(d: Durable)
  {
    && L.IsPrinted(d.stamps.snapshot) && L.IsPrinted(d.stamps.log)
    && D.Holds(d.flags, Flags(d.flags))
  }

  /** Another path is as it was, but for a mark that a snapshot may have dropped. */
  ghost predicate Kept(before: PathEntry, after: PathEntry)
  {
    after == before || (after == before.(marked := false) && before.stamp != Some(LOCAL))
  }

  ghost predicate OthersKept(d: Durable, e: Durable, name: Bytes)
  {
    forall n :: n != name ==> Kept(OnDisk(d, n), OnDisk(e, n))
  }

  lemma OthersKeptTwice(d: Durable, e: Durable, f: Durable, name: Bytes)
    requires OthersKept(d, e, name) && OthersKept(e, f, name)
    ensures OthersKept(d, f, name)
  {
    hide OnDisk;
    forall n | n != name ensures Kept(OnDisk(d, n), OnDisk(f, n)) {
      assert Kept(OnDisk(d, n), OnDisk(e, n)) && Kept(OnDisk(e, n), OnDisk(f, n));
    }
  }

  /** To the automaton of another path that is nothing, or a snapshot. */
  lemma KeptIsSnapshot(before: PathEntry, after: PathEntry, c: C.Cell)
    requires Kept(before, after) && OfCell(c) == before && !c.pc.Dead? && !c.pc.Exited?
    ensures after == OfCell(c) || after == OfCell(C.Next(c, C.Snapshot))
  {
    assert LOCAL != ERASED;
  }

  /** Two maps agree away from one key. */
  ghost predicate SameBut<V>(m: map<Bytes, V>, n: map<Bytes, V>, k: Bytes)
  {
    m - {k} == n - {k}
  }

  /** After any of these effects the disk is that of the cell after some of the inputs. */
  ghost predicate Through(trace: seq<Durable>, start: Durable, name: Bytes, c: C.Cell, inputs: seq<C.Input>)
  {
    forall d :: d in trace ==> Readable(d) && OthersKept(start, d, name) && ShowsSome(OnDisk(d, name), c, inputs)
  }

  ghost predicate ShowsSome(e: PathEntry, c: C.Cell, inputs: seq<C.Input>)
  {
    exists j :: 0 <= j <= |inputs| && e == OfCell(Feed(c, inputs[..j]))
  }

  lemma ShowsSomeMore(e: PathEntry, c: C.Cell, inputs: seq<C.Input>, more: seq<C.Input>)
    requires ShowsSome(e, c, inputs)
    ensures ShowsSome(e, c, inputs + more)
  {
    hide Feed;
    var j :| 0 <= j <= |inputs| && e == OfCell(Feed(c, inputs[..j]));
    assert (inputs + more)[..j] == inputs[..j];
  }

  lemma ThroughMore(trace: seq<Durable>, start: Durable, name: Bytes, c: C.Cell, inputs: seq<C.Input>, more: seq<C.Input>)
    requires Through(trace, start, name, c, inputs)
    ensures Through(trace, start, name, c, inputs + more)
  {
    hide OnDisk, OthersKept, Readable, ShowsSome;
    forall d | d in trace ensures ShowsSome(OnDisk(d, name), c, inputs + more) {
      ShowsSomeMore(OnDisk(d, name), c, inputs, more);
    }
  }

  /** Effects that show the next input, and the one after it if there is one. */
  lemma ThroughEffects(trace: seq<Durable>, more: seq<Durable>, start: Durable, name: Bytes, c: C.Cell,
                       inputs: seq<C.Input>, i: C.Input, after: seq<C.Input>)
    requires Through(trace, start, name, c, inputs)
    requires forall d :: d in more ==> Readable(d) && OthersKept(start, d, name)
    requires forall d :: d in more ==> OnDisk(d, name) == OfCell(Feed(c, inputs + [i]))
                                       || OnDisk(d, name) == OfCell(Feed(c, inputs + [i] + after))
    ensures Through(trace + more, start, name, c, inputs + [i] + after)
  {
    hide OnDisk, OthersKept, Readable, Feed;
    var all := inputs + [i] + after;
    ThroughMore(trace, start, name, c, inputs, [i] + after);
    assert inputs + ([i] + after) == all;
    assert all[..|inputs| + 1] == inputs + [i] && all[..|all|] == all;
    forall d | d in more ensures ShowsSome(OnDisk(d, name), c, all) {
    }
  }

  // -- One effect --------------------------------------------------------------------------------

  /** A table whose value for one key was set, on a disk with at most the marks that record adds. */
  lemma StampDisk(d: Durable, disk: Disk, t: L.Stamps, name: Bytes, value: Bytes)
    requires L.Holds(d.stamps, t) && L.Holds(disk, t[name := value])
    requires L.Marks(disk) <= L.MarksWith(d.stamps, name, value)
    ensures var e, was := d.(stamps := disk), OnDisk(d, name);
      && OthersKept(d, e, name)
      && (OnDisk(e, name) == StampedEntry(was, value, was.marked || value == LOCAL) || OnDisk(e, name) == StampedEntry(was, value, value == LOCAL))
      && (name in L.Marks(disk) <==> OnDisk(e, name).marked)
  {
    hide L.Holds, L.Marks, L.Meant, Flags;
    var e := d.(stamps := disk);
    L.LocalIsMarked(disk, t[name := value]);
    MeantIsLive(d.stamps, t);
    MeantIsLive(disk, t[name := value]);
    forall n | n != name ensures Kept(OnDisk(d, n), OnDisk(e, n)) {
      assert n in L.Live(t) <==> n in L.Live(t[name := value]);
    }
  }

  function StampedEntry(e: PathEntry, value: Bytes, marked: bool): PathEntry
  {
    e.(stamp := if value == ERASED then None else Some(value), marked := marked)
  }

  lemma MeantIsLive(disk: Disk, t: L.Stamps)
    requires L.Holds(disk, t)
    ensures L.Meant(disk) == L.Live(t)
    ensures L.IsPrinted(disk.snapshot) && L.IsPrinted(disk.log)
  {
  }

  lemma EraseDisk(d: Durable, disk: Disk, t: L.Stamps, name: Bytes)
    requires L.Holds(d.stamps, t) && L.Holds(disk, t - {name}) && L.Marks(disk) == L.Marks(d.stamps)
    ensures var e := d.(stamps := disk);
      OthersKept(d, e, name) && OnDisk(e, name) == OnDisk(d, name).(stamp := None)
  {
    hide L.Holds, L.Marks, L.Meant, Flags;
    var e := d.(stamps := disk);
    MeantIsLive(d.stamps, t);
    MeantIsLive(disk, t - {name});
    forall n | n != name ensures Kept(OnDisk(d, n), OnDisk(e, n)) {
      assert n in L.Live(t) <==> n in L.Live(t - {name});
    }
  }

  lemma FlagDisk(d: Durable, disk: Disk, t: map<Bytes, bool>, u: map<Bytes, bool>, name: Bytes)
    requires D.Holds(d.flags, t) && D.Holds(disk, u) && SameBut(t, u, name)
    ensures var e := d.(flags := disk);
      && OthersKept(d, e, name) && D.Holds(disk, Flags(disk))
      && OnDisk(e, name) == OnDisk(d, name).(dirty := Look(u, name) == Some(true))
  {
    hide L.Marks, L.Meant, D.NamesOnly, D.IsPrinted;
    var e := d.(flags := disk);
    forall n | n != name ensures Kept(OnDisk(d, n), OnDisk(e, n)) {
      assert n in t - {name} <==> n in u - {name};
      assert n in t ==> (t - {name})[n] == (u - {name})[n];
    }
  }

  lemma FileDisk(d: Durable, files: map<Bytes, Bytes>, name: Bytes)
    requires SameBut(d.files, files, name)
    ensures var e := d.(files := files);
      OthersKept(d, e, name) && OnDisk(e, name) == OnDisk(d, name).(cache := Look(files, name))
  {
    hide L.Marks, L.Meant, Flags;
    var e := d.(files := files);
    forall n | n != name ensures Kept(OnDisk(d, n), OnDisk(e, n)) {
      assert n in d.files - {name} <==> n in files - {name};
      assert n in d.files ==> (d.files - {name})[n] == (files - {name})[n];
    }
  }

  // -- The client --------------------------------------------------------------------------------

  /** Where a callback stands: it began with this disk, these tables and this cell, and the cell
      has been given these inputs. */
  datatype Progress = Progress(start: Durable, stamps: map<Bytes, Bytes>, flags: map<Bytes, bool>, cell: C.Cell, made: seq<C.Input>)

  ghost function Reached(p: Progress): C.Cell
  {
    Feed(p.cell, p.made)
  }

  ghost function Made(p: Progress, i: C.Input): Progress
  {
    p.(made := p.made + [i])
  }

  lemma ReachedNext(p: Progress, i: C.Input)
    ensures Reached(Made(p, i)) == C.Next(Reached(p), i)
  {
    FeedSnoc(p.cell, p.made, i);
  }

  /** The input moves these four and nothing else on the disk. */
  ghost predicate Moves(c: C.Cell, i: C.Input, cache: Option<Bytes>, stamp: Option<Bytes>, dirty: bool, marked: bool)
  {
    var d := C.Next(c, i);
    d.cache == cache && d.stamp == stamp && d.dirty == dirty && d.marked == marked
  }

  lemma SnapshotNext(c: C.Cell)
    requires !c.pc.Exited? && !c.pc.Dead?
    ensures C.Next(c, C.Snapshot) == c.(marked := c.stamp == Some(LOCAL))
  {
  }

  function StampTrace(d: Durable, disks: seq<Disk>): (trace: seq<Durable>)
    ensures |trace| == |disks|
  {
    seq(|disks|, i requires 0 <= i < |disks| => d.(stamps := disks[i]))
  }

  function FlagTrace(d: Durable, disks: seq<Disk>): (trace: seq<Durable>)
    ensures |trace| == |disks|
  {
    seq(|disks|, i requires 0 <= i < |disks| => d.(flags := disks[i]))
  }

  /** The cell in these files and tables; the handle is left aside. */
  ghost predicate IsCell(c: C.Cell, d: Durable, stamps: L.Stamps, flags: map<Bytes, bool>, name: Bytes)
  {
    && c.cache == Look(d.files, name)
    && c.stamp == Look(stamps, name)
    && c.dirty == (Look(flags, name) == Some(true))
    && c.marked == (name in L.Marks(d.stamps))
  }

  /** The disk is one on which these tables are kept. */
  ghost predicate Keeps(d: Durable, stamps: L.Stamps, flags: map<Bytes, bool>)
  {
    L.Holds(d.stamps, stamps) && D.Holds(d.flags, flags)
  }

  /** A callback on this name stands at p, with this disk and these tables, having gone through
      these states of the disk. */
  ghost predicate Position(p: Progress, d: Durable, stamps: L.Stamps, flags: map<Bytes, bool>, name: Bytes, trace: seq<Durable>)
  {
    && IsCell(Reached(p), d, stamps, flags, name)
    && Through(trace, p.start, name, p.cell, p.made)
    && d == (if trace == [] then p.start else trace[|trace| - 1])
    && OthersKept(p.start, d, name)
    && SameBut(stamps, p.stamps, name) && SameBut(flags, p.flags, name)
  }

  lemma Begins(d: Durable, stamps: L.Stamps, flags: map<Bytes, bool>, name: Bytes, c: C.Cell)
    requires IsCell(c, d, stamps, flags, name)
    ensures Position(Progress(d, stamps, flags, c, []), d, stamps, flags, name, [])
  {
    hide OnDisk, L.Marks;
    assert forall n :: Kept(OnDisk(d, n), OnDisk(d, n));
  }

  lemma CellOnDisk(d: Durable, stamps: L.Stamps, flags: map<Bytes, bool>, name: Bytes, c: C.Cell)
    requires Keeps(d, stamps, flags) && IsCell(c, d, stamps, flags, name)
    ensures Readable(d) && OnDisk(d, name) == OfCell(c) && Flags(d.flags) == flags
  {
    hide L.Marks, L.Meant, L.Holds;
    MeantIsLive(d.stamps, stamps);
  }

  /** An input that moves nothing on the disk. */
  lemma Quiet(p: Progress, i: C.Input, d: Durable, stamps: L.Stamps, flags: map<Bytes, bool>, name: Bytes, trace: seq<Durable>)
    requires Position(p, d, stamps, flags, name, trace)
    requires var c := Reached(p); Moves(c, i, c.cache, c.stamp, c.dirty, c.marked)
    ensures Position(Made(p, i), d, stamps, flags, name, trace) && Reached(Made(p, i)) == C.Next(Reached(p), i)
  {
    hide OnDisk, C.Next, Feed, Through, L.Marks, OthersKept;
    ReachedNext(p, i);
    ThroughMore(trace, p.start, name, p.cell, p.made, [i]);
  }

  /** One effect that shows one input. */
  lemma Effect(p: Progress, i: C.Input, d: Durable, stamps: L.Stamps, flags: map<Bytes, bool>, name: Bytes, trace: seq<Durable>,
               e: Durable, stamps': L.Stamps, flags': map<Bytes, bool>)
    requires Position(p, d, stamps, flags, name, trace)
    requires Keeps(e, stamps', flags') && IsCell(C.Next(Reached(p), i), e, stamps', flags', name)
    requires OthersKept(d, e, name) && SameBut(stamps', stamps, name) && SameBut(flags', flags, name)
    ensures Position(Made(p, i), e, stamps', flags', name, trace + [e]) && Reached(Made(p, i)) == C.Next(Reached(p), i)
  {
    hide OnDisk, C.Next, Feed, Through, L.Marks, OthersKept, Keeps, Readable;
    ReachedNext(p, i);
    CellOnDisk(e, stamps', flags', name, C.Next(Reached(p), i));
    OthersKeptTwice(p.start, d, e, name);
    assert p.made + [i] + [] == p.made + [i];
    ThroughEffects(trace, [e], p.start, name, p.cell, p.made, i, []);
  }

  lemma FileEffect(p: Progress, i: C.Input, d: Durable, stamps: L.Stamps, flags: map<Bytes, bool>, name: Bytes, trace: seq<Durable>,
                   files: map<Bytes, Bytes>)
    requires Position(p, d, stamps, flags, name, trace) && Keeps(d, stamps, flags) && SameBut(d.files, files, name)
    requires var c := Reached(p); Moves(c, i, Look(files, name), c.stamp, c.dirty, c.marked)
    ensures var e := d.(files := files); Position(Made(p, i), e, stamps, flags, name, trace + [e])
    ensures Reached(Made(p, i)) == C.Next(Reached(p), i)
  {
    hide OnDisk, C.Next, Feed, Through, L.Marks, OthersKept, L.Holds, D.Holds, Reached;
    FileDisk(d, files, name);
    Effect(p, i, d, stamps, flags, name, trace, d.(files := files), stamps, flags);
  }

  lemma EraseEffect(p: Progress, d: Durable, stamps: L.Stamps, flags: map<Bytes, bool>, name: Bytes, trace: seq<Durable>, disks: seq<Disk>)
    requires Position(p, d, stamps, flags, name, trace) && Keeps(d, stamps, flags)
    requires var c := Reached(p); Moves(c, C.Step, c.cache, None, c.dirty, c.marked)
    requires |disks| <= 1 && (disks == [] ==> name !in stamps)
    requires disks != [] ==> L.Holds(disks[0], stamps - {name}) && L.Marks(disks[0]) == L.Marks(d.stamps)
    ensures Position(Made(p, C.Step), d.(stamps := if disks == [] then d.stamps else disks[0]), stamps - {name}, flags, name,
                     trace + StampTrace(d, disks))
    ensures Reached(Made(p, C.Step)) == C.Next(Reached(p), C.Step)
  {
    hide OnDisk, C.Next, Feed, Through, L.Marks, OthersKept, L.Holds, D.Holds, Reached;
    if disks == [] {
      assert stamps - {name} == stamps && trace + StampTrace(d, disks) == trace;
      Quiet(p, C.Step, d, stamps, flags, name, trace);
    } else {
      EraseDisk(d, disks[0], stamps, name);
      assert StampTrace(d, disks) == [d.(stamps := disks[0])];
      assert (stamps - {name}) - {name} == stamps - {name};
      Effect(p, C.Step, d, stamps, flags, name, trace, d.(stamps := disks[0]), stamps - {name}, flags);
    }
  }

  /** A flag set or erased: the record, then perhaps a snapshot, all of them the new table. */
  lemma FlagEffects(p: Progress, i: C.Input, d: Durable, stamps: L.Stamps, flags: map<Bytes, bool>, name: Bytes, trace: seq<Durable>,
                    flags': map<Bytes, bool>, disks: seq<Disk>)
    requires Position(p, d, stamps, flags, name, trace) && Keeps(d, stamps, flags)
    requires var c := Reached(p); Moves(c, i, c.cache, c.stamp, Look(flags', name) == Some(true), c.marked)
    requires D.AllHold(disks, flags') && SameBut(flags', flags, name) && (disks == [] ==> flags' == flags)
    ensures Position(Made(p, i), d.(flags := if disks == [] then d.flags else disks[|disks| - 1]), stamps, flags', name,
                     trace + FlagTrace(d, disks))
    ensures Reached(Made(p, i)) == C.Next(Reached(p), i)
  {
    hide OnDisk, C.Next, Feed, Through, L.Marks, OthersKept, L.Holds, D.Holds, Readable;
    ReachedNext(p, i);
    if disks == [] {
      assert trace + FlagTrace(d, disks) == trace;
      Quiet(p, i, d, stamps, flags, name, trace);
    } else {
      forall e | e in FlagTrace(d, disks)
        ensures Readable(e) && OthersKept(p.start, e, name) && OnDisk(e, name) == OfCell(Feed(p.cell, p.made + [i]))
      {
        var k :| 0 <= k < |disks| && e == d.(flags := disks[k]);
        FlagDisk(d, disks[k], flags, flags', name);
        OthersKeptTwice(p.start, d, e, name);
        CellOnDisk(e, stamps, flags', name, C.Next(Reached(p), i));
      }
      assert p.made + [i] + [] == p.made + [i];
      ThroughEffects(trace, FlagTrace(d, disks), p.start, name, p.cell, p.made, i, []);
    }
  }

  /** A timestamp set: the record, then perhaps a snapshot. */
  lemma StampEffects(p: Progress, d: Durable, stamps: L.Stamps, flags: map<Bytes, bool>, name: Bytes, trace: seq<Durable>,
                     value: Bytes, disks: seq<Disk>, snapped: bool)
    requires Position(p, d, stamps, flags, name, trace) && Keeps(d, stamps, flags)
    requires var c := Reached(p); Moves(c, C.Step, c.cache, Some(value), c.dirty, c.marked || value == LOCAL)
    requires var pc := C.Next(Reached(p), C.Step).pc; !pc.Exited? && !pc.Dead?
    requires L.AllHold(disks, stamps[name := value], L.MarksWith(d.stamps, name, value))
    requires disks == [] ==> !snapped && stamps[name := value] == stamps && L.Marks(d.stamps) == L.MarksWith(d.stamps, name, value)
    requires !snapped ==> |disks| <= 1
    requires disks != [] ==> L.Marks(disks[|disks| - 1]) == MarksThen(d, stamps, name, value, snapped)
    ensures var q := p.(made := p.made + [C.Step] + Snapped(snapped));
      && Position(q, d.(stamps := if disks == [] then d.stamps else disks[|disks| - 1]), stamps[name := value], flags, name,
                  trace + StampTrace(d, disks))
      && Reached(q) == if snapped then C.Next(C.Next(Reached(p), C.Step), C.Snapshot) else C.Next(Reached(p), C.Step)
  {
    hide Feed, C.Next, Through, OthersKept, L.Marks, OnDisk, L.Holds, Readable, L.MarksWith, D.Holds, L.LocalKeys;
    var c, c1, q := Reached(p), C.Next(Reached(p), C.Step), p.(made := p.made + [C.Step] + Snapped(snapped));
    AfterStamp(p, snapped);
    CellOnDisk(d, stamps, flags, name, c);
    forall e | e in StampTrace(d, disks)
      ensures Readable(e) && OthersKept(p.start, e, name)
      ensures OnDisk(e, name) == OfCell(Feed(p.cell, p.made + [C.Step])) || OnDisk(e, name) == OfCell(Reached(q))
    {
      var k :| 0 <= k < |disks| && e == d.(stamps := disks[k]);
      StampDisk(d, disks[k], stamps, name, value);
      OthersKeptTwice(p.start, d, e, name);
      StampReadable(d, disks[k], stamps[name := value]);
      OneStamp(d, disks[k], name, value, c, c1, snapped);
    }
    ThroughEffects(trace, StampTrace(d, disks), p.start, name, p.cell, p.made, C.Step, Snapped(snapped));
    LastMark(d, disks, stamps, name, value, snapped);
    assert SameBut(stamps[name := value], p.stamps, name) by {
      assert stamps[name := value] - {name} == stamps - {name};
    }
  }

  lemma AfterStamp(p: Progress, snapped: bool)
    requires var pc := C.Next(Reached(p), C.Step).pc; !pc.Exited? && !pc.Dead?
    ensures var c1, q := C.Next(Reached(p), C.Step), p.(made := p.made + [C.Step] + Snapped(snapped));
      && Feed(p.cell, p.made + [C.Step]) == c1
      && Reached(q) == (if snapped then C.Next(c1, C.Snapshot) else c1)
      && (snapped ==> Reached(q) == c1.(marked := c1.stamp == Some(LOCAL)))
  {
    hide C.Next;
    ReachedNext(p, C.Step);
    ReachedNext(Made(p, C.Step), C.Snapshot);
    SnapshotNext(C.Next(Reached(p), C.Step));
    assert p.made + [C.Step] + [] == p.made + [C.Step];
  }

  function MarksThen(d: Durable, stamps: L.Stamps, name: Bytes, value: Bytes, snapped: bool): set<Bytes>
  {
    if snapped then L.LocalKeys(stamps[name := value]) else L.MarksWith(d.stamps, name, value)
  }

  lemma LastMark(d: Durable, disks: seq<Disk>, stamps: L.Stamps, name: Bytes, value: Bytes, snapped: bool)
    requires disks != [] ==> L.Marks(disks[|disks| - 1]) == MarksThen(d, stamps, name, value, snapped)
    requires disks == [] ==> !snapped && L.Marks(d.stamps) == L.MarksWith(d.stamps, name, value)
    ensures var last := if disks == [] then d.stamps else disks[|disks| - 1];
      name in L.Marks(last) <==> value == LOCAL || (!snapped && name in L.Marks(d.stamps))
  {
    hide L.Marks;
  }

  lemma StampReadable(d: Durable, disk: Disk, t: L.Stamps)
    requires Readable(d) && L.Holds(disk, t)
    ensures Readable(d.(stamps := disk))
  {
    MeantIsLive(disk, t);
  }

  lemma OneStamp(d: Durable, disk: Disk, name: Bytes, value: Bytes, c: C.Cell, c1: C.Cell, snapped: bool)
    requires OnDisk(d, name) == OfCell(c) && c1.cache == c.cache && c1.stamp == Some(value) && c1.dirty == c.dirty
    requires c1.marked == (c.marked || value == LOCAL)
    requires var e, was := d.(stamps := disk), OnDisk(d, name);
      || OnDisk(e, name) == StampedEntry(was, value, was.marked || value == LOCAL)
      || OnDisk(e, name) == StampedEntry(was, value, value == LOCAL)
    requires !snapped ==> L.Marks(disk) == L.MarksWith(d.stamps, name, value)
    ensures var e := OnDisk(d.(stamps := disk), name);
      e == OfCell(c1) || (snapped && e == OfCell(c1.(marked := c1.stamp == Some(LOCAL))))
  {
    hide L.Marks, L.Meant, Flags;
  }

  class AfsClient {
    const sha: Bytes -> Digest
    var files: map<Bytes, Bytes>            // the cache directory
    var handles: map<Bytes, C.Handle>       // the kernel's handles, by cache file name
    const isDirty: D.IsDirtyTable
    const lastModified: L.StampTable

    ghost predicate Valid()
      reads this, isDirty, lastModified
    {
      isDirty.Valid() && lastModified.Valid() && lastModified.framed && isDirty.sha == sha && lastModified.sha == sha
    }

    /** What a crash at this moment would leave. */
    function Now(): Durable
      reads this, isDirty, lastModified
    {
      Durable(files, isDirty.disk, lastModified.disk)
    }

    ghost predicate Shows(path: Bytes, c: C.Cell)
      reads this, isDirty, lastModified
    {
      && IsCell(c, Now(), lastModified.table, isDirty.table, Name(sha, path))
      && c.handle == HandleOf(path)
    }

    ghost predicate At(p: Progress, path: Bytes, trace: seq<Durable>)
      reads this, isDirty, lastModified
    {
      Position(p, Now(), lastModified.table, isDirty.table, Name(sha, path), trace)
    }

    /** What a whole callback promises: from this start it gave the cell these inputs, which bring it
        to the callback's end, and a crash after any of its effects finds the cell after some of
        them; nothing else changed. */
    ghost predicate Did(path: Bytes, c: C.Cell, inputs: seq<C.Input>, trace: seq<Durable>, start: Durable,
                        stamps: L.Stamps, flags: map<Bytes, bool>)
      reads this, isDirty, lastModified
    {
      && Shows(path, Feed(c, inputs)) && (Feed(c, inputs).pc.Idle? || Feed(c, inputs).pc.Exited?)
      && At(Progress(start, stamps, flags, c, inputs), path, trace)
    }

    constructor (sha: Bytes -> Digest, files: map<Bytes, Bytes>, isDirty: D.IsDirtyTable, lastModified: L.StampTable)
      requires isDirty.Valid() && lastModified.Valid() && lastModified.framed && isDirty.sha == sha && lastModified.sha == sha
      ensures Valid() && this.sha == sha && this.files == files && handles == map[]
      ensures this.isDirty == isDirty && this.lastModified == lastModified
    {
      this.sha, this.files, this.handles := sha, files, map[];
      this.isDirty, this.lastModified := isDirty, lastModified;
    }

    /** A start of the client on what a crash left: none if a local file's mark is there, else every
        path's cell is restarted. */
    static method Start(sha: Bytes -> Digest, d: Durable, flagCounter: int, stampCounter: int) returns (client: AfsClient?)
      requires Readable(d)
      ensures client == null <==> L.Marks(d.stamps) != {}
      ensures client != null ==> fresh(client) && client.Valid() && client.sha == sha && client.files == d.files && client.handles == map[]
      ensures client != null ==> forall path, c: C.Cell :: OnDisk(d, Name(sha, path)) == OfCell(c) && !c.pc.Dead? ==>
        client.Shows(path, C.Restarted(c, Look(client.lastModified.table, Name(sha, path)) == Some(ERASED), false))
    {
      hide D.IsDirtyTable.Valid, L.StampTable.Valid, OnDisk, L.Marks, L.Meant, D.Holds, L.Holds, IsCell;
      DiskHolds(d);
      var stamps := L.StampTable.Restart(sha, d.stamps, stampCounter);
      if stamps == null {
        return null;
      }
      var flags := DirtyRuns.Reopen(sha, d.flags, flagCounter, Flags(d.flags));
      client := new AfsClient(sha, d.files, flags, stamps);
      forall path, c: C.Cell | OnDisk(d, Name(sha, path)) == OfCell(c) && !c.pc.Dead?
        ensures client.Shows(path, C.Restarted(c, Look(client.lastModified.table, Name(sha, path)) == Some(ERASED), false))
      {
        RestartedIsCell(d, client.Now(), stamps.table, flags.table, Name(sha, path), c);
      }
    }

    /** A crash after any effect of a callback, and the next start: that of the automaton's cell
        after some of the callback's inputs. */
    static method CrashInside(sha: Bytes -> Digest, path: Bytes, trace: seq<Durable>, k: nat, flagCounter: int, stampCounter: int,
                              ghost start: Durable, ghost c: C.Cell, ghost inputs: seq<C.Input>)
      returns (client: AfsClient?, ghost j: nat)
      requires Through(trace, start, Name(sha, path), c, inputs) && k < |trace|
      requires !c.pc.Dead? && forall i :: i in inputs ==> !i.Crash?
      ensures j <= |inputs| && OnDisk(trace[k], Name(sha, path)) == OfCell(Feed(c, inputs[..j]))
      ensures client == null <==> L.Marks(trace[k].stamps) != {}
      ensures Feed(c, inputs[..j]).marked ==> client == null
      ensures client != null ==> fresh(client) && client.Valid() && client.Shows(path,
        C.Restarted(Feed(c, inputs[..j]), Look(client.lastModified.table, Name(sha, path)) == Some(ERASED), false))
    {
      hide Feed, OthersKept, L.Marks, Readable;
      var d := trace[k];
      assert ShowsSome(OnDisk(d, Name(sha, path)), c, inputs) && Readable(d);
      j :| 0 <= j <= |inputs| && OnDisk(d, Name(sha, path)) == OfCell(Feed(c, inputs[..j]));
      NotDead(c, inputs[..j]);
      client := Start(sha, d, flagCounter, stampCounter);
    }

    // -- Effects of the callbacks ----------------------------------------------------------------

    method SetStamp(path: Bytes, stamp: Bytes, before: seq<Durable>, ghost p: Progress)
      returns (trace: seq<Durable>, ghost q: Progress, ghost snapped: bool)
      requires Valid() && At(p, path, before) && IsValue(stamp)
      requires var c := Reached(p); Moves(c, C.Step, c.cache, Some(stamp), c.dirty, c.marked || stamp == LOCAL)
      requires var pc := C.Next(Reached(p), C.Step).pc; !pc.Exited? && !pc.Dead?
      modifies lastModified
      ensures Valid() && At(q, path, trace)
      ensures q == p.(made := p.made + [C.Step] + Snapped(snapped))
      ensures Reached(q) == if snapped then C.Next(C.Next(Reached(p), C.Step), C.Snapshot) else C.Next(Reached(p), C.Step)
    {
      hide D.IsDirtyTable.Valid, L.StampTable.Valid, Feed, C.Next, Position, L.Marks, L.MarksWith, L.LocalKeys, L.AllHold, L.Holds, D.Holds, Moves, Reached;
      ghost var d, t := Now(), lastModified.table;
      KeepsNow();
      var tmpOpens: bool := *;
      var disks := lastModified.Set(path, stamp, tmpOpens);
      snapped := lastModified.table != t && lastModified.counter == 0 && tmpOpens;
      trace := before + StampTrace(Now(), disks);
      assert StampTrace(Now(), disks) == StampTrace(d, disks);
      q := p.(made := p.made + [C.Step] + Snapped(snapped));
      StampEffects(p, d, t, isDirty.table, Name(sha, path), before, stamp, disks, snapped);
    }

    lemma KeepsNow()
      requires Valid()
      ensures Keeps(Now(), lastModified.table, isDirty.table)
      ensures L.StampsOnly(lastModified.table)
    {
      hide L.Holds, D.Holds;
      StampRuns.ValidHolds(lastModified);
      DirtyRuns.ValidHolds(isDirty);
    }

    method EraseStamp(path: Bytes, before: seq<Durable>, ghost p: Progress) returns (trace: seq<Durable>)
      requires Valid() && At(p, path, before)
      requires var c := Reached(p); Moves(c, C.Step, c.cache, None, c.dirty, c.marked)
      modifies lastModified
      ensures Valid() && At(Made(p, C.Step), path, trace) && Reached(Made(p, C.Step)) == C.Next(Reached(p), C.Step)
    {
      hide D.IsDirtyTable.Valid, L.StampTable.Valid, Feed, C.Next, Position, L.Marks, L.AllHold, L.Holds, D.Holds, Moves, Reached;
      ghost var d, t := Now(), lastModified.table;
      KeepsNow();
      var disks := lastModified.Erase(path);
      KeepsNow();
      trace := before + StampTrace(Now(), disks);
      assert StampTrace(Now(), disks) == StampTrace(d, disks);
      EraseEffect(p, d, t, isDirty.table, Name(sha, path), before, disks);
    }

    method SetFlag(path: Bytes, state: bool, before: seq<Durable>, ghost p: Progress, ghost i: C.Input) returns (trace: seq<Durable>)
      requires Valid() && At(p, path, before)
      requires var c := Reached(p); Moves(c, i, c.cache, c.stamp, state, c.marked)
      modifies isDirty
      ensures Valid() && At(Made(p, i), path, trace) && Reached(Made(p, i)) == C.Next(Reached(p), i)
    {
      hide D.IsDirtyTable.Valid, L.StampTable.Valid, Feed, C.Next, Position, L.Marks, D.AllHold, L.Holds, D.Holds, Moves, Reached;
      ghost var d, t := Now(), isDirty.table;
      KeepsNow();
      var tmpOpens: bool := *;
      var disks := isDirty.Set(path, state, tmpOpens);
      trace := before + FlagTrace(Now(), disks);
      assert FlagTrace(Now(), disks) == FlagTrace(d, disks);
      FlagEffects(p, i, d, lastModified.table, t, Name(sha, path), before, isDirty.table, disks);
    }

    method EraseFlag(path: Bytes, before: seq<Durable>, ghost p: Progress) returns (trace: seq<Durable>)
      requires Valid() && At(p, path, before)
      requires var c := Reached(p); Moves(c, C.Step, c.cache, c.stamp, false, c.marked)
      modifies isDirty
      ensures Valid() && At(Made(p, C.Step), path, trace) && Reached(Made(p, C.Step)) == C.Next(Reached(p), C.Step)
    {
      hide D.IsDirtyTable.Valid, L.StampTable.Valid, Feed, C.Next, Position, L.Marks, D.AllHold, L.Holds, D.Holds, Moves, Reached;
      ghost var d, t := Now(), isDirty.table;
      KeepsNow();
      var disks := isDirty.Erase(path);
      assert disks == [] ==> isDirty.table == t;
      trace := before + FlagTrace(Now(), disks);
      assert FlagTrace(Now(), disks) == FlagTrace(d, disks);
      FlagEffects(p, C.Step, d, lastModified.table, t, Name(sha, path), before, isDirty.table, disks);
    }

    /** The cache file is created, truncated or written. */
    method PutFile(path: Bytes, data: Bytes, before: seq<Durable>, ghost p: Progress, ghost i: C.Input) returns (trace: seq<Durable>)
      requires Valid() && At(p, path, before)
      requires var c := Reached(p); Moves(c, i, Some(data), c.stamp, c.dirty, c.marked)
      modifies this`files
      ensures Valid() && At(Made(p, i), path, trace) && Reached(Made(p, i)) == C.Next(Reached(p), i)
      ensures files == old(files)[Name(sha, path) := data]
    {
      hide D.IsDirtyTable.Valid, L.StampTable.Valid, Feed, C.Next, Position, L.Marks, L.Holds, D.Holds, Moves, Reached;
      ghost var d := Now();
      KeepsNow();
      var name := HashPath(sha, path);
      files := files[name := data];
      trace := before + [Now()];
      FileEffect(p, i, d, lastModified.table, isDirty.table, name, before, files);
    }

    method RemoveFile(path: Bytes, before: seq<Durable>, ghost p: Progress, ghost i: C.Input) returns (trace: seq<Durable>)
      requires Valid() && At(p, path, before)
      requires var c := Reached(p); Moves(c, i, None, c.stamp, c.dirty, c.marked)
      modifies this`files
      ensures Valid() && At(Made(p, i), path, trace) && Reached(Made(p, i)) == C.Next(Reached(p), i)
    {
      hide D.IsDirtyTable.Valid, L.StampTable.Valid, Feed, C.Next, Position, L.Marks, L.Holds, D.Holds, Moves, Reached;
      ghost var d := Now();
      KeepsNow();
      var name := HashPath(sha, path);
      files := files - {name};
      trace := before + [Now()];
      FileEffect(p, i, d, lastModified.table, isDirty.table, name, before, files);
    }

    /** fi->fh = open(cachepath(path)) */
    method OpenHandle(path: Bytes, ghost p: Progress, ghost trace: seq<Durable>)
      requires Valid() && At(p, path, trace)
      modifies this`handles
      ensures Valid() && At(p, path, trace)
      ensures HandleOf(path) == if Name(sha, path) in files then C.Live else C.Detached
      ensures SameBut(handles, old(handles), Name(sha, path))
    {
      hide Position;
      var name := HashPath(sha, path);
      handles := handles[name := if name in files then C.Live else C.Detached];
    }

    method CloseHandle(path: Bytes, ghost p: Progress, ghost trace: seq<Durable>)
      requires Valid() && At(p, path, trace)
      modifies this`handles
      ensures Valid() && At(p, path, trace)
      ensures HandleOf(path) == C.Closed && SameBut(handles, old(handles), Name(sha, path))
    {
      hide Position;
      var name := HashPath(sha, path);
      handles := handles - {name};
    }

    /** The file was unlinked under the handle. */
    method DetachHandle(path: Bytes, ghost p: Progress, ghost trace: seq<Durable>)
      requires Valid() && At(p, path, trace)
      modifies this`handles
      ensures Valid() && At(p, path, trace)
      ensures HandleOf(path) == if old(HandleOf(path)).Closed? then C.Closed else C.Detached
      ensures SameBut(handles, old(handles), Name(sha, path))
    {
      hide Position;
      var name := HashPath(sha, path);
      if name in handles && !handles[name].Closed? {
        handles := handles[name := C.Detached];
      }
    }

    function HandleOf(path: Bytes): C.Handle
      reads this
    {
      if Name(sha, path) in handles then handles[Name(sha, path)] else C.Closed
    }

    // -- The callbacks ---------------------------------------------------------------------------

    lemma NoEffect(p: Progress, path: Bytes, trace: seq<Durable>, i: C.Input)
      requires At(p, path, trace)
      requires var c := Reached(p); Moves(c, i, c.cache, c.stamp, c.dirty, c.marked)
      ensures At(Made(p, i), path, trace) && Reached(Made(p, i)) == C.Next(Reached(p), i)
    {
      hide Position, Moves, Feed;
      Quiet(p, i, Now(), lastModified.table, isDirty.table, Name(sha, path), trace);
    }

    lemma Started(path: Bytes, c: C.Cell)
      requires Shows(path, c)
      ensures var p := Progress(Now(), lastModified.table, isDirty.table, c, []); At(p, path, []) && Reached(p) == c
      ensures c.handle == HandleOf(path)
    {
      hide Position;
      Begins(Now(), lastModified.table, isDirty.table, Name(sha, path), c);
    }

    /** The path's files and tables, as the cell has them. */
    lemma Knows(p: Progress, path: Bytes, trace: seq<Durable>)
      requires Valid() && At(p, path, trace)
      ensures var c, name := Reached(p), Name(sha, path);
        && c.cache == Look(files, name) && c.stamp == Look(lastModified.table, name)
        && c.dirty == (Look(isDirty.table, name) == Some(true)) && c.stamp != Some([])
        && isDirty.sha == sha && lastModified.sha == sha
    {
      hide Through, OthersKept, L.Marks, Reached, D.IsDirtyTable.Valid, L.StampTable.Valid;
      KeepsNow();
    }

    lemma Ended(p: Progress, path: Bytes, trace: seq<Durable>, c: C.Cell, inputs: seq<C.Input>)
      requires At(p, path, trace) && p.cell == c && p.made == inputs
      requires Reached(p).handle == HandleOf(path) && (Reached(p).pc.Idle? || Reached(p).pc.Exited?)
      ensures Did(path, c, inputs, trace, p.start, p.stamps, p.flags) && Feed(c, inputs) == Reached(p)
    {
      hide Through, OthersKept, L.Marks, Feed;
    }

    /** afs_write: the dirty flag is set before the bytes are written. */
    method Write(path: Bytes, now: nat, offset: nat, bytes: Bytes, succeeds: bool, ghost c: C.Cell)
      returns (r: Outcome, trace: seq<Durable>)
      requires Valid() && Shows(path, c) && c.pc.Idle? && !c.handle.Closed? && (c.handle.Live? ==> c.cache.Some?)
      modifies this`files, isDirty
      ensures Valid() && Did(path, c, [C.Begin(C.Write(offset, bytes), now), if succeeds then C.Step else C.Failed], trace,
                             old(Now()), old(lastModified.table), old(isDirty.table))
      ensures r == if succeeds then Ok else Error
    {
      hide D.IsDirtyTable.Valid, L.StampTable.Valid, Feed, Position, L.Marks, Reached, Did, C.Next, Moves, IsCell, Through, Chunked, Joined, AfsClient.Valid, AfsClient.At;
      ghost var p, e := Progress(Now(), lastModified.table, isDirty.table, c, []), c;
      Started(path, c);
      ghost var begin, end := C.Begin(C.Write(offset, bytes), now), if succeeds then C.Step else C.Failed;
      WriteBegins(e, now, offset, bytes);
      trace := SetFlag(path, true, [], p, begin);
      p, e := Made(p, begin), C.Next(e, begin);
      Knows(p, path, trace);
      WriteEnds(e, end);
      var name := HashPath(sha, path);
      if succeeds && HandleOf(path).Live? {
        trace := PutFile(path, C.PWrite(files[name], offset, bytes), trace, p, end);
      } else {
        NoEffect(p, path, trace, end);
      }
      Ended(Made(p, end), path, trace, c, [begin, end]);
      r := if succeeds then Ok else Error;
    }

    /** afs_unlink: cache file, timestamp, dirty flag, then the server. The reply of a server that was
        not reached reads as success. */
    method Unlink(path: Bytes, now: nat, reply: UnlinkReply, ghost c: C.Cell)
      returns (r: Outcome, trace: seq<Durable>)
      requires Valid() && Shows(path, c) && c.pc.Idle?
      modifies this`files, this`handles, isDirty, lastModified
      ensures Valid() && Did(path, c, [C.Begin(C.Unlink, now), C.Step, C.Step, if reply.UnlinkDone? then C.Step else C.Failed], trace,
                             old(Now()), old(lastModified.table), old(isDirty.table))
      ensures r == if reply == UnlinkDone(false) then Error else Ok
      ensures SameBut(handles, old(handles), Name(sha, path))
    {
      hide D.IsDirtyTable.Valid, L.StampTable.Valid, Feed, Position, L.Marks, Reached, Did, C.Next, Moves, IsCell, Through, Chunked, Joined, AfsClient.Valid, AfsClient.At;
      ghost var p, e := Progress(Now(), lastModified.table, isDirty.table, c, []), c;
      Started(path, c);
      ghost var begin, end := C.Begin(C.Unlink, now), if reply.UnlinkDone? then C.Step else C.Failed;
      UnlinkBegins(e, now);
      trace := RemoveFile(path, [], p, begin);
      p, e := Made(p, begin), C.Next(e, begin);
      UnlinkErases(e);
      trace := EraseStamp(path, trace, p);
      p, e := Made(p, C.Step), C.Next(e, C.Step);
      UnlinkCleans(e);
      trace := EraseFlag(path, trace, p);
      p, e := Made(p, C.Step), C.Next(e, C.Step);
      UnlinkEnds(e, end);
      NoEffect(p, path, trace, end);
      DetachHandle(path, Made(p, end), trace);
      r := if reply == UnlinkDone(false) then Error else Ok;
      Ended(Made(p, end), path, trace, c, [begin, C.Step, C.Step, end]);
    }

    /** afs_release: a dirty copy is sent in messages, of which the stream takes `accepts`; the
        flag is cleared before the timestamp is set. */
    method Release(path: Bytes, now: nat, accepts: nat, reply: UploadReply, ghost c: C.Cell, ghost call: C.CallId)
      returns (r: Outcome, sent: seq<Bytes>, trace: seq<Durable>, ghost snapped: bool)
      requires Valid() && Shows(path, c) && c.pc.Idle? && !c.handle.Closed?
      modifies this`handles, isDirty, lastModified
      ensures Valid() && Did(path, c, ReleaseInputs(c, now, call, reply, snapped), trace,
                             old(Now()), old(lastModified.table), old(isDirty.table))
      ensures r.Exit? <==> c.dirty && c.cache.None?
      ensures r.Exit? <==> Feed(c, ReleaseInputs(c, now, call, reply, snapped)).pc.Exited?
      ensures r.Ok? <==> !c.dirty || (c.cache.Some? && reply.UploadDone?)
      ensures if c.dirty && c.cache.Some? then IsSent(sent, c.cache.value, accepts) else sent == []
      ensures SameBut(handles, old(handles), Name(sha, path))
    {
      hide D.IsDirtyTable.Valid, L.StampTable.Valid, Feed, Position, L.Marks, Reached, Did, C.Next, Moves, IsCell, Through, Chunked, Joined, AfsClient.Valid, AfsClient.At;
      ghost var p, e := Progress(Now(), lastModified.table, isDirty.table, c, []), c;
      Started(path, c);
      ghost var begin := C.Begin(C.Release, now);
      var name := HashPath(sha, path);
      sent, trace, snapped := [], [], false;
      CloseHandle(path, p, trace);
      ReleaseBegins(e, now);
      NoEffect(p, path, trace, begin);
      p, e := Made(p, begin), C.Next(e, begin);
      Knows(p, path, trace);
      if !isDirty.Get(path) {
        Ended(p, path, trace, c, ReleaseInputs(c, now, call, reply, snapped));
        return Ok, sent, trace, snapped;
      }
      if name !in files {
        Ended(p, path, trace, c, ReleaseInputs(c, now, call, reply, snapped));
        return Exit, sent, trace, snapped;
      }
      ReleaseSends(e, call);
      NoEffect(p, path, trace, C.UploadStarted(call));
      p, e := Made(p, C.UploadStarted(call)), C.Next(e, C.UploadStarted(call));
      sent := SendFile(files[name], accepts);
      trace, p, snapped := ReleaseReply(path, reply, trace, p);
      Ended(p, path, trace, c, ReleaseInputs(c, now, call, reply, snapped));
      r := if reply.UploadLost? then Error else Ok;
    }

    /** afs_release from Finish on: only a successful upload touches the tables. */
    method ReleaseReply(path: Bytes, reply: UploadReply, before: seq<Durable>, ghost p0: Progress)
      returns (trace: seq<Durable>, ghost p: Progress, ghost snapped: bool)
      requires Valid() && At(p0, path, before) && Reached(p0).pc.RelWait?
      modifies isDirty, lastModified
      ensures Valid() && At(p, path, trace) && Reached(p).handle == Reached(p0).handle && Reached(p).pc.Idle?
      ensures p == p0.(made := p0.made + UploadInputs(reply, [C.Step, C.Step], snapped))
    {
      hide D.IsDirtyTable.Valid, L.StampTable.Valid, Feed, Position, L.Marks, Reached, Did, C.Next, Moves, IsCell, Through, Chunked, Joined, AfsClient.Valid, AfsClient.At;
      ghost var e := Reached(p0);
      trace, p, snapped := before, p0, false;
      if reply.UploadLost? {
        UploadFails(e);
        NoEffect(p, path, trace, C.Failed);
        p := Made(p, C.Failed);
      } else {
        ReleaseIsAnswered(e, reply.mtime);
        NoEffect(p, path, trace, C.ReplyIs(reply.mtime));
        p, e := Made(p, C.ReplyIs(reply.mtime)), C.Next(e, C.ReplyIs(reply.mtime));
        ReleaseCleans(e);
        trace := SetFlag(path, false, trace, p, C.Step);
        p, e := Made(p, C.Step), C.Next(e, C.Step);
        ReleaseStamps(e);
        SnapshotNext(C.Next(e, C.Step));
        trace, p, snapped := SetStamp(path, reply.mtime, trace, p);
      }
    }

    /** afs_mknod; the empty file is one empty message. */
    method Mknod(path: Bytes, now: nat, stat: StatReply, reply: UploadReply, ghost c: C.Cell, ghost call: C.CallId)
      returns (r: Outcome, sent: seq<Bytes>, trace: seq<Durable>, ghost snapped: bool)
      requires Valid() && Shows(path, c) && c.pc.Idle?
      modifies this`files, lastModified
      ensures Valid() && Did(path, c, MknodInputs(c, now, stat, call, reply, snapped), trace,
                             old(Now()), old(lastModified.table), old(isDirty.table))
      ensures r == if stat.StatAnswer? && stat.mtime.None? && c.cache.None? && reply.UploadDone? then Ok else Error
      ensures sent == if stat.StatAnswer? && stat.mtime.None? && c.cache.None? then [[]] else []
    {
      hide D.IsDirtyTable.Valid, L.StampTable.Valid, Feed, Position, L.Marks, Reached, Did, C.Next, Moves, IsCell, Through, Chunked, Joined, AfsClient.Valid, AfsClient.At, MknodInputs, UploadInputs;
      ghost var p, e := Progress(Now(), lastModified.table, isDirty.table, c, []), c;
      Started(path, c);
      ghost var begin := C.Begin(C.Mknod, now);
      sent, trace, snapped := [], [], false;
      MknodInputsAre(c, now, stat, call, reply);
      MknodBegins(e, now);
      NoEffect(p, path, trace, begin);
      p, e := Made(p, begin), C.Next(e, begin);
      MknodIsAnswered(e, stat);
      NoEffect(p, path, trace, StatInput(stat));
      p, e := Made(p, StatInput(stat)), C.Next(e, StatInput(stat));
      Knows(p, path, trace);
      if stat.StatLost? || stat.mtime.Some? {
        Ended(p, path, trace, c, MknodInputs(c, now, stat, call, reply, snapped));
        return Error, sent, trace, snapped;
      }
      var name := HashPath(sha, path);
      if name in files {
        MknodFindsCopy(e);
        NoEffect(p, path, trace, C.Step);
        Ended(Made(p, C.Step), path, trace, c, MknodInputs(c, now, stat, call, reply, snapped));
        return Error, sent, trace, snapped;
      }
      sent := [[]];
      trace, p := MknodStart(path, trace, p, call);
      trace, p, snapped := MknodReply(path, reply, trace, p);
      Ended(p, path, trace, c, MknodInputs(c, now, stat, call, reply, snapped));
      r := if reply.UploadLost? then Error else Ok;
    }

    /** The empty cache file is created and its upload begins. */
    method MknodStart(path: Bytes, before: seq<Durable>, ghost p0: Progress, ghost call: C.CallId) returns (trace: seq<Durable>, ghost p: Progress)
      requires Valid() && At(p0, path, before) && Reached(p0).pc.MkCreate? && Reached(p0).cache.None?
      modifies this`files
      ensures Valid() && At(p, path, trace) && Reached(p).pc.MkWait? && Reached(p).handle == Reached(p0).handle
      ensures p == p0.(made := p0.made + [C.Step, C.UploadStarted(call)])
    {
      hide D.IsDirtyTable.Valid, L.StampTable.Valid, Feed, Position, L.Marks, Reached, Did, C.Next, Moves, IsCell, Through, Chunked, Joined, AfsClient.Valid, AfsClient.At;
      MknodCreates(Reached(p0));
      trace := PutFile(path, [], before, p0, C.Step);
      p := Made(p0, C.Step);
      MknodSends(Reached(p), call);
      NoEffect(p, path, trace, C.UploadStarted(call));
      p := Made(p, C.UploadStarted(call));
      assert p.made == p0.made + [C.Step, C.UploadStarted(call)];
    }

    method MknodReply(path: Bytes, reply: UploadReply, before: seq<Durable>, ghost p0: Progress)
      returns (trace: seq<Durable>, ghost p: Progress, ghost snapped: bool)
      requires Valid() && At(p0, path, before) && Reached(p0).pc.MkWait?
      modifies lastModified
      ensures Valid() && At(p, path, trace) && Reached(p).handle == Reached(p0).handle && Reached(p).pc.Idle?
      ensures p == p0.(made := p0.made + UploadInputs(reply, [C.Step], snapped))
    {
      hide D.IsDirtyTable.Valid, L.StampTable.Valid, Feed, Position, L.Marks, Reached, Did, C.Next, Moves, IsCell, Through, Chunked, Joined, AfsClient.Valid, AfsClient.At;
      ghost var e := Reached(p0);
      trace, p, snapped := before, p0, false;
      if reply.UploadLost? {
        UploadFails(e);
        NoEffect(p, path, trace, C.Failed);
        p := Made(p, C.Failed);
      } else {
        UploadIsAnswered(e, reply.mtime);
        NoEffect(p, path, trace, C.ReplyIs(reply.mtime));
        p, e := Made(p, C.ReplyIs(reply.mtime)), C.Next(e, C.ReplyIs(reply.mtime));
        MknodStamps(e);
        SnapshotNext(C.Next(e, C.Step));
        trace, p, snapped := SetStamp(path, reply.mtime, trace, p);
      }
    }

    /** Every message that arrives is appended to the truncated cache file. */
    method ReceiveInto(path: Bytes, download: Download, before: seq<Durable>, ghost p0: Progress)
      returns (trace: seq<Durable>, ghost p: Progress)
      requires Valid() && At(p0, path, before) && Reached(p0).pc.OpenFetch? && download.Stream? && download.arrives <= |download.msgs|
      modifies this`files
      ensures Valid() && At(p, path, trace)
      ensures p == p0.(made := p0.made + [C.ContentIs(download.index, download.mtime, download.msgs)] + StepsOf(download.arrives))
      ensures Reached(p) == Receiving(Reached(p0), download, download.arrives)
      ensures Look(files, Name(sha, path)) == Some(Joined(download.msgs[..download.arrives]))
    {
      hide D.IsDirtyTable.Valid, L.StampTable.Valid, Feed, Position, L.Marks, Reached, Did, C.Next, Moves, IsCell, Through, Chunked, Joined, AfsClient.Valid, AfsClient.At;
      ghost var content := C.ContentIs(download.index, download.mtime, download.msgs);
      FetchBegins(Reached(p0), download.index, download.mtime, download.msgs);
      trace := PutFile(path, [], before, p0, content);
      p := Made(p0, content);
      ReceivingNone(Reached(p0), download);
      var name := HashPath(sha, path);
      var i := 0;
      assert p0.made + [content] + StepsOf(0) == p0.made + [content];
      while i < download.arrives
        invariant 0 <= i <= download.arrives && Valid() && At(p, path, trace)
        invariant p == p0.(made := p0.made + [content] + StepsOf(i))
        invariant Reached(p) == Receiving(Reached(p0), download, i)
        invariant Look(files, name) == Some(Joined(download.msgs[..i]))
        modifies this`files
      {
        ReceivingOne(Reached(p0), download, i);
        FetchAppends(Reached(p));
        trace := PutFile(path, files[name] + download.msgs[i], trace, p, C.Step);
        p := Made(p, C.Step);
        assert p0.made + [content] + StepsOf(i) + [C.Step] == p0.made + [content] + StepsOf(i + 1);
        i := i + 1;
      }
    }

    /** afs_open from GetContent on. */
    method Fetch(path: Bytes, download: Download, before: seq<Durable>, ghost p0: Progress)
      returns (r: Outcome, trace: seq<Durable>, ghost p: Progress, ghost snapped: bool)
      requires Valid() && At(p0, path, before) && Reached(p0).pc.OpenFetch?
      requires Reached(p0).handle.Closed? && HandleOf(path).Closed?
      requires download.Stream? ==> 1 <= download.arrives <= |download.msgs| && (download.ok ==> download.arrives == |download.msgs|)
      modifies this`files, this`handles, isDirty, lastModified
      ensures Valid() && At(p, path, trace) && Reached(p).handle == HandleOf(path) && Reached(p).pc.Idle?
      ensures p == p0.(made := p0.made + DownloadInputs(download, snapped))
      ensures SameBut(handles, old(handles), Name(sha, path))
      ensures (r.Ok? <==> !HandleOf(path).Closed?) && !r.Exit?
    {
      hide D.IsDirtyTable.Valid, L.StampTable.Valid, Feed, Position, L.Marks, Reached, Did, C.Next, Moves, IsCell, Through, Chunked, Joined, AfsClient.Valid, AfsClient.At;
      trace, p, snapped := before, p0, false;
      match download {
        case NoAnswer =>
          FetchFails(Reached(p));
          NoEffect(p, path, trace, C.Failed);
          p := Made(p, C.Failed);
          r := Error;
        case NoSuchFile =>
          FetchFindsNone(Reached(p));
          NoEffect(p, path, trace, C.ContentAbsent);
          p := Made(p, C.ContentAbsent);
          trace, p, snapped := FetchAbsent(path, trace, p);
          assert p.made == p0.made + DownloadInputs(download, snapped);
          r := Ok;
        case Stream(_, _, _, _, _) =>
          trace, p, snapped := FetchStream(path, download, trace, p);
          r := if download.ok then Ok else Error;
      }
    }

    method FetchStream(path: Bytes, download: Download, before: seq<Durable>, ghost p0: Progress)
      returns (trace: seq<Durable>, ghost p: Progress, ghost snapped: bool)
      requires Valid() && At(p0, path, before) && Reached(p0).pc.OpenFetch?
      requires Reached(p0).handle.Closed? && HandleOf(path).Closed?
      requires download.Stream? && download.arrives <= |download.msgs| && (download.ok ==> download.arrives == |download.msgs|)
      modifies this`files, this`handles, isDirty, lastModified
      ensures Valid() && At(p, path, trace) && Reached(p).handle == HandleOf(path) && Reached(p).pc.Idle?
      ensures p == p0.(made := p0.made + DownloadInputs(download, snapped))
      ensures SameBut(handles, old(handles), Name(sha, path))
      ensures download.ok <==> !HandleOf(path).Closed?
    {
      hide D.IsDirtyTable.Valid, L.StampTable.Valid, Feed, Position, L.Marks, Reached, Did, C.Next, Moves, IsCell, Through, Chunked, Joined, AfsClient.Valid, AfsClient.At;
      snapped := false;
      trace, p := ReceiveInto(path, download, before, p0);
      ReceivedAll(Reached(p0), download);
      if download.ok {
        trace, p, snapped := FetchDone(path, download.mtime, trace, p);
      } else {
        FetchFails(Reached(p));
        NoEffect(p, path, trace, C.Failed);
        p := Made(p, C.Failed);
      }
      assert p.made == p0.made + DownloadInputs(download, snapped);
    }

    /** The server has no such file: an empty one, marked as local. */
    method FetchAbsent(path: Bytes, before: seq<Durable>, ghost p0: Progress) returns (trace: seq<Durable>, ghost p: Progress, ghost snapped: bool)
      requires Valid() && At(p0, path, before) && Reached(p0).pc.OpenAbsent?
      modifies this`files, this`handles, isDirty, lastModified
      ensures Valid() && At(p, path, trace) && Reached(p).handle == HandleOf(path) && Reached(p).pc.Idle? && !HandleOf(path).Closed?
      ensures p == p0.(made := p0.made + [C.Step] + Snapped(snapped) + [C.Step, C.Step])
      ensures SameBut(handles, old(handles), Name(sha, path))
    {
      hide D.IsDirtyTable.Valid, L.StampTable.Valid, Feed, Position, L.Marks, Reached, Did, C.Next, Moves, IsCell, Through, Chunked, Joined, AfsClient.Valid, AfsClient.At;
      AbsentStamps(Reached(p0));
      SnapshotNext(C.Next(Reached(p0), C.Step));
      trace, p, snapped := SetStamp(path, LOCAL, before, p0);
      AbsentCreates(Reached(p));
      trace := PutFile(path, [], trace, p, C.Step);
      p := Made(p, C.Step);
      AbsentCleans(Reached(p));
      trace := SetFlag(path, false, trace, p, C.Step);
      p := Made(p, C.Step);
      Knows(p, path, trace);
      OpenHandle(path, p, trace);
      assert p.made == p0.made + [C.Step] + Snapped(snapped) + [C.Step, C.Step];
    }

    /** The download is complete: timestamp, dirty flag, handle. */
    method FetchDone(path: Bytes, mtime: Stamp, before: seq<Durable>, ghost p0: Progress)
      returns (trace: seq<Durable>, ghost p: Progress, ghost snapped: bool)
      requires Valid() && At(p0, path, before)
      requires Reached(p0).pc.OpenReceive? && Reached(p0).pc.msgs == [] && Reached(p0).pc.mtime == mtime
      modifies this`handles, isDirty, lastModified
      ensures Valid() && At(p, path, trace) && Reached(p).handle == HandleOf(path) && Reached(p).pc.Idle? && !HandleOf(path).Closed?
      ensures p == p0.(made := p0.made + ([C.Step, C.Step] + Snapped(snapped) + [C.Step]))
      ensures SameBut(handles, old(handles), Name(sha, path))
    {
      hide D.IsDirtyTable.Valid, L.StampTable.Valid, Feed, Position, L.Marks, Reached, Did, C.Next, Moves, IsCell, Through, Chunked, Joined, AfsClient.Valid, AfsClient.At;
      trace := before;
      FetchCloses(Reached(p0));
      NoEffect(p0, path, trace, C.Step);
      p := Made(p0, C.Step);
      FetchStamps(Reached(p));
      SnapshotNext(C.Next(Reached(p), C.Step));
      trace, p, snapped := SetStamp(path, mtime, trace, p);
      FetchCleans(Reached(p));
      trace := SetFlag(path, false, trace, p, C.Step);
      p := Made(p, C.Step);
      Knows(p, path, trace);
      OpenHandle(path, p, trace);
      assert p.made == p0.made + ([C.Step, C.Step] + Snapped(snapped) + [C.Step]);
    }

    /** afs_open. */
    method Open(path: Bytes, now: nat, stat: StatReply, download: Download, ghost c: C.Cell)
      returns (r: Outcome, trace: seq<Durable>, ghost snapped: bool)
      requires Valid() && Shows(path, c) && c.pc.Idle? && c.handle.Closed?
      requires download.Stream? ==> 1 <= download.arrives <= |download.msgs| && (download.ok ==> download.arrives == |download.msgs|)
      modifies this`files, this`handles, isDirty, lastModified
      ensures Valid() && Did(path, c, OpenInputs(c, now, stat, download, snapped), trace,
                             old(Now()), old(lastModified.table), old(isDirty.table))
      ensures (r.Ok? <==> !HandleOf(path).Closed?) && !r.Exit?
      ensures SameBut(handles, old(handles), Name(sha, path))
    {
      hide D.IsDirtyTable.Valid, L.StampTable.Valid, Feed, Position, L.Marks, Reached, Did, C.Next, Moves, IsCell, Through, Chunked, Joined, AfsClient.Valid, AfsClient.At, OpenInputs, DownloadInputs, Turns, SameBut;
      ghost var p, e := Progress(Now(), lastModified.table, isDirty.table, c, []), c;
      Started(path, c);
      ghost var begin := C.Begin(C.Open, now);
      trace, snapped := [], false;
      OpenStarts(e, now);
      NoEffect(p, path, trace, begin);
      p, e := Made(p, begin), C.Next(e, begin);
      Knows(p, path, trace);
      OpenInputsAre(c, now, stat, download);
      if lastModified.Count(path) {
        var stamp := lastModified.Get(path).value;
        var answer := if stat.StatAnswer? && stat.mtime.Some? then stat.mtime.value else [];
        if stamp == LOCAL {
          OpenHandle(path, p, trace);
          Ended(p, path, trace, c, OpenInputs(c, now, stat, download, snapped));
          return Ok, trace, snapped;
        }
        if answer == stamp {
          p := Hit(path, stat, trace, p);
          Ended(p, path, trace, c, OpenInputs(c, now, stat, download, snapped));
          return Ok, trace, snapped;
        }
        trace, p := Evict(path, stat, trace, p);
      }
      r, trace, p, snapped := Fetch(path, download, trace, p);
      Ended(p, path, trace, c, OpenInputs(c, now, stat, download, snapped));
    }

    /** The timestamps match. */
    method Hit(path: Bytes, ghost stat: StatReply, ghost trace: seq<Durable>, ghost p0: Progress) returns (ghost p: Progress)
      requires Valid() && At(p0, path, trace) && Reached(p0).pc.OpenStat?
      requires stat.StatAnswer? && stat.mtime.Some? && Reached(p0).stamp == stat.mtime
      modifies this`handles
      ensures Valid() && At(p, path, trace) && Reached(p).handle == HandleOf(path) && Reached(p).pc.Idle? && !HandleOf(path).Closed?
      ensures p == p0.(made := p0.made + [StatInput(stat)]) && SameBut(handles, old(handles), Name(sha, path))
    {
      hide D.IsDirtyTable.Valid, L.StampTable.Valid, Feed, Position, L.Marks, Reached, Did, C.Next, Moves, IsCell, Through, Chunked, Joined, AfsClient.Valid, AfsClient.At;
      OpenHits(Reached(p0), stat);
      NoEffect(p0, path, trace, StatInput(stat));
      p := Made(p0, StatInput(stat));
      Knows(p, path, trace);
      OpenHandle(path, p, trace);
    }

    /** The cached copy is outdated: its timestamp goes first, then the file. */
    method Evict(path: Bytes, ghost stat: StatReply, before: seq<Durable>, ghost p0: Progress) returns (trace: seq<Durable>, ghost p: Progress)
      requires Valid() && At(p0, path, before) && Reached(p0).pc.OpenStat? && Reached(p0).stamp != Some([])
      requires !(stat.StatAnswer? && Reached(p0).stamp == stat.mtime && stat.mtime.Some?)
      modifies this`files, lastModified
      ensures Valid() && At(p, path, trace) && Reached(p).pc.OpenFetch? && Reached(p).handle == Reached(p0).handle
      ensures p == p0.(made := p0.made + [StatInput(stat), C.Step, C.Step])
    {
      hide D.IsDirtyTable.Valid, L.StampTable.Valid, Feed, Position, L.Marks, Reached, Did, C.Next, Moves, IsCell, Through, Chunked, Joined, AfsClient.Valid, AfsClient.At;
      OpenMisses(Reached(p0), stat);
      NoEffect(p0, path, before, StatInput(stat));
      p := Made(p0, StatInput(stat));
      OpenErases(Reached(p));
      trace := EraseStamp(path, before, p);
      p := Made(p, C.Step);
      OpenUncaches(Reached(p));
      trace := RemoveFile(path, trace, p, C.Step);
      p := Made(p, C.Step);
      assert p.made == p0.made + [StatInput(stat), C.Step, C.Step];
    }
  }

  /** Only a crash ends a client for good. */
  lemma {:induction false} NotDead(c: C.Cell, inputs: seq<C.Input>)
    requires !c.pc.Dead? && forall i :: i in inputs ==> !i.Crash?
    ensures !Feed(c, inputs).pc.Dead?
  {
    if inputs == [] {
    } else {
      var front, last := inputs[..|inputs| - 1], inputs[|inputs| - 1];
      assert last in inputs;
      NotDead(c, front);
      NotDeadNext(Feed(c, front), last);
    }
  }

  lemma NotDeadNext(c: C.Cell, i: C.Input)
    requires !c.pc.Dead? && !i.Crash?
    ensures !C.Next(c, i).pc.Dead?
  {
    hide C.OwnStep, C.OnFailure;
    if i.Step? {
      NotDeadStep(c);
    } else if i.Failed? {
      NotDeadFailure(c);
    }
  }

  lemma NotDeadStep(c: C.Cell)
    requires !c.pc.Dead?
    ensures !C.OwnStep(c).pc.Dead?
  {
  }

  lemma NotDeadFailure(c: C.Cell)
    requires !c.pc.Dead?
    ensures !C.OnFailure(c).pc.Dead?
  {
  }

  // -- What the inputs of the callbacks do to a cell ---------------------------------------------

  /** The input turns one cell into the other. */
  ghost predicate Turns(c: C.Cell, i: C.Input, d: C.Cell)
  {
    C.Next(c, i) == d && Moves(c, i, d.cache, d.stamp, d.dirty, d.marked)
  }

  lemma WriteBegins(c: C.Cell, now: nat, offset: nat, bytes: Bytes)
    requires c.pc.Idle? && !c.handle.Closed?
    ensures Turns(c, C.Begin(C.Write(offset, bytes), now), c.(dirty := true, pc := C.Writing(offset, bytes)))
  {
  }

  lemma WriteEnds(c: C.Cell, end: C.Input)
    requires c.pc.Writing? && (end.Step? || end.Failed?)
    ensures Turns(c, end,
                  c.(pc := C.Idle, cache := if end.Step? && c.handle.Live? && c.cache.Some?
                                          then Some(C.PWrite(c.cache.value, c.pc.offset, c.pc.bytes)) else c.cache))
  {
  }

  lemma UnlinkBegins(c: C.Cell, now: nat)
    requires c.pc.Idle?
    ensures Turns(c, C.Begin(C.Unlink, now),
                  c.(cache := None, torn := false, handle := if c.handle.Closed? then C.Closed else C.Detached, pc := C.UnStamp))
  {
  }

  lemma UnlinkErases(c: C.Cell)
    requires c.pc.UnStamp?
    ensures Turns(c, C.Step, c.(stamp := None, pc := C.UnDirty))
  {
  }

  lemma UnlinkCleans(c: C.Cell)
    requires c.pc.UnDirty?
    ensures Turns(c, C.Step, c.(dirty := false, pc := C.UnRpc))
  {
  }

  lemma UnlinkEnds(c: C.Cell, end: C.Input)
    requires c.pc.UnRpc? && (end.Step? || end.Failed?)
    ensures Turns(c, end, c.(pc := C.Idle))
  {
  }

  lemma OpenBegins(c: C.Cell, now: nat)
    requires c.pc.Idle? && c.handle.Closed?
    ensures Turns(c, C.Begin(C.Open, now),
                  if c.stamp.None? then c.(pc := C.OpenFetch(now))
                  else if c.stamp.value == LOCAL then C.Opened(c) else c.(pc := C.OpenStat(now)))
  {
  }

  lemma OpenStarts(c: C.Cell, now: nat)
    requires c.pc.Idle? && c.handle.Closed?
    ensures var begin := C.Begin(C.Open, now); var d := C.Next(c, begin);
      && Moves(c, begin, c.cache, c.stamp, c.dirty, c.marked)
      && d.cache == c.cache && d.stamp == c.stamp
      && (if c.stamp.None? then d.pc.OpenFetch? && d.handle.Closed?
          else if c.stamp.value == LOCAL then d.pc.Idle? && d.handle == (if c.cache.Some? then C.Live else C.Detached)
          else d.pc.OpenStat? && d.handle.Closed?)
  {
    OpenBegins(c, now);
  }

  lemma OpenInputsAre(c: C.Cell, now: nat, stat: StatReply, download: Download)
    ensures var begin := [] + [C.Begin(C.Open, now)];
      forall snapped :: OpenInputs(c, now, stat, download, snapped) ==
        if c.stamp.None? then begin + DownloadInputs(download, snapped)
        else if c.stamp.value == LOCAL then begin
        else if stat.StatAnswer? && stat.mtime == c.stamp then begin + [StatInput(stat)]
        else begin + [StatInput(stat), C.Step, C.Step] + DownloadInputs(download, snapped)
  {
    hide DownloadInputs;
  }

  lemma OpenHits(c: C.Cell, stat: StatReply)
    requires c.pc.OpenStat? && stat.StatAnswer? && stat.mtime.Some? && c.stamp == stat.mtime
    ensures Turns(c, StatInput(stat), C.Opened(c).(seen := C.Next(c, StatInput(stat)).seen))
  {
  }

  lemma OpenMisses(c: C.Cell, stat: StatReply)
    requires c.pc.OpenStat? && c.stamp != Some([])
    requires !(stat.StatAnswer? && c.stamp == stat.mtime && stat.mtime.Some?)
    ensures Turns(c, StatInput(stat), c.(pc := C.OpenEvict(c.pc.since)))
  {
  }

  lemma OpenErases(c: C.Cell)
    requires c.pc.OpenEvict?
    ensures Turns(c, C.Step, c.(stamp := None, pc := C.OpenUnlink(c.pc.since)))
  {
  }

  lemma OpenUncaches(c: C.Cell)
    requires c.pc.OpenUnlink?
    ensures Turns(c, C.Step, c.(cache := None, torn := false, pc := C.OpenFetch(c.pc.since)))
  {
  }

  lemma FetchFails(c: C.Cell)
    requires c.pc.OpenFetch? || c.pc.OpenReceive?
    ensures Turns(c, C.Failed, c.(pc := C.Idle))
  {
  }

  lemma FetchFindsNone(c: C.Cell)
    requires c.pc.OpenFetch?
    ensures Turns(c, C.ContentAbsent, c.(pc := C.OpenAbsent))
  {
  }

  lemma AbsentStamps(c: C.Cell)
    requires c.pc.OpenAbsent?
    ensures Turns(c, C.Step, c.(stamp := Some(LOCAL), marked := true, pc := C.OpenCreat))
  {
  }

  lemma AbsentCreates(c: C.Cell)
    requires c.pc.OpenCreat?
    ensures Turns(c, C.Step, c.(cache := Some([]), torn := false, pc := C.OpenLocalClean))
  {
  }

  lemma AbsentCleans(c: C.Cell)
    requires c.pc.OpenLocalClean?
    ensures Turns(c, C.Step, C.Opened(c.(dirty := false)))
  {
  }

  lemma FetchBegins(c: C.Cell, index: nat, mtime: Bytes, msgs: seq<Bytes>)
    requires c.pc.OpenFetch?
    ensures Turns(c, C.ContentIs(index, mtime, msgs),
                  c.(cache := Some([]), torn := true, pc := C.OpenReceive(c.pc.since, index, mtime, msgs)))
  {
  }

  lemma FetchAppends(c: C.Cell)
    requires c.pc.OpenReceive? && c.pc.msgs != [] && c.cache.Some?
    ensures Turns(c, C.Step,
                  c.(cache := Some(c.cache.value + c.pc.msgs[0]),
                     pc := C.OpenReceive(c.pc.since, c.pc.index, c.pc.mtime, c.pc.msgs[1..])))
  {
  }

  lemma FetchCloses(c: C.Cell)
    requires c.pc.OpenReceive? && c.pc.msgs == []
    ensures Turns(c, C.Step, c.(torn := false, pc := C.OpenClosed(c.pc.since, c.pc.index, c.pc.mtime)))
  {
  }

  lemma FetchStamps(c: C.Cell)
    requires c.pc.OpenClosed?
    ensures Turns(c, C.Step, c.(stamp := Some(c.pc.mtime), pc := C.OpenStamped(c.pc.since, c.pc.index)))
  {
  }

  lemma FetchCleans(c: C.Cell)
    requires c.pc.OpenStamped?
    ensures Turns(c, C.Step, C.Opened(c.(dirty := false, seen := C.Next(c, C.Step).seen)))
  {
  }

  lemma ReleaseBegins(c: C.Cell, now: nat)
    requires c.pc.Idle? && !c.handle.Closed?
    ensures Turns(c, C.Begin(C.Release, now),
                  c.(handle := C.Closed,
                     pc := if !c.dirty then C.Idle else if c.cache.None? then C.Exited else C.RelSend(c.cache.value)))
  {
  }

  lemma ReleaseSends(c: C.Cell, call: C.CallId)
    requires c.pc.RelSend?
    ensures Turns(c, C.UploadStarted(call), c.(pc := C.RelWait(c.pc.data, call)))
  {
  }

  lemma UploadFails(c: C.Cell)
    requires c.pc.RelWait? || c.pc.MkWait?
    ensures Turns(c, C.Failed, c.(pc := C.Idle))
  {
  }

  lemma ReleaseIsAnswered(c: C.Cell, mtime: Bytes)
    requires c.pc.RelWait?
    ensures Turns(c, C.ReplyIs(mtime), c.(pc := C.RelReply(c.pc.data, mtime)))
  {
  }

  lemma ReleaseCleans(c: C.Cell)
    requires c.pc.RelReply?
    ensures Turns(c, C.Step, c.(dirty := false, pc := C.RelClean(c.pc.data, c.pc.mtime)))
  {
  }

  lemma ReleaseStamps(c: C.Cell)
    requires c.pc.RelClean?
    ensures Turns(c, C.Step, c.(stamp := Some(c.pc.mtime), pc := C.Idle))
  {
  }

  lemma MknodInputsAre(c: C.Cell, now: nat, stat: StatReply, call: C.CallId, reply: UploadReply)
    ensures var begin := [] + [C.Begin(C.Mknod, now)] + [StatInput(stat)];
      forall snapped :: MknodInputs(c, now, stat, call, reply, snapped) ==
        if stat.StatLost? || stat.mtime.Some? then begin
        else if c.cache.Some? then begin + [C.Step]
        else begin + [C.Step, C.UploadStarted(call)] + UploadInputs(reply, [C.Step], snapped)
  {
    hide UploadInputs;
  }

  lemma MknodBegins(c: C.Cell, now: nat)
    requires c.pc.Idle?
    ensures Turns(c, C.Begin(C.Mknod, now), c.(pc := C.MkStat))
  {
  }

  lemma MknodIsAnswered(c: C.Cell, stat: StatReply)
    requires c.pc.MkStat?
    ensures Turns(c, StatInput(stat), c.(pc := if stat.StatAnswer? && stat.mtime.None? then C.MkCreate else C.Idle))
  {
  }

  lemma MknodCreates(c: C.Cell)
    requires c.pc.MkCreate? && c.cache.None?
    ensures Turns(c, C.Step, c.(cache := Some([]), torn := false, pc := C.MkSend))
  {
  }

  lemma MknodFindsCopy(c: C.Cell)
    requires c.pc.MkCreate? && c.cache.Some?
    ensures Turns(c, C.Step, c.(pc := C.Idle))
  {
  }

  lemma MknodSends(c: C.Cell, call: C.CallId)
    requires c.pc.MkSend?
    ensures Turns(c, C.UploadStarted(call), c.(pc := C.MkWait(call)))
  {
  }

  lemma UploadIsAnswered(c: C.Cell, mtime: Bytes)
    requires c.pc.MkWait?
    ensures Turns(c, C.ReplyIs(mtime), c.(pc := C.MkReply(mtime)))
  {
  }

  lemma MknodStamps(c: C.Cell)
    requires c.pc.MkReply?
    ensures Turns(c, C.Step, c.(stamp := Some(c.pc.mtime), pc := C.Idle))
  {
  }

  lemma {:induction false} FeedConcat(c: C.Cell, a: seq<C.Input>, b: seq<C.Input>)
    ensures Feed(c, a + b) == Feed(Feed(c, a), b)
  {
    hide C.Next;
    if b == [] {
      assert a + b == a;
    } else {
      FeedConcat(c, a, b[..|b| - 1]);
      assert (a + b)[..|a + b| - 1] == a + b[..|b| - 1];
    }
  }

  /** A missing or outdated timestamp: the download begins with the timestamp and then the cache file
      gone (a copy without a timestamp is left for the download to truncate). */
  lemma FeedMiss(c: C.Cell, now: nat, stat: StatReply, download: Download, snapped: bool)
    requires c.pc.Idle? && c.handle.Closed? && c.stamp != Some([])
    requires c.stamp.None? || (c.stamp != Some(LOCAL) && !(stat.StatAnswer? && stat.mtime == c.stamp))
    ensures var d := if c.stamp.None? then c else c.(stamp := None, cache := None, torn := false);
      Feed(c, OpenInputs(c, now, stat, download, snapped)) == Feed(d.(pc := C.OpenFetch(now)), DownloadInputs(download, snapped))
  {
    hide Feed, C.Next, DownloadInputs, Moves;
    var begin := C.Begin(C.Open, now);
    OpenBegins(c, now);
    FeedNone(c);
    FeedSnoc(c, [], begin);
    if c.stamp.None? {
      assert [] + [begin] == [begin];
      FeedConcat(c, [begin], DownloadInputs(download, snapped));
    } else {
      var asked := c.(pc := C.OpenStat(now));
      OpenMisses(asked, stat);
      OpenErases(C.Next(asked, StatInput(stat)));
      OpenUncaches(C.Next(C.Next(asked, StatInput(stat)), C.Step));
      FeedSnoc(c, [] + [begin], StatInput(stat));
      FeedSnoc(c, [] + [begin] + [StatInput(stat)], C.Step);
      FeedSnoc(c, [] + [begin] + [StatInput(stat)] + [C.Step], C.Step);
      assert [] + [begin] + [StatInput(stat)] + [C.Step] + [C.Step] == [begin] + [StatInput(stat), C.Step, C.Step];
      FeedConcat(c, [begin] + [StatInput(stat), C.Step, C.Step], DownloadInputs(download, snapped));
    }
  }

  lemma FeedNone(c: C.Cell)
    ensures Feed(c, []) == c
  {
  }

  /** What a whole release comes to: the handle is closed; a dirty copy whose upload was answered is
      clean and has the server's timestamp, any other path is as it was. */
  lemma FeedRelease(c: C.Cell, now: nat, call: C.CallId, reply: UploadReply, snapped: bool)
    requires c.pc.Idle? && !c.handle.Closed? && (!c.dirty || c.cache.Some?)
    ensures var uploaded := c.dirty && reply.UploadDone?;
      Feed(c, ReleaseInputs(c, now, call, reply, snapped))
      == c.(handle := C.Closed, dirty := c.dirty && !uploaded, stamp := if uploaded then Some(reply.mtime) else c.stamp,
            marked := c.marked && !(uploaded && snapped))
  {
    hide Feed, C.Next, Moves;
    var begin := C.Begin(C.Release, now);
    ReleaseBegins(c, now);
    FeedNone(c);
    FeedSnoc(c, [], begin);
    assert [] + [begin] == [begin];
    if c.dirty {
      var sending := C.Next(c, begin);
      ReleaseSends(sending, call);
      FeedSnoc(c, [begin], C.UploadStarted(call));
      FeedReply(c, [begin] + [C.UploadStarted(call)], reply, snapped);
    }
  }

  lemma FeedReply(c: C.Cell, made: seq<C.Input>, reply: UploadReply, snapped: bool)
    requires Feed(c, made).pc.RelWait?
    ensures var d := Feed(c, made);
      Feed(c, made + UploadInputs(reply, [C.Step, C.Step], snapped))
      == if reply.UploadLost? then d.(pc := C.Idle)
         else d.(pc := C.Idle, dirty := false, stamp := Some(reply.mtime), marked := d.marked && !snapped)
  {
    hide Feed, C.Next, Moves;
    var d := Feed(c, made);
    if reply.UploadLost? {
      UploadFails(d);
      FeedSnoc(c, made, C.Failed);
    } else {
      var answer := C.ReplyIs(reply.mtime);
      ReleaseIsAnswered(d, reply.mtime);
      ReleaseCleans(C.Next(d, answer));
      ReleaseStamps(C.Next(C.Next(d, answer), C.Step));
      SnapshotNext(C.Next(C.Next(C.Next(d, answer), C.Step), C.Step));
      FeedSnoc(c, made, answer);
      FeedSnoc(c, made + [answer], C.Step);
      FeedSnoc(c, made + [answer] + [C.Step], C.Step);
      FeedSnoc(c, made + [answer] + [C.Step] + [C.Step], C.Snapshot);
      assert made + UploadInputs(reply, [C.Step, C.Step], snapped)
          == made + [answer] + [C.Step] + [C.Step] + Snapped(snapped);
      assert made + [answer] + [C.Step] + [C.Step] + [] == made + [answer] + [C.Step] + [C.Step];
    }
  }

  /** A fetching cell that has received the first n messages. */
  function Receiving(c: C.Cell, download: Download, n: nat): C.Cell
    requires c.pc.OpenFetch? && download.Stream? && n <= |download.msgs|
  {
    c.(cache := Some(Joined(download.msgs[..n])), torn := true,
       pc := C.OpenReceive(c.pc.since, download.index, download.mtime, download.msgs[n..]))
  }

  lemma ReceivingNone(c: C.Cell, download: Download)
    requires c.pc.OpenFetch? && download.Stream?
    ensures C.Next(c, C.ContentIs(download.index, download.mtime, download.msgs)) == Receiving(c, download, 0)
    ensures Joined(download.msgs[..0]) == []
  {
    assert download.msgs[0..] == download.msgs && download.msgs[..0] == [];
  }

  /** One more message. */
  lemma ReceivingOne(c: C.Cell, download: Download, n: nat)
    requires c.pc.OpenFetch? && download.Stream? && n < |download.msgs|
    ensures C.Next(Receiving(c, download, n), C.Step) == Receiving(c, download, n + 1)
    ensures Joined(download.msgs[..n + 1]) == Joined(download.msgs[..n]) + download.msgs[n]
    ensures Receiving(c, download, n).pc.msgs != [] && Receiving(c, download, n).pc.msgs[0] == download.msgs[n]
  {
    var msgs := download.msgs;
    assert msgs[..n + 1][..n] == msgs[..n] && msgs[n..][1..] == msgs[n + 1..];
  }

  lemma ReceivedAll(c: C.Cell, download: Download)
    requires c.pc.OpenFetch? && download.Stream?
    ensures Receiving(c, download, |download.msgs|).pc.msgs == []
  {
  }

  /** After n messages the cache file is the concatenation of the first n. */
  lemma {:induction false} ReceiveSteps(c: C.Cell, download: Download, n: nat)
    requires c.pc.OpenFetch? && download.Stream? && n <= |download.msgs|
    ensures Feed(c, [C.ContentIs(download.index, download.mtime, download.msgs)] + StepsOf(n)) == Receiving(c, download, n)
  {
    hide C.Next, Receiving;
    var content := C.ContentIs(download.index, download.mtime, download.msgs);
    if n == 0 {
      assert [content] + StepsOf(0) == [] + [content];
      FeedSnoc(c, [], content);
      ReceivingNone(c, download);
    } else {
      ReceiveSteps(c, download, n - 1);
      assert [content] + StepsOf(n) == [content] + StepsOf(n - 1) + [C.Step];
      FeedSnoc(c, [content] + StepsOf(n - 1), C.Step);
      ReceivingOne(c, download, n - 1);
    }
  }

  lemma DiskHolds(d: Durable)
    requires Readable(d)
    ensures L.Holds(d.stamps, L.Rebuilt(L.Records(d.stamps.snapshot), L.Records(d.stamps.log)))
    ensures D.Holds(d.flags, Flags(d.flags))
  {
  }

  lemma RestartedIsCell(d: Durable, now: Durable, stamps: L.Stamps, flags: map<Bytes, bool>, name: Bytes, c: C.Cell)
    requires Readable(d) && L.Marks(d.stamps) == {} && OnDisk(d, name) == OfCell(c) && !c.pc.Dead?
    requires now == d && flags == Flags(d.flags) && L.Live(stamps) == L.Meant(d.stamps)
    ensures var r := C.Restarted(c, Look(stamps, name) == Some(ERASED), false);
      IsCell(r, now, stamps, flags, name) && r.handle.Closed?
  {
    hide L.Marks, L.Meant, Flags;
    assert name in L.Live(stamps) <==> name in stamps && stamps[name] != ERASED;
  }
}
