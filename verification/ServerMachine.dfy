/** The server's disk and its concurrent Write handlers, inode by inode. A handler appends to the
    inode it opened, whatever the name of that inode has become since. */
module ServerMachine {
  import opened Basics
  import opened Chunks

  type Ino = int
  type HandlerId = int

  /** `mtime` is the instant of the last change; every change has an instant of its own. */
  datatype Inode = Inode(data: Bytes, mtime: nat)

  /** Ready: the first message has arrived, the mutex is not held. Streaming: the temporary file is
      open. Closed: the stream has ended, the mutex is released. Stamped: the reply's timestamp is
      taken (none if the temporary file was gone). `want` is what the client sends in full, of
      which the first `got` messages have been written to inode `ino`. */
  datatype Phase = Ready | Streaming | Closed | Stamped(stamp: Option<nat>)
  datatype Handler = Handler(path: Bytes, want: seq<Bytes>, got: nat, ino: Ino, phase: Phase)

  /** A rename that took place, for an uncancelled stream. Bookkeeping. */
  datatype Publication = Publication(path: Bytes, want: seq<Bytes>, ino: Ino, stamp: Option<nat>)

  /** The temporary files and the published ones are directories: names for inodes. */
  datatype Server = Server(
    inodes: map<Ino, Inode>, tmp: map<Bytes, Ino>, pub: map<Bytes, Ino>,
    nextIno: Ino, clock: nat,
    lock: Option<HandlerId>, handlers: map<HandlerId, Handler>,
    log: seq<Publication>)

  /** AsWritten is the code: the mutex covers the streaming phase only. NoOverlap adds that no
      handler opens the temporary file of a path while another is still to rename it.
      HeldThroughRename is the repair: the mutex is released when the handler returns. */
  datatype Discipline = AsWritten | NoOverlap | HeldThroughRename

  datatype Event =
    | Arrive(h: HandlerId, path: Bytes, want: seq<Bytes>)
    | OpenTmp(h: HandlerId)
    | Append(h: HandlerId)
    | CloseTmp(h: HandlerId)
    | Cancel(h: HandlerId)     // IsCancelled; a stream cut short always ends here
    | StatTmp(h: HandlerId)
    | Rename(h: HandlerId)
    | Remove(path: Bytes)      // the Unlink RPC
    | PowerOff                 // server crash and restart

  const EMPTY := Server(map[], map[], map[], 0, 0, None, map[], [])

  function Next(d: Discipline, s: Server, e: Event): Server
  {
    match e
    case Arrive(h, path, want) =>
      if h in s.handlers || want == [] then s
      else s.(handlers := s.handlers[h := Handler(path, want, 0, 0, Ready)])
    case OpenTmp(h) =>
      if MayOpen(s, h) && !(d.NoOverlap? && Overlaps(s, h)) then OpenedTmp(s, h) else s
    case Append(h) =>
      if h in s.handlers && s.handlers[h].phase.Streaming? && s.handlers[h].got < |s.handlers[h].want|
         && s.handlers[h].ino in s.inodes
      then Appended(s, h) else s
    case CloseTmp(h) =>
      if h in s.handlers && s.handlers[h].phase.Streaming? then
        s.(handlers := s.handlers[h := s.handlers[h].(phase := Closed)],
           lock := if d.HeldThroughRename? then s.lock else None)
      else s
    case Cancel(h) =>
      if h in s.handlers && s.handlers[h].phase.Closed? then Returned(d, s, h) else s
    case StatTmp(h) =>
      if h in s.handlers && s.handlers[h].phase.Closed? && s.handlers[h].got == |s.handlers[h].want| then
        s.(handlers := s.handlers[h := s.handlers[h].(phase := Stamped(MtimeAt(s, s.handlers[h].path)))])
      else s
    case Rename(h) =>
      if h in s.handlers && s.handlers[h].phase.Stamped? then Renamed(d, s, h) else s
    case Remove(path) => s.(pub := s.pub - {path})
    case PowerOff => s.(handlers := map[], lock := None)
  }

  /** The handler has opened the temporary file and may still rename it: its stream goes on or
      arrived in full. */
  predicate Pending(w: Handler)
  {
    w.phase.Streaming? || w.phase.Stamped? || (w.phase.Closed? && w.got == |w.want|)
  }

  predicate MayOpen(s: Server, h: HandlerId)
  {
    h in s.handlers && s.handlers[h].phase.Ready? && s.lock.None?
  }

  predicate Overlaps(s: Server, h: HandlerId)
    requires h in s.handlers
  {
    exists g :: g in s.handlers && s.handlers[g].path == s.handlers[h].path && Pending(s.handlers[g])
  }

  /** Truncates the inode of an existing temporary file, or makes a new one. */
  function OpenedTmp(s: Server, h: HandlerId): Server
    requires h in s.handlers
  {
    var w := s.handlers[h];
    var ino := if w.path in s.tmp then s.tmp[w.path] else s.nextIno;
    s.(inodes := s.inodes[ino := Inode([], s.clock)], clock := s.clock + 1,
       tmp := s.tmp[w.path := ino], nextIno := if w.path in s.tmp then s.nextIno else s.nextIno + 1,
       lock := Some(h), handlers := s.handlers[h := w.(phase := Streaming, ino := ino, got := 0)])
  }

  /** Appending no bytes changes nothing. */
  function Appended(s: Server, h: HandlerId): Server
    requires h in s.handlers && s.handlers[h].got < |s.handlers[h].want| && s.handlers[h].ino in s.inodes
  {
    var w := s.handlers[h];
    var t := s.(handlers := s.handlers[h := w.(got := w.got + 1)]);
    if w.want[w.got] == [] then t
    else t.(inodes := s.inodes[w.ino := Inode(s.inodes[w.ino].data + w.want[w.got], s.clock)], clock := s.clock + 1)
  }

  function MtimeAt(s: Server, path: Bytes): Option<nat>
  {
    if path in s.tmp && s.tmp[path] in s.inodes then Some(s.inodes[s.tmp[path]].mtime) else None
  }

  /** The handler returns; only the repaired one still holds the mutex. */
  function Returned(d: Discipline, s: Server, h: HandlerId): Server
  {
    s.(handlers := s.handlers - {h}, lock := if d.HeldThroughRename? && s.lock == Some(h) then None else s.lock)
  }

  function Renamed(d: Discipline, s: Server, h: HandlerId): Server
    requires h in s.handlers && s.handlers[h].phase.Stamped?
  {
    var w := s.handlers[h];
    var moved :=
      if w.path in s.tmp then
        s.(pub := s.pub[w.path := s.tmp[w.path]], tmp := s.tmp - {w.path},
           log := s.log + [Publication(w.path, w.want, s.tmp[w.path], w.phase.stamp)])
      else s;
    Returned(d, moved, h)
  }

  function Run(d: Discipline, s: Server, events: seq<Event>): Server
  {
    if events == [] then s else Next(d, Run(d, s, events[..|events| - 1]), events[|events| - 1])
  }
}

/** Atomic publication, where it holds, and the torn file, where it does not. */
module AtomicPublication {
  import opened Basics
  import opened Chunks
  import opened ServerMachine

  ghost predicate Active(s: Server, h: HandlerId)
  {
    h in s.handlers && Pending(s.handlers[h])
  }

  /** Who may be writing. */
  ghost predicate LockInv(d: Discipline, s: Server)
  {
    && (forall h :: h in s.handlers && s.handlers[h].phase.Streaming? ==> s.lock == Some(h))
    && (d.HeldThroughRename? ==> forall h :: Active(s, h) ==> s.lock == Some(h))
    && (d.NoOverlap? ==> forall g, h :: Active(s, g) && Active(s, h) && s.handlers[g].path == s.handlers[h].path ==> g == h)
  }

  /** An active handler owns the temporary file of its path, which holds what it has written. */
  ghost predicate WriterInv(s: Server, h: HandlerId)
    requires h in s.handlers
  {
    var w := s.handlers[h];
    Pending(w) ==>
      && w.path in s.tmp && s.tmp[w.path] == w.ino && w.ino in s.inodes
      && w.got <= |w.want| && s.inodes[w.ino].data == Joined(w.want[..w.got])
      && (w.phase.Stamped? ==> w.got == |w.want| && w.phase.stamp == Some(s.inodes[w.ino].mtime))
  }

  ghost predicate DiskInv(s: Server)
  {
    && (forall i :: i in s.inodes ==> i < s.nextIno && s.inodes[i].mtime < s.clock)
    && (forall i, j :: i in s.inodes && j in s.inodes && i != j ==> s.inodes[i].mtime != s.inodes[j].mtime)
    && (forall p :: p in s.tmp ==> s.tmp[p] in s.inodes)
    && (forall p, q :: p in s.tmp && q in s.tmp && s.tmp[p] == s.tmp[q] ==> p == q)
  }

  /** A published inode is complete, carries the timestamp of the reply, and has left the
      temporary directory for good. */
  ghost predicate Settled(s: Server, c: Publication)
  {
    && c.ino in s.inodes && s.inodes[c.ino].data == Joined(c.want) && c.stamp == Some(s.inodes[c.ino].mtime)
    && forall p :: p in s.tmp ==> s.tmp[p] != c.ino
  }

  ghost predicate LogInv(s: Server)
  {
    && (forall c :: c in s.log ==> Settled(s, c))
    && (forall i, j :: 0 <= i < j < |s.log| ==> s.log[i].ino != s.log[j].ino)
  }

  ghost predicate IsLast(log: seq<Publication>, path: Bytes, k: int)
  {
    0 <= k < |log| && log[k].path == path && forall j :: k < j < |log| ==> log[j].path != path
  }

  ghost predicate PubInv(s: Server)
  {
    forall p :: p in s.pub ==> exists k :: IsLast(s.log, p, k) && s.log[k].ino == s.pub[p]
  }

  ghost predicate Inv(d: Discipline, s: Server)
  {
    && LockInv(d, s) && DiskInv(s) && LogInv(s) && PubInv(s)
    && forall h :: h in s.handlers ==> WriterInv(s, h)
  }

  /** What both disciplines are for: one writer a path. */
  lemma OneWriter(d: Discipline, s: Server, g: HandlerId, h: HandlerId)
    requires !d.AsWritten? && LockInv(d, s)
    requires Active(s, g) && (Active(s, h) || (MayOpen(s, h) && !(d.NoOverlap? && Overlaps(s, h))))
    requires s.handlers[g].path == s.handlers[h].path
    ensures g == h
  {
  }

  lemma ArriveKeeps(d: Discipline, s: Server, h: HandlerId, path: Bytes, want: seq<Bytes>)
    requires !d.AsWritten? && Inv(d, s)
    ensures Inv(d, Next(d, s, Arrive(h, path, want)))
  {
    hide PubInv, LogInv, DiskInv;
    var t := Next(d, s, Arrive(h, path, want));
    PubUnchanged(s, t);
    LogUnchanged(s, t);
    DiskUnchanged(s, t);
  }

  lemma OpenTmpKeeps(d: Discipline, s: Server, h: HandlerId)
    requires !d.AsWritten? && Inv(d, s)
    ensures Inv(d, Next(d, s, OpenTmp(h)))
  {
    hide PubInv, LogInv, DiskInv;
    var t := Next(d, s, OpenTmp(h));
    if t != s {
      var ino := t.tmp[s.handlers[h].path];
      assert s.handlers[h].want[..0] == [];
      PubUnchanged(s, t);
      OpenDisk(s, h);
      TouchedLog(s, t, ino);
      forall g | g in t.handlers ensures WriterInv(t, g) {
        assert WriterInv(s, g);
        if g != h && Active(s, g) {
          if s.handlers[g].path == s.handlers[h].path {
            OneWriter(d, s, g, h);
          }
          assert s.handlers[g].ino != ino;
        }
      }
    }
  }

  lemma OpenDisk(s: Server, h: HandlerId)
    requires DiskInv(s) && LogInv(s) && h in s.handlers
    ensures var t := OpenedTmp(s, h); var ino := t.tmp[s.handlers[h].path];
      && DiskInv(t)
      && (forall i :: i in s.inodes && i != ino ==> i in t.inodes && t.inodes[i] == s.inodes[i])
      && (forall p :: p in s.tmp && p != s.handlers[h].path ==> s.tmp[p] != ino)
      && (forall c :: c in s.log ==> c.ino != ino)
  {
    forall c | c in s.log ensures c.ino != OpenedTmp(s, h).tmp[s.handlers[h].path] {
      assert Settled(s, c);
    }
  }

  /** Changing an inode that was never published leaves the publications as they are. */
  lemma TouchedLog(s: Server, t: Server, ino: Ino)
    requires LogInv(s) && t.log == s.log
    requires forall i :: i in s.inodes && i != ino ==> i in t.inodes && t.inodes[i] == s.inodes[i]
    requires forall p :: p in t.tmp ==> t.tmp[p] == ino || (p in s.tmp && t.tmp[p] == s.tmp[p])
    requires forall c :: c in s.log ==> c.ino != ino
    ensures LogInv(t)
  {
    forall c | c in t.log ensures Settled(t, c) {
      assert Settled(s, c);
    }
  }

  lemma AppendKeeps(d: Discipline, s: Server, h: HandlerId)
    requires !d.AsWritten? && Inv(d, s)
    ensures Inv(d, Next(d, s, Append(h)))
  {
    hide PubInv, LogInv, DiskInv;
    var t := Next(d, s, Append(h));
    if t != s {
      var w := s.handlers[h];
      assert WriterInv(s, h);
      assert w.want[..w.got + 1][..w.got] == w.want[..w.got];
      PubUnchanged(s, t);
      AppendDisk(s, h);
      TouchedLog(s, t, w.ino);
      forall g | g in t.handlers ensures WriterInv(t, g) {
        assert WriterInv(s, g);
        if g != h && Active(s, g) {
          if s.handlers[g].path == w.path {
            OneWriter(d, s, g, h);
          }
          assert s.handlers[g].ino != w.ino;
        }
      }
    }
  }

  lemma AppendDisk(s: Server, h: HandlerId)
    requires DiskInv(s) && LogInv(s) && h in s.handlers && WriterInv(s, h)
    requires s.handlers[h].phase.Streaming? && s.handlers[h].got < |s.handlers[h].want|
    ensures DiskInv(Appended(s, h))
    ensures forall p :: p in s.tmp && p != s.handlers[h].path ==> s.tmp[p] != s.handlers[h].ino
    ensures forall c :: c in s.log ==> c.ino != s.handlers[h].ino
    ensures s.handlers[h].ino in Appended(s, h).inodes
    ensures Appended(s, h).inodes[s.handlers[h].ino].data == s.inodes[s.handlers[h].ino].data + s.handlers[h].want[s.handlers[h].got]
  {
    forall c | c in s.log ensures c.ino != s.handlers[h].ino {
      assert Settled(s, c);
    }
  }

  lemma CloseKeeps(d: Discipline, s: Server, h: HandlerId)
    requires !d.AsWritten? && Inv(d, s)
    ensures Inv(d, Next(d, s, CloseTmp(h)))
  {
    hide PubInv, LogInv, DiskInv;
    var t := Next(d, s, CloseTmp(h));
    PubUnchanged(s, t);
    LogUnchanged(s, t);
    DiskUnchanged(s, t);
    forall g | g in t.handlers ensures WriterInv(t, g) {
      assert WriterInv(s, g);
    }
  }

  lemma CancelKeeps(d: Discipline, s: Server, h: HandlerId)
    requires !d.AsWritten? && Inv(d, s)
    ensures Inv(d, Next(d, s, Cancel(h)))
  {
    hide PubInv, LogInv, DiskInv;
    var t := Next(d, s, Cancel(h));
    PubUnchanged(s, t);
    LogUnchanged(s, t);
    DiskUnchanged(s, t);
    forall g | g in t.handlers ensures WriterInv(t, g) {
      assert WriterInv(s, g);
    }
  }

  lemma StatKeeps(d: Discipline, s: Server, h: HandlerId)
    requires !d.AsWritten? && Inv(d, s)
    ensures Inv(d, Next(d, s, StatTmp(h)))
  {
    hide PubInv, LogInv, DiskInv;
    var t := Next(d, s, StatTmp(h));
    PubUnchanged(s, t);
    LogUnchanged(s, t);
    DiskUnchanged(s, t);
    forall g | g in t.handlers ensures WriterInv(t, g) {
      assert WriterInv(s, g);
    }
  }

  lemma PubUnchanged(s: Server, t: Server)
    requires PubInv(s) && t.pub == s.pub && t.log == s.log
    ensures PubInv(t)
  {
  }

  lemma LogUnchanged(s: Server, t: Server)
    requires LogInv(s) && t.log == s.log && t.inodes == s.inodes && t.tmp == s.tmp
    ensures LogInv(t)
  {
    forall c | c in t.log ensures Settled(t, c) {
      assert Settled(s, c);
    }
  }

  lemma DiskUnchanged(s: Server, t: Server)
    requires DiskInv(s) && t.inodes == s.inodes && t.tmp == s.tmp && t.clock == s.clock && t.nextIno == s.nextIno
    ensures DiskInv(t)
  {
  }

  /** The publication a rename logs, and what becomes of the names. */
  lemma RenameKeeps(d: Discipline, s: Server, h: HandlerId)
    requires !d.AsWritten? && Inv(d, s)
    ensures Inv(d, Next(d, s, Rename(h)))
  {
    hide PubInv, LogInv, DiskInv, LockInv;
    var t := Next(d, s, Rename(h));
    if t != s {
      var w := s.handlers[h];
      assert WriterInv(s, h);
      var c := Publication(w.path, w.want, w.ino, w.phase.stamp);
      assert t.log == s.log + [c] && t.pub == s.pub[w.path := w.ino] && t.tmp == s.tmp - {w.path};
      RenamePub(s, t, c);
      RenameLog(s, t, h, c);
      RenameDisk(s, t);
      RenameLock(d, s, h);
      forall g | g in t.handlers ensures WriterInv(t, g) {
        assert WriterInv(s, g);
        if Active(s, g) && s.handlers[g].path == w.path {
          OneWriter(d, s, g, h);
        }
      }
    }
  }

  lemma RenamePub(s: Server, t: Server, c: Publication)
    requires PubInv(s) && t.log == s.log + [c] && t.pub == s.pub[c.path := c.ino]
    ensures PubInv(t)
  {
    forall p | p in t.pub ensures exists k :: IsLast(t.log, p, k) && t.log[k].ino == t.pub[p] {
      if p == c.path {
        assert IsLast(t.log, p, |s.log|);
      } else {
        var k :| IsLast(s.log, p, k) && s.log[k].ino == s.pub[p];
        assert IsLast(t.log, p, k);
      }
    }
  }

  lemma RenameLog(s: Server, t: Server, h: HandlerId, c: Publication)
    requires LogInv(s) && DiskInv(s) && h in s.handlers && WriterInv(s, h) && s.handlers[h].phase.Stamped?
    requires var w := s.handlers[h]; c == Publication(w.path, w.want, w.ino, w.phase.stamp)
    requires t.log == s.log + [c] && t.inodes == s.inodes && t.tmp == s.tmp - {c.path}
    ensures LogInv(t)
  {
    var w := s.handlers[h];
    assert w.want[..w.got] == w.want;
    forall x | x in t.log ensures Settled(t, x) {
      if x in s.log {
        assert Settled(s, x);
      }
    }
    forall i | 0 <= i < |s.log| ensures s.log[i].ino != c.ino {
      assert Settled(s, s.log[i]);
    }
  }

  lemma RenameDisk(s: Server, t: Server)
    requires DiskInv(s) && t.inodes == s.inodes && t.clock == s.clock && t.nextIno == s.nextIno
    requires t.tmp.Keys <= s.tmp.Keys && forall p :: p in t.tmp ==> t.tmp[p] == s.tmp[p]
    ensures DiskInv(t)
  {
  }

  lemma RenameLock(d: Discipline, s: Server, h: HandlerId)
    requires LockInv(d, s)
    ensures LockInv(d, Next(d, s, Rename(h)))
  {
  }

  lemma OtherKeeps(d: Discipline, s: Server, e: Event)
    requires !d.AsWritten? && Inv(d, s) && (e.Remove? || e.PowerOff?)
    ensures Inv(d, Next(d, s, e))
  {
    var t := Next(d, s, e);
    forall c | c in t.log ensures Settled(t, c) {
      assert Settled(s, c);
    }
    forall g | g in t.handlers ensures WriterInv(t, g) {
      assert WriterInv(s, g);
    }
  }

  lemma NextKeeps(d: Discipline, s: Server, e: Event)
    requires !d.AsWritten? && Inv(d, s)
    ensures Inv(d, Next(d, s, e))
  {
    hide Inv, Next;
    match e
    case Arrive(h, path, want) => ArriveKeeps(d, s, h, path, want);
    case OpenTmp(h) => OpenTmpKeeps(d, s, h);
    case Append(h) => AppendKeeps(d, s, h);
    case CloseTmp(h) => CloseKeeps(d, s, h);
    case Cancel(h) => CancelKeeps(d, s, h);
    case StatTmp(h) => StatKeeps(d, s, h);
    case Rename(h) => RenameKeeps(d, s, h);
    case Remove(path) => OtherKeeps(d, s, e);
    case PowerOff => OtherKeeps(d, s, e);
  }

  lemma {:induction false} RunKeeps(d: Discipline, s: Server, events: seq<Event>)
    requires !d.AsWritten? && Inv(d, s)
    ensures Inv(d, Run(d, s, events))
  {
    hide Inv, Next;
    if events == [] {
    } else {
      RunKeeps(d, s, events[..|events| - 1]);
      NextKeeps(d, Run(d, s, events[..|events| - 1]), events[|events| - 1]);
    }
  }

  /** Atomic publication: without overlapping Writes of a path, or with the mutex held through the
      rename, every published file at every moment is the whole of one uncancelled stream, the one
      renamed last, and its timestamp is the one that stream's client was sent. */
  lemma PublishedIsOneStream(d: Discipline, events: seq<Event>, path: Bytes)
    requires !d.AsWritten?
    requires path in Run(d, EMPTY, events).pub
    ensures var s := Run(d, EMPTY, events);
      exists k :: IsLast(s.log, path, k) && s.pub[path] in s.inodes
        && s.inodes[s.pub[path]].data == Joined(s.log[k].want)
        && s.log[k].stamp == Some(s.inodes[s.pub[path]].mtime)
  {
    RunKeeps(d, EMPTY, events);
    var s := Run(d, EMPTY, events);
    var k :| IsLast(s.log, path, k) && s.log[k].ino == s.pub[path];
    assert Settled(s, s.log[k]);
  }

  /** Timestamps of published files are never given twice, on one path or on two. */
  lemma StampsAreUnique(d: Discipline, events: seq<Event>, i: nat, j: nat)
    requires !d.AsWritten?
    requires i < j < |Run(d, EMPTY, events).log|
    ensures var log := Run(d, EMPTY, events).log;
      log[i].stamp.Some? && log[j].stamp.Some? && log[i].stamp != log[j].stamp
  {
    RunKeeps(d, EMPTY, events);
    var s := Run(d, EMPTY, events);
    assert Settled(s, s.log[i]) && Settled(s, s.log[j]);
  }

  lemma NextLog(d: Discipline, s: Server, e: Event)
    ensures s.log <= Next(d, s, e).log
  {
  }

  lemma {:induction false} RunLog(d: Discipline, s: Server, events: seq<Event>)
    ensures s.log <= Run(d, s, events).log
  {
    hide Next;
    if events == [] {
    } else {
      RunLog(d, s, events[..|events| - 1]);
      NextLog(d, Run(d, s, events[..|events| - 1]), events[|events| - 1]);
    }
  }

  /** A published inode never changes again, so a download that has opened one reads that version
      to its end, whatever is renamed over it or unlinked meanwhile. */
  lemma PublishedNeverChanges(d: Discipline, s: Server, events: seq<Event>, c: Publication)
    requires !d.AsWritten? && Inv(d, s) && c in s.log
    ensures var t := Run(d, s, events);
      c.ino in s.inodes && c.ino in t.inodes && t.inodes[c.ino] == s.inodes[c.ino]
  {
    hide LockInv, DiskInv, PubInv, WriterInv;
    RunKeeps(d, s, events);
    RunLog(d, s, events);
    assert Settled(s, c);
    assert Settled(Run(d, s, events), c);
  }

  /** What a client can see of a path: the file and its timestamp. */
  function View(s: Server, path: Bytes): Option<Inode>
  {
    if path in s.pub && s.pub[path] in s.inodes then Some(s.inodes[s.pub[path]]) else None
  }

  /** Refinement to a server on which an upload is one atomic commit: a step shows on a path only
      if it renames a complete stream there, under a timestamp not used before, or unlinks it. */
  lemma StepIsAtomicCommit(d: Discipline, s: Server, e: Event, path: Bytes)
    requires !d.AsWritten? && Inv(d, s)
    ensures var t := Next(d, s, e);
      || View(t, path) == View(s, path)
      || (e == Remove(path) && View(t, path) == None)
      || (e.Rename? && e.h in s.handlers && s.handlers[e.h].path == path
          && var w := s.handlers[e.h];
             && w.phase.Stamped? && w.phase.stamp.Some?
             && View(t, path) == Some(Inode(Joined(w.want), w.phase.stamp.value))
             && forall c :: c in s.log ==> c.stamp != w.phase.stamp)
  {
    hide Inv, View;
    var t := Next(d, s, e);
    if e.Rename? && t != s && s.handlers[e.h].path == path {
      RenameShows(d, s, e.h);
    } else if e == Remove(path) {
      RemovedView(t, path);
    } else {
      OtherView(d, s, e, path);
    }
  }

  lemma RemovedView(t: Server, path: Bytes)
    requires path !in t.pub
    ensures View(t, path) == None
  {
  }

  lemma OtherView(d: Discipline, s: Server, e: Event, path: Bytes)
    requires !d.AsWritten? && Inv(d, s) && e != Remove(path)
    requires !(e.Rename? && Next(d, s, e) != s && s.handlers[e.h].path == path)
    ensures View(Next(d, s, e), path) == View(s, path)
  {
    SamePub(d, s, e, path);
    hide Next, LockInv, DiskInv, WriterInv;
    var t := Next(d, s, e);
    if path in s.pub {
      var k :| IsLast(s.log, path, k) && s.log[k].ino == s.pub[path];
      var c := s.log[k];
      NextKeeps(d, s, e);
      NextLog(d, s, e);
      assert Settled(s, c) && Settled(t, c);
    }
  }

  lemma SamePub(d: Discipline, s: Server, e: Event, path: Bytes)
    requires e != Remove(path) && !(e.Rename? && Next(d, s, e) != s && s.handlers[e.h].path == path)
    ensures path in Next(d, s, e).pub <==> path in s.pub
    ensures path in s.pub ==> Next(d, s, e).pub[path] == s.pub[path]
  {
  }

  lemma RenameShows(d: Discipline, s: Server, h: HandlerId)
    requires !d.AsWritten? && Inv(d, s) && h in s.handlers && s.handlers[h].phase.Stamped?
    ensures var t, w := Next(d, s, Rename(h)), s.handlers[h];
      && w.phase.stamp.Some?
      && View(t, w.path) == Some(Inode(Joined(w.want), w.phase.stamp.value))
      && forall c :: c in s.log ==> c.stamp != w.phase.stamp
  {
    hide PubInv, LockInv;
    var w := s.handlers[h];
    assert WriterInv(s, h);
    assert w.want[..w.got] == w.want;
    forall c | c in s.log ensures c.stamp != w.phase.stamp {
      assert Settled(s, c);
    }
  }

  // -- Crashes and the mutex ---------------------------------------------------------------------

  /** A power failure loses the handlers and nothing on the disk; the mutex is free again. */
  lemma PowerOffKeepsDisk(d: Discipline, s: Server)
    ensures var t := Next(d, s, PowerOff);
      && t.inodes == s.inodes && t.tmp == s.tmp && t.pub == s.pub && t.nextIno == s.nextIno
      && t.handlers == map[] && t.lock == None
  {
  }

  /** Whoever holds the mutex is a handler that has its temporary file open, or, where it is held
      through the rename, has not returned yet. */
  ghost predicate MutexInv(d: Discipline, s: Server)
  {
    s.lock.Some? ==>
      && s.lock.value in s.handlers
      && !s.handlers[s.lock.value].phase.Ready?
      && (!d.HeldThroughRename? ==> s.handlers[s.lock.value].phase.Streaming?)
  }

  lemma MutexKeeps(d: Discipline, s: Server, e: Event)
    requires MutexInv(d, s)
    ensures MutexInv(d, Next(d, s, e))
  {
  }

  /** So the mutex is never left locked by a handler that is gone. */
  lemma {:induction false} MutexIsNotLost(d: Discipline, events: seq<Event>)
    ensures var s := Run(d, EMPTY, events); MutexInv(d, s) && (s.handlers == map[] ==> s.lock.None?)
  {
    hide Next;
    if events == [] {
    } else {
      MutexIsNotLost(d, events[..|events| - 1]);
      MutexKeeps(d, Run(d, EMPTY, events[..|events| - 1]), events[|events| - 1]);
    }
  }

  // -- The code as written ----------------------------------------------------------------------

  lemma RunSnoc(d: Discipline, s: Server, events: seq<Event>, e: Event)
    ensures Run(d, s, events + [e]) == Next(d, Run(d, s, events), e)
  {
    assert (events + [e])[..|events|] == events;
  }

  /** The server in which only handlers 0 and 1 and inode 0 matter. */
  function Two(path: Bytes, inode: Inode, published: bool, clock: nat, lock: Option<HandlerId>,
               handlers: map<HandlerId, Handler>, log: seq<Publication>): Server
  {
    Server(map[0 := inode], if published then map[] else map[path := 0], if published then map[path := 0] else map[],
           1, clock, lock, handlers, log)
  }

  /** A first writer has streamed its message and released the mutex. */
  lemma FirstStreamed(path: Bytes, a: Bytes) returns (events: seq<Event>)
    requires a != []
    ensures Run(AsWritten, EMPTY, events)
         == Two(path, Inode(a, 1), false, 2, None, map[0 := Handler(path, [a], 1, 0, Closed)], [])
  {
    hide Run;
    assert Run(AsWritten, EMPTY, []) == EMPTY by { RunNothing(AsWritten, EMPTY); }
    events := [Arrive(0, path, [a])];
    assert [] + events == events;
    RunSnoc(AsWritten, EMPTY, [], Arrive(0, path, [a]));
    RunSnoc(AsWritten, EMPTY, events, OpenTmp(0));
    events := events + [OpenTmp(0)];
    assert Run(AsWritten, EMPTY, events)
        == Two(path, Inode([], 0), false, 1, Some(0), map[0 := Handler(path, [a], 0, 0, Streaming)], []);
    RunSnoc(AsWritten, EMPTY, events, Append(0));
    events := events + [Append(0)];
    assert [] + a == a;
    assert Run(AsWritten, EMPTY, events)
        == Two(path, Inode(a, 1), false, 2, Some(0), map[0 := Handler(path, [a], 1, 0, Streaming)], []);
    RunSnoc(AsWritten, EMPTY, events, CloseTmp(0));
    events := events + [CloseTmp(0)];
  }

  lemma RunNothing(d: Discipline, s: Server)
    ensures Run(d, s, []) == s
  {
  }

  /** A second writer of the path takes the mutex, truncates the same temporary file and has
      written one of its two messages when the first one takes its timestamp. */
  lemma SecondStreaming(path: Bytes, a: Bytes, b: Bytes, rest: Bytes, first: seq<Event>) returns (events: seq<Event>)
    requires b != []
    requires Run(AsWritten, EMPTY, first)
          == Two(path, Inode(a, 1), false, 2, None, map[0 := Handler(path, [a], 1, 0, Closed)], [])
    ensures Run(AsWritten, EMPTY, events)
         == Two(path, Inode(b, 3), false, 4, Some(1),
                map[0 := Handler(path, [a], 1, 0, Closed), 1 := Handler(path, [b, rest], 1, 0, Streaming)], [])
  {
    hide Run;
    var one := Handler(path, [a], 1, 0, Closed);
    RunSnoc(AsWritten, EMPTY, first, Arrive(1, path, [b, rest]));
    events := first + [Arrive(1, path, [b, rest])];
    assert Run(AsWritten, EMPTY, events)
        == Two(path, Inode(a, 1), false, 2, None, map[0 := one, 1 := Handler(path, [b, rest], 0, 0, Ready)], []);
    RunSnoc(AsWritten, EMPTY, events, OpenTmp(1));
    events := events + [OpenTmp(1)];
    assert Run(AsWritten, EMPTY, events)
        == Two(path, Inode([], 2), false, 3, Some(1), map[0 := one, 1 := Handler(path, [b, rest], 0, 0, Streaming)], []);
    assert [] + b == b;
    RunSnoc(AsWritten, EMPTY, events, Append(1));
    events := events + [Append(1)];
  }

  /** The code as written publishes a file that is no client's: the first writer's rename moves the
      second writer's half-written temporary file into place, and what the second one appends next
      changes the published file under its name. So overlapping Writes of one path must be excluded. */
  lemma TornFileIsPublished(path: Bytes, a: Bytes, b: Bytes, rest: Bytes) returns (events: seq<Event>)
    requires a != [] && b != [] && rest != []
    ensures var s := Run(AsWritten, EMPTY, events);
      var t := Next(AsWritten, s, Append(1));
      && View(s, path) == Some(Inode(b, 3))
      && s.log == [Publication(path, [a], 0, Some(3))]
      && View(t, path) == Some(Inode(b + rest, 4)) && t.log == s.log
  {
    hide Run;
    events := FirstStreamed(path, a);
    events := SecondStreaming(path, a, b, rest, events);
    var two := Handler(path, [b, rest], 1, 0, Streaming);
    RunSnoc(AsWritten, EMPTY, events, StatTmp(0));
    events := events + [StatTmp(0)];
    assert Run(AsWritten, EMPTY, events)
        == Two(path, Inode(b, 3), false, 4, Some(1), map[0 := Handler(path, [a], 1, 0, Stamped(Some(3))), 1 := two], []);
    RunSnoc(AsWritten, EMPTY, events, Rename(0));
    events := events + [Rename(0)];
    assert Run(AsWritten, EMPTY, events)
        == Two(path, Inode(b, 3), true, 4, Some(1), map[1 := two], [Publication(path, [a], 0, Some(3))]);
  }
}
