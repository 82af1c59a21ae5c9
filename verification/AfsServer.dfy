/** The server's RPC handlers as they run when nothing interferes: each is a run of the machine. */
module AfsService {
  import opened Basics
  import opened Chunks
  import opened ServerMachine
  import AtomicPublication

  datatype WriteReply = Cancelled | Done(stamp: Option<nat>)
  datatype ContentReply = NoFile | Content(mtime: nat, msgs: seq<Bytes>)

  class AfsServer {
    var inodes: map<Ino, Inode>
    var tmp: map<Bytes, Ino>
    var pub: map<Bytes, Ino>
    var nextIno: Ino
    var clock: nat
    ghost var log: seq<Publication>

    /** The server at rest. */
    ghost function AtRest(): Server
      reads this
    {
      Server(inodes, tmp, pub, nextIno, clock, None, map[], log)
    }

    ghost function Busy(h: Handler, lock: Option<HandlerId>): Server
      reads this
    {
      Server(inodes, tmp, pub, nextIno, clock, lock, map[0 := h], log)
    }

    /** What clients can see at a path. */
    ghost function Shown(path: Bytes): Option<Inode>
      reads this
    {
      AtomicPublication.View(AtRest(), path)
    }

    ghost predicate Valid(d: Discipline)
      reads this
    {
      AtomicPublication.Inv(d, AtRest())
    }

    constructor ()
      ensures AtRest() == EMPTY
    {
      inodes, tmp, pub, nextIno, clock, log := map[], map[], map[], 0, 0, [];
    }

    /** The temporary file is truncated if it exists and made if it does not. */
    method OpenTmpFile(path: Bytes, ghost stream: seq<Bytes>) returns (ino: Ino, ghost events: seq<Event>)
      requires stream != []
      modifies this`inodes, this`tmp, this`nextIno, this`clock
      ensures path in tmp && tmp[path] == ino && ino in inodes
      ensures Run(NoOverlap, old(AtRest()), events) == Busy(Handler(path, stream, 0, ino, Streaming), Some(0))
    {
      hide Run, Next;
      events := [Arrive(0, path, stream), OpenTmp(0)];
      OpenRun(AtRest(), path, stream);
      ino := if path in tmp then tmp[path] else nextIno;
      nextIno := if path in tmp then nextIno else nextIno + 1;
      inodes, tmp, clock := inodes[ino := Inode([], clock)], tmp[path := ino], clock + 1;
    }

    /** The part of Write under the mutex: open the temporary file and append every message. */
    method Receive(path: Bytes, stream: seq<Bytes>) returns (ino: Ino, ghost events: seq<Event>)
      requires stream != []
      modifies this`inodes, this`tmp, this`nextIno, this`clock
      ensures path in tmp && tmp[path] == ino && ino in inodes
      ensures Run(NoOverlap, old(AtRest()), events) == Busy(Handler(path, stream, |stream|, ino, Streaming), Some(0))
    {
      hide Run, Next, Joined;
      ghost var start := AtRest();
      ino, events := OpenTmpFile(path, stream);
      var i := 0;
      while i < |stream|
        invariant 0 <= i <= |stream| && ino in inodes
        invariant Run(NoOverlap, start, events) == Busy(Handler(path, stream, i, ino, Streaming), Some(0))
        modifies this`inodes, this`clock
      {
        ghost var w := Handler(path, stream, i, ino, Streaming);
        AppendRun(start, events, Busy(w, Some(0)), w);
        events := events + [Append(0)];
        if stream[i] != [] {
          inodes, clock := inodes[ino := Inode(inodes[ino].data + stream[i], clock)], clock + 1;
        }
        i := i + 1;
      }
    }

    /** Write: the messages go to the temporary file; an uncancelled stream is then stamped and
        renamed into place. */
    method Write(path: Bytes, stream: seq<Bytes>, cancelled: bool) returns (reply: WriteReply, ghost events: seq<Event>)
      requires Valid(NoOverlap) && stream != []
      modifies this
      ensures Valid(NoOverlap) && AtRest() == Run(NoOverlap, old(AtRest()), events)
      ensures cancelled ==> reply == Cancelled && pub == old(pub) && log == old(log)
      ensures !cancelled ==>
        && path in pub && pub == old(pub)[path := pub[path]]
        && pub[path] in inodes && inodes[pub[path]].data == Joined(stream)
        && reply == Done(Some(inodes[pub[path]].mtime))
      ensures OthersStay(old(AtRest()), AtRest(), path)
    {
      hide Run, Next, AtomicPublication.Inv, OthersStay;
      ghost var start := AtRest();
      var ino;
      ino, events := Receive(path, stream);
      ghost var busy := Busy(Handler(path, stream, |stream|, ino, Streaming), Some(0));
      if cancelled {
        EndRun(start, events, busy.handlers[0], busy);
        events := events + [CloseTmp(0), Cancel(0)];
        reply := Cancelled;
      } else {
        PublishRun(start, events, busy.handlers[0], busy);
        events := events + [CloseTmp(0), StatTmp(0), Rename(0)];
        reply := Done(Some(inodes[ino].mtime));
        log := log + [Publication(path, stream, ino, Some(inodes[ino].mtime))];
        pub, tmp := pub[path := ino], tmp - {path};
      }
      AtomicPublication.RunKeeps(NoOverlap, start, events);
      OthersDoStay(start, AtRest(), path);
      if !cancelled {
        LastIsWhole(AtRest());
      }
    }

    /** GetContent: the file is opened and stamped, then sent in messages; the stream takes
        `accepts` of them. */
    method GetContent(path: Bytes, accepts: nat) returns (reply: ContentReply)
      requires Valid(NoOverlap)
      ensures reply.NoFile? <==> path !in pub
      ensures reply.Content? ==> Shown(path).Some? && reply.mtime == Shown(path).value.mtime
      ensures reply.Content? ==> IsSent(reply.msgs, Shown(path).value.data, accepts)
    {
      if path !in pub {
        return NoFile;
      }
      PublishedExists(AtRest(), path);
      var file := inodes[pub[path]];
      var msgs := SendFile(file.data, accepts);
      reply := Content(file.mtime, msgs);
    }

    /** Stat: the timestamp, unless there is no such file. */
    method Stat(path: Bytes) returns (mtime: Option<nat>)
      requires Valid(NoOverlap)
      ensures mtime == match Shown(path) case None => None case Some(file) => Some(file.mtime)
    {
      if path !in pub {
        return None;
      }
      PublishedExists(AtRest(), path);
      mtime := Some(inodes[pub[path]].mtime);
    }

    method Unlink(path: Bytes) returns (ok: bool)
      requires Valid(NoOverlap)
      modifies this`pub
      ensures Valid(NoOverlap) && AtRest() == Next(NoOverlap, old(AtRest()), Remove(path))
      ensures ok <==> path in old(pub)
      ensures Shown(path) == None && OthersStay(old(AtRest()), AtRest(), path)
    {
      AtomicPublication.NextKeeps(NoOverlap, AtRest(), Remove(path));
      ghost var start := AtRest();
      ok := path in pub;
      pub := pub - {path};
      OthersDoStay(start, AtRest(), path);
    }
  }

  lemma PublishedExists(s: Server, path: Bytes)
    requires AtomicPublication.Inv(NoOverlap, s) && path in s.pub
    ensures s.pub[path] in s.inodes
  {
    var k :| AtomicPublication.IsLast(s.log, path, k) && s.log[k].ino == s.pub[path];
    assert AtomicPublication.Settled(s, s.log[k]);
  }

  /** The published files of all other paths are the same inodes with the same bytes as before. */
  ghost predicate OthersStay(s: Server, t: Server, path: Bytes)
  {
    forall p :: p != path && p in s.pub ==>
      p in t.pub && t.pub[p] == s.pub[p] && s.pub[p] in s.inodes && t.pub[p] in t.inodes
      && t.inodes[t.pub[p]] == s.inodes[s.pub[p]]
  }

  lemma OthersDoStay(s: Server, t: Server, path: Bytes)
    requires AtomicPublication.Inv(NoOverlap, s) && AtomicPublication.Inv(NoOverlap, t) && s.log <= t.log
    requires forall p :: p != path && p in s.pub ==> p in t.pub && t.pub[p] == s.pub[p]
    ensures OthersStay(s, t, path)
  {
    forall p | p != path && p in s.pub
      ensures s.pub[p] in s.inodes && t.pub[p] in t.inodes && t.inodes[t.pub[p]] == s.inodes[s.pub[p]]
    {
      var k :| AtomicPublication.IsLast(s.log, p, k) && s.log[k].ino == s.pub[p];
      assert s.log[k] == t.log[k];
      assert AtomicPublication.Settled(s, s.log[k]) && AtomicPublication.Settled(t, s.log[k]);
    }
  }

  lemma AppendRun(s: Server, events: seq<Event>, busy: Server, w: Handler)
    requires Run(NoOverlap, s, events) == busy && busy.handlers == map[0 := w]
    requires w.phase.Streaming? && w.got < |w.want| && w.ino in busy.inodes
    ensures Run(NoOverlap, s, events + [Append(0)])
         == (if w.want[w.got] == [] then busy.(handlers := map[0 := w.(got := w.got + 1)])
             else busy.(inodes := busy.inodes[w.ino := Inode(busy.inodes[w.ino].data + w.want[w.got], busy.clock)],
                        clock := busy.clock + 1, handlers := map[0 := w.(got := w.got + 1)]))
  {
    AtomicPublication.RunSnoc(NoOverlap, s, events, Append(0));
  }

  lemma LastIsWhole(t: Server)
    requires AtomicPublication.Inv(NoOverlap, t) && t.log != []
    ensures var c := t.log[|t.log| - 1]; c.ino in t.inodes && t.inodes[c.ino].data == Joined(c.want)
  {
    assert AtomicPublication.Settled(t, t.log[|t.log| - 1]);
  }

  function InoFor(s: Server, path: Bytes): Ino
  {
    if path in s.tmp then s.tmp[path] else s.nextIno
  }

  /** The server with one handler, which has just opened its temporary file. */
  function Opened(s: Server, path: Bytes, stream: seq<Bytes>): Server
  {
    s.(inodes := s.inodes[InoFor(s, path) := Inode([], s.clock)], clock := s.clock + 1,
       tmp := s.tmp[path := InoFor(s, path)], nextIno := if path in s.tmp then s.nextIno else s.nextIno + 1,
       lock := Some(0), handlers := map[0 := Handler(path, stream, 0, InoFor(s, path), Streaming)])
  }

  lemma OpenRun(s: Server, path: Bytes, stream: seq<Bytes>)
    requires s.handlers == map[] && s.lock.None? && stream != []
    ensures Run(NoOverlap, s, [Arrive(0, path, stream), OpenTmp(0)]) == Opened(s, path, stream)
  {
    hide Run, Next, InoFor;
    var none: seq<Event> := [];
    var arrive := Arrive(0, path, stream);
    var arrived := s.(handlers := map[0 := Handler(path, stream, 0, 0, Ready)]);
    assert none + [arrive] == [arrive] && [arrive] + [OpenTmp(0)] == [arrive, OpenTmp(0)];
    AtomicPublication.RunNothing(NoOverlap, s);
    AtomicPublication.RunSnoc(NoOverlap, s, none, arrive);
    AtomicPublication.RunSnoc(NoOverlap, s, [arrive], OpenTmp(0));
    ArriveFirst(s, path, stream);
    SameOpened(s, arrived, path, stream);
    OpenFirst(arrived, path, stream);
  }

  lemma SameOpened(s: Server, t: Server, path: Bytes, stream: seq<Bytes>)
    requires t == s.(handlers := t.handlers)
    ensures Opened(t, path, stream) == Opened(s, path, stream)
  {
  }

  lemma ArriveFirst(s: Server, path: Bytes, stream: seq<Bytes>)
    requires s.handlers == map[] && stream != []
    ensures Next(NoOverlap, s, Arrive(0, path, stream)) == s.(handlers := map[0 := Handler(path, stream, 0, 0, Ready)])
  {
  }

  lemma OpenFirst(s: Server, path: Bytes, stream: seq<Bytes>)
    requires s.handlers == map[0 := Handler(path, stream, 0, 0, Ready)] && s.lock.None?
    ensures Next(NoOverlap, s, OpenTmp(0)) == Opened(s, path, stream)
  {
    assert map[0 := Handler(path, stream, 0, 0, Ready)][0 := Handler(path, stream, 0, InoFor(s, path), Streaming)]
        == map[0 := Handler(path, stream, 0, InoFor(s, path), Streaming)];
  }

  lemma EndRun(s: Server, events: seq<Event>, h: Handler, busy: Server)
    requires Run(NoOverlap, s, events) == busy && busy.handlers == map[0 := h] && busy.lock == Some(0) && h.phase.Streaming?
    ensures Run(NoOverlap, s, events + [CloseTmp(0), Cancel(0)]) == busy.(handlers := map[], lock := None)
  {
    hide Run;
    AtomicPublication.RunSnoc(NoOverlap, s, events, CloseTmp(0));
    AtomicPublication.RunSnoc(NoOverlap, s, events + [CloseTmp(0)], Cancel(0));
    assert events + [CloseTmp(0)] + [Cancel(0)] == events + [CloseTmp(0), Cancel(0)];
  }

  lemma PublishRun(s: Server, events: seq<Event>, h: Handler, busy: Server)
    requires Run(NoOverlap, s, events) == busy && busy.handlers == map[0 := h] && busy.lock == Some(0)
    requires h.phase.Streaming? && h.got == |h.want|
    requires h.path in busy.tmp && busy.tmp[h.path] == h.ino && h.ino in busy.inodes
    ensures var stamp := Some(busy.inodes[h.ino].mtime);
      Run(NoOverlap, s, events + [CloseTmp(0), StatTmp(0), Rename(0)])
      == busy.(handlers := map[], lock := None, pub := busy.pub[h.path := h.ino], tmp := busy.tmp - {h.path},
               log := busy.log + [Publication(h.path, h.want, h.ino, stamp)])
  {
    hide Run;
    AtomicPublication.RunSnoc(NoOverlap, s, events, CloseTmp(0));
    AtomicPublication.RunSnoc(NoOverlap, s, events + [CloseTmp(0)], StatTmp(0));
    AtomicPublication.RunSnoc(NoOverlap, s, events + [CloseTmp(0)] + [StatTmp(0)], Rename(0));
    assert events + [CloseTmp(0)] + [StatTmp(0)] + [Rename(0)] == events + [CloseTmp(0), StatTmp(0), Rename(0)];
  }
}
