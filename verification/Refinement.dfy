/** The clients together with the server inode by inode, on one path: every run of this system is a
    run of the protocol, whose history is the server's log. What holds in the protocol therefore
    holds of the server with its mutex, temporary files, renames and concurrent handlers. */
module Refinement {
  import opened Basics
  import opened Chunks
  import opened StampCodec
  import opened Protocol
  import C = ClientCell
  import M = ServerMachine
  import A = AtomicPublication
  import I = Invariant
  import Reachable
  import Theorems

  /** `owners` says which client's upload a handler serves. */
  datatype System = System(server: M.Server, owners: map<CallId, ClientId>, cells: map<ClientId, C.Cell>)

  datatype SystemEvent = OfServer(step: M.Event) | OfClient(event: Event)

  /** The path under consideration, how the server's mutex is used, and the 16 bytes in which an
      instant is sent. */
  datatype Setting = Setting(path: Bytes, discipline: M.Discipline, stamp: nat -> Bytes)

  /** Up to this instant no two are sent as the same bytes, and none as an erasure. */
  ghost predicate Faithful(stamp: nat -> Bytes, clock: nat)
  {
    && (forall n: nat :: n < clock ==> |stamp(n)| == STAMP_LENGTH && stamp(n) != ERASED)
    && (forall m: nat, n: nat :: m < n < clock ==> stamp(m) != stamp(n))
  }

  // -- What the system looks like from the protocol ---------------------------------------------

  function VersionOf(x: Setting, c: M.Publication): Version
  {
    Version(Joined(c.want), if c.stamp.Some? then x.stamp(c.stamp.value) else [])
  }

  /** The versions of the path, in the order of their renames. */
  function Versions(x: Setting, log: seq<M.Publication>): seq<Version>
  {
    if log == [] then []
    else
      var before, last := Versions(x, log[..|log| - 1]), log[|log| - 1];
      if last.path == x.path then before + [VersionOf(x, last)] else before
  }

  function FileOf(x: Setting, s: M.Server): Option<Version>
  {
    match A.View(s, x.path)
    case None => None
    case Some(inode) => Some(Version(inode.data, x.stamp(inode.mtime)))
  }

  function UploadOf(w: M.Handler, owner: ClientId): Upload
  {
    Upload(owner, w.want, if w.phase.Ready? then [] else if w.got <= |w.want| then w.want[..w.got] else w.want)
  }

  function OwnerOf(owners: map<CallId, ClientId>, h: CallId): ClientId
  {
    if h in owners then owners[h] else 0
  }

  function UploadsOf(x: Setting, handlers: map<M.HandlerId, M.Handler>, owners: map<CallId, ClientId>): map<CallId, Upload>
  {
    map h | h in handlers && handlers[h].path == x.path :: UploadOf(handlers[h], OwnerOf(owners, h))
  }

  function Abs(x: Setting, s: System): State
  {
    State(FileOf(x, s.server), UploadsOf(x, s.server.handlers, s.owners), Versions(x, s.server.log), s.cells)
  }

  // -- Its steps ---------------------------------------------------------------------------------

  /** Uploads and removals on this path come from the clients only. */
  predicate Ours(x: Setting, e: M.Event)
  {
    (e.Arrive? && e.path == x.path) || (e.Remove? && e.path == x.path)
  }

  predicate Renames(x: Setting, s: System, e: M.Event)
  {
    e.Rename? && e.h in s.server.handlers && s.server.handlers[e.h].phase.Stamped? && s.server.handlers[e.h].path == x.path
  }

  ghost function NextOf(x: Setting, s: System, e: SystemEvent): System
  {
    match e
    case OfServer(step) =>
      if Ours(x, step) then s
      else
        var t := s.(server := M.Next(x.discipline, s.server, step));
        if Renames(x, s, step) then t.(cells := Replied(x, s, step.h)) else t
    case OfClient(event) => ClientStep(x, s, event)
  }

  /** The reply carries the timestamp taken before the rename. */
  function Replied(x: Setting, s: System, h: M.HandlerId): map<ClientId, C.Cell>
    requires Renames(x, s, M.Rename(h))
  {
    var id, stamp := OwnerOf(s.owners, h), s.server.handlers[h].phase.stamp;
    if id in s.cells && C.Awaits(s.cells[id], h) && stamp.Some?
    then s.cells[id := C.Next(s.cells[id], C.ReplyIs(x.stamp(stamp.value)))]
    else s.cells
  }

  /** A client knows of the server what its RPCs show it: the published file and its timestamp. */
  ghost function ClientStep(x: Setting, s: System, e: Event): System
  {
    match e
    case Start(id, h) =>
      if h !in s.server.handlers && MayStart(Abs(x, s), id, h) then
        var t := Started(Abs(x, s), id, h);
        System(M.Next(x.discipline, s.server, M.Arrive(h, x.path, t.uploads[h].want)), s.owners[h := id], t.cells)
      else s
    case Advance(id) =>
      var t := s.(cells := Next(Abs(x, s), e).cells);
      if id in s.cells && s.cells[id].pc.UnRpc? then t.(server := M.Next(x.discipline, s.server, M.Remove(x.path))) else t
    case Receive(_) => s
    case Commit(_, _) => s
    case Drop(_) => s
    case ServerCrash => s
    case _ => s.(cells := Next(Abs(x, s), e).cells)
  }

  ghost function RunOf(x: Setting, s: System, events: seq<SystemEvent>): System
  {
    if events == [] then s else NextOf(x, RunOf(x, s, events[..|events| - 1]), events[|events| - 1])
  }

  function StartOf(clients: set<ClientId>): System
  {
    System(M.EMPTY, map[], Initial(clients).cells)
  }

  // -- Steps of the server -----------------------------------------------------------------------

  /** What a server step is in the protocol, if it shows there at all. */
  ghost function Shown(x: Setting, s: System, e: M.Event): Option<Event>
  {
    match e
    case Append(h) => if h in s.server.handlers && s.server.handlers[h].path == x.path
                         && M.Next(x.discipline, s.server, e) != s.server then Some(Receive(h)) else None
    case Cancel(h) => if h in s.server.handlers && s.server.handlers[h].path == x.path
                         && s.server.handlers[h].phase.Closed? then Some(Drop(h)) else None
    case Rename(h) => if Renames(x, s, e) && s.server.handlers[h].phase.stamp.Some?
                      then Some(Commit(h, x.stamp(s.server.handlers[h].phase.stamp.value))) else None
    case PowerOff => Some(ServerCrash)
    case _ => None
  }

  ghost function Then(s: State, e: Option<Event>): State
  {
    if e.None? then s else Next(s, e.value)
  }

  lemma VersionsSnoc(x: Setting, log: seq<M.Publication>, c: M.Publication)
    ensures Versions(x, log + [c]) == if c.path == x.path then Versions(x, log) + [VersionOf(x, c)] else Versions(x, log)
  {
    assert (log + [c])[..|log|] == log;
  }

  lemma {:induction false} VersionsComeFromLog(x: Setting, log: seq<M.Publication>, v: Version)
    requires v in Versions(x, log)
    ensures exists c :: c in log && c.path == x.path && v == VersionOf(x, c)
  {
    var front, last := log[..|log| - 1], log[|log| - 1];
    if last.path == x.path && v == VersionOf(x, last) {
      assert last in log;
    } else {
      VersionsComeFromLog(x, front, v);
      var c :| c in front && c.path == x.path && v == VersionOf(x, c);
      assert c in log;
    }
  }

  /** Steps other than renames and removals on the path leave its file and its history alone. */
  lemma FileStays(x: Setting, s: M.Server, e: M.Event)
    requires !x.discipline.AsWritten? && A.Inv(x.discipline, s) && e != M.Remove(x.path)
    requires !(e.Rename? && e.h in s.handlers && s.handlers[e.h].phase.Stamped? && s.handlers[e.h].path == x.path)
    ensures FileOf(x, M.Next(x.discipline, s, e)) == FileOf(x, s)
    ensures Versions(x, M.Next(x.discipline, s, e).log) == Versions(x, s.log)
  {
    hide A.Inv;
    A.OtherView(x.discipline, s, e, x.path);
    if e.Rename? && M.Next(x.discipline, s, e).log != s.log {
      LogOfRename(x, s, e.h);
    }
  }

  lemma LogOfRename(x: Setting, s: M.Server, h: M.HandlerId)
    requires M.Next(x.discipline, s, M.Rename(h)).log != s.log
    ensures h in s.handlers && s.handlers[h].phase.Stamped?
    ensures var t, w := M.Next(x.discipline, s, M.Rename(h)), s.handlers[h];
      && t.log == s.log + [t.log[|s.log|]] && t.log[|s.log|].path == w.path && t.log[|s.log|].want == w.want
      && t.log[|s.log|].stamp == w.phase.stamp
      && Versions(x, t.log) == if w.path == x.path then Versions(x, s.log) + [VersionOf(x, t.log[|s.log|])] else Versions(x, s.log)
  {
    var t := M.Next(x.discipline, s, M.Rename(h));
    VersionsSnoc(x, s.log, t.log[|s.log|]);
  }

  /** The handlers of the path, as uploads. */
  lemma UploadsStep(x: Setting, s: System, e: M.Event)
    requires !x.discipline.AsWritten? && A.Inv(x.discipline, s.server) && !Ours(x, e) && !e.Rename?
    ensures UploadsOf(x, M.Next(x.discipline, s.server, e).handlers, s.owners) == Then(Abs(x, s), Shown(x, s, e)).uploads
  {
    hide A.Inv, UploadsOf, Versions, FileOf, M.Next, Next;
    if e.Append? {
      AppendUploads(x, s, e.h);
    } else if e.Cancel? {
      CancelUploads(x, s, e.h);
    } else {
      OtherUploads(x, s, e);
    }
  }

  /** One handler moves on. */
  lemma UploadsUpdate(x: Setting, handlers: map<M.HandlerId, M.Handler>, owners: map<CallId, ClientId>, h: CallId, w: M.Handler)
    requires h in handlers && handlers[h].path == w.path
    ensures UploadsOf(x, handlers[h := w], owners)
         == if w.path == x.path then UploadsOf(x, handlers, owners)[h := UploadOf(w, OwnerOf(owners, h))]
            else UploadsOf(x, handlers, owners)
  {
  }

  lemma AppendUploads(x: Setting, s: System, h: M.HandlerId)
    requires A.Inv(x.discipline, s.server)
    ensures UploadsOf(x, M.Next(x.discipline, s.server, M.Append(h)).handlers, s.owners)
         == Then(Abs(x, s), Shown(x, s, M.Append(h))).uploads
  {
    hide A.LockInv, A.DiskInv, A.LogInv, A.PubInv, Versions, FileOf, UploadsOf;
    var t := M.Next(x.discipline, s.server, M.Append(h));
    if t != s.server {
      var w := s.server.handlers[h];
      assert A.WriterInv(s.server, h);
      assert w.want[..w.got + 1][..w.got] == w.want[..w.got];
      assert t.handlers == s.server.handlers[h := w.(got := w.got + 1)] && t.handlers != s.server.handlers by {
        assert t.handlers[h].got != w.got;
      }
      UploadsUpdate(x, s.server.handlers, s.owners, h, w.(got := w.got + 1));
      if w.path == x.path {
        InUploads(x, s, h);
      }
    }
  }

  lemma InUploads(x: Setting, s: System, h: M.HandlerId)
    requires h in s.server.handlers && s.server.handlers[h].path == x.path
    ensures h in Abs(x, s).uploads && Abs(x, s).uploads[h] == UploadOf(s.server.handlers[h], OwnerOf(s.owners, h))
  {
  }

  lemma CancelUploads(x: Setting, s: System, h: M.HandlerId)
    ensures UploadsOf(x, M.Next(x.discipline, s.server, M.Cancel(h)).handlers, s.owners)
         == Then(Abs(x, s), Shown(x, s, M.Cancel(h))).uploads
  {
    hide Versions, FileOf;
  }

  lemma OtherUploads(x: Setting, s: System, e: M.Event)
    requires !Ours(x, e) && !e.Append? && !e.Cancel? && !e.Rename?
    ensures UploadsOf(x, M.Next(x.discipline, s.server, e).handlers, s.owners) == Then(Abs(x, s), Shown(x, s, e)).uploads
  {
    hide Versions, FileOf, UploadsOf, UploadOf;
    var t := M.Next(x.discipline, s.server, e);
    if (e.OpenTmp? || e.CloseTmp? || e.StatTmp?) && t != s.server {
      var w, v := s.server.handlers[e.h], t.handlers[e.h];
      assert t.handlers == s.server.handlers[e.h := v];
      UploadsUpdate(x, s.server.handlers, s.owners, e.h, v);
      SameUpload(w, v, OwnerOf(s.owners, e.h));
      if w.path == x.path {
        InUploads(x, s, e.h);
      }
    } else if e.Arrive? || e.PowerOff? {
      NewHandlers(x, s, e);
    }
  }

  /** Opening, closing and stamping the temporary file. */
  lemma SameUpload(w: M.Handler, v: M.Handler, owner: ClientId)
    requires v.want == w.want && !v.phase.Ready? && v.got == if w.phase.Ready? then 0 else w.got
    ensures UploadOf(v, owner) == UploadOf(w, owner)
  {
    assert v.want[..0] == [];
  }

  lemma NewHandlers(x: Setting, s: System, e: M.Event)
    requires !Ours(x, e) && (e.Arrive? || e.PowerOff?)
    ensures UploadsOf(x, M.Next(x.discipline, s.server, e).handlers, s.owners) == Then(Abs(x, s), Shown(x, s, e)).uploads
  {
    hide Versions, FileOf;
  }

  /** A server step that renames nothing on this path. */
  lemma QuietStep(x: Setting, s: System, e: M.Event)
    requires !x.discipline.AsWritten? && A.Inv(x.discipline, s.server) && !Ours(x, e) && !e.Rename?
    ensures Abs(x, NextOf(x, s, OfServer(e))) == Then(Abs(x, s), Shown(x, s, e))
  {
    hide A.Inv, M.Next, UploadsOf, FileOf, Versions;
    FileStays(x, s.server, e);
    UploadsStep(x, s, e);
    assert Then(Abs(x, s), Shown(x, s, e)) == Abs(x, s).(uploads := Then(Abs(x, s), Shown(x, s, e)).uploads);
  }

  lemma OtherRename(x: Setting, s: System, h: M.HandlerId)
    requires !x.discipline.AsWritten? && A.Inv(x.discipline, s.server) && !Renames(x, s, M.Rename(h))
    ensures Abs(x, NextOf(x, s, OfServer(M.Rename(h)))) == Abs(x, s)
  {
    hide A.Inv, FileOf, Versions;
    FileStays(x, s.server, M.Rename(h));
  }

  /** A rename on the path is a commit under a timestamp not used before. */
  lemma OurRename(x: Setting, s: System, h: M.HandlerId)
    requires !x.discipline.AsWritten? && A.Inv(x.discipline, s.server) && Renames(x, s, M.Rename(h))
    requires Faithful(x.stamp, s.server.clock)
    ensures Shown(x, s, M.Rename(h)).Some?
    ensures Abs(x, NextOf(x, s, OfServer(M.Rename(h)))) == Then(Abs(x, s), Shown(x, s, M.Rename(h)))
  {
    hide A.Inv, Faithful, UploadsOf, Versions, FileOf, A.View, M.Next;
    var w := s.server.handlers[h];
    A.RenameShows(x.discipline, s.server, h);
    RenamedServer(x, s.server, h);
    var mtime := x.stamp(w.phase.stamp.value);
    FreshStamp(x, s.server, h);
    RenamedUploads(x, s, h);
    var t := M.Next(x.discipline, s.server, M.Rename(h));
    assert MayCommit(Abs(x, s), h, mtime);
    assert FileOf(x, t) == Some(Version(Joined(w.want), mtime)) by { ShowsFile(x, t, Joined(w.want), w.phase.stamp.value); }
  }

  lemma ShowsFile(x: Setting, t: M.Server, data: Bytes, mtime: nat)
    requires A.View(t, x.path) == Some(M.Inode(data, mtime))
    ensures FileOf(x, t) == Some(Version(data, x.stamp(mtime)))
  {
  }

  lemma RenamedServer(x: Setting, s: M.Server, h: M.HandlerId)
    requires !x.discipline.AsWritten? && A.Inv(x.discipline, s)
    requires h in s.handlers && s.handlers[h].phase.Stamped? && s.handlers[h].path == x.path
    ensures var t, w := M.Next(x.discipline, s, M.Rename(h)), s.handlers[h];
      && w.phase.stamp.Some?
      && Versions(x, t.log) == Versions(x, s.log) + [Version(Joined(w.want), x.stamp(w.phase.stamp.value))]
      && t.handlers == s.handlers - {h} && w.got == |w.want|
  {
    hide A.LockInv, A.DiskInv, A.LogInv, A.PubInv;
    assert A.WriterInv(s, h);
    LogOfRename(x, s, h);
  }

  lemma RenamedUploads(x: Setting, s: System, h: M.HandlerId)
    requires Renames(x, s, M.Rename(h)) && s.server.handlers[h].got == |s.server.handlers[h].want|
    ensures var us, w := UploadsOf(x, s.server.handlers, s.owners), s.server.handlers[h];
      && h in us && us[h] == Upload(OwnerOf(s.owners, h), w.want, w.want)
      && UploadsOf(x, s.server.handlers - {h}, s.owners) == us - {h}
  {
    var w := s.server.handlers[h];
    assert w.want[..|w.want|] == w.want;
  }

  lemma FreshStamp(x: Setting, s: M.Server, h: M.HandlerId)
    requires !x.discipline.AsWritten? && A.Inv(x.discipline, s) && Faithful(x.stamp, s.clock)
    requires h in s.handlers && s.handlers[h].phase.Stamped? && s.handlers[h].phase.stamp.Some?
    ensures Fresh(Versions(x, s.log), x.stamp(s.handlers[h].phase.stamp.value))
  {
    hide A.PubInv, A.LockInv, Versions;
    A.RenameShows(x.discipline, s, h);
    assert A.WriterInv(s, h);
    var n := s.handlers[h].phase.stamp.value;
    assert n < s.clock;
    forall v | v in Versions(x, s.log) ensures v.mtime != x.stamp(n) {
      VersionsComeFromLog(x, s.log, v);
      var c :| c in s.log && c.path == x.path && v == VersionOf(x, c);
      assert A.Settled(s, c);
      assert c.stamp.value < s.clock && c.stamp.value != n;
    }
  }

  // -- Steps of the clients ----------------------------------------------------------------------

  lemma StartStep(x: Setting, s: System, id: ClientId, h: CallId)
    requires !x.discipline.AsWritten? && A.Inv(x.discipline, s.server)
    requires h !in s.server.handlers && MayStart(Abs(x, s), id, h)
    ensures Abs(x, ClientStep(x, s, Start(id, h))) == Next(Abs(x, s), Start(id, h))
  {
    hide A.Inv, FileOf, Versions, C.Next, A.View;
    var t := Started(Abs(x, s), id, h);
    ArriveShows(x, s.server, h, t.uploads[h].want);
    var handlers := s.server.handlers[h := M.Handler(x.path, t.uploads[h].want, 0, 0, M.Ready)];
    assert UploadsOf(x, handlers, s.owners[h := id]) == t.uploads;
  }

  lemma ArriveShows(x: Setting, s: M.Server, h: M.HandlerId, want: seq<Bytes>)
    requires h !in s.handlers && want != []
    ensures var t := M.Next(x.discipline, s, M.Arrive(h, x.path, want));
      && t.handlers == s.handlers[h := M.Handler(x.path, want, 0, 0, M.Ready)]
      && FileOf(x, t) == FileOf(x, s) && t.log == s.log
  {
  }

  lemma ClientStepRefines(x: Setting, s: System, e: Event)
    requires !x.discipline.AsWritten? && A.Inv(x.discipline, s.server)
    requires OwnEvent(s, e)
    ensures Abs(x, ClientStep(x, s, e)) == Next(Abs(x, s), e)
  {
    hide A.Inv, FileOf, Versions, C.Next, UploadsOf;
    if e.Start? {
      if e.id !in s.server.handlers && MayStart(Abs(x, s), e.client, e.id) {
        StartStep(x, s, e.client, e.id);
      }
    } else if e.Advance? && e.client in s.cells && s.cells[e.client].pc.UnRpc? {
      RemoveShows(x, s.server);
    }
  }

  lemma RemoveShows(x: Setting, s: M.Server)
    ensures var t := M.Next(x.discipline, s, M.Remove(x.path));
      FileOf(x, t) == None && t.handlers == s.handlers && t.log == s.log
  {
  }

  // -- Runs --------------------------------------------------------------------------------------

  /** Events of the protocol that are a client's, an upload starting under a number not in use. */
  predicate OwnEvent(s: System, e: Event)
  {
    !e.Receive? && !e.Commit? && !e.Drop? && !e.ServerCrash? && (e.Start? ==> e.id !in s.server.handlers)
  }

  /** What a step of the system is in the protocol: a client's step is itself. */
  ghost function StepOf(x: Setting, s: System, e: SystemEvent): Option<Event>
  {
    match e
    case OfServer(step) => if Ours(x, step) then None else Shown(x, s, step)
    case OfClient(event) => if OwnEvent(s, event) then Some(event) else None
  }

  lemma StepRefines(x: Setting, s: System, e: SystemEvent)
    requires !x.discipline.AsWritten? && A.Inv(x.discipline, s.server) && Faithful(x.stamp, s.server.clock)
    ensures Abs(x, NextOf(x, s, e)) == Then(Abs(x, s), StepOf(x, s, e))
    ensures A.Inv(x.discipline, NextOf(x, s, e).server) && s.server.clock <= NextOf(x, s, e).server.clock
  {
    hide A.Inv, M.Next, Abs, Faithful, Next, Shown;
    ServerKeeps(x, s, e);
    ClockOfStep(x, s, e);
    match e {
      case OfServer(m) =>
        if !Ours(x, m) {
          if !m.Rename? {
            QuietStep(x, s, m);
          } else if Renames(x, s, m) {
            OurRename(x, s, m.h);
          } else {
            OtherRename(x, s, m.h);
            NotShown(x, s, m.h);
          }
        }
      case OfClient(c) =>
        if OwnEvent(s, c) {
          ClientStepRefines(x, s, c);
        } else {
          NotOwn(x, s, c);
        }
    }
  }

  lemma NotShown(x: Setting, s: System, h: M.HandlerId)
    requires !Renames(x, s, M.Rename(h))
    ensures Shown(x, s, M.Rename(h)).None?
  {
  }

  lemma NotOwn(x: Setting, s: System, e: Event)
    requires !OwnEvent(s, e)
    ensures ClientStep(x, s, e) == s
  {
    hide Abs, M.Next, Next;
  }

  lemma ServerKeeps(x: Setting, s: System, e: SystemEvent)
    requires !x.discipline.AsWritten? && A.Inv(x.discipline, s.server)
    ensures A.Inv(x.discipline, NextOf(x, s, e).server)
  {
    hide A.Inv, M.Next, Abs, Next;
    var m := ServerEvent(x, s, e);
    if m.Some? {
      A.NextKeeps(x.discipline, s.server, m.value);
    }
  }

  lemma ClockOfStep(x: Setting, s: System, e: SystemEvent)
    ensures s.server.clock <= NextOf(x, s, e).server.clock
  {
    hide M.Next, Abs, Next;
    var m := ServerEvent(x, s, e);
    if m.Some? {
      ClockGrows(x.discipline, s.server, m.value);
    }
  }

  /** What a step of the system is to the server. */
  lemma ServerEvent(x: Setting, s: System, e: SystemEvent) returns (m: Option<M.Event>)
    ensures NextOf(x, s, e).server == if m.None? then s.server else M.Next(x.discipline, s.server, m.value)
  {
    hide M.Next, Abs, Next;
    m := None;
    match e {
      case OfServer(step) => if !Ours(x, step) { m := Some(step); }
      case OfClient(Start(id, h)) =>
        if h !in s.server.handlers && MayStart(Abs(x, s), id, h) {
          m := Some(M.Arrive(h, x.path, Started(Abs(x, s), id, h).uploads[h].want));
        }
      case OfClient(Advance(id)) => if id in s.cells && s.cells[id].pc.UnRpc? { m := Some(M.Remove(x.path)); }
      case _ =>
    }
  }

  lemma ClockGrows(d: M.Discipline, s: M.Server, m: M.Event)
    ensures s.clock <= M.Next(d, s, m).clock
  {
  }

  ghost function StepsOf(x: Setting, s: System, events: seq<SystemEvent>): seq<Event>
  {
    if events == [] then []
    else
      var front, e := events[..|events| - 1], events[|events| - 1];
      var step := StepOf(x, RunOf(x, s, front), e);
      StepsOf(x, s, front) + if step.Some? then [step.value] else []
  }

  /** Every run of the system, seen at the path, is a run of the protocol: the one of its steps. */
  lemma {:induction false} RunRefines(x: Setting, s: System, events: seq<SystemEvent>)
    requires !x.discipline.AsWritten? && A.Inv(x.discipline, s.server)
    requires Faithful(x.stamp, RunOf(x, s, events).server.clock)
    ensures Abs(x, RunOf(x, s, events)) == Run(Abs(x, s), StepsOf(x, s, events))
    ensures A.Inv(x.discipline, RunOf(x, s, events).server)
  {
    hide A.Inv, Abs, NextOf, Next, StepOf;
    if events == [] {
    } else {
      var front, e := events[..|events| - 1], events[|events| - 1];
      var t := RunOf(x, s, front);
      ClockOfStep(x, t, e);
      RunRefines(x, s, front);
      StepRefines(x, t, e);
      var step := StepOf(x, t, e);
      if step.Some? {
        Theorems.RunSnoc(Abs(x, s), StepsOf(x, s, front), step.value);
      } else {
        assert StepsOf(x, s, front) + [] == StepsOf(x, s, front);
      }
    }
  }

  /** The promises, over the server as it is built. In every run of clients and server, the power
      failing at any step, the server shows the version renamed last, whole and under its own
      timestamp, or nothing; and a client's clean copy named by that timestamp has its bytes. */
  lemma SystemIsCoherent(x: Setting, clients: set<ClientId>, events: seq<SystemEvent>, id: ClientId)
    requires !x.discipline.AsWritten? && id in clients
    requires Faithful(x.stamp, RunOf(x, StartOf(clients), events).server.clock)
    ensures var s := RunOf(x, StartOf(clients), events);
      var file, history := FileOf(x, s.server), Versions(x, s.server.log);
      && (file.Some? ==> history != [] && file.value == history[|history| - 1])
      && id in s.cells
      && (I.Named(file, s.cells[id]) && !s.cells[id].dirty && s.cells[id].cache.Some? ==> s.cells[id].cache.value == file.value.data)
      && (forall r :: r in s.cells[id].seen ==> r.index < |history| && r.data == history[r.index].data)
  {
    hide A.Inv, RunOf, Run, Next, StepsOf, I.CellInv, I.FileInv, A.View, UploadsOf, FileOf, Versions;
    StartRefines(x, clients);
    RunRefines(x, StartOf(clients), events);
    var steps := StepsOf(x, StartOf(clients), events);
    Reachable.InitialInv(clients);
    Theorems.LastWriterWins(Initial(clients), steps);
    Theorems.CacheCoherence(clients, steps, id);
    Theorems.OpensAreFreshAndMonotonic(clients, steps, id);
  }

  lemma StartRefines(x: Setting, clients: set<ClientId>)
    ensures Abs(x, StartOf(clients)) == Initial(clients) && A.Inv(x.discipline, M.EMPTY)
  {
  }

  // -- When the published file is there ----------------------------------------------------------

  /** A rename on the path. */
  ghost predicate Publishes(x: Setting, s: System, e: SystemEvent)
  {
    e.OfServer? && Renames(x, s, e.step)
  }

  /** The Unlink RPC of a client's afs_unlink reaches the server. */
  ghost predicate Removes(s: System, e: SystemEvent)
  {
    e.OfClient? && e.event.Advance? && e.event.client in s.cells && s.cells[e.event.client].pc.UnRpc?
  }

  /** A rename publishes its stream, a completed unlink removes what was published, and no other step
      of the system touches it. */
  lemma PublishedAfter(x: Setting, s: System, e: SystemEvent)
    requires !x.discipline.AsWritten? && A.Inv(x.discipline, s.server) && Faithful(x.stamp, s.server.clock)
    ensures var before, after := FileOf(x, s.server), FileOf(x, NextOf(x, s, e).server);
      && (Publishes(x, s, e) ==> after.Some? && after.value.data == Joined(s.server.handlers[e.step.h].want))
      && (Removes(s, e) ==> after == None)
      && (!Publishes(x, s, e) && !Removes(s, e) ==> after == before)
  {
    hide A.Inv, M.Next, Faithful, Versions, C.Next, FileOf, UploadsOf, NextOf;
    StepRefines(x, s, e);
    var step := StepOf(x, s, e);
    if step.Some? {
      Theorems.FileAfter(Abs(x, s), step.value);
    }
    if Publishes(x, s, e) {
      OurRename(x, s, e.step.h);
      RenamedServer(x, s.server, e.step.h);
      RenamedUploads(x, s, e.step.h);
      FreshStamp(x, s.server, e.step.h);
    }
  }

  ghost predicate PublishesAt(x: Setting, s: System, events: seq<SystemEvent>, k: int)
  {
    0 <= k < |events| && Publishes(x, RunOf(x, s, events[..k]), events[k])
  }

  ghost predicate RemovesAt(x: Setting, s: System, events: seq<SystemEvent>, k: int)
  {
    0 <= k < |events| && Removes(RunOf(x, s, events[..k]), events[k])
  }

  ghost predicate Standing(x: Setting, s: System, events: seq<SystemEvent>, n: int, k: int)
  {
    0 <= k < n && PublishesAt(x, s, events, k) && forall j :: k < j < n ==> !RemovesAt(x, s, events, j)
  }

  /** Over runs of the server as it is built: the path has a published file if and only if some
      rename has no completed unlink after it. */
  lemma {:induction false} PublishedIff(x: Setting, s: System, events: seq<SystemEvent>, n: nat)
    requires !x.discipline.AsWritten? && A.Inv(x.discipline, s.server) && FileOf(x, s.server).None? && n <= |events|
    requires Faithful(x.stamp, RunOf(x, s, events[..n]).server.clock)
    ensures FileOf(x, RunOf(x, s, events[..n]).server).Some? <==> exists k :: Standing(x, s, events, n, k)
  {
    hide A.Inv, RunOf, NextOf, Publishes, Removes, FileOf;
    if n == 0 {
      NoRun(x, s);
    } else {
      var m := n - 1;
      var t := RunOf(x, s, events[..m]);
      SystemSnoc(x, s, events, m);
      ClockOfStep(x, t, events[m]);
      PublishedIff(x, s, events, m);
      RunRefines(x, s, events[..m]);
      PublishedAfter(x, t, events[m]);
      NeverBoth(x, t, events[m]);
      StandingMore(x, s, events, m, n);
    }
  }

  lemma StandingMore(x: Setting, s: System, events: seq<SystemEvent>, m: nat, n: nat)
    requires m < |events| && n == m + 1 && !(PublishesAt(x, s, events, m) && RemovesAt(x, s, events, m))
    ensures (exists k :: Standing(x, s, events, n, k))
       <==> PublishesAt(x, s, events, m) || (!RemovesAt(x, s, events, m) && exists k :: Standing(x, s, events, m, k))
  {
    hide PublishesAt, RemovesAt;
    if PublishesAt(x, s, events, m) {
      assert Standing(x, s, events, n, m);
    } else if !RemovesAt(x, s, events, m) {
      forall k ensures Standing(x, s, events, n, k) <==> Standing(x, s, events, m, k) {
      }
    } else {
      forall k ensures !Standing(x, s, events, n, k) {
      }
    }
  }

  lemma NoRun(x: Setting, s: System)
    ensures RunOf(x, s, []) == s
  {
  }

  lemma SystemSnoc(x: Setting, s: System, events: seq<SystemEvent>, m: nat)
    requires m < |events|
    ensures RunOf(x, s, events[..m + 1]) == NextOf(x, RunOf(x, s, events[..m]), events[m])
  {
    hide NextOf;
    assert events[..m + 1][..m] == events[..m];
  }

  lemma NeverBoth(x: Setting, s: System, e: SystemEvent)
    ensures !(Publishes(x, s, e) && Removes(s, e))
  {
  }
}
