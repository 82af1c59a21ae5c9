/** One client's dealings with one path, as an automaton. Its state is what the client keeps on
    disk for the path (cache file, server timestamp, dirty flag) and where a FUSE callback stands.
    Every step makes at most one durable change, so a crash can fall between any two of them. */
module ClientCell {
  import opened Basics
  import opened Chunks
  import opened StampCodec

  /** The file handle of the path: none, one on the present cache file, or one that reaches no
      cache file any more (the file was unlinked under it, or open returned -1, which the unsigned
      comparison `fi->fh < 0` never notices). */
  datatype Handle = Closed | Live | Detached

  /** Bookkeeping: an open that checked the server and found the copy clean returned version
      `index` of the path; `since` versions had been committed when that open began. */
  datatype Read = Read(since: nat, index: nat, data: Bytes)

  type CallId = int

  datatype Pc =
    | Idle
    | Exited                                // afs_release called exit(1); a restart comes next
    | Dead                                  // the restart ran into assert(false), and always will
      // afs_open
    | OpenStat(since: nat)                  // Stat sent
    | OpenEvict(since: nat)                 // timestamps differ; the entry goes next
    | OpenUnlink(since: nat)                // the cache file goes next
    | OpenFetch(since: nat)                 // GetContent sent
    | OpenReceive(since: nat, index: nat, mtime: Bytes, msgs: seq<Bytes>)   // messages to come
    | OpenClosed(since: nat, index: nat, mtime: Bytes)                      // cache file complete
    | OpenStamped(since: nat, index: nat)   // timestamp set; the dirty flag is cleared next
    | OpenAbsent                            // the server has no such file
    | OpenCreat                             // marked as local; the file is created next
    | OpenLocalClean
      // afs_write
    | Writing(offset: nat, bytes: Bytes)    // dirty flag set; pwrite next
      // afs_release
    | RelSend(data: Bytes)                  // Write about to start
    | RelWait(data: Bytes, call: CallId)    // stream open, Finish not returned
    | RelReply(data: Bytes, mtime: Bytes)   // the server's reply is on its way
    | RelClean(data: Bytes, mtime: Bytes)   // dirty flag cleared; timestamp next
      // afs_mknod
    | MkStat | MkCreate | MkSend | MkWait(call: CallId) | MkReply(mtime: Bytes)
      // afs_unlink, the cache file being gone
    | UnStamp | UnDirty | UnRpc

  /** `marked` says that a record with the mark of a local file stands for this path in the files
      of the timestamps, be it that a later record replaced the value. */
  datatype Cell = Cell(
    cache: Option<Bytes>, stamp: Option<Bytes>, dirty: bool, marked: bool,   // on disk
    pc: Pc, handle: Handle,                                    // in memory
    torn: bool, seen: seq<Read>)                              // bookkeeping: half a download; see Read

  datatype Call = Open | Write(offset: nat, bytes: Bytes) | Release | Mknod | Unlink

  datatype Input =
    | Begin(call: Call, now: nat)                      // a callback starts, `now` versions committed
    | Step                                             // the client's own next action
    | StatIs(reply: Option<Bytes>, index: nat)         // Stat answered
    | ContentIs(index: nat, mtime: Bytes, msgs: seq<Bytes>)   // GetContent opened a version
    | ContentAbsent
    | UploadStarted(id: CallId)
    | ReplyIs(mtime: Bytes)                            // Write answered
    | Failed                                           // the RPC (or system call) under way fails
    | Snapshot                                         // of the timestamps, of all paths
    | Crash(tombstone: bool, aborts: bool)             // crash and restart; another path's mark aborts it

  function PWrite(data: Bytes, offset: nat, bytes: Bytes): (r: Bytes)
    ensures |r| == if |data| < offset + |bytes| then offset + |bytes| else |data|
    ensures forall i :: 0 <= i < |r| ==>
      r[i] == if offset <= i < offset + |bytes| then bytes[i - offset] else if i < |data| then data[i] else 0
  {
    var end := offset + |bytes|;
    var padded := if |data| < end then data + seq(end - |data|, _ => 0) else data;
    padded[..offset] + bytes + padded[end..]
  }

  /** fi->fh = open(cachepath). */
  function Opened(c: Cell): Cell
  {
    c.(pc := Idle, handle := if c.cache.Some? then Live else Detached)
  }

  function Next(c: Cell, i: Input): Cell
  {
    match i
    case Begin(call, now) => if c.pc.Idle? then BeginCall(c, call, now) else c
    case Step => OwnStep(c)
    case StatIs(mtime, index) => OnStat(c, mtime, index)
    case ContentIs(index, mtime, msgs) =>
      if c.pc.OpenFetch?
      then c.(cache := Some([]), torn := true, pc := OpenReceive(c.pc.since, index, mtime, msgs))
      else c
    case ContentAbsent => if c.pc.OpenFetch? then c.(pc := OpenAbsent) else c
    case UploadStarted(call) =>
      if c.pc.RelSend? then c.(pc := RelWait(c.pc.data, call)) else if c.pc.MkSend? then c.(pc := MkWait(call)) else c
    case ReplyIs(mtime) =>
      if c.pc.RelWait? then c.(pc := RelReply(c.pc.data, mtime))
      else if c.pc.MkWait? then c.(pc := MkReply(mtime)) else c
    case Failed => OnFailure(c)
    case Snapshot => if c.pc.Exited? || c.pc.Dead? then c else c.(marked := c.stamp == Some(LOCAL))
    case Crash(tombstone, aborts) => Restarted(c, tombstone, aborts)
  }

  function BeginCall(c: Cell, call: Call, now: nat): Cell
    requires c.pc.Idle?
  {
    match call
    case Open =>
      if !c.handle.Closed? then c
      else if c.stamp.None? then c.(pc := OpenFetch(now))
      else if c.stamp.value == LOCAL then Opened(c)
      else c.(pc := OpenStat(now))
    case Write(offset, bytes) =>
      if c.handle.Closed? then c else c.(dirty := true, pc := Writing(offset, bytes))
    case Release =>
      if c.handle.Closed? then c
      else if !c.dirty then c.(handle := Closed)
      else if c.cache.None? then c.(handle := Closed, pc := Exited)
      else c.(handle := Closed, pc := RelSend(c.cache.value))
    case Mknod => c.(pc := MkStat)
    case Unlink =>
      c.(cache := None, torn := false, handle := if c.handle.Closed? then Closed else Detached, pc := UnStamp)
  }

  function OwnStep(c: Cell): Cell
  {
    match c.pc
    case OpenEvict(since) => c.(stamp := None, pc := OpenUnlink(since))
    case OpenUnlink(since) => c.(cache := None, torn := false, pc := OpenFetch(since))
    case OpenReceive(since, index, mtime, msgs) =>
      if msgs == [] then c.(torn := false, pc := OpenClosed(since, index, mtime))
      else if c.cache.Some? then c.(cache := Some(c.cache.value + msgs[0]), pc := OpenReceive(since, index, mtime, msgs[1..]))
      else c
    case OpenClosed(since, index, mtime) => c.(stamp := Some(mtime), pc := OpenStamped(since, index))
    case OpenStamped(since, index) =>
      var r := if c.cache.Some? then [Read(since, index, c.cache.value)] else [];
      Opened(c.(dirty := false, seen := c.seen + r))
    case OpenAbsent => c.(stamp := Some(LOCAL), marked := true, pc := OpenCreat)
    case OpenCreat => c.(cache := Some([]), torn := false, pc := OpenLocalClean)
    case OpenLocalClean => Opened(c.(dirty := false))
    case Writing(offset, bytes) =>
      if c.handle.Live? && c.cache.Some? then c.(cache := Some(PWrite(c.cache.value, offset, bytes)), pc := Idle)
      else c.(pc := Idle)
    case RelReply(data, mtime) => c.(dirty := false, pc := RelClean(data, mtime))
    case RelClean(data, mtime) => c.(stamp := Some(mtime), pc := Idle)
    case MkCreate => if c.cache.Some? then c.(pc := Idle) else c.(cache := Some([]), torn := false, pc := MkSend)
    case MkReply(mtime) => c.(stamp := Some(mtime), pc := Idle)
    case UnStamp => c.(stamp := None, pc := UnDirty)
    case UnDirty => c.(dirty := false, pc := UnRpc)
    case UnRpc => c.(pc := Idle)
    case _ => c
  }

  /** A missing file has no timestamp: its reply carries the empty string. */
  function OnStat(c: Cell, mtime: Option<Bytes>, index: nat): Cell
  {
    match c.pc
    case OpenStat(since) =>
      if c.stamp == Some(if mtime.Some? then mtime.value else []) then
        var r := if !c.dirty && c.cache.Some? then [Read(since, index, c.cache.value)] else [];
        Opened(c.(seen := c.seen + r))
      else c.(pc := OpenEvict(since))
    case MkStat => c.(pc := if mtime.Some? then Idle else MkCreate)
    case _ => c
  }

  /** A failed Stat leaves the default reply: an empty timestamp for afs_open, return code 0 (the
      file exists) for afs_mknod. */
  function OnFailure(c: Cell): Cell
  {
    match c.pc
    case OpenStat(since) => c.(pc := OpenEvict(since))
    case OpenFetch(_) => c.(pc := Idle)
    case OpenReceive(_, _, _, _) => c.(pc := Idle)
    case Writing(_, _) => c.(pc := Idle)
    case RelSend(_) => c.(pc := Idle)
    case RelWait(_, _) => c.(pc := Idle)
    case RelReply(_, _) => c.(pc := Idle)
    case MkStat => c.(pc := Idle)
    case MkSend => c.(pc := Idle)
    case MkWait(_) => c.(pc := Idle)
    case MkReply(_) => c.(pc := Idle)
    case UnRpc => c.(pc := Idle)
    case _ => c
  }

  /** The tables recover exactly what was logged, except that an erased timestamp may come back as
      a tombstone; a mark on the disk, of this path or another, keeps the client from starting. */
  function Restarted(c: Cell, tombstone: bool, aborts: bool): Cell
  {
    if c.pc.Dead? || c.marked || aborts then c.(pc := Dead, handle := Closed)
    else
      c.(pc := Idle, handle := Closed,
         stamp := if c.stamp.None? || c.stamp.value == ERASED
                  then (if tombstone then Some(ERASED) else None) else c.stamp)
  }

  /** The client waits for the reply to this upload. */
  predicate Awaits(c: Cell, call: CallId)
  {
    (c.pc.RelWait? && c.pc.call == call) || (c.pc.MkWait? && c.pc.call == call)
  }
}

/** All clients and the server on one path: every interleaving of their steps, RPC failures,
    client crashes and server crashes. Any number of uploads may be under way; each is committed
    whole or not at all (Refinement shows the server to do that). A version is opened and
    stamped by GetContent in one step. */
module Protocol {
  import opened Basics
  import opened Chunks
  import opened StampCodec
  import C = ClientCell

  type ClientId = nat
  type CallId = C.CallId

  datatype Version = Version(data: Bytes, mtime: Bytes)

  /** A Write handler: what the client sends and what has arrived. */
  datatype Upload = Upload(owner: ClientId, want: seq<Bytes>, got: seq<Bytes>)

  /** `history` is bookkeeping: every version ever committed, in the order of the renames. */
  datatype State = State(
    file: Option<Version>, uploads: map<CallId, Upload>, history: seq<Version>, cells: map<ClientId, C.Cell>)

  datatype Event =
    | Call(client: ClientId, call: C.Call)
    | Advance(client: ClientId)       // the client's next action, or the RPC it is in other than Write
    | Start(client: ClientId, id: CallId)   // its Write RPC starts
    | Fail(client: ClientId)          // the RPC it is in fails
    | Receive(id: CallId)             // one more message of an upload arrives
    | Commit(id: CallId, mtime: Bytes)   // the handler, having the whole stream, renames
    | Drop(id: CallId)                // the handler ends without renaming
    | Snapshot(client: ClientId)
    | ClientCrash(client: ClientId, tombstone: bool, aborts: bool)
    | ServerCrash

  function SetCell(s: State, id: ClientId, i: C.Input): State
    requires id in s.cells
  {
    s.(cells := s.cells[id := C.Next(s.cells[id], i)])
  }

  ghost predicate Fresh(history: seq<Version>, mtime: Bytes)
  {
    |mtime| == STAMP_LENGTH && mtime != ERASED && forall v :: v in history ==> v.mtime != mtime
  }

  /** Events that cannot happen in a state change nothing. */
  ghost function Next(s: State, e: Event): State
  {
    match e
    case Call(id, call) => if id in s.cells then SetCell(s, id, C.Begin(call, |s.history|)) else s
    case Advance(id) => if id in s.cells then Advanced(s, id) else s
    case Start(id, call) => if MayStart(s, id, call) then Started(s, id, call) else s
    case Fail(id) => if id in s.cells then SetCell(s, id, C.Failed) else s
    case Receive(call) => if call in s.uploads then s.(uploads := s.uploads[call := Received(s.uploads[call])]) else s
    case Commit(call, mtime) => if MayCommit(s, call, mtime) then Committed(s, call, mtime) else s
    case Drop(call) => s.(uploads := s.uploads - {call})
    case Snapshot(id) => if id in s.cells then SetCell(s, id, C.Snapshot) else s
    case ClientCrash(id, tombstone, aborts) => if id in s.cells then SetCell(s, id, C.Crash(tombstone, aborts)) else s
    case ServerCrash => s.(uploads := map[])
  }

  ghost function Advanced(s: State, id: ClientId): State
    requires id in s.cells
  {
    var pc := s.cells[id].pc;
    if pc.OpenStat? || pc.MkStat? then
      if s.file.None? then SetCell(s, id, C.StatIs(None, 0))
      else if s.history == [] then s
      else SetCell(s, id, C.StatIs(Some(s.file.value.mtime), |s.history| - 1))
    else if pc.OpenFetch? then
      if s.file.None? then SetCell(s, id, C.ContentAbsent)
      else if s.history == [] then s
      else SetCell(s, id, C.ContentIs(|s.history| - 1, s.file.value.mtime, Chunked(s.file.value.data)))
    else if pc.UnRpc? then SetCell(s, id, C.Step).(file := None)
    else SetCell(s, id, C.Step)
  }

  predicate MayStart(s: State, id: ClientId, call: CallId)
  {
    id in s.cells && call !in s.uploads && (s.cells[id].pc.RelSend? || s.cells[id].pc.MkSend?)
  }

  function Started(s: State, id: ClientId, call: CallId): State
    requires MayStart(s, id, call)
  {
    var pc := s.cells[id].pc;
    var want := Chunked(if pc.RelSend? then pc.data else []);
    SetCell(s, id, C.UploadStarted(call)).(uploads := s.uploads[call := Upload(id, want, [])])
  }

  function Received(u: Upload): Upload
  {
    if |u.got| < |u.want| then u.(got := u.want[..|u.got| + 1]) else u
  }

  ghost predicate MayCommit(s: State, call: CallId, mtime: Bytes)
  {
    call in s.uploads && s.uploads[call].got == s.uploads[call].want && Fresh(s.history, mtime)
  }

  /** The reply goes to the client that still waits for it, if it does. */
  function Committed(s: State, call: CallId, mtime: Bytes): State
    requires call in s.uploads
  {
    var u := s.uploads[call];
    var v := Version(Joined(u.got), mtime);
    var t := s.(file := Some(v), history := s.history + [v], uploads := s.uploads - {call});
    if u.owner in s.cells && C.Awaits(s.cells[u.owner], call) then SetCell(t, u.owner, C.ReplyIs(mtime)) else t
  }

  ghost function Run(s: State, events: seq<Event>): State
  {
    if events == [] then s else Next(Run(s, events[..|events| - 1]), events[|events| - 1])
  }

  /** Clients that know nothing of the path, and no file. */
  function Initial(clients: set<ClientId>): State
  {
    State(None, map[], [], map id | id in clients :: C.Cell(None, None, false, false, C.Idle, C.Closed, false, []))
  }
}
