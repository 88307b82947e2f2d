/** The server-wide state that connections share, and the atomic steps of their handlers. */
module ServerState {
  import opened Bytes
  import opened FileIds
  import opened Locks

  type ConnId = nat

  /** The length of a byte slice: a nonnegative 64-bit signed integer. */
  type Length = x: int | 0 <= x < 0x8000_0000_0000_0000

  // The maps of the server are flattened: a key spells out the way from the connection down.
  datatype SessKey = SessKey(conn: ConnId, sess: uint64)
  datatype TreeKey = TreeKey(conn: ConnId, sess: uint64, tree: uint32)
  datatype OpenKey = OpenKey(at: TreeKey, fid: FileId)

  datatype Session = Session(authenticated: bool, nextTree: nat)
  datatype Tree = Tree(readOnly: bool, nextId: nat)

  /** `number` is the counter the open got; `closing` marks one deleted from the tree whose
      table entries its connection has yet to drop. */
  datatype Open = Open(path: string, deletePending: bool, number: nat, closing: bool)

  /** The bytes of a file that a READ or WRITE is about to touch. */
  datatype Access = Access(key: OpenKey, path: string, start: uint64, end: uint64, write: bool)

  /** Calls to a share's backend, with the share's read-only setting. */
  datatype Call = Touch(access: Access) | SetInfo | Rename | Remove
  datatype BackendCall = BackendCall(call: Call, readOnly: bool)

  datatype Goal = DropTree(tree: TreeKey) | DropSession(sess: SessKey) | DropConn

  /** A LOCK request under way; `before` remembers what the file held when it began. */
  datatype LockJob = LockJob(key: OpenKey, path: string, locks: seq<LockElement>, before: multiset<LockRange>)

  /** Where a connection's goroutine stands between two atomic actions on shared tables. A LOCK request
      comes to an end at its element `stop`. */
  datatype Pc =
    | Idle
    | Granting(key: OpenKey)
    | Breaking(path: string)
    | Notifying(to: ConnId)
    | Accessing(access: Access, readOnly: bool)
    | Locking(job: LockJob, next: nat, acquired: seq<LockElement>)
    | RollingBack(job: LockJob, stop: nat, acquired: seq<LockElement>, status: Status)
    | LockDone(job: LockJob, stop: nat, status: Status)
    | Releasing(key: OpenKey)
    | Unlocking(key: OpenKey)
    | Removing(readOnly: bool)
    | Draining(todo: set<OpenKey>, half: Option<OpenKey>, goal: Goal)
    | Closed

  datatype State = State(
    nextSess: nat,
    owner: map<uint64, ConnId>,          // every session id ever given out, and to whom
    sessions: map<SessKey, Session>,
    trees: map<TreeKey, Tree>,
    opens: map<OpenKey, Open>,
    locks: map<string, seq<LockRange>>,
    oplocks: map<string, OpenKey>,
    pc: map<ConnId, Pc>,
    channels: map<ConnId, nat>,          // messages waiting to be written between two requests
    calls: seq<BackendCall>)

  const CHANNEL_SIZE := 64

  const INITIAL := State(0, map[], map[], map[], map[], map[], map[], map[], map[], [])

  function SessionAt(t: TreeKey): SessKey { SessKey(t.conn, t.sess) }

  /** A path without a manager yet has an empty table. */
  function RangesAt(s: State, path: string): seq<LockRange> {
    if path in s.locks then s.locks[path] else []
  }

  predicate At(s: State, c: ConnId, pc: Pc) { c in s.pc && s.pc[c] == pc }

  /** The gate before every handler but NEGOTIATE and SESSION_SETUP. */
  predicate GateOpen(s: State, at: TreeKey) {
    && SessionAt(at) in s.sessions && s.sessions[SessionAt(at)].authenticated
    && at in s.trees
  }

  /** The gate, and the open found in the tree. */
  predicate Found(s: State, key: OpenKey) {
    GateOpen(s, key.at) && key in s.opens && !s.opens[key].closing
  }

  // -------------------------------------------------------------------- steps

  datatype CreateRequest = CreateRequest(path: string, disposition: uint32, directory: bool, deleteOnClose: bool, wantsOplock: bool)

  datatype Setting = Disposition(delete: bool) | Attributes | Resize | NewName

  datatype Step =
    | Connect(c: ConnId)
    | SetupNew(c: ConnId, accepted: bool)
    | SetupAgain(c: ConnId, sess: uint64, accepted: bool)
    | ConnectTree(c: ConnId, sess: uint64, readOnly: bool)
    | Create(c: ConnId, at: TreeKey, req: CreateRequest, ok: bool)
    | Grant(c: ConnId)
    | Break(c: ConnId)
    | Notify(c: ConnId)
    | SkipNotify(c: ConnId)
    | WriteWaiting(c: ConnId)
    | FinalArrives(c: ConnId)
    | BeginLock(c: ConnId, key: OpenKey, locks: seq<LockElement>)
    | NextLock(c: ConnId)
    | NextUndo(c: ConnId)
    | AnswerLock(c: ConnId)
    | CheckRead(c: ConnId, key: OpenKey, offset: uint64, length: uint32, maxRead: uint32)
    | CheckWrite(c: ConnId, key: OpenKey, offset: uint64, size: Length, maxWrite: uint32)
    | DoAccess(c: ConnId)
    | SetFile(c: ConnId, key: OpenKey, setting: Setting)
    | BeginClose(c: ConnId, key: OpenKey)
    | ReleaseOplock(c: ConnId)
    | DropLocks(c: ConnId)
    | RemoveFile(c: ConnId)
    | BeginDrain(c: ConnId, goal: Goal)
    | DrainOplock(c: ConnId, key: OpenKey)
    | DrainLocks(c: ConnId)
    | EndDrain(c: ConnId)

  const FILE_SUPERSEDE: uint32 := 0
  const FILE_CREATE: uint32 := 2
  const FILE_OVERWRITE: uint32 := 4
  const FILE_OVERWRITE_IF: uint32 := 5

  /** What a read-only share refuses before it asks the backend. */
  predicate RefusedReadOnly(req: CreateRequest) {
    || req.disposition in {FILE_CREATE, FILE_SUPERSEDE, FILE_OVERWRITE, FILE_OVERWRITE_IF}
    || req.deleteOnClose || req.directory
  }

  predicate WriteAdmitted(s: State, key: OpenKey, offset: uint64, length: Length, maxWrite: uint32) {
    && length % 0x1_0000_0000 <= maxWrite && offset < 0x8000_0000_0000_0000
    && Found(s, key) && !s.trees[key.at].readOnly
    && !AccessConflicts(RangesAt(s, s.opens[key].path), key.fid, offset, Add64(offset, length), true)
  }

  predicate ReadAdmitted(s: State, key: OpenKey, offset: uint64, length: uint32, maxRead: uint32) {
    && length <= maxRead && offset < 0x8000_0000_0000_0000
    && Found(s, key)
    && !AccessConflicts(RangesAt(s, s.opens[key].path), key.fid, offset, Add64(offset, length), false)
  }

  /** The connection has not begun to close down; a send to it waits for room in its channel. */
  predicate Live(s: State, c: ConnId) {
    c in s.pc && s.pc[c] != Closed && !(s.pc[c].Draining? && s.pc[c].goal.DropConn?)
  }

  /** The opens that a drain with this goal closes. */
  predicate InScope(key: OpenKey, c: ConnId, goal: Goal) {
    && key.at.conn == c
    && match goal
       case DropTree(t) => key.at == t
       case DropSession(sk) => SessionAt(key.at) == sk
       case DropConn => true
  }

  /** TREE_DISCONNECT and LOGOFF pass the gate; the end of a connection always comes. */
  predicate MayDrain(s: State, c: ConnId, goal: Goal) {
    match goal
    case DropTree(t) => t.conn == c && GateOpen(s, t)
    case DropSession(sk) => sk.conn == c && sk in s.sessions && s.sessions[sk].authenticated
    case DropConn => true
  }

  predicate Enabled(s: State, step: Step) {
    match step
    case Connect(c) => c !in s.pc
    case SetupNew(c, _) => At(s, c, Idle)
    case SetupAgain(c, sess, _) => At(s, c, Idle) && SessKey(c, sess) in s.sessions
    case ConnectTree(c, sess, _) => At(s, c, Idle) && SessKey(c, sess) in s.sessions && s.sessions[SessKey(c, sess)].authenticated
    case Create(c, at, _, _) => At(s, c, Idle) && at.conn == c && GateOpen(s, at)
    case Grant(c) => c in s.pc && s.pc[c].Granting? && s.pc[c].key in s.opens
    case Break(c) => c in s.pc && s.pc[c].Breaking?
    case Notify(c) => c in s.pc && s.pc[c].Notifying? && s.pc[c].to in s.channels && s.channels[s.pc[c].to] < CHANNEL_SIZE
    case SkipNotify(c) => c in s.pc && s.pc[c].Notifying? && !Live(s, s.pc[c].to)
    case WriteWaiting(c) => At(s, c, Idle) && c in s.channels && s.channels[c] > 0
    case FinalArrives(c) => c in s.channels && s.channels[c] < CHANNEL_SIZE
    case BeginLock(c, key, _) => At(s, c, Idle) && key.at.conn == c && Found(s, key)
    case NextLock(c) => c in s.pc && s.pc[c].Locking? && s.pc[c].next <= |s.pc[c].job.locks|
    case NextUndo(c) => c in s.pc && s.pc[c].RollingBack?
    case AnswerLock(c) => c in s.pc && s.pc[c].LockDone?
    case CheckRead(c, key, offset, length, maxRead) => At(s, c, Idle) && key.at.conn == c && ReadAdmitted(s, key, offset, length, maxRead)
    case CheckWrite(c, key, offset, length, maxWrite) => At(s, c, Idle) && key.at.conn == c && WriteAdmitted(s, key, offset, length, maxWrite)
    case DoAccess(c) => c in s.pc && s.pc[c].Accessing?
    case SetFile(c, key, _) => At(s, c, Idle) && key.at.conn == c && Found(s, key)
    case BeginClose(c, key) => At(s, c, Idle) && key.at.conn == c && Found(s, key)
    case ReleaseOplock(c) => c in s.pc && s.pc[c].Releasing? && s.pc[c].key in s.opens
    case DropLocks(c) => c in s.pc && s.pc[c].Unlocking? && s.pc[c].key in s.opens && s.pc[c].key.at in s.trees
    case RemoveFile(c) => c in s.pc && s.pc[c].Removing?
    case BeginDrain(c, goal) => At(s, c, Idle) && MayDrain(s, c, goal)
    case DrainOplock(c, key) => c in s.pc && s.pc[c].Draining? && s.pc[c].half == None && key in s.pc[c].todo && key in s.opens
    case DrainLocks(c) => c in s.pc && s.pc[c].Draining? && s.pc[c].half.Some? && s.pc[c].half.value in s.opens
    case EndDrain(c) => c in s.pc && s.pc[c].Draining? && s.pc[c].half == None && s.pc[c].todo == {}
  }

  function Goto(s: State, c: ConnId, pc: Pc): State { s.(pc := s.pc[c := pc]) }

  /** Only this connection moves. */
  predicate Moves(s: State, s': State, c: ConnId) {
    c in s'.pc && s'.pc == s.pc[c := s'.pc[c]]
  }

  predicate SameSessions(s: State, s': State) { s'.sessions == s.sessions && s'.nextSess == s.nextSess }

  function PutRanges(s: State, path: string, ranges: seq<LockRange>): State { s.(locks := s.locks[path := ranges]) }

  function NewSession(s: State, c: ConnId, accepted: bool): (s': State)
    ensures s'.pc == s.pc && s'.locks == s.locks && s'.channels == s.channels
    ensures s'.opens == s.opens && s'.calls == s.calls
  {
    var id: uint64 := (s.nextSess + 1) % 0x1_0000_0000_0000_0000;
    s.(nextSess := s.nextSess + 1,
       owner := s.owner[id := c],
       sessions := s.sessions[SessKey(c, id) := Session(accepted, 0)])
  }

  /** The tree id is the session's 32-bit counter; a reused id replaces the tree and forgets its opens. */
  function NewTree(s: State, c: ConnId, sess: uint64, readOnly: bool): (s': State)
    requires SessKey(c, sess) in s.sessions
    ensures s'.pc == s.pc && s'.locks == s.locks && s'.channels == s.channels
    ensures s'.calls == s.calls
  {
    var sk := SessKey(c, sess);
    var t := TreeKey(c, sess, s.sessions[sk].nextTree % 0x1_0000_0000);
    s.(sessions := s.sessions[sk := s.sessions[sk].(nextTree := s.sessions[sk].nextTree + 1)],
       trees := s.trees[t := Tree(readOnly, 0)],
       opens := map k | k in s.opens && k.at != t :: s.opens[k])
  }

  function CreateOpen(s: State, c: ConnId, at: TreeKey, req: CreateRequest, ok: bool): (s': State)
    requires at in s.trees
    ensures s'.locks == s.locks && s'.channels == s.channels && (c in s.pc ==> Moves(s, s', c))
    ensures SameSessions(s, s') && s'.calls == s.calls
  {
    var tree := s.trees[at];
    if tree.readOnly && RefusedReadOnly(req) then s
    else if !ok then s
    else
      var number := tree.nextId + 1;
      var key := OpenKey(at, MakeFileId(at.sess, at.tree, number));
      var s' := s.(trees := s.trees[at := tree.(nextId := number)],
                   opens := s.opens[key := Open(req.path, req.deleteOnClose, number, false)]);
      if req.wantsOplock then Goto(s', c, Granting(key)) else s'
  }

  function GrantOplock(s: State, c: ConnId): (s': State)
    requires c in s.pc && s.pc[c].Granting? && s.pc[c].key in s.opens
    ensures s'.locks == s.locks && s'.channels == s.channels && (c in s.pc ==> Moves(s, s', c))
    ensures SameSessions(s, s') && s'.opens == s.opens && s'.calls == s.calls
  {
    var key := s.pc[c].key;
    var path := s.opens[key].path;
    if path in s.oplocks then Goto(s, c, Breaking(path))
    else Goto(s.(oplocks := s.oplocks[path := key]), c, Idle)
  }

  predicate InLockRequest(pc: Pc) { pc.Locking? || pc.RollingBack? || pc.LockDone? }

  /** Both places are within one and the same LOCK request. */
  predicate SameRequest(pc: Pc, pc': Pc) {
    InLockRequest(pc) && InLockRequest(pc') && pc.job == pc'.job
  }

  /** The request carries out one element, or finds a reason to stop. */
  function LockNext(ranges: seq<LockRange>, job: LockJob, next: nat, acquired: seq<LockElement>): (r: (seq<LockRange>, Pc))
    requires next <= |job.locks|
    ensures InLockRequest(r.1) && r.1.job == job
  {
    if next == |job.locks| then (ranges, LockDone(job, next, Success))
    else
      var l := job.locks[next];
      var r := RangeOf(job.key.fid, l);
      if !ValidRange(l) then (ranges, RollingBack(job, next, acquired, InvalidParameter))
      else if HasUnlock(l) then (Unlock(ranges, job.key.fid, r.start, r.end), Locking(job, next + 1, acquired))
      else if !HasExclusive(l) && !HasShared(l) then (ranges, LockDone(job, next, InvalidParameter))
      else if Conflicts(ranges, job.key.fid, r.start, r.end, r.exclusive) then (ranges, RollingBack(job, next, acquired, LockConflict))
      else (ranges + [r], Locking(job, next + 1, acquired + [l]))
  }

  function UndoNext(ranges: seq<LockRange>, job: LockJob, stop: nat, acquired: seq<LockElement>, status: Status): (r: (seq<LockRange>, Pc))
    ensures InLockRequest(r.1) && r.1.job == job
  {
    if acquired == [] then (ranges, LockDone(job, stop, status))
    else
      var r := RangeOf(job.key.fid, acquired[0]);
      (Unlock(ranges, job.key.fid, r.start, r.end), RollingBack(job, stop, acquired[1..], status))
  }

  function StepLock(s: State, c: ConnId): (s': State)
    requires c in s.pc && s.pc[c].Locking? && s.pc[c].next <= |s.pc[c].job.locks|
    ensures Moves(s, s', c) && SameRequest(s.pc[c], s'.pc[c]) && s'.channels == s.channels
    ensures SameSessions(s, s') && s'.opens == s.opens && s'.calls == s.calls
  {
    var Locking(job, next, acquired) := s.pc[c];
    var (ranges, pc) := LockNext(RangesAt(s, job.path), job, next, acquired);
    Goto(PutRanges(s, job.path, ranges), c, pc)
  }

  function StepUndo(s: State, c: ConnId): (s': State)
    requires c in s.pc && s.pc[c].RollingBack?
    ensures Moves(s, s', c) && SameRequest(s.pc[c], s'.pc[c]) && s'.channels == s.channels
    ensures SameSessions(s, s') && s'.opens == s.opens && s'.calls == s.calls
  {
    var RollingBack(job, stop, acquired, status) := s.pc[c];
    var (ranges, pc) := UndoNext(RangesAt(s, job.path), job, stop, acquired, status);
    Goto(PutRanges(s, job.path, ranges), c, pc)
  }

  function ChangeFile(s: State, key: OpenKey, setting: Setting): (s': State)
    requires key in s.opens && key.at in s.trees
    ensures s'.pc == s.pc && s'.locks == s.locks && s'.channels == s.channels
    ensures SameSessions(s, s')
  {
    if s.trees[key.at].readOnly then s
    else match setting
      case Disposition(delete) => s.(opens := s.opens[key := s.opens[key].(deletePending := delete)])
      case Attributes => s.(calls := s.calls + [BackendCall(SetInfo, false)])
      case Resize => s.(calls := s.calls + [BackendCall(SetInfo, false)])
      case NewName => s.(calls := s.calls + [BackendCall(Rename, false)])
  }

  function FinishClose(s: State, c: ConnId): (s': State)
    requires c in s.pc && s.pc[c].Unlocking? && s.pc[c].key in s.opens && s.pc[c].key.at in s.trees
    ensures s'.channels == s.channels && (c in s.pc ==> Moves(s, s', c))
    ensures SameSessions(s, s') && s'.calls == s.calls
  {
    var key := s.pc[c].key;
    var open := s.opens[key];
    var s' := PutRanges(s, open.path, UnlockAll(RangesAt(s, open.path), key.fid)).(opens := s.opens - {key});
    Goto(s', c, if open.deletePending then Removing(s.trees[key.at].readOnly) else Idle)
  }

  function FinishDrain(s: State, c: ConnId, goal: Goal): (s': State)
    ensures s'.locks == s.locks && s'.channels == s.channels && (c in s.pc ==> Moves(s, s', c))
    ensures s'.calls == s.calls
  {
    var s' := s.(opens := map k | k in s.opens && !InScope(k, c, goal) :: s.opens[k]);
    match goal
    case DropTree(t) => Goto(s'.(trees := s.trees - {t}), c, Idle)
    case DropSession(sk) =>
      Goto(s'.(sessions := s.sessions - {sk}, trees := map t | t in s.trees && SessionAt(t) != sk :: s.trees[t]), c, Idle)
    case DropConn => Goto(s', c, Closed)
  }

  function SetupMore(s: State, sk: SessKey, accepted: bool): (s': State)
    requires sk in s.sessions
    ensures s'.pc == s.pc && s'.locks == s.locks && s'.channels == s.channels
    ensures s'.opens == s.opens && s'.calls == s.calls
  {
    s.(sessions := s.sessions[sk := s.sessions[sk].(authenticated := s.sessions[sk].authenticated || accepted)])
  }

  function DropOplock(s: State, c: ConnId, path: string, next: Pc): (s': State)
    ensures SameSessions(s, s') && s'.opens == s.opens && s'.calls == s.calls
  {
    Goto(s.(oplocks := s.oplocks - {path}), c, next)
  }

  /** The oplock goes, and its holder is to be told. */
  function BreakOplock(s: State, c: ConnId, path: string): (s': State)
    ensures s'.locks == s.locks && s'.channels == s.channels && (c in s.pc ==> Moves(s, s', c))
    ensures SameSessions(s, s') && s'.opens == s.opens && s'.calls == s.calls
  {
    DropOplock(s, c, path, if path in s.oplocks then Notifying(s.oplocks[path].at.conn) else Idle)
  }

  function SendTo(s: State, c: ConnId, to: ConnId): (s': State)
    requires to in s.channels
    ensures s'.locks == s.locks && s'.channels == s.channels[to := s.channels[to] + 1] && (c in s.pc ==> Moves(s, s', c))
    ensures SameSessions(s, s') && s'.opens == s.opens && s'.calls == s.calls
  {
    Goto(s.(channels := s.channels[to := s.channels[to] + 1]), c, Idle)
  }

  /** The check has passed; the backend is called in a step of its own. */
  function StartAccess(s: State, c: ConnId, key: OpenKey, offset: uint64, length: Length, write: bool): (s': State)
    requires key in s.opens && key.at in s.trees
    ensures s'.locks == s.locks && s'.channels == s.channels && (c in s.pc ==> Moves(s, s', c))
    ensures SameSessions(s, s') && s'.opens == s.opens && s'.calls == s.calls
  {
    Goto(s, c, Accessing(Access(key, s.opens[key].path, offset, Add64(offset, length), write), s.trees[key.at].readOnly))
  }

  function EndAccess(s: State, c: ConnId, access: Access, readOnly: bool): (s': State)
    ensures s'.locks == s.locks && s'.channels == s.channels && (c in s.pc ==> Moves(s, s', c))
    ensures SameSessions(s, s') && s'.opens == s.opens
  {
    Goto(s.(calls := s.calls + [BackendCall(Touch(access), readOnly)]), c, Idle)
  }

  function StartLock(s: State, c: ConnId, key: OpenKey, locks: seq<LockElement>): (s': State)
    requires key in s.opens
    ensures s'.locks == s.locks && s'.channels == s.channels && (c in s.pc ==> Moves(s, s', c))
    ensures SameSessions(s, s') && s'.opens == s.opens && s'.calls == s.calls
  {
    var path := s.opens[key].path;
    Goto(s, c, Locking(LockJob(key, path, locks, Held(RangesAt(s, path), key.fid)), 0, []))
  }

  function StartClose(s: State, c: ConnId, key: OpenKey): (s': State)
    requires key in s.opens
    ensures s'.locks == s.locks && s'.channels == s.channels && (c in s.pc ==> Moves(s, s', c))
    ensures SameSessions(s, s') && s'.calls == s.calls
  {
    Goto(s.(opens := s.opens[key := s.opens[key].(closing := true)]), c, Releasing(key))
  }

  /** DELETE_ON_CLOSE at the end of a CLOSE; a read-only share refuses it. */
  function RemoveClosed(s: State, c: ConnId, readOnly: bool): (s': State)
    ensures s'.locks == s.locks && s'.channels == s.channels && (c in s.pc ==> Moves(s, s', c))
    ensures SameSessions(s, s') && s'.opens == s.opens
  {
    Goto(if readOnly then s else s.(calls := s.calls + [BackendCall(Remove, readOnly)]), c, Idle)
  }

  function StartDrain(s: State, c: ConnId, goal: Goal): (s': State)
    ensures s'.locks == s.locks && s'.channels == s.channels && (c in s.pc ==> Moves(s, s', c))
    ensures SameSessions(s, s') && s'.opens == s.opens && s'.calls == s.calls
  {
    Goto(s, c, Draining((set k | k in s.opens && InScope(k, c, goal)), None, goal))
  }

  function DrainUnlock(s: State, c: ConnId): (s': State)
    requires c in s.pc && s.pc[c].Draining? && s.pc[c].half.Some? && s.pc[c].half.value in s.opens
    ensures s'.channels == s.channels && (c in s.pc ==> Moves(s, s', c))
    ensures SameSessions(s, s') && s'.opens == s.opens && s'.calls == s.calls
  {
    var Draining(todo, half, goal) := s.pc[c];
    var key := half.value;
    var path := s.opens[key].path;
    Goto(PutRanges(s, path, UnlockAll(RangesAt(s, path), key.fid)), c, Draining(todo - {key}, None, goal))
  }

  /** Steps of sessions, trees, opens, oplocks and channels. */
  predicate EntryStep(step: Step) {
    || step.Connect? || step.SetupNew? || step.SetupAgain? || step.ConnectTree? || step.Create? || step.Grant? || step.Break?
    || step.Notify? || step.SkipNotify? || step.WriteWaiting? || step.FinalArrives?
  }

  function ApplyEntry(s: State, step: Step): State
    requires Enabled(s, step) && EntryStep(step)
  {
    match step
    case Connect(c) => Goto(s.(channels := s.channels[c := 0]), c, Idle)
    case SetupNew(c, accepted) => NewSession(s, c, accepted)
    case SetupAgain(c, sess, accepted) => SetupMore(s, SessKey(c, sess), accepted)
    case ConnectTree(c, sess, readOnly) => NewTree(s, c, sess, readOnly)
    case Create(c, at, req, ok) => CreateOpen(s, c, at, req, ok)
    case Grant(c) => GrantOplock(s, c)
    case Break(c) => BreakOplock(s, c, s.pc[c].path)
    case Notify(c) => SendTo(s, c, s.pc[c].to)
    case SkipNotify(c) => Goto(s, c, Idle)
    case WriteWaiting(c) => s.(channels := s.channels[c := s.channels[c] - 1])
    case FinalArrives(c) => s.(channels := s.channels[c := s.channels[c] + 1])
  }

  function ApplyFile(s: State, step: Step): State
    requires Enabled(s, step) && !EntryStep(step)
  {
    match step
    case BeginLock(c, key, locks) => StartLock(s, c, key, locks)
    case NextLock(c) => StepLock(s, c)
    case NextUndo(c) => StepUndo(s, c)
    case AnswerLock(c) => Goto(s, c, Idle)
    case CheckRead(c, key, offset, length, _) => StartAccess(s, c, key, offset, length, false)
    case CheckWrite(c, key, offset, length, _) => StartAccess(s, c, key, offset, length, true)
    case DoAccess(c) => EndAccess(s, c, s.pc[c].access, s.pc[c].readOnly)
    case SetFile(c, key, setting) => ChangeFile(s, key, setting)
    case BeginClose(c, key) => StartClose(s, c, key)
    case ReleaseOplock(c) => DropOplock(s, c, s.opens[s.pc[c].key].path, Unlocking(s.pc[c].key))
    case DropLocks(c) => FinishClose(s, c)
    case RemoveFile(c) => RemoveClosed(s, c, s.pc[c].readOnly)
    case BeginDrain(c, goal) => StartDrain(s, c, goal)
    case DrainOplock(c, key) => DropOplock(s, c, s.opens[key].path, s.pc[c].(half := Some(key)))
    case DrainLocks(c) => DrainUnlock(s, c)
    case EndDrain(c) => FinishDrain(s, c, s.pc[c].goal)
  }

  function Apply(s: State, step: Step): State
    requires Enabled(s, step)
  {
    if EntryStep(step) then ApplyEntry(s, step) else ApplyFile(s, step)
  }
}
