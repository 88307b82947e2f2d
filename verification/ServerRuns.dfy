/** What holds over whole runs of the server, for any interleaving of its connections. */
module ServerRuns {
  import opened Bytes
  import opened FileIds
  import opened Locks
  import opened LockRequests
  import opened ServerState
  import opened ServerInvariant
  import opened ServerSteps

  /** A run in which no step gives out an identifier that something still hangs on. */
  ghost predicate Run(states: seq<State>, steps: seq<Step>) {
    && |states| == |steps| + 1
    && states[0] == INITIAL
    && (forall i :: 0 <= i < |steps| ==> Enabled(states[i], steps[i]) && Safe(states[i], steps[i]) && states[i + 1] == Apply(states[i], steps[i]))
  }

  ghost predicate Reachable(s: State) {
    exists states, steps :: Run(states, steps) && states[|steps|] == s
  }

  lemma InitialInv()
    ensures Inv(INITIAL)
  {
  }

  lemma {:induction false} RunKeepsInv(states: seq<State>, steps: seq<Step>, i: nat)
    requires Run(states, steps) && i <= |steps|
    ensures Inv(states[i])
  {
    hide Inv, Apply, Enabled, Safe;
    if i == 0 {
      InitialInv();
    } else {
      assert states[i - 1 + 1] == Apply(states[i - 1], steps[i - 1]);
      RunKeepsInv(states, steps, i - 1);
      StepKeeps(states[i - 1], steps[i - 1]);
    }
  }

  lemma ReachableInv(s: State)
    requires Reachable(s)
    ensures Inv(s)
  {
    hide Inv, Apply, Enabled, Safe;
    var states, steps :| Run(states, steps) && states[|steps|] == s;
    RunKeepsInv(states, steps, |steps|);
  }

  lemma InitialReached()
    ensures Reachable(INITIAL)
  {
    assert Run([INITIAL], []);
  }

  lemma RunExtends(states: seq<State>, steps: seq<Step>, step: Step)
    requires Run(states, steps) && Enabled(states[|steps|], step) && Safe(states[|steps|], step)
    ensures Run(states + [Apply(states[|steps|], step)], steps + [step])
  {
    hide Apply, Enabled, Safe;
  }

  lemma ReachableExtends(s: State, step: Step)
    requires Reachable(s) && Enabled(s, step) && Safe(s, step)
    ensures Reachable(Apply(s, step))
  {
    hide Apply, Enabled, Safe;
    var states, steps :| Run(states, steps) && states[|steps|] == s;
    RunExtends(states, steps, step);
    LastOfRun(states, steps, step);
  }

  lemma LastOfRun(states: seq<State>, steps: seq<Step>, step: Step)
    requires Run(states, steps) && Enabled(states[|steps|], step) && Run(states + [Apply(states[|steps|], step)], steps + [step])
    ensures Reachable(Apply(states[|steps|], step))
  {
    hide Apply, Enabled, Safe;
    var longer, more := states + [Apply(states[|steps|], step)], steps + [step];
    assert longer[|more|] == Apply(states[|steps|], step);
  }

  /** The sufficient case: a run within 2^64 sessions, 2^32 trees a session and 2^32 opens a tree. */
  lemma {:induction false} BoundedRun(states: seq<State>, steps: seq<Step>)
    requires |states| == |steps| + 1 && states[0] == INITIAL
    requires forall i :: 0 <= i < |steps| ==> Enabled(states[i], steps[i]) && states[i + 1] == Apply(states[i], steps[i])
    requires forall i :: 0 <= i < |states| ==> Bounded(states[i])
    ensures Run(states, steps)
    decreases |steps|
  {
    hide Apply, Enabled, Safe, Bounded, Inv;
    if steps != [] {
      var n := |steps| - 1;
      BoundedRun(states[..n + 1], steps[..n]);
      RunKeepsInv(states[..n + 1], steps[..n], n);
      assert states[n + 1] == Apply(states[n], steps[n]);
      BoundedIsSafe(states[n], steps[n]);
    }
  }

  // ------------------------------------------------------------- lock tables

  /** No entry is empty or wraps; two overlapping ones of a path are both shared, or both exclusive for one file. */
  lemma LockTablesAreSafe(s: State, path: string)
    requires Reachable(s)
    ensures
      var ranges := RangesAt(s, path);
      && (forall i :: 0 <= i < |ranges| ==> ranges[i].start < ranges[i].end)
      && (forall i, j :: 0 <= i < j < |ranges| && Overlap(ranges[i].start, ranges[i].end, ranges[j]) ==>
            ranges[i].exclusive == ranges[j].exclusive && (ranges[i].exclusive ==> ranges[i].fileId == ranges[j].fileId))
  {
    hide Inv, Reachable;
    ReachableInv(s);
    TableConsistent(s, path);
    var ranges := RangesAt(s, path);
    forall i, j | 0 <= i < j < |ranges| && Overlap(ranges[i].start, ranges[i].end, ranges[j])
      ensures ranges[i].exclusive == ranges[j].exclusive && (ranges[i].exclusive ==> ranges[i].fileId == ranges[j].fileId)
    {
      assert Compatible(ranges[i], ranges[j]);
    }
  }

  // ------------------------------------------------------------------ orphans

  /** Every entry of either table names an open of its path that is live, or that its own connection
      is at this moment closing. */
  lemma NoOrphans(s: State, path: string)
    requires Reachable(s)
    ensures forall r :: r in RangesAt(s, path) ==> exists k :: NamedBy(s, k, r.fileId, path) && (s.opens[k].closing ==> BeingClosed(s, k))
    ensures path in s.oplocks ==> var k := s.oplocks[path]; NamedBy(s, k, k.fid, path) && (s.opens[k].closing ==> BeingClosed(s, k))
  {
    hide Reachable;
    ReachableInv(s);
    forall r | r in RangesAt(s, path) ensures NamedBy(s, KeyOf(s.owner, r.fileId), r.fileId, path) {
      assert TableOk(s.owner, s.opens, path, s.locks[path]);
    }
  }

  predicate NamedBy(s: State, k: OpenKey, fid: FileId, path: string) {
    k in s.opens && k.fid == fid && s.opens[k].path == path
  }

  predicate BeingClosed(s: State, k: OpenKey) {
    k.at.conn in s.pc && (s.pc[k.at.conn] == Releasing(k) || s.pc[k.at.conn] == Unlocking(k))
  }

  /** Between handlers: when no connection is in the middle of a close, every entry names a live open. */
  lemma NoOrphansBetweenHandlers(s: State, path: string)
    requires Reachable(s)
    requires forall c :: c in s.pc ==> s.pc[c] == Idle || s.pc[c] == Closed
    ensures forall r :: r in RangesAt(s, path) ==> exists k :: NamedBy(s, k, r.fileId, path) && !s.opens[k].closing
    ensures path in s.oplocks ==> var k := s.oplocks[path]; NamedBy(s, k, k.fid, path) && !s.opens[k].closing
  {
    hide Reachable;
    NoOrphans(s, path);
    forall k: OpenKey | k in s.opens ensures !BeingClosed(s, k) {}
    forall r | r in RangesAt(s, path) ensures exists k :: NamedBy(s, k, r.fileId, path) && !s.opens[k].closing {
      var k :| NamedBy(s, k, r.fileId, path) && (s.opens[k].closing ==> BeingClosed(s, k));
    }
  }

  /** Live identifiers are unique across all connections. */
  lemma LiveIdsAreUnique(s: State, k1: OpenKey, k2: OpenKey)
    requires Reachable(s) && k1 in s.opens && k2 in s.opens && k1 != k2
    ensures k1.fid != k2.fid
  {
    hide Inv, Reachable;
    ReachableInv(s);
    if k1.fid == k2.fid { UniqueFileIds(s, k1, k2); }
  }

  /** Once a connection is cleaned up, no range and no oplock of any session it ever had is left. */
  lemma NothingLeftAfterCleanup(s: State, c: ConnId, path: string)
    requires Reachable(s) && c in s.pc && s.pc[c] == Closed
    ensures forall r :: r in RangesAt(s, path) ==> SessionOf(r.fileId) in s.owner && s.owner[SessionOf(r.fileId)] != c
    ensures path in s.oplocks ==> s.oplocks[path].at.conn != c
  {
    hide Reachable;
    ReachableInv(s);
    ThreadAt(s, c);
    forall r | r in RangesAt(s, path) ensures SessionOf(r.fileId) in s.owner && s.owner[SessionOf(r.fileId)] != c {
      assert NamesOpen(s.owner, s.opens, r.fileId, path);
    }
  }

  // --------------------------------------------------- identifiers that come around

  /** Every entry of either table names an open of its path. */
  ghost predicate AllNamed(s: State) {
    && (forall p, r :: p in s.locks && r in s.locks[p] ==> exists k :: NamedBy(s, k, r.fileId, p))
    && (forall p :: p in s.oplocks ==> NamedBy(s, s.oplocks[p], s.oplocks[p].fid, p))
  }

  lemma InvNames(s: State)
    requires Inv(s)
    ensures AllNamed(s)
  {
    hide ThreadsOk, ClosingOk, TreesOk, OpensOk, SessionsOk, CallsOk, ChannelsOk, Consistent;
    forall p, r | p in s.locks && r in s.locks[p] ensures exists k :: NamedBy(s, k, r.fileId, p) {
      assert TableOk(s.owner, s.opens, p, s.locks[p]);
      assert NamedBy(s, KeyOf(s.owner, r.fileId), r.fileId, p);
    }
  }

  /** An open that a table names: a range or an oplock, under the open's own path. */
  lemma NamedEntry(s: State, key: OpenKey)
    requires Inv(s) && key in s.opens && !Unnamed(TablesOf(s), key)
    ensures
      var p := s.opens[key].path;
      (p in s.oplocks && s.oplocks[p] == key) || (p in s.locks && exists r :: r in s.locks[p] && r.fileId == key.fid)
  {
    hide ThreadsOk, ClosingOk, CallsOk, ChannelsOk, Consistent;
    KeysLeadBack(s);
    var t := TablesOf(s);
    if NoOplock(t, key) {
      var p :| Held(t.At(p), key.fid) != multiset{};
      var mine := Select(t.At(p), key.fid, true);
      assert mine != [];
      SelectHas(t.At(p), key.fid, true, mine[0]);
      NamedUnderOwnPath(s.owner, t, p, mine[0], key);
    }
  }

  /** Changing what a named key stands for leaves its entry without an open. */
  lemma Orphaned(s: State, s': State, key: OpenKey)
    requires Inv(s) && key in s.opens && !Unnamed(TablesOf(s), key)
    requires s'.locks == s.locks && s'.oplocks == s.oplocks
    requires forall k :: k in s'.opens && k != key ==> k in s.opens
    requires key in s'.opens ==> s'.opens[key].path != s.opens[key].path
    ensures !AllNamed(s')
  {
    hide Inv, Unnamed;
    NamedEntry(s, key);
    var p := s.opens[key].path;
    if p in s.oplocks && s.oplocks[p] == key {
      assert !NamedBy(s', s'.oplocks[p], key.fid, p);
    } else {
      var r :| r in s.locks[p] && r.fileId == key.fid;
      forall k | NamedBy(s', k, r.fileId, p) ensures false {
        UniqueFileIds(s, k, key);
      }
      assert p in s'.locks && r in s'.locks[p];
    }
  }

  /** A CREATE keeps every entry of the tables named if and only if the identifier it gives out is free,
      belongs to an open of the same path, or to one that no table names. */
  lemma CreateKeepsNamesIff(s: State, c: ConnId, at: TreeKey, req: CreateRequest)
    requires Inv(s) && Enabled(s, Create(c, at, req, true)) && Makes(s, at, req, true)
    ensures AllNamed(Apply(s, Create(c, at, req, true))) <==> KeyFree(TablesOf(s), NextKey(s, at), req.path)
  {
    hide Inv, Unnamed, AllNamed;
    var step := Create(c, at, req, true);
    var key := NextKey(s, at);
    if KeyFree(TablesOf(s), key, req.path) {
      hide CreateOpen;
      StepKeeps(s, step);
      InvNames(Apply(s, step));
    } else {
      Orphaned(s, Apply(s, step), key);
    }
  }

  /** So the 2^32nd CREATE after a live open orphans the locks and oplock it left under another path. */
  lemma CounterWrapOrphans(s: State, c: ConnId, at: TreeKey, req: CreateRequest, key: OpenKey)
    requires Inv(s) && Enabled(s, Create(c, at, req, true)) && Makes(s, at, req, true)
    requires key in s.opens && key.at == at && s.trees[at].nextId + 1 == s.opens[key].number + 0x1_0000_0000
    requires req.path != s.opens[key].path && !Unnamed(TablesOf(s), key)
    ensures !AllNamed(Apply(s, Create(c, at, req, true)))
  {
    hide Apply, Enabled, AllNamed, MakeFileId, Unnamed;
    OpenHasItsNumber(s, key);
    FileIdsCollideIff(at.sess, at.tree, s.trees[at].nextId + 1, at.sess, at.tree, s.opens[key].number);
    CreateKeepsNamesIff(s, c, at, req);
  }

  lemma OpenHasItsNumber(s: State, key: OpenKey)
    requires Inv(s) && key in s.opens
    ensures key.fid == MakeFileId(key.at.sess, key.at.tree, s.opens[key].number)
  {
  }

  /** A TREE_CONNECT keeps every entry named if and only if no table names an open in the place it gives out. */
  lemma ConnectTreeKeepsNamesIff(s: State, c: ConnId, sess: uint64, readOnly: bool)
    requires Inv(s) && Enabled(s, ConnectTree(c, sess, readOnly))
    ensures AllNamed(Apply(s, ConnectTree(c, sess, readOnly))) <==> SlotFree(TablesOf(s), NextSlot(s, SessKey(c, sess)))
  {
    hide Inv, Unnamed, AllNamed;
    var step := ConnectTree(c, sess, readOnly);
    if SlotFree(TablesOf(s), NextSlot(s, SessKey(c, sess))) {
      hide NewTree;
      StepKeeps(s, step);
      InvNames(Apply(s, step));
    } else {
      var key :| key in s.opens && key.at == NextSlot(s, SessKey(c, sess)) && !Unnamed(TablesOf(s), key);
      Orphaned(s, Apply(s, step), key);
    }
  }

  // -------------------------------------------------------------- enforcement

  /** Inside a range it holds, an open is refused a read only for its length or its offset; and so a write, if it
      holds the range exclusively and the share is writable. */
  lemma HolderIsAdmitted(s: State, key: OpenKey, hold: LockRange, offset: uint64, length: uint32, limit: uint32)
    requires Reachable(s) && Found(s, key)
    requires hold in RangesAt(s, s.opens[key].path) && hold.fileId == key.fid
    requires hold.start <= offset && offset + length <= hold.end
    ensures ReadAdmitted(s, key, offset, length, limit) <==> length <= limit && offset < 0x8000_0000_0000_0000
    ensures hold.exclusive ==>
      (WriteAdmitted(s, key, offset, length, limit) <==> length <= limit && offset < 0x8000_0000_0000_0000 && !s.trees[key.at].readOnly)
  {
    hide Inv, Reachable, Consistent, AccessConflicts;
    ReachableInv(s);
    TableConsistent(s, s.opens[key].path);
    HolderNotRefused(RangesAt(s, s.opens[key].path), hold, offset, offset + length, false);
    if hold.exclusive {
      HolderNotRefused(RangesAt(s, s.opens[key].path), hold, offset, offset + length, true);
    }
  }

  // ----------------------------------------------- authentication and read-only

  lemma TreesAreAuthenticated(s: State, t: TreeKey)
    requires Reachable(s) && t in s.trees
    ensures SessionAt(t) in s.sessions && s.sessions[SessionAt(t)].authenticated
  {
    ReachableInv(s);
  }

  /** No open on a read-only share is marked for deletion, no write, set-info, rename or remove ever
      reached such a share, and no close is about to be refused for one. */
  lemma ReadOnlySharesStayUntouched(s: State)
    requires Reachable(s)
    ensures forall k :: k in s.opens ==> k.at in s.trees && (s.trees[k.at].readOnly ==> !s.opens[k].deletePending)
    ensures forall i :: 0 <= i < |s.calls| && s.calls[i].readOnly ==> s.calls[i].call.Touch? && !s.calls[i].call.access.write
    ensures forall c :: c in s.pc ==> s.pc[c] != Removing(true)
  {
    hide Reachable, ThreadsOk, ClosingOk, LocksOk, OplocksOk, ChannelsOk;
    ReachableInv(s);
    forall c | c in s.pc ensures s.pc[c] != Removing(true) { ThreadAt(s, c); }
  }

  // ------------------------------------------------------------- all or nothing

  /** A CREATE makes an open, of the path it names, if and only if the backend lets it and the share is writable or
      nothing is to be created, replaced, truncated or deleted. */
  lemma CreateOpensIff(s: State, c: ConnId, at: TreeKey, req: CreateRequest, ok: bool)
    requires Inv(s) && Enabled(s, Create(c, at, req, ok)) && s.trees[at].nextId < 0x1_0000_0000
    ensures
      var s', key := Apply(s, Create(c, at, req, ok)), NextKey(s, at);
      && (key in s'.opens <==> ok && !(s.trees[at].readOnly && (req.disposition in {0, 2, 4, 5} || req.directory || req.deleteOnClose)))
      && (key in s'.opens ==> s'.opens[key].path == req.path && !s'.opens[key].closing)
      && forall k :: k != key ==> (k in s'.opens <==> k in s.opens)
  {
    hide Inv, CreateOpen, RefusedReadOnly;
    FreshKey(s, at);
    OpensIff(s, c, at, req, ok);
  }

  lemma FreshKey(s: State, at: TreeKey)
    requires Inv(s) && at in s.trees && s.trees[at].nextId < 0x1_0000_0000
    ensures NextKey(s, at) !in s.opens
  {
    hide LocksOk, OplocksOk, ThreadsOk, ClosingOk, TreesOk, SessionsOk, CallsOk, ChannelsOk, OpensOk;
    NewIdIsFresh(s.trees, s.opens, at);
  }

  lemma OpensIff(s: State, c: ConnId, at: TreeKey, req: CreateRequest, ok: bool)
    requires at in s.trees && NextKey(s, at) !in s.opens
    ensures
      var s', key := CreateOpen(s, c, at, req, ok), NextKey(s, at);
      && (key in s'.opens <==> ok && !(s.trees[at].readOnly && (req.disposition in {0, 2, 4, 5} || req.directory || req.deleteOnClose)))
      && (key in s'.opens ==> s'.opens[key].path == req.path && !s'.opens[key].closing)
      && forall k :: k != key ==> (k in s'.opens <==> k in s.opens)
  {
    hide MakeFileId, SameSessions;
  }

  /** TREE_DISCONNECT, LOGOFF and the end of a connection leave nothing of what they take down. */
  lemma DisconnectTakesAll(s: State, c: ConnId)
    requires Inv(s) && Enabled(s, EndDrain(c))
    ensures
      var s' := Apply(s, EndDrain(c));
      match s.pc[c].goal
      case DropTree(t) => t !in s'.trees && (forall k :: k in s'.opens ==> k.at != t)
      case DropSession(sk) => sk !in s'.sessions && (forall t :: t in s'.trees ==> SessionAt(t) != sk) && (forall k :: k in s'.opens ==> SessionAt(k.at) != sk)
      case DropConn => At(s', c, Closed) && (forall k :: k in s'.opens ==> k.at.conn != c)
  {
    hide Inv, FinishDrain, ThreadOk;
    DrainTakesAll(s, c, s.pc[c].goal);
    ThreadAt(s, c);
    DrainIsOwn(TablesOf(s), c, s.pc[c]);
  }

  lemma DrainIsOwn(t: Tables, c: ConnId, pc: Pc)
    requires ThreadOk(t, c, pc) && pc.Draining?
    ensures (pc.goal.DropTree? ==> pc.goal.tree.conn == c) && (pc.goal.DropSession? ==> pc.goal.sess.conn == c)
  {
    hide Unnamed, NoOplock;
  }

  lemma DrainTakesAll(s: State, c: ConnId, goal: Goal)
    ensures
      var s' := FinishDrain(s, c, goal);
      match goal
      case DropTree(t) => t !in s'.trees && (t.conn == c ==> forall k :: k in s'.opens ==> k.at != t)
      case DropSession(sk) =>
        && sk !in s'.sessions && (forall t :: t in s'.trees ==> SessionAt(t) != sk)
        && (sk.conn == c ==> forall k :: k in s'.opens ==> SessionAt(k.at) != sk)
      case DropConn => At(s', c, Closed) && (forall k :: k in s'.opens ==> k.at.conn != c)
  {
  }

  lemma EntryMovesOne(s: State, step: Step, c: ConnId)
    requires Enabled(s, step) && EntryStep(step) && step.c != c
    ensures c in ApplyEntry(s, step).pc <==> c in s.pc
    ensures c in s.pc ==> ApplyEntry(s, step).pc[c] == s.pc[c]
  {
    hide NewSession, NewTree, SetupMore, CreateOpen, GrantOplock, BreakOplock, SendTo, GateOpen, Live;
  }

  lemma FileMovesOne(s: State, step: Step, c: ConnId)
    requires Enabled(s, step) && !EntryStep(step) && step.c != c
    ensures c in ApplyFile(s, step).pc <==> c in s.pc
    ensures c in s.pc ==> ApplyFile(s, step).pc[c] == s.pc[c]
  {
    hide StepLock, StepUndo, FinishClose, FinishDrain, DrainUnlock, ChangeFile, StartLock, StartClose, RemoveClosed, StartDrain;
    hide StartAccess, EndAccess, WriteAdmitted, ReadAdmitted, Found, GateOpen, MayDrain, InScope;
  }

  /** A connection's place changes by its own steps only. */
  lemma OthersLeavePc(s: State, step: Step, c: ConnId)
    requires Enabled(s, step) && step.c != c
    ensures c in Apply(s, step).pc <==> c in s.pc
    ensures c in s.pc ==> Apply(s, step).pc[c] == s.pc[c]
  {
    hide Enabled, ApplyEntry, ApplyFile;
    if EntryStep(step) { EntryMovesOne(s, step, c); } else { FileMovesOne(s, step, c); }
  }

  /** The connection is somewhere in this LOCK request. */
  predicate InRequest(s: State, c: ConnId, job: LockJob) {
    c in s.pc && InLockRequest(s.pc[c]) && s.pc[c].job == job
  }

  /** In the middle of a LOCK request a connection does nothing but go on with it; a response of
      another of its operations may reach its channel. */
  lemma OnlyLockSteps(s: State, step: Step, c: ConnId)
    requires Enabled(s, step) && step.c == c && c in s.pc && InLockRequest(s.pc[c])
    ensures step == NextLock(c) || step == NextUndo(c) || step == AnswerLock(c) || step == FinalArrives(c)
  {
    hide WriteAdmitted, ReadAdmitted, Found, GateOpen, MayDrain;
  }

  lemma StaysInRequest(s: State, step: Step, c: ConnId, job: LockJob)
    requires Enabled(s, step) && InRequest(s, c, job) && step != AnswerLock(c)
    ensures InRequest(Apply(s, step), c, job)
  {
    if step.c != c {
      hide Apply, Enabled;
      OthersLeavePc(s, step, c);
    } else {
      hide StepLock, StepUndo;
      OnlyLockSteps(s, step, c);
    }
  }

  lemma {:induction false} RequestLasts(states: seq<State>, steps: seq<Step>, c: ConnId, i: nat, j: nat, key: OpenKey, locks: seq<LockElement>)
    requires Run(states, steps) && i < j <= |steps| && steps[i] == BeginLock(c, key, locks)
    requires forall m :: i < m < j ==> steps[m] != AnswerLock(c)
    ensures key in states[i].opens
    ensures var path := states[i].opens[key].path;
            InRequest(states[j], c, LockJob(key, path, locks, Held(RangesAt(states[i], path), key.fid)))
    decreases j
  {
    var path := states[i].opens[key].path;
    var job := LockJob(key, path, locks, Held(RangesAt(states[i], path), key.fid));
    if j == i + 1 {
      assert states[j] == StartLock(states[i], c, key, locks);
    } else {
      hide Apply, Safe;
      assert states[j - 1 + 1] == Apply(states[j - 1], steps[j - 1]);
      RequestLasts(states, steps, c, i, j - 1, key, locks);
      StaysInRequest(states[j - 1], steps[j - 1], c, job);
    }
  }

  /** Any LOCK request, whatever other connections did meanwhile: when it is about to be answered, its file
      holds what carrying out the elements before the stop made of what it held when the request began,
      with the locks taken back again after a conflict or an invalid range. */
  lemma LockRequestOverRun(states: seq<State>, steps: seq<Step>, c: ConnId, i: nat, j: nat, key: OpenKey, locks: seq<LockElement>)
    requires Run(states, steps) && i < j <= |steps| && steps[i] == BeginLock(c, key, locks)
    requires forall m :: i < m < j ==> steps[m] != AnswerLock(c)
    requires c in states[j].pc && states[j].pc[c].LockDone?
    ensures key in states[i].opens
    ensures
      var path := states[i].opens[key].path;
      var LockDone(_, stop, status) := states[j].pc[c];
      Leaves(Held(RangesAt(states[j], path), key.fid), status, key.fid, locks, stop, Held(RangesAt(states[i], path), key.fid))
  {
    hide Inv, Apply, Safe, Leaves;
    RequestLasts(states, steps, c, i, j, key, locks);
    RunKeepsInv(states, steps, j);
    ThreadAt(states[j], c);
  }

  /** All or nothing: if every element takes a lock and the request fails, nothing of it remains. */
  lemma FailedLockLeavesNothing(states: seq<State>, steps: seq<Step>, c: ConnId, i: nat, j: nat, key: OpenKey, locks: seq<LockElement>)
    requires Run(states, steps) && i < j <= |steps| && steps[i] == BeginLock(c, key, locks)
    requires forall n :: 0 <= n < |locks| ==> TakesLock(locks[n])
    requires forall m :: i < m < j ==> steps[m] != AnswerLock(c)
    requires c in states[j].pc && states[j].pc[c].LockDone? && states[j].pc[c].status != Success
    ensures key in states[i].opens
    ensures var path := states[i].opens[key].path; Held(RangesAt(states[j], path), key.fid) == Held(RangesAt(states[i], path), key.fid)
  {
    hide Apply, Safe, Held, Left, Uniform, After;
    LockRequestOverRun(states, steps, c, i, j, key, locks);
    var path := states[i].opens[key].path;
    PureLeft(Held(RangesAt(states[i], path), key.fid), key.fid, locks[..states[j].pc[c].stop]);
  }
}
