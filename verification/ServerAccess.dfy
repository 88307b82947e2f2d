/** READ and WRITE: the lock table is asked first and the backend called in a step of its own, so another
    connection may lock in between. What that can and cannot lead to, over whole runs. */
module ServerAccess {
  import opened Bytes
  import opened FileIds
  import opened Locks
  import opened ServerState
  import opened ServerInvariant
  import opened ServerSteps
  import opened ServerRuns
  import opened ServerExamples

  /** The range is another file's and forbids the access. */
  predicate Forbids(r: LockRange, a: Access) {
    r.fileId != a.key.fid && (a.write || r.exclusive) && Overlap(a.start, a.end, r)
  }

  /** No other open's lock stands in the way. */
  predicate Clear(s: State, a: Access) {
    forall r :: r in RangesAt(s, a.path) ==> !Forbids(r, a)
  }

  predicate InFlight(s: State, c: ConnId, a: Access) {
    c in s.pc && s.pc[c].Accessing? && s.pc[c].access == a
  }

  /** The step takes this range of this path: the next element of a LOCK request, admitted by the table. */
  predicate Grants(s: State, step: Step, path: string, r: LockRange) {
    && step.NextLock? && step.c in s.pc && s.pc[step.c].Locking?
    && var Locking(job, next, _) := s.pc[step.c];
    && job.path == path && next < |job.locks| && ValidRange(job.locks[next]) && TakesLock(job.locks[next])
    && r == RangeOf(job.key.fid, job.locks[next])
    && !Conflicts(RangesAt(s, path), job.key.fid, r.start, r.end, r.exclusive)
  }

  // ---------------------------------------------------------------- who adds to a table

  lemma UnlockAddsNothing(ranges: seq<LockRange>, fid: FileId, start: uint64, end: uint64, r: LockRange)
    requires r in Unlock(ranges, fid, start, end)
    ensures r in ranges
  {
    var at := UnlockSplits(ranges, fid, start, end);
  }

  lemma UnlockAllAddsNothing(ranges: seq<LockRange>, fid: FileId, r: LockRange)
    requires r in UnlockAll(ranges, fid)
    ensures r in ranges
  {
    SelectHas(ranges, fid, false, r);
  }

  lemma LockNextAdds(ranges: seq<LockRange>, job: LockJob, next: nat, acquired: seq<LockElement>, r: LockRange)
    requires next <= |job.locks|
    ensures
      var after := LockNext(ranges, job, next, acquired).0;
      var granted :=
        && next < |job.locks| && ValidRange(job.locks[next]) && TakesLock(job.locks[next]) && r == RangeOf(job.key.fid, job.locks[next])
        && !Conflicts(ranges, job.key.fid, r.start, r.end, r.exclusive);
      (r in after && r !in ranges ==> granted) && (granted ==> r in after)
  {
    hide Unlock, Conflicts;
    if next < |job.locks| {
      var x := RangeOf(job.key.fid, job.locks[next]);
      if r in Unlock(ranges, job.key.fid, x.start, x.end) {
        UnlockAddsNothing(ranges, job.key.fid, x.start, x.end, r);
      }
    }
  }

  lemma LockAdds(s: State, c: ConnId, path: string, r: LockRange)
    requires Enabled(s, NextLock(c))
    ensures
      var s' := StepLock(s, c);
      && (r in RangesAt(s', path) && r !in RangesAt(s, path) ==> Grants(s, NextLock(c), path, r))
      && (Grants(s, NextLock(c), path, r) ==> r in RangesAt(s', path))
  {
    hide Unlock, Conflicts, LockNext, ValidRange, TakesLock, RangeOf;
    var Locking(job, next, acquired) := s.pc[c];
    LockNextAdds(RangesAt(s, job.path), job, next, acquired, r);
  }

  lemma UndoAdds(s: State, c: ConnId, path: string, r: LockRange)
    requires Enabled(s, NextUndo(c)) && r in RangesAt(StepUndo(s, c), path)
    ensures r in RangesAt(s, path)
  {
    hide Unlock;
    var RollingBack(job, stop, acquired, status) := s.pc[c];
    if acquired != [] && path == job.path {
      var x := RangeOf(job.key.fid, acquired[0]);
      UnlockAddsNothing(RangesAt(s, path), job.key.fid, x.start, x.end, r);
    }
  }

  lemma CloseAdds(s: State, c: ConnId, path: string, r: LockRange)
    requires Enabled(s, DropLocks(c)) && r in RangesAt(FinishClose(s, c), path)
    ensures r in RangesAt(s, path)
  {
    hide UnlockAll;
    var key := s.pc[c].key;
    if path == s.opens[key].path { UnlockAllAddsNothing(RangesAt(s, path), key.fid, r); }
  }

  lemma DrainAdds(s: State, c: ConnId, path: string, r: LockRange)
    requires Enabled(s, DrainLocks(c)) && r in RangesAt(DrainUnlock(s, c), path)
    ensures r in RangesAt(s, path)
  {
    hide UnlockAll;
    var key := s.pc[c].half.value;
    if path == s.opens[key].path { UnlockAllAddsNothing(RangesAt(s, path), key.fid, r); }
  }

  lemma EntryKeepsTables(s: State, step: Step)
    requires Enabled(s, step) && EntryStep(step)
    ensures ApplyEntry(s, step).locks == s.locks
  {
    hide NewSession, NewTree, SetupMore, CreateOpen, GrantOplock, BreakOplock, SendTo, GateOpen, Live;
  }

  lemma FileKeepsTables(s: State, step: Step)
    requires Enabled(s, step) && !EntryStep(step) && !step.NextLock? && !step.NextUndo? && !step.DropLocks? && !step.DrainLocks?
    ensures ApplyFile(s, step).locks == s.locks
  {
    hide StepLock, StepUndo, FinishClose, DrainUnlock, FinishDrain, StartLock, StartClose, RemoveClosed, StartDrain, StartAccess, EndAccess;
    hide ChangeFile, WriteAdmitted, ReadAdmitted, Found, GateOpen, MayDrain;
  }

  lemma OtherStepsKeepTables(s: State, step: Step)
    requires Enabled(s, step) && !step.NextLock? && !step.NextUndo? && !step.DropLocks? && !step.DrainLocks?
    ensures Apply(s, step).locks == s.locks
  {
    hide Enabled, ApplyEntry, ApplyFile;
    if EntryStep(step) { EntryKeepsTables(s, step); } else { FileKeepsTables(s, step); }
  }

  /** A range comes into a table only by being granted. */
  lemma NewEntryIsGranted(s: State, step: Step, path: string, r: LockRange)
    requires Enabled(s, step) && r in RangesAt(Apply(s, step), path) && r !in RangesAt(s, path)
    ensures Grants(s, step, path, r)
  {
    hide StepLock, StepUndo, FinishClose, DrainUnlock, Grants, RangesAt, WriteAdmitted, ReadAdmitted, Found, GateOpen;
    match step
    case NextLock(c) => LockAdds(s, c, path, r);
    case NextUndo(c) => UndoAdds(s, c, path, r);
    case DropLocks(c) => CloseAdds(s, c, path, r);
    case DrainLocks(c) => DrainAdds(s, c, path, r);
    case _ => OtherStepKeepsRanges(s, step, path);
  }

  lemma OtherStepKeepsRanges(s: State, step: Step, path: string)
    requires Enabled(s, step) && !step.NextLock? && !step.NextUndo? && !step.DropLocks? && !step.DrainLocks?
    ensures RangesAt(Apply(s, step), path) == RangesAt(s, path)
  {
    hide Apply, Enabled;
    OtherStepsKeepTables(s, step);
  }

  // ---------------------------------------------------------------- one access in flight

  /** The access a check admits. */
  function Admitted(s: State, step: Step): Access
    requires Enabled(s, step) && (step.CheckRead? || step.CheckWrite?)
  {
    var length: Length := if step.CheckRead? then step.length else step.size;
    Access(step.key, s.opens[step.key].path, step.offset, Add64(step.offset, length), step.CheckWrite?)
  }

  /** An access that passes its check is clear at that moment, and its end does not wrap. */
  lemma CheckedIsClear(s: State, step: Step)
    requires Enabled(s, step) && (step.CheckRead? || step.CheckWrite?)
    ensures
      var a := Admitted(s, step);
      Clear(s, a) && a.start <= a.end && InFlight(Apply(s, step), step.c, a) && Apply(s, step).locks == s.locks
  {
    hide AccessConflicts, Overlap, GateOpen;
    var a := Admitted(s, step);
    AdmittedAccess(RangesAt(s, a.path), a.key.fid, a.start, a.end, a.write);
  }

  /** The exact step that puts a lock in the way of an access in flight. */
  lemma ClearLostIff(s: State, step: Step, c: ConnId, a: Access)
    requires Enabled(s, step) && InFlight(s, c, a) && Clear(s, a)
    ensures !Clear(Apply(s, step), a) <==> exists r :: Grants(s, step, a.path, r) && Forbids(r, a)
  {
    hide Apply, Enabled, Grants, Forbids, RangesAt;
    var s' := Apply(s, step);
    if !Clear(s', a) {
      var r :| r in RangesAt(s', a.path) && Forbids(r, a);
      NewEntryIsGranted(s, step, a.path, r);
    }
    if r :| Grants(s, step, a.path, r) && Forbids(r, a) {
      GrantIsThere(s, step, a.path, r);
    }
  }

  lemma GrantIsThere(s: State, step: Step, path: string, r: LockRange)
    requires Enabled(s, step) && Grants(s, step, path, r)
    ensures r in RangesAt(Apply(s, step), path)
  {
    hide StepLock, RangesAt;
    LockAdds(s, step.c, path, r);
  }

  // ---------------------------------------------------------------- over whole runs

  /** Between its check and its call to the backend a connection takes no step of its own. */
  lemma {:induction false} StaysInFlight(states: seq<State>, steps: seq<Step>, c: ConnId, i: nat, j: nat)
    requires Run(states, steps) && i < j <= |steps| && (steps[i].CheckRead? || steps[i].CheckWrite?) && steps[i].c == c
    requires forall m :: i < m < j ==> steps[m] != DoAccess(c)
    ensures InFlight(states[j], c, Admitted(states[i], steps[i]))
    decreases j
  {
    hide Apply, Safe, Enabled, Admitted;
    var a := Admitted(states[i], steps[i]);
    assert states[j - 1 + 1] == Apply(states[j - 1], steps[j - 1]);
    if j == i + 1 {
      CheckedIsClear(states[i], steps[i]);
    } else {
      StaysInFlight(states, steps, c, i, j - 1);
      StepInFlight(states[j - 1], steps[j - 1], c, a);
    }
  }

  lemma StepInFlight(s: State, step: Step, c: ConnId, a: Access)
    requires Enabled(s, step) && InFlight(s, c, a) && step != DoAccess(c)
    ensures InFlight(Apply(s, step), c, a)
  {
    if step.c != c {
      hide Apply, Enabled;
      OthersLeavePc(s, step, c);
    } else {
      hide WriteAdmitted, ReadAdmitted, Found, GateOpen, MayDrain;
      assert step.FinalArrives?;
    }
  }

  /** Every lock that an access meets when it reaches the backend was granted after its check. */
  lemma {:induction false} ForeignLockCameLater(states: seq<State>, steps: seq<Step>, c: ConnId, i: nat, j: nat, r: LockRange)
    requires Run(states, steps) && i < j <= |steps| && (steps[i].CheckRead? || steps[i].CheckWrite?) && steps[i].c == c
    requires var a := Admitted(states[i], steps[i]); r in RangesAt(states[j], a.path) && Forbids(r, a)
    ensures exists m :: i < m < j && Grants(states[m], steps[m], Admitted(states[i], steps[i]).path, r)
    decreases j
  {
    hide Apply, Safe, Enabled, Admitted, Grants, Forbids, RangesAt;
    var a := Admitted(states[i], steps[i]);
    assert states[j - 1 + 1] == Apply(states[j - 1], steps[j - 1]);
    CheckedIsClear(states[i], steps[i]);
    if r in RangesAt(states[j - 1], a.path) {
      NotAtTheCheck(states[i], a, r);
      ForeignLockCameLater(states, steps, c, i, j - 1, r);
    } else {
      NewEntryIsGranted(states[j - 1], steps[j - 1], a.path, r);
      NotTheCheck(states[j - 1], steps[j - 1], a.path, r);
    }
  }

  lemma NotAtTheCheck(s: State, a: Access, r: LockRange)
    requires Clear(s, a) && Forbids(r, a)
    ensures r !in RangesAt(s, a.path)
  {
  }

  lemma NotTheCheck(s: State, step: Step, path: string, r: LockRange)
    requires Grants(s, step, path, r)
    ensures step.NextLock?
  {
  }

  lemma AccessIsMade(s: State, c: ConnId, a: Access)
    requires InFlight(s, c, a)
    ensures Enabled(s, DoAccess(c)) && exists readOnly :: Apply(s, DoAccess(c)).calls == s.calls + [BackendCall(Touch(a), readOnly)]
  {
    assert Apply(s, DoAccess(c)).calls == s.calls + [BackendCall(Touch(a), s.pc[c].readOnly)];
  }

  /** The exact condition for a READ or WRITE to meet no other open's lock when it reaches the backend: whatever
      stands in its way and was granted since its check has been released again. */
  lemma AccessIsClearIff(states: seq<State>, steps: seq<Step>, c: ConnId, i: nat, j: nat)
    requires Run(states, steps) && i < j < |steps| && (steps[i].CheckRead? || steps[i].CheckWrite?) && steps[i].c == c
    requires steps[j] == DoAccess(c) && forall m :: i < m < j ==> steps[m] != DoAccess(c)
    ensures
      var a := Admitted(states[i], steps[i]);
      && InFlight(states[j], c, a)
      && (Clear(states[j], a) <==>
          forall m, r :: i < m < j && Grants(states[m], steps[m], a.path, r) && Forbids(r, a) ==> r !in RangesAt(states[j], a.path))
      && exists readOnly :: states[j + 1].calls == states[j].calls + [BackendCall(Touch(a), readOnly)]
  {
    hide Apply, Safe, Enabled, Admitted, Grants, Forbids, RangesAt;
    var a := Admitted(states[i], steps[i]);
    StaysInFlight(states, steps, c, i, j);
    assert states[j + 1] == Apply(states[j], steps[j]);
    AccessIsMade(states[j], c, a);
    forall r | r in RangesAt(states[j], a.path) && Forbids(r, a)
      ensures exists m :: i < m < j && Grants(states[m], steps[m], a.path, r)
    {
      ForeignLockCameLater(states, steps, c, i, j, r);
    }
  }

  // ---------------------------------------------------------------- a write inside a lock

  const TREE0 := TREE
  const TREE1 := TreeKey(1, 2, 0)

  function KeyOn(t: TreeKey): OpenKey { OpenKey(t, MakeFileId(t.sess, t.tree, 1)) }

  /** Two connections with a tree each, of sessions 1 and 2. */
  predicate TwoTrees(s: State) {
    && At(s, 0, Idle) && At(s, 1, Idle) && s.locks == map[]
    && GateOpen(s, TREE0) && GateOpen(s, TREE1) && !s.trees[TREE0].readOnly && !s.trees[TREE1].readOnly
  }

  lemma TwoConnections() returns (s: State)
    ensures Reachable(s) && s == INITIAL.(pc := map[0 := Idle, 1 := Idle], channels := map[0 := 0, 1 := 0])
  {
    InitialReached();
    ReachableExtends(INITIAL, Connect(0));
    var s1 := Apply(INITIAL, Connect(0));
    ReachableExtends(s1, Connect(1));
    s := Apply(s1, Connect(1));
  }

  lemma TwoSessions() returns (s: State)
    ensures Reachable(s) && At(s, 0, Idle) && At(s, 1, Idle) && s.locks == map[] && s.opens == map[] && s.trees == map[]
    ensures s.sessions == map[SessKey(0, 1) := Session(true, 0), SessKey(1, 2) := Session(true, 0)]
  {
    hide Reachable;
    var s1 := TwoConnections();
    ReachableExtends(s1, SetupNew(0, true));
    var s2 := Apply(s1, SetupNew(0, true));
    assert s2.sessions == map[SessKey(0, 1) := Session(true, 0)] && s2.nextSess == 1;
    assert s2.trees == map[] && s2.opens == map[];
    ReachableExtends(s2, SetupNew(1, true));
    s := Apply(s2, SetupNew(1, true));
  }

  lemma TwoTreesReached() returns (s: State)
    ensures Reachable(s) && TwoTrees(s) && s.opens == map[] && s.trees == map[TREE0 := Tree(false, 0), TREE1 := Tree(false, 0)]
  {
    hide Reachable;
    var s1 := TwoSessions();
    ReachableExtends(s1, ConnectTree(0, 1, false));
    var s2 := Apply(s1, ConnectTree(0, 1, false));
    assert s2.trees == map[TREE0 := Tree(false, 0)] && s2.opens == map[];
    ReachableExtends(s2, ConnectTree(1, 2, false));
    s := Apply(s2, ConnectTree(1, 2, false));
  }

  lemma TwoOpensReached() returns (s: State)
    ensures Reachable(s) && TwoTrees(s) && Found(s, KeyOn(TREE0)) && Found(s, KeyOn(TREE1))
    ensures s.opens[KeyOn(TREE0)].path == FILE && s.opens[KeyOn(TREE1)].path == FILE
  {
    hide Reachable, MakeFileId;
    var s1 := TwoTreesReached();
    ReachableExtends(s1, Create(0, TREE0, PLAIN_OPEN, true));
    var s2 := Apply(s1, Create(0, TREE0, PLAIN_OPEN, true));
    assert s2.opens == map[KeyOn(TREE0) := Open(FILE, false, 1, false)];
    assert KeyOn(TREE1) != KeyOn(TREE0);
    ReachableExtends(s2, Create(1, TREE1, PLAIN_OPEN, true));
    s := Apply(s2, Create(1, TREE1, PLAIN_OPEN, true));
  }

  const RACE := Access(KeyOn(TREE0), FILE, 0, 10, true)

  /** The first connection has passed the check of a WRITE; nothing is locked. */
  lemma CheckedReached() returns (s: State)
    ensures Reachable(s) && InFlight(s, 0, RACE) && At(s, 1, Idle) && s.locks == map[]
    ensures Found(s, KeyOn(TREE1)) && s.opens[KeyOn(TREE1)].path == FILE
  {
    hide Reachable, MakeFileId;
    var s1 := TwoOpensReached();
    var check := CheckWrite(0, KeyOn(TREE0), 0, 10, 10);
    ReachableExtends(s1, check);
    s := Apply(s1, check);
  }

  /** Meanwhile the other connection takes the range. */
  lemma LockedMeanwhile(s: State) returns (s': State)
    requires Reachable(s) && InFlight(s, 0, RACE) && At(s, 1, Idle) && s.locks == map[]
    requires Found(s, KeyOn(TREE1)) && s.opens[KeyOn(TREE1)].path == FILE
    ensures Reachable(s') && InFlight(s', 0, RACE) && RangesAt(s', FILE) == [LockRange(KeyOn(TREE1).fid, 0, 10, true)]
  {
    hide Reachable, MakeFileId, Held, GateOpen;
    var k := KeyOn(TREE1);
    var lock := LockElement(0, 10, 2);
    assert !HasUnlock(lock) && HasExclusive(lock) by {
      assert Bit(2, 2) == Bit(1, 1) == Bit(0, 0) && Bit(2, 1) == Bit(1, 0);
    }
    hide Bit;
    ReachableExtends(s, BeginLock(1, k, [lock]));
    var s1 := Apply(s, BeginLock(1, k, [lock]));
    assert RangesAt(s1, FILE) == [] && InFlight(s1, 0, RACE);
    ReachableExtends(s1, NextLock(1));
    s' := Apply(s1, NextLock(1));
    assert LockNext([], s1.pc[1].job, 0, []).0 == [] + [LockRange(k.fid, 0, 10, true)];
  }

  /** So a WRITE can pass its check, the other connection lock the range, and the WRITE still reach the backend. */
  lemma WriteLandsInsideLock()
    ensures exists s, a: Access :: Reachable(s) && InFlight(s, 0, a) && Enabled(s, DoAccess(0)) && a.write && !Clear(s, a)
  {
    hide Reachable, MakeFileId;
    FileIdsCollideIff(1, 0, 1, 2, 0, 1);
    var s1 := CheckedReached();
    var s := LockedMeanwhile(s1);
    assert Forbids(RangesAt(s, FILE)[0], RACE);
    assert InFlight(s, 0, RACE) && Enabled(s, DoAccess(0)) && !Clear(s, RACE);
  }
}
