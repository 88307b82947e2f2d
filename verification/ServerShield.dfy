/** Which accesses are safe from locks granted between their check and their call to the backend: exactly
    those whose every byte the open has locked itself before it asks. */
module ServerShield {
  import opened Bytes
  import opened FileIds
  import opened Locks
  import opened LockRequests
  import opened ServerState
  import opened ServerInvariant
  import opened ServerSteps
  import opened ServerRuns
  import opened ServerExamples
  import opened ServerAccess

  /** A range of the access's own open over this byte; exclusive, if the access writes. */
  predicate Shields(r: LockRange, a: Access, b: uint64) {
    r.fileId == a.key.fid && r.start <= b < r.end && (a.write ==> r.exclusive)
  }

  predicate ShieldedAt(ranges: seq<LockRange>, a: Access, b: uint64) {
    exists i :: 0 <= i < |ranges| && Shields(ranges[i], a, b)
  }

  predicate Covered(ranges: seq<LockRange>, a: Access) {
    forall b: uint64 :: a.start <= b < a.end ==> ShieldedAt(ranges, a, b)
  }

  predicate Check(step: Step) { step.CheckRead? || step.CheckWrite? }

  /** However the run goes on, the access meets no other open's lock when it reaches the backend. */
  ghost predicate Protected(s: State, step: Step)
    requires Enabled(s, step) && Check(step)
  {
    forall states: seq<State>, steps: seq<Step>, i: nat, j: nat ::
      Run(states, steps) && i < j < |steps| && states[i] == s && steps[i] == step && steps[j] == DoAccess(step.c)
      && (forall m :: i < m < j ==> steps[m] != DoAccess(step.c))
      ==> Clear(states[j], Admitted(s, step))
  }

  // ---------------------------------------------------------------- what others cannot take away

  lemma LockNextKeeps(ranges: seq<LockRange>, job: LockJob, next: nat, acquired: seq<LockElement>, r: LockRange)
    requires next <= |job.locks| && r in ranges && r.fileId != job.key.fid
    ensures r in LockNext(ranges, job, next, acquired).0
  {
    hide Unlock, Conflicts;
    if next < |job.locks| {
      var x := RangeOf(job.key.fid, job.locks[next]);
      OtherStays(ranges, job.key.fid, x.start, x.end, r);
    }
  }

  lemma UndoNextKeeps(ranges: seq<LockRange>, job: LockJob, stop: nat, acquired: seq<LockElement>, status: Status, r: LockRange)
    requires r in ranges && r.fileId != job.key.fid
    ensures r in UndoNext(ranges, job, stop, acquired, status).0
  {
    hide Unlock;
    if acquired != [] {
      var x := RangeOf(job.key.fid, acquired[0]);
      OtherStays(ranges, job.key.fid, x.start, x.end, r);
    }
  }

  /** The open whose entries a step may take out of a table belongs to the connection that takes the step. */
  function Touched(s: State, step: Step): OpenKey
    requires Enabled(s, step) && (step.NextLock? || step.NextUndo? || step.DropLocks? || step.DrainLocks?)
  {
    if step.NextLock? || step.NextUndo? then s.pc[step.c].job.key
    else if step.DropLocks? then s.pc[step.c].key
    else s.pc[step.c].half.value
  }

  lemma ThreadOwns(t: Tables, c: ConnId, pc: Pc)
    requires ThreadOk(t, c, pc)
    ensures pc.Accessing? ==> pc.access.key in t.opens && pc.access.key.at.conn == c
    ensures InLockRequest(pc) ==> pc.job.key in t.opens && pc.job.key.at.conn == c
    ensures pc.Unlocking? ==> pc.key in t.opens && pc.key.at.conn == c
    ensures pc.Draining? && pc.half.Some? ==> pc.half.value in t.opens && pc.half.value.at.conn == c
  {
    hide LockingOk, RollingOk, LeftBy, Unnamed, NoOplock;
  }

  lemma TouchedIsOwn(s: State, step: Step)
    requires Inv(s) && Enabled(s, step) && (step.NextLock? || step.NextUndo? || step.DropLocks? || step.DrainLocks?)
    ensures Touched(s, step) in s.opens && Touched(s, step).at.conn == step.c
  {
    hide Inv, ThreadOk;
    ThreadAt(s, step.c);
    ThreadOwns(TablesOf(s), step.c, s.pc[step.c]);
  }

  lemma LockKeepsOthers(s: State, c: ConnId, path: string, r: LockRange)
    requires Enabled(s, NextLock(c)) && r in RangesAt(s, path) && r.fileId != s.pc[c].job.key.fid
    ensures r in RangesAt(StepLock(s, c), path)
  {
    hide LockNext;
    var Locking(job, next, acquired) := s.pc[c];
    if path == job.path { LockNextKeeps(RangesAt(s, path), job, next, acquired, r); }
  }

  lemma UndoKeepsOthers(s: State, c: ConnId, path: string, r: LockRange)
    requires Enabled(s, NextUndo(c)) && r in RangesAt(s, path) && r.fileId != s.pc[c].job.key.fid
    ensures r in RangesAt(StepUndo(s, c), path)
  {
    hide UndoNext;
    var RollingBack(job, stop, acquired, status) := s.pc[c];
    if path == job.path { UndoNextKeeps(RangesAt(s, path), job, stop, acquired, status, r); }
  }

  lemma CloseKeepsOthers(s: State, c: ConnId, path: string, r: LockRange)
    requires Enabled(s, DropLocks(c)) && r in RangesAt(s, path) && r.fileId != s.pc[c].key.fid
    ensures r in RangesAt(FinishClose(s, c), path)
  {
    hide UnlockAll;
    AllButOneStays(RangesAt(s, path), s.pc[c].key.fid, r);
  }

  lemma DrainKeepsOthers(s: State, c: ConnId, path: string, r: LockRange)
    requires Enabled(s, DrainLocks(c)) && r in RangesAt(s, path) && r.fileId != s.pc[c].half.value.fid
    ensures r in RangesAt(DrainUnlock(s, c), path)
  {
    hide UnlockAll;
    AllButOneStays(RangesAt(s, path), s.pc[c].half.value.fid, r);
  }

  lemma UntouchedStays(s: State, step: Step, path: string, r: LockRange)
    requires Enabled(s, step) && (step.NextLock? || step.NextUndo? || step.DropLocks? || step.DrainLocks?)
    requires r in RangesAt(s, path) && r.fileId != Touched(s, step).fid
    ensures r in RangesAt(Apply(s, step), path)
  {
    hide StepLock, StepUndo, FinishClose, DrainUnlock, RangesAt;
    match step
    case NextLock(c) => LockKeepsOthers(s, c, path, r);
    case NextUndo(c) => UndoKeepsOthers(s, c, path, r);
    case DropLocks(c) => CloseKeepsOthers(s, c, path, r);
    case DrainLocks(c) => DrainKeepsOthers(s, c, path, r);
  }

  lemma AllButOneStays(ranges: seq<LockRange>, fid: FileId, r: LockRange)
    requires r in ranges && r.fileId != fid
    ensures r in UnlockAll(ranges, fid)
  {
    SelectHas(ranges, fid, false, r);
  }

  /** No step of another connection takes a range away from an open. */
  lemma OwnRangeStays(s: State, step: Step, key: OpenKey, path: string, r: LockRange)
    requires Inv(s) && Enabled(s, step) && key in s.opens && step.c != key.at.conn
    requires r.fileId == key.fid && r in RangesAt(s, path)
    ensures r in RangesAt(Apply(s, step), path)
  {
    hide Inv, Apply, Enabled, RangesAt, Touched;
    if step.NextLock? || step.NextUndo? || step.DropLocks? || step.DrainLocks? {
      TouchedIsOwn(s, step);
      if Touched(s, step).fid == key.fid { UniqueFileIds(s, Touched(s, step), key); }
      UntouchedStays(s, step, path, r);
    } else {
      OtherStepKeepsRanges(s, step, path);
    }
  }

  /** So what an open holds at its check it still holds at its call to the backend. */
  lemma {:induction false} HeldUntilAccess(states: seq<State>, steps: seq<Step>, i: nat, j: nat, r: LockRange)
    requires Run(states, steps) && i < j <= |steps| && Check(steps[i]) && (forall m :: i < m < j ==> steps[m] != DoAccess(steps[i].c))
    requires var a := Admitted(states[i], steps[i]); r in RangesAt(states[i], a.path) && r.fileId == a.key.fid
    ensures r in RangesAt(states[j], Admitted(states[i], steps[i]).path)
    decreases j
  {
    hide Apply, Safe, Enabled, Admitted, RangesAt, Inv;
    var a, c := Admitted(states[i], steps[i]), steps[i].c;
    assert states[j - 1 + 1] == Apply(states[j - 1], steps[j - 1]);
    if j == i + 1 {
      OtherStepKeepsRanges(states[i], steps[i], a.path);
    } else {
      HeldUntilAccess(states, steps, i, j - 1, r);
      StaysInFlight(states, steps, c, i, j - 1);
      RunKeepsInv(states, steps, j - 1);
      StepKeepsHeld(states[j - 1], steps[j - 1], c, a, r);
    }
  }

  lemma StepKeepsHeld(s: State, step: Step, c: ConnId, a: Access, r: LockRange)
    requires Inv(s) && Enabled(s, step) && InFlight(s, c, a) && step != DoAccess(c)
    requires r in RangesAt(s, a.path) && r.fileId == a.key.fid
    ensures r in RangesAt(Apply(s, step), a.path)
  {
    hide Inv, Apply, Enabled, RangesAt;
    InFlightIsOwn(s, c, a);
    if step.c == c {
      OnlyFinalsArrive(s, step, c, a);
      OtherStepKeepsRanges(s, step, a.path);
    } else {
      OwnRangeStays(s, step, a.key, a.path, r);
    }
  }

  lemma InFlightIsOwn(s: State, c: ConnId, a: Access)
    requires Inv(s) && InFlight(s, c, a)
    ensures a.key in s.opens && a.key.at.conn == c
  {
    hide Inv, ThreadOk;
    ThreadAt(s, c);
    ThreadOwns(TablesOf(s), c, s.pc[c]);
  }

  lemma OnlyFinalsArrive(s: State, step: Step, c: ConnId, a: Access)
    requires Enabled(s, step) && InFlight(s, c, a) && step.c == c && step != DoAccess(c)
    ensures step.FinalArrives?
  {
    hide WriteAdmitted, ReadAdmitted, Found, GateOpen, MayDrain;
  }

  // ---------------------------------------------------------------- covered is protected

  lemma CompatiblePair(ranges: seq<LockRange>, i: nat, j: nat)
    requires Consistent(ranges) && i < |ranges| && j < |ranges| && i != j
    ensures Compatible(ranges[i], ranges[j])
  {
    if j < i { assert Compatible(ranges[j], ranges[i]); }
  }

  /** In a consistent table a covered access is clear. */
  lemma CoveredIsClear(ranges: seq<LockRange>, a: Access, r: LockRange)
    requires Consistent(ranges) && Covered(ranges, a) && a.start < a.end && r in ranges
    ensures !Forbids(r, a)
  {
    if Forbids(r, a) {
      var j :| 0 <= j < |ranges| && ranges[j] == r;
      var b: uint64 := if a.start < r.start then r.start else a.start;
      assert ShieldedAt(ranges, a, b);
      var i :| 0 <= i < |ranges| && Shields(ranges[i], a, b);
      CompatiblePair(ranges, i, j);
      assert Overlap(ranges[i].start, ranges[i].end, r);
      assert false;
    }
  }

  /** Every access whose bytes the open has locked is protected: exclusively for a WRITE, in any way for a READ. */
  lemma CoveredIsProtected(s: State, step: Step)
    requires Enabled(s, step) && Check(step)
    requires var a := Admitted(s, step); a.start < a.end && Covered(RangesAt(s, a.path), a)
    ensures Protected(s, step)
  {
    hide Apply, Safe, Enabled, Admitted, Forbids, RangesAt, Covered;
    forall states: seq<State>, steps: seq<Step>, i: nat, j: nat
      | Run(states, steps) && i < j < |steps| && states[i] == s && steps[i] == step && steps[j] == DoAccess(step.c)
        && (forall m :: i < m < j ==> steps[m] != DoAccess(step.c))
      ensures Clear(states[j], Admitted(s, step))
    {
      CoveredOverRun(states, steps, i, j);
    }
  }

  lemma CoveredOverRun(states: seq<State>, steps: seq<Step>, i: nat, j: nat)
    requires Run(states, steps) && i < j <= |steps| && Check(steps[i]) && (forall m :: i < m < j ==> steps[m] != DoAccess(steps[i].c))
    requires var a := Admitted(states[i], steps[i]); a.start < a.end && Covered(RangesAt(states[i], a.path), a)
    ensures Clear(states[j], Admitted(states[i], steps[i]))
  {
    hide Apply, Safe, Enabled, Admitted, Forbids, RangesAt;
    var a := Admitted(states[i], steps[i]);
    var before, after := RangesAt(states[i], a.path), RangesAt(states[j], a.path);
    forall b: uint64 | a.start <= b < a.end ensures ShieldedAt(after, a, b) {
      assert ShieldedAt(before, a, b);
      var k :| 0 <= k < |before| && Shields(before[k], a, b);
      HeldUntilAccess(states, steps, i, j, before[k]);
    }
    RunKeepsInv(states, steps, j);
    TableConsistent(states[j], a.path);
    forall r | r in after ensures !Forbids(r, a) { CoveredIsClear(after, a, r); }
  }

  // ---------------------------------------------------------------- a gap can be locked

  predicate AloneAt(ranges: seq<LockRange>, a: Access, b: uint64) {
    forall i :: 0 <= i < |ranges| && ranges[i].start <= b < ranges[i].end ==> ranges[i].fileId == a.key.fid
  }

  /** No byte is under other opens' ranges alone. A WRITE is admitted only so. */
  predicate Alone(ranges: seq<LockRange>, a: Access) {
    forall b: uint64 :: a.start <= b < a.end ==> ShieldedAt(ranges, a, b) || AloneAt(ranges, a, b)
  }

  /** The lock of one byte: shared against a WRITE, exclusive against a READ. */
  function Wedge(a: Access, b: uint64): LockElement { LockElement(b, 1, if a.write then 1 else 2) }

  lemma WedgeTakes(a: Access, b: uint64, fid: FileId)
    requires a.start <= b < a.end
    ensures ValidRange(Wedge(a, b)) && TakesLock(Wedge(a, b)) && !HasUnlock(Wedge(a, b))
    ensures RangeOf(fid, Wedge(a, b)) == LockRange(fid, b, b + 1, !a.write)
  {
    assert Bit(2, 2) == Bit(1, 1) == Bit(0, 0) && Bit(2, 1) == Bit(1, 0);
  }

  /** Where the access is not shielded, the lock is free. */
  lemma WedgeIsFree(s: State, a: Access, b: uint64, fid: FileId)
    requires AloneAt(RangesAt(s, a.path), a, b) && !ShieldedAt(RangesAt(s, a.path), a, b)
    requires a.start <= b < a.end && fid != a.key.fid
    ensures !Conflicts(RangesAt(s, a.path), fid, b, b + 1, !a.write) && Forbids(LockRange(fid, b, b + 1, !a.write), a)
  {
    var ranges := RangesAt(s, a.path);
    forall i | 0 <= i < |ranges| && Overlap(b, b + 1, ranges[i]) ensures !ranges[i].exclusive && a.write {
      assert !Shields(ranges[i], a, b);
    }
  }

  lemma WriteIsAlone(s: State, step: Step)
    requires Enabled(s, step) && step.CheckWrite?
    ensures var a := Admitted(s, step); Alone(RangesAt(s, a.path), a)
  {
    hide Enabled, Apply, RangesAt;
    CheckedIsClear(s, step);
    var a := Admitted(s, step);
    var ranges := RangesAt(s, a.path);
    forall b: uint64 | a.start <= b < a.end ensures AloneAt(ranges, a, b) {
      forall i | 0 <= i < |ranges| && ranges[i].start <= b < ranges[i].end ensures ranges[i].fileId == a.key.fid {
        assert ranges[i] in ranges;
        assert !Forbids(ranges[i], a);
      }
    }
  }

  // ---------------------------------------------------------------- runs past the check

  ghost predicate Passed(states: seq<State>, steps: seq<Step>, i: nat, s: State, step: Step, s': State) {
    && Run(states, steps) && i < |steps| && states[i] == s && steps[i] == step && states[|steps|] == s'
    && forall m :: i < m < |steps| ==> steps[m] != DoAccess(step.c)
  }

  /** A run leads through the check to this state, and the access has not reached the backend. */
  ghost predicate Since(s: State, step: Step, s': State) {
    exists states, steps, i: nat :: Passed(states, steps, i, s, step, s')
  }

  lemma SinceBegins(s: State, step: Step)
    requires Reachable(s) && Enabled(s, step) && Check(step)
    ensures Since(s, step, Apply(s, step))
  {
    hide Apply, Enabled;
    var states, steps :| Run(states, steps) && states[|steps|] == s;
    RunExtends(states, steps, step);
    assert Passed(states + [Apply(s, step)], steps + [step], |steps|, s, step, Apply(s, step));
  }

  lemma SinceGoesOn(s: State, step: Step, s': State, next: Step)
    requires Since(s, step, s') && Enabled(s', next) && Safe(s', next) && next != DoAccess(step.c)
    ensures Since(s, step, Apply(s', next))
  {
    hide Apply, Enabled, Safe;
    var states, steps, i: nat :| Passed(states, steps, i, s, step, s');
    RunExtends(states, steps, next);
    assert Passed(states + [Apply(s', next)], steps + [next], i, s, step, Apply(s', next));
  }

  lemma SinceMeans(s: State, step: Step, s': State)
    requires Since(s, step, s') && Enabled(s, step) && Check(step)
    ensures Reachable(s') && InFlight(s', step.c, Admitted(s, step))
  {
    hide Apply, Enabled, Safe, Admitted;
    var states, steps, i: nat :| Passed(states, steps, i, s, step, s');
    StaysInFlight(states, steps, step.c, i, |steps|);
  }

  /** The access reaches the backend in the next step. */
  lemma MetALock(s: State, step: Step, s': State)
    requires Since(s, step, s') && Enabled(s, step) && Check(step) && !Clear(s', Admitted(s, step))
    ensures !Protected(s, step)
  {
    hide Apply, Safe, Admitted, Clear, Enabled, Run, Protected;
    SinceMeans(s, step, s');
    var states, steps, i: nat :| Passed(states, steps, i, s, step, s');
    AccessEnabled(s', step.c, Admitted(s, step));
    RunLength(states, steps);
    RunExtends(states, steps, DoAccess(step.c));
    var all, more := states + [Apply(s', DoAccess(step.c))], steps + [DoAccess(step.c)];
    assert forall m :: i < m < |steps| ==> more[m] == steps[m];
    FailsThere(all, more, i, |steps|, s, step);
  }

  lemma RunLength(states: seq<State>, steps: seq<Step>)
    requires Run(states, steps)
    ensures |states| == |steps| + 1
  {
  }

  lemma FailsThere(states: seq<State>, steps: seq<Step>, i: nat, j: nat, s: State, step: Step)
    requires Run(states, steps) && i < j < |steps| < |states| && states[i] == s && steps[i] == step && steps[j] == DoAccess(step.c)
    requires forall m :: i < m < j ==> steps[m] != DoAccess(step.c)
    requires Enabled(s, step) && Check(step) && !Clear(states[j], Admitted(s, step))
    ensures !Protected(s, step)
  {
    hide Apply, Safe, Admitted, Clear, Enabled;
  }

  lemma AccessEnabled(s: State, c: ConnId, a: Access)
    requires InFlight(s, c, a)
    ensures Enabled(s, DoAccess(c)) && Safe(s, DoAccess(c))
  {
  }

  // ---------------------------------------------------------------- a client that comes after the check

  lemma {:induction false} Beyond(conns: set<ConnId>) returns (d: ConnId)
    ensures forall c :: c in conns ==> c < d
    decreases conns
  {
    if conns == {} {
      d := 0;
    } else {
      var c :| c in conns;
      var e := Beyond(conns - {c});
      d := if c < e then e else c + 1;
      forall k | k in conns ensures k < d {
        if k != c { assert k in conns - {c}; }
      }
    }
  }

  lemma ClientConnects(s: State, step: Step, s0: State) returns (s': State, d: ConnId)
    requires Since(s, step, s0)
    ensures Since(s, step, s') && s'.locks == s0.locks && s'.nextSess == s0.nextSess && d !in s0.pc && At(s', d, Idle)
  {
    hide Since;
    d := Beyond(s0.pc.Keys);
    assert d !in s0.pc.Keys;
    SinceGoesOn(s, step, s0, Connect(d));
    s' := Apply(s0, Connect(d));
  }

  lemma ClientLogsOn(s: State, step: Step, s0: State, d: ConnId) returns (s': State, sk: SessKey)
    requires Since(s, step, s0) && At(s0, d, Idle) && s0.nextSess + 1 < 0x1_0000_0000_0000_0000
    ensures Since(s, step, s') && s'.locks == s0.locks && sk.conn == d
    ensures At(s', d, Idle) && sk in s'.sessions && s'.sessions[sk] == Session(true, 0)
  {
    hide Since;
    SinceGoesOn(s, step, s0, SetupNew(d, true));
    s' := Apply(s0, SetupNew(d, true));
    sk := SessKey(d, s0.nextSess + 1);
  }

  lemma ClientConnectsTree(s: State, step: Step, s0: State, sk: SessKey) returns (s': State, at: TreeKey)
    requires Since(s, step, s0) && Inv(s0) && At(s0, sk.conn, Idle) && sk in s0.sessions && s0.sessions[sk] == Session(true, 0)
    ensures Since(s, step, s') && s'.locks == s0.locks && at.conn == sk.conn
    ensures At(s', sk.conn, Idle) && GateOpen(s', at) && s'.trees[at] == Tree(false, 0)
  {
    hide Since, Inv, SlotFree;
    var next := ConnectTree(sk.conn, sk.sess, false);
    FreeSlot(s0, sk);
    SinceGoesOn(s, step, s0, next);
    s' := Apply(s0, next);
    at := NextSlot(s0, sk);
  }

  lemma ClientOpens(s: State, step: Step, s0: State, at: TreeKey, path: string) returns (s': State, key: OpenKey)
    requires Since(s, step, s0) && Inv(s0) && At(s0, at.conn, Idle) && GateOpen(s0, at) && s0.trees[at] == Tree(false, 0)
    ensures Since(s, step, s') && s'.locks == s0.locks
    ensures key.at == at && At(s', at.conn, Idle) && Found(s', key) && s'.opens[key].path == path
  {
    hide Since, Inv, MakeFileId, Unnamed;
    var next := Create(at.conn, at, CreateRequest(path, 1, false, false, false), true);
    FreshKey(s0, at);
    SinceGoesOn(s, step, s0, next);
    s' := Apply(s0, next);
    key := NextKey(s0, at);
  }

  /** So there comes a client that has the file open and is at rest, and the locks are as they were. */
  lemma ClientArrives(s: State, step: Step, s0: State, path: string) returns (s': State, key: OpenKey)
    requires Since(s, step, s0) && Enabled(s, step) && Check(step) && s0.nextSess + 1 < 0x1_0000_0000_0000_0000
    ensures Since(s, step, s') && s'.locks == s0.locks
    ensures key.at.conn != step.c && At(s', key.at.conn, Idle) && Found(s', key) && s'.opens[key].path == path
  {
    hide Since, Enabled, Reachable, Inv, Admitted;
    SinceMeans(s, step, s0);
    var connected, d := ClientConnects(s, step, s0);
    var s1, sk := ClientLogsOn(s, step, connected, d);
    SinceMeans(s, step, s1);
    ReachableInv(s1);
    var s2, at := ClientConnectsTree(s, step, s1, sk);
    SinceMeans(s, step, s2);
    ReachableInv(s2);
    s', key := ClientOpens(s, step, s2, at, path);
  }

  /** Its LOCK request of one element. */
  lemma ClientLocks(s: State, step: Step, s0: State, key: OpenKey, l: LockElement) returns (s': State)
    requires Since(s, step, s0) && key.at.conn != step.c && At(s0, key.at.conn, Idle) && Found(s0, key) && ValidRange(l) && TakesLock(l)
    requires
      var r := RangeOf(key.fid, l);
      !Conflicts(RangesAt(s0, s0.opens[key].path), key.fid, r.start, r.end, r.exclusive)
    ensures Since(s, step, s') && RangeOf(key.fid, l) in RangesAt(s', s0.opens[key].path)
  {
    hide Since, Conflicts, Held, ValidRange, TakesLock, RangeOf, LockNext;
    var d, path := key.at.conn, s0.opens[key].path;
    SinceGoesOn(s, step, s0, BeginLock(d, key, [l]));
    var s1 := Apply(s0, BeginLock(d, key, [l]));
    SinceGoesOn(s, step, s1, NextLock(d));
    s' := Apply(s1, NextLock(d));
    assert Grants(s1, NextLock(d), path, RangeOf(key.fid, l));
    LockAdds(s1, d, path, RangeOf(key.fid, l));
  }

  lemma ClientDiffers(s: State, c: ConnId, a: Access, key: OpenKey)
    requires Reachable(s) && InFlight(s, c, a) && key in s.opens && key.at.conn != c
    ensures key.fid != a.key.fid
  {
    hide Reachable, Inv;
    ReachableInv(s);
    InFlightIsOwn(s, c, a);
    if key.fid == a.key.fid { UniqueFileIds(s, key, a.key); }
  }

  lemma CheckKeepsSessions(s: State, step: Step)
    requires Enabled(s, step) && Check(step)
    ensures Apply(s, step).nextSess == s.nextSess && Apply(s, step).locks == s.locks
  {
    hide WriteAdmitted, ReadAdmitted;
  }

  lemma GapMeansUnprotected(s: State, step: Step, b: uint64)
    requires Reachable(s) && Enabled(s, step) && Check(step) && s.nextSess + 1 < 0x1_0000_0000_0000_0000
    requires
      var a := Admitted(s, step);
      AloneAt(RangesAt(s, a.path), a, b) && a.start <= b < a.end && !ShieldedAt(RangesAt(s, a.path), a, b)
    ensures !Protected(s, step)
  {
    hide Enabled, Apply, Admitted, Since, Reachable, Protected, ShieldedAt, AloneAt, ValidRange, TakesLock, RangeOf, Conflicts, Found, Forbids;
    var a := Admitted(s, step);
    SinceBegins(s, step);
    CheckKeepsSessions(s, step);
    var s1, key := ClientArrives(s, step, Apply(s, step), a.path);
    SinceMeans(s, step, s1);
    OpenIsThere(s1, key);
    ClientDiffers(s1, step.c, a, key);
    WedgeTakes(a, b, key.fid);
    assert RangesAt(s1, a.path) == RangesAt(s, a.path);
    WedgeIsFree(s1, a, b, key.fid);
    var s2 := ClientLocks(s, step, s1, key, Wedge(a, b));
    assert !Clear(s2, a);
    MetALock(s, step, s2);
  }

  lemma OpenIsThere(s: State, key: OpenKey)
    requires Found(s, key)
    ensures key in s.opens
  {
  }

  /** The exact condition, before the call: an access of at least a byte is protected if and only if the open
      has locked all of it, as long as session ids last. Of a READ no byte may at that moment be under other
      opens' locks alone. */
  lemma ProtectedIffCovered(s: State, step: Step)
    requires Reachable(s) && Enabled(s, step) && Check(step) && s.nextSess + 1 < 0x1_0000_0000_0000_0000
    requires var a := Admitted(s, step); a.start < a.end && (step.CheckRead? ==> Alone(RangesAt(s, a.path), a))
    ensures var a := Admitted(s, step); Protected(s, step) <==> Covered(RangesAt(s, a.path), a)
  {
    hide Enabled, Apply, Admitted, RangesAt, AloneAt, ShieldedAt, Protected;
    var a := Admitted(s, step);
    if step.CheckWrite? { WriteIsAlone(s, step); }
    if Covered(RangesAt(s, a.path), a) {
      CoveredIsProtected(s, step);
    } else {
      var b: uint64 :| a.start <= b < a.end && !ShieldedAt(RangesAt(s, a.path), a, b);
      GapMeansUnprotected(s, step, b);
    }
  }
}
