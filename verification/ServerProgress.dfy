/** When a handler cannot go on: telling the holder of a broken oplock waits for room in its channel, which
    only its own goroutine makes, between two messages. */
module ServerProgress {
  import opened Bytes
  import opened FileIds
  import opened Locks
  import opened ServerState
  import opened ServerInvariant
  import opened ServerSteps
  import opened ServerRuns
  import opened ServerExamples

  /** The connection waits to notify one that is not closing down and whose channel holds its 64 messages. */
  predicate Blocked(s: State, c: ConnId) {
    && c in s.pc && s.pc[c].Notifying?
    && var to := s.pc[c].to;
    && to in s.pc && s.pc[to] != Closed && !(s.pc[to].Draining? && s.pc[to].goal == DropConn)
    && to in s.channels && s.channels[to] == 64
  }

  /** A step of the connection's own goroutine, not of one of its watchers. */
  predicate Own(step: Step, c: ConnId) { step.c == c && !step.FinalArrives? }

  /** The step a busy connection takes next. */
  function NextStep(s: State, c: ConnId): Option<Step>
    requires c in s.pc
  {
    match s.pc[c]
    case Idle => None
    case Closed => None
    case Granting(_) => Some(Grant(c))
    case Breaking(_) => Some(Break(c))
    case Notifying(to) => Some(if Live(s, to) then Notify(c) else SkipNotify(c))
    case Accessing(_, _) => Some(DoAccess(c))
    case Locking(_, _, _) => Some(NextLock(c))
    case RollingBack(_, _, _, _) => Some(NextUndo(c))
    case LockDone(_, _, _) => Some(AnswerLock(c))
    case Releasing(_) => Some(ReleaseOplock(c))
    case Unlocking(_) => Some(DropLocks(c))
    case Removing(_) => Some(RemoveFile(c))
    case Draining(todo, half, _) =>
      if half.Some? then Some(DrainLocks(c))
      else if todo == {} then Some(EndDrain(c))
      else None
  }

  lemma Moveable(s: State, c: ConnId, step: Step)
    requires Own(step, c) && Enabled(s, step)
    ensures exists step: Step :: Own(step, c) && Enabled(s, step)
  {
  }

  /** Places from which the next step needs nothing. */
  lemma PlainStepEnabled(s: State, c: ConnId)
    requires c in s.pc && (s.pc[c].Breaking? || s.pc[c].Accessing? || s.pc[c].RollingBack? || s.pc[c].LockDone? || s.pc[c].Removing?)
    ensures exists step: Step :: Own(step, c) && Enabled(s, step)
  {
    var step := NextStep(s, c).value;
    assert Own(step, c) && Enabled(s, step);
  }

  /** Places from which the next step needs its open. */
  lemma OpenStepEnabled(s: State, c: ConnId)
    requires c in s.pc && ThreadOk(TablesOf(s), c, s.pc[c]) && (s.pc[c].Granting? || s.pc[c].Releasing?)
    ensures exists step: Step :: Own(step, c) && Enabled(s, step)
  {
    hide NoOplock;
    Moveable(s, c, if s.pc[c].Granting? then Grant(c) else ReleaseOplock(c));
  }

  lemma UnlockingStepEnabled(s: State, c: ConnId)
    requires c in s.pc && ThreadOk(TablesOf(s), c, s.pc[c]) && OpensOk(s.trees, s.opens) && s.pc[c].Unlocking?
    ensures exists step: Step :: Own(step, c) && Enabled(s, step)
  {
    hide NoOplock;
    Moveable(s, c, DropLocks(c));
  }

  lemma BusyStepEnabled(s: State, c: ConnId)
    requires Inv(s) && c in s.pc && ThreadOk(TablesOf(s), c, s.pc[c]) && s.pc[c] != Idle && s.pc[c] != Closed && !Blocked(s, c)
    ensures exists step: Step :: Own(step, c) && Enabled(s, step)
  {
    hide LocksOk, OplocksOk, ThreadsOk, ClosingOk, TreesOk, SessionsOk, CallsOk, ChannelsOk, RollingOk, LeftBy, NoOplock, Mine, LockingOk;
    hide WriteAdmitted, ReadAdmitted, Found, GateOpen, MayDrain, DrainingOk, OpensOk;
    if s.pc[c].Draining? {
      DrainStepEnabled(s, c, s.pc[c].todo, s.pc[c].half, s.pc[c].goal);
    } else if s.pc[c].Locking? {
      LockingInBounds(TablesOf(s), c, s.pc[c]);
      Moveable(s, c, NextLock(c));
    } else if s.pc[c].Notifying? {
      NotifiedHasChannel(s, c);
      Moveable(s, c, if Live(s, s.pc[c].to) then Notify(c) else SkipNotify(c));
    } else if s.pc[c].Granting? || s.pc[c].Releasing? {
      OpenStepEnabled(s, c);
    } else if s.pc[c].Unlocking? {
      UnlockingStepEnabled(s, c);
    } else {
      PlainStepEnabled(s, c);
    }
  }

  lemma LockingInBounds(t: Tables, c: ConnId, pc: Pc)
    requires pc.Locking? && ThreadOk(t, c, pc)
    ensures pc.next <= |pc.job.locks|
  {
  }

  lemma NotifiedHasChannel(s: State, c: ConnId)
    requires Inv(s) && c in s.pc && s.pc[c].Notifying?
    ensures s.pc[c].to in s.channels && s.channels[s.pc[c].to] <= CHANNEL_SIZE
  {
    assert s.pc[c].to in s.pc.Keys;
  }

  lemma DrainStepEnabled(s: State, c: ConnId, todo: set<OpenKey>, half: Option<OpenKey>, goal: Goal)
    requires c in s.pc && s.pc[c] == Draining(todo, half, goal) && DrainingOk(TablesOf(s), c, todo, half, goal)
    ensures exists step: Step :: Own(step, c) && Enabled(s, step)
  {
    if half.None? && todo != {} {
      var key :| key in todo;
      assert Own(DrainOplock(c, key), c) && Enabled(s, DrainOplock(c, key));
    } else {
      assert Own(NextStep(s, c).value, c) && Enabled(s, NextStep(s, c).value);
    }
  }

  lemma BlockedHasNoStep(s: State, c: ConnId, step: Step)
    requires Blocked(s, c) && Own(step, c)
    ensures !Enabled(s, step)
  {
    hide WriteAdmitted, ReadAdmitted, Found, GateOpen, MayDrain;
  }

  /** The exact condition: inside a handler a connection has a step unless it waits to notify a live
      connection whose channel is full. */
  lemma StuckIffBlocked(s: State, c: ConnId)
    requires Reachable(s) && c in s.pc && s.pc[c] != Idle && s.pc[c] != Closed
    ensures (exists step: Step :: Own(step, c) && Enabled(s, step)) <==> !Blocked(s, c)
  {
    hide Inv, Reachable, Enabled, ThreadOk, Own;
    ReachableInv(s);
    ThreadAt(s, c);
    if Blocked(s, c) {
      forall step: Step | Own(step, c) ensures !Enabled(s, step) { BlockedHasNoStep(s, c, step); }
    } else {
      BusyStepEnabled(s, c);
    }
  }

  // ---------------------------------------------------------------- deadlock

  /** Each of these connections waits to notify one of them whose channel is full. */
  predicate Deadlocked(s: State, group: set<ConnId>) {
    forall c :: c in group ==>
      c in s.pc && s.pc[c].Notifying? && s.pc[c].to in group && s.pc[c].to in s.channels && s.channels[s.pc[c].to] == CHANNEL_SIZE
  }

  lemma DeadlockedAreBlocked(s: State, group: set<ConnId>, c: ConnId)
    requires Deadlocked(s, group) && c in group
    ensures Blocked(s, c)
  {
  }

  lemma FullChannelStays(s: State, step: Step, to: ConnId)
    requires Enabled(s, step) && to in s.channels && s.channels[to] == CHANNEL_SIZE && to in s.pc && s.pc[to] != Idle
    ensures to in Apply(s, step).channels && Apply(s, step).channels[to] == CHANNEL_SIZE
  {
    hide Enabled, ApplyEntry, ApplyFile;
    if EntryStep(step) { EntryChannels(s, step, to); } else { FileChannels(s, step); }
  }

  lemma EntryChannels(s: State, step: Step, to: ConnId)
    requires Enabled(s, step) && EntryStep(step)
    requires to in s.channels && s.channels[to] == CHANNEL_SIZE && to in s.pc && s.pc[to] != Idle
    ensures to in ApplyEntry(s, step).channels && ApplyEntry(s, step).channels[to] == CHANNEL_SIZE
  {
    hide NewSession, NewTree, SetupMore, CreateOpen, GrantOplock, BreakOplock, SendTo, GateOpen, Live;
  }

  lemma FileChannels(s: State, step: Step)
    requires Enabled(s, step) && !EntryStep(step)
    ensures ApplyFile(s, step).channels == s.channels
  {
    hide StepLock, StepUndo, FinishClose, DrainUnlock, FinishDrain, StartLock, StartClose, RemoveClosed, StartDrain, StartAccess, EndAccess;
    hide ChangeFile, WriteAdmitted, ReadAdmitted, Found, GateOpen, MayDrain;
  }

  lemma StepStaysDeadlocked(s: State, step: Step, group: set<ConnId>)
    requires Enabled(s, step) && Deadlocked(s, group)
    ensures Deadlocked(Apply(s, step), group)
  {
    hide Apply, Enabled;
    forall c | c in group
      ensures
        var s' := Apply(s, step);
        c in s'.pc && s'.pc[c] == s.pc[c] && s.pc[c].to in s'.channels && s'.channels[s.pc[c].to] == CHANNEL_SIZE
    {
      DeadlockedAreBlocked(s, group, c);
      FullChannelStays(s, step, s.pc[c].to);
      if step.c == c {
        OnlyWatchersMove(s, step, c);
        FinalMovesNobody(s, step);
      } else {
        OthersLeavePc(s, step, c);
      }
    }
  }

  lemma OnlyWatchersMove(s: State, step: Step, c: ConnId)
    requires Enabled(s, step) && step.c == c && Blocked(s, c)
    ensures step.FinalArrives?
  {
    hide Enabled, Blocked;
    if !step.FinalArrives? { BlockedHasNoStep(s, c, step); }
  }

  lemma FinalMovesNobody(s: State, step: Step)
    requires Enabled(s, step) && step.FinalArrives?
    ensures Apply(s, step).pc == s.pc
  {
  }

  /** A deadlock is for ever, whatever everybody else does. */
  lemma {:induction false} DeadlockIsForever(states: seq<State>, steps: seq<Step>, i: nat, j: nat, group: set<ConnId>)
    requires Run(states, steps) && i <= j <= |steps| && Deadlocked(states[i], group)
    ensures Deadlocked(states[j], group)
    decreases j
  {
    hide Apply, Enabled, Safe, Deadlocked;
    if i < j {
      DeadlockIsForever(states, steps, i, j - 1, group);
      assert states[j - 1 + 1] == Apply(states[j - 1], steps[j - 1]);
      StepStaysDeadlocked(states[j - 1], steps[j - 1], group);
    }
  }

  // ---------------------------------------------------------------- a connection that waits for itself

  /** CREATE with an oplock asked for. */
  lemma CreateStep(s: State, m: nat, n: nat) returns (s': State)
    requires Reachable(s) && At(s, 0, Idle) && Standing(s, m, n) && m < 1000
    ensures Reachable(s') && Standing(s', m + 1, n) && s'.oplocks == s.oplocks
    ensures s'.pc[0].Granting? && s'.pc[0].key.at == TREE && s'.pc[0].key in s'.opens && s'.opens[s'.pc[0].key].path == FILE
  {
    hide Reachable, MakeFileId, Inv;
    ReachableInv(s);
    FreshKey(s, TREE);
    var step := Create(0, TREE, WITH_OPLOCK, true);
    ReachableExtends(s, step);
    s' := Apply(s, step);
  }

  lemma GrantStep(s: State, m: nat, n: nat) returns (s': State)
    requires Reachable(s) && Standing(s, m, n) && s.pc[0].Granting? && s.pc[0].key.at == TREE
    requires s.pc[0].key in s.opens && s.opens[s.pc[0].key].path == FILE
    ensures Reachable(s') && Standing(s', m, n)
    ensures FILE !in s.oplocks ==> At(s', 0, Idle) && FILE in s'.oplocks && s'.oplocks[FILE].at == TREE
    ensures FILE in s.oplocks ==> At(s', 0, Breaking(FILE)) && s'.oplocks == s.oplocks
  {
    hide Reachable;
    ReachableExtends(s, Grant(0));
    s' := Apply(s, Grant(0));
  }

  lemma BreakStep(s: State, m: nat, n: nat) returns (s': State)
    requires Reachable(s) && Standing(s, m, n) && At(s, 0, Breaking(FILE)) && FILE in s.oplocks && s.oplocks[FILE].at == TREE
    ensures Reachable(s') && Standing(s', m, n) && At(s', 0, Notifying(0)) && FILE !in s'.oplocks
  {
    hide Reachable;
    ReachableExtends(s, Break(0));
    s' := Apply(s, Break(0));
  }

  /** Two CREATEs of one file, and the connection is about to notify itself. */
  lemma TwoCreates(s: State, m: nat, n: nat) returns (s': State)
    requires Reachable(s) && At(s, 0, Idle) && Standing(s, m, n) && m < 900 && FILE !in s.oplocks
    ensures Reachable(s') && Standing(s', m + 2, n) && At(s', 0, Notifying(0)) && FILE !in s'.oplocks
  {
    hide Reachable, Standing;
    var s1 := CreateStep(s, m, n);
    var s2 := GrantStep(s1, m + 1, n);
    var s3 := CreateStep(s2, m + 1, n);
    var s4 := GrantStep(s3, m + 2, n);
    s' := BreakStep(s4, m + 2, n);
  }

  lemma NotifyStep(s: State, m: nat, n: nat) returns (s': State)
    requires Reachable(s) && Standing(s, m, n) && At(s, 0, Notifying(0)) && n < CHANNEL_SIZE
    ensures Reachable(s') && Standing(s', m, n + 1) && At(s', 0, Idle) && s'.oplocks == s.oplocks
  {
    hide Reachable;
    ReachableExtends(s, Notify(0));
    s' := Apply(s, Notify(0));
  }

  lemma {:induction false} Rounds(n: nat) returns (s: State)
    requires n <= CHANNEL_SIZE
    ensures Reachable(s) && At(s, 0, Idle) && Standing(s, 2 * n, n) && FILE !in s.oplocks
    decreases n
  {
    hide Reachable, Standing;
    if n == 0 {
      s := OneTreeReached();
    } else {
      var s1 := Rounds(n - 1);
      var s2 := TwoCreates(s1, 2 * (n - 1), n - 1);
      s := NotifyStep(s2, 2 * n, n - 1);
    }
  }

  /** 130 CREATEs of one file with an oplock asked for, in one message, leave the connection waiting for
      room in a channel that only it empties. */
  lemma SelfDeadlockIsReached()
    ensures exists s :: Reachable(s) && Deadlocked(s, {0})
  {
    hide Reachable;
    var s1 := Rounds(CHANNEL_SIZE);
    var s := TwoCreates(s1, 2 * CHANNEL_SIZE, CHANNEL_SIZE);
    assert Deadlocked(s, {0});
  }
}
