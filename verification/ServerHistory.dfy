/** What the state of the server owes to the steps of its run: which sessions are authenticated, which opens are to
    be deleted, and when a file is. */
module ServerHistory {
  import opened Bytes
  import opened FileIds
  import opened Locks
  import opened ServerState
  import opened ServerInvariant
  import opened ServerSteps
  import opened ServerRuns

  // ---------------------------------------------------------------- authentication

  /** The step accepts the session: as the logon that gives out its id, or as a later leg of it. */
  predicate Accepting(s: State, step: Step, sk: SessKey) {
    || (step.SetupNew? && step.accepted && step.c == sk.conn && s.nextSess + 1 == sk.sess)
    || (step.SetupAgain? && step.accepted && step.c == sk.conn && step.sess == sk.sess)
  }

  /** What one step does to one session. */
  ghost predicate SessionMoves(s: State, s': State, step: Step, sk: SessKey) {
    && s'.nextSess >= s.nextSess
    && (sk in s'.sessions && sk in s.sessions ==>
          (s'.sessions[sk].authenticated <==> s.sessions[sk].authenticated || Accepting(s, step, sk)))
    && (sk in s'.sessions && sk !in s.sessions ==>
          sk.sess == s.nextSess + 1 && (s'.sessions[sk].authenticated <==> Accepting(s, step, sk)))
    && (sk in s'.sessions ==> sk.sess <= s'.nextSess)
  }

  lemma SetupNewMoves(s: State, c: ConnId, accepted: bool, sk: SessKey)
    requires SessionsOk(s.nextSess, s.owner, s.sessions) && s.nextSess + 1 < 0x1_0000_0000_0000_0000
    ensures SessionMoves(s, NewSession(s, c, accepted), SetupNew(c, accepted), sk)
  {
  }

  lemma SetupAgainMoves(s: State, c: ConnId, sess: uint64, accepted: bool, sk: SessKey)
    requires SessionsOk(s.nextSess, s.owner, s.sessions) && SessKey(c, sess) in s.sessions
    ensures SessionMoves(s, SetupMore(s, SessKey(c, sess), accepted), SetupAgain(c, sess, accepted), sk)
  {
  }

  lemma ConnectTreeMoves(s: State, c: ConnId, sess: uint64, readOnly: bool, sk: SessKey)
    requires SessionsOk(s.nextSess, s.owner, s.sessions) && SessKey(c, sess) in s.sessions
    ensures SessionMoves(s, NewTree(s, c, sess, readOnly), ConnectTree(c, sess, readOnly), sk)
  {
  }

  lemma DrainMoves(s: State, c: ConnId, goal: Goal, sk: SessKey)
    requires SessionsOk(s.nextSess, s.owner, s.sessions)
    ensures SessionMoves(s, FinishDrain(s, c, goal), EndDrain(c), sk)
  {
  }

  lemma SameMoves(s: State, s': State, step: Step, sk: SessKey)
    requires SessionsOk(s.nextSess, s.owner, s.sessions) && SameSessions(s, s') && !step.SetupNew? && !step.SetupAgain?
    ensures SessionMoves(s, s', step, sk)
  {
  }

  lemma OtherEntryKeepsSessions(s: State, step: Step)
    requires Enabled(s, step) && EntryStep(step) && !step.SetupNew? && !step.SetupAgain? && !step.ConnectTree?
    ensures SameSessions(s, ApplyEntry(s, step))
  {
    hide NewSession, NewTree, SetupMore, CreateOpen, GrantOplock, BreakOplock, SendTo, GateOpen, Live;
  }

  lemma OtherFileKeepsSessions(s: State, step: Step)
    requires Enabled(s, step) && !EntryStep(step) && !step.EndDrain?
    ensures SameSessions(s, ApplyFile(s, step))
  {
    hide StepLock, StepUndo, FinishClose, DrainUnlock, FinishDrain, StartLock, StartClose, RemoveClosed, StartDrain, StartAccess, EndAccess;
    hide ChangeFile, DropOplock, WriteAdmitted, ReadAdmitted, Found, GateOpen, MayDrain;
  }

  lemma OtherKeepsSessions(s: State, step: Step)
    requires Enabled(s, step) && !step.SetupNew? && !step.SetupAgain? && !step.ConnectTree? && !step.EndDrain?
    ensures SameSessions(s, Apply(s, step))
  {
    hide Enabled, ApplyEntry, ApplyFile, SameSessions;
    if EntryStep(step) { OtherEntryKeepsSessions(s, step); } else { OtherFileKeepsSessions(s, step); }
  }

  lemma StepMovesSession(s: State, step: Step, sk: SessKey)
    requires Inv(s) && Enabled(s, step) && Safe(s, step)
    ensures SessionMoves(s, Apply(s, step), step, sk)
  {
    hide SessionMoves, NewSession, SetupMore, NewTree, FinishDrain, SlotFree, KeyFree, WriteAdmitted, ReadAdmitted, Found, MayDrain;
    hide TreesOk, OpensOk, ClosingOk, LocksOk, OplocksOk, ThreadsOk, CallsOk, ChannelsOk, SessionsOk;
    match step
    case SetupNew(c, accepted) => SetupNewMoves(s, c, accepted, sk);
    case SetupAgain(c, sess, accepted) => SetupAgainMoves(s, c, sess, accepted, sk);
    case ConnectTree(c, sess, readOnly) => ConnectTreeMoves(s, c, sess, readOnly, sk);
    case EndDrain(c) => DrainMoves(s, c, s.pc[c].goal, sk);
    case _ =>
      OtherKeepsSessions(s, step);
      SameMoves(s, Apply(s, step), step, sk);
  }

  ghost predicate AcceptedBefore(states: seq<State>, steps: seq<Step>, j: nat, sk: SessKey)
    requires j <= |steps| < |states|
  {
    exists i :: 0 <= i < j && Accepting(states[i], steps[i], sk)
  }

  lemma {:induction false} SessionHistory(states: seq<State>, steps: seq<Step>, j: nat, sk: SessKey)
    requires Run(states, steps) && j <= |steps|
    ensures sk in states[j].sessions ==> (states[j].sessions[sk].authenticated <==> AcceptedBefore(states, steps, j, sk))
    ensures AcceptedBefore(states, steps, j, sk) ==> sk.sess <= states[j].nextSess
    decreases j
  {
    hide Apply, Enabled, Safe, Inv, Accepting;
    if j > 0 {
      var i := j - 1;
      assert states[i + 1] == Apply(states[i], steps[i]);
      SessionHistory(states, steps, i, sk);
      RunKeepsInv(states, steps, i);
      StepMovesSession(states[i], steps[i], sk);
      if Accepting(states[i], steps[i], sk) { AcceptingCounts(states[i], steps[i], sk); }
      assert AcceptedBefore(states, steps, j, sk) <==> AcceptedBefore(states, steps, i, sk) || Accepting(states[i], steps[i], sk);
    }
  }

  lemma AcceptingCounts(s: State, step: Step, sk: SessKey)
    requires Inv(s) && Enabled(s, step) && Safe(s, step) && Accepting(s, step, sk)
    ensures sk.sess <= Apply(s, step).nextSess
  {
    hide TreesOk, OpensOk, ClosingOk, LocksOk, OplocksOk, ThreadsOk, CallsOk, ChannelsOk, SlotFree, KeyFree;
  }

  /** Over every run: a session is authenticated if and only if an earlier step accepted it. */
  lemma AuthenticatedIffAccepted(states: seq<State>, steps: seq<Step>, j: nat, sk: SessKey)
    requires Run(states, steps) && j <= |steps| && sk in states[j].sessions
    ensures states[j].sessions[sk].authenticated <==> exists i :: 0 <= i < j && Accepting(states[i], steps[i], sk)
  {
    hide Run, Accepting;
    RunIsLong(states, steps);
    SessionHistory(states, steps, j, sk);
  }

  lemma RunIsLong(states: seq<State>, steps: seq<Step>)
    requires Run(states, steps)
    ensures |states| == |steps| + 1
  {
  }

  /** So behind every tree is a step that accepted its session. */
  lemma TreesWereAccepted(states: seq<State>, steps: seq<Step>, j: nat, t: TreeKey)
    requires Run(states, steps) && j <= |steps| && t in states[j].trees
    ensures exists i :: 0 <= i < j && Accepting(states[i], steps[i], SessionAt(t))
  {
    hide Apply, Enabled, Safe, Accepting;
    RunKeepsInv(states, steps, j);
    assert SessionAt(t) in states[j].sessions && states[j].sessions[SessionAt(t)].authenticated;
    AuthenticatedIffAccepted(states, steps, j, SessionAt(t));
  }

  // ---------------------------------------------------------------- deletion

  /** The step opens this file: a CREATE that gives out its identifier. */
  predicate Opening(s: State, step: Step, key: OpenKey) {
    step.Create? && step.at == key.at && key.at in s.trees && Makes(s, step.at, step.req, step.ok) && NextKey(s, step.at) == key
  }

  /** The step orders the file to be deleted when it is closed, or to be kept; a read-only share takes no orders. */
  predicate Ordering(s: State, step: Step, key: OpenKey, delete: bool) {
    step.SetFile? && step.key == key && step.setting == Disposition(delete) && key.at in s.trees && !s.trees[key.at].readOnly
  }

  ghost predicate MarkMoves(s: State, s': State, step: Step, key: OpenKey) {
    key in s'.opens ==>
      if Opening(s, step, key) then s'.opens[key].deletePending == step.req.deleteOnClose
      else
        && key in s.opens
        && s'.opens[key].deletePending == (Ordering(s, step, key, true) || (s.opens[key].deletePending && !Ordering(s, step, key, false)))
  }

  lemma CreateMark(s: State, c: ConnId, at: TreeKey, req: CreateRequest, ok: bool, key: OpenKey)
    requires at in s.trees
    ensures MarkMoves(s, CreateOpen(s, c, at, req, ok), Create(c, at, req, ok), key)
  {
    hide MakeFileId;
  }

  lemma SetMark(s: State, c: ConnId, changed: OpenKey, setting: Setting, key: OpenKey)
    requires changed in s.opens && changed.at in s.trees
    ensures MarkMoves(s, ChangeFile(s, changed, setting), SetFile(c, changed, setting), key)
  {
  }

  lemma NoMark(s: State, s': State, step: Step, key: OpenKey)
    requires !step.Create? && !step.SetFile?
    requires key in s'.opens ==> key in s.opens && s'.opens[key].deletePending == s.opens[key].deletePending
    ensures MarkMoves(s, s', step, key)
  {
  }

  lemma EntryKeepsMarks(s: State, step: Step, key: OpenKey)
    requires Enabled(s, step) && EntryStep(step) && !step.Create? && key in ApplyEntry(s, step).opens
    ensures key in s.opens && ApplyEntry(s, step).opens[key] == s.opens[key]
  {
    hide NewSession, SetupMore, CreateOpen, GrantOplock, BreakOplock, SendTo, GateOpen, Live;
  }

  lemma CloseKeepsMarks(s: State, c: ConnId, key: OpenKey)
    requires Enabled(s, DropLocks(c)) && key in FinishClose(s, c).opens
    ensures key in s.opens && FinishClose(s, c).opens[key] == s.opens[key]
  {
    hide UnlockAll, SameSessions;
  }

  lemma DrainKeepsMarks(s: State, c: ConnId, goal: Goal, key: OpenKey)
    requires key in FinishDrain(s, c, goal).opens
    ensures key in s.opens && FinishDrain(s, c, goal).opens[key] == s.opens[key]
  {
  }

  lemma BeginCloseKeepsMarks(s: State, c: ConnId, closing: OpenKey, key: OpenKey)
    requires closing in s.opens && key in StartClose(s, c, closing).opens
    ensures key in s.opens && StartClose(s, c, closing).opens[key].deletePending == s.opens[key].deletePending
  {
  }

  lemma FileKeepsOpens(s: State, step: Step)
    requires Enabled(s, step) && !EntryStep(step) && !step.SetFile? && !step.BeginClose? && !step.DropLocks? && !step.EndDrain?
    ensures ApplyFile(s, step).opens == s.opens
  {
    hide StepLock, StepUndo, FinishClose, DrainUnlock, FinishDrain, StartLock, StartClose, RemoveClosed, StartDrain, StartAccess, EndAccess;
    hide ChangeFile, DropOplock, WriteAdmitted, ReadAdmitted, Found, GateOpen, MayDrain, SameSessions;
  }

  lemma FileKeepsMarks(s: State, step: Step, key: OpenKey)
    requires Enabled(s, step) && !EntryStep(step) && !step.SetFile? && key in ApplyFile(s, step).opens
    ensures key in s.opens && ApplyFile(s, step).opens[key].deletePending == s.opens[key].deletePending
  {
    hide FinishClose, FinishDrain, StartClose, WriteAdmitted, ReadAdmitted, MayDrain, SameSessions;
    match step
    case BeginClose(c, closing) => BeginCloseKeepsMarks(s, c, closing, key);
    case DropLocks(c) => CloseKeepsMarks(s, c, key);
    case EndDrain(c) => DrainKeepsMarks(s, c, s.pc[c].goal, key);
    case _ =>
      hide Enabled, ApplyFile;
      FileKeepsOpens(s, step);
  }

  lemma OtherKeepsMarks(s: State, step: Step, key: OpenKey)
    requires Enabled(s, step) && !step.Create? && !step.SetFile? && key in Apply(s, step).opens
    ensures key in s.opens && Apply(s, step).opens[key].deletePending == s.opens[key].deletePending
  {
    hide Enabled, ApplyEntry, ApplyFile;
    if EntryStep(step) { EntryKeepsMarks(s, step, key); } else { FileKeepsMarks(s, step, key); }
  }

  lemma StepMovesMark(s: State, step: Step, key: OpenKey)
    requires Inv(s) && Enabled(s, step)
    ensures MarkMoves(s, Apply(s, step), step, key)
  {
    hide Inv, MarkMoves;
    if step.Create? {
      hide CreateOpen;
      CreateMark(s, step.c, step.at, step.req, step.ok, key);
    } else if step.SetFile? {
      hide ChangeFile;
      SetMark(s, step.c, step.key, step.setting, key);
    } else {
      hide Apply, Enabled;
      if key in Apply(s, step).opens { OtherKeepsMarks(s, step, key); }
      NoMark(s, Apply(s, step), step, key);
    }
  }

  /** Since it was opened in step `i`, the last word on the file was to delete it: an order, or the CREATE itself. */
  ghost predicate Doomed(states: seq<State>, steps: seq<Step>, key: OpenKey, i: nat, j: nat)
    requires i < j <= |steps| < |states|
  {
    || (steps[i].Create? && steps[i].req.deleteOnClose && !OrderedAfter(states, steps, key, i, j, false))
    || exists m :: i < m < j && Ordering(states[m], steps[m], key, true) && !OrderedAfter(states, steps, key, m, j, false)
  }

  ghost predicate OrderedAfter(states: seq<State>, steps: seq<Step>, key: OpenKey, i: int, j: nat, delete: bool)
    requires 0 <= i < j <= |steps| < |states|
  {
    exists m :: i < m < j && Ordering(states[m], steps[m], key, delete)
  }

  ghost predicate OpenedAt(states: seq<State>, steps: seq<Step>, key: OpenKey, i: nat, j: nat)
    requires i < j <= |steps| < |states|
  {
    Opening(states[i], steps[i], key) && forall m :: i < m < j ==> !Opening(states[m], steps[m], key)
  }

  lemma DoomedGrows(states: seq<State>, steps: seq<Step>, key: OpenKey, i: nat, j: nat)
    requires i < j < |steps| < |states|
    ensures Doomed(states, steps, key, i, j + 1)
       <==> Ordering(states[j], steps[j], key, true) || (Doomed(states, steps, key, i, j) && !Ordering(states[j], steps[j], key, false))
  {
    hide Ordering;
    forall m | i <= m < j
      ensures OrderedAfter(states, steps, key, m, j + 1, false) <==> OrderedAfter(states, steps, key, m, j, false) || Ordering(states[j], steps[j], key, false)
    {
    }
    OneOrder(states[j], steps[j], key);
    if Ordering(states[j], steps[j], key, true) { assert !OrderedAfter(states, steps, key, j, j + 1, false); }
  }

  lemma OneOrder(s: State, step: Step, key: OpenKey)
    ensures !(Ordering(s, step, key, true) && Ordering(s, step, key, false))
  {
  }

  lemma {:induction false} MarkHistory(states: seq<State>, steps: seq<Step>, key: OpenKey, j: nat) returns (i: nat)
    requires Run(states, steps) && j <= |steps| && key in states[j].opens
    ensures i < j && OpenedAt(states, steps, key, i, j) && (states[j].opens[key].deletePending <==> Doomed(states, steps, key, i, j))
    decreases j
  {
    hide Apply, Enabled, Safe, Inv, Opening, Ordering, Doomed;
    var n := j - 1;
    NothingOpenAtFirst(states, steps);
    assert states[n + 1] == Apply(states[n], steps[n]);
    RunKeepsInv(states, steps, n);
    StepMovesMark(states[n], steps[n], key);
    if Opening(states[n], steps[n], key) {
      i := n;
      DoomedAtFirst(states, steps, key, n);
    } else {
      i := MarkHistory(states, steps, key, n);
      DoomedGrows(states, steps, key, i, n);
    }
  }

  lemma NothingOpenAtFirst(states: seq<State>, steps: seq<Step>)
    requires Run(states, steps)
    ensures states[0].opens == map[]
  {
    hide Apply, Enabled, Safe;
  }

  lemma DoomedAtFirst(states: seq<State>, steps: seq<Step>, key: OpenKey, i: nat)
    requires i < |steps| < |states| && Opening(states[i], steps[i], key)
    ensures steps[i].Create? && (Doomed(states, steps, key, i, i + 1) <==> steps[i].req.deleteOnClose)
  {
  }

  /** The last step of a CLOSE goes on to delete the file if and only if the last word on it was to. */
  lemma CloseDeletesIffDoomed(states: seq<State>, steps: seq<Step>, c: ConnId, j: nat) returns (key: OpenKey, i: nat)
    requires Run(states, steps) && j < |steps| && steps[j] == DropLocks(c)
    ensures i < j && At(states[j], c, Unlocking(key)) && OpenedAt(states, steps, key, i, j)
    ensures At(states[j + 1], c, if Doomed(states, steps, key, i, j) then Removing(false) else Idle)
  {
    hide Safe, Inv, Opening, Ordering, Doomed, Run;
    RunIsLong(states, steps);
    StepOfRun(states, steps, j);
    key := states[j].pc[c].key;
    i := MarkHistory(states, steps, key, j);
    RunKeepsInv(states, steps, j);
    CloseGoesOn(states[j], c);
  }

  lemma StepOfRun(states: seq<State>, steps: seq<Step>, j: nat)
    requires Run(states, steps) && j < |steps|
    ensures Enabled(states[j], steps[j]) && states[j + 1] == Apply(states[j], steps[j])
  {
    hide Apply, Enabled, Safe;
  }

  lemma CloseGoesOn(s: State, c: ConnId)
    requires Inv(s) && Enabled(s, DropLocks(c))
    ensures At(Apply(s, DropLocks(c)), c, if s.opens[s.pc[c].key].deletePending then Removing(false) else Idle)
  {
    hide TreesOk, SessionsOk, ClosingOk, LocksOk, OplocksOk, ThreadsOk, CallsOk, ChannelsOk, UnlockAll;
  }

  /** A file is removed at the backend by exactly those steps that follow such a CLOSE. */
  lemma RemovesIff(s: State, step: Step)
    requires Inv(s) && Enabled(s, step)
    ensures (exists readOnly :: Apply(s, step).calls == s.calls + [BackendCall(Remove, readOnly)])
       <==> step.RemoveFile? && At(s, step.c, Removing(false))
  {
    hide Inv;
    if step.RemoveFile? {
      RemovingIsWritable(s, step.c);
      assert Apply(s, step).calls == s.calls + [BackendCall(Remove, false)];
    } else {
      NoRemove(s, step);
    }
  }

  lemma RemovingIsWritable(s: State, c: ConnId)
    requires Inv(s) && c in s.pc && s.pc[c].Removing?
    ensures s.pc[c] == Removing(false)
  {
    hide TreesOk, SessionsOk, OpensOk, ClosingOk, LocksOk, OplocksOk, CallsOk, ChannelsOk;
    ThreadAt(s, c);
  }

  lemma EntryMakesNoCall(s: State, step: Step)
    requires Enabled(s, step) && EntryStep(step)
    ensures ApplyEntry(s, step).calls == s.calls
  {
    hide NewSession, NewTree, SetupMore, CreateOpen, GrantOplock, BreakOplock, SendTo, GateOpen, Live;
  }

  lemma SettingRemovesNothing(s: State, key: OpenKey, setting: Setting)
    requires key in s.opens && key.at in s.trees
    ensures var calls := ChangeFile(s, key, setting).calls; calls == s.calls || (|calls| == |s.calls| + 1 && !calls[|s.calls|].call.Remove?)
  {
    hide SameSessions;
    var renamed, changed := [BackendCall(Rename, false)], [BackendCall(SetInfo, false)];
    assert (s.calls + renamed)[|s.calls|] == renamed[0] && (s.calls + changed)[|s.calls|] == changed[0];
  }

  lemma FileMakesNoCall(s: State, step: Step)
    requires Enabled(s, step) && !EntryStep(step) && !step.RemoveFile? && !step.SetFile? && !step.DoAccess?
    ensures ApplyFile(s, step).calls == s.calls
  {
    hide StepLock, StepUndo, FinishClose, DrainUnlock, FinishDrain, StartLock, StartClose, RemoveClosed, StartDrain, StartAccess, EndAccess;
    hide ChangeFile, DropOplock, WriteAdmitted, ReadAdmitted, Found, GateOpen, MayDrain, SameSessions;
  }

  lemma FileRemovesNothing(s: State, step: Step)
    requires Enabled(s, step) && !EntryStep(step) && !step.RemoveFile?
    ensures var calls := ApplyFile(s, step).calls; calls == s.calls || (|calls| == |s.calls| + 1 && !calls[|s.calls|].call.Remove?)
  {
    if step.SetFile? {
      hide ChangeFile;
      SettingRemovesNothing(s, step.key, step.setting);
    } else if !step.DoAccess? {
      hide Enabled, ApplyFile;
      FileMakesNoCall(s, step);
    }
  }

  lemma NoRemove(s: State, step: Step)
    requires Enabled(s, step) && !step.RemoveFile?
    ensures forall readOnly :: Apply(s, step).calls != s.calls + [BackendCall(Remove, readOnly)]
  {
    hide Enabled, ApplyEntry, ApplyFile;
    if EntryStep(step) { EntryMakesNoCall(s, step); } else { FileRemovesNothing(s, step); }
  }

  /** A connection about to remove a file comes from a CLOSE, and has done nothing else since. */
  lemma {:induction false} RemovingComesFromClose(states: seq<State>, steps: seq<Step>, c: ConnId, m: nat) returns (j: nat)
    requires Run(states, steps) && m <= |steps| && c in states[m].pc && states[m].pc[c].Removing?
    ensures j < m && steps[j] == DropLocks(c) && At(states[j + 1], c, states[m].pc[c])
    ensures forall n :: j < n < m ==> steps[n].c != c || steps[n].FinalArrives?
    decreases m
  {
    hide Safe, Run, Apply, Enabled, Inv;
    RunIsLong(states, steps);
    NobodyAtFirst(states, steps);
    var n := m - 1;
    StepOfRun(states, steps, n);
    if steps[n] == DropLocks(c) {
      j := n;
    } else {
      StaysRemoving(states[n], steps[n], c);
      j := RemovingComesFromClose(states, steps, c, n);
    }
  }

  lemma NobodyAtFirst(states: seq<State>, steps: seq<Step>)
    requires Run(states, steps)
    ensures states[0].pc == map[]
  {
    hide Apply, Enabled, Safe;
  }

  lemma CreateNotRemoving(s: State, c: ConnId, at: TreeKey, req: CreateRequest, ok: bool)
    requires At(s, c, Idle) && at in s.trees
    ensures var s' := CreateOpen(s, c, at, req, ok); c in s'.pc && !s'.pc[c].Removing?
  {
    hide SameSessions, MakeFileId, RefusedReadOnly;
  }

  lemma EntryNotRemoving(s: State, step: Step, c: ConnId)
    requires Enabled(s, step) && EntryStep(step) && step.c == c && !step.FinalArrives? && c in ApplyEntry(s, step).pc
    ensures !ApplyEntry(s, step).pc[c].Removing?
  {
    hide Live, SameSessions, CreateOpen, NewSession, NewTree, SetupMore;
    if step.Create? {
      CreateNotRemoving(s, c, step.at, step.req, step.ok);
    }
  }

  lemma LockNotRemoving(s: State, step: Step, c: ConnId)
    requires Enabled(s, step) && (step.NextLock? || step.NextUndo?) && step.c == c && c in ApplyFile(s, step).pc
    ensures !ApplyFile(s, step).pc[c].Removing?
  {
    hide StepLock, StepUndo, SameSessions;
  }

  lemma FirstNotRemoving(s: State, step: Step, c: ConnId)
    requires step.BeginLock? || step.AnswerLock? || step.CheckRead? || step.CheckWrite? || step.DoAccess? || step.SetFile?
    requires Enabled(s, step) && step.c == c && c in ApplyFile(s, step).pc
    ensures !ApplyFile(s, step).pc[c].Removing?
  {
    hide WriteAdmitted, ReadAdmitted, GateOpen, SameSessions, Held, ChangeFile;
  }

  lemma CloseNotRemoving(s: State, step: Step, c: ConnId)
    requires step.BeginClose? || step.ReleaseOplock? || step.RemoveFile?
    requires Enabled(s, step) && step.c == c && c in ApplyFile(s, step).pc
    ensures !ApplyFile(s, step).pc[c].Removing?
  {
    hide Found, SameSessions;
  }

  lemma DrainedPlace(s: State, c: ConnId, goal: Goal)
    ensures var s' := FinishDrain(s, c, goal); c in s'.pc && !s'.pc[c].Removing?
  {
    hide InScope;
  }

  lemma DrainPlace(s: State, c: ConnId, goal: Goal)
    ensures var s' := StartDrain(s, c, goal); c in s'.pc && !s'.pc[c].Removing?
  {
    hide InScope;
  }

  lemma DrainNotRemoving(s: State, step: Step, c: ConnId)
    requires step.BeginDrain? || step.DrainOplock? || step.DrainLocks? || step.EndDrain?
    requires Enabled(s, step) && step.c == c && c in ApplyFile(s, step).pc
    ensures !ApplyFile(s, step).pc[c].Removing?
  {
    hide MayDrain, SameSessions, UnlockAll, InScope, PutRanges, RangesAt, FinishDrain, StartDrain;
    match step
    case BeginDrain(_, goal) => DrainPlace(s, c, goal);
    case EndDrain(_) => DrainedPlace(s, c, s.pc[c].goal);
    case DrainOplock(_, _) =>
    case DrainLocks(_) =>
  }

  lemma FileNotRemoving(s: State, step: Step, c: ConnId)
    requires Enabled(s, step) && !EntryStep(step) && step.c == c && !step.DropLocks? && c in ApplyFile(s, step).pc
    ensures !ApplyFile(s, step).pc[c].Removing?
  {
    hide Enabled, ApplyFile;
    if step.NextLock? || step.NextUndo? {
      LockNotRemoving(s, step, c);
    } else if step.BeginLock? || step.AnswerLock? || step.CheckRead? || step.CheckWrite? || step.DoAccess? || step.SetFile? {
      FirstNotRemoving(s, step, c);
    } else if step.BeginClose? || step.ReleaseOplock? || step.RemoveFile? {
      CloseNotRemoving(s, step, c);
    } else {
      DrainNotRemoving(s, step, c);
    }
  }

  lemma StaysRemoving(s: State, step: Step, c: ConnId)
    requires Enabled(s, step) && step != DropLocks(c) && c in Apply(s, step).pc && Apply(s, step).pc[c].Removing?
    ensures c in s.pc && s.pc[c] == Apply(s, step).pc[c] && (step.c != c || step.FinalArrives?)
  {
    if step.c != c {
      hide Enabled, Apply;
      OthersLeavePc(s, step, c);
    } else if !step.FinalArrives? {
      hide Enabled, ApplyEntry, ApplyFile;
      if EntryStep(step) { EntryNotRemoving(s, step, c); } else { FileNotRemoving(s, step, c); }
      assert false;
    } else {
      hide WriteAdmitted, ReadAdmitted, Found, GateOpen, MayDrain;
    }
  }

  /** Over every run: the file a step removes was opened by a CREATE and last ordered, or created, to be deleted. */
  lemma RemovedWasDoomed(states: seq<State>, steps: seq<Step>, m: nat) returns (key: OpenKey, i: nat, j: nat)
    requires Run(states, steps) && m < |steps| && steps[m].RemoveFile?
    ensures i < j < m && steps[j] == DropLocks(steps[m].c) && At(states[j], steps[m].c, Unlocking(key))
    ensures OpenedAt(states, steps, key, i, j) && Doomed(states, steps, key, i, j)
  {
    hide Safe, Apply, Inv, Opening, Ordering, Doomed, Run;
    RunIsLong(states, steps);
    StepOfRun(states, steps, m);
    var c := steps[m].c;
    j := RemovingComesFromClose(states, steps, c, m);
    key, i := CloseDeletesIffDoomed(states, steps, c, j);
  }
}
