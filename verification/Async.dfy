/** CHANGE_NOTIFY operations: registered by the connection, finished by one watcher each, cancelled by
    request or teardown, and their final responses drained to the wire between messages. */
module Async {
  import opened Bytes

  const IDS := 0x1_0000_0000_0000_0000

  // ---------------------------------------------------------------- the table of pending operations

  datatype Table<T> = Table(next: uint64, pending: map<uint64, T>, byMsg: map<uint64, T>)

  /** The 64-bit counter is advanced first. */
  function NextId(next: uint64): uint64 { (next + 1) % IDS }

  function Registered<T>(t: Table<T>, messageId: uint64, op: T): Table<T> {
    var id := NextId(t.next);
    Table(id, t.pending[id := op], t.byMsg[messageId := op])
  }

  function Unregistered<T>(t: Table<T>, id: uint64, messageId: uint64): Table<T> {
    t.(pending := t.pending - {id}, byMsg := t.byMsg - {messageId})
  }

  class PendingOp {
    const asyncId: uint64
    const messageId: uint64
    var done: bool

    constructor (asyncId: uint64, messageId: uint64)
      ensures this.asyncId == asyncId && this.messageId == messageId && !done
    {
      this.asyncId := asyncId;
      this.messageId := messageId;
      done := false;
    }

    /** Closing the channel happens once; doing it again changes nothing. */
    method Cancel()
      modifies this
      ensures done
    {
      if !done { done := true; }
    }
  }

  class PendingOps {
    var nextAsync: uint64
    var pending: map<uint64, PendingOp>
    var pendingByMsg: map<uint64, PendingOp>

    ghost function View(): Table<PendingOp>
      reads this
    {
      Table(nextAsync, pending, pendingByMsg)
    }

    constructor ()
      ensures View() == Table(0, map[], map[])
    {
      nextAsync := 0;
      pending := map[];
      pendingByMsg := map[];
    }

    method Register(messageId: uint64) returns (op: PendingOp)
      modifies this
      ensures fresh(op) && !op.done && op.asyncId == nextAsync && op.messageId == messageId
      ensures View() == Registered(old(View()), messageId, op)
    {
      nextAsync := (nextAsync + 1) % IDS;
      op := new PendingOp(nextAsync, messageId);
      pending := pending[op.asyncId := op];
      pendingByMsg := pendingByMsg[messageId := op];
    }

    method Unregister(op: PendingOp)
      modifies this
      ensures View() == Unregistered(old(View()), op.asyncId, op.messageId)
    {
      pending := pending - {op.asyncId};
      pendingByMsg := pendingByMsg - {op.messageId};
    }

    /** Cancels the operation pending under the id, if there is one, and no other. */
    method CancelPending(asyncId: uint64) returns (found: bool)
      modifies pending.Values
      ensures View() == old(View()) && found == (asyncId in pending)
      ensures forall op :: op in pending.Values ==> op.done == (old(op.done) || (found && op == pending[asyncId]))
    {
      found := asyncId in pending;
      if found {
        assert pending[asyncId] in pending.Values;
        pending[asyncId].Cancel();
      }
    }

    /** Teardown: every pending operation is cancelled and the table dropped. */
    method CancelAll()
      modifies this, pending.Values
      ensures View() == Table(old(nextAsync), map[], map[])
      ensures forall op :: op in old(pending.Values) ==> op.done
    {
      var todo := pending.Values;
      while todo != {}
        invariant todo <= old(pending.Values) && unchanged(this)
        invariant forall op :: op in old(pending.Values) ==> op in todo || op.done
        decreases |todo|
      {
        var op :| op in todo;
        op.Cancel();
        todo := todo - {op};
      }
      pending := map[];
      pendingByMsg := map[];
    }
  }

  // ---------------------------------------------------------------- the protocol

  datatype Status = Changed | Cancelled

  /** Where a watcher stands: in its loop, out of it, unregistered and about to send, gone. */
  datatype Watch = Watching | Decided(status: Status) | Sending(status: Status) | Gone

  datatype Op = Op(messageId: uint64, cancelled: bool, watch: Watch)

  /** What is written: responses, and notices that another connection broke an oplock. */
  datatype Packet = Interim(op: nat) | Final(op: nat, status: Status) | Synchronous | OplockBroken

  /** Where the connection's own goroutine stands. */
  datatype Phase = Draining | Reading | Handling | Closing | Closed

  /** Operations are numbered in the order they are registered. `out` is the response being built. */
  datatype State = State(ops: seq<Op>, table: Table<nat>, phase: Phase, out: seq<Packet>, channel: seq<Packet>,
                         wire: seq<Packet>, shutdown: bool)

  const CAPACITY := 64

  datatype Step =
    | DrainOne
    | DrainFails
    | DrainDone
    | ReadTimeout
    | Receive
    | Reply
    | Notify(messageId: uint64)
    | CancelRequest(asyncId: uint64)
    | WriteOut
    | CloseDown
    | CleanUp
    | Shutdown
    | Decide(op: nat, status: Status)
    | Unregister(op: nat)
    | Send(op: nat)
    | GiveUp(op: nat)
    | BreakArrives

  function Init(): State {
    State([], Table(0, map[], map[]), Draining, [], [], [], false)
  }

  function Id(op: nat): uint64 { (op + 1) % IDS }

  predicate TornDown(s: State) { s.phase.Closing? || s.phase.Closed? }

  predicate Enabled(s: State, step: Step) {
    match step
    case DrainOne => s.phase.Draining? && s.channel != []
    case DrainFails => s.phase.Draining? && s.channel != []
    case DrainDone => s.phase.Draining? && s.channel == []
    case ReadTimeout => s.phase.Reading?
    case Receive => s.phase.Reading?
    case Reply => s.phase.Handling?
    case Notify(_) => s.phase.Handling?
    case CancelRequest(_) => s.phase.Handling?
    case WriteOut => s.phase.Handling?
    case CloseDown => !TornDown(s)
    case CleanUp => s.phase.Closing?
    case Shutdown => true
    case Decide(k, status) =>
      k < |s.ops| && s.ops[k].watch.Watching? && (status.Cancelled? ==> s.ops[k].cancelled || s.shutdown)
    case Unregister(k) => k < |s.ops| && s.ops[k].watch.Decided?
    case Send(k) => k < |s.ops| && s.ops[k].watch.Sending? && |s.channel| < CAPACITY
    case GiveUp(k) => k < |s.ops| && s.ops[k].watch.Sending? && TornDown(s)
    case BreakArrives => |s.channel| < CAPACITY
  }

  function Moved(s: State, k: nat, w: Watch): State
    requires k < |s.ops|
  {
    s.(ops := s.ops[k := s.ops[k].(watch := w)])
  }

  function CancelledAll(ops: seq<Op>, pending: map<uint64, nat>): (r: seq<Op>)
    ensures |r| == |ops|
    ensures forall k :: 0 <= k < |ops| ==> r[k] == ops[k].(cancelled := ops[k].cancelled || k in pending.Values)
  {
    seq(|ops|, k requires 0 <= k < |ops| => ops[k].(cancelled := ops[k].cancelled || k in pending.Values))
  }

  function Apply(s: State, step: Step): State
    requires Enabled(s, step)
  {
    match step
    case DrainOne => s.(wire := s.wire + [s.channel[0]], channel := s.channel[1..])
    case DrainFails => s.(channel := s.channel[1..], phase := Reading)
    case DrainDone => s.(phase := Reading)
    case ReadTimeout => s.(phase := Draining)
    case Receive => s.(phase := Handling, out := [])
    case Reply => s.(out := s.out + [Synchronous])
    case Notify(m) =>
      var k := |s.ops|;
      s.(ops := s.ops + [Op(m, false, Watching)], table := Registered(s.table, m, k), out := s.out + [Interim(k)])
    case CancelRequest(id) =>
      var found := id in s.table.pending && s.table.pending[id] < |s.ops|;
      var ops := if found then s.ops[s.table.pending[id] := s.ops[s.table.pending[id]].(cancelled := true)] else s.ops;
      s.(ops := ops, out := s.out + [Synchronous])
    case WriteOut => s.(wire := s.wire + s.out, out := [], phase := Draining)
    case CloseDown => s.(phase := Closing)
    case CleanUp => s.(phase := Closed, ops := CancelledAll(s.ops, s.table.pending), table := s.table.(pending := map[], byMsg := map[]))
    case Shutdown => s.(shutdown := true)
    case Decide(k, status) => Moved(s, k, Decided(status))
    case Unregister(k) =>
      Moved(s.(table := Unregistered(s.table, Id(k), s.ops[k].messageId)), k, Sending(s.ops[k].watch.status))
    case Send(k) => Moved(s.(channel := s.channel + [Final(k, s.ops[k].watch.status)]), k, Gone)
    case GiveUp(k) => Moved(s, k, Gone)
    case BreakArrives => s.(channel := s.channel + [OplockBroken])
  }

  ghost predicate Run(states: seq<State>, steps: seq<Step>) {
    && |states| == |steps| + 1 && states[0] == Init()
    && forall i :: 0 <= i < |steps| ==> Enabled(states[i], steps[i]) && states[i + 1] == Apply(states[i], steps[i])
  }

  // ---------------------------------------------------------------- what every state keeps

  predicate Unfinalised(o: Op) { o.watch.Watching? || o.watch.Decided? }

  /** Until teardown the table holds exactly the operations not yet finalised, under their own ids. */
  ghost predicate TableExact(ops: seq<Op>, t: Table<nat>) {
    && t.next == |ops| % IDS
    && (forall k :: 0 <= k < |ops| && Unfinalised(ops[k]) ==> Id(k) in t.pending && t.pending[Id(k)] == k)
    && (forall id :: id in t.pending ==> t.pending[id] < |ops| && Id(t.pending[id]) == id && Unfinalised(ops[t.pending[id]]))
    && (forall m :: m in t.byMsg ==> t.byMsg[m] < |ops| && ops[t.byMsg[m]].messageId == m && Unfinalised(ops[t.byMsg[m]]))
  }

  /** Finals belong to watchers that are gone, one each. */
  ghost predicate FinalsOnce(ops: seq<Op>, sent: seq<Packet>) {
    && (forall i :: 0 <= i < |sent| && sent[i].Final? ==> sent[i].op < |ops| && ops[sent[i].op].watch.Gone?)
    && (forall i, j :: 0 <= i < j < |sent| && sent[i].Final? && sent[j].Final? ==> sent[i].op != sent[j].op)
  }

  ghost predicate Justified(o: Op, status: Status, shutdown: bool) {
    status.Cancelled? ==> o.cancelled || shutdown
  }

  /** Nobody ends with CANCELLED who was not cancelled. */
  ghost predicate CancelsJustified(ops: seq<Op>, sent: seq<Packet>, shutdown: bool) {
    && (forall i :: 0 <= i < |sent| && sent[i].Final? ==> sent[i].op < |ops| && Justified(ops[sent[i].op], sent[i].status, shutdown))
    && (forall k :: 0 <= k < |ops| && ops[k].watch.Decided? ==> Justified(ops[k], ops[k].watch.status, shutdown))
    && (forall k :: 0 <= k < |ops| && ops[k].watch.Sending? ==> Justified(ops[k], ops[k].watch.status, shutdown))
  }

  /** Before teardown every interim is on the wire or about to be, and the response is being built only while handling. */
  ghost predicate InterimsOut(n: nat, phase: Phase, out: seq<Packet>, wire: seq<Packet>) {
    && (phase.Draining? || phase.Reading? ==> out == [])
    && (!phase.Closing? && !phase.Closed? ==> forall k :: 0 <= k < n ==> Interim(k) in wire + out)
  }

  /** On the wire each final has its interim before it. */
  ghost predicate InterimFirst(wire: seq<Packet>) {
    forall i :: 0 <= i < |wire| && wire[i].Final? ==> Interim(wire[i].op) in wire[..i]
  }

  /** What waits in the channel is a final or an oplock break; what is being built is neither. */
  ghost predicate Kinds(out: seq<Packet>, channel: seq<Packet>) {
    && (forall i :: 0 <= i < |channel| ==> channel[i].Final? || channel[i].OplockBroken?)
    && (forall i :: 0 <= i < |out| ==> !out[i].Final? && !out[i].OplockBroken?)
  }

  ghost predicate Inv(s: State) {
    && |s.channel| <= CAPACITY
    && (!s.phase.Closed? ==> TableExact(s.ops, s.table))
    && FinalsOnce(s.ops, s.wire + s.channel)
    && CancelsJustified(s.ops, s.wire + s.channel, s.shutdown)
    && InterimsOut(|s.ops|, s.phase, s.out, s.wire)
    && InterimFirst(s.wire)
    && Kinds(s.out, s.channel)
  }

  // ---------------------------------------------------------------- the table

  lemma IdInjective(j: nat, k: nat)
    requires j < IDS && k < IDS && Id(j) == Id(k)
    ensures j == k
  {
  }

  /** Ids are all different exactly as long as the 64-bit counter has not come around. */
  lemma IdsDistinctIff(n: nat)
    ensures (forall j, k :: 0 <= j < k < n ==> Id(j) != Id(k)) <==> n <= IDS
  {
    if n <= IDS {
      forall j, k | 0 <= j < k < n ensures Id(j) != Id(k) {
        if Id(j) == Id(k) { IdInjective(j, k); }
      }
    } else {
      assert Id(0) == Id(IDS);
    }
  }

  /** Only what the table looks at matters: the message ids and who is unfinalised. */
  lemma TableSame(ops: seq<Op>, ops': seq<Op>, t: Table<nat>)
    requires TableExact(ops, t) && |ops'| == |ops|
    requires forall k :: 0 <= k < |ops| ==> ops'[k].messageId == ops[k].messageId && (Unfinalised(ops'[k]) <==> Unfinalised(ops[k]))
    ensures TableExact(ops', t)
  {
    hide Unfinalised, Id;
  }

  lemma TableRegister(ops: seq<Op>, t: Table<nat>, m: uint64)
    requires TableExact(ops, t) && |ops| < IDS
    ensures TableExact(ops + [Op(m, false, Watching)], Registered(t, m, |ops|))
  {
    var ops', t' := ops + [Op(m, false, Watching)], Registered(t, m, |ops|);
    assert NextId(t.next) == Id(|ops|) == |ops'| % IDS;
    hide Id, NextId;
    forall k | 0 <= k < |ops'| && Unfinalised(ops'[k])
      ensures Id(k) in t'.pending && t'.pending[Id(k)] == k
    {
      if k < |ops| && Id(k) == Id(|ops|) { IdInjective(k, |ops|); }
    }
  }

  lemma TableUnregister(ops: seq<Op>, t: Table<nat>, k: nat, w: Watch)
    requires TableExact(ops, t) && |ops| <= IDS && k < |ops| && Unfinalised(ops[k]) && w.Sending?
    ensures TableExact(ops[k := ops[k].(watch := w)], Unregistered(t, Id(k), ops[k].messageId))
  {
    hide Id;
    forall j | 0 <= j < |ops| && j != k
      ensures Id(j) != Id(k)
    {
      if Id(j) == Id(k) { IdInjective(j, k); }
    }
  }

  lemma TableStep(s: State, step: Step)
    requires Enabled(s, step) && !s.phase.Closed? && TableExact(s.ops, s.table)
    requires |Apply(s, step).ops| <= IDS
    ensures var r := Apply(s, step); !r.phase.Closed? ==> TableExact(r.ops, r.table)
  {
    hide TableExact, Id;
    var r := Apply(s, step);
    match step
    case Notify(m) => TableRegister(s.ops, s.table, m);
    case Unregister(k) => TableUnregister(s.ops, s.table, k, Sending(s.ops[k].watch.status));
    case CleanUp =>
    case _ => TableSame(s.ops, r.ops, r.table);
  }

  // ---------------------------------------------------------------- the finals

  lemma FinalsSame(ops: seq<Op>, ops': seq<Op>, sent: seq<Packet>)
    requires FinalsOnce(ops, sent) && |ops| <= |ops'|
    requires forall k :: 0 <= k < |ops| && ops[k].watch.Gone? ==> ops'[k].watch.Gone?
    ensures FinalsOnce(ops', sent)
  {
  }

  lemma FinalsAppend(ops: seq<Op>, ops': seq<Op>, sent: seq<Packet>, k: nat, status: Status)
    requires FinalsOnce(ops, sent) && |ops| == |ops'| && k < |ops| && !ops[k].watch.Gone? && ops'[k].watch.Gone?
    requires forall j :: 0 <= j < |ops| && ops[j].watch.Gone? ==> ops'[j].watch.Gone?
    ensures FinalsOnce(ops', sent + [Final(k, status)])
  {
  }

  /** Losing a packet or adding some that are not final. */
  lemma FinalsLose(ops: seq<Op>, a: seq<Packet>, b: seq<Packet>)
    requires b != [] && FinalsOnce(ops, a + b)
    ensures FinalsOnce(ops, a + b[1..])
  {
    var u, v := a + b, a + b[1..];
    assert forall i :: 0 <= i < |a| ==> v[i] == u[i];
    assert forall i :: |a| <= i < |v| ==> v[i] == u[i + 1];
  }

  lemma FinalsInsert(ops: seq<Op>, a: seq<Packet>, out: seq<Packet>, b: seq<Packet>)
    requires FinalsOnce(ops, a + b) && forall i :: 0 <= i < |out| ==> !out[i].Final?
    ensures FinalsOnce(ops, a + out + b)
  {
    var u, v := a + b, a + out + b;
    assert forall i :: 0 <= i < |a| ==> v[i] == u[i];
    assert forall i :: |a| <= i < |a| + |out| ==> v[i] == out[i - |a|];
    assert forall i :: |a| + |out| <= i < |v| ==> v[i] == u[i - |out|];
  }

  lemma FinalsStep(s: State, step: Step)
    requires Enabled(s, step) && FinalsOnce(s.ops, s.wire + s.channel) && Kinds(s.out, s.channel)
    ensures var r := Apply(s, step); FinalsOnce(r.ops, r.wire + r.channel)
  {
    hide FinalsOnce;
    var r := Apply(s, step);
    match step
    case DrainOne => assert r.wire + r.channel == s.wire + s.channel;
    case DrainFails => FinalsLose(s.ops, s.wire, s.channel);
    case WriteOut => FinalsInsert(s.ops, s.wire, s.out, s.channel);
    case Send(k) =>
      FinalsAppend(s.ops, r.ops, s.wire + s.channel, k, s.ops[k].watch.status);
      assert s.wire + s.channel + [Final(k, s.ops[k].watch.status)] == r.wire + r.channel;
    case BreakArrives =>
      var sent := s.wire + s.channel;
      assert sent + [] == sent;
      FinalsInsert(s.ops, sent, [OplockBroken], []);
      assert sent + [OplockBroken] + [] == r.wire + r.channel;
    case _ => FinalsSame(s.ops, r.ops, s.wire + s.channel);
  }

  // ---------------------------------------------------------------- the cancellations

  lemma CancelsStep(s: State, step: Step)
    requires Enabled(s, step) && CancelsJustified(s.ops, s.wire + s.channel, s.shutdown) && Kinds(s.out, s.channel)
    ensures var r := Apply(s, step); CancelsJustified(r.ops, r.wire + r.channel, r.shutdown)
  {
    var r := Apply(s, step);
    var u, v := s.wire + s.channel, r.wire + r.channel;
    forall i | 0 <= i < |v| && v[i].Final?
      ensures v[i] in u || (step.Send? && v[i] == Final(step.op, s.ops[step.op].watch.status))
    {
      SentBefore(s, step, i);
    }
  }

  lemma SentBefore(s: State, step: Step, i: nat)
    requires Enabled(s, step) && Kinds(s.out, s.channel)
    requires var r := Apply(s, step); i < |r.wire + r.channel| && (r.wire + r.channel)[i].Final?
    ensures
      var r := Apply(s, step);
      var p := (r.wire + r.channel)[i];
      p in s.wire + s.channel || (step.Send? && p == Final(step.op, s.ops[step.op].watch.status))
  {
    var r := Apply(s, step);
    var p := (r.wire + r.channel)[i];
    if i < |r.wire| {
      assert p == r.wire[i];
      assert p in s.wire || p in s.channel;
    } else {
      assert p == r.channel[i - |r.wire|];
      assert p in s.channel || (step.Send? && p == Final(step.op, s.ops[step.op].watch.status));
    }
  }

  // ---------------------------------------------------------------- the interims

  lemma InterimsStep(s: State, step: Step)
    requires Enabled(s, step) && InterimsOut(|s.ops|, s.phase, s.out, s.wire)
    ensures var r := Apply(s, step); InterimsOut(|r.ops|, r.phase, r.out, r.wire)
  {
    var r := Apply(s, step);
    if !TornDown(r) {
      forall k | 0 <= k < |r.ops|
        ensures Interim(k) in r.wire + r.out
      {
        if k < |s.ops| {
          assert Interim(k) in s.wire + s.out;
        }
      }
    }
  }

  lemma OrderStep(s: State, step: Step)
    requires Enabled(s, step) && InterimFirst(s.wire) && Kinds(s.out, s.channel)
    requires InterimsOut(|s.ops|, s.phase, s.out, s.wire) && FinalsOnce(s.ops, s.wire + s.channel)
    ensures InterimFirst(Apply(s, step).wire)
  {
    var r := Apply(s, step);
    forall i | 0 <= i < |r.wire| && r.wire[i].Final?
      ensures Interim(r.wire[i].op) in r.wire[..i]
    {
      if i < |s.wire| {
        assert r.wire[i] == s.wire[i] && r.wire[..i] == s.wire[..i];
      } else {
        assert step.DrainOne?;
        assert s.channel[0] == (s.wire + s.channel)[|s.wire|];
        assert s.wire + s.out == s.wire == r.wire[..i];
      }
    }
  }

  lemma KindsStep(s: State, step: Step)
    requires Enabled(s, step) && Kinds(s.out, s.channel)
    ensures var r := Apply(s, step); Kinds(r.out, r.channel)
  {
  }

  // ---------------------------------------------------------------- whole runs

  lemma StepKeeps(s: State, step: Step)
    requires Inv(s) && Enabled(s, step) && |Apply(s, step).ops| <= IDS
    ensures Inv(Apply(s, step))
  {
    hide TableExact, FinalsOnce, CancelsJustified, InterimsOut, InterimFirst, Kinds;
    if !s.phase.Closed? { TableStep(s, step); }
    FinalsStep(s, step);
    CancelsStep(s, step);
    InterimsStep(s, step);
    OrderStep(s, step);
    KindsStep(s, step);
  }

  lemma OpsOnlyGrow(s: State, step: Step)
    requires Enabled(s, step)
    ensures |s.ops| <= |Apply(s, step).ops| <= |s.ops| + 1
  {
  }

  lemma {:induction false} RunKeeps(states: seq<State>, steps: seq<Step>)
    requires Run(states, steps) && |states[|steps|].ops| <= IDS
    ensures Inv(states[|steps|])
    decreases |steps|
  {
    hide Apply, Enabled, Inv;
    if steps == [] {
      InitOk();
    } else {
      var n := |steps| - 1;
      OpsOnlyGrow(states[n], steps[n]);
      RunKeeps(states[..n + 1], steps[..n]);
      StepKeeps(states[n], steps[n]);
    }
  }

  lemma InitOk()
    ensures Inv(Init())
  {
  }

  /** Whatever the interleaving: until teardown the table holds exactly the operations not yet finalised. */
  lemma PendingIsExact(states: seq<State>, steps: seq<Step>, k: nat)
    requires Run(states, steps)
    requires var s := states[|steps|]; |s.ops| <= IDS && !s.phase.Closed? && k < |s.ops|
    ensures
      var s := states[|steps|];
      && (Unfinalised(s.ops[k]) <==> Id(k) in s.table.pending)
      && (Id(k) in s.table.pending ==> s.table.pending[Id(k)] == k)
  {
    RunKeeps(states, steps);
    hide Id, Run;
    var s := states[|steps|];
    if Id(k) in s.table.pending {
      IdInjective(k, s.table.pending[Id(k)]);
    }
  }

  /** No operation gets two finals, and on the wire its interim comes before its final. */
  lemma OneFinalAfterInterim(states: seq<State>, steps: seq<Step>, i: nat)
    requires Run(states, steps)
    requires var s := states[|steps|]; |s.ops| <= IDS && i < |s.wire| && s.wire[i].Final?
    ensures
      var s := states[|steps|];
      && (exists j :: 0 <= j < i && s.wire[j] == Interim(s.wire[i].op))
      && (forall j :: 0 <= j < |s.wire| && j != i && s.wire[j].Final? ==> s.wire[j].op != s.wire[i].op)
      && (forall j :: 0 <= j < |s.channel| && s.channel[j].Final? ==> s.channel[j].op != s.wire[i].op)
      && s.wire[i].op < |s.ops| && |s.channel| <= 64
      && (s.wire[i].status.Cancelled? ==> s.ops[s.wire[i].op].cancelled || s.shutdown)
  {
    RunKeeps(states, steps);
    hide Run;
    var s := states[|steps|];
    var sent := s.wire + s.channel;
    assert forall j :: 0 <= j < |s.wire| ==> sent[j] == s.wire[j];
    assert forall j :: 0 <= j < |s.channel| ==> sent[|s.wire| + j] == s.channel[j];
    assert Interim(s.wire[i].op) in s.wire[..i];
    var j :| 0 <= j < i && s.wire[..i][j] == Interim(s.wire[i].op);
    assert s.wire[j] == Interim(s.wire[i].op);
  }

  /** After teardown nothing more is written. */
  lemma {:induction false} SilentAfterTeardown(states: seq<State>, steps: seq<Step>, i: nat)
    requires Run(states, steps) && i <= |steps| && TornDown(states[i])
    ensures TornDown(states[|steps|]) && states[|steps|].wire == states[i].wire
    decreases |steps| - i
  {
    if i < |steps| {
      assert states[i + 1] == Apply(states[i], steps[i]);
      SilentAfterTeardown(states, steps, i + 1);
    }
  }

  /** No final is lost: as long as no write fails and the connection stays up, the final of every watcher that is gone
      is on the wire or waits in the channel. */
  lemma {:induction false} FinalsAreKept(states: seq<State>, steps: seq<Step>, k: nat)
    requires Run(states, steps) && !TornDown(states[|steps|]) && forall i :: 0 <= i < |steps| ==> !steps[i].DrainFails?
    requires var s := states[|steps|]; k < |s.ops| && s.ops[k].watch.Gone?
    ensures var s := states[|steps|]; exists status :: Final(k, status) in s.wire + s.channel
    decreases |steps|
  {
    hide Apply, Enabled;
    if steps != [] {
      var n := |steps| - 1;
      var s := states[n];
      assert states[n + 1] == Apply(s, steps[n]);
      if k < |s.ops| && s.ops[k].watch.Gone? {
        StaysUp(s, steps[n]);
        FinalsAreKept(states[..n + 1], steps[..n], k);
        var status :| Final(k, status) in s.wire + s.channel;
        SentStays(s, steps[n], Final(k, status));
      } else {
        LastWord(s, steps[n], k);
      }
    }
  }

  lemma StaysUp(s: State, step: Step)
    requires Enabled(s, step) && !TornDown(Apply(s, step))
    ensures !TornDown(s)
  {
  }

  lemma SentStays(s: State, step: Step, p: Packet)
    requires Enabled(s, step) && !step.DrainFails? && p in s.wire + s.channel
    ensures var r := Apply(s, step); p in r.wire + r.channel
  {
    if step.DrainOne? { assert s.channel == [s.channel[0]] + s.channel[1..]; }
  }

  lemma LastWord(s: State, step: Step, k: nat)
    requires Enabled(s, step) && !TornDown(Apply(s, step)) && !(k < |s.ops| && s.ops[k].watch.Gone?)
    requires var r := Apply(s, step); k < |r.ops| && r.ops[k].watch.Gone?
    ensures var r := Apply(s, step); exists status :: Final(k, status) in r.wire + r.channel
  {
    assert step == Send(k);
    var f := Final(k, s.ops[k].watch.status);
    assert f in Apply(s, step).channel;
  }

  /** A CANCEL that names a pending operation lets its watcher decide to finish CANCELLED, however the run went. */
  lemma CancelReachesWatcher(states: seq<State>, steps: seq<Step>, id: uint64)
    requires Run(states, steps)
    requires
      var s := states[|steps|];
      |s.ops| <= IDS && Enabled(s, CancelRequest(id)) && id in s.table.pending
    ensures
      var s := states[|steps|];
      var s', k := Apply(s, CancelRequest(id)), s.table.pending[id];
      && k < |s.ops| && Id(k) == id && s'.ops[k].cancelled && (s.ops[k].watch.Watching? ==> Enabled(s', Decide(k, Cancelled)))
      && forall j :: 0 <= j < |s.ops| && j != k ==> s'.ops[j] == s.ops[j]
  {
    RunKeeps(states, steps);
    hide Run, FinalsOnce, CancelsJustified, InterimsOut, InterimFirst, Kinds;
  }

  // ---------------------------------------------------------------- no watcher is left behind

  function Remaining(w: Watch): nat {
    match w
    case Watching => 3
    case Decided(_) => 2
    case Sending(_) => 1
    case Gone => 0
  }

  /** What a watcher does next once the connection is gone. */
  function WayOut(s: State, k: nat): Step
    requires k < |s.ops|
  {
    match s.ops[k].watch
    case Watching => Decide(k, Cancelled)
    case Decided(_) => Unregister(k)
    case _ => GiveUp(k)
  }

  /** Every operation pending at teardown is cancelled by it, so its watcher can always take a step,
      and each step brings it nearer its end and leaves the others where they are. */
  lemma WatchersLeave(states: seq<State>, steps: seq<Step>, k: nat)
    requires Run(states, steps)
    requires var s := states[|steps|]; |s.ops| <= IDS && s.phase.Closed? && k < |s.ops| && !s.ops[k].watch.Gone?
    ensures
      var s := states[|steps|];
      && Enabled(s, WayOut(s, k))
      && var r := Apply(s, WayOut(s, k));
      && Remaining(r.ops[k].watch) < Remaining(s.ops[k].watch)
      && forall j :: 0 <= j < |s.ops| && j != k ==> r.ops[j] == s.ops[j]
  {
    WatchersCancelled(states, steps);
    hide Run;
  }

  lemma {:induction false} WatchersCancelled(states: seq<State>, steps: seq<Step>)
    requires Run(states, steps) && |states[|steps|].ops| <= IDS
    ensures
      var s := states[|steps|];
      s.phase.Closed? ==> forall k :: 0 <= k < |s.ops| && Unfinalised(s.ops[k]) ==> s.ops[k].cancelled
    decreases |steps|
  {
    hide Apply, Enabled, TableExact, Id;
    if steps != [] {
      var n := |steps| - 1;
      OpsOnlyGrow(states[n], steps[n]);
      RunKeeps(states[..n + 1], steps[..n]);
      WatchersCancelled(states[..n + 1], steps[..n]);
      CancelledStep(states[n], steps[n]);
    }
  }

  lemma CancelledStep(s: State, step: Step)
    requires Enabled(s, step) && (!s.phase.Closed? ==> TableExact(s.ops, s.table))
    requires s.phase.Closed? ==> forall k :: 0 <= k < |s.ops| && Unfinalised(s.ops[k]) ==> s.ops[k].cancelled
    ensures
      var r := Apply(s, step);
      r.phase.Closed? ==> forall k :: 0 <= k < |r.ops| && Unfinalised(r.ops[k]) ==> r.ops[k].cancelled
  {
    hide Id;
    if step.CleanUp? {
      forall k | 0 <= k < |s.ops| && Unfinalised(s.ops[k])
        ensures k in s.table.pending.Values
      {
        assert Id(k) in s.table.pending && s.table.pending[Id(k)] == k;
      }
    }
  }
}
