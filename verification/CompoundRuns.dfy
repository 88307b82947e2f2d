/** What holds of the compound loop on every message: failures stop the handlers, related requests inherit
    the chain's file id, and credits are conserved. */
module CompoundRuns {
  import opened Bytes
  import opened Ccm
  import opened Cmac
  import opened FileIds
  import opened Headers
  import opened Compound

  // ---------------------------------------------------------------- failures

  predicate Failed<S>(e: Event<S>) { e.reply.Some? && e.status != 0 && e.status != 0xC000_0016 }

  /** `f` comes after the failure `e`: no handler, nothing changed, the same status or a refused signature. */
  ghost predicate Spared<S>(e: Event<S>, f: Event<S>) {
    !f.ran && f.before == e.after && f.after == e.after && (f.status == e.status || f.status == ACCESS_DENIED)
  }

  ghost predicate Quiet<S>(log: seq<Event<S>>) {
    forall i, j :: 0 <= i < j < |log| && Failed(log[i]) ==> Spared(log[i], log[j])
  }

  ghost predicate Stalled<S>(l: Loop<S>) {
    forall i :: 0 <= i < |l.log| && Failed(l.log[i]) ==>
      l.failed && l.state == l.log[i].after && (l.status == l.log[i].status || l.status == ACCESS_DENIED)
  }

  lemma RespondLogs<S>(env: Handlers<S>, l: Loop<S>, h: Header, arrival: Arrival)
    requires l.off + 64 <= |l.msg| && PrevInside(l)
    ensures
      var r := Respond(env, l, h, arrival);
      && |r.log| == |l.log| + 1 && r.log[..|l.log|] == l.log
      && var e := r.log[|l.log|];
      && e.request == h && e.arrival == arrival && e.reply.Some? && e.ran == !l.failed && e.before == l.state
      && r.state == e.after && r.status == e.status && r.failed == (l.failed || Failing(e.status))
      && (l.failed ==> e.after == l.state && e.status == l.status)
  {
    hide Finished, ReplyHeader, Emit, LinkPrevious, Grant, Replace, Failing;
  }

  /** One step adds one event and keeps to the failure. */
  lemma StepLogs<S>(env: Handlers<S>, l: Loop<S>)
    requires Ready(l) && PrevInside(l)
    ensures
      var r := Step(env, l);
      && |r.log| == |l.log| + 1 && r.log[..|l.log|] == l.log
      && var e := r.log[|l.log|];
      && e.before == l.state && r.state == e.after
      && (Failed(e) ==> r.failed && r.status == e.status)
      && (l.failed ==> !e.ran && e.after == l.state && e.reply.Some? && r.failed
                       && r.status == e.status && (e.status == l.status || e.status == ACCESS_DENIED))
  {
    hide Respond, Parse, Verified, Inherited, Encode, Interim, Charged;
    var h := Parse(l.msg[l.off..]).value;
    var arrival := Arriving(l, h);
    var a := Admit(env, l, h);
    RespondLogs(env, a, h, arrival);
    match Notify(env, a.state, a.msg[a.off..], h)
    case Rejected(status) => RespondLogs(env, Refused(a, status), h, arrival);
    case _ =>
  }

  lemma StepStalls<S>(env: Handlers<S>, l: Loop<S>)
    requires Ready(l) && PrevInside(l) && Quiet(l.log) && Stalled(l)
    ensures Quiet(Step(env, l).log) && Stalled(Step(env, l))
  {
    hide Step, Ready, PrevInside, Failing;
    StepLogs(env, l);
    var r, n := Step(env, l), |l.log|;
    var e := r.log[n];
    forall i | 0 <= i < n
      ensures r.log[i] == l.log[i]
      ensures Failed(r.log[i]) ==> Spared(r.log[i], e) && l.failed
    {
      assert r.log[i] == r.log[..n][i];
    }
  }

  lemma {:induction false} RunStalls<S>(env: Handlers<S>, l: Loop<S>)
    requires PrevInside(l) && Quiet(l.log) && Stalled(l)
    ensures Quiet(Run(env, l).log) && Stalled(Run(env, l))
    decreases !l.stop, |l.msg| - l.off
  {
    hide Step, Quiet, Stalled, PrevInside;
    if Ready(l) {
      StepShape(env, l);
      StepStalls(env, l);
      RunStalls(env, Step(env, l));
    }
  }

  /** On any bytes whatever: after a failed request no handler is entered, nothing the handlers keep
      changes until the message is done, and every later status is the failing one or ACCESS_DENIED. */
  lemma FailureStopsHandlers<S>(env: Handlers<S>, msg: seq<byte>, credit: uint32, state: S)
    ensures
      var l := Run(env, Begin(msg, [], credit, state));
      forall i :: 0 <= i < |l.log| && Failed(l.log[i]) ==>
        && (forall j :: i < j < |l.log| ==> Spared(l.log[i], l.log[j]))
        && l.state == l.log[i].after && l.failed
  {
    hide Run, Failed, Spared;
    RunStalls(env, Begin(msg, [], credit, state));
  }

  // ---------------------------------------------------------------- related requests

  /** Where a command carries its file id: CLOSE, FLUSH, LOCK, IOCTL and QUERY_DIRECTORY behind eight bytes of the
      body, READ, WRITE and SET_INFO behind sixteen, QUERY_INFO behind twenty-four, the others nowhere. */
  predicate CarriesIdAt(command: uint16, at: nat) {
    || (command in {0x06, 0x07, 0x0A, 0x0B, 0x0E} && at == 72)
    || (command in {0x08, 0x09, 0x11} && at == 80)
    || (command == 0x10 && at == 88)
  }

  lemma CarriesIdAtOffset(command: uint16, at: nat)
    ensures CarriesIdAt(command, at) <==> FileIdOffset(command) == Some(at)
  {
  }

  /** A related request that has the room carries the file id its predecessor handed on. */
  ghost predicate Inherits<S>(e: Event<S>, f: Event<S>) {
    forall at: nat :: f.request.flags / 4 % 2 == 1 && CarriesIdAt(f.request.command, at) && at + 16 <= |f.seen| ==> f.seen[at..at + 16] == e.fileId
  }

  ghost predicate HandsOn<S>(l: Loop<S>) {
    && (l.log != [] ==> !l.first && l.fileId == l.log[|l.log| - 1].fileId)
    && (forall i :: 0 < i < |l.log| ==> Inherits(l.log[i - 1], l.log[i]))
  }

  lemma RespondHandsOn<S>(env: Handlers<S>, l: Loop<S>, h: Header, arrival: Arrival)
    requires l.off + 64 <= |l.msg| && PrevInside(l)
    ensures
      var r := Respond(env, l, h, arrival);
      && |r.log| == |l.log| + 1 && r.log[..|l.log|] == l.log && !r.first
      && var e := r.log[|l.log|];
      && e.request == h && e.seen == l.msg[l.off..] && r.fileId == e.fileId
  {
    hide Execute, Finished, ReplyHeader, Emit, LinkPrevious, Grant, Replace, Failing;
  }

  lemma StepHandsOn<S>(env: Handlers<S>, l: Loop<S>)
    requires Ready(l) && PrevInside(l)
    ensures
      var r, h := Step(env, l), Parse(l.msg[l.off..]).value;
      && |r.log| == |l.log| + 1 && r.log[..|l.log|] == l.log && (!r.first || r.stop)
      && var e := r.log[|l.log|];
      && e.request == h && e.seen == Admit(env, l, h).msg[l.off..] && r.fileId == e.fileId
  {
    hide Respond, Parse, Verified, Inherited, Encode, Interim, Charged;
    var h := Parse(l.msg[l.off..]).value;
    var arrival := Arriving(l, h);
    var a := Admit(env, l, h);
    RespondHandsOn(env, a, h, arrival);
    match Notify(env, a.state, a.msg[a.off..], h)
    case Rejected(status) => RespondHandsOn(env, Refused(a, status), h, arrival);
    case _ =>
  }

  lemma AdmitInherits<S>(env: Handlers<S>, l: Loop<S>, h: Header)
    requires l.off <= |l.msg| && !l.first
    ensures
      var fo, seen := FileIdOffset(h.command), Admit(env, l, h).msg[l.off..];
      Has(h.flags, RELATED_OPS) && fo.Some? && fo.value + 16 <= |seen| ==> seen[fo.value..fo.value + 16] == l.fileId
  {
    hide Verified, Has;
  }

  lemma {:induction false} RunHandsOn<S>(env: Handlers<S>, l: Loop<S>)
    requires PrevInside(l) && HandsOn(l)
    ensures forall i :: 0 < i < |Run(env, l).log| ==> Inherits(Run(env, l).log[i - 1], Run(env, l).log[i])
    decreases !l.stop, |l.msg| - l.off
  {
    hide Step, PrevInside, Parse, Admit, Inherits;
    if Ready(l) {
      StepShape(env, l);
      StepHandsOn(env, l);
      var r, h := Step(env, l), Parse(l.msg[l.off..]).value;
      if l.log != [] {
        AdmitInherits(env, l, h);
        InheritsIf(l.log[|l.log| - 1], r.log[|l.log|]);
      }
      assert forall i :: 0 <= i < |l.log| ==> r.log[i] == l.log[i];
      if r.stop && r.first {
        RunStopped(env, r);
      } else {
        RunHandsOn(env, r);
      }
    }
  }

  lemma InheritsIf<S>(e: Event<S>, f: Event<S>)
    requires
      var fo := FileIdOffset(f.request.command);
      Has(f.request.flags, RELATED_OPS) && fo.Some? && fo.value + 16 <= |f.seen| ==> f.seen[fo.value..fo.value + 16] == e.fileId
    ensures Inherits(e, f)
  {
    forall at: nat | f.request.flags / 4 % 2 == 1 && CarriesIdAt(f.request.command, at) && at + 16 <= |f.seen|
      ensures f.seen[at..at + 16] == e.fileId
    {
      CarriesIdAtOffset(f.request.command, at);
    }
  }

  /** On any bytes whatever, a related request reaches its handler with the file id of the chain. */
  lemma RelatedRequestsInherit<S>(env: Handlers<S>, msg: seq<byte>, credit: uint32, state: S)
    ensures
      var log := Run(env, Begin(msg, [], credit, state)).log;
      forall i :: 0 < i < |log| ==> Inherits(log[i - 1], log[i])
  {
    hide Run, Inherits;
    RunHandsOn(env, Begin(msg, [], credit, state));
  }

  // ---------------------------------------------------------------- credits

  function Given<S>(e: Event<S>): nat { if e.reply.Some? then e.reply.value.header.credit else 0 }

  /** Credits handed out in responses less credits taken by requests. */
  function Net<S>(log: seq<Event<S>>): int {
    if log == [] then 0 else Net(log[..|log| - 1]) + Given(log[|log| - 1]) - log[|log| - 1].arrival.charged
  }

  function Capped(grant: uint32): uint16 { if grant > 0xFFFF then 0xFFFF else grant }

  lemma RespondCredits<S>(env: Handlers<S>, l: Loop<S>, h: Header, arrival: Arrival)
    requires l.off + 64 <= |l.msg| && PrevInside(l)
    ensures
      var r := Respond(env, l, h, arrival);
      && |r.log| == |l.log| + 1 && r.log[..|l.log|] == l.log
      && var e := r.log[|l.log|];
      && e.arrival == arrival && e.reply.Some? && Given(e) == Capped(Grant(env.maxCredits, l.credit))
      && r.credit == env.maxCredits
  {
    hide Execute, Emit, LinkPrevious, Replace, Failing, Signature, Encode, SetFlag, ReplyFlags;
  }

  /** What one step does to the balance: the charge is taken as far as it goes; an answer brings the balance to
      the maximum and tells the client of as much of the difference as sixteen bits hold. */
  lemma StepCredits<S>(env: Handlers<S>, l: Loop<S>)
    requires Ready(l) && PrevInside(l)
    ensures
      var r, charge := Step(env, l), Parse(l.msg[l.off..]).value.creditCharge;
      var left := if l.credit >= charge then l.credit - charge else 0;
      var grant := (env.maxCredits - left) % 0x1_0000_0000;
      && |r.log| == |l.log| + 1 && r.log[..|l.log|] == l.log
      && var e := r.log[|l.log|];
      && e.arrival.charged == l.credit - left
      && (e.reply.Some? ==> Given(e) == (if grant > 0xFFFF then 0xFFFF else grant) && r.credit == env.maxCredits)
      && (e.reply.None? ==> r.credit == left)
      && (Parse(l.msg[l.off..]).value.command != CHANGE_NOTIFY ==> e.reply.Some?)
  {
    hide Respond, Parse, Verified, Inherited, Encode, Interim;
    var h := Parse(l.msg[l.off..]).value;
    var arrival := Arriving(l, h);
    var a := Admit(env, l, h);
    RespondCredits(env, a, h, arrival);
    match Notify(env, a.state, a.msg[a.off..], h)
    case Rejected(status) => RespondCredits(env, Refused(a, status), h, arrival);
    case _ =>
  }

  predicate FitsCreditField(maxCredits: uint32) { 1 <= maxCredits <= 0xFFFF }

  lemma StepConserves<S>(env: Handlers<S>, l: Loop<S>, start: int)
    requires Ready(l) && PrevInside(l) && FitsCreditField(env.maxCredits)
    requires l.credit <= env.maxCredits && start + Net(l.log) == l.credit
    ensures
      var r := Step(env, l);
      && r.credit <= env.maxCredits && start + Net(r.log) == r.credit
      && (r.log != [] && r.log[|r.log| - 1].reply.Some? ==> r.credit == env.maxCredits)
  {
    hide Step, Ready, PrevInside, Parse;
    StepCredits(env, l);
  }

  lemma {:induction false} RunConserves<S>(env: Handlers<S>, l: Loop<S>, start: int)
    requires PrevInside(l) && FitsCreditField(env.maxCredits)
    requires l.credit <= env.maxCredits && start + Net(l.log) == l.credit
    requires l.log != [] && l.log[|l.log| - 1].reply.Some? ==> l.credit == env.maxCredits
    ensures
      var r := Run(env, l);
      && r.credit <= env.maxCredits && start + Net(r.log) == r.credit
      && (r.log != [] && r.log[|r.log| - 1].reply.Some? ==> r.credit == env.maxCredits)
    decreases !l.stop, |l.msg| - l.off
  {
    hide Step, PrevInside, Net;
    if Ready(l) {
      StepShape(env, l);
      StepConserves(env, l, start);
      RunConserves(env, Step(env, l), start);
    }
  }

  /** A connection between messages: its balance, what the handlers keep, and everything so far. */
  datatype Account<S> = Account(credit: uint32, state: S, log: seq<Event<S>>)

  function Receive<S>(env: Handlers<S>, a: Account<S>, msg: seq<byte>): Account<S> {
    var l := Run(env, Begin(msg, [], a.credit, a.state));
    Account(l.credit, l.state, a.log + l.log)
  }

  function ReceiveAll<S>(env: Handlers<S>, a: Account<S>, msgs: seq<seq<byte>>): Account<S> {
    if msgs == [] then a else Receive(env, ReceiveAll(env, a, msgs[..|msgs| - 1]), msgs[|msgs| - 1])
  }

  /** A connection starts with one credit. */
  function Opened<S>(state: S): Account<S> { Account(1, state, []) }

  predicate Conserved<S>(env: Handlers<S>, state: S, msgs: seq<seq<byte>>) {
    var a := ReceiveAll(env, Opened(state), msgs);
    1 + Net(a.log) == a.credit
  }

  lemma {:induction false} NetSplits<S>(a: seq<Event<S>>, b: seq<Event<S>>)
    ensures Net(a + b) == Net(a) + Net(b)
    decreases |b|
  {
    if b == [] {
      assert a + b == a;
    } else {
      assert (a + b)[..|a + b| - 1] == a + b[..|b| - 1];
      NetSplits(a, b[..|b| - 1]);
    }
  }

  /** Conservation over every sequence of messages; the balance never passes the maximum and is back
      at it after a message whose last request was answered. */
  lemma {:induction false} CreditsConserved<S>(env: Handlers<S>, state: S, msgs: seq<seq<byte>>)
    requires FitsCreditField(env.maxCredits)
    ensures
      var a := ReceiveAll(env, Opened(state), msgs);
      && Conserved(env, state, msgs) && a.credit <= env.maxCredits
      && (a.log != [] && a.log[|a.log| - 1].reply.Some? ==> a.credit == env.maxCredits)
    decreases |msgs|
  {
    hide Run, Net;
    if msgs == [] {
      NetEmpty<S>();
    } else {
      CreditsConserved(env, state, msgs[..|msgs| - 1]);
      var a := ReceiveAll(env, Opened(state), msgs[..|msgs| - 1]);
      var l := Begin(msgs[|msgs| - 1], [], a.credit, a.state);
      NetEmpty<S>();
      RunConserves(env, l, a.credit);
      NetSplits(a.log, Run(env, l).log);
      RunOfNothing(env, l);
    }
  }

  /** Events are only ever added. */
  lemma {:induction false} RunKeepsLog<S>(env: Handlers<S>, l: Loop<S>)
    requires PrevInside(l)
    ensures |Run(env, l).log| >= |l.log| && Run(env, l).log[..|l.log|] == l.log
    decreases !l.stop, |l.msg| - l.off
  {
    hide Step, PrevInside;
    if Ready(l) {
      StepShape(env, l);
      StepLogs(env, l);
      RunKeepsLog(env, Step(env, l));
      var r := Step(env, l);
      assert Run(env, l).log[..|l.log|] == Run(env, l).log[..|r.log|][..|l.log|];
    }
  }

  lemma RunOfNothing<S>(env: Handlers<S>, l: Loop<S>)
    requires PrevInside(l) && l.log == []
    ensures Run(env, l).log == [] ==> Run(env, l) == l
  {
    hide Step, PrevInside;
    if Ready(l) {
      StepShape(env, l);
      StepLogs(env, l);
      RunKeepsLog(env, Step(env, l));
    }
  }

  lemma NetEmpty<S>()
    ensures Net<S>([]) == 0
  {
  }

  /** A message holding one ECHO that charges `charge` credits. */
  function Probe(charge: uint16): seq<byte> {
    Encode(Header(charge, 0, ECHO, 0, 0, 0, 0, 0, 0, 0, Zeros(16)))
  }

  lemma ProbeAccount<S>(env: Handlers<S>, state: S, charge: uint16)
    requires charge <= 1
    ensures
      var a := ReceiveAll(env, Opened(state), [Probe(charge)]);
      Net(a.log) == Capped(Grant(env.maxCredits, 1 - charge)) - charge && a.credit == env.maxCredits
  {
    hide Step, Parse, Encode;
    var l := Begin(Probe(charge), [], 1, state);
    var h := Header(charge, 0, ECHO, 0, 0, 0, 0, 0, 0, 0, Zeros(16));
    ParseEncode(h, []);
    assert Probe(charge) + [] == Probe(charge) == l.msg[0..];
    assert Travelling(h) == h;
    StepShape(env, l);
    StepCredits(env, l);
    var r := Step(env, l);
    assert Run(env, l) == r;
    assert [Probe(charge)][..0] == [];
    NetEmpty<S>();
    assert r.log[..0] == [];
    assert [] + r.log == r.log;
  }

  /** Conservation holds of every run exactly when the maximum is at least one and fits the 16-bit field. */
  lemma CreditsConservedIff<S>(env: Handlers<S>, state: S)
    ensures (forall msgs :: Conserved(env, state, msgs)) <==> FitsCreditField(env.maxCredits)
  {
    hide ReceiveAll;
    if FitsCreditField(env.maxCredits) {
      forall msgs ensures Conserved(env, state, msgs) {
        CreditsConserved(env, state, msgs);
      }
    } else {
      var charge := if env.maxCredits == 0 then 0 else 1;
      ProbeAccount(env, state, charge);
      assert !Conserved(env, state, [Probe(charge)]);
    }
  }
}
