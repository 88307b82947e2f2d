/** CHANGE_NOTIFY in the compound loop: when it ends the connection, and when its refusal goes out ahead of a header. */
module CompoundNotify {
  import opened Bytes
  import opened Ccm
  import opened Cmac
  import opened FileIds
  import opened Headers
  import opened Compound

  // ---------------------------------------------------------------- panics

  /** The request was neither answered nor left pending. */
  predicate Panicking<S>(e: Event<S>) { e.reply.None? && e.status != PENDING }

  /** A CHANGE_NOTIFY, long enough to carry its file id, reached its handler without a tree. */
  predicate Treeless<S>(env: Handlers<S>, e: Event<S>) {
    && e.ran && e.request.command == CHANGE_NOTIFY && |e.seen| >= 96
    && env.opens(e.before, e.request.sessionId, e.request.treeId).None?
  }

  predicate Sober<S>(l: Loop<S>) { !l.failed ==> !Failing(l.status) }

  lemma RespondAnswers<S>(env: Handlers<S>, l: Loop<S>, h: Header, arrival: Arrival)
    requires l.off + 64 <= |l.msg| && PrevInside(l)
    ensures
      var r := Respond(env, l, h, arrival);
      && |r.log| == |l.log| + 1 && r.log[..|l.log|] == l.log && Sober(r)
      && var e := r.log[|l.log|];
      && e.request == h && e.reply.Some? && e.ran == !l.failed && e.before == l.state && e.seen == l.msg[l.off..]
  {
    hide Finished, ReplyHeader, Emit, LinkPrevious, Grant, Replace, Failing;
  }

  lemma StepPanics<S>(env: Handlers<S>, l: Loop<S>)
    requires Ready(l) && PrevInside(l) && Sober(l)
    ensures
      var r := Step(env, l);
      && |r.log| == |l.log| + 1 && r.log[..|l.log|] == l.log && Sober(r)
      && var e := r.log[|l.log|];
      && (Panicking(e) <==> Treeless(env, e)) && (Panicking(e) ==> r.stop)
  {
    hide Respond, Parse, Verified, Inherited, Encode, Interim, Charged;
    var h := Parse(l.msg[l.off..]).value;
    var arrival := Arriving(l, h);
    var a := Admit(env, l, h);
    RespondAnswers(env, a, h, arrival);
    match Notify(env, a.state, a.msg[a.off..], h)
    case Rejected(status) => RespondAnswers(env, Refused(a, status), h, arrival);
    case _ =>
  }

  /** Whatever panicked came last, and only what had no tree did. */
  ghost predicate Sorted<S>(env: Handlers<S>, l: Loop<S>) {
    forall i :: 0 <= i < |l.log| ==>
      (Panicking(l.log[i]) <==> Treeless(env, l.log[i])) && (Panicking(l.log[i]) ==> i == |l.log| - 1 && l.stop)
  }

  lemma {:induction false} RunPanics<S>(env: Handlers<S>, l: Loop<S>)
    requires PrevInside(l) && Sober(l) && Sorted(env, l)
    ensures Sorted(env, Run(env, l))
    decreases !l.stop, |l.msg| - l.off
  {
    hide Step, PrevInside, Parse, Sober, Panicking, Treeless;
    if Ready(l) {
      StepShape(env, l);
      StepPanics(env, l);
      var r := Step(env, l);
      assert forall i :: 0 <= i < |l.log| ==> r.log[i] == r.log[..|l.log|][i];
      RunPanics(env, r);
    }
  }

  /** On any bytes whatever: the connection is lost exactly at a CHANGE_NOTIFY of at least 96 bytes that gets to
      its handler on a session or tree that is not there. */
  lemma PanicsIffTreeless<S>(env: Handlers<S>, msg: seq<byte>, credit: uint32, state: S)
    ensures
      var log := Run(env, Begin(msg, [], credit, state)).log;
      forall i :: 0 <= i < |log| ==>
        (Panicking(log[i]) <==> Treeless(env, log[i])) && (Panicking(log[i]) ==> i == |log| - 1)
  {
    hide Run, Panicking, Treeless;
    RunPanics(env, Begin(msg, [], credit, state));
  }

  // ---------------------------------------------------------------- the front of the output

  lemma LinkKeepsFront(out: seq<byte>, prev: Option<nat>)
    requires (prev.Some? ==> prev.value + 64 <= |out|) && |out| >= 12
    ensures |LinkPrevious(out, prev)| >= 12 && LinkPrevious(out, prev)[..12] == out[..12]
  {
    hide LE;
  }

  lemma RespondKeepsFront<S>(env: Handlers<S>, l: Loop<S>, h: Header, arrival: Arrival)
    requires l.off + 64 <= |l.msg| && PrevInside(l) && |l.out| >= 12
    ensures var r := Respond(env, l, h, arrival); |r.out| >= 12 && r.out[..12] == l.out[..12]
  {
    hide Execute, Finished, ReplyHeader, Emit, LinkPrevious, Grant, Replace, Failing;
    LinkKeepsFront(l.out, l.prev);
  }

  lemma StepKeepsFront<S>(env: Handlers<S>, l: Loop<S>)
    requires Ready(l) && PrevInside(l) && |l.out| >= 12
    ensures var r := Step(env, l); |r.out| >= 12 && r.out[..12] == l.out[..12]
  {
    hide Respond, Parse, Verified, Inherited, Encode, Interim, Charged;
    var h := Parse(l.msg[l.off..]).value;
    var arrival := Arriving(l, h);
    var a := Admit(env, l, h);
    RespondKeepsFront(env, a, h, arrival);
    match Notify(env, a.state, a.msg[a.off..], h)
    case Rejected(status) => RespondKeepsFront(env, Refused(a, status), h, arrival);
    case _ =>
  }

  lemma {:induction false} RunKeepsFront<S>(env: Handlers<S>, l: Loop<S>)
    requires PrevInside(l) && |l.out| >= 12
    ensures var r := Run(env, l); |r.out| >= |l.out| && r.out[..12] == l.out[..12]
    decreases !l.stop, |l.msg| - l.off
  {
    hide Step, PrevInside, Parse;
    if Ready(l) {
      StepShape(env, l);
      StepKeepsFront(env, l);
      StepGrows(env, l);
      RunKeepsFront(env, Step(env, l));
    }
  }

  lemma StepGrows<S>(env: Handlers<S>, l: Loop<S>)
    requires Ready(l) && PrevInside(l)
    ensures |Step(env, l).out| >= |l.out|
  {
    hide Execute, Finished, ReplyHeader, Parse, Verified, Inherited, Interim, Grant, Replace, Encode;
  }

  /** The first request is a CHANGE_NOTIFY that its handler refuses: too short, or of a file that is not open. */
  predicate RefusedFirst<S>(env: Handlers<S>, msg: seq<byte>, state: S) {
    && Parse(msg).Some?
    && var h := Parse(msg).value;
    && h.command == CHANGE_NOTIFY && !Verified(env.signing(state, h.sessionId), msg, 0, h).1
    && (|msg| < 96 ||
        (env.opens(state, h.sessionId, h.treeId).Some? && msg[72..88] !in env.opens(state, h.sessionId, h.treeId).value))
  }

  lemma StartsWithId(h: Header, rest: seq<byte>)
    ensures (Encode(h) + rest)[..4] == PROTOCOL_ID
  {
    hide LE;
  }

  /** The front of what a first request puts out. */
  lemma FirstStep<S>(env: Handlers<S>, msg: seq<byte>, credit: uint32, state: S)
    requires Ready(Begin(msg, [], credit, state))
    ensures
      var r := Step(env, Begin(msg, [], credit, state));
      if RefusedFirst(env, msg, state) then |r.out| >= 72 && r.out[..8] == ERROR_BODY && r.out[8..12] == PROTOCOL_ID
      else (r.out == [] && r.stop) || (|r.out| >= 64 && r.out[..4] == PROTOCOL_ID)
  {
    hide Parse, Verified, Encode, Interim, Charged, Respond, Failing;
    var l := Begin(msg, [], credit, state);
    assert msg[0..] == msg;
    var h := Parse(msg).value;
    var a := Admit(env, l, h);
    assert a.msg[a.off..] == a.msg;
    VerifiedBehind(env.signing(state, h.sessionId), msg, 0, h);
    if |msg| >= 96 { assert a.msg[72..88] == a.msg[64..][8..24] && msg[72..88] == msg[64..][8..24]; }
    FirstReply(env, a, h, Arriving(l, h));
    match Notify(env, state, a.msg, h)
    case Pending(_, asyncId) => StartsWithId(Interim(h, asyncId), []);
    case Rejected(status) => FirstReply(env, Refused(a, status), h, Arriving(l, h));
    case Panicked =>
  }

  lemma FirstReply<S>(env: Handlers<S>, l: Loop<S>, h: Header, arrival: Arrival)
    requires l.off + 64 <= |l.msg| && l.prev.None?
    ensures
      var out, n := Respond(env, l, h, arrival).out, |l.out|;
      |out| >= n + 64 && out[..n] == l.out && out[n..n + 4] == PROTOCOL_ID
  {
    hide Execute, Finished, ReplyHeader, Encode, Grant, Replace, Failing;
    var o := Execute(env, l, |l.out|, h);
    var r := Finished(env.signing(o.state, o.sessionId), Response(ReplyHeader(h, o, Grant(env.maxCredits, l.credit), l.first), o.body));
    StartsWithId(r.header, r.body);
    assert (l.out + Emit(r))[|l.out|..|l.out| + 4] == Emit(r)[..4];
  }

  lemma ParseSome(b: seq<byte>)
    ensures Parse(b).Some? <==> |b| >= 64 && b[..4] == PROTOCOL_ID
  {
  }

  /** On any bytes whatever: what is sent starts with a header, unless the first request is a CHANGE_NOTIFY that
      is refused; then it starts with eight stray bytes, and the header stands behind them. */
  lemma StartsWithHeaderIff<S>(env: Handlers<S>, msg: seq<byte>, credit: uint32, state: S)
    ensures
      var out := Run(env, Begin(msg, [], credit, state)).out;
      && (out != [] ==> (Parse(out).Some? <==> !RefusedFirst(env, msg, state)))
      && (RefusedFirst(env, msg, state) ==> |out| >= 72 && out[..8] == ERROR_BODY && Parse(out[8..]).Some?)
  {
    hide Parse, Step, Run, RefusedFirst;
    var l := Begin(msg, [], credit, state);
    assert msg[0..] == msg;
    if !Ready(l) {
      RunStops(env, l);
      RefusedIsReady(env, msg, state);
    } else {
      var r := Step(env, l);
      FirstStep(env, msg, credit, state);
      RunGoesOn(env, l);
      var out := Run(env, l).out;
      if r.out == [] {
        RunStopped(env, r);
      } else {
        RunKeepsFront(env, r);
        assert out[..8] == out[..12][..8] && out[..4] == out[..12][..4] && out[8..12] == out[..12][8..12];
        assert r.out[..8] == r.out[..12][..8] && r.out[..4] == r.out[..12][..4] && r.out[8..12] == r.out[..12][8..12];
        ParseSome(out);
        ParseSome(out[8..]);
        assert ERROR_BODY[..4] != PROTOCOL_ID by { assert ERROR_BODY[0] == 9 && PROTOCOL_ID[0] == 0xFE; }
        if RefusedFirst(env, msg, state) { assert out[..4] == out[..8][..4] && out[8..][..4] == out[8..12]; }
      }
    }
  }

  lemma RefusedIsReady<S>(env: Handlers<S>, msg: seq<byte>, state: S)
    ensures RefusedFirst(env, msg, state) ==> |msg| >= 64 && Parse(msg).Some?
  {
    hide Verified;
  }

  /** The interim response of a pending CHANGE_NOTIFY: STATUS_PENDING, marked as an asynchronous response, under
      the new id and with no credit. */
  lemma InterimAsWritten(h: Header, asyncId: uint64)
    ensures
      var b := Encode(Interim(h, asyncId));
      && Field32(b, 8) == 0x103 && Field16(b, 12) == h.command && Field16(b, 14) == 0 && Field32(b, 16) == 3
      && Field64(b, 24) == h.messageId && Field64(b, 32) == asyncId && Field64(b, 40) == h.sessionId
  {
    hide Field16, Field32, Field64, Encode;
    var i := Interim(h, asyncId);
    assert Has(3, ASYNC_COMMAND);
    ParseEncode(i, []);
    assert Encode(i) + [] == Encode(i);
  }
}
