/** What the log of a run means, on any bytes: which requests get to a handler, judged by the bytes they came in,
    which handler that is, and what becomes of its answer. */
module CompoundEvents {
  import opened Bytes
  import opened Ccm
  import opened Cmac
  import opened FileIds
  import opened Headers
  import opened Compound
  import opened CompoundRuns

  // ---------------------------------------------------------------- admission

  /** The request up to its end: where the next one begins, or the end of the message. */
  function Own(b: seq<byte>): seq<byte>
    requires |b| >= 64
  {
    var next := Field32(b, 20);
    if 0 < next <= |b| then b[..next] else b
  }

  /** As it came, the request is one its session lets in: the session has no signer, or the request is marked as
      signed, holds a whole header and carries its own signature, or it is not marked and need not be. */
  predicate Authentic<S>(env: Handlers<S>, e: Event<S>) {
    var b := e.arrival.bytes;
    && |b| >= 64
    && var info := env.signing(e.before, Field64(b, 40));
    || info.None?
    || (if Field32(b, 16) / 8 % 2 == 1
        then |Own(b)| >= 64 && Own(b)[48..64] == Signature(info.value.E, Own(b))
        else !info.value.signRequired)
  }

  // ---------------------------------------------------------------- what a handler is shown

  /** The request as it came, behind its header; but a related one that is not the first and has the room carries
      the chain's file id. */
  ghost predicate Shown<S>(e: Event<S>, first: bool, f: FileId) {
    var b, s := e.arrival.bytes, e.seen;
    && 64 <= |b| == |s|
    && if first || e.request.flags / 4 % 2 == 0 || !(exists at: nat :: CarriesIdAt(e.request.command, at) && at + 16 <= |b|)
       then s[64..] == b[64..]
       else forall at: nat :: CarriesIdAt(e.request.command, at) ==> at + 16 <= |b| && s[64..] == b[64..at] + f + b[at + 16..]
  }

  // ---------------------------------------------------------------- what a handler does

  /** The answer of a handler is what goes into the response. */
  ghost predicate Relayed<S>(e: Event<S>, o: Outcome<S>) {
    && e.after == o.state && e.status == o.status && e.fileId == o.fileId && e.reply.Some?
    && var r := e.reply.value;
    && r.body == o.body && r.header.sessionId == o.sessionId && r.header.treeId == o.treeId && r.header.status == o.status
  }

  /** Nothing was asked for or changed, and the response is a header alone. */
  ghost predicate Passed<S>(e: Event<S>, f: FileId) {
    e.after == e.before && e.fileId == f && e.reply.Some? && e.reply.value.body == [] && e.reply.value.header.status == e.status
  }

  /** CHANGE_NOTIFY: refused for its length or its file, lost for want of a tree, or left pending. */
  ghost predicate Notified<S>(env: Handlers<S>, e: Event<S>, f: FileId) {
    if |e.seen| < 96 then Passed(e, f) && e.status == 0xC000_000D
    else
      var opens := env.opens(e.before, e.request.sessionId, e.request.treeId);
      && e.fileId == f
      && if opens.None? then e.reply.None? && e.after == e.before
         else if e.seen[72..88] in opens.value then
           e.reply.None? && e.status == 0x103 && e.after == env.watch(e.before, e.seen, e.request).0
         else Passed(e, f) && e.status == 0xC000_0008
  }

  /** A response is marked as one, as synchronous, and as related unless it is the first and its request was not. */
  predicate Marked<S>(e: Event<S>, first: bool) {
    e.reply.Some? ==>
      var flags := e.reply.value.header.flags;
      flags % 2 == 1 && flags / 2 % 2 == 0 && (flags / 4 % 2 == 1 <==> !first || e.request.flags / 4 % 2 == 1)
  }

  ghost predicate Asked<S>(env: Handlers<S>, e: Event<S>, f: FileId) {
    if !e.ran then Passed(e, f)
    else if e.request.command == 0x0F then Notified(env, e, f)
    else if e.request.command == 0x0C then
      Relayed(e, Outcome(env.cancel(e.before, e.request.asyncId), [4, 0, 0, 0], 0, e.request.sessionId, e.request.treeId, f, false))
    else exists n: nat :: Relayed(e, env.dispatch(e.before, n, e.seen, e.request, f))
  }

  // ---------------------------------------------------------------- one step

  lemma RefusesIff(info: Option<Signing>, msg: seq<byte>, off: nat, h: Header)
    requires off + 64 <= |msg| && Parse(msg[off..]) == Some(h)
    ensures
      var b := msg[off..];
      Verified(info, msg, off, h).1 <==>
        info.Some? && !(if Field32(b, 16) / 8 % 2 == 1
                        then |Own(b)| >= 64 && Own(b)[48..64] == Signature(info.value.E, Own(b))
                        else !info.value.signRequired)
  {
    hide Signature, Field32, Field64, Field16;
    var b := msg[off..];
    assert h.flags == Field32(b, 16) && h.nextCommand == Field32(b, 20);
    assert msg[off..CommandEnd(|msg|, off, h)] == Own(b);
  }

  lemma AdmitShows<S>(env: Handlers<S>, l: Loop<S>, h: Header, e: Event<S>)
    requires l.off + 64 <= |l.msg| && e.request == h && e.arrival.bytes == l.msg[l.off..] && e.seen == Admit(env, l, h).msg[l.off..]
    ensures Shown(e, l.first, l.fileId)
  {
    hide Verified;
    var info := env.signing(l.state, h.sessionId);
    var m := Verified(info, l.msg, l.off, h).0;
    VerifiedBehind(info, l.msg, l.off, h);
    assert m[l.off..][64..] == m[l.off + 64..] && e.arrival.bytes[64..] == l.msg[l.off + 64..];
    forall at: nat ensures CarriesIdAt(h.command, at) <==> FileIdOffset(h.command) == Some(at) { CarriesIdAtOffset(h.command, at); }
    var fo := FileIdOffset(h.command);
    if Has(h.flags, RELATED_OPS) && !l.first && fo.Some? && l.off + fo.value + 16 <= |l.msg| {
      var at := fo.value;
      assert CarriesIdAt(h.command, at);
      PatchedBehind(m, l.msg, l.off, at, l.fileId);
    } else {
      assert e.seen == m[l.off..];
    }
  }

  lemma PatchedBehind(m: seq<byte>, msg: seq<byte>, off: nat, at: nat, f: FileId)
    requires |m| == |msg| && 64 <= at && off + at + 16 <= |msg| && m[off + 64..] == msg[off + 64..]
    ensures
      var b := msg[off..];
      Replace(m, off + at, f)[off..][64..] == b[64..at] + f + b[at + 16..]
  {
    var tail := msg[off + 64..];
    assert Replace(m, off + at, f)[off..][64..] == m[off + 64..][..at - 64] + f + m[off + 64..][at - 48..];
    assert msg[off..][64..at] == tail[..at - 64] && msg[off..][at + 16..] == tail[at - 48..];
  }

  lemma RespondMeans<S>(env: Handlers<S>, l: Loop<S>, h: Header, arrival: Arrival)
    requires l.off + 64 <= |l.msg| && PrevInside(l)
    ensures
      var r := Respond(env, l, h, arrival);
      && |r.log| == |l.log| + 1 && r.log[..|l.log|] == l.log && !r.first
      && var e := r.log[|l.log|];
      && e.request == h && e.arrival == arrival && e.ran == !l.failed && e.before == l.state && e.seen == l.msg[l.off..]
      && r.fileId == e.fileId && r.failed == (l.failed || Failing(e.status)) && e.reply.Some?
      && (l.failed ==> e.status == l.status && Passed(e, l.fileId))
      && (!l.failed && h.command != CHANGE_NOTIFY ==> Asked(env, e, l.fileId))
  {
    hide Emit, LinkPrevious, Grant, Replace, Failing, Signature, Encode, SetFlag, ReplyFlags;
    var out := LinkPrevious(l.out, l.prev);
    var o := Execute(env, l, |out|, h);
    var e := Respond(env, l, h, arrival).log[|l.log|];
    assert Relayed(e, o);
  }

  lemma StepMeans<S>(env: Handlers<S>, l: Loop<S>)
    requires Ready(l) && PrevInside(l)
    ensures
      var r := Step(env, l);
      && |r.log| == |l.log| + 1 && r.log[..|l.log|] == l.log && (!r.first || r.stop)
      && var e := r.log[|l.log|];
      && (e.ran <==> !l.failed && Authentic(env, e)) && (!Authentic(env, e) ==> e.status == 0xC000_0022)
      && Asked(env, e, l.fileId) && Shown(e, l.first, l.fileId)
      && r.fileId == e.fileId && (r.failed <==> l.failed || Failed(e))
  {
    hide Respond, Parse, Verified, Inherited, Encode, Interim, Relayed, Signature, Own, Shown, Field32, Field64;
    var h := Parse(l.msg[l.off..]).value;
    var arrival := Arriving(l, h);
    var a := Admit(env, l, h);
    RefusesIff(env.signing(l.state, h.sessionId), l.msg, l.off, h);
    SessionAsWritten(l.msg[l.off..], h);
    RespondMeans(env, a, h, arrival);
    var notice := Notify(env, a.state, a.msg[a.off..], h);
    if notice.Rejected? { RespondMeans(env, Refused(a, notice.status), h, arrival); }
    AdmitShows(env, l, h, Step(env, l).log[|l.log|]);
  }

  lemma RespondMarks<S>(env: Handlers<S>, l: Loop<S>, h: Header, arrival: Arrival)
    requires l.off + 64 <= |l.msg| && PrevInside(l)
    ensures
      var r := Respond(env, l, h, arrival);
      |r.log| == |l.log| + 1 && r.log[|l.log|].request == h && Marked(r.log[|l.log|], l.first)
  {
    hide Execute, Emit, LinkPrevious, Grant, Replace, Failing, Signature, Encode, SetFlag, ReplyFlags;
    ReplyFlagsRight(h.flags, l.first);
  }

  lemma StepMarks<S>(env: Handlers<S>, l: Loop<S>)
    requires Ready(l) && PrevInside(l)
    ensures var r := Step(env, l); |r.log| == |l.log| + 1 && Marked(r.log[|l.log|], l.first)
  {
    hide Respond, Parse, Verified, Inherited, Encode, Interim;
    var h := Parse(l.msg[l.off..]).value;
    var arrival := Arriving(l, h);
    var a := Admit(env, l, h);
    RespondMarks(env, a, h, arrival);
    var notice := Notify(env, a.state, a.msg[a.off..], h);
    if notice.Rejected? { RespondMarks(env, Refused(a, notice.status), h, arrival); }
  }

  lemma SessionAsWritten(b: seq<byte>, h: Header)
    requires Parse(b) == Some(h)
    ensures h.sessionId == Field64(b, 40)
  {
    hide Field32, Field64, Field16;
  }

  // ---------------------------------------------------------------- whole runs

  /** The file id the chain hands to request `i`: the one its predecessor left, all zero at first. */
  function HandedTo<S>(log: seq<Event<S>>, i: nat): FileId
    requires i <= |log|
  {
    if i == 0 then Zeros(16) else log[i - 1].fileId
  }

  ghost predicate FailedBefore<S>(log: seq<Event<S>>, i: nat)
    requires i <= |log|
  {
    exists j :: 0 <= j < i && Failed(log[j])
  }

  ghost predicate Fair<S>(env: Handlers<S>, log: seq<Event<S>>, i: nat)
    requires i < |log|
  {
    && (log[i].ran <==> !FailedBefore(log, i) && Authentic(env, log[i]))
    && (!Authentic(env, log[i]) ==> log[i].status == 0xC000_0022)
    && Asked(env, log[i], HandedTo(log, i)) && Shown(log[i], i == 0, HandedTo(log, i)) && Marked(log[i], i == 0)
  }

  ghost predicate Accounted<S>(env: Handlers<S>, l: Loop<S>) {
    && (l.failed <==> FailedBefore(l.log, |l.log|)) && l.fileId == HandedTo(l.log, |l.log|)
    && (l.stop || (l.first <==> l.log == []))
    && forall i :: 0 <= i < |l.log| ==> Fair(env, l.log, i)
  }

  lemma FairStays<S>(env: Handlers<S>, log: seq<Event<S>>, longer: seq<Event<S>>, i: nat)
    requires i < |log| < |longer| && longer[..|log|] == log && Fair(env, log, i)
    ensures Fair(env, longer, i)
  {
    hide Authentic, Asked, Shown, Failed, Marked;
    assert forall j :: 0 <= j < |log| ==> longer[j] == longer[..|log|][j];
  }

  lemma StepAccounts<S>(env: Handlers<S>, l: Loop<S>)
    requires Ready(l) && PrevInside(l) && Accounted(env, l)
    ensures Accounted(env, Step(env, l))
  {
    hide Step, Authentic, Asked, Shown, Failed, PrevInside, Marked;
    StepMeans(env, l);
    StepMarks(env, l);
    var r, n := Step(env, l), |l.log|;
    assert forall j :: 0 <= j < n ==> r.log[j] == r.log[..n][j];
    forall i | 0 <= i < |r.log| ensures Fair(env, r.log, i) {
      if i < n { FairStays(env, l.log, r.log, i); }
    }
  }

  lemma {:induction false} RunAccounts<S>(env: Handlers<S>, l: Loop<S>)
    requires PrevInside(l) && Accounted(env, l)
    ensures Accounted(env, Run(env, l))
    decreases !l.stop, |l.msg| - l.off
  {
    hide Step, PrevInside, Accounted;
    if Ready(l) {
      StepShape(env, l);
      StepAccounts(env, l);
      RunAccounts(env, Step(env, l));
    }
  }

  /** A request gets to a handler if and only if none failed before it and it is authentic as it came; if it is
      not, its status is ACCESS_DENIED. */
  lemma RunsIffAuthentic<S>(env: Handlers<S>, msg: seq<byte>, credit: uint32, state: S)
    ensures
      var log := Run(env, Begin(msg, [], credit, state)).log;
      forall i :: 0 <= i < |log| ==>
        && (log[i].ran <==> !FailedBefore(log, i) && Authentic(env, log[i]))
        && (!Authentic(env, log[i]) ==> log[i].status == 0xC000_0022)
  {
    hide Run, Authentic, Asked, Shown, Failed, Marked;
    RunAccounts(env, Begin(msg, [], credit, state));
    var log := Run(env, Begin(msg, [], credit, state)).log;
    forall i | 0 <= i < |log|
      ensures log[i].ran <==> !FailedBefore(log, i) && Authentic(env, log[i])
      ensures !Authentic(env, log[i]) ==> log[i].status == 0xC000_0022
    {
      assert Fair(env, log, i);
    }
  }

  /** It is then shown the request with at most the chain's file id written in, the right handler is asked, and
      what that answers, and nothing else, is kept and sent. */
  lemma HandlersAreAsked<S>(env: Handlers<S>, msg: seq<byte>, credit: uint32, state: S)
    ensures
      var log := Run(env, Begin(msg, [], credit, state)).log;
      forall i :: 0 <= i < |log| ==>
        Asked(env, log[i], HandedTo(log, i)) && Shown(log[i], i == 0, HandedTo(log, i)) && Marked(log[i], i == 0)
  {
    hide Run, Authentic, Asked, Shown, Failed, Marked;
    RunAccounts(env, Begin(msg, [], credit, state));
    var log := Run(env, Begin(msg, [], credit, state)).log;
    forall i | 0 <= i < |log|
      ensures Asked(env, log[i], HandedTo(log, i)) && Shown(log[i], i == 0, HandedTo(log, i)) && Marked(log[i], i == 0)
    {
      assert Fair(env, log, i);
    }
  }
}
