/** The response chain: what the loop leaves in the output, and what a client finds by following it. */
module CompoundChain {
  import opened Bytes
  import opened Ccm
  import opened Cmac
  import opened FileIds
  import opened Headers
  import opened Compound

  // ---------------------------------------------------------------- the chain as a whole

  function Size(r: Response): nat { 64 + |r.body| }

  function PaddedSize(r: Response): nat {
    Size(r) + Padding(Size(r))
  }

  function LinkedTo(r: Response, distance: nat): Response {
    r.(header := r.header.(nextCommand := distance % 0x1_0000_0000))
  }

  /** A response with another behind it: linked and padded. */
  function Joined(r: Response): (s: seq<byte>)
    ensures |s| == PaddedSize(r)
  {
    Emit(LinkedTo(r, PaddedSize(r))) + Zeros(Padding(Size(r)))
  }

  function AllJoined(rs: seq<Response>): seq<byte> {
    if rs == [] then [] else AllJoined(rs[..|rs| - 1]) + Joined(rs[|rs| - 1])
  }

  lemma {:induction false} AllJoinedAligned(rs: seq<Response>)
    ensures |AllJoined(rs)| % 8 == 0
    decreases |rs|
  {
    hide Joined;
    if rs != [] {
      AllJoinedAligned(rs[..|rs| - 1]);
      AlignedSum(|AllJoined(rs[..|rs| - 1])|, PaddedSize(rs[|rs| - 1]));
    }
  }

  /** All responses but the last joined, and then the last. */
  function ChainOf(rs: seq<Response>): seq<byte> {
    if rs == [] then [] else AllJoined(rs[..|rs| - 1]) + Emit(rs[|rs| - 1])
  }

  function LastStart(rs: seq<Response>): Option<nat> {
    if rs == [] then None else Some(|AllJoined(rs[..|rs| - 1])|)
  }

  /** Patching the link of a response that stands at the end of the output. */
  lemma JoinLast(front: seq<byte>, r: Response)
    requires |front| % 8 == 0
    ensures LinkPrevious(front + Emit(r), Some(|front|)) == front + Joined(r)
  {
    hide PutField, Encode, Padding;
    PaddingBehind(|front|, Size(r));
    var v := PaddedSize(r) % 0x1_0000_0000;
    var pad := Zeros(Padding(Size(r)));
    PutFieldHere(front, Encode(r.header), r.body + pad, 20, 4, v);
    RewriteNext(r.header, v);
    assert front + Emit(r) + pad == front + Encode(r.header) + (r.body + pad);
    assert front + Encode(LinkedTo(r, PaddedSize(r)).header) + (r.body + pad) == front + Joined(r);
  }

  /** The link step of the loop turns the chain so far into the front of the longer chain. */
  lemma ChainGrows(rs: seq<Response>, r: Response)
    ensures LastStart(rs).Some? ==> LastStart(rs).value + 64 <= |ChainOf(rs)|
    ensures LinkPrevious(ChainOf(rs), LastStart(rs)) == AllJoined(rs)
    ensures ChainOf(rs + [r]) == AllJoined(rs) + Emit(r)
    ensures LastStart(rs + [r]) == Some(|AllJoined(rs)|)
  {
    hide Emit, Joined, LinkPrevious, PaddedSize;
    assert (rs + [r])[..|rs|] == rs;
    if rs == [] {
      LinkNothing();
    } else {
      AllJoinedAligned(rs[..|rs| - 1]);
      JoinLast(AllJoined(rs[..|rs| - 1]), rs[|rs| - 1]);
    }
  }

  lemma LinkNothing()
    ensures LinkPrevious([], None) == []
  {
  }

  // ---------------------------------------------------------------- the loop builds the chain

  function Replies<S>(log: seq<Event<S>>): (rs: seq<Response>)
    requires forall e :: e in log ==> e.reply.Some?
    ensures |rs| == |log|
    ensures forall i :: 0 <= i < |log| ==> rs[i] == log[i].reply.value
  {
    if log == [] then [] else Replies(log[..|log| - 1]) + [log[|log| - 1].reply.value]
  }

  /** The output is exactly the chain of the responses given. */
  ghost predicate Chained<S>(l: Loop<S>) {
    && (forall e :: e in l.log ==> e.reply.Some?)
    && l.out == ChainOf(Replies(l.log))
    && l.prev == LastStart(Replies(l.log))
  }

  lemma RespondAppends<S>(env: Handlers<S>, l: Loop<S>, h: Header, arrival: Arrival)
    requires l.off + 64 <= |l.msg| && PrevInside(l)
    ensures
      var r, linked := Respond(env, l, h, arrival), LinkPrevious(l.out, l.prev);
      && |r.log| == |l.log| + 1 && r.log[|l.log|].reply.Some? && r.log == l.log + [r.log[|l.log|]]
      && r.out == linked + Emit(r.log[|l.log|].reply.value) && r.prev == Some(|linked|)
  {
    hide Execute, Finished, ReplyHeader, Emit, LinkPrevious, Grant, Replace, Failing;
  }

  lemma RespondChains<S>(env: Handlers<S>, l: Loop<S>, h: Header, arrival: Arrival)
    requires l.off + 64 <= |l.msg| && PrevInside(l) && Chained(l)
    ensures Chained(Respond(env, l, h, arrival))
  {
    hide Respond, Emit, LinkPrevious, ChainOf, LastStart, AllJoined;
    RespondAppends(env, l, h, arrival);
    var e := Respond(env, l, h, arrival).log[|l.log|];
    ChainGrows(Replies(l.log), e.reply.value);
    RepliesGrow(l.log, e);
  }

  lemma RepliesGrow<S>(log: seq<Event<S>>, e: Event<S>)
    requires e.reply.Some? && forall f :: f in log ==> f.reply.Some?
    ensures forall f :: f in log + [e] ==> f.reply.Some?
    ensures Replies(log + [e]) == Replies(log) + [e.reply.value]
  {
    assert (log + [e])[..|log|] == log;
  }

  // ---------------------------------------------------------------- the requests in a message

  /** How far into its bytes the loop may write for this request. */
  function Reach(h: Header, first: bool): (n: nat)
    ensures n >= 64
  {
    var fo := FileIdOffset(h.command);
    if Has(h.flags, RELATED_OPS) && !first && fo.Some? then fo.value + 16 else 64
  }

  /** In-range links down to a zero, each over at least a header, protocol ids, no CHANGE_NOTIFY. */
  predicate Framed(b: seq<byte>)
    decreases |b|
  {
    && Parse(b).Some?
    && var h := Parse(b).value;
    && h.command != CHANGE_NOTIFY
    && (h.nextCommand == 0 || (64 <= h.nextCommand <= |b| && Framed(b[h.nextCommand..])))
  }

  /** Every related request with another behind it has room for its own file id. */
  predicate Roomy(b: seq<byte>, first: bool)
    requires Framed(b)
    decreases |b|
  {
    var h := Parse(b).value;
    h.nextCommand == 0 || (Reach(h, first) <= h.nextCommand && Roomy(b[h.nextCommand..], false))
  }

  predicate WellFormed(b: seq<byte>, first: bool) { Framed(b) && Roomy(b, first) }

  function Requests(b: seq<byte>): seq<Header>
    requires Framed(b)
    decreases |b|
  {
    var h := Parse(b).value;
    if h.nextCommand == 0 then [h] else [h] + Requests(b[h.nextCommand..])
  }

  lemma ReplaceFrame(b: seq<byte>, at: nat, piece: seq<byte>, k: nat)
    requires at + |piece| <= k <= |b|
    ensures Replace(b, at, piece)[k..] == b[k..]
  {
  }

  lemma VerifiedFrame(info: Option<Signing>, msg: seq<byte>, off: nat, h: Header)
    requires h.nextCommand != 0 && off + h.nextCommand <= |msg|
    ensures Verified(info, msg, off, h).0[off + h.nextCommand..] == msg[off + h.nextCommand..]
  {
    hide Has, Signature;
    var cmd := msg[off..off + h.nextCommand];
    if info.Some? && Has(h.flags, SIGNED) && |cmd| >= 64 {
      ReplaceFrame(msg, off, Signed(info.value.E, cmd), off + h.nextCommand);
    }
  }

  lemma InheritedFrame(msg: seq<byte>, off: nat, h: Header, first: bool, fileId: FileId, k: nat)
    requires off + Reach(h, first) <= k <= |msg|
    ensures Inherited(msg, off, h, first, fileId)[k..] == msg[k..]
  {
    hide Has;
    var fo := FileIdOffset(h.command);
    if Has(h.flags, RELATED_OPS) && !first && fo.Some? {
      ReplaceFrame(msg, off + fo.value, fileId, k);
    }
  }

  // ---------------------------------------------------------------- one response per request

  /** The signature in the response, where the session has it signed, is the right one. */
  predicate Sealed(info: Option<Signing>, r: Response) {
    info.Some? && (!info.value.encryptRequired || r.header.command in {0x00, 0x01})
    ==> r.header.flags / 8 % 2 == 1 && Signed(info.value.E, Emit(r)) == Emit(r)
  }

  /** A response is signed where its session signs, which with encryption is NEGOTIATE and SESSION_SETUP only; any
      other goes out as it is. */
  lemma FinishedIsSealed(info: Option<Signing>, r: Response)
    ensures Sealed(info, Finished(info, r))
    ensures info.None? || (info.value.encryptRequired && r.header.command !in {0x00, 0x01}) ==> Finished(info, r) == r
  {
    hide SetFlag, Encode, Signature;
    if Signs(info, r.header.command) {
      var E, marked := info.value.E, r.header.(flags := SetFlag(r.header.flags, SIGNED));
      FlagChanges(r.header.flags, SIGNED, SIGNED);
      var m := Encode(marked) + r.body;
      RewriteSignature(marked, Signature(E, m));
      assert m[..48] == Encode(marked)[..48] && m[64..] == r.body;
      assert Signed(E, m) == Emit(Finished(info, r));
      SignedVerifies(E, m);
    }
  }

  /** The response answers this very request. */
  predicate Matches<S>(env: Handlers<S>, e: Event<S>) {
    && e.reply.Some?
    && var h := e.reply.value.header;
    && h.command == e.request.command && h.messageId == e.request.messageId && h.status == e.status
    && h.nextCommand == e.request.nextCommand && h.flags % 2 == 1 && h.flags / 2 % 2 == 0
    && Sealed(env.signing(e.after, h.sessionId), e.reply.value)
  }

  lemma RespondMatches<S>(env: Handlers<S>, l: Loop<S>, h: Header, arrival: Arrival)
    requires l.off + 64 <= |l.msg| && PrevInside(l)
    ensures
      var r := Respond(env, l, h, arrival);
      && |r.log| == |l.log| + 1 && r.log[|l.log|].request == h && Matches(env, r.log[|l.log|])
      && !r.first && r.stop == (l.stop || h.nextCommand == 0) && (h.nextCommand != 0 ==> r.off == l.off + h.nextCommand)
      && |r.msg| == |l.msg| && (forall k :: l.off + 64 <= k <= |l.msg| ==> r.msg[k..] == l.msg[k..])
  {
    hide Execute, Emit, LinkPrevious, Grant, Replace, Failing, Signature, Encode, SetFlag, ReplyFlags, Sealed;
    ReplyFlagsRight(h.flags, l.first);
    var o := Execute(env, l, |LinkPrevious(l.out, l.prev)|, h);
    var r := Response(ReplyHeader(h, o, Grant(env.maxCredits, l.credit), l.first), o.body);
    FinishedIsSealed(env.signing(o.state, o.sessionId), r);
    forall k | l.off + 64 <= k <= |l.msg|
      ensures Replace(l.msg, l.off + 8, Zeros(4))[k..] == l.msg[k..]
    {
      ReplaceFrame(l.msg, l.off + 8, Zeros(4), k);
    }
  }

  /** A step on a well-formed message answers the request at hand and leaves the rest as it came. */
  lemma StepAnswers<S>(env: Handlers<S>, l: Loop<S>)
    requires PrevInside(l) && Chained(l) && !l.stop && l.off <= |l.msg| && WellFormed(l.msg[l.off..], l.first)
    ensures Ready(l)
    ensures
      var r, h := Step(env, l), Parse(l.msg[l.off..]).value;
      && Chained(r) && |r.log| == |l.log| + 1 && r.log[..|l.log|] == l.log
      && r.log[|l.log|].request == h && Matches(env, r.log[|l.log|])
      && (h.nextCommand == 0 ==> r.stop)
      && !r.first && (h.nextCommand != 0 ==> !r.stop && r.off == l.off + h.nextCommand && r.off <= |r.msg| && r.msg[r.off..] == l.msg[l.off..][h.nextCommand..])
  {
    hide Respond, Parse, Verified, Inherited, ChainOf, LastStart, Matches, Charged, Emit, LinkPrevious, Replies, Reach, Has;
    var h := Parse(l.msg[l.off..]).value;
    var arrival := Arriving(l, h);
    assert Ready(l);
    var a := Admit(env, l, h);
    RespondAppends(env, a, h, arrival);
    RespondChains(env, a, h, arrival);
    RespondMatches(env, a, h, arrival);
    var k := l.off + h.nextCommand;
    if h.nextCommand != 0 {
      var (msg, refused) := Verified(env.signing(l.state, h.sessionId), l.msg, l.off, h);
      VerifiedFrame(env.signing(l.state, h.sessionId), l.msg, l.off, h);
      InheritedFrame(msg, l.off, h, l.first, l.fileId, k);
      assert l.msg[l.off..][h.nextCommand..] == l.msg[k..];
    }
  }

  function Asked<S>(log: seq<Event<S>>): (hs: seq<Header>)
    ensures |hs| == |log|
    ensures forall i :: 0 <= i < |log| ==> hs[i] == log[i].request
  {
    if log == [] then [] else Asked(log[..|log| - 1]) + [log[|log| - 1].request]
  }

  lemma {:induction false} RunAnswers<S>(env: Handlers<S>, l: Loop<S>)
    requires PrevInside(l) && Chained(l) && !l.stop && l.off <= |l.msg| && WellFormed(l.msg[l.off..], l.first)
    requires forall e :: e in l.log ==> Matches(env, e)
    ensures
      var r := Run(env, l);
      && Chained(r) && r.log != [] && r.log[|r.log| - 1].request.nextCommand == 0
      && Asked(r.log) == Asked(l.log) + Requests(l.msg[l.off..])
      && (forall e :: e in r.log ==> Matches(env, e))
    decreases |l.msg| - l.off
  {
    hide Step, Ready, PrevInside, Chained, Matches, Parse, Reach;
    var b := l.msg[l.off..];
    var h := Parse(b).value;
    StepAnswers(env, l);
    StepShape(env, l);
    var r := Step(env, l);
    AskedGrows(l.log, r.log);
    assert Run(env, l) == Run(env, r);
    if h.nextCommand == 0 {
      RunStopped(env, r);
    } else {
      RunAnswers(env, r);
      assert Asked(l.log) + [h] + Requests(b[h.nextCommand..]) == Asked(l.log) + Requests(b);
    }
  }

  lemma AskedGrows<S>(log: seq<Event<S>>, longer: seq<Event<S>>)
    requires |longer| == |log| + 1 && longer[..|log|] == log
    ensures Asked(longer) == Asked(log) + [longer[|log|].request]
    ensures forall e :: e in longer ==> e in log || e == longer[|log|]
  {
    assert longer == log + [longer[|log|]];
  }

  // ---------------------------------------------------------------- following the responses

  datatype Found = Found(at: nat, header: Header)

  /** Reads headers from the front, each link leading to the next, until one is zero. */
  function Follow(b: seq<byte>, at: nat): Option<seq<Found>>
    decreases |b|
  {
    if Parse(b).None? then None
    else
      var h := Parse(b).value;
      if h.nextCommand == 0 then Some([Found(at, h)])
      else if h.nextCommand > |b| then None
      else
        var rest := Follow(b[h.nextCommand..], at + h.nextCommand);
        if rest.None? then None else Some([Found(at, h)] + rest.value)
  }

  /** What following a chain should find. */
  function Linkage(rs: seq<Response>, at: nat): (fs: seq<Found>)
    ensures |fs| == |rs|
  {
    if rs == [] then []
    else if |rs| == 1 then [Found(at, Travelling(rs[0].header))]
    else [Found(at, Travelling(LinkedTo(rs[0], PaddedSize(rs[0])).header))] + Linkage(rs[1..], at + PaddedSize(rs[0]))
  }

  lemma AllJoinedSnoc(rs: seq<Response>, r: Response)
    ensures AllJoined(rs + [r]) == AllJoined(rs) + Joined(r)
  {
    hide Joined;
    assert (rs + [r])[..|rs|] == rs;
  }

  lemma {:induction false} AllJoinedFront(r: Response, rs: seq<Response>)
    ensures AllJoined([r] + rs) == Joined(r) + AllJoined(rs)
    decreases |rs|
  {
    hide Joined, AllJoined;
    if rs == [] {
      OneJoined(r);
    } else {
      var front, last := rs[..|rs| - 1], rs[|rs| - 1];
      AllJoinedFront(r, front);
      AllJoinedSnoc(front, last);
      AllJoinedSnoc([r] + front, last);
      Ends(r, rs);
      Associate(Joined(r), AllJoined(front), Joined(last));
    }
  }

  lemma OneJoined(r: Response)
    ensures AllJoined([r] + []) == Joined(r) + AllJoined([])
  {
    assert [r] + [] == [r] && [r][..0] == [];
  }

  lemma Ends(r: Response, rs: seq<Response>)
    requires rs != []
    ensures [r] + rs[..|rs| - 1] + [rs[|rs| - 1]] == [r] + rs && rs[..|rs| - 1] + [rs[|rs| - 1]] == rs
  {
  }

  lemma ChainFront(rs: seq<Response>)
    requires |rs| >= 2
    ensures ChainOf(rs) == Joined(rs[0]) + ChainOf(rs[1..])
  {
    hide Joined, AllJoined, Emit;
    AllJoinedFront(rs[0], rs[1..|rs| - 1]);
    assert [rs[0]] + rs[1..|rs| - 1] == rs[..|rs| - 1];
    assert rs[1..|rs| - 1] == rs[1..][..|rs| - 2];
    Associate(Joined(rs[0]), AllJoined(rs[1..|rs| - 1]), Emit(rs[|rs| - 1]));
  }

  lemma FollowEnds(b: seq<byte>, at: nat, h: Header)
    requires Parse(b) == Some(h) && h.nextCommand == 0
    ensures Follow(b, at) == Some([Found(at, h)])
  {
    hide Parse;
  }

  lemma FollowGoesOn(head: seq<byte>, tail: seq<byte>, at: nat, h: Header, rest: seq<Found>)
    requires Parse(head + tail) == Some(h) && h.nextCommand == |head| > 0
    requires Follow(tail, at + |head|) == Some(rest)
    ensures Follow(head + tail, at) == Some([Found(at, h)] + rest)
  {
    hide Parse;
    assert (head + tail)[|head|..] == tail;
  }

  /** A joined response at the front parses to its linked header. */
  lemma JoinedParses(r: Response, tail: seq<byte>)
    ensures Parse(Joined(r) + tail) == Some(Travelling(LinkedTo(r, PaddedSize(r)).header))
  {
    hide Encode, Parse, PaddedSize, Travelling;
    var h, rest := LinkedTo(r, PaddedSize(r)).header, r.body + Zeros(Padding(Size(r))) + tail;
    ParseEncode(h, rest);
    assert Joined(r) + tail == Encode(h) + rest;
  }

  /** Following the chain finds every response, in order, at the sum of the padded sizes before it. */
  lemma {:induction false} FollowFinds(rs: seq<Response>, at: nat)
    requires rs != [] && rs[|rs| - 1].header.nextCommand == 0
    requires forall i :: 0 <= i < |rs| - 1 ==> PaddedSize(rs[i]) < 0x1_0000_0000
    ensures Follow(ChainOf(rs), at) == Some(Linkage(rs, at))
    decreases |rs|
  {
    hide Encode, Parse, ChainOf, Travelling, Follow, Joined;
    if |rs| == 1 {
      ChainOfOne(rs[0]);
      ParseEncode(rs[0].header, rs[0].body);
      TravelsWithLink(rs[0].header);
      assert rs == [rs[0]];
      FollowEnds(ChainOf(rs), at, Travelling(rs[0].header));
    } else {
      var r, n := rs[0], PaddedSize(rs[0]);
      FollowFinds(rs[1..], at + n);
      ChainFront(rs);
      JoinedParses(r, ChainOf(rs[1..]));
      TravelsWithLink(LinkedTo(r, n).header);
      FollowGoesOn(Joined(r), ChainOf(rs[1..]), at, Travelling(LinkedTo(r, n).header), Linkage(rs[1..], at + n));
    }
  }

  lemma ChainOfOne(r: Response)
    ensures ChainOf([r]) == Emit(r)
  {
    assert [r][..0] == [];
  }

  lemma TravelsWithLink(h: Header)
    ensures Travelling(h).nextCommand == h.nextCommand
  {
  }

  lemma {:induction false} LinkageAt(rs: seq<Response>, at: nat, i: nat)
    requires i < |rs| && at % 8 == 0
    ensures
      var f := Linkage(rs, at)[i];
      && f.at % 8 == 0
      && f.header == Travelling(if i == |rs| - 1 then rs[i].header else LinkedTo(rs[i], PaddedSize(rs[i])).header)
    decreases |rs|
  {
    hide Travelling;
    if i > 0 {
      AlignedSum(at, PaddedSize(rs[0]));
      LinkageAt(rs[1..], at + PaddedSize(rs[0]), i - 1);
    }
  }

  /** The main result: the client's view of a well-formed compound request. Following NextCommand
      through the output visits one response per request, in order, each on a multiple of eight, with
      the request's command and message id and the status its handler gave, and ends in zero; and the
      output is exactly those responses with their bodies. */
  lemma ResponsesMirrorRequests<S>(env: Handlers<S>, msg: seq<byte>, credit: uint32, state: S)
    requires WellFormed(msg, true)
    ensures
      var l := Run(env, Begin(msg, [], credit, state));
      Asked(l.log) == Requests(msg) && Chained(l) && (|l.out| < 0x1_0000_0000 ==> Mirrored(l, Requests(msg)))
  {
    hide Run, Roomy, Framed, Follow, Linkage, Chained, Matches, ChainOf, Mirrors;
    var start := Begin(msg, [], credit, state);
    assert msg[0..] == msg;
    ChainedAtStart(msg, credit, state);
    RunAnswers(env, start);
    var l := Run(env, start);
    if |l.out| < 0x1_0000_0000 {
      FollowRun(env, l);
    }
    assert Asked<S>([]) + Requests(msg) == Requests(msg);
  }

  predicate Mirrored<S>(l: Loop<S>, requests: seq<Header>) {
    && Follow(l.out, 0).Some?
    && var found := Follow(l.out, 0).value;
    && |found| == |requests| == |l.log| && found != [] && found[|found| - 1].header.nextCommand == 0
    && (forall i :: 0 <= i < |found| ==> Mirrors(found[i], requests[i], l.log[i].status))
  }

  lemma ChainedAtStart<S>(msg: seq<byte>, credit: uint32, state: S)
    ensures Chained(Begin(msg, [], credit, state))
  {
  }

  predicate Mirrors(f: Found, request: Header, status: uint32) {
    && f.at % 8 == 0 && f.header.command == request.command && f.header.messageId == request.messageId
    && f.header.status == status && f.header.flags % 2 == 1
  }

  lemma {:induction false} SizesWithin(rs: seq<Response>, i: nat)
    requires i < |rs|
    ensures PaddedSize(rs[i]) <= |AllJoined(rs)|
    decreases |rs|
  {
    hide Joined, PaddedSize;
    if i < |rs| - 1 {
      SizesWithin(rs[..|rs| - 1], i);
    }
  }

  lemma FollowRun<S>(env: Handlers<S>, l: Loop<S>)
    requires Chained(l) && l.log != [] && l.log[|l.log| - 1].request.nextCommand == 0 && |l.out| < 0x1_0000_0000
    requires forall e :: e in l.log ==> Matches(env, e)
    ensures Follow(l.out, 0).Some? && |Follow(l.out, 0).value| == |l.log|
    ensures Follow(l.out, 0).value[|l.log| - 1].header.nextCommand == 0
    ensures forall i :: 0 <= i < |l.log| ==> Mirrors(Follow(l.out, 0).value[i], l.log[i].request, l.log[i].status)
  {
    hide Follow, Linkage, AllJoined, Emit, PaddedSize;
    var rs, n := Replies(l.log), |l.log|;
    assert Matches(env, l.log[n - 1]);
    forall i | 0 <= i < n - 1
      ensures PaddedSize(rs[i]) < 0x1_0000_0000
    {
      SizesWithin(rs[..n - 1], i);
    }
    FollowFinds(rs, 0);
    forall i | 0 <= i < n
      ensures Mirrors(Linkage(rs, 0)[i], l.log[i].request, l.log[i].status)
    {
      LinkageAt(rs, 0, i);
      assert Matches(env, l.log[i]);
    }
    LinkageAt(rs, 0, n - 1);
  }

  /** The last response of a well-formed compound request carries a signature that verifies, whenever
      its session signs. */
  lemma LastResponseVerifies<S>(env: Handlers<S>, msg: seq<byte>, credit: uint32, state: S)
    requires WellFormed(msg, true)
    ensures
      var l := Run(env, Begin(msg, [], credit, state));
      && l.log != [] && l.prev.Some? && l.prev.value <= |l.out|
      && var e, last := l.log[|l.log| - 1], l.out[l.prev.value..];
      && e.reply.Some? && last == Emit(e.reply.value)
      && var info := env.signing(e.after, e.reply.value.header.sessionId);
      && (info.Some? && (!info.value.encryptRequired || e.request.command in {0x00, 0x01})
          ==> last[48..64] == Signature(info.value.E, last))
  {
    hide Run, Roomy, Framed, AllJoined, Signature, Encode;
    var start := Begin(msg, [], credit, state);
    assert msg[0..] == msg;
    ChainedAtStart(msg, credit, state);
    RunAnswers(env, start);
    var l := Run(env, start);
    var e := l.log[|l.log| - 1];
    assert Matches(env, e);
    var info := env.signing(e.after, e.reply.value.header.sessionId);
    if info.Some? && (!info.value.encryptRequired || e.request.command in {0x00, 0x01}) {
      SignedCarriesSignature(info.value.E, Emit(e.reply.value));
    }
  }
}
