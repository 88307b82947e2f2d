/** One received message: a chain of requests walked by NextCommand, each answered by one response,
    the responses chained in turn. The handlers behind the loop are parameters. */
module Compound {
  import opened Bytes
  import opened Ccm
  import opened Cmac
  import opened FileIds
  import opened Headers

  const SUCCESS: uint32 := 0
  const PENDING: uint32 := 0x103
  const MORE_PROCESSING_REQUIRED: uint32 := 0xC000_0016
  const INVALID_HANDLE: uint32 := 0xC000_0008
  const INVALID_PARAMETER: uint32 := 0xC000_000D
  const ACCESS_DENIED: uint32 := 0xC000_0022

  const NEGOTIATE := 0x00
  const SESSION_SETUP := 0x01
  const CLOSE := 0x06
  const FLUSH := 0x07
  const READ := 0x08
  const WRITE := 0x09
  const LOCK := 0x0A
  const IOCTL := 0x0B
  const CANCEL := 0x0C
  const ECHO := 0x0D
  const QUERY_DIRECTORY := 0x0E
  const CHANGE_NOTIFY := 0x0F
  const QUERY_INFO := 0x10
  const SET_INFO := 0x11

  predicate Failing(status: uint32) { status != SUCCESS && status != MORE_PROCESSING_REQUIRED }

  // ---------------------------------------------------------------- the parameters

  /** What a session with a signer asks of its messages. */
  datatype Signing = Signing(E: Cipher, signRequired: bool, encryptRequired: bool)

  /** What a handler does: it appends a body, may set the ids of the response and the file id the
      chain hands on, and may blank the status field of its own request. */
  datatype Outcome<S> = Outcome(state: S, body: seq<byte>, status: uint32, sessionId: uint64, treeId: uint32,
                                fileId: FileId, blanked: bool)

  /** What becomes of a CHANGE_NOTIFY; a panic ends the connection. */
  datatype Notice<S> = Pending(state: S, asyncId: uint64) | Rejected(status: uint32) | Panicked

  /** `S` is everything the handlers keep: sessions, trees, opens, locks, oplocks, pending operations.
      A handler sees how long the output is, its request up to the end of the message, the header
      and the chain's file id. `opens` are the files open on a tree, if there is such a session and tree;
      `watch` registers a pending operation. */
  datatype Handlers<!S> = Handlers(
    dispatch: (S, nat, seq<byte>, Header, FileId) -> Outcome<S>,
    cancel: (S, uint64) -> S,
    opens: (S, uint64, uint32) -> Option<set<FileId>>,
    watch: (S, seq<byte>, Header) -> (S, uint64),
    signing: (S, uint64) -> Option<Signing>,
    maxCredits: uint32)

  // ---------------------------------------------------------------- the loop as steps on values

  datatype Response = Response(header: Header, body: seq<byte>)

  function Emit(r: Response): (s: seq<byte>)
    ensures |s| == 64 + |r.body|
  {
    Encode(r.header) + r.body
  }

  /** What a request took from the balance, and its bytes up to the end of the message as it came. */
  datatype Arrival = Arrival(charged: uint32, bytes: seq<byte>)

  /** What happened to one request. `ran` says that a handler got to act, `seen` is the request as
      it stood then, `fileId` what the chain hands on afterwards. */
  datatype Event<S> = Event(request: Header, arrival: Arrival, ran: bool, before: S, after: S, seen: seq<byte>, status: uint32,
                            fileId: FileId, reply: Option<Response>)

  datatype Loop<S> = Loop(
    msg: seq<byte>,
    off: nat,
    first: bool,
    failed: bool,
    status: uint32,
    fileId: FileId,
    prev: Option<nat>,
    out: seq<byte>,
    credit: uint32,
    state: S,
    stop: bool,
    log: seq<Event<S>>)

  function Begin<S>(msg: seq<byte>, out: seq<byte>, credit: uint32, state: S): Loop<S> {
    Loop(msg, 0, true, false, SUCCESS, Zeros(16), None, out, credit, state, false, [])
  }

  predicate Ready<S>(l: Loop<S>) {
    !l.stop && l.off + 64 <= |l.msg| && Parse(l.msg[l.off..]).Some?
  }

  /** The previous response, if any, is whole. */
  predicate PrevInside<S>(l: Loop<S>) { l.prev.Some? ==> l.prev.value + 64 <= |l.out| }

  function Charged(credit: uint32, charge: uint16): uint32 { if credit >= charge then charge else credit }

  function Arriving<S>(l: Loop<S>, h: Header): Arrival
    requires l.off <= |l.msg|
  {
    Arrival(Charged(l.credit, h.creditCharge), l.msg[l.off..])
  }

  function CommandEnd(size: nat, off: nat, h: Header): (end: nat)
    requires off <= size
    ensures off <= end <= size
  {
    if h.nextCommand != 0 && off + h.nextCommand <= size then off + h.nextCommand else size
  }

  function Replace(b: seq<byte>, at: nat, piece: seq<byte>): (r: seq<byte>)
    requires at + |piece| <= |b|
    ensures |r| == |b|
  {
    b[..at] + piece + b[at + |piece|..]
  }

  /** The signature check, which leaves the right signature in the message. */
  function Verified(info: Option<Signing>, msg: seq<byte>, off: nat, h: Header): (r: (seq<byte>, bool))
    requires off <= |msg|
    ensures |r.0| == |msg|
  {
    if info.None? then (msg, false)
    else if Has(h.flags, SIGNED) then
      var cmd := msg[off..CommandEnd(|msg|, off, h)];
      if |cmd| < 64 then (msg, true)
      else (Replace(msg, off, Signed(info.value.E, cmd)), cmd[48..64] != Signature(info.value.E, cmd))
    else (msg, info.value.signRequired)
  }

  /** The signature check writes within the header it checks. */
  lemma VerifiedBehind(info: Option<Signing>, msg: seq<byte>, off: nat, h: Header)
    requires off + 64 <= |msg|
    ensures Verified(info, msg, off, h).0[off + 64..] == msg[off + 64..]
  {
    hide Has, Signature;
    var end := CommandEnd(|msg|, off, h);
    var cmd := msg[off..end];
    if info.Some? && Has(h.flags, SIGNED) && |cmd| >= 64 {
      var s := Signed(info.value.E, cmd);
      assert s[64..] == cmd[64..];
      assert Replace(msg, off, s)[off + 64..] == s[64..] + msg[end..];
      assert msg[off + 64..] == cmd[64..] + msg[end..];
    }
  }

  function FileIdOffset(command: uint16): Option<nat> {
    if command == CLOSE || command == FLUSH || command == QUERY_DIRECTORY || command == LOCK || command == IOCTL then Some(72)
    else if command == READ || command == WRITE || command == SET_INFO then Some(80)
    else if command == QUERY_INFO then Some(88)
    else None
  }

  /** A related request takes over the chain's file id. */
  function Inherited(msg: seq<byte>, off: nat, h: Header, first: bool, fileId: FileId): (r: seq<byte>)
    requires off <= |msg|
    ensures |r| == |msg|
  {
    var fo := FileIdOffset(h.command);
    if Has(h.flags, RELATED_OPS) && !first && fo.Some? && off + fo.value + 16 <= |msg|
    then Replace(msg, off + fo.value, fileId)
    else msg
  }

  /** Charge, check and file id: what every request goes through first. */
  function Admit<S>(env: Handlers<S>, l: Loop<S>, h: Header): (r: Loop<S>)
    requires l.off <= |l.msg|
    ensures |r.msg| == |l.msg|
    ensures r == l.(msg := r.msg, failed := r.failed, status := r.status, credit := r.credit)
  {
    var (msg, refused) := Verified(env.signing(l.state, h.sessionId), l.msg, l.off, h);
    l.(credit := l.credit - Charged(l.credit, h.creditCharge),
       failed := l.failed || refused,
       status := if refused then ACCESS_DENIED else l.status,
       msg := Inherited(msg, l.off, h, l.first, l.fileId))
  }

  /** Pads the output and links the previous response to the one about to start. */
  function LinkPrevious(out: seq<byte>, prev: Option<nat>): (r: seq<byte>)
    requires prev.Some? ==> prev.value + 64 <= |out|
    ensures |r| >= |out|
  {
    if prev.None? then out
    else
      var padded := out + Zeros(Padding(|out|));
      PutField(padded, prev.value + 20, 4, (|padded| - prev.value) % 0x1_0000_0000)
  }

  function Execute<S>(env: Handlers<S>, l: Loop<S>, start: nat, h: Header): Outcome<S>
    requires l.off <= |l.msg|
  {
    if l.failed then Outcome(l.state, [], l.status, h.sessionId, h.treeId, l.fileId, false)
    else if h.command == CANCEL then
      Outcome(env.cancel(l.state, h.asyncId), [4, 0, 0, 0], SUCCESS, h.sessionId, h.treeId, l.fileId, false)
    else env.dispatch(l.state, start + 64, l.msg[l.off..], h, l.fileId)
  }

  /** 32-bit subtraction. */
  function Grant(maxCredits: uint32, credit: uint32): uint32 { (maxCredits - credit) % 0x1_0000_0000 }

  function ReplyFlags(flags: uint32, first: bool): uint32 {
    var f := SetFlag(flags, SERVER_TO_REDIR);
    ClearFlag(if first then f else SetFlag(f, RELATED_OPS), ASYNC_COMMAND)
  }

  lemma ReplyFlagsRight(flags: uint32, first: bool)
    ensures
      var f := ReplyFlags(flags, first);
      Has(f, SERVER_TO_REDIR) && !Has(f, ASYNC_COMMAND) && Has(SetFlag(f, SIGNED), SERVER_TO_REDIR) && !Has(SetFlag(f, SIGNED), ASYNC_COMMAND)
    ensures
      var f := ReplyFlags(flags, first);
      Has(f, RELATED_OPS) == Has(SetFlag(f, SIGNED), RELATED_OPS) == (!first || Has(flags, RELATED_OPS))
  {
    hide Has, SetFlag, ClearFlag;
    RelatedStays(flags, first);
    var f := SetFlag(flags, SERVER_TO_REDIR);
    FlagChanges(flags, SERVER_TO_REDIR, SERVER_TO_REDIR);
    FlagChanges(f, RELATED_OPS, SERVER_TO_REDIR);
    var g := if first then f else SetFlag(f, RELATED_OPS);
    FlagChanges(g, ASYNC_COMMAND, SERVER_TO_REDIR);
    FlagChanges(g, ASYNC_COMMAND, ASYNC_COMMAND);
    FlagChanges(ReplyFlags(flags, first), SIGNED, SERVER_TO_REDIR);
    FlagChanges(ReplyFlags(flags, first), SIGNED, ASYNC_COMMAND);
  }

  lemma RelatedStays(flags: uint32, first: bool)
    ensures
      var f := ReplyFlags(flags, first);
      Has(f, RELATED_OPS) == Has(SetFlag(f, SIGNED), RELATED_OPS) == (!first || Has(flags, RELATED_OPS))
  {
    hide Has, SetFlag, ClearFlag;
    var f := SetFlag(flags, SERVER_TO_REDIR);
    FlagChanges(flags, SERVER_TO_REDIR, RELATED_OPS);
    FlagChanges(f, RELATED_OPS, RELATED_OPS);
    var g := if first then f else SetFlag(f, RELATED_OPS);
    FlagChanges(g, ASYNC_COMMAND, RELATED_OPS);
    FlagChanges(ReplyFlags(flags, first), SIGNED, RELATED_OPS);
  }

  function ReplyHeader<S>(h: Header, o: Outcome<S>, grant: uint32, first: bool): Header {
    h.(sessionId := o.sessionId, treeId := o.treeId, status := o.status,
       credit := if grant > 0xFFFF then 0xFFFF else grant, flags := ReplyFlags(h.flags, first))
  }

  predicate Signs(info: Option<Signing>, command: uint16) {
    info.Some? && !(info.value.encryptRequired && command != NEGOTIATE && command != SESSION_SETUP)
  }

  function Finished(info: Option<Signing>, r: Response): Response {
    if !Signs(info, r.header.command) then r
    else
      var marked := r.header.(flags := SetFlag(r.header.flags, SIGNED));
      r.(header := marked.(signature := Signature(info.value.E, Encode(marked) + r.body)))
  }

  function Advance<S>(l: Loop<S>, h: Header): Loop<S> {
    if h.nextCommand == 0 then l.(first := false, stop := true) else l.(first := false, off := l.off + h.nextCommand)
  }

  /** The response to one request, and the state it leaves. */
  function Respond<S>(env: Handlers<S>, l: Loop<S>, h: Header, arrival: Arrival): (r: Loop<S>)
    requires l.off + 64 <= |l.msg| && PrevInside(l)
    ensures r.log != []
  {
    var out := LinkPrevious(l.out, l.prev);
    var o := Execute(env, l, |out|, h);
    var grant := Grant(env.maxCredits, l.credit);
    var r := Finished(env.signing(o.state, o.sessionId), Response(ReplyHeader(h, o, grant, l.first), o.body));
    var event := Event(h, arrival, !l.failed, l.state, o.state, l.msg[l.off..], o.status, o.fileId, Some(r));
    Advance(l.(out := out + Emit(r), prev := Some(|out|), credit := (l.credit + grant) % 0x1_0000_0000, state := o.state,
               fileId := o.fileId, status := o.status, failed := l.failed || Failing(o.status),
               msg := if o.blanked then Replace(l.msg, l.off + 8, Zeros(4)) else l.msg, log := l.log + [event]), h)
  }

  /** The error body of a refused CHANGE_NOTIFY goes out before its header. */
  function Refused<S>(l: Loop<S>, status: uint32): Loop<S> {
    l.(status := status, failed := Failing(status), out := l.out + ERROR_BODY)
  }

  /** STATUS_PENDING under a new async id, with no credit. */
  function Interim(h: Header, asyncId: uint64): Header {
    h.(flags := SERVER_TO_REDIR + ASYNC_COMMAND, status := PENDING, asyncId := asyncId, credit := 0)
  }

  /** A CHANGE_NOTIFY that is long enough looks its file up in a tree that need not be there. */
  function Notify<S>(env: Handlers<S>, state: S, request: seq<byte>, h: Header): Notice<S> {
    if |request| < 96 then Rejected(INVALID_PARAMETER)
    else
      var opens := env.opens(state, h.sessionId, h.treeId);
      if opens.None? then Panicked
      else if request[72..88] !in opens.value then Rejected(INVALID_HANDLE)
      else
        var (state', asyncId) := env.watch(state, request, h);
        Pending(state', asyncId)
  }

  /** The request was refused by its handler, so one was entered. */
  function Entered<S>(l: Loop<S>): Loop<S>
    requires l.log != []
  {
    var last := |l.log| - 1;
    l.(log := l.log[last := l.log[last].(ran := true)])
  }

  function Step<S>(env: Handlers<S>, l: Loop<S>): Loop<S>
    requires Ready(l) && PrevInside(l)
  {
    var h := Parse(l.msg[l.off..]).value;
    var arrival := Arriving(l, h);
    var a := Admit(env, l, h);
    if h.command != CHANGE_NOTIFY || a.failed then Respond(env, a, h, arrival)
    else
      match Notify(env, a.state, a.msg[a.off..], h)
      case Panicked =>
        var event := Event(h, arrival, true, a.state, a.state, a.msg[a.off..], a.status, a.fileId, None);
        a.(stop := true, log := a.log + [event])
      case Pending(state, asyncId) =>
        var event := Event(h, arrival, true, a.state, state, a.msg[a.off..], PENDING, a.fileId, None);
        Advance(a.(state := state, out := a.out + Encode(Interim(h, asyncId)), log := a.log + [event]), h)
      case Rejected(status) =>
        Entered(Respond(env, Refused(a, status), h, arrival))
  }

  lemma RespondShape<S>(env: Handlers<S>, l: Loop<S>, h: Header, arrival: Arrival)
    requires l.off + 64 <= |l.msg| && PrevInside(l)
    ensures
      var r := Respond(env, l, h, arrival);
      PrevInside(r) && |r.msg| == |l.msg| && (r.stop || r.off > l.off) && (h.nextCommand == 0 ==> r.stop)
  {
    hide Execute, Finished, ReplyHeader, Emit, LinkPrevious, Grant, Replace;
  }

  lemma StepShape<S>(env: Handlers<S>, l: Loop<S>)
    requires Ready(l) && PrevInside(l)
    ensures
      var r := Step(env, l);
      && PrevInside(r) && |r.msg| == |l.msg| && (r.stop || r.off > l.off)
      && (Parse(l.msg[l.off..]).value.nextCommand == 0 ==> r.stop)
  {
    hide Respond, Parse, Admit, Encode, Interim, Charged;
    var h := Parse(l.msg[l.off..]).value;
    var arrival := Arriving(l, h);
    var a := Admit(env, l, h);
    RespondShape(env, a, h, arrival);
    match Notify(env, a.state, a.msg[a.off..], h)
    case Rejected(status) => RespondShape(env, Refused(a, status), h, arrival);
    case _ =>
  }

  /** The whole loop. */
  function Run<S>(env: Handlers<S>, l: Loop<S>): Loop<S>
    requires PrevInside(l)
    decreases !l.stop, |l.msg| - l.off
  {
    if Ready(l) then
      StepShape(env, l);
      Run(env, Step(env, l))
    else l
  }

  lemma RunStopped<S>(env: Handlers<S>, l: Loop<S>)
    requires l.stop && PrevInside(l)
    ensures Run(env, l) == l
  {
  }

  // ---------------------------------------------------------------- the loop itself

  /** The signature check of one request, in the buffer. */
  method CheckSignature(info: Option<Signing>, msg: array<byte>, off: nat, hdr: Header) returns (refused: bool)
    requires off <= msg.Length
    modifies msg
    ensures (msg[..], refused) == Verified(info, old(msg[..]), off, hdr)
  {
    hide Has, Signature;
    refused := false;
    if info.Some? {
      if Has(hdr.flags, SIGNED) {
        var end := CommandEnd(msg.Length, off, hdr);
        var cmd := new byte[end - off](i requires off <= off + i < msg.Length reads msg => msg[off + i]);
        assert cmd[..] == msg[..][off..end];
        var signer := new Signer(info.value.E);
        var ok, error := signer.Verify(cmd);
        refused := error || !ok;
        ghost var before := msg[..];
        CopyInto(msg, off, cmd[..]);
        assert msg[..] == Replace(before, off, cmd[..]);
        assert |cmd[..]| < 64 ==> Replace(before, off, before[off..end]) == before;
      } else if info.value.signRequired {
        refused := true;
      }
    }
  }

  method PatchFileId(msg: array<byte>, off: nat, hdr: Header, first: bool, lastFileId: FileId)
    requires off <= msg.Length
    modifies msg
    ensures msg[..] == Inherited(old(msg[..]), off, hdr, first, lastFileId)
  {
    hide Has;
    var related := Has(hdr.flags, RELATED_OPS) && !first;
    if related {
      var fo := FileIdOffset(hdr.command);
      if fo.Some? && off + fo.value + 16 <= msg.Length {
        ghost var before := msg[..];
        CopyInto(msg, off + fo.value, lastFileId);
        assert msg[..] == Replace(before, off + fo.value, lastFileId);
      }
    }
  }

  lemma OnlyPadding(n: nat, k: nat)
    requires k <= Padding(n) && (n + k) % 8 == 0
    ensures k == Padding(n)
  {
  }

  /** Pads to a multiple of eight byte by byte, then patches the previous response. */
  method PadAndLink(out: seq<byte>, prevRespStart: Option<nat>) returns (r: seq<byte>)
    requires prevRespStart.Some? ==> prevRespStart.value + 64 <= |out|
    ensures r == LinkPrevious(out, prevRespStart)
  {
    hide LE;
    r := out;
    if prevRespStart.Some? {
      while |r| % 8 != 0
        invariant |out| <= |r| <= |out| + Padding(|out|)
        invariant r == out + Zeros(|r| - |out|)
        decreases |out| + Padding(|out|) - |r|
      {
        r := r + [0];
      }
      OnlyPadding(|out|, |r| - |out|);
      hide Padding;
      r := PutField(r, prevRespStart.value + 20, 4, (|r| - prevRespStart.value) % 0x1_0000_0000);
    }
  }

  /** Writes the header into its slot in front of the body and signs the response if the session does. */
  method WriteReply(front: seq<byte>, body: seq<byte>, hdr: Header, info: Option<Signing>) returns (out: seq<byte>)
    requires !Has(hdr.flags, ASYNC_COMMAND)
    ensures out == front + Emit(Finished(info, Response(hdr, body)))
  {
    hide Has, SetFlag, Encode, Signature, PutField;
    out := EncodeAt(front + Zeros(64) + body, |front|, hdr);
    assert (front + Zeros(64) + body)[..|front|] == front && (front + Zeros(64) + body)[|front| + 64..] == body;
    if info.Some? {
      var encrypting := info.value.encryptRequired && hdr.command != NEGOTIATE && hdr.command != SESSION_SETUP;
      if !encrypting {
        out := SignReply(out, front, body, hdr, info.value.E, |front|);
      }
    }
  }

  /** Sets the signed flag of the response behind `front` and signs it. */
  method SignReply(out: seq<byte>, ghost front: seq<byte>, ghost body: seq<byte>, hdr: Header, E: Cipher, respStart: nat) returns (r: seq<byte>)
    requires !Has(hdr.flags, ASYNC_COMMAND) && out == front + Encode(hdr) + body && respStart == |front|
    ensures
      var marked := hdr.(flags := SetFlag(hdr.flags, SIGNED));
      r == front + (Encode(marked.(signature := Signature(E, Encode(marked) + body))) + body)
  {
    hide Has, SetFlag, Encode, Signature, PutField;
    var flags := SetFlag(hdr.flags, SIGNED);
    FlagChanges(hdr.flags, SIGNED, ASYNC_COMMAND);
    ghost var marked := hdr.(flags := flags);
    RewriteFlags(hdr, flags);
    PutFieldHere(front, Encode(hdr), body, 16, 4, flags);
    r := PutField(out, respStart + 16, 4, flags);
    var subResp := new byte[|r| - respStart](i requires 0 <= i < |r| - respStart => r[respStart + i]);
    ghost var m := Encode(marked) + body;
    assert subResp[..] == m;
    var signer := new Signer(E);
    var ok := signer.Sign(subResp);
    RewriteSignature(marked, Signature(E, m));
    assert m[..48] == Encode(marked)[..48] && m[64..] == body;
    r := r[..respStart] + subResp[..];
  }

  lemma PutFieldHere(front: seq<byte>, head: seq<byte>, tail: seq<byte>, off: nat, n: nat, v: nat)
    requires off + n <= |head|
    ensures PutField(front + head + tail, |front| + off, n, v) == front + PutField(head, off, n, v) + tail
  {
    hide LE;
    var b := front + head + tail;
    assert b[..|front| + off] == front + head[..off] && b[|front| + off + n..] == head[off + n..] + tail;
  }

  class Connection<S> {
    const env: Handlers<S>
    var creditBalance: uint32
    var out: seq<byte>
    var state: S

    constructor (env: Handlers<S>, state: S)
      ensures this.env == env && creditBalance == 1 && out == [] && this.state == state
    {
      this.env := env;
      creditBalance := 1;
      out := [];
      this.state := state;
    }

    /** Charges, checks the signature and patches the file id. */
    method Receive(msg: array<byte>, hdr: Header, ghost l: Loop<S>, off: nat, first: bool, chainFailed: bool, lastStatus: uint32,
                   lastFileId: FileId, ghost prevRespStart: Option<nat>)
      returns (chainFailed': bool, lastStatus': uint32)
      requires off <= msg.Length
      requires l == Loop(msg[..], off, first, chainFailed, lastStatus, lastFileId, prevRespStart, out, creditBalance, state, false, l.log)
      modifies this`creditBalance, msg
      ensures Admit(env, l, hdr)
           == Loop(msg[..], off, first, chainFailed', lastStatus', lastFileId, prevRespStart, out, creditBalance, state, false, l.log)
    {
      hide Verified, Inherited;
      chainFailed', lastStatus' := chainFailed, lastStatus;
      creditBalance := creditBalance - Charged(creditBalance, hdr.creditCharge);
      var refused := CheckSignature(env.signing(state, hdr.sessionId), msg, off, hdr);
      if refused { chainFailed', lastStatus' := true, ACCESS_DENIED; }
      PatchFileId(msg, off, hdr, first, lastFileId);
    }

    /** Links, executes, grants, writes and signs: one response. */
    method Answer(msg: array<byte>, hdr: Header, ghost l: Loop<S>, off: nat, first: bool, chainFailed: bool, lastStatus: uint32,
                  lastFileId: FileId, prevRespStart: Option<nat>)
      returns (chainFailed': bool, status: uint32, lastFileId': FileId, respStart: nat)
      requires off + 64 <= msg.Length && PrevInside(l)
      requires l == Loop(msg[..], off, first, chainFailed, lastStatus, lastFileId, prevRespStart, out, creditBalance, state, false, l.log)
      modifies this, msg
      ensures forall arrival ::
        var r := Respond(env, l, hdr, arrival);
        && chainFailed' == r.failed && status == r.status && lastFileId' == r.fileId && Some(respStart) == r.prev
        && msg[..] == r.msg && out == r.out && creditBalance == r.credit && state == r.state
    {
      hide Has, Encode, Emit, Finished, ReplyFlags, LinkPrevious, Failing;
      var front := PadAndLink(out, prevRespStart);
      respStart := |front|;
      var o;
      if chainFailed {
        o := Outcome(state, [], lastStatus, hdr.sessionId, hdr.treeId, lastFileId, false);
      } else if hdr.command == CANCEL {
        o := Outcome(env.cancel(state, hdr.asyncId), [4, 0, 0, 0], SUCCESS, hdr.sessionId, hdr.treeId, lastFileId, false);
      } else {
        o := env.dispatch(state, respStart + 64, msg[off..], hdr, lastFileId);
      }
      assert o == Execute(env, l, |front|, hdr);
      state := o.state;
      if o.blanked {
        CopyInto(msg, off + 8, Zeros(4));
        assert msg[..] == Replace(l.msg, off + 8, Zeros(4));
      }
      status := o.status;
      lastFileId' := o.fileId;
      chainFailed' := chainFailed || Failing(status);
      var grant := Grant(env.maxCredits, creditBalance);
      creditBalance := (creditBalance + grant) % 0x1_0000_0000;
      ReplyFlagsRight(hdr.flags, first);
      out := WriteReply(front, o.body, ReplyHeader(hdr, o, grant, first), env.signing(o.state, o.sessionId));
    }

    /** The compound loop, on any bytes. */
    method HandleMessage(msg: array<byte>)
      modifies this, msg
      ensures
        var l := Run(env, Begin(old(msg[..]), old(out), old(creditBalance), old(state)));
        msg[..] == l.msg && out == l.out && creditBalance == l.credit && state == l.state
    {
      hide Run, Respond, Parse, Encode, Admit, Interim, Failing, Charged;
      var off, first, chainFailed, lastStatus := 0, true, false, SUCCESS;
      var lastFileId: FileId := Zeros(16);
      var prevRespStart: Option<nat> := None;
      ghost var start := Begin(msg[..], out, creditBalance, state);
      ghost var l := start;
      while off + 64 <= msg.Length
        invariant l == Loop(msg[..], off, first, chainFailed, lastStatus, lastFileId, prevRespStart, out, creditBalance, state, false, l.log)
        invariant PrevInside(l) && Run(env, l) == Run(env, start)
        decreases msg.Length - off
      {
        var parsed := Parse(msg[off..]);
        assert msg[off..] == l.msg[off..];
        if parsed.None? {
          RunStops(env, l);
          return;
        }
        var hdr := parsed.value;
        RunGoesOn(env, l);
        ghost var next := Step(env, l);
        ghost var a := Admit(env, l, hdr);
        ghost var arrival := Arriving(l, hdr);
        chainFailed, lastStatus := Receive(msg, hdr, l, off, first, chainFailed, lastStatus, lastFileId, prevRespStart);
        if hdr.command == CHANGE_NOTIFY && !chainFailed {
          assert msg[off..] == a.msg[a.off..];
          match Notify(env, state, msg[off..], hdr)
          case Panicked =>
            RunStopped(env, next);
            return;
          case Pending(state', asyncId) =>
            state := state';
            out := out + Encode(Interim(hdr, asyncId));
            first := false;
            l := next;
            if hdr.nextCommand == 0 {
              RunStopped(env, next);
              return;
            }
            off := off + hdr.nextCommand;
            continue;
          case Rejected(status) =>
            out := out + ERROR_BODY;
            lastStatus := status;
            chainFailed := Failing(status);
            a := Refused(a, status);
        }
        var respStart;
        chainFailed, lastStatus, lastFileId, respStart :=
          Answer(msg, hdr, a, off, first, chainFailed, lastStatus, lastFileId, prevRespStart);
        assert next == Respond(env, a, hdr, arrival) || next == Entered(Respond(env, a, hdr, arrival));
        RespondMoves(env, a, hdr, arrival);
        prevRespStart := Some(respStart);
        first := false;
        l := next;
        if hdr.nextCommand == 0 {
          RunStopped(env, next);
          return;
        }
        off := off + hdr.nextCommand;
      }
      RunStops(env, l);
    }
  }

  lemma RunStops<S>(env: Handlers<S>, l: Loop<S>)
    requires !Ready(l) && PrevInside(l)
    ensures Run(env, l) == l
  {
  }

  lemma RunGoesOn<S>(env: Handlers<S>, l: Loop<S>)
    requires Ready(l) && PrevInside(l)
    ensures PrevInside(Step(env, l)) && Run(env, l) == Run(env, Step(env, l))
  {
    hide Step;
    StepShape(env, l);
  }

  lemma RespondMoves<S>(env: Handlers<S>, l: Loop<S>, h: Header, arrival: Arrival)
    requires l.off + 64 <= |l.msg| && PrevInside(l) && !l.stop
    ensures
      var r := Respond(env, l, h, arrival);
      && !r.first && r.stop == (h.nextCommand == 0)
      && r.off == if h.nextCommand == 0 then l.off else l.off + h.nextCommand
  {
    hide Execute, Finished, ReplyHeader, Emit, LinkPrevious, Grant, Replace;
  }
}
