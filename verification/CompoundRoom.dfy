/** Related requests without room for their own file id: the id the loop writes lands in the next request's
    header. Exactly when that matters, for handlers that set the chain's file id as the server does. */
module CompoundRoom {
  import opened Bytes
  import opened Ccm
  import opened Cmac
  import opened FileIds
  import opened Headers
  import opened Compound
  import opened CompoundRuns
  import opened CompoundChain

  const CREATE := 0x05

  /** Only CREATE changes the chain's file id, to one made of its session, its tree and a counter. */
  ghost predicate Faithful<S(!new)>(env: Handlers<S>) {
    forall s, n, sub, h, f :: Hands(env.dispatch(s, n, sub, h, f).fileId, h, f)
  }

  ghost predicate Hands(x: FileId, h: Header, f: FileId) {
    x == f || (h.command == CREATE && Made(x, h.sessionId, h.treeId))
  }

  ghost predicate Made(x: FileId, sess: uint64, tree: uint32) {
    exists k: nat :: x == MakeFileId(sess, tree, k)
  }

  /** The loop answers exactly the requests the client put into the message. */
  ghost predicate Serves<S>(env: Handlers<S>, msg: seq<byte>, credit: uint32, state: S)
    requires Framed(msg)
  {
    Asked(Run(env, Begin(msg, [], credit, state)).log) == Requests(msg)
  }

  // ---------------------------------------------------------------- the condition

  /** An id the chain may carry after CREATEs of these sessions and trees; all zero before any succeeded. */
  ghost predicate Candidate(x: FileId, made: set<(uint64, uint32)>) {
    x == Zeros(16) || exists p :: p in made && Made(x, p.0, p.1)
  }

  /** Writing the id leaves the next request what it is. */
  predicate Untouched(b: seq<byte>, fo: nat, next: nat, x: FileId)
    requires fo + 16 <= |b| && next <= |b|
  {
    Parse(Replace(b, fo, x)[next..]) == Parse(b[next..])
  }

  function Offset(h: Header): nat
    requires FileIdOffset(h.command).Some?
  {
    FileIdOffset(h.command).value
  }

  /** The request has room for its file id, or no id it may be given is seen in the next header. */
  ghost predicate Harmless(b: seq<byte>, h: Header, first: bool, made: set<(uint64, uint32)>) {
    Reach(h, first) <= h.nextCommand || (
      && FileIdOffset(h.command).Some? && Offset(h) + 16 <= |b| && h.nextCommand <= |b|
      && forall x :: Candidate(x, made) ==> Untouched(b, Offset(h), h.nextCommand, x))
  }

  function MadeBy(h: Header, made: set<(uint64, uint32)>): set<(uint64, uint32)> {
    if h.command == CREATE then made + {(h.sessionId, h.treeId)} else made
  }

  /** A condition on the bytes of the message alone, request by request. */
  ghost predicate Sheltered(b: seq<byte>, first: bool, made: set<(uint64, uint32)>)
    requires Framed(b)
    decreases |b|
  {
    var h := Parse(b).value;
    h.nextCommand == 0 || (Harmless(b, h, first, made) && Sheltered(b[h.nextCommand..], false, MadeBy(h, made)))
  }

  lemma FramedNext(b: seq<byte>)
    requires Framed(b) && Parse(b).value.nextCommand != 0
    ensures
      var next := Parse(b).value.nextCommand;
      64 <= next && next + 64 <= |b| && Framed(b[next..]) && Parse(b[next..]).Some?
  {
    hide Parse;
    assert Framed(b[Parse(b).value.nextCommand..]);
  }

  lemma FileIdOffsets(h: Header)
    ensures FileIdOffset(h.command).Some? ==> 72 <= Offset(h) <= 88
  {
  }

  lemma {:induction false} RoomyIsSheltered(b: seq<byte>, first: bool, made: set<(uint64, uint32)>)
    requires Framed(b) && Roomy(b, first)
    ensures Sheltered(b, first, made)
    decreases |b|
  {
    hide Parse;
    var h := Parse(b).value;
    if h.nextCommand != 0 {
      RoomyIsSheltered(b[h.nextCommand..], false, MadeBy(h, made));
    }
  }

  // ---------------------------------------------------------------- messages that read alike

  /** The same first header to the reader, and the same bytes behind it. */
  predicate Alike(b: seq<byte>, c: seq<byte>) {
    |b| == |c| && Parse(b) == Parse(c) && |b| >= 64 && b[64..] == c[64..]
  }

  lemma TailsAgree(b: seq<byte>, c: seq<byte>, k: nat)
    requires Alike(b, c) && 64 <= k <= |b|
    ensures b[k..] == c[k..]
  {
    assert b[64..][k - 64..] == b[k..] && c[64..][k - 64..] == c[k..];
  }

  lemma ReplaceTailsAgree(b: seq<byte>, c: seq<byte>, fo: nat, x: FileId, k: nat)
    requires |b| == |c| && |b| >= 64 && b[64..] == c[64..] && 64 <= fo && fo + 16 <= |b| && 64 <= k <= |b|
    ensures Replace(b, fo, x)[k..] == Replace(c, fo, x)[k..]
  {
    var u, v := Replace(b, fo, x), Replace(c, fo, x);
    assert forall i :: 64 <= i < |b| ==> b[i] == b[64..][i - 64] && c[i] == c[64..][i - 64];
    assert forall i :: 64 <= i < |b| ==> u[i] == v[i];
  }

  lemma AlikeFramed(b: seq<byte>, c: seq<byte>)
    requires Alike(b, c) && Framed(b)
    ensures Framed(c) && Requests(c) == Requests(b)
  {
    hide Parse;
    var h := Parse(b).value;
    if h.nextCommand != 0 {
      TailsAgree(b, c, h.nextCommand);
    }
  }

  lemma AlikeUntouched(b: seq<byte>, c: seq<byte>, fo: nat, next: nat, x: FileId)
    requires Alike(b, c) && 64 <= fo && fo + 16 <= |b| && 64 <= next <= |b|
    ensures Untouched(b, fo, next, x) == Untouched(c, fo, next, x)
  {
    hide Parse, Replace;
    TailsAgree(b, c, next);
    ReplaceTailsAgree(b, c, fo, x, next);
  }

  lemma AlikeHarmless(b: seq<byte>, c: seq<byte>, h: Header, first: bool, made: set<(uint64, uint32)>)
    requires Alike(b, c) && 64 <= h.nextCommand && Harmless(b, h, first, made)
    ensures Harmless(c, h, first, made)
  {
    hide Parse, Alike, Untouched, Candidate, Has;
    if Reach(h, first) > h.nextCommand {
      SameSize(b, c);
      FileIdOffsets(h);
      forall x | Candidate(x, made) ensures Untouched(c, Offset(h), h.nextCommand, x) {
        AlikeUntouched(b, c, Offset(h), h.nextCommand, x);
      }
    }
  }

  lemma SameSize(b: seq<byte>, c: seq<byte>)
    requires Alike(b, c)
    ensures |b| == |c|
  {
  }

  lemma AlikeSheltered(b: seq<byte>, c: seq<byte>, first: bool, made: set<(uint64, uint32)>)
    requires Alike(b, c) && Framed(b) && Framed(c) && Sheltered(b, first, made)
    ensures Sheltered(c, first, made)
  {
    hide Parse, Harmless;
    var h := Parse(b).value;
    if h.nextCommand != 0 {
      FramedNext(b);
      TailsAgree(b, c, h.nextCommand);
      AlikeHarmless(b, c, h, first, made);
    }
  }

  // ---------------------------------------------------------------- one step of the loop

  lemma InheritedBehind(m: seq<byte>, msg: seq<byte>, off: nat, h: Header, first: bool, fileId: FileId, k: nat)
    requires |m| == |msg| && off + 64 <= k <= |msg| && m[off + 64..] == msg[off + 64..]
    ensures Inherited(m, off, h, first, fileId)[k..] == Inherited(msg, off, h, first, fileId)[k..]
  {
    hide Has;
    var u, v := Inherited(m, off, h, first, fileId), Inherited(msg, off, h, first, fileId);
    FileIdOffsets(h);
    assert forall i :: off + 64 <= i < |m| ==> m[i] == m[off + 64..][i - off - 64] && msg[i] == msg[off + 64..][i - off - 64];
    assert forall i :: off + 64 <= i < |m| ==> u[i] == v[i];
  }

  /** Any handlers: the request is logged, the loop moves on, behind the header only the file id was
      written, and the chain's file id is what it was or what the handler made it. */
  lemma PlainStep<S>(env: Handlers<S>, l: Loop<S>)
    requires Ready(l) && PrevInside(l) && Parse(l.msg[l.off..]).value.command != CHANGE_NOTIFY
    ensures
      var r, h := Step(env, l), Parse(l.msg[l.off..]).value;
      && |r.log| == |l.log| + 1 && r.log[..|l.log|] == l.log && r.log[|l.log|].request == h && !r.first && |r.msg| == |l.msg|
      && r.stop == (h.nextCommand == 0) && (h.nextCommand != 0 ==> r.off == l.off + h.nextCommand)
      && (forall k :: l.off + 64 <= k <= |l.msg| ==> r.msg[k..] == Inherited(l.msg, l.off, h, l.first, l.fileId)[k..])
  {
    hide Respond, Parse, Verified, Inherited, Charged, Matches;
    var h := Parse(l.msg[l.off..]).value;
    var arrival := Arriving(l, h);
    var a := Admit(env, l, h);
    RespondAppends(env, a, h, arrival);
    RespondMatches(env, a, h, arrival);
    var m := Verified(env.signing(l.state, h.sessionId), l.msg, l.off, h).0;
    VerifiedBehind(env.signing(l.state, h.sessionId), l.msg, l.off, h);
    forall k | l.off + 64 <= k <= |l.msg| ensures a.msg[k..] == Inherited(l.msg, l.off, h, l.first, l.fileId)[k..] {
      InheritedBehind(m, l.msg, l.off, h, l.first, l.fileId, k);
    }
  }

  lemma RespondHands<S(!new)>(env: Handlers<S>, l: Loop<S>, h: Header, arrival: Arrival)
    requires l.off + 64 <= |l.msg| && PrevInside(l) && Faithful(env)
    ensures Hands(Respond(env, l, h, arrival).fileId, h, l.fileId)
  {
    hide Finished, ReplyHeader, Emit, LinkPrevious, Grant, Replace, Failing, Hands;
    var out := LinkPrevious(l.out, l.prev);
    Keeps(h, l.fileId);
    assert Hands(env.dispatch(l.state, |out| + 64, l.msg[l.off..], h, l.fileId).fileId, h, l.fileId);
  }

  lemma Keeps(h: Header, f: FileId)
    ensures Hands(f, h, f)
  {
  }

  lemma StepHands<S(!new)>(env: Handlers<S>, l: Loop<S>)
    requires Ready(l) && PrevInside(l) && Faithful(env) && Parse(l.msg[l.off..]).value.command != CHANGE_NOTIFY
    ensures Hands(Step(env, l).fileId, Parse(l.msg[l.off..]).value, l.fileId)
  {
    hide Respond, Parse, Verified, Inherited, Charged, Hands, Faithful;
    var h := Parse(l.msg[l.off..]).value;
    RespondHands(env, Admit(env, l, h), h, Arriving(l, h));
  }

  lemma HandedIsCandidate(x: FileId, h: Header, f: FileId, made: set<(uint64, uint32)>)
    requires Hands(x, h, f) && Candidate(f, made)
    ensures Candidate(x, MadeBy(h, made))
  {
    hide Made;
    if x != f {
      assert (h.sessionId, h.treeId) in MadeBy(h, made);
    } else if x != Zeros(16) {
      var p :| p in made && Made(x, p.0, p.1);
      assert p in MadeBy(h, made);
    }
  }

  /** Behind a request, the message reads as it came or as the id left it. */
  lemma NextReads(msg: seq<byte>, off: nat, h: Header, first: bool, x: FileId)
    requires off <= |msg| && Framed(msg[off..]) && h == Parse(msg[off..]).value && h.nextCommand != 0
    ensures
      var b, next := msg[off..], h.nextCommand;
      var tail := Inherited(msg, off, h, first, x)[off + next..];
      && (Reach(h, first) <= next ==> tail == b[next..])
      && (Reach(h, first) > next ==> FileIdOffset(h.command).Some? && Offset(h) + 16 <= |b| && tail == Replace(b, Offset(h), x)[next..])
      && |tail| == |b| - next >= 64 && tail[64..] == b[next..][64..]
  {
    hide Parse, Has, Framed;
    var b, next := msg[off..], h.nextCommand;
    FramedNext(b);
    FileIdOffsets(h);
    if Reach(h, first) <= next {
      InheritedFrame(msg, off, h, first, x, off + next);
    } else {
      assert Inherited(msg, off, h, first, x) == Replace(msg, off + Offset(h), x);
      ReplaceBehind(msg, off, Offset(h), x, next);
      ReplaceFrame(b, Offset(h), x, next + 64);
      assert Replace(b, Offset(h), x)[next..][64..] == Replace(b, Offset(h), x)[next + 64..];
    }
    assert b[next..][64..] == b[next + 64..];
  }

  lemma ReplaceBehind(m: seq<byte>, off: nat, fo: nat, x: FileId, next: nat)
    requires off + fo + 16 <= |m| && off + next <= |m|
    ensures Replace(m, off + fo, x)[off + next..] == Replace(m[off..], fo, x)[next..]
  {
  }

  // ---------------------------------------------------------------- served

  lemma StepServed<S(!new)>(env: Handlers<S>, l: Loop<S>, made: set<(uint64, uint32)>)
    requires PrevInside(l) && !l.stop && l.off <= |l.msg| && Faithful(env) && Candidate(l.fileId, made)
    requires Framed(l.msg[l.off..]) && Sheltered(l.msg[l.off..], l.first, made)
    ensures Ready(l)
    ensures
      var r, b := Step(env, l), l.msg[l.off..];
      var h := Parse(b).value;
      && |r.log| == |l.log| + 1 && r.log[..|l.log|] == l.log && r.log[|l.log|].request == h && !r.first
      && r.stop == (h.nextCommand == 0)
      && (h.nextCommand != 0 ==>
            && r.off <= |r.msg| && r.off > l.off && |r.msg| == |l.msg| && Framed(r.msg[r.off..]) && Requests(b) == [h] + Requests(r.msg[r.off..])
            && Candidate(r.fileId, MadeBy(h, made)) && Sheltered(r.msg[r.off..], false, MadeBy(h, made)))
  {
    hide Step, Parse, PrevInside, Candidate, Hands, Faithful, Replace, Has, Inherited, Reach;
    var b := l.msg[l.off..];
    var h := Parse(b).value;
    assert Ready(l);
    PlainStep(env, l);
    StepHands(env, l);
    var r, next := Step(env, l), h.nextCommand;
    if next != 0 {
      FramedNext(b);
      HandedIsCandidate(r.fileId, h, l.fileId, made);
      NextReads(l.msg, l.off, h, l.first, l.fileId);
      assert Alike(b[next..], r.msg[r.off..]);
      AlikeFramed(b[next..], r.msg[r.off..]);
      AlikeSheltered(b[next..], r.msg[r.off..], false, MadeBy(h, made));
    }
  }

  lemma {:induction false} ShelteredIsServed<S(!new)>(env: Handlers<S>, l: Loop<S>, made: set<(uint64, uint32)>)
    requires PrevInside(l) && !l.stop && l.off <= |l.msg| && Faithful(env) && Candidate(l.fileId, made)
    requires Framed(l.msg[l.off..]) && Sheltered(l.msg[l.off..], l.first, made)
    ensures Asked(Run(env, l).log) == Asked(l.log) + Requests(l.msg[l.off..])
    decreases |l.msg| - l.off
  {
    hide Step, Parse, PrevInside, Candidate, Faithful, Sheltered, Run;
    var b := l.msg[l.off..];
    var h := Parse(b).value;
    StepServed(env, l, made);
    RunGoesOn(env, l);
    var r := Step(env, l);
    AskedGrows(l.log, r.log);
    if h.nextCommand == 0 {
      RunStopped(env, r);
    } else {
      ShelteredIsServed(env, r, MadeBy(h, made));
      assert Asked(l.log) + [h] + Requests(r.msg[r.off..]) == Asked(l.log) + Requests(b);
    }
  }

  // ---------------------------------------------------------------- led astray

  /** Where the chain's file id comes from: nowhere, or a CREATE of this session and tree. */
  datatype Source = Never | From(sess: uint64, tree: uint32, counter: nat)

  /** Handlers that always succeed and hand on that file id. */
  function Handing(src: Source): Handlers<()> {
    Handlers((s, n, sub, h: Header, f) => Outcome(s, [], SUCCESS, h.sessionId, h.treeId, Handed(src, h, f), false),
             (s, id) => s,
             (s, sess, tree) => None,
             (s, sub, h) => (s, 0),
             (s, id) => None,
             1)
  }

  function Handed(src: Source, h: Header, f: FileId): FileId {
    if src.From? && h.command == CREATE && h.sessionId == src.sess && h.treeId == src.tree
    then MakeFileId(src.sess, src.tree, src.counter)
    else f
  }

  lemma HandingIsFaithful(src: Source)
    ensures Faithful(Handing(src))
  {
    hide MakeFileId;
    var env := Handing(src);
    forall s: (), n: nat, sub: seq<byte>, h: Header, f: FileId ensures Hands(env.dispatch(s, n, sub, h, f).fileId, h, f) {
      assert env.dispatch(s, n, sub, h, f).fileId == Handed(src, h, f);
      if Handed(src, h, f) != f {
        assert Made(Handed(src, h, f), h.sessionId, h.treeId);
      }
    }
  }

  /** What the chain carries after these CREATEs. */
  function Carried(src: Source, made: set<(uint64, uint32)>): FileId {
    if src.From? && (src.sess, src.tree) in made then MakeFileId(src.sess, src.tree, src.counter) else Zeros(16)
  }

  /** The carried id is harmless up to some request and then shows in the next header. */
  ghost predicate Spoils(b: seq<byte>, first: bool, made: set<(uint64, uint32)>, src: Source)
    requires Framed(b)
    decreases |b|
  {
    var h := Parse(b).value;
    && h.nextCommand != 0
    && (Shows(b, h, first, Carried(src, made)) || Spoils(b[h.nextCommand..], false, MadeBy(h, made), src))
  }

  predicate Shows(b: seq<byte>, h: Header, first: bool, x: FileId) {
    && Reach(h, first) > h.nextCommand && FileIdOffset(h.command).Some? && Offset(h) + 16 <= |b| && h.nextCommand <= |b|
    && !Untouched(b, Offset(h), h.nextCommand, x)
  }

  lemma RoomForId(b: seq<byte>, h: Header, first: bool)
    requires Framed(b) && h == Parse(b).value && h.nextCommand != 0 && Reach(h, first) > h.nextCommand
    ensures FileIdOffset(h.command).Some? && Offset(h) + 16 <= |b| && h.nextCommand <= |b|
  {
    hide Parse, Has;
    FramedNext(b);
    FileIdOffsets(h);
  }

  lemma {:induction false} FindSource(b: seq<byte>, first: bool, made: set<(uint64, uint32)>) returns (src: Source)
    requires Framed(b) && !Sheltered(b, first, made)
    ensures Spoils(b, first, made, src)
    decreases |b|
  {
    hide Parse, MakeFileId, Untouched, Reach;
    var h := Parse(b).value;
    if !Harmless(b, h, first, made) {
      RoomForId(b, h, first);
      var x :| Candidate(x, made) && !Untouched(b, Offset(h), h.nextCommand, x);
      if x == Zeros(16) {
        src := Never;
      } else {
        var p :| p in made && Made(x, p.0, p.1);
        var k: nat :| x == MakeFileId(p.0, p.1, k);
        src := From(p.0, p.1, k);
        assert (src.sess, src.tree) == p;
      }
    } else {
      src := FindSource(b[h.nextCommand..], false, MadeBy(h, made));
    }
  }

  lemma AlikeSpoils(b: seq<byte>, c: seq<byte>, first: bool, made: set<(uint64, uint32)>, src: Source)
    requires Alike(b, c) && Framed(b) && Framed(c) && Spoils(b, first, made, src)
    ensures Spoils(c, first, made, src)
  {
    hide Parse, Untouched, Carried, Reach;
    var h := Parse(b).value;
    FramedNext(b);
    TailsAgree(b, c, h.nextCommand);
    if Shows(b, h, first, Carried(src, made)) {
      FileIdOffsets(h);
      AlikeUntouched(b, c, Offset(h), h.nextCommand, Carried(src, made));
    }
  }

  lemma HandingCarries(src: Source, l: Loop<()>, made: set<(uint64, uint32)>)
    requires Ready(l) && PrevInside(l) && !l.failed && l.fileId == Carried(src, made)
    requires Parse(l.msg[l.off..]).value.command != CHANGE_NOTIFY
    ensures
      var r := Step(Handing(src), l);
      !r.failed && r.fileId == Carried(src, MadeBy(Parse(l.msg[l.off..]).value, made))
  {
    hide Parse, Inherited, LinkPrevious, Emit, Finished, ReplyHeader, Grant, MakeFileId;
  }

  lemma RequestsFront(b: seq<byte>)
    requires Framed(b)
    ensures Requests(b) != [] && Requests(b)[0] == Parse(b).value
  {
  }

  lemma StepRequest<S>(env: Handlers<S>, l: Loop<S>)
    requires Ready(l) && PrevInside(l)
    ensures
      var r := Step(env, l);
      |r.log| == |l.log| + 1 && r.log[|l.log|].request == Parse(l.msg[l.off..]).value
  {
    hide Step;
    StepHandsOn(env, l);
  }

  /** Once a header reads otherwise, what is answered is not what was asked. */
  lemma AnswersAnother(env: Handlers<()>, l: Loop<()>, r: Loop<()>, wanted: seq<byte>)
    requires PrevInside(r) && !r.stop && r.off <= |r.msg| && |r.log| == |l.log| + 1
    requires Framed(wanted) && Parse(r.msg[r.off..]) != Parse(wanted)
    ensures forall h: Header :: Asked(Run(env, r).log) != Asked(l.log) + [h] + Requests(wanted)
  {
    hide Step, Parse, PrevInside, Run;
    RequestsFront(wanted);
    var n := |l.log|;
    if Ready(r) {
      RunGoesOn(env, r);
      var q := Step(env, r);
      StepRequest(env, r);
      RunKeepsLog(env, q);
      assert Run(env, q).log[n + 1] == Run(env, q).log[..|q.log|][n + 1] == q.log[n + 1];
      assert forall h: Header :: (Asked(l.log) + [h] + Requests(wanted))[n + 1] == Parse(wanted).value;
      assert Asked(Run(env, r).log)[n + 1] == Parse(r.msg[r.off..]).value;
    } else {
      RunStops(env, r);
      assert forall h: Header :: |Asked(l.log) + [h] + Requests(wanted)| > n + 1;
    }
  }

  lemma {:induction false} Strays(src: Source, l: Loop<()>, made: set<(uint64, uint32)>)
    requires PrevInside(l) && !l.failed && !l.stop && l.off <= |l.msg| && l.fileId == Carried(src, made)
    requires Framed(l.msg[l.off..]) && Spoils(l.msg[l.off..], l.first, made, src)
    ensures Asked(Run(Handing(src), l).log) != Asked(l.log) + Requests(l.msg[l.off..])
    decreases |l.msg| - l.off
  {
    hide Step, Parse, PrevInside, Run, Carried, Inherited, Untouched, Handing, Replace, Has;
    var env, b := Handing(src), l.msg[l.off..];
    var h := Parse(b).value;
    FramedNext(b);
    assert Ready(l);
    PlainStep(env, l);
    HandingCarries(src, l, made);
    RunGoesOn(env, l);
    var r, next := Step(env, l), h.nextCommand;
    NextReads(l.msg, l.off, h, l.first, l.fileId);
    assert Requests(b) == [h] + Requests(b[next..]);
    assert Asked(l.log) + Requests(b) == Asked(l.log) + [h] + Requests(b[next..]);
    if Shows(b, h, l.first, Carried(src, made)) {
      ShownIsRead(b, Offset(h), next, l.fileId);
      AnswersAnother(env, l, r, b[next..]);
    } else if Parse(r.msg[r.off..]) != Parse(b[next..]) {
      AnswersAnother(env, l, r, b[next..]);
    } else {
      assert Alike(b[next..], r.msg[r.off..]);
      AlikeFramed(b[next..], r.msg[r.off..]);
      AlikeSpoils(b[next..], r.msg[r.off..], false, MadeBy(h, made), src);
      AskedGrows(l.log, r.log);
      Strays(src, r, MadeBy(h, made));
    }
  }

  lemma ShownIsRead(b: seq<byte>, fo: nat, next: nat, x: FileId)
    requires fo + 16 <= |b| && next <= |b| && !Untouched(b, fo, next, x)
    ensures Parse(Replace(b, fo, x)[next..]) != Parse(b[next..])
  {
  }

  /** The exact condition, for every chain of requests that each hold a header: under all handlers that set
      the file id as the server does, the loop answers the requests as written, if and only if every
      related request has room for its file id or cannot be given one that shows in the next header. */
  lemma ServesIffSheltered(msg: seq<byte>)
    requires Framed(msg)
    ensures (forall env: Handlers<()>, credit: uint32 | Faithful(env) :: Serves(env, msg, credit, ())) <==> Sheltered(msg, true, {})
  {
    hide Run, Parse, Framed, Sheltered, Asked, Requests, Spoils, Faithful, Handing, Candidate;
    assert msg[0..] == msg;
    AskedNothing<()>();
    assert [] + Requests(msg) == Requests(msg);
    if Sheltered(msg, true, {}) {
      forall env: Handlers<()>, credit: uint32 | Faithful(env)
        ensures Serves(env, msg, credit, ())
      {
        ZeroAlways({});
        ShelteredIsServed(env, Begin(msg, [], credit, ()), {});
      }
    } else {
      var src := FindSource(msg, true, {});
      HandingIsFaithful(src);
      Strays(src, Begin(msg, [], 1, ()), {});
      assert !Serves(Handing(src), msg, 1, ());
    }
  }

  lemma AskedNothing<S>()
    ensures Asked<S>([]) == []
  {
  }

  /** What it takes to do without room: the next request begins at least four bytes before the id, and reads
      zero where the id goes, its command or its message id. */
  lemma RoomOrBlank(b: seq<byte>, h: Header, first: bool, made: set<(uint64, uint32)>)
    requires Framed(b) && h == Parse(b).value && h.nextCommand != 0 && Harmless(b, h, first, made) && Reach(h, first) > h.nextCommand
    ensures
      && Parse(b[h.nextCommand..]).Some?
      && var lo, next := Offset(h) - h.nextCommand, Parse(b[h.nextCommand..]).value;
      4 <= lo <= 24 && (lo <= 12 ==> next.command == 0) && (lo >= 16 ==> next.messageId == 0)
  {
    hide Candidate, Has, Framed;
    RoomForId(b, h, first);
    FramedNext(b);
    FileIdOffsets(h);
    assert Candidate(Zeros(16), made) by { ZeroAlways(made); }
    BlankWhereWritten(b, Offset(h), h.nextCommand);
  }

  lemma ZeroAlways(made: set<(uint64, uint32)>)
    ensures Candidate(Zeros(16), made)
  {
  }

  lemma BlankWhereWritten(b: seq<byte>, fo: nat, next: nat)
    requires 64 <= next < fo + 16 && fo <= 88 && next + 64 <= |b| && fo + 16 <= |b|
    requires Parse(b[next..]).Some? && Untouched(b, fo, next, Zeros(16))
    ensures
      var lo, h := fo - next, Parse(b[next..]).value;
      4 <= lo <= 24 && (lo <= 12 ==> h.command == 0) && (lo >= 16 ==> h.messageId == 0)
  {
    hide Has, UnLE;
    var u, lo := Replace(b, fo, Zeros(16))[next..], fo - next;
    assert forall i :: 0 <= i < |u| && lo <= i < lo + 16 ==> u[i] == 0;
    ProtocolShows(u);
    if lo <= 12 { ZeroField(u, 12, 2); }
    if lo >= 16 { ZeroField(u, 24, 8); }
  }

  lemma ProtocolShows(u: seq<byte>)
    requires Parse(u).Some?
    ensures u[0] != 0 && u[1] != 0 && u[2] != 0 && u[3] != 0
  {
    assert u[0..4] == PROTOCOL_ID;
    assert u[0] == u[0..4][0] && u[1] == u[0..4][1] && u[2] == u[0..4][2] && u[3] == u[0..4][3];
  }

  lemma {:induction false} ZeroField(u: seq<byte>, off: nat, n: nat)
    requires off + n <= |u| && forall i :: off <= i < off + n ==> u[i] == 0
    ensures Field(u, off, n) == 0
    decreases n
  {
    if n > 0 {
      ZeroField(u, off + 1, n - 1);
      assert u[off..off + n][1..] == u[off + 1..off + 1 + (n - 1)];
    }
  }

  // ---------------------------------------------------------------- a message led astray

  function Plain(command: uint16, flags: uint32, next: uint32): Header {
    Header(0, 0, command, 0, flags, next, 0, 0, 0, 0, Zeros(16))
  }

  lemma {:induction false} ZeroLE(n: nat)
    ensures LE(0, n) == Zeros(n)
  {
    if n > 0 {
      ZeroLE(n - 1);
      assert [0] + Zeros(n - 1) == Zeros(n);
    }
  }

  /** Sixteen zero bytes from the status field on make a plain request a NEGOTIATE. */
  lemma ZeroesMakeNegotiate(command: uint16)
    ensures Replace(Encode(Plain(command, 0, 0)), 8, Zeros(16)) == Encode(Plain(NEGOTIATE, 0, 0))
  {
    hide LE, Ids;
    var h, g := Plain(command, 0, 0), Plain(NEGOTIATE, 0, 0);
    ZeroLE(4);
    ZeroLE(2);
    SameIds(h, g);
    var back := Ids(h) + LE(0, 8) + Zeros(16);
    var head := PROTOCOL_ID + LE(64, 2) + LE(0, 2);
    assert FrontHalf(g) == head + Zeros(16) + LE(0, 8);
    assert FrontHalf(h)[..8] == head && FrontHalf(h)[24..] == LE(0, 8);
    assert Encode(h) == FrontHalf(h) + back && Encode(g) == FrontHalf(g) + back;
    assert Encode(h)[..8] == head && Encode(h)[24..] == LE(0, 8) + back;
  }

  lemma SameIds(h: Header, g: Header)
    requires g.flags == h.flags && g.asyncId == h.asyncId && g.treeId == h.treeId
    ensures Ids(g) == Ids(h)
  {
  }

  const ECHO_FIRST := Plain(ECHO, 0, 64)
  const SHORT_CLOSE := Plain(CLOSE, RELATED_OPS, 64)
  const ECHO_LAST := Plain(ECHO, 0, 0)

  lemma ExampleReads()
    ensures
      var msg := Encode(ECHO_FIRST) + Encode(SHORT_CLOSE) + Encode(ECHO_LAST);
      && Parse(msg) == Some(ECHO_FIRST) && Parse(msg[64..]) == Some(SHORT_CLOSE) && Parse(msg[128..]) == Some(ECHO_LAST)
      && Parse(Encode(Plain(NEGOTIATE, 0, 0))) == Some(Plain(NEGOTIATE, 0, 0))
      && Framed(msg) && Framed(msg[64..]) && Framed(msg[128..]) && Requests(msg) == [ECHO_FIRST, SHORT_CLOSE, ECHO_LAST]
  {
    hide Encode, Parse;
    var msg := Encode(ECHO_FIRST) + Encode(SHORT_CLOSE) + Encode(ECHO_LAST);
    ParseEncode(ECHO_FIRST, Encode(SHORT_CLOSE) + Encode(ECHO_LAST));
    ParseEncode(SHORT_CLOSE, Encode(ECHO_LAST));
    ParseEncode(ECHO_LAST, []);
    ParseEncode(Plain(NEGOTIATE, 0, 0), []);
    NotAsync();
    assert msg == Encode(ECHO_FIRST) + (Encode(SHORT_CLOSE) + Encode(ECHO_LAST)) && msg[64..] == Encode(SHORT_CLOSE) + Encode(ECHO_LAST);
    assert msg[128..] == Encode(ECHO_LAST) == Encode(ECHO_LAST) + [];
    assert Encode(Plain(NEGOTIATE, 0, 0)) + [] == Encode(Plain(NEGOTIATE, 0, 0));
    assert msg[64..][64..] == msg[128..];
    assert Framed(msg[128..]) && Requests(msg[128..]) == [ECHO_LAST];
    assert Framed(msg[64..]) && Requests(msg[64..]) == [SHORT_CLOSE] + [ECHO_LAST];
    assert Framed(msg) && Requests(msg) == [ECHO_FIRST] + ([SHORT_CLOSE] + [ECHO_LAST]);
  }

  lemma NotAsync()
    ensures Travelling(ECHO_FIRST) == ECHO_FIRST && Travelling(SHORT_CLOSE) == SHORT_CLOSE && Travelling(ECHO_LAST) == ECHO_LAST && Travelling(Plain(NEGOTIATE, 0, 0)) == Plain(NEGOTIATE, 0, 0)
    ensures Has(SHORT_CLOSE.flags, RELATED_OPS)
  {
  }

  /** The second request writes the all-zero id over the third. */
  lemma SecondRewritesThird()
    ensures
      var msg := Encode(ECHO_FIRST) + Encode(SHORT_CLOSE) + Encode(ECHO_LAST);
      |msg| == 192 && Inherited(msg, 64, SHORT_CLOSE, false, Zeros(16))[128..] == Encode(Plain(NEGOTIATE, 0, 0))
  {
    hide Encode, Has;
    NotAsync();
    var msg := Encode(ECHO_FIRST) + Encode(SHORT_CLOSE) + Encode(ECHO_LAST);
    ZeroesMakeNegotiate(ECHO);
    assert Inherited(msg, 64, SHORT_CLOSE, false, Zeros(16)) == Replace(msg, 136, Zeros(16));
    assert msg[128..] == Encode(ECHO_LAST);
    ReplaceBehind(msg, 128, 8, Zeros(16), 0);
    assert msg[128..][0..] == msg[128..];
  }

  lemma ZeroStays<S(!new)>(env: Handlers<S>, l: Loop<S>)
    requires Ready(l) && PrevInside(l) && Faithful(env) && l.fileId == Zeros(16)
    requires var h := Parse(l.msg[l.off..]).value; h.command != CHANGE_NOTIFY && h.command != CREATE
    ensures Step(env, l).fileId == Zeros(16)
  {
    hide Step, Parse, Faithful;
    StepHands(env, l);
  }

  /** An ECHO, a related CLOSE of 64 bytes, another ECHO. No CREATE came before, so the chain's file id is all
      zero, and whatever faithful handlers do the last request is answered as a NEGOTIATE. */
  lemma ShortCloseGoesAstray<S(!new)>(env: Handlers<S>, credit: uint32, state: S)
    requires Faithful(env)
    ensures
      var msg := Encode(ECHO_FIRST) + Encode(SHORT_CLOSE) + Encode(ECHO_LAST);
      && Framed(msg) && Requests(msg) == [ECHO_FIRST, SHORT_CLOSE, ECHO_LAST]
      && Asked(Run(env, Begin(msg, [], credit, state)).log) == [ECHO_FIRST, SHORT_CLOSE, Plain(NEGOTIATE, 0, 0)]
  {
    hide Encode, Parse, Step, Run, Faithful, Inherited, Has, Framed, Requests;
    var msg := Encode(ECHO_FIRST) + Encode(SHORT_CLOSE) + Encode(ECHO_LAST);
    ExampleReads();
    SecondRewritesThird();
    var l0 := Begin(msg, [], credit, state);
    assert msg[0..] == msg;
    PlainStep(env, l0);
    ZeroStays(env, l0);
    RunGoesOn(env, l0);
    var l1 := Step(env, l0);
    FirstWritesNothing(msg);
    assert l1.msg[64..] == msg[64..];
    PlainStep(env, l1);
    RunGoesOn(env, l1);
    var l2 := Step(env, l1);
    InheritedBehind(l1.msg, msg, 64, SHORT_CLOSE, false, Zeros(16), 128);
    PlainStep(env, l2);
    RunGoesOn(env, l2);
    var l3 := Step(env, l2);
    RunStopped(env, l3);
    AskedNothing<S>();
    AskedGrows(l0.log, l1.log);
    AskedGrows(l1.log, l2.log);
    AskedGrows(l2.log, l3.log);
  }

  lemma FirstWritesNothing(msg: seq<byte>)
    requires |msg| == 192
    ensures Inherited(msg, 0, ECHO_FIRST, true, Zeros(16)) == msg
  {
  }
}
