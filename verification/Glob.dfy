/** The greedy wildcard matcher of the in-memory backend, against the meaning of a pattern. The matcher works on
    the bytes of its strings; what that means for characters is the matter of `GlobNames`. */
module Glob {
  import opened Bytes

  /** Bytes, or characters by their code points. */
  type Text = seq<int>

  const STAR := 0x2A
  const ANY := 0x3F

  /** `?` stands for one unit of the text, `*` for any text, anything else for itself. */
  ghost predicate Matches(pattern: Text, name: Text)
    decreases |pattern|
  {
    if pattern == [] then name == []
    else if pattern[0] == STAR then exists k :: 0 <= k <= |name| && Matches(pattern[1..], name[k..])
    else name != [] && Accepts(pattern[0], name[0]) && Matches(pattern[1..], name[1..])
  }

  /** The test of the matcher's first branch; it lets a pattern star take a literal star. */
  predicate Accepts(p: int, c: int) {
    p == ANY || p == c
  }

  predicate AllStars(pattern: Text) {
    forall i :: 0 <= i < |pattern| ==> pattern[i] == STAR
  }

  // ------------------------------------------------------------ the matcher

  /** What the scanning loop answers from a given position; `star` is -1 before any star. */
  predicate Scan(pattern: Text, name: Text, pi: nat, ni: nat, star: int, mark: nat)
    requires pi <= |pattern| && mark <= ni <= |name| && -1 <= star < pi
    decreases |pattern| - star, |name| - mark, |name| - ni
  {
    if ni == |name| then AllStars(pattern[pi..])
    else if pi < |pattern| && Accepts(pattern[pi], name[ni]) then Scan(pattern, name, pi + 1, ni + 1, star, mark)
    else if pi < |pattern| && pattern[pi] == STAR then Scan(pattern, name, pi + 1, ni, pi, ni)
    else if star != -1 then Scan(pattern, name, star + 1, mark + 1, star, mark + 1)
    else false
  }

  method MatchGlob(pattern: seq<byte>, name: seq<byte>) returns (matched: bool)
    ensures matched == Scan(pattern, name, 0, 0, -1, 0)
    ensures matched ==> Matches(pattern, name)
    ensures STAR !in name ==> (matched <==> Matches(pattern, name))
  {
    Sound(pattern, name);
    if STAR !in name { ScanDecides(pattern, name); }
    var pi, ni := 0, 0;
    var star, mark := -1, 0;
    while ni < |name|
      invariant 0 <= pi <= |pattern| && 0 <= mark <= ni <= |name| && -1 <= star < pi
      invariant Scan(pattern, name, pi, ni, star, mark) == Scan(pattern, name, 0, 0, -1, 0)
      decreases |pattern| - star, |name| - mark, |name| - ni
    {
      if pi < |pattern| && (pattern[pi] == ANY || pattern[pi] == name[ni]) {
        pi := pi + 1;
        ni := ni + 1;
      } else if pi < |pattern| && pattern[pi] == STAR {
        star := pi;
        mark := ni;
        pi := pi + 1;
      } else if star != -1 {
        pi := star + 1;
        mark := mark + 1;
        ni := mark;
      } else {
        return false;
      }
    }
    ghost var stop := pi;
    while pi < |pattern| && pattern[pi] == STAR
      invariant stop <= pi <= |pattern|
      invariant forall i :: stop <= i < pi ==> pattern[i] == STAR
    {
      pi := pi + 1;
    }
    assert pi < |pattern| ==> pattern[stop..][pi - stop] != STAR;
    return pi == |pattern|;
  }

  // --------------------------------------------- segments between two stars

  /** `seg` holds no star and takes the characters of `text` one by one. */
  ghost predicate Fits(seg: Text, text: Text) {
    |seg| == |text| && forall i :: 0 <= i < |seg| ==> seg[i] != STAR && Accepts(seg[i], text[i])
  }

  /** A star-free head of a pattern takes exactly as many characters as it is long. */
  lemma {:induction false} SplitHead(seg: Text, rest: Text, name: Text)
    requires STAR !in seg
    ensures Matches(seg + rest, name)
       <==> |seg| <= |name| && Fits(seg, name[..|seg|]) && Matches(rest, name[|seg|..])
  {
    if seg == [] {
      assert seg + rest == rest && name[0..] == name;
    } else {
      assert seg[0] in seg;
      assert (seg + rest)[1..] == seg[1..] + rest;
      if name != [] {
        SplitHead(seg[1..], rest, name[1..]);
        if |seg| <= |name| {
          assert name[1..][..|seg| - 1] == name[..|seg|][1..];
          assert name[1..][|seg| - 1..] == name[|seg|..];
          FitsTail(seg, name[..|seg|]);
        }
      }
    }
  }

  lemma FitsTail(seg: Text, text: Text)
    requires |seg| == |text| > 0 && seg[0] != STAR
    ensures Fits(seg, text) <==> Accepts(seg[0], text[0]) && Fits(seg[1..], text[1..])
  {
    if Accepts(seg[0], text[0]) && Fits(seg[1..], text[1..]) {
      forall i | 0 <= i < |seg| ensures seg[i] != STAR && Accepts(seg[i], text[i]) {
        if i > 0 { assert seg[i] == seg[1..][i - 1] && text[i] == text[1..][i - 1]; }
      }
    }
    if Fits(seg, text) {
      forall i | 0 <= i < |seg| - 1 ensures seg[1..][i] != STAR && Accepts(seg[1..][i], text[1..][i]) {
        assert seg[1..][i] == seg[i + 1];
      }
    }
  }

  lemma {:induction false} StarsMatchNothing(pattern: Text)
    ensures Matches(pattern, []) <==> AllStars(pattern)
  {
    var none: Text := [];
    if pattern != [] {
      StarsMatchNothing(pattern[1..]);
      assert none[0..] == none;
      if AllStars(pattern[1..]) && pattern[0] == STAR {
        forall i | 0 <= i < |pattern| ensures pattern[i] == STAR {
          if i > 0 { assert pattern[i] == pattern[1..][i - 1]; }
        }
      }
    }
  }

  /** A pattern that begins with a star and matches a text matches every longer one. */
  lemma StarAbsorbs(pattern: Text, name: Text, lo: nat, hi: nat)
    requires pattern != [] && pattern[0] == STAR
    requires lo <= hi <= |name| && Matches(pattern, name[hi..])
    ensures Matches(pattern, name[lo..])
  {
    var k :| 0 <= k <= |name[hi..]| && Matches(pattern[1..], name[hi..][k..]);
    assert name[lo..][hi - lo + k..] == name[hi..][k..];
  }

  // ------------------------------------------------------ the greedy choice

  /** The pattern after the last star could still be tried at some later mark. */
  ghost predicate LaterMark(pattern: Text, name: Text, star: int, mark: nat)
    requires -1 <= star < |pattern|
  {
    star != -1 && exists j :: mark < j <= |name| && Matches(pattern[star + 1..], name[j..])
  }

  /** The part of the pattern scanned since the last star fits the text scanned since the mark. */
  ghost predicate Scanned(pattern: Text, name: Text, pi: nat, ni: nat, star: int, mark: nat)
  {
    && pi <= |pattern| && mark <= ni <= |name| && -1 <= star < pi
    && (star != -1 ==> pattern[star] == STAR)
    && Fits(pattern[star + 1..pi], name[mark..ni])
  }

  /** Exchange: whatever a later mark achieves, the current position reaches at least as far. */
  lemma LaterMarkLagsBehind(pattern: Text, name: Text, pi: nat, ni: nat, star: int, mark: nat, j: nat)
    requires Scanned(pattern, name, pi, ni, star, mark)
    requires mark < j <= |name| && Matches(pattern[star + 1..], name[j..])
    ensures ni < ni + j - mark <= |name|
    ensures Matches(pattern[pi..], name[ni + j - mark..])
  {
    var seg := pattern[star + 1..pi];
    forall c | c in seg ensures c != STAR {
      var i :| 0 <= i < |seg| && seg[i] == c;
    }
    assert pattern[star + 1..] == seg + pattern[pi..];
    SplitHead(seg, pattern[pi..], name[j..]);
    assert name[j..][|seg|..] == name[ni + j - mark..];
  }

  lemma NewStarSubsumes(pattern: Text, name: Text, pi: nat, ni: nat, star: int, mark: nat)
    requires Scanned(pattern, name, pi, ni, star, mark)
    requires pi < |pattern| && pattern[pi] == STAR
    requires LaterMark(pattern, name, star, mark)
    ensures Matches(pattern[pi..], name[ni..])
  {
    var j :| mark < j <= |name| && Matches(pattern[star + 1..], name[j..]);
    LaterMarkLagsBehind(pattern, name, pi, ni, star, mark, j);
    StarAbsorbs(pattern[pi..], name, ni, ni + j - mark);
  }

  lemma EndOfNameDecides(pattern: Text, name: Text, pi: nat, star: int, mark: nat)
    requires Scanned(pattern, name, pi, |name|, star, mark)
    ensures !LaterMark(pattern, name, star, mark)
    ensures Matches(pattern[pi..], name[|name|..]) <==> AllStars(pattern[pi..])
  {
    if LaterMark(pattern, name, star, mark) {
      var j :| mark < j <= |name| && Matches(pattern[star + 1..], name[j..]);
      LaterMarkLagsBehind(pattern, name, pi, |name|, star, mark, j);
      assert false;
    }
    assert name[|name|..] == [];
    StarsMatchNothing(pattern[pi..]);
  }

  /** A character taken at its place neither gains nor loses a match from here. */
  lemma TakeCharacter(pattern: Text, name: Text, pi: nat, ni: nat, star: int, mark: nat)
    requires Scanned(pattern, name, pi, ni, star, mark)
    requires pi < |pattern| && ni < |name| && pattern[pi] != STAR && Accepts(pattern[pi], name[ni])
    ensures Scanned(pattern, name, pi + 1, ni + 1, star, mark)
    ensures Matches(pattern[pi..], name[ni..]) <==> Matches(pattern[pi + 1..], name[ni + 1..])
  {
    assert pattern[star + 1..pi + 1] == pattern[star + 1..pi] + [pattern[pi]];
    assert name[mark..ni + 1] == name[mark..ni] + [name[ni]];
    assert name[ni..][0] == name[ni] && name[ni..][1..] == name[ni + 1..];
    assert pattern[pi..][0] == pattern[pi] && pattern[pi..][1..] == pattern[pi + 1..];
  }

  /** Where neither a character nor a star can be taken, nothing matches from here. */
  lemma MismatchHere(pattern: Text, name: Text, pi: nat, ni: nat)
    requires pi <= |pattern| && ni < |name|
    requires pi < |pattern| ==> pattern[pi] != STAR && !Accepts(pattern[pi], name[ni])
    ensures !Matches(pattern[pi..], name[ni..])
  {
    assert name[ni..] != [] && name[ni..][0] == name[ni];
    if pi < |pattern| { assert pattern[pi..][0] == pattern[pi]; }
  }

  /** Moving the mark on leaves the choice between trying there and trying later still. */
  lemma NextMark(pattern: Text, name: Text, star: int, mark: nat)
    requires 0 <= star < |pattern| && mark < |name|
    ensures LaterMark(pattern, name, star, mark)
       <==> Matches(pattern[star + 1..], name[mark + 1..]) || LaterMark(pattern, name, star, mark + 1)
  {
    if LaterMark(pattern, name, star, mark) {
      var j :| mark < j <= |name| && Matches(pattern[star + 1..], name[j..]);
      assert j == mark + 1 || mark + 1 < j;
    }
  }

  /** From every position the loop decides: match from here, or from a later mark. */
  lemma {:induction false} ScanSpec(pattern: Text, name: Text, pi: nat, ni: nat, star: int, mark: nat)
    requires STAR !in name
    requires Scanned(pattern, name, pi, ni, star, mark)
    requires star < |pattern|
    ensures Scan(pattern, name, pi, ni, star, mark)
       <==> Matches(pattern[pi..], name[ni..]) || LaterMark(pattern, name, star, mark)
    decreases |pattern| - star, |name| - mark, |name| - ni
  {
    hide Matches;
    if ni == |name| {
      EndOfNameDecides(pattern, name, pi, star, mark);
    } else if pi < |pattern| && Accepts(pattern[pi], name[ni]) {
      assert name[ni] in name;
      TakeCharacter(pattern, name, pi, ni, star, mark);
      ScanSpec(pattern, name, pi + 1, ni + 1, star, mark);
    } else if pi < |pattern| && pattern[pi] == STAR {
      ScanSpec(pattern, name, pi + 1, ni, pi, ni);
      TakeStar(pattern, name, pi, ni);
      if LaterMark(pattern, name, star, mark) {
        NewStarSubsumes(pattern, name, pi, ni, star, mark);
      }
    } else {
      MismatchHere(pattern, name, pi, ni);
      if star != -1 {
        ScanSpec(pattern, name, star + 1, mark + 1, star, mark + 1);
        NextMark(pattern, name, star, mark);
      }
    }
  }

  lemma TakeStar(pattern: Text, name: Text, pi: nat, ni: nat)
    requires pi < |pattern| && ni <= |name| && pattern[pi] == STAR
    ensures Matches(pattern[pi..], name[ni..])
       <==> Matches(pattern[pi + 1..], name[ni..]) || LaterMark(pattern, name, pi, ni)
  {
    assert pattern[pi..][1..] == pattern[pi + 1..];
    assert name[ni..][0..] == name[ni..];
    forall k | 0 <= k <= |name[ni..]| ensures name[ni..][k..] == name[ni + k..] {}
    if LaterMark(pattern, name, pi, ni) {
      var j :| ni < j <= |name| && Matches(pattern[pi + 1..], name[j..]);
      assert name[ni..][j - ni..] == name[j..];
    }
  }

  lemma ScanDecides(pattern: Text, name: Text)
    requires STAR !in name
    ensures Scan(pattern, name, 0, 0, -1, 0) <==> Matches(pattern, name)
  {
    assert pattern[0..0] == [] && name[0..0] == [];
    if pattern == [] {
      assert name[0..] == name && pattern[0..] == [];
      if name == [] { StarsMatchNothing(pattern); }
    } else {
      ScanSpec(pattern, name, 0, 0, -1, 0);
      assert pattern[0..] == pattern && name[0..] == name;
    }
  }

  // ---------------------------------------------------- names holding a star

  /** The matcher never accepts a name outside the pattern, stars in the name or not. */
  lemma {:induction false} SoundFrom(pattern: Text, name: Text, pi: nat, ni: nat, star: int, mark: nat)
    requires pi <= |pattern| && mark <= ni <= |name| && -1 <= star < pi
    requires star != -1 ==> pattern[star] == STAR
    requires Scan(pattern, name, pi, ni, star, mark)
    ensures Matches(pattern[pi..], name[ni..])
         || (star != -1 && Matches(pattern[star..], name[mark..]))
    decreases |pattern| - star, |name| - mark, |name| - ni
  {
    if ni == |name| {
      assert name[ni..] == [];
      StarsMatchNothing(pattern[pi..]);
    } else {
      assert name[ni..][0] == name[ni] && name[ni..][1..] == name[ni + 1..];
      if pi < |pattern| && Accepts(pattern[pi], name[ni]) {
        SoundFrom(pattern, name, pi + 1, ni + 1, star, mark);
        assert pattern[pi..][1..] == pattern[pi + 1..];
        if Matches(pattern[pi + 1..], name[ni + 1..]) && pattern[pi] == STAR {
          assert Matches(pattern[pi..][1..], name[ni..][1..]);
        }
      } else if pi < |pattern| && pattern[pi] == STAR {
        SoundFrom(pattern, name, pi + 1, ni, pi, ni);
        TakeStar(pattern, name, pi, ni);
      } else if star != -1 {
        SoundFrom(pattern, name, star + 1, mark + 1, star, mark + 1);
        TakeStar(pattern, name, star, mark + 1);
        StarAbsorbs(pattern[star..], name, mark, mark + 1);
      }
    }
  }

  lemma Sound(pattern: Text, name: Text)
    ensures Scan(pattern, name, 0, 0, -1, 0) ==> Matches(pattern, name)
  {
    if Scan(pattern, name, 0, 0, -1, 0) {
      SoundFrom(pattern, name, 0, 0, -1, 0);
      assert pattern[0..] == pattern && name[0..] == name;
    }
  }

  function Questions(n: nat): (s: seq<byte>)
    ensures |s| == n
    ensures forall i :: 0 <= i < n ==> s[i] == ANY
  {
    seq(n, i => ANY)
  }

  /** A pattern the matcher gets wrong on a name whose first star is at `at`. */
  function Trap(name: Text, at: nat): Text
    requires at < |name|
  {
    name[..at + 1] + Questions(|name| - at)
  }

  lemma {:induction false} TrapIsInMeaning(name: Text, at: nat)
    requires at < |name| && name[at] == STAR
    requires forall i :: 0 <= i < at ==> name[i] != STAR
    ensures Matches(Trap(name, at), name)
  {
    var head, tail := name[..at], name[at..];
    var rest := [STAR] + Questions(|tail|);
    assert Trap(name, at) == head + rest;
    SplitHead(head, rest, name);
    var wild := Questions(|tail|);
    assert wild + [] == wild && tail[..|tail|] == tail;
    assert STAR !in wild;
    SplitHead(wild, [], tail);
    assert rest[1..] == wild && tail[0..] == tail;
  }

  lemma {:induction false} TrapIsRefused(name: Text, at: nat, i: nat)
    requires at < i <= |name| || i <= at < |name|
    requires at < |name| && name[at] == STAR
    ensures !Scan(Trap(name, at), name, i, i, -1, 0)
    decreases |name| - i
  {
    var t := Trap(name, at);
    assert |t| == |name| + 1;
    if i == |name| {
      assert t[i..][0] == ANY;
    } else {
      assert Accepts(t[i], name[i]);
      TrapIsRefused(name, at, i + 1);
    }
  }

  /** Byte by byte, the names on which the matcher is right about every pattern are those without a star. */
  lemma RightOnNameIffNoStar(name: seq<byte>)
    ensures (forall pattern: seq<byte> :: Scan(pattern, name, 0, 0, -1, 0) <==> Matches(pattern, name))
       <==> STAR !in name
  {
    if STAR in name {
      var at := FirstStar(name);
      TrapIsInMeaning(name, at);
      TrapIsRefused(name, at, 0);
    } else {
      forall pattern: seq<byte> ensures Scan(pattern, name, 0, 0, -1, 0) <==> Matches(pattern, name) {
        ScanDecides(pattern, name);
      }
    }
  }

  function FirstStar(name: Text): (at: nat)
    requires STAR in name
    ensures at < |name| && name[at] == STAR
    ensures forall i :: 0 <= i < at ==> name[i] != STAR
  {
    if name[0] == STAR then 0 else 1 + FirstStar(name[1..])
  }
}
