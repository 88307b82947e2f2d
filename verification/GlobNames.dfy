/** The wildcard matcher on names as users read them: characters, encoded in UTF-8 before the matcher sees them. */
module GlobNames {
  import opened Bytes
  import opened DirEntries
  import opened Glob

  /** One code point in UTF-8. */
  function Encoded(r: Rune): (b: seq<byte>)
    ensures 1 <= |b| <= 4
    ensures r < 0x80 <==> |b| == 1
    ensures if r < 0x80 then b == [r] else b[0] >= 0xC0 && forall i :: 1 <= i < |b| ==> Continues(b[i])
  {
    if r < 0x80 then [r]
    else if r < 0x800 then [0xC0 + r / 0x40, 0x80 + r % 0x40]
    else if r < 0x1_0000 then [0xE0 + r / 0x40 / 0x40, 0x80 + r / 0x40 % 0x40, 0x80 + r % 0x40]
    else [0xF0 + r / 0x40 / 0x40 / 0x40, 0x80 + r / 0x40 / 0x40 % 0x40, 0x80 + r / 0x40 % 0x40, 0x80 + r % 0x40]
  }

  lemma KnownCharacters()
    ensures Encoded(0x41) == [0x41] && Encoded(0xE9) == [0xC3, 0xA9]
    ensures Encoded(0x20AC) == [0xE2, 0x82, 0xAC] && Encoded(0x1F600) == [0xF0, 0x9F, 0x98, 0x80]
  {
  }

  /** A byte inside the encoding of a code point, never its first. */
  predicate Continues(b: byte) { 0x80 <= b < 0xC0 }

  function Utf8(name: seq<Rune>): (b: seq<byte>)
    ensures |b| >= |name|
  {
    if name == [] then [] else Encoded(name[0]) + Utf8(name[1..])
  }

  predicate Ascii(name: seq<Rune>) { forall i :: 0 <= i < |name| ==> name[i] < 0x80 }

  /** What the matcher answers about a pattern and a name of characters. */
  predicate Accepted(pattern: seq<Rune>, name: seq<Rune>) { Scan(Utf8(pattern), Utf8(name), 0, 0, -1, 0) }

  // ---------------------------------------------------------------- names below 0x80

  lemma {:induction false} AsciiIsItself(name: seq<Rune>)
    requires Ascii(name)
    ensures Utf8(name) == name
  {
    if name != [] {
      assert forall i :: 0 <= i < |name| - 1 ==> name[1..][i] == name[i + 1];
      AsciiIsItself(name[1..]);
      assert name == [name[0]] + name[1..];
    }
  }

  lemma {:induction false} LongerInBytes(name: seq<Rune>)
    requires !Ascii(name)
    ensures |Utf8(name)| > |name|
  {
    if name[0] < 0x80 {
      assert !Ascii(name[1..]) by {
        var i :| 0 <= i < |name| && name[i] >= 0x80;
        assert name[1..][i - 1] == name[i];
      }
      LongerInBytes(name[1..]);
    }
  }

  /** On such a name the bytes of a pattern mean what its characters mean. */
  lemma {:induction false} SameMeaningOnAscii(pattern: seq<Rune>, name: seq<Rune>)
    requires Ascii(name)
    ensures Matches(Utf8(pattern), name) <==> Matches(pattern, name)
    decreases |pattern|
  {
    if pattern != [] {
      var bytes := Utf8(pattern);
      if pattern[0] < 0x80 {
        assert bytes[0] == pattern[0] && bytes[1..] == Utf8(pattern[1..]);
        forall k | 0 <= k <= |name| ensures Matches(bytes[1..], name[k..]) <==> Matches(pattern[1..], name[k..]) {
          assert forall i :: 0 <= i < |name| - k ==> name[k..][i] == name[k + i];
          SameMeaningOnAscii(pattern[1..], name[k..]);
        }
      } else {
        assert bytes[0] >= 0xC0;
      }
    }
  }

  // ---------------------------------------------------------------- patterns without `?`

  lemma SameFirstByte(a: Rune, b: Rune)
    requires Encoded(a)[0] == Encoded(b)[0]
    ensures |Encoded(a)| == |Encoded(b)|
  {
  }

  /** No encoding is the front of another. */
  lemma EncodedDetermines(a: Rune, b: Rune)
    requires Encoded(a) <= Encoded(b)
    ensures a == b
  {
    SameFirstByte(a, b);
    Decodes(a);
    Decodes(b);
  }

  function Value(b: seq<int>): int
    requires 1 <= |b| <= 4
  {
    if |b| == 1 then b[0]
    else if |b| == 2 then (b[0] - 0xC0) * 0x40 + b[1] - 0x80
    else if |b| == 3 then ((b[0] - 0xE0) * 0x40 + b[1] - 0x80) * 0x40 + b[2] - 0x80
    else (((b[0] - 0xF0) * 0x40 + b[1] - 0x80) * 0x40 + b[2] - 0x80) * 0x40 + b[3] - 0x80
  }

  lemma Decodes(r: Rune)
    ensures Value(Encoded(r)) == r
  {
  }

  /** The text behind `k` bytes of the name begins inside the first of its characters, or at it. */
  predicate Within(name: seq<Rune>, k: nat) { if name == [] then k == 0 else k < |Encoded(name[0])| }

  lemma {:induction false} Locate(name: seq<Rune>, m: nat) returns (i: nat, k: nat)
    requires m <= |Utf8(name)|
    ensures i <= |name| && Within(name[i..], k) && k <= |Utf8(name[i..])| && Utf8(name)[m..] == Utf8(name[i..])[k..]
    ensures i == 0 ==> k == m
  {
    if Within(name, m) {
      i, k := 0, m;
      assert name[0..] == name;
    } else {
      var first := Encoded(name[0]);
      var j;
      j, k := Locate(name[1..], m - |first|);
      i := j + 1;
      assert Utf8(name)[m..] == Utf8(name[1..])[m - |first|..] && name[1..][j..] == name[i..];
    }
  }

  lemma StarChooses(pattern: Text, text: Text) returns (m: nat)
    requires pattern != [] && pattern[0] == STAR && Matches(pattern, text)
    ensures m <= |text| && Matches(pattern[1..], text[m..])
  {
    m :| 0 <= m <= |text| && Matches(pattern[1..], text[m..]);
  }

  /** A star takes what stands before the rest, from the same character on or the next. */
  lemma StarTakes(pattern: seq<Rune>, name: seq<Rune>, k: nat, i: nat, k': nat)
    requires pattern != [] && pattern[0] == STAR && (k > 0 ==> name != []) && i <= |name| && (k' > 0 ==> i < |name|) && (i == 0 ==> k' >= k)
    requires Matches(pattern[1..], if k' == 0 then name[i..] else name[i..][1..])
    ensures Matches(pattern, if k == 0 then name else name[1..])
  {
    var at := if k' == 0 then i else i + 1;
    if k' > 0 { assert name[i..][1..] == name[at..]; }
    if k > 0 { assert name[1..][at - 1..] == name[at..]; }
  }

  lemma TakesFirst(pattern: seq<Rune>, name: seq<Rune>)
    requires pattern != [] && name != [] && pattern[0] == name[0] != STAR && Matches(pattern[1..], name[1..])
    ensures Matches(pattern, name)
  {
  }

  lemma EncodedIsLiteral(r: Rune)
    requires r != STAR && r != ANY
    ensures STAR !in Encoded(r) && ANY !in Encoded(r)
  {
  }

  lemma LiteralTakesItself(first: Text, text: Text)
    requires Fits(first, text) && ANY !in first
    ensures text == first
  {
    assert forall i :: 0 <= i < |first| ==> first[i] in first && first[i] == text[i];
  }

  /** The first character of the name is the one the pattern asks for. */
  lemma FirstAgrees(r: Rune, name: seq<Rune>, k: nat)
    requires r != STAR && r != ANY && Within(name, k) && k <= |Utf8(name)|
    requires var rest := Utf8(name)[k..]; |Encoded(r)| <= |rest| && Fits(Encoded(r), rest[..|Encoded(r)|])
    ensures k == 0 && name != [] && name[0] == r
  {
    hide Encoded, Fits;
    var first, whole, all := Encoded(r), Encoded(name[0]), Utf8(name);
    EncodedIsLiteral(r);
    LiteralTakesItself(first, all[k..][..|first|]);
    assert all[k] == first[0] == whole[k];
    assert all[..|whole|] == whole;
    SameFirstByte(r, name[0]);
    assert first == whole;
    EncodedDetermines(r, name[0]);
  }

  /** What matches the bytes behind the front of a character matches the characters behind it. */
  lemma {:induction false} BytesInStep(pattern: seq<Rune>, name: seq<Rune>, k: nat)
    requires ANY !in pattern && Within(name, k) && k <= |Utf8(name)| && Matches(Utf8(pattern), Utf8(name)[k..])
    ensures k > 0 ==> name != []
    ensures Matches(pattern, if k == 0 then name else name[1..])
    decreases |pattern|
  {
    hide Encoded, Matches;
    var rest := Utf8(name)[k..];
    if pattern == [] {
      EmptyMatches(rest);
      EmptyMatches(name);
    } else if pattern[0] == STAR {
      var bytes := Utf8(pattern);
      assert bytes[0] == STAR && bytes[1..] == Utf8(pattern[1..]);
      var m := StarChooses(bytes, rest);
      assert rest[m..] == Utf8(name)[k + m..];
      var i, k' := Locate(name, k + m);
      BytesInStep(pattern[1..], name[i..], k');
      StarTakes(pattern, name, k, i, k');
    } else {
      var first := Encoded(pattern[0]);
      assert pattern[0] in pattern;
      EncodedIsLiteral(pattern[0]);
      SplitHead(first, Utf8(pattern[1..]), rest);
      FirstAgrees(pattern[0], name, k);
      assert rest[|first|..] == Utf8(name[1..]) == Utf8(name[1..])[0..];
      BytesInStep(pattern[1..], name[1..], 0);
      TakesFirst(pattern, name);
    }
  }

  lemma {:induction false} Utf8Splits(name: seq<Rune>, k: nat)
    requires k <= |name|
    ensures Utf8(name) == Utf8(name[..k]) + Utf8(name[k..])
  {
    hide Encoded;
    if k == 0 {
      assert name[0..] == name;
    } else {
      Utf8Splits(name[1..], k - 1);
      assert name[..k][1..] == name[1..][..k - 1] && name[1..][k - 1..] == name[k..];
    }
  }

  lemma {:induction false} BytesFollow(pattern: seq<Rune>, name: seq<Rune>)
    requires ANY !in pattern && Matches(pattern, name)
    ensures Matches(Utf8(pattern), Utf8(name))
    decreases |pattern|
  {
    hide Encoded;
    if pattern != [] && pattern[0] == STAR {
      var k :| 0 <= k <= |name| && Matches(pattern[1..], name[k..]);
      BytesFollow(pattern[1..], name[k..]);
      Utf8Splits(name, k);
      var bytes, at := Utf8(pattern), |Utf8(name[..k])|;
      assert bytes[0] == STAR && bytes[1..] == Utf8(pattern[1..]) && Utf8(name)[at..] == Utf8(name[k..]);
    } else if pattern != [] {
      var first := Encoded(pattern[0]);
      assert pattern[0] in pattern;
      EncodedIsLiteral(pattern[0]);
      BytesFollow(pattern[1..], name[1..]);
      assert first[..|first|] == first && Utf8(name)[..|first|] == first && Utf8(name)[|first|..] == Utf8(name[1..]);
      SplitHead(first, Utf8(pattern[1..]), Utf8(name));
    }
  }

  /** UTF-8 keeps in step: bytes and characters mean the same, whatever the name, for patterns without `?`. */
  lemma SameMeaningWithoutAny(pattern: seq<Rune>, name: seq<Rune>)
    requires ANY !in pattern
    ensures Matches(Utf8(pattern), Utf8(name)) <==> Matches(pattern, name)
  {
    hide Matches;
    if Matches(pattern, name) { BytesFollow(pattern, name); }
    if Matches(Utf8(pattern), Utf8(name)) {
      assert Utf8(name)[0..] == Utf8(name);
      BytesInStep(pattern, name, 0);
    }
  }

  lemma {:induction false} NoStarInBytes(name: seq<Rune>)
    requires STAR !in name
    ensures STAR !in Utf8(name)
  {
    if name != [] {
      assert name[0] in name;
      NoStarInBytes(name[1..]);
    }
  }

  /** So the matcher is right about such patterns on every name without `*`. */
  lemma RightWithoutAny(pattern: seq<Rune>, name: seq<Rune>)
    requires ANY !in pattern && STAR !in name
    ensures Accepted(pattern, name) <==> Matches(pattern, name)
  {
    hide Scan, Matches;
    NoStarInBytes(name);
    ScanDecides(Utf8(pattern), Utf8(name));
    SameMeaningWithoutAny(pattern, name);
  }

  // ---------------------------------------------------------------- the exact condition

  /** As many `?` as the name has characters. */
  lemma AnyForEach(name: Text, n: nat)
    ensures Matches(Questions(n), name) <==> |name| == n
  {
    hide Matches;
    var wild: Text := Questions(n);
    var none: Text := [];
    assert wild + none == wild;
    SplitHead(wild, none, name);
    EmptyMatches(name[if n <= |name| then n else 0..]);
  }

  lemma EmptyMatches(name: Text)
    ensures Matches([], name) <==> name == []
  {
  }

  lemma TooFew(name: seq<Rune>)
    requires !Ascii(name)
    ensures !Accepted(Questions(|name|), name) && Matches(Questions(|name|), name)
  {
    hide Scan, Matches;
    LongerInBytes(name);
    AnyForEach(name, |name|);
    AsciiIsItself(Questions(|name|));
    AnyForEach(Utf8(name), |name|);
    Sound(Questions(|name|), Utf8(name));
  }

  lemma StarredFails(name: seq<Rune>)
    requires Ascii(name) && STAR in name
    ensures exists pattern: seq<Rune> :: Ascii(pattern) && Matches(pattern, name) && !Accepted(pattern, name)
  {
    hide Scan, Matches;
    var at := FirstStar(name);
    var pattern: seq<Rune> := name[..at + 1] + Questions(|name| - at);
    assert pattern == Trap(name, at);
    TrapIsInMeaning(name, at);
    TrapIsRefused(name, at, 0);
    AsciiIsItself(name);
    AsciiIsItself(pattern);
  }

  /** On characters, the names on which the matcher is right about every pattern are those without `*` and
      without a character of more than one byte. */
  lemma RightOnNameIff(name: seq<Rune>)
    ensures (forall pattern: seq<Rune> :: Accepted(pattern, name) <==> Matches(pattern, name))
       <==> STAR !in name && Ascii(name)
  {
    hide Scan, Matches, Accepted, Ascii;
    if !Ascii(name) {
      TooFew(name);
    } else if STAR in name {
      StarredFails(name);
    } else {
      forall pattern: seq<Rune> ensures Accepted(pattern, name) <==> Matches(pattern, name) {
        RightOnAscii(pattern, name);
      }
    }
  }

  lemma RightOnAscii(pattern: seq<Rune>, name: seq<Rune>)
    requires STAR !in name && Ascii(name)
    ensures Accepted(pattern, name) <==> Matches(pattern, name)
  {
    hide Scan, Matches, Ascii;
    AsciiIsItself(name);
    ScanDecides(Utf8(pattern), Utf8(name));
    SameMeaningOnAscii(pattern, name);
  }

  /** An accented letter: the matcher refuses `?` and accepts `??`. */
  lemma AccentedLetterTakesTwo()
    ensures !Accepted([ANY], [0xE9]) && Matches([ANY], [0xE9])
    ensures Accepted([ANY, ANY], [0xE9]) && !Matches([ANY, ANY], [0xE9])
  {
    hide Scan, Matches;
    var letter: seq<Rune> := [0xE9];
    assert Questions(1) == [ANY] && Questions(2) == [ANY, ANY];
    assert letter[0] >= 0x80;
    TooFew(letter);
    AsciiIsItself(Questions(2));
    assert |Utf8(letter)| == 2;
    NoStarInBytes(letter);
    ScanDecides(Questions(2), Utf8(letter));
    AnyForEach(Utf8(letter), 2);
    AnyForEach(letter, 2);
  }
}
