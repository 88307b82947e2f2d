/** Directory entries on the wire: names, the two entry layouts, and the linked page they form. */
module DirEntries {
  import opened Bytes

  /** What ranging over a Go string yields: code points, never surrogates. */
  type Rune = x: int | 0 <= x <= 0x10FFFF && !(0xD800 <= x <= 0xDFFF)

  /** `nameBytes` is the length of the name as a byte string, at least one byte a rune. */
  datatype Info = Info(name: seq<Rune>, nameBytes: nat, creation: uint64, access: uint64, write: uint64, change: uint64,
                       endOfFile: uint64, allocation: uint64, attributes: uint32)

  predicate NameCounted(fi: Info) { |fi.name| <= fi.nameBytes }

  // -------------------------------------------------------------------- names

  function UnitOf(r: Rune): (unit: nat)
    ensures unit < 0x1_0000
  {
    (r as int) % 0x1_0000
  }

  /** Each rune cut to sixteen bits, low byte first. */
  function Utf16ToBytes(name: seq<Rune>): (b: seq<byte>)
    ensures |b| == 2 * |name|
  {
    if name == [] then [] else LE(UnitOf(name[0]), 2) + Utf16ToBytes(name[1..])
  }

  /** A lone surrogate is written out as the replacement character. */
  function RuneOf(unit: nat): Rune
    requires unit < 0x1_0000
  {
    if 0xD800 <= unit <= 0xDFFF then 0xFFFD else unit
  }

  function Utf16FromBytes(b: seq<byte>): (name: seq<Rune>)
    ensures |name| == |b| / 2
  {
    if |b| < 2 then [] else
      PowFacts();
      [RuneOf(UnLE(b[..2]))] + Utf16FromBytes(b[2..])
  }

  predicate InBmp(name: seq<Rune>) {
    forall i :: 0 <= i < |name| ==> name[i] < 0x1_0000
  }

  /** A name survives the wire exactly when it stays within the Basic Multilingual Plane. */
  lemma {:induction false} NameRoundTripIff(name: seq<Rune>)
    ensures Utf16FromBytes(Utf16ToBytes(name)) == name <==> InBmp(name)
  {
    if name != [] {
      var b := Utf16ToBytes(name);
      var back := Utf16FromBytes(b);
      PowFacts();
      LERoundTrip(UnitOf(name[0]), 2);
      assert b[..2] == LE(UnitOf(name[0]), 2) && b[2..] == Utf16ToBytes(name[1..]);
      NameRoundTripIff(name[1..]);
      assert back[0] == RuneOf(UnitOf(name[0])) && back[1..] == Utf16FromBytes(Utf16ToBytes(name[1..]));
      assert back[0] == name[0] <==> name[0] < 0x1_0000;
      assert name == [name[0]] + name[1..] && back == [back[0]] + back[1..];
      assert InBmp(name) <==> name[0] < 0x1_0000 && InBmp(name[1..]) by {
        if name[0] < 0x1_0000 && InBmp(name[1..]) {
          forall i | 0 <= i < |name| ensures name[i] < 0x1_0000 {
            if i > 0 { assert name[i] == name[1..][i - 1]; }
          }
        }
        if InBmp(name) { assert forall i :: 0 <= i < |name| - 1 ==> name[1..][i] == name[i + 1]; }
      }
    }
  }

  method EncodeName(name: seq<Rune>) returns (out: seq<byte>)
    ensures out == Utf16ToBytes(name)
  {
    out := [];
    var i := 0;
    while i < |name|
      invariant 0 <= i <= |name|
      invariant out + Utf16ToBytes(name[i..]) == Utf16ToBytes(name)
    {
      var v := UnitOf(name[i]);
      assert LE(v, 2) == [v % 256, v / 256 % 256] by { assert LE(v / 256, 1) == [v / 256 % 256]; }
      assert name[i..][1..] == name[i + 1..];
      assert out + Utf16ToBytes(name[i..]) == out + [v % 256, v / 256 % 256] + Utf16ToBytes(name[i + 1..]);
      out := out + [v % 256, v / 256 % 256];
      i := i + 1;
    }
    assert name[i..] == [];
  }

  // ------------------------------------------------------------------- layout

  /** The fixed part: 64 bytes, or 104 in the layout with file ids and short names. */
  function FixedSize(both: bool): nat { if both then 104 else 64 }

  function NameEnd(both: bool, fi: Info): nat { FixedSize(both) + 2 * |fi.name| }

  function EntrySize(both: bool, fi: Info): (n: nat)
    ensures n % 8 == 0 && NameEnd(both, fi) <= n <= NameEnd(both, fi) + 7
  {
    NameEnd(both, fi) + Padding(NameEnd(both, fi))
  }

  /** Link, index and the four times. */
  function EntryTimes(fi: Info, next: nat): (s: seq<byte>)
    ensures |s| == 40
  {
    LE(next, 4) + LE(0, 4) + LE(fi.creation, 8) + LE(fi.access, 8) + LE(fi.write, 8) + LE(fi.change, 8)
  }

  /** The 64 bytes both layouts begin with. */
  function EntryHead(fi: Info, next: nat): (s: seq<byte>)
    ensures |s| == 64
  {
    EntryTimes(fi, next) + LE(fi.endOfFile, 8) + LE(fi.allocation, 8) + LE(fi.attributes, 4) + LE((2 * |fi.name|) % 0x1_0000_0000, 4)
  }

  function EncodeEntry(both: bool, fi: Info, next: nat): (s: seq<byte>)
    ensures |s| == EntrySize(both, fi)
  {
    EntryHead(fi, next) + Zeros(FixedSize(both) - 64) + Utf16ToBytes(fi.name) + Zeros(Padding(NameEnd(both, fi)))
  }

  // ------------------------------------------------------------------ encoder

  /** Writing a field at the start of a zeroed stretch. */
  lemma PutNext(out: seq<byte>, dst: seq<byte>, acc: seq<byte>, z: nat, rest: seq<byte>, n: nat, v: nat)
    requires out == dst + acc + Zeros(z) + rest && n <= z
    ensures |dst| + |acc| + n <= |out|
    ensures PutField(out, |dst| + |acc|, n, v) == dst + (acc + LE(v, n)) + Zeros(z - n) + rest
  {
    var pre := dst + acc;
    assert out[..|pre|] == pre && out[|pre| + n..] == Zeros(z - n) + rest;
  }

  method PutTimes(dst: seq<byte>, both: bool, fi: Info, name: seq<byte>) returns (out: seq<byte>)
    ensures out == dst + EntryTimes(fi, 0) + Zeros(FixedSize(both) - 40) + name
  {
    hide LE, Zeros, PutField;
    out := dst + Zeros(FixedSize(both)) + name;
    ghost var acc: seq<byte>, z := [], FixedSize(both);
    assert out == dst + acc + Zeros(z) + name;
    var b := |dst|;
    PutNext(out, dst, acc, z, name, 4, 0);
    out := PutField(out, b, 4, 0);
    acc, z := LE(0, 4), z - 4;
    assert [] + LE(0, 4) == LE(0, 4);
    PutNext(out, dst, acc, z, name, 4, 0);
    out := PutField(out, b + 4, 4, 0);
    acc, z := acc + LE(0, 4), z - 4;
    PutNext(out, dst, acc, z, name, 8, fi.creation);
    out := PutField(out, b + 8, 8, fi.creation);
    acc, z := acc + LE(fi.creation, 8), z - 8;
    PutNext(out, dst, acc, z, name, 8, fi.access);
    out := PutField(out, b + 16, 8, fi.access);
    acc, z := acc + LE(fi.access, 8), z - 8;
    PutNext(out, dst, acc, z, name, 8, fi.write);
    out := PutField(out, b + 24, 8, fi.write);
    acc, z := acc + LE(fi.write, 8), z - 8;
    PutNext(out, dst, acc, z, name, 8, fi.change);
    out := PutField(out, b + 32, 8, fi.change);
    acc, z := acc + LE(fi.change, 8), z - 8;
  }

  /** The name stands at byte 104 of the wide layout, behind forty zeros, and at byte 64 of the other; zeros fill the
      entry up to a multiple of eight. */
  predicate NamePlaced(both: bool, e: seq<byte>, name: seq<byte>) {
    if both
    then |e| == (104 + |name| + 7) / 8 * 8 && e[64..104] == Zeros(40) && e[104..104 + |name|] == name && e[104 + |name|..] == Zeros(|e| - 104 - |name|)
    else |e| == (64 + |name| + 7) / 8 * 8 && e[64..64 + |name|] == name && e[64 + |name|..] == Zeros(|e| - 64 - |name|)
  }

  lemma RoundsUp(n: nat)
    ensures n + Padding(n) == (n + 7) / 8 * 8
  {
    var q, r := n / 8, n % 8;
    assert n == 8 * q + r;
    assert (n + 7) / 8 == if r == 0 then q else q + 1;
  }

  lemma FourPieces(head: seq<byte>, gap: seq<byte>, name: seq<byte>, pad: seq<byte>)
    ensures
      var e, a := head + gap + name + pad, |head| + |gap|;
      e[|head|..a] == gap && e[a..a + |name|] == name && e[a + |name|..] == pad
  {
  }

  lemma EncodeEntryPlaces(both: bool, fi: Info, next: nat)
    ensures NamePlaced(both, EncodeEntry(both, fi, next), Utf16ToBytes(fi.name))
  {
    hide EntryHead, Padding, Utf16ToBytes;
    var at, name := if both then 104 else 64, Utf16ToBytes(fi.name);
    RoundsUp(at + |name|);
    FourPieces(EntryHead(fi, next), Zeros(at - 64), name, Zeros(Padding(at + |name|)));
  }

  /** Appends one entry, its link still zero, and says where it starts. */
  method AppendEntry(dst: seq<byte>, both: bool, fi: Info) returns (out: seq<byte>, entryStart: nat)
    ensures entryStart == |dst| && entryStart + 64 <= |out|
    ensures out == dst + EncodeEntry(both, fi, 0)
    ensures out[..entryStart] == dst && NamePlaced(both, out[entryStart..], Utf16ToBytes(fi.name))
  {
    hide EncodeEntry, NamePlaced, Utf16ToBytes;
    EncodeEntryPlaces(both, fi, 0);
    entryStart := |dst|;
    out := WriteEntry(dst, both, fi);
    assert out[entryStart..] == EncodeEntry(both, fi, 0) && out[..entryStart] == dst;
  }

  method WriteEntry(dst: seq<byte>, both: bool, fi: Info) returns (out: seq<byte>)
    ensures out == dst + EncodeEntry(both, fi, 0)
  {
    hide LE, Zeros, PutField, EntryTimes;
    var name := EncodeName(fi.name);
    out := PutTimes(dst, both, fi, name);
    ghost var acc, z := EntryTimes(fi, 0), FixedSize(both) - 40;
    var b := |dst|;
    PutNext(out, dst, acc, z, name, 8, fi.endOfFile);
    out := PutField(out, b + 40, 8, fi.endOfFile);
    acc, z := acc + LE(fi.endOfFile, 8), z - 8;
    PutNext(out, dst, acc, z, name, 8, fi.allocation);
    out := PutField(out, b + 48, 8, fi.allocation);
    acc, z := acc + LE(fi.allocation, 8), z - 8;
    PutNext(out, dst, acc, z, name, 4, fi.attributes);
    out := PutField(out, b + 56, 4, fi.attributes);
    acc, z := acc + LE(fi.attributes, 4), z - 4;
    PutNext(out, dst, acc, z, name, 4, |name| % 0x1_0000_0000);
    out := PutField(out, b + 60, 4, |name| % 0x1_0000_0000);
    acc, z := acc + LE(|name| % 0x1_0000_0000, 4), z - 4;
    out := out + Zeros(Padding(FixedSize(both) + |name|));
    assert acc == EntryHead(fi, 0);
    Regroup(dst, acc, Zeros(z), name, Zeros(Padding(FixedSize(both) + |name|)));
  }

  lemma Regroup(a: seq<byte>, b: seq<byte>, c: seq<byte>, d: seq<byte>, e: seq<byte>)
    ensures a + b + c + d + e == a + (b + c + d + e)
  {
  }

  // -------------------------------------------------------------------- pages

  /** Entries linked by their first field; the last link is zero. */
  function Page(both: bool, es: seq<Info>): (s: seq<byte>)
    ensures |s| == PageSize(both, es)
  {
    if es == [] then []
    else if |es| == 1 then EncodeEntry(both, es[0], 0)
    else EncodeEntry(both, es[0], EntrySize(both, es[0]) % 0x1_0000_0000) + Page(both, es[1..])
  }

  function PageSize(both: bool, es: seq<Info>): (n: nat)
    ensures n % 8 == 0
  {
    if es == [] then 0 else
      AlignedSum(EntrySize(both, es[0]), PageSize(both, es[1..]));
      EntrySize(both, es[0]) + PageSize(both, es[1..])
  }

  /** Where the last entry of a page starts. */
  function LastStart(both: bool, es: seq<Info>): (n: nat)
    requires es != []
    ensures n % 8 == 0
  {
    PageSize(both, es[..|es| - 1])
  }

  lemma {:induction false} PageSizeSnoc(both: bool, es: seq<Info>, e: Info)
    ensures PageSize(both, es + [e]) == PageSize(both, es) + EntrySize(both, e)
  {
    if es != [] {
      assert (es + [e])[1..] == es[1..] + [e];
      PageSizeSnoc(both, es[1..], e);
    }
  }

  /** The page with its last link set to reach an entry right behind it. */
  function Linked(both: bool, es: seq<Info>): seq<byte>
    requires es != []
  {
    LastStartFits(both, es);
    PutField(Page(both, es), LastStart(both, es), 4, EntrySize(both, es[|es| - 1]) % 0x1_0000_0000)
  }

  lemma LastStartFits(both: bool, es: seq<Info>)
    requires es != []
    ensures LastStart(both, es) + EntrySize(both, es[|es| - 1]) == PageSize(both, es)
  {
    assert es == es[..|es| - 1] + [es[|es| - 1]];
    PageSizeSnoc(both, es[..|es| - 1], es[|es| - 1]);
  }

  /** Overwriting the link of an entry gives the entry with that link. */
  lemma RelinkEntry(both: bool, fi: Info, next: nat)
    ensures PutField(EncodeEntry(both, fi, 0), 0, 4, next) == EncodeEntry(both, fi, next)
  {
    hide LE, Utf16ToBytes;
    assert EntryHead(fi, next)[..4] == LE(next, 4);
    assert EntryHead(fi, next)[4..] == EntryHead(fi, 0)[4..];
    assert EntryHead(fi, next) == LE(next, 4) + EntryHead(fi, 0)[4..];
    var e := EncodeEntry(both, fi, 0);
    assert e[4..] == EntryHead(fi, 0)[4..] + Zeros(FixedSize(both) - 64) + Utf16ToBytes(fi.name) + Zeros(Padding(NameEnd(both, fi)));
    assert e[..0] == [];
  }

  /** Growing a page by one entry: link the last entry, then append. */
  lemma {:induction false} PageSnoc(both: bool, es: seq<Info>, e: Info)
    requires es != []
    ensures Page(both, es + [e]) == Linked(both, es) + EncodeEntry(both, e, 0)
  {
    hide EncodeEntry, EntrySize, Page, Linked;
    assert (es + [e])[1..] == es[1..] + [e];
    PageMore(both, es + [e]);
    if |es| == 1 {
      LinkedOne(both, es);
      assert es[1..] + [e] == [e];
      PageOne(both, e);
    } else {
      PageSnoc(both, es[1..], e);
      LinkedTail(both, es);
      var head := EncodeEntry(both, es[0], EntrySize(both, es[0]) % 0x1_0000_0000);
      assert head + (Linked(both, es[1..]) + EncodeEntry(both, e, 0)) == (head + Linked(both, es[1..])) + EncodeEntry(both, e, 0);
    }
  }

  lemma PageOne(both: bool, e: Info)
    ensures Page(both, [e]) == EncodeEntry(both, e, 0)
  {
  }

  lemma PageMore(both: bool, es: seq<Info>)
    requires |es| > 1
    ensures Page(both, es) == EncodeEntry(both, es[0], EntrySize(both, es[0]) % 0x1_0000_0000) + Page(both, es[1..])
  {
  }

  lemma LinkedOne(both: bool, es: seq<Info>)
    requires |es| == 1
    ensures Linked(both, es) == EncodeEntry(both, es[0], EntrySize(both, es[0]) % 0x1_0000_0000)
  {
    hide EncodeEntry, PutField, EntrySize;
    RelinkEntry(both, es[0], EntrySize(both, es[0]) % 0x1_0000_0000);
    assert es[..0] == [];
  }

  lemma {:induction false} LinkedTail(both: bool, es: seq<Info>)
    requires |es| > 1
    ensures Linked(both, es) == EncodeEntry(both, es[0], EntrySize(both, es[0]) % 0x1_0000_0000) + Linked(both, es[1..])
  {
    hide EncodeEntry, PutField;
    var head := EncodeEntry(both, es[0], EntrySize(both, es[0]) % 0x1_0000_0000);
    LastStartFits(both, es);
    LastStartFits(both, es[1..]);
    assert es[1..][..|es| - 2] == es[..|es| - 1][1..];
    assert LastStart(both, es) == |head| + LastStart(both, es[1..]);
    PutBehind(head, Page(both, es[1..]), LastStart(both, es[1..]), 4, EntrySize(both, es[|es| - 1]) % 0x1_0000_0000);
  }

  lemma PutBehind(head: seq<byte>, tail: seq<byte>, off: nat, n: nat, v: nat)
    requires off + n <= |tail|
    ensures PutField(head + tail, |head| + off, n, v) == head + PutField(tail, off, n, v)
  {
    var s := head + tail;
    assert s[..|head| + off] == head + tail[..off];
    assert s[|head| + off + n..] == tail[off + n..];
  }

  // ------------------------------------------------------------------ walking

  /** An entry found on a page: where, and what a client reads there. */
  datatype Found = Found(offset: nat, name: seq<Rune>, creation: nat, access: nat, write: nat, change: nat,
                         endOfFile: nat, allocation: nat, attributes: nat)

  function Decode(both: bool, b: seq<byte>, offset: nat): Option<Found>
  {
    var at := if both then 104 else 64;
    if |b| < at then None
    else
      var n := Field(b, 60, 4);
      if at + n > |b| then None
      else Some(Found(offset, Utf16FromBytes(b[at..at + n]), Field(b, 8, 8), Field(b, 16, 8), Field(b, 24, 8),
                      Field(b, 32, 8), Field(b, 40, 8), Field(b, 48, 8), Field(b, 56, 4)))
  }

  /** Follows the links from the front of `b` until one is zero; none if the chain leaves the buffer. */
  function Walk(both: bool, b: seq<byte>, offset: nat): Option<seq<Found>>
    decreases |b|
  {
    var first := Decode(both, b, offset);
    if first.None? then None
    else
      var next := Field(b, 0, 4);
      if next == 0 then Some([first.value])
      else if next > |b| then None
      else
        var rest := Walk(both, b[next..], offset + next);
        if rest.None? then None else Some([first.value] + rest.value)
  }

  function Seen(fi: Info, offset: nat): Found {
    Found(offset, fi.name, fi.creation, fi.access, fi.write, fi.change, fi.endOfFile, fi.allocation, fi.attributes)
  }

  /** What a walk should find: every entry, at the sum of the sizes before it. */
  function SeenAll(both: bool, es: seq<Info>, offset: nat): (r: seq<Found>)
    ensures |r| == |es|
  {
    if es == [] then [] else [Seen(es[0], offset)] + SeenAll(both, es[1..], offset + EntrySize(both, es[0]))
  }

  /** The entry fits its 32-bit fields and its name survives UTF-16. */
  predicate Representable(both: bool, fi: Info) {
    EntrySize(both, fi) < 0x1_0000_0000 && InBmp(fi.name)
  }

  lemma HeadFields(fi: Info, next: nat)
    requires next < 0x1_0000_0000 && 2 * |fi.name| < 0x1_0000_0000
    ensures
      var h := EntryHead(fi, next);
      && Field(h, 0, 4) == next && Field(h, 8, 8) == fi.creation && Field(h, 16, 8) == fi.access && Field(h, 24, 8) == fi.write
      && Field(h, 32, 8) == fi.change && Field(h, 40, 8) == fi.endOfFile && Field(h, 48, 8) == fi.allocation
      && Field(h, 56, 4) == fi.attributes && Field(h, 60, 4) == 2 * |fi.name|
  {
    HeadSlices(fi, next);
    PowFacts();
    hide LE, UnLE, EntryHead;
    LERoundTrip(next, 4);
    LERoundTrip(fi.creation, 8);
    LERoundTrip(fi.access, 8);
    LERoundTrip(fi.write, 8);
    LERoundTrip(fi.change, 8);
    LERoundTrip(fi.endOfFile, 8);
    LERoundTrip(fi.allocation, 8);
    LERoundTrip(fi.attributes, 4);
    LERoundTrip(2 * |fi.name|, 4);
  }

  lemma HeadSlices(fi: Info, next: nat)
    ensures
      var h := EntryHead(fi, next);
      && h[0..4] == LE(next, 4) && h[8..16] == LE(fi.creation, 8) && h[16..24] == LE(fi.access, 8) && h[24..32] == LE(fi.write, 8)
      && h[32..40] == LE(fi.change, 8) && h[40..48] == LE(fi.endOfFile, 8) && h[48..56] == LE(fi.allocation, 8)
      && h[56..60] == LE(fi.attributes, 4) && h[60..64] == LE((2 * |fi.name|) % 0x1_0000_0000, 4)
  {
    hide LE;
  }

  lemma FieldInPrefix(h: seq<byte>, rest: seq<byte>, off: nat, n: nat)
    requires off + n <= |h|
    ensures Field(h + rest, off, n) == Field(h, off, n)
  {
    assert (h + rest)[off..off + n] == h[off..off + n];
  }

  lemma FieldsInPrefix(h: seq<byte>, rest: seq<byte>)
    requires |h| == 64
    ensures
      var b := h + rest;
      && Field(b, 0, 4) == Field(h, 0, 4) && Field(b, 8, 8) == Field(h, 8, 8) && Field(b, 16, 8) == Field(h, 16, 8)
      && Field(b, 24, 8) == Field(h, 24, 8) && Field(b, 32, 8) == Field(h, 32, 8) && Field(b, 40, 8) == Field(h, 40, 8)
      && Field(b, 48, 8) == Field(h, 48, 8) && Field(b, 56, 4) == Field(h, 56, 4) && Field(b, 60, 4) == Field(h, 60, 4)
  {
    hide Field;
    FieldInPrefix(h, rest, 0, 4);
    FieldInPrefix(h, rest, 8, 8);
    FieldInPrefix(h, rest, 16, 8);
    FieldInPrefix(h, rest, 24, 8);
    FieldInPrefix(h, rest, 32, 8);
    FieldInPrefix(h, rest, 40, 8);
    FieldInPrefix(h, rest, 48, 8);
    FieldInPrefix(h, rest, 56, 4);
    FieldInPrefix(h, rest, 60, 4);
  }

  lemma DecodeGiven(both: bool, b: seq<byte>, fi: Info, offset: nat)
    requires |b| >= FixedSize(both) + 2 * |fi.name| && InBmp(fi.name)
    requires b[FixedSize(both)..FixedSize(both) + 2 * |fi.name|] == Utf16ToBytes(fi.name)
    requires Field(b, 8, 8) == fi.creation && Field(b, 16, 8) == fi.access && Field(b, 24, 8) == fi.write && Field(b, 32, 8) == fi.change
    requires Field(b, 40, 8) == fi.endOfFile && Field(b, 48, 8) == fi.allocation && Field(b, 56, 4) == fi.attributes && Field(b, 60, 4) == 2 * |fi.name|
    ensures Decode(both, b, offset) == Some(Seen(fi, offset))
  {
    hide Field, Utf16ToBytes, Utf16FromBytes;
    NameRoundTripIff(fi.name);
  }

  /** An entry at the front of a buffer reads back, link and all. */
  lemma EntryReadsBack(both: bool, fi: Info, next: nat, rest: seq<byte>, offset: nat)
    requires Representable(both, fi) && next < 0x1_0000_0000
    ensures
      var b := EncodeEntry(both, fi, next) + rest;
      |b| >= FixedSize(both) && Field(b, 0, 4) == next && Decode(both, b, offset) == Some(Seen(fi, offset))
  {
    hide EncodeEntry, EntryHead, Decode, Field, Utf16ToBytes, Zeros, EntrySize, Padding;
    EntrySplits(both, fi, next, rest);
    HeadReadsBack(both, fi, next, Zeros(FixedSize(both) - 64), Zeros(Padding(NameEnd(both, fi))) + rest, offset);
  }

  lemma EntrySplits(both: bool, fi: Info, next: nat, rest: seq<byte>)
    ensures EncodeEntry(both, fi, next) + rest
         == EntryHead(fi, next) + (Zeros(FixedSize(both) - 64) + Utf16ToBytes(fi.name) + (Zeros(Padding(NameEnd(both, fi))) + rest))
  {
    hide EntryHead, Utf16ToBytes, Padding;
  }

  lemma HeadReadsBack(both: bool, fi: Info, next: nat, gap: seq<byte>, rest: seq<byte>, offset: nat)
    requires Representable(both, fi) && next < 0x1_0000_0000 && |gap| == FixedSize(both) - 64
    ensures
      var b := EntryHead(fi, next) + (gap + Utf16ToBytes(fi.name) + rest);
      |b| >= FixedSize(both) && Field(b, 0, 4) == next && Decode(both, b, offset) == Some(Seen(fi, offset))
  {
    var h, name := EntryHead(fi, next), Utf16ToBytes(fi.name);
    HeadFields(fi, next);
    hide EntryHead, Utf16ToBytes, Field, Decode, InBmp;
    FieldsInPrefix(h, gap + name + rest);
    NameBehindHead(h, gap, name, rest);
    DecodeGiven(both, h + (gap + name + rest), fi, offset);
  }

  lemma NameBehindHead(h: seq<byte>, gap: seq<byte>, name: seq<byte>, rest: seq<byte>)
    ensures (h + (gap + name + rest))[|h| + |gap|..|h| + |gap| + |name|] == name
  {
    assert h + (gap + name + rest) == h + gap + name + rest;
  }

  lemma WalkStops(both: bool, b: seq<byte>, offset: nat, x: Found)
    requires |b| >= 4 && Decode(both, b, offset) == Some(x) && Field(b, 0, 4) == 0
    ensures Walk(both, b, offset) == Some([x])
  {
    hide Decode, Field;
  }

  lemma WalkGoesOn(both: bool, head: seq<byte>, tail: seq<byte>, offset: nat, x: Found, rest: seq<Found>)
    requires |head| >= 4 && Decode(both, head + tail, offset) == Some(x) && Field(head + tail, 0, 4) == |head|
    requires Walk(both, tail, offset + |head|) == Some(rest)
    ensures Walk(both, head + tail, offset) == Some([x] + rest)
  {
    hide Decode, Field;
    assert (head + tail)[|head|..] == tail;
  }

  /** Walking a page by its links finds exactly its entries, in order, at their places, and ends in zero. */
  lemma {:induction false} WalkFindsPage(both: bool, es: seq<Info>, offset: nat)
    requires es != [] && forall i :: 0 <= i < |es| ==> Representable(both, es[i])
    ensures Walk(both, Page(both, es), offset) == Some(SeenAll(both, es, offset))
    decreases |es|
  {
    hide EncodeEntry, Decode, Field, Walk, EntrySize, Page, SeenAll, InBmp;
    assert Representable(both, es[0]);
    FrontOfPage(both, es, offset);
    if |es| == 1 {
      EntryReadsBack(both, es[0], 0, [], offset);
      assert EncodeEntry(both, es[0], 0) + [] == EncodeEntry(both, es[0], 0);
      WalkStops(both, EncodeEntry(both, es[0], 0), offset, Seen(es[0], offset));
    } else {
      var size, tail := EntrySize(both, es[0]), Page(both, es[1..]);
      EntryReadsBack(both, es[0], size, tail, offset);
      WalkFindsPage(both, es[1..], offset + size);
      WalkGoesOn(both, EncodeEntry(both, es[0], size), tail, offset, Seen(es[0], offset), SeenAll(both, es[1..], offset + size));
    }
  }

  lemma FrontOfPage(both: bool, es: seq<Info>, offset: nat)
    requires es != [] && EntrySize(both, es[0]) < 0x1_0000_0000
    ensures |es| == 1 ==> Page(both, es) == EncodeEntry(both, es[0], 0) && SeenAll(both, es, offset) == [Seen(es[0], offset)]
    ensures |es| > 1 ==> Page(both, es) == EncodeEntry(both, es[0], EntrySize(both, es[0])) + Page(both, es[1..])
    ensures |es| > 1 ==> SeenAll(both, es, offset) == [Seen(es[0], offset)] + SeenAll(both, es[1..], offset + EntrySize(both, es[0]))
  {
    hide EncodeEntry, EntrySize;
  }

  /** Every entry of a page starts on a multiple of eight. */
  lemma {:induction false} StartsAligned(both: bool, es: seq<Info>, offset: nat, i: nat)
    requires i < |es| && offset % 8 == 0
    ensures SeenAll(both, es, offset)[i].offset % 8 == 0
    decreases |es|
  {
    hide EntrySize;
    if i > 0 {
      AlignedSum(offset, EntrySize(both, es[0]));
      StartsAligned(both, es[1..], offset + EntrySize(both, es[0]), i - 1);
    }
  }
}
