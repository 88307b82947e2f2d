/** The 64-byte SMB2 header: writing it in place, reading it back, and the fields rewritten later. */
module Headers {
  import opened Bytes
  import opened Ccm

  const PROTOCOL_ID: seq<byte> := [0xFE, 0x53, 0x4D, 0x42]

  /** The body every refused request gets. */
  const ERROR_BODY: seq<byte> := [9, 0, 0, 0, 0, 0, 0, 0]

  const SERVER_TO_REDIR := 1
  const ASYNC_COMMAND := 2
  const RELATED_OPS := 4
  const SIGNED := 8

  datatype Header = Header(
    creditCharge: uint16,
    status: uint32,
    command: uint16,
    credit: uint16,
    flags: uint32,
    nextCommand: uint32,
    messageId: uint64,
    asyncId: uint64,
    treeId: uint32,
    sessionId: uint64,
    signature: Block)

  // ---------------------------------------------------------------- flags

  predicate IsFlag(f: nat) { f == 1 || f == 2 || f == 4 || f == 8 }

  function BitAt(n: nat, f: nat): nat
    requires IsFlag(f)
  {
    if f == 1 then n % 2 else if f == 2 then (n / 2) % 2 else if f == 4 then (n / 4) % 2 else (n / 8) % 2
  }

  predicate Has(flags: uint32, f: nat)
    requires IsFlag(f)
  {
    BitAt(flags, f) == 1
  }

  /** The four low bits decide. */
  lemma LowBits(q: nat, r: nat)
    requires r < 16
    ensures (16 * q + r) % 2 == r % 2
    ensures ((16 * q + r) / 2) % 2 == (r / 2) % 2
    ensures ((16 * q + r) / 4) % 2 == (r / 4) % 2
    ensures ((16 * q + r) / 8) % 2 == (r / 8) % 2
  {
    assert (16 * q + r) / 2 == 8 * q + r / 2;
    assert (16 * q + r) / 4 == 4 * q + r / 4;
    assert (16 * q + r) / 8 == 2 * q + r / 8;
  }

  lemma ChangeBit(flags: uint32, f: nat)
    requires IsFlag(f)
    ensures !Has(flags, f) ==> flags % 16 + f < 16
    ensures Has(flags, f) ==> flags % 16 >= f
  {
    var q, r := flags / 16, flags % 16;
    assert flags == 16 * q + r;
    HasInNibble(flags, q, r, f);
    hide BitAt, Has;
    NibbleFlags(r, f, f);
  }

  function SetFlag(flags: uint32, f: nat): (r: uint32)
    requires IsFlag(f)
  {
    ChangeBit(flags, f);
    if Has(flags, f) then flags else flags + f
  }

  function ClearFlag(flags: uint32, f: nat): (r: uint32)
    requires IsFlag(f)
  {
    ChangeBit(flags, f);
    if Has(flags, f) then flags - f else flags
  }

  lemma Digits(a: nat, b: nat, c: nat, d: nat)
    requires a < 2 && b < 2 && c < 2 && d < 2
    ensures
      var r := a + 2 * b + 4 * c + 8 * d;
      r < 16 && BitAt(r, 1) == a && BitAt(r, 2) == b && BitAt(r, 4) == c && BitAt(r, 8) == d
  {
    var r := a + 2 * b + 4 * c + 8 * d;
    assert r / 2 == b + 2 * c + 4 * d;
    assert r / 4 == c + 2 * d;
    assert r / 8 == d;
  }

  lemma ToDigits(r: nat) returns (a: nat, b: nat, c: nat, d: nat)
    requires r < 16
    ensures a < 2 && b < 2 && c < 2 && d < 2 && r == a + 2 * b + 4 * c + 8 * d
  {
    a, b, c, d := r % 2, (r / 2) % 2, (r / 4) % 2, r / 8;
  }

  lemma NibbleFlags(r: nat, f: nat, g: nat)
    requires r < 16 && IsFlag(f) && IsFlag(g)
    ensures BitAt(r, f) == 0 ==> r + f < 16 && BitAt(r + f, g) == if g == f then 1 else BitAt(r, g)
    ensures BitAt(r, f) == 1 ==> r >= f && BitAt(r - f, g) == if g == f then 0 else BitAt(r, g)
  {
    hide BitAt;
    var a, b, c, d := ToDigits(r);
    Digits(a, b, c, d);
    match f {
      case 1 => Digits(1 - a, b, c, d);
      case 2 => Digits(a, 1 - b, c, d);
      case 4 => Digits(a, b, 1 - c, d);
      case _ => Digits(a, b, c, 1 - d);
    }
  }

  lemma HasInNibble(flags: uint32, q: nat, r: nat, f: nat)
    requires r < 16 && flags == 16 * q + r && IsFlag(f)
    ensures Has(flags, f) == (BitAt(r, f) == 1)
  {
    LowBits(q, r);
  }

  /** Setting or clearing one flag does that and leaves the others. */
  lemma FlagChanges(flags: uint32, f: nat, g: nat)
    requires IsFlag(f) && IsFlag(g)
    ensures Has(SetFlag(flags, f), g) == (g == f || Has(flags, g))
    ensures Has(ClearFlag(flags, f), g) == (g != f && Has(flags, g))
  {
    var q, r := flags / 16, flags % 16;
    assert flags == 16 * q + r;
    hide Has;
    HasInNibble(flags, q, r, f);
    HasInNibble(flags, q, r, g);
    NibbleFlags(r, f, g);
    if BitAt(r, f) == 0 {
      HasInNibble(SetFlag(flags, f), q, r + f, g);
    } else {
      HasInNibble(ClearFlag(flags, f), q, r - f, g);
    }
  }

  // ---------------------------------------------------------------- layout

  function FrontHalf(h: Header): (s: seq<byte>)
    ensures |s| == 32
  {
    PROTOCOL_ID + LE(64, 2) + LE(h.creditCharge, 2) + LE(h.status, 4) + LE(h.command, 2) + LE(h.credit, 2)
    + LE(h.flags, 4) + LE(h.nextCommand, 4) + LE(h.messageId, 8)
  }

  /** An asynchronous header has one wide id where a synchronous one has a reserved field and the tree. */
  function Ids(h: Header): (s: seq<byte>)
    ensures |s| == 8
  {
    if Has(h.flags, ASYNC_COMMAND) then LE(h.asyncId, 8) else LE(0, 4) + LE(h.treeId, 4)
  }

  function Encode(h: Header): (s: seq<byte>)
    ensures |s| == 64
  {
    FrontHalf(h) + Ids(h) + LE(h.sessionId, 8) + h.signature
  }

  function Field16(b: seq<byte>, off: nat): uint16
    requires off + 2 <= |b|
  {
    PowFacts();
    Field(b, off, 2)
  }

  function Field32(b: seq<byte>, off: nat): uint32
    requires off + 4 <= |b|
  {
    PowFacts();
    Field(b, off, 4)
  }

  function Field64(b: seq<byte>, off: nat): uint64
    requires off + 8 <= |b|
  {
    PowFacts();
    Field(b, off, 8)
  }

  function Parse(b: seq<byte>): (r: Option<Header>)
    ensures r.Some? ==> |b| >= 64
  {
    if |b| < 64 || b[0..4] != PROTOCOL_ID then None
    else
      var flags := Field32(b, 16);
      var async := Has(flags, ASYNC_COMMAND);
      Some(Header(Field16(b, 6), Field32(b, 8), Field16(b, 12), Field16(b, 14), flags, Field32(b, 20), Field64(b, 24),
                  if async then Field64(b, 32) else 0, if async then 0 else Field32(b, 36), Field64(b, 40), b[48..64]))
  }

  /** What of a header travels: one of the two ids. */
  function Travelling(h: Header): Header {
    if Has(h.flags, ASYNC_COMMAND) then h.(treeId := 0) else h.(asyncId := 0)
  }

  lemma FrontSlices(h: Header)
    ensures
      var s := FrontHalf(h);
      && s[0..4] == PROTOCOL_ID && s[4..6] == LE(64, 2) && s[6..8] == LE(h.creditCharge, 2) && s[8..12] == LE(h.status, 4)
      && s[12..14] == LE(h.command, 2) && s[14..16] == LE(h.credit, 2) && s[16..20] == LE(h.flags, 4)
      && s[20..24] == LE(h.nextCommand, 4) && s[24..32] == LE(h.messageId, 8)
  {
    hide LE;
  }

  lemma BackSlices(h: Header)
    ensures
      var s := Encode(h);
      && s[..32] == FrontHalf(h) && s[32..40] == Ids(h) && s[40..48] == LE(h.sessionId, 8) && s[48..64] == h.signature
  {
    hide LE, FrontHalf, Ids;
  }

  lemma SliceOfSlice(s: seq<byte>, n: nat, lo: nat, hi: nat)
    requires lo <= hi <= n <= |s|
    ensures s[..n][lo..hi] == s[lo..hi]
  {
  }

  lemma FieldWithin(s: seq<byte>, n: nat, off: nat, k: nat, v: nat)
    requires off + k <= n <= |s| && s[..n][off..off + k] == LE(v, k) && v < Pow256(k)
    ensures Field(s, off, k) == v
  {
    SliceOfSlice(s, n, off, off + k);
    LERoundTrip(v, k);
  }

  lemma FrontFields(h: Header, rest: seq<byte>)
    ensures
      var b := Encode(h) + rest;
      && b[0..4] == PROTOCOL_ID && Field16(b, 6) == h.creditCharge && Field32(b, 8) == h.status && Field16(b, 12) == h.command
      && Field16(b, 14) == h.credit && Field32(b, 16) == h.flags && Field32(b, 20) == h.nextCommand && Field64(b, 24) == h.messageId
  {
    hide LE, Encode, FrontHalf, Field;
    FrontSlices(h);
    BackSlices(h);
    PowFacts();
    var b := Encode(h) + rest;
    assert b[..32] == Encode(h)[..32];
    SliceOfSlice(b, 32, 0, 4);
    FieldWithin(b, 32, 6, 2, h.creditCharge);
    FieldWithin(b, 32, 8, 4, h.status);
    FieldWithin(b, 32, 12, 2, h.command);
    FieldWithin(b, 32, 14, 2, h.credit);
    FieldWithin(b, 32, 16, 4, h.flags);
    FieldWithin(b, 32, 20, 4, h.nextCommand);
    FieldWithin(b, 32, 24, 8, h.messageId);
  }

  lemma BackFields(h: Header, rest: seq<byte>)
    ensures
      var b := Encode(h) + rest;
      && (Has(h.flags, ASYNC_COMMAND) ==> Field64(b, 32) == h.asyncId)
      && (!Has(h.flags, ASYNC_COMMAND) ==> Field32(b, 36) == h.treeId)
      && Field64(b, 40) == h.sessionId && b[48..64] == h.signature
  {
    hide LE, Encode, FrontHalf, Field, Has;
    BackSlices(h);
    PowFacts();
    var b := Encode(h) + rest;
    assert b[32..40] == Ids(h) && b[40..48] == LE(h.sessionId, 8) && b[48..64] == h.signature;
    SliceOfSlice(b, 64, 40, 48);
    FieldWithin(b, 64, 40, 8, h.sessionId);
    if Has(h.flags, ASYNC_COMMAND) {
      SliceOfSlice(b, 64, 32, 40);
      FieldWithin(b, 64, 32, 8, h.asyncId);
    } else {
      assert b[32..40][4..8] == b[36..40];
      assert (LE(0, 4) + LE(h.treeId, 4))[4..8] == LE(h.treeId, 4);
      SliceOfSlice(b, 64, 36, 40);
      FieldWithin(b, 64, 36, 4, h.treeId);
    }
  }

  /** A header read back is the header written, whatever follows it. */
  lemma ParseEncode(h: Header, rest: seq<byte>)
    ensures Parse(Encode(h) + rest) == Some(Travelling(h))
  {
    hide Encode, Field16, Field32, Field64;
    FrontFields(h, rest);
    BackFields(h, rest);
  }

  // ---------------------------------------------------------------- writing in place

  /** Writing a field where the next one belongs. */
  lemma WriteNext(out: seq<byte>, dst: seq<byte>, acc: seq<byte>, rest: seq<byte>, n: nat, v: nat)
    requires out == dst + acc + rest && n <= |rest|
    ensures |dst| + |acc| + n <= |out|
    ensures PutField(out, |dst| + |acc|, n, v) == dst + (acc + LE(v, n)) + rest[n..]
  {
    var pre := dst + acc;
    assert out[..|pre|] == pre && out[|pre| + n..] == rest[n..];
  }

  method EncodeFrontAt(dst: seq<byte>, at: nat, h: Header) returns (out: seq<byte>)
    requires at + 64 <= |dst|
    ensures out == dst[..at] + FrontHalf(h) + dst[at + 32..]
  {
    hide LE, PutField;
    ghost var d, acc, rest := dst[..at], PROTOCOL_ID, dst[at + 4..];
    out := dst[..at] + PROTOCOL_ID + dst[at + 4..];
    WriteNext(out, d, acc, rest, 2, 64);
    out := PutField(out, at + 4, 2, 64);
    acc, rest := acc + LE(64, 2), rest[2..];
    WriteNext(out, d, acc, rest, 2, h.creditCharge);
    out := PutField(out, at + 6, 2, h.creditCharge);
    acc, rest := acc + LE(h.creditCharge, 2), rest[2..];
    WriteNext(out, d, acc, rest, 4, h.status);
    out := PutField(out, at + 8, 4, h.status);
    acc, rest := acc + LE(h.status, 4), rest[4..];
    WriteNext(out, d, acc, rest, 2, h.command);
    out := PutField(out, at + 12, 2, h.command);
    acc, rest := acc + LE(h.command, 2), rest[2..];
    WriteNext(out, d, acc, rest, 2, h.credit);
    out := PutField(out, at + 14, 2, h.credit);
    acc, rest := acc + LE(h.credit, 2), rest[2..];
    WriteNext(out, d, acc, rest, 4, h.flags);
    out := PutField(out, at + 16, 4, h.flags);
    acc, rest := acc + LE(h.flags, 4), rest[4..];
    WriteNext(out, d, acc, rest, 4, h.nextCommand);
    out := PutField(out, at + 20, 4, h.nextCommand);
    acc, rest := acc + LE(h.nextCommand, 4), rest[4..];
    WriteNext(out, d, acc, rest, 8, h.messageId);
    out := PutField(out, at + 24, 8, h.messageId);
    acc, rest := acc + LE(h.messageId, 8), rest[8..];
    assert rest == dst[at + 32..];
  }

  /** Overwrites the 64 bytes at `at` with the header and nothing else. */
  method EncodeAt(dst: seq<byte>, at: nat, h: Header) returns (out: seq<byte>)
    requires at + 64 <= |dst|
    ensures out == dst[..at] + Encode(h) + dst[at + 64..]
  {
    hide LE, PutField, FrontHalf, Has;
    out := EncodeFrontAt(dst, at, h);
    ghost var d, acc, rest := dst[..at], FrontHalf(h), dst[at + 32..];
    if Has(h.flags, ASYNC_COMMAND) {
      WriteNext(out, d, acc, rest, 8, h.asyncId);
      out := PutField(out, at + 32, 8, h.asyncId);
      acc, rest := acc + LE(h.asyncId, 8), rest[8..];
    } else {
      WriteNext(out, d, acc, rest, 4, 0);
      out := PutField(out, at + 32, 4, 0);
      acc, rest := acc + LE(0, 4), rest[4..];
      WriteNext(out, d, acc, rest, 4, h.treeId);
      out := PutField(out, at + 36, 4, h.treeId);
      acc, rest := acc + LE(h.treeId, 4), rest[4..];
    }
    assert acc == FrontHalf(h) + Ids(h) && rest == dst[at + 40..];
    WriteNext(out, d, acc, rest, 8, h.sessionId);
    out := PutField(out, at + 40, 8, h.sessionId);
    acc, rest := acc + LE(h.sessionId, 8), rest[8..];
    assert out[..at + 48] == d + acc && out[at + 64..] == dst[at + 64..];
    out := out[..at + 48] + h.signature + out[at + 64..];
    assert d + acc + h.signature == d + Encode(h);
  }

  // ---------------------------------------------------------------- rewriting a written header

  /** The link written later. */
  lemma RewriteNext(h: Header, next: uint32)
    ensures PutField(Encode(h), 20, 4, next) == Encode(h.(nextCommand := next))
  {
    RewriteFront(h, h.(nextCommand := next), 20, 4, next);
  }

  /** The flags written again; the ids keep their shape. */
  lemma RewriteFlags(h: Header, flags: uint32)
    requires Has(flags, ASYNC_COMMAND) == Has(h.flags, ASYNC_COMMAND)
    ensures PutField(Encode(h), 16, 4, flags) == Encode(h.(flags := flags))
  {
    hide Has;
    RewriteFront(h, h.(flags := flags), 16, 4, flags);
  }

  lemma RewriteFront(h: Header, g: Header, off: nat, n: nat, v: nat)
    requires off + n <= 32 && FrontHalf(g)[..off] == FrontHalf(h)[..off] && FrontHalf(g)[off + n..] == FrontHalf(h)[off + n..]
    requires FrontHalf(g)[off..off + n] == LE(v, n) && Ids(g) == Ids(h) && g.sessionId == h.sessionId && g.signature == h.signature
    ensures PutField(Encode(h), off, n, v) == Encode(g)
  {
    hide LE, FrontHalf, Ids;
    var s, t := FrontHalf(h), FrontHalf(g);
    var back := Ids(h) + LE(h.sessionId, 8) + h.signature;
    assert Encode(h) == s + back && Encode(g) == t + back;
    assert t == t[..off] + t[off..off + n] + t[off + n..];
    assert (s + back)[..off] == s[..off] && (s + back)[off + n..] == s[off + n..] + back;
  }

  /** The signature written again. */
  lemma RewriteSignature(h: Header, sig: Block)
    ensures Encode(h)[..48] + sig == Encode(h.(signature := sig))
  {
    hide LE, FrontHalf, Ids;
    assert Encode(h)[..48] == FrontHalf(h) + Ids(h) + LE(h.sessionId, 8);
    SameFront(h, h.(signature := sig));
  }

  lemma SameFront(h: Header, g: Header)
    requires g == h.(signature := g.signature)
    ensures FrontHalf(g) == FrontHalf(h) && Ids(g) == Ids(h)
  {
  }
}
