/** The encrypted transport frame: a 52-byte transform header, then the ciphertext. */
module Transform {
  import opened Bytes
  import opened Ccm
  import opened CcmInPlace

  datatype OpenError = TooShort | BadProtocolId | SizeMismatch | AuthenticationFailed
  datatype Opened = Message(text: seq<byte>) | Refused(error: OpenError)

  const HEADER_SIZE := 52
  const PROTOCOL_ID: seq<byte> := [0xFD, 0x53, 0x4D, 0x42]

  // ------------------------------------------------------------------ layout

  /** Bytes 20..52: nonce field, message size, reserved, algorithm, session id. They are authenticated. */
  function HeaderTail(nonce: seq<byte>, size: nat, sessId: nat): (s: seq<byte>)
    requires |nonce| == 11
    ensures |s| == 32
  {
    nonce + Zeros(5) + LE(size, 4) + Zeros(2) + LE(1, 2) + LE(sessId, 8)
  }

  function Frame(tag: Block, tail: seq<byte>, text: seq<byte>): seq<byte> {
    PROTOCOL_ID + tag + tail + text
  }

  /** What sealing a message under a fresh nonce produces; the size field is 32 bits wide. */
  function Seal(E: Cipher, nonce: seq<byte>, msg: seq<byte>, sessId: nat): seq<byte>
    requires |nonce| == 11
  {
    var tail := HeaderTail(nonce, |msg| % 0x1_0000_0000, sessId);
    var c := Encrypt(E, nonce, tail, msg);
    Frame(c.tag, tail, c.text)
  }

  function Open(E: Cipher, t: seq<byte>): Opened
  {
    if |t| < HEADER_SIZE then Refused(TooShort)
    else if t[0..4] != PROTOCOL_ID then Refused(BadProtocolId)
    else if |t| - HEADER_SIZE != Field(t, 36, 4) then Refused(SizeMismatch)
    else if !Accepts(E, t[20..31], t[20..52], Sealed(t[52..], t[4..20])) then Refused(AuthenticationFailed)
    else Message(Ctr(E, t[20..31], 1, t[52..]))
  }

  // -------------------------------------------------------------- properties

  lemma FrameParts(tag: Block, tail: seq<byte>, text: seq<byte>)
    requires |tail| == 32
    ensures
      var t := Frame(tag, tail, text);
      && |t| == HEADER_SIZE + |text|
      && t[0..4] == PROTOCOL_ID && t[4..20] == tag && t[20..52] == tail && t[52..] == text
  {
  }

  lemma TailParts(nonce: seq<byte>, size: nat, sessId: nat)
    requires |nonce| == 11
    ensures
      var s := HeaderTail(nonce, size, sessId);
      s[0..11] == nonce && s[11..16] == Zeros(5) && s[16..20] == LE(size, 4) && s[20..22] == Zeros(2) && s[22..24] == [1, 0] && s[24..32] == LE(sessId, 8)
  {
  }

  lemma SizeOfSealed(E: Cipher, nonce: seq<byte>, msg: seq<byte>, sessId: nat)
    requires |nonce| == 11
    ensures
      var t := Seal(E, nonce, msg, sessId);
      && |t| == HEADER_SIZE + |msg|
      && Field(t, 36, 4) == |msg| % 0x1_0000_0000
      && t[20..31] == nonce
  {
    var tail := HeaderTail(nonce, |msg| % 0x1_0000_0000, sessId);
    var c := Encrypt(E, nonce, tail, msg);
    var t := Frame(c.tag, tail, c.text);
    FrameParts(c.tag, tail, c.text);
    TailParts(nonce, |msg| % 0x1_0000_0000, sessId);
    assert t[36..40] == t[20..52][16..20];
    assert t[20..31] == t[20..52][0..11];
    PowFacts();
    LERoundTrip(|msg| % 0x1_0000_0000, 4);
  }

  /** The frame in numbers: protocol id, tag, nonce, size at byte 36, algorithm 1 at 42, session id at 44, text from 52. */
  lemma SealedAsWritten(E: Cipher, nonce: seq<byte>, msg: seq<byte>, sessId: nat)
    requires |nonce| == 11
    ensures
      var t := Seal(E, nonce, msg, sessId);
      && |t| == 52 + |msg| && t[0..4] == [0xFD, 0x53, 0x4D, 0x42] && t[20..31] == nonce
      && t[36..40] == LE(|msg| % 0x1_0000_0000, 4) && t[42..44] == [1, 0] && t[44..52] == LE(sessId, 8)
      && var c := Encrypt(E, nonce, t[20..52], msg); t[4..20] == c.tag && t[52..] == c.text
  {
    hide Encrypt, LE, HeaderTail;
    var tail := HeaderTail(nonce, |msg| % 0x1_0000_0000, sessId);
    var c := Encrypt(E, nonce, tail, msg);
    EncryptLength(E, nonce, tail, msg);
    FrameParts(c.tag, tail, c.text);
    TailParts(nonce, |msg| % 0x1_0000_0000, sessId);
    var t := Frame(c.tag, tail, c.text);
    assert t[20..31] == tail[0..11] && t[36..40] == tail[16..20] && t[42..44] == tail[22..24] && t[44..52] == tail[24..32];
  }

  lemma EncryptLength(E: Cipher, nonce: seq<byte>, aad: seq<byte>, msg: seq<byte>)
    requires NonceOk(nonce) && |aad| < 0x1_0000_0000
    ensures |Encrypt(E, nonce, aad, msg).text| == |msg|
  {
  }

  /** Opening a sealed message gives it back exactly when its length fits the size field. */
  lemma OpenSealIff(E: Cipher, nonce: seq<byte>, msg: seq<byte>, sessId: nat)
    requires |nonce| == 11
    ensures Open(E, Seal(E, nonce, msg, sessId)) == Message(msg) <==> |msg| < 0x1_0000_0000
    ensures |msg| >= 0x1_0000_0000 ==> Open(E, Seal(E, nonce, msg, sessId)) == Refused(SizeMismatch)
  {
    hide Ctr, Mac, Accepts, HeaderTail;
    var tail := HeaderTail(nonce, |msg| % 0x1_0000_0000, sessId);
    var c := Encrypt(E, nonce, tail, msg);
    FrameParts(c.tag, tail, c.text);
    SizeOfSealed(E, nonce, msg, sessId);
    if |msg| < 0x1_0000_0000 {
      DecryptAfterEncrypt(E, nonce, tail, msg);
    }
  }

  /** A frame opens to a message exactly when it is well formed and, byte for byte, the frame
      of that message's encryption under the nonce and header it carries. */
  lemma OpenedIffAuthentic(E: Cipher, t: seq<byte>, msg: seq<byte>)
    ensures Open(E, t) == Message(msg)
       <==> && |t| >= HEADER_SIZE && Field(t, 36, 4) == |msg|
            && var c := Encrypt(E, t[20..31], t[20..52], msg);
               t == Frame(c.tag, t[20..52], c.text)
  {
    hide Ctr, Mac, Accepts, CounterBlock;
    if |t| >= HEADER_SIZE {
      var nonce, tail := t[20..31], t[20..52];
      var c := Sealed(t[52..], t[4..20]);
      AcceptedIffEncryption(E, nonce, tail, c);
      CtrTwice(E, nonce, 1, c.text);
      var e := Encrypt(E, nonce, tail, msg);
      CtrTwice(E, nonce, 1, msg);
      FrameParts(e.tag, tail, e.text);
      assert t == t[0..4] + t[4..20] + t[20..52] + t[52..];
    }
  }

  // ------------------------------------------------------------------ methods

  /** Fills in the header of a zeroed buffer, field by field; the tag stays zero. */
  method WriteHeader(out: array<byte>, nonce: seq<byte>, size: nat, sessId: nat)
    requires |nonce| == 11 && out.Length >= HEADER_SIZE && forall k :: 0 <= k < 52 ==> out[k] == 0
    modifies out
    ensures out[..] == PROTOCOL_ID + Zeros(16) + HeaderTail(nonce, size, sessId) + old(out[52..])
  {
    hide LE;
    CopyInto(out, 0, PROTOCOL_ID);
    CopyInto(out, 20, nonce + Zeros(5));
    CopyInto(out, 36, LE(size, 4));
    CopyInto(out, 42, LE(1, 2));
    CopyInto(out, 44, LE(sessId, 8));
    assert forall k :: 52 <= k < out.Length ==> out[k] == old(out[k]);
    assert forall k :: 4 <= k < 20 ==> out[k] == 0;
    assert out[40] == 0 && out[41] == 0;
    assert out[0..4] == PROTOCOL_ID && out[20..36] == nonce + Zeros(5);
    assert out[36..40] == LE(size, 4) && out[42..44] == LE(1, 2) && out[44..52] == LE(sessId, 8);
    assert out[4..20] == Zeros(16) && out[40..42] == Zeros(2) && out[52..] == old(out[52..]);
    HeaderFromParts(out[..], nonce, size, sessId);
  }

  lemma HeaderFromParts(t: seq<byte>, nonce: seq<byte>, size: nat, sessId: nat)
    requires |nonce| == 11 && |t| >= HEADER_SIZE
    requires t[0..4] == PROTOCOL_ID && t[4..20] == Zeros(16) && t[20..36] == nonce + Zeros(5)
    requires t[36..40] == LE(size, 4) && t[40..42] == Zeros(2) && t[42..44] == LE(1, 2) && t[44..52] == LE(sessId, 8)
    ensures t == PROTOCOL_ID + Zeros(16) + HeaderTail(nonce, size, sessId) + t[52..]
  {
    hide LE;
    assert t[20..52] == t[20..36] + t[36..40] + t[40..42] + t[42..44] + t[44..52];
    assert t == t[0..4] + t[4..20] + t[20..52] + t[52..];
  }

  /** Fills a fresh buffer and encrypts its tail in place. */
  method SealMessage(E: Cipher, nonce: seq<byte>, msg: seq<byte>, sessId: nat) returns (out: array<byte>)
    requires |nonce| == 11
    ensures fresh(out) && out[..] == Seal(E, nonce, msg, sessId)
  {
    hide Encrypt, HeaderTail, Frame;
    ghost var tail := HeaderTail(nonce, |msg| % 0x1_0000_0000, sessId);
    out := new byte[HEADER_SIZE + |msg|](_ => 0);
    WriteHeader(out, nonce, |msg| % 0x1_0000_0000, sessId);
    ghost var head := out[..52];
    HeadParts(out[..], tail);
    CopyInto(out, HEADER_SIZE, msg);
    assert out[..52] == head && out[52..] == msg && out[20..52] == head[20..52];
    var tag := CcmEncryptInPlace(E, nonce, out[20..52], out, HEADER_SIZE);
    TagInPlace(out[..], head, tail, tag);
    CopyInto(out, 4, tag);
  }

  lemma HeadParts(t: seq<byte>, tail: seq<byte>)
    requires |t| >= 52 && |tail| == 32 && t == PROTOCOL_ID + Zeros(16) + tail + t[52..]
    ensures t[..52] == PROTOCOL_ID + Zeros(16) + tail && t[..52][20..52] == tail
  {
  }

  lemma TagInPlace(t: seq<byte>, head: seq<byte>, tail: seq<byte>, tag: Block)
    requires |t| >= 52 && |tail| == 32 && t[..52] == head == PROTOCOL_ID + Zeros(16) + tail
    ensures t[..4] + tag + t[20..] == Frame(tag, tail, t[52..])
  {
    assert t[..4] == head[..4] == PROTOCOL_ID;
    assert t[20..52] == head[20..52] == tail;
    assert t[20..] == t[20..52] + t[52..];
  }

  /** Checks the header, then decrypts the frame where it stands. */
  method OpenMessage(E: Cipher, transform: array<byte>) returns (r: Opened)
    modifies transform
    ensures r == Open(E, old(transform[..]))
  {
    hide Ctr, Accepts, Encrypt;
    ghost var t := transform[..];
    if transform.Length < HEADER_SIZE { return Refused(TooShort); }
    if transform[0..4] != PROTOCOL_ID { return Refused(BadProtocolId); }
    var size := Field(transform[..], 36, 4);
    if transform.Length - HEADER_SIZE != size { return Refused(SizeMismatch); }
    var nonce, tag, aad := transform[20..31], transform[4..20], transform[20..52];
    assert nonce == t[20..31] && tag == t[4..20] && aad == t[20..52] && transform[52..] == t[52..];
    var ok := CcmDecryptInPlace(E, nonce, aad, transform, HEADER_SIZE, tag);
    if !ok { return Refused(AuthenticationFailed); }
    return Message(transform[HEADER_SIZE..]);
  }
}
