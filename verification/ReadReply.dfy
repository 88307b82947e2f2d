/** The READ response: room is made for all that was asked, the backend fills some of it, and the response is
    cut to that or taken back. */
module ReadReply {
  import opened Bytes
  import Headers

  /** Size code, offset of the data from the response's header, count, nothing remaining, the data. */
  function Body(data: seq<byte>): seq<byte> {
    LE(17, 2) + LE(80, 2) + LE(|data|, 4) + Zeros(8) + data
  }

  method Alloc(out: seq<byte>, length: uint32) returns (r: seq<byte>)
    ensures r == out + LE(17, 2) + LE(80, 2) + LE(length, 4) + Zeros(8) + Zeros(length)
  {
    hide LE;
    r := out + Zeros(16 + length);
    r := PutField(r, |out|, 2, 17);
    assert r == out + LE(17, 2) + Zeros(14 + length);
    r := PutField(r, |out| + 2, 2, 80);
    assert r == out + LE(17, 2) + LE(80, 2) + Zeros(12 + length);
    r := PutField(r, |out| + 4, 4, length);
    assert r == out + LE(17, 2) + LE(80, 2) + LE(length, 4) + Zeros(8 + length);
  }

  /** `filled` is the data area after the backend's read of `n` bytes. Whatever the backend did, what stands in
      front of the body stays, and the body is the bytes read or the error body. */
  method HandleRead(out: seq<byte>, length: uint32, filled: seq<byte>, n: nat, failed: bool) returns (r: seq<byte>, ok: bool)
    requires |filled| == length && n <= length
    ensures ok == (!failed && n > 0)
    ensures r == out + if ok then Body(filled[..n]) else Headers.ERROR_BODY
  {
    hide LE, PutField;
    var respStart := |out|;
    r := Alloc(out, length);
    r := r[..respStart + 16] + filled;
    if failed || n == 0 {
      r := r[..respStart];
      assert r == out;
      return r + Headers.ERROR_BODY, false;
    }
    Filled(out, length, filled, n);
    r := PutField(r, respStart + 4, 4, n)[..respStart + 16 + n];
    ok := true;
  }

  lemma Filled(out: seq<byte>, length: uint32, filled: seq<byte>, n: nat)
    requires |filled| == length && n <= length
    ensures
      var area := (out + LE(17, 2) + LE(80, 2) + LE(length, 4) + Zeros(8) + Zeros(length))[..|out| + 16] + filled;
      |area| == |out| + 16 + length && PutField(area, |out| + 4, 4, n)[..|out| + 16 + n] == out + Body(filled[..n])
  {
    hide LE;
    var area := (out + LE(17, 2) + LE(80, 2) + LE(length, 4) + Zeros(8) + Zeros(length))[..|out| + 16] + filled;
    var pre := out + LE(17, 2) + LE(80, 2);
    assert area == pre + LE(length, 4) + Zeros(8) + filled;
    assert area[..|pre|] == pre && area[|pre| + 4..] == Zeros(8) + filled;
    assert (pre + LE(n, 4) + (Zeros(8) + filled))[..|out| + 16 + n] == pre + LE(n, 4) + Zeros(8) + filled[..n];
  }
}
