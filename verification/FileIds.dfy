/** Sixteen-byte file identifiers, built from a session id, a tree id and a counter. */
module FileIds {
  import opened Bytes

  type FileId = s: seq<byte> | |s| == 16 witness Zeros(16)

  /** The counter is 64 bits wide in the tree and is cut to 32 bits here. */
  function MakeFileId(sessId: uint64, treeId: uint32, counter: nat): (fid: FileId)
  {
    LE(sessId, 8) + LE(treeId, 4) + LE(counter % 0x1_0000_0000, 4)
  }

  function SessionOf(fid: FileId): (sessId: uint64)
  {
    PowFacts();
    UnLE(fid[0..8])
  }

  function TreeOf(fid: FileId): (treeId: uint32)
  {
    PowFacts();
    UnLE(fid[8..12])
  }

  function CounterOf(fid: FileId): (counter: uint32)
  {
    PowFacts();
    UnLE(fid[12..16])
  }

  lemma FileIdParts(sessId: uint64, treeId: uint32, counter: nat)
    ensures
      var fid := MakeFileId(sessId, treeId, counter);
      fid[0..8] == LE(sessId, 8) && fid[8..12] == LE(treeId, 4) && fid[12..16] == LE(counter % 0x1_0000_0000, 4)
    ensures SessionOf(MakeFileId(sessId, treeId, counter)) == sessId
    ensures TreeOf(MakeFileId(sessId, treeId, counter)) == treeId
    ensures CounterOf(MakeFileId(sessId, treeId, counter)) == counter % 0x1_0000_0000
  {
    var fid := MakeFileId(sessId, treeId, counter);
    PowFacts();
    assert fid[0..8] == LE(sessId, 8);
    assert fid[8..12] == LE(treeId, 4);
    assert fid[12..16] == LE(counter % 0x1_0000_0000, 4);
    LERoundTrip(sessId, 8);
    LERoundTrip(treeId, 4);
    LERoundTrip(counter % 0x1_0000_0000, 4);
  }

  /** Two opens share an identifier exactly when session and tree agree and the counters agree modulo 2^32. */
  lemma FileIdsCollideIff(s1: uint64, t1: uint32, c1: nat, s2: uint64, t2: uint32, c2: nat)
    ensures MakeFileId(s1, t1, c1) == MakeFileId(s2, t2, c2)
       <==> s1 == s2 && t1 == t2 && c1 % 0x1_0000_0000 == c2 % 0x1_0000_0000
  {
    FileIdParts(s1, t1, c1);
    FileIdParts(s2, t2, c2);
  }
}
