/** The digests of hash.rs. SHA-1 itself is a parameter of the theorems that mention it. */
module Sha1Hash {
  import opened ByteStrings

  const SIZE: nat := 20

  type Sha1 = b: Bytes | |b| == 20 witness seq(20, _ => 0)

  /** `sha1_list`: the whole 20-byte chunks, a partial last chunk is dropped. */
  function Sha1List(bytes: Bytes): seq<Sha1> {
    if |bytes| < SIZE then [] else [bytes[..SIZE]] + Sha1List(bytes[SIZE..])
  }

  /** `Vec<Sha1>` back into one byte string. */
  function Join(hashes: seq<Sha1>): Bytes {
    if hashes == [] then [] else hashes[0] + Join(hashes[1..])
  }

  method ReadSha1List(bytes: Bytes) returns (res: seq<Sha1>)
    ensures res == Sha1List(bytes)
  {
    var i := SIZE;
    res := [];
    while i <= |bytes|
      invariant SIZE <= i <= |bytes| + SIZE
      invariant Sha1List(bytes) == res + Sha1List(bytes[i - SIZE..])
    {
      var from := i - SIZE;
      assert Sha1List(bytes) == res + [bytes[from..i]] + Sha1List(bytes[i..]) by { NextChunk(bytes, from, res); }
      res := res + [bytes[from..i]];
      i := i + SIZE;
    }
    assert Sha1List(bytes[i - SIZE..]) == [];
  }

  lemma NextChunk(bytes: Bytes, from: nat, res: seq<Sha1>)
    requires from + SIZE <= |bytes|
    requires Sha1List(bytes) == res + Sha1List(bytes[from..])
    ensures Sha1List(bytes) == res + [bytes[from..from + SIZE]] + Sha1List(bytes[from + SIZE..])
  {
    var left := bytes[from..];
    assert left[..SIZE] == bytes[from..from + SIZE] && left[SIZE..] == bytes[from + SIZE..];
  }

  lemma {:induction false} SplitJoin(hashes: seq<Sha1>)
    ensures Sha1List(Join(hashes)) == hashes && |Join(hashes)| == SIZE * |hashes|
  {
    if hashes != [] {
      SplitJoin(hashes[1..]);
      assert Join(hashes)[..SIZE] == hashes[0] && Join(hashes)[SIZE..] == Join(hashes[1..]);
    }
  }

  /** Chunking loses exactly the partial last chunk. */
  lemma {:induction false} JoinSplit(bytes: Bytes)
    ensures |Sha1List(bytes)| == |bytes| / SIZE
    ensures Join(Sha1List(bytes)) == bytes[..|bytes| - |bytes| % SIZE]
    ensures Join(Sha1List(bytes)) == bytes <==> |bytes| % SIZE == 0
  {
    if |bytes| >= SIZE {
      var tail := bytes[SIZE..];
      JoinSplit(tail);
      assert |tail| % SIZE == |bytes| % SIZE;
      assert bytes[..|bytes| - |bytes| % SIZE] == bytes[..SIZE] + tail[..|tail| - |tail| % SIZE];
    }
  }
}
