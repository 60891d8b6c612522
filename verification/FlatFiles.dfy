/** The files of a torrent as one flat byte space: `store_block`, `store` and `read` of download.rs. */
module FlatFiles {
  import opened ByteStrings
  import opened FileLayout

  /** The contents of the files, in order, as one string of bytes. */
  function Flat(files: seq<Bytes>): Bytes {
    if files == [] then [] else files[0] + Flat(files[1..])
  }

  ghost predicate HasSize(o: seq<nat>, i: nat, size: nat)
    requires i + 1 < |o|
  {
    o[i] + size == o[i + 1]
  }

  /** Each file has the size that the offsets give it. */
  ghost predicate Fits(o: seq<nat>, files: seq<Bytes>) {
    && ValidOffsets(o) && |files| == |o| - 1
    && forall i :: 0 <= i < |files| ==> HasSize(o, i, |files[i]|)
  }

  /** `s` with `d` written over it at `at`. */
  function Splice(s: Bytes, at: nat, d: Bytes): (r: Bytes)
    requires at + |d| <= |s|
    ensures |r| == |s|
  {
    s[..at] + d + s[at + |d|..]
  }

  // ---- Files and the flat space ----

  lemma {:induction false} FlatSplit(files: seq<Bytes>, i: nat)
    requires i < |files|
    ensures Flat(files) == Flat(files[..i]) + (files[i] + Flat(files[i + 1..]))
  {
    if i > 0 {
      var tail := files[1..];
      FlatSplit(tail, i - 1);
      assert tail[..i - 1] == files[..i][1..] && tail[i - 1 + 1..] == files[i + 1..];
      Assoc(files[0], Flat(tail[..i - 1]), files[i] + Flat(files[i + 1..]));
    }
  }

  lemma {:induction false} FlatLength(o: seq<nat>, files: seq<Bytes>, i: nat)
    requires Fits(o, files) && i <= |files|
    ensures |Flat(files[..i])| == o[i]
  {
    if i > 0 {
      FlatLength(o, files, i - 1);
      FlatSplit(files[..i], i - 1);
      assert files[..i][..i - 1] == files[..i - 1] && files[..i][i..] == [];
      assert o[i - 1] <= o[i];
    }
  }

  lemma FlatTotal(o: seq<nat>, files: seq<Bytes>)
    requires Fits(o, files)
    ensures |Flat(files)| == Total(o)
  {
    FlatLength(o, files, |files|);
    assert files[..|files|] == files;
  }

  /** A part of file `i` is the part of the flat space that starts at the file's offset. */
  lemma FlatSlice(o: seq<nat>, files: seq<Bytes>, i: nat, from: nat, len: nat)
    requires Fits(o, files) && i < |files| && from + len <= |files[i]|
    ensures o[i] + from + len <= |Flat(files)|
    ensures Flat(files)[o[i] + from..o[i] + from + len] == files[i][from..from + len]
  {
    FlatLength(o, files, i);
    FlatSplit(files, i);
    SliceOfMiddle(Flat(files[..i]), files[i], Flat(files[i + 1..]), from, len);
  }

  lemma SliceOfMiddle(a: Bytes, b: Bytes, c: Bytes, from: nat, len: nat)
    requires from + len <= |b|
    ensures (a + (b + c))[|a| + from..|a| + from + len] == b[from..from + len]
  {
  }

  lemma SpliceOfMiddle(a: Bytes, b: Bytes, c: Bytes, at: nat, d: Bytes)
    requires at + |d| <= |b|
    ensures Splice(a + (b + c), |a| + at, d) == a + (Splice(b, at, d) + c)
  {
  }

  /** Writing into one file is writing into the flat space. */
  lemma FlatUpdate(o: seq<nat>, files: seq<Bytes>, i: nat, at: nat, d: Bytes)
    requires Fits(o, files) && i < |files| && at + |d| <= |files[i]|
    ensures Fits(o, files[i := Splice(files[i], at, d)])
    ensures o[i] + at + |d| <= |Flat(files)|
    ensures Flat(files[i := Splice(files[i], at, d)]) == Splice(Flat(files), o[i] + at, d)
  {
    var after := files[i := Splice(files[i], at, d)];
    FlatLength(o, files, i);
    FlatSplit(files, i);
    FlatSplit(after, i);
    assert after[..i] == files[..i] && after[i + 1..] == files[i + 1..];
    SpliceOfMiddle(Flat(files[..i]), files[i], Flat(files[i + 1..]), at, d);
  }

  /** Two writes one after the other are one write. */
  lemma SpliceSplice(s: Bytes, at: nat, d: Bytes, k: nat, l: nat)
    requires at + |d| <= |s| && k + l <= |d|
    ensures Splice(Splice(s, at, d[..k]), at + k, d[k..k + l]) == Splice(s, at, d[..k + l])
  {
  }

  lemma SpliceEnds(s: Bytes, at: nat, d: Bytes)
    requires at + |d| <= |s|
    ensures Splice(s, at, d[..0]) == s && Splice(s, at, d[..|d|]) == Splice(s, at, d)
  {
    assert d[..|d|] == d;
  }

  /** What was written is read back, and nothing else has changed. */
  lemma SpliceReads(s: Bytes, at: nat, d: Bytes, from: nat, len: nat)
    requires at + |d| <= |s| && from + len <= |s|
    ensures Splice(s, at, d)[at..at + |d|] == d
    ensures from + len <= at || at + |d| <= from ==> Splice(s, at, d)[from..from + len] == s[from..from + len]
  {
    var r := Splice(s, at, d);
    assert r[at..at + |d|] == d;
    if from + len <= at || at + |d| <= from {
      assert forall k :: from <= k < from + len ==> r[k] == s[k];
      assert r[from..from + len] == s[from..from + len];
    }
  }

  // ---- The files in memory ----

  ghost function ContentsUpTo(files: seq<array<byte>>, n: nat): (r: seq<Bytes>)
    requires n <= |files|
    reads files
    ensures |r| == n
  {
    if n == 0 then [] else ContentsUpTo(files, n - 1) + [files[n - 1][..]]
  }

  ghost function Contents(files: seq<array<byte>>): (r: seq<Bytes>)
    reads files
    ensures |r| == |files|
  {
    ContentsUpTo(files, |files|)
  }

  lemma {:induction false} ContentsAt(files: seq<array<byte>>, n: nat, i: nat)
    requires i < n <= |files|
    ensures ContentsUpTo(files, n)[i] == files[i][..]
  {
    if i < n - 1 { ContentsAt(files, n - 1, i); }
  }

  /** Open files: no two are the same, and they have the sizes of the layout. */
  ghost predicate Opened(o: seq<nat>, files: seq<array<byte>>)
    reads files
  {
    && ValidOffsets(o) && |files| == |o| - 1
    && (forall i, j :: 0 <= i < j < |files| ==> files[i] != files[j])
    && forall i :: 0 <= i < |files| ==> HasSize(o, i, files[i].Length)
  }

  ghost function Disk(files: seq<array<byte>>): Bytes
    reads files
  {
    Flat(Contents(files))
  }

  lemma OpenedFits(o: seq<nat>, files: seq<array<byte>>)
    requires Opened(o, files)
    ensures Fits(o, Contents(files)) && |Disk(files)| == Total(o)
  {
    forall i | 0 <= i < |files| ensures HasSize(o, i, |Contents(files)[i]|) { ContentsAt(files, |files|, i); }
    FlatTotal(o, Contents(files));
  }

  lemma ContentsAre(files: seq<array<byte>>, now: seq<Bytes>)
    requires |now| == |files| && forall k :: 0 <= k < |files| ==> files[k][..] == now[k]
    ensures Contents(files) == now
  {
    forall k | 0 <= k < |files| ensures Contents(files)[k] == now[k] { ContentsAt(files, |files|, k); }
  }

  /** `store`: seek in file `i` and write a part of `data` there. */
  method StoreSlice(files: seq<array<byte>>, o: seq<nat>, i: nat, s: Slice, data: Bytes)
    requires Opened(o, files) && i < |files|
    requires s.filePtr + s.len <= files[i].Length && s.dataPtr + s.len <= |data|
    modifies files
    ensures Opened(o, files) && o[i] + s.filePtr + s.len <= |old(Disk(files))|
    ensures Disk(files) == Splice(old(Disk(files)), o[i] + s.filePtr, data[s.dataPtr..s.dataPtr + s.len])
  {
    var file := files[i];
    ghost var before, part := Contents(files), data[s.dataPtr..s.dataPtr + s.len];
    OpenedFits(o, files);
    forall k | 0 <= k < |files| ensures files[k][..] == before[k] { ContentsAt(files, |files|, k); }
    forall k | 0 <= k < s.len { file[s.filePtr + k] := data[s.dataPtr + k]; }
    assert file[..] == Splice(before[i], s.filePtr, part);
    ContentsAre(files, before[i := Splice(before[i], s.filePtr, part)]);
    FlatUpdate(o, before, i, s.filePtr, part);
  }

  /** How far the parts before `a` reach. */
  ghost function Done(vec: seq<Slice>, a: nat): nat
    requires a <= |vec|
  {
    if a == 0 then 0 else vec[a - 1].dataPtr + vec[a - 1].len
  }

  ghost predicate Parts(o: seq<nat>, index: nat, vec: seq<Slice>, offset: nat, len: nat) {
    && Done(vec, |vec|) == len
    && forall a :: 0 <= a < |vec| ==> PartAt(o, index, vec, a, offset, len)
  }

  /** Part `a` starts where the ones before it end, and lies in its file. */
  ghost predicate PartAt(o: seq<nat>, index: nat, vec: seq<Slice>, a: nat, offset: nat, len: nat)
    requires a < |vec|
  {
    Done(vec, a) == vec[a].dataPtr && LiesIn(o, index + a, vec[a], offset, len)
  }

  /** Part `a` of a range, once the data before it has been written. */
  method StorePart(files: seq<array<byte>>, o: seq<nat>, offset: nat, data: Bytes, index: nat, vec: seq<Slice>,
      a: nat, ghost disk: Bytes)
    requires Opened(o, files) && a < |vec| && PartAt(o, index, vec, a, offset, |data|) && offset + |data| <= |disk|
    requires Disk(files) == Splice(disk, offset, data[..vec[a].dataPtr])
    modifies files
    ensures Opened(o, files) && Disk(files) == Splice(disk, offset, data[..vec[a].dataPtr + vec[a].len])
  {
    var s := vec[a];
    StoreSlice(files, o, index + a, s, data);
    SpliceSplice(disk, offset, data, s.dataPtr, s.len);
  }

  /** `search_ptrs`, for callers that only need a cover of the range. */
  method FindParts(o: seq<nat>, offset: nat, len: nat) returns (index: nat, vec: seq<Slice>)
    requires ValidOffsets(o) && Splittable(o, offset, len)
    ensures Parts(o, index, vec, offset, len)
  {
    var r := SearchPtrs(o, offset, len);
    index, vec := r.value.0, r.value.1;
    SplitCovers(o, index, 0, offset - o[index], len);
    forall a | 0 <= a < |vec| ensures PartAt(o, index, vec, a, offset, len) {
      SplitLiesIn(o, index, 0, offset - o[index], len, a);
    }
  }

  /** The loop of `store_block`. */
  method StoreParts(files: seq<array<byte>>, o: seq<nat>, offset: nat, data: Bytes, index: nat, vec: seq<Slice>)
    requires Opened(o, files) && Parts(o, index, vec, offset, |data|) && offset + |data| <= Total(o)
    modifies files
    ensures Opened(o, files) && |old(Disk(files))| == Total(o)
    ensures Disk(files) == Splice(old(Disk(files)), offset, data)
  {
    OpenedFits(o, files);
    ghost var disk := Disk(files);
    SpliceEnds(disk, offset, data);
    ghost var done := 0;
    for a := 0 to |vec|
      invariant Opened(o, files) && done == Done(vec, a) <= |data|
      invariant Disk(files) == Splice(disk, offset, data[..done])
    {
      assert PartAt(o, index, vec, a, offset, |data|);
      StorePart(files, o, offset, data, index, vec, a, disk);
      done := vec[a].dataPtr + vec[a].len;
    }
  }

  /** `store_block`: whatever the layout, one write into the flat space, and nothing else. */
  method StoreBlock(files: seq<array<byte>>, o: seq<nat>, offset: nat, data: Bytes)
    requires Opened(o, files) && Splittable(o, offset, |data|)
    modifies files
    ensures Opened(o, files) && |old(Disk(files))| == Total(o)
    ensures Disk(files) == Splice(old(Disk(files)), offset, data)
  {
    var index, vec := FindParts(o, offset, |data|);
    StoreParts(files, o, offset, data, index, vec);
  }

  lemma SliceJoins(s: Bytes, a: nat, b: nat, c: nat)
    requires a <= b <= c <= |s|
    ensures s[a..b] + s[b..c] == s[a..c]
  {
  }

  /** The next part of a range, once the buffer holds the bytes before it. */
  method ReadPart(files: seq<array<byte>>, o: seq<nat>, offset: nat, buffer: Bytes, i: nat, s: Slice)
      returns (filled: Bytes)
    requires Opened(o, files) && LiesIn(o, i, s, offset, |buffer|) && offset + |buffer| <= Total(o)
    requires |Disk(files)| == Total(o) && buffer[..s.dataPtr] == Disk(files)[offset..offset + s.dataPtr]
    ensures |filled| == |buffer|
    ensures filled[..s.dataPtr + s.len] == Disk(files)[offset..offset + (s.dataPtr + s.len)]
  {
    var part := files[i][s.filePtr..s.filePtr + s.len];
    ContentsAt(files, |files|, i);
    OpenedFits(o, files);
    FlatSlice(o, Contents(files), i, s.filePtr, s.len);
    SliceJoins(Disk(files), offset, offset + s.dataPtr, offset + s.dataPtr + s.len);
    filled := Splice(buffer, s.dataPtr, part);
    assert filled[..s.dataPtr + s.len] == buffer[..s.dataPtr] + part;
  }

  /** The loop of `read`. */
  method ReadParts(files: seq<array<byte>>, o: seq<nat>, offset: nat, len: nat, index: nat, vec: seq<Slice>)
      returns (buffer: Bytes)
    requires Opened(o, files) && Parts(o, index, vec, offset, len) && offset + len <= Total(o)
    ensures |Disk(files)| == Total(o) && buffer == Disk(files)[offset..offset + len]
  {
    OpenedFits(o, files);
    buffer := seq(len, _ => 0);
    ghost var done := 0;
    for a := 0 to |vec|
      invariant done == Done(vec, a) <= len == |buffer|
      invariant buffer[..done] == Disk(files)[offset..offset + done]
    {
      var s := vec[a];
      assert PartAt(o, index, vec, a, offset, len);
      buffer := ReadPart(files, o, offset, buffer, index + a, s);
      done := s.dataPtr + s.len;
    }
  }

  /** `read`: a slice of the flat space, whatever the layout. */
  method Read(files: seq<array<byte>>, o: seq<nat>, offset: nat, len: nat) returns (buffer: Bytes)
    requires Opened(o, files) && Splittable(o, offset, len)
    ensures |Disk(files)| == Total(o) && buffer == Disk(files)[offset..offset + len]
  {
    var index, vec := FindParts(o, offset, len);
    buffer := ReadParts(files, o, offset, len, index, vec);
  }
}
