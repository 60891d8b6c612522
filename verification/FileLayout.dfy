/** How download.rs cuts the byte space of a torrent into files: the binary search for the file of an
    offset, and the split of a range over files. */
module FileLayout {
  import opened ByteStrings

  /** One offset for each file and the total at the end. */
  ghost predicate ValidOffsets(o: seq<nat>) {
    && |o| >= 1 && o[0] == 0
    && forall i, j :: 0 <= i <= j < |o| ==> o[i] <= o[j]
  }

  function Total(o: seq<nat>): nat
    requires |o| >= 1
  {
    o[|o| - 1]
  }

  // ---- The offsets of `create_files` ----

  function OffsetsFrom(start: nat, lengths: seq<nat>): seq<nat>
    decreases |lengths|
  {
    if lengths == [] then [start] else [start] + OffsetsFrom(start + lengths[0], lengths[1..])
  }

  lemma {:induction false} OffsetsAreSums(start: nat, lengths: seq<nat>)
    ensures var o := OffsetsFrom(start, lengths);
            && |o| == |lengths| + 1 && o[0] == start
            && (forall i :: 0 <= i < |lengths| ==> o[i + 1] == o[i] + lengths[i])
            && forall i, j :: 0 <= i <= j < |o| ==> o[i] <= o[j]
    decreases |lengths|
  {
    if lengths != [] { OffsetsAreSums(start + lengths[0], lengths[1..]); }
  }

  method CreateOffsets(lengths: seq<nat>) returns (fileOffsets: seq<nat>)
    ensures fileOffsets == OffsetsFrom(0, lengths) && ValidOffsets(fileOffsets)
  {
    fileOffsets := [];
    var fileOffset := 0;
    for i := 0 to |lengths|
      invariant fileOffsets + OffsetsFrom(fileOffset, lengths[i..]) == OffsetsFrom(0, lengths)
    {
      assert lengths[i..][1..] == lengths[i + 1..];
      assert fileOffsets + ([fileOffset] + OffsetsFrom(fileOffset + lengths[i], lengths[i + 1..]))
          == fileOffsets + [fileOffset] + OffsetsFrom(fileOffset + lengths[i], lengths[i + 1..]);
      fileOffsets := fileOffsets + [fileOffset];
      fileOffset := fileOffset + lengths[i];
    }
    fileOffsets := fileOffsets + [fileOffset];
    OffsetsAreSums(0, lengths);
  }

  /** The offsets as a build without overflow checks adds them up. */
  function WrappedOffsetsFrom(start: nat, lengths: seq<nat>): seq<nat>
    decreases |lengths|
  {
    if lengths == [] then [start]
    else [start] + WrappedOffsetsFrom((start + lengths[0]) % TWO_64, lengths[1..])
  }

  lemma {:induction false} WrappedFit(start: nat, lengths: seq<nat>)
    requires start < TWO_64
    ensures forall i :: 0 <= i < |WrappedOffsetsFrom(start, lengths)| ==> WrappedOffsetsFrom(start, lengths)[i] < TWO_64
    decreases |lengths|
  {
    if lengths != [] { WrappedFit((start + lengths[0]) % TWO_64, lengths[1..]); }
  }

  /** The sums are right exactly when the total fits 64 bits. */
  lemma {:induction false} OffsetsWrapIff(start: nat, lengths: seq<nat>)
    requires start < TWO_64
    ensures |OffsetsFrom(start, lengths)| > 0
    ensures WrappedOffsetsFrom(start, lengths) == OffsetsFrom(start, lengths)
       <==> Total(OffsetsFrom(start, lengths)) < TWO_64
    decreases |lengths|
  {
    OffsetsAreSums(start, lengths);
    WrappedFit(start, lengths);
    var o := OffsetsFrom(start, lengths);
    if lengths != [] && Total(o) < TWO_64 {
      assert o[1] <= Total(o) && o[1] == start + lengths[0];
      OffsetsWrapIff(start + lengths[0], lengths[1..]);
    }
  }

  // ---- search_index ----

  function SearchFrom(o: seq<nat>, offset: nat, left: nat, right: int): int
    requires right < |o|
    decreases right - left + 1
  {
    if left > right then right
    else
      var mid := (left + right) / 2;
      if offset == o[mid] then mid
      else if offset < o[mid] then SearchFrom(o, offset, left, mid - 1)
      else SearchFrom(o, offset, mid + 1, right)
  }

  function SearchIndex(o: seq<nat>, offset: nat): int
    requires |o| >= 1
  {
    SearchFrom(o, offset, 0, |o| - 1)
  }

  /** `i` is a file that the offset lies in, or a file (an empty one, if need be) that starts there. */
  ghost predicate IsIndexOf(o: seq<nat>, offset: nat, i: int) {
    && 0 <= i < |o| && o[i] <= offset
    && (i + 1 < |o| && o[i] < offset ==> offset < o[i + 1])
  }

  lemma {:induction false} SearchFromFinds(o: seq<nat>, offset: nat, left: nat, right: int)
    requires ValidOffsets(o) && left <= right + 1 <= |o|
    requires forall i :: 0 <= i < left ==> o[i] < offset
    requires forall i :: right < i < |o| ==> offset < o[i]
    ensures IsIndexOf(o, offset, SearchFrom(o, offset, left, right))
    decreases right - left + 1
  {
    assert o[0] == 0;
    if left <= right {
      var mid := (left + right) / 2;
      if offset < o[mid] {
        SearchFromFinds(o, offset, left, mid - 1);
      } else if offset > o[mid] {
        SearchFromFinds(o, offset, mid + 1, right);
      }
    }
  }

  /** The search finds the place of every offset; below the total that is a file, never the end. */
  lemma SearchIndexFinds(o: seq<nat>, offset: nat)
    requires ValidOffsets(o)
    ensures IsIndexOf(o, offset, SearchIndex(o, offset))
    ensures offset < Total(o) ==> SearchIndex(o, offset) < |o| - 1
  {
    SearchFromFinds(o, offset, 0, |o| - 1);
  }

  method FindIndex(o: seq<nat>, offset: nat) returns (r: int)
    requires |o| >= 1
    ensures r == SearchIndex(o, offset)
  {
    var left, right := 0, |o| - 1;
    while left <= right
      invariant 0 <= left <= right + 1 <= |o|
      invariant SearchFrom(o, offset, left, right) == SearchIndex(o, offset)
      decreases right - left + 1
    {
      var mid := (left + right) / 2;
      if offset == o[mid] {
        return mid;
      } else if offset < o[mid] {
        right := mid - 1;
      } else {
        left := mid + 1;
      }
    }
    return right;
  }

  // ---- search_ptrs ----

  /** A part of a range: where it is in the data, where in its file, and how long. */
  datatype Slice = Slice(dataPtr: nat, filePtr: nat, len: nat)

  /** What `search_ptrs` can be given: file `i`, a place in it, and a length that the torrent holds. */
  ghost predicate InFile(o: seq<nat>, i: int, filePtr: int, left: int) {
    && ValidOffsets(o) && 0 <= i < |o| - 1 && 0 <= filePtr && 0 <= left
    && o[i] + filePtr <= o[i + 1] && o[i] + filePtr + left <= Total(o)
  }

  function SplitFrom(o: seq<nat>, i: nat, dataPtr: nat, filePtr: nat, left: nat): seq<Slice>
    requires InFile(o, i, filePtr, left)
    decreases |o| - i
  {
    if left + o[i] + filePtr > o[i + 1] then
      var l := o[i + 1] - o[i] - filePtr;
      [Slice(dataPtr, filePtr, l)] + SplitFrom(o, i + 1, dataPtr + l, 0, left - l)
    else [Slice(dataPtr, filePtr, left)]
  }

  lemma SplitStep(o: seq<nat>, i: nat, dataPtr: nat, filePtr: nat, left: nat, vec: seq<Slice>)
    requires InFile(o, i, filePtr, left) && left + o[i] + filePtr > o[i + 1]
    ensures var l := o[i + 1] - o[i] - filePtr;
            && 0 <= l <= left && InFile(o, i + 1, 0, left - l)
            && vec + SplitFrom(o, i, dataPtr, filePtr, left)
            == vec + [Slice(dataPtr, filePtr, l)] + SplitFrom(o, i + 1, dataPtr + l, 0, left - l)
  {
  }

  /** The ranges that `search_ptrs` can split: they end inside the total, and the search for their start
      lands on a file, which at the total itself is so only if the torrent ends with an empty file. */
  predicate Splittable(o: seq<nat>, offset: nat, len: nat)
    requires |o| >= 1
  {
    offset + len <= Total(o) && SearchIndex(o, offset) < |o| - 1
  }

  /** `None` is an index past the last offset, a panic. */
  method SearchPtrs(o: seq<nat>, offset: nat, len: nat) returns (r: Option<(nat, seq<Slice>)>)
    requires ValidOffsets(o)
    ensures r.Some? <==> Splittable(o, offset, len)
    ensures r.Some? ==>
              var (index, vec) := r.value;
              && index == SearchIndex(o, offset) && index < |o| && InFile(o, index, offset - o[index], len)
              && vec == SplitFrom(o, index, 0, offset - o[index], len)
  {
    SearchIndexFinds(o, offset);
    var index := FindIndex(o, offset);
    if index + 1 == |o| { return None; }
    var vec: seq<Slice> := [];
    var i, dataPtr, left, filePtr: int := index, 0, len, offset - o[index];
    while left + o[i] + filePtr > o[i + 1]
      invariant 0 <= i < |o| - 1 && 0 <= filePtr && 0 <= left && 0 <= dataPtr
      invariant o[i] + filePtr <= o[i + 1] && o[i] + filePtr + left == offset + len
      invariant offset + len <= Total(o) ==>
                  vec + SplitFrom(o, i, dataPtr, filePtr, left) == SplitFrom(o, index, 0, offset - o[index], len)
      decreases |o| - i
    {
      var l := o[i + 1] - o[i] - filePtr;
      if offset + len <= Total(o) { SplitStep(o, i, dataPtr, filePtr, left, vec); }
      vec := vec + [Slice(dataPtr, filePtr, l)];
      dataPtr, left, filePtr, i := dataPtr + l, left - l, 0, i + 1;
      if i + 1 == |o| { return None; }
    }
    vec := vec + [Slice(dataPtr, filePtr, left)];
    return Some((index, vec));
  }

  /** Slice `s` of a range of `len` bytes at `offset` lies inside file `j`, where its data pointer says. */
  ghost predicate LiesIn(o: seq<nat>, j: int, s: Slice, offset: int, len: int) {
    && 0 <= j < |o| - 1
    && o[j] + s.filePtr == offset + s.dataPtr
    && o[j] + s.filePtr + s.len <= o[j + 1]
    && s.dataPtr + s.len <= len
  }

  /** The split covers the range in order, without gap or overlap. */
  lemma {:induction false} SplitCovers(o: seq<nat>, i: nat, dataPtr: nat, filePtr: nat, left: nat)
    requires InFile(o, i, filePtr, left)
    ensures var v := SplitFrom(o, i, dataPtr, filePtr, left);
            && v != [] && v[0].dataPtr == dataPtr
            && v[|v| - 1].dataPtr + v[|v| - 1].len == dataPtr + left
            && forall k :: 0 < k < |v| ==> v[k - 1].dataPtr + v[k - 1].len == v[k].dataPtr
    decreases |o| - i
  {
    if left + o[i] + filePtr > o[i + 1] {
      var l := o[i + 1] - o[i] - filePtr;
      SplitCovers(o, i + 1, dataPtr + l, 0, left - l);
    }
  }

  /** Its slices lie in consecutive files, each at the place of the flat space that it stands for. */
  lemma {:induction false} SplitLiesIn(o: seq<nat>, i: nat, dataPtr: nat, filePtr: nat, left: nat, k: nat)
    requires InFile(o, i, filePtr, left) && k < |SplitFrom(o, i, dataPtr, filePtr, left)|
    ensures LiesIn(o, i + k, SplitFrom(o, i, dataPtr, filePtr, left)[k], o[i] + filePtr - dataPtr, dataPtr + left)
    decreases |o| - i
  {
    if left + o[i] + filePtr > o[i + 1] && k > 0 {
      var l := o[i + 1] - o[i] - filePtr;
      SplitLiesIn(o, i + 1, dataPtr + l, 0, left - l, k - 1);
    }
  }

  /** The files that a range is split over: the first one and how many. */
  function FilesOf(o: seq<nat>, offset: nat, len: nat): (r: (nat, nat))
    requires ValidOffsets(o) && offset < Total(o) && offset + len <= Total(o)
    ensures r.0 + r.1 <= |o| - 1
  {
    SearchIndexFinds(o, offset);
    var index := SearchIndex(o, offset);
    SplitReach(o, index, 0, offset - o[index], len);
    (index, |SplitFrom(o, index, 0, offset - o[index], len)|)
  }

  /** A non-empty file is among those of the split of a non-empty range exactly when they overlap. */
  lemma SplitVisits(o: seq<nat>, offset: nat, len: nat, f: nat)
    requires ValidOffsets(o) && len > 0 && offset + len <= Total(o)
    requires f < |o| - 1 && o[f] < o[f + 1]
    ensures var (first, count) := FilesOf(o, offset, len);
            first <= f < first + count <==> o[f] < offset + len && offset < o[f + 1]
  {
    SearchIndexFinds(o, offset);
    var index := SearchIndex(o, offset);
    assert o[index] == offset ==> offset <= o[index + 1];
    SplitReach(o, index, 0, offset - o[index], len);
    var last := index + |SplitFrom(o, index, 0, offset - o[index], len)| - 1;
    if f > last { assert o[last + 1] <= o[f]; }
    if f < index { assert o[f + 1] <= o[index]; }
    if index < f <= last { assert o[f] <= o[last]; }
  }

  /** The split stops in the file where the range ends. */
  lemma {:induction false} SplitReach(o: seq<nat>, i: nat, dataPtr: nat, filePtr: nat, left: nat)
    requires InFile(o, i, filePtr, left)
    ensures var last := i + |SplitFrom(o, i, dataPtr, filePtr, left)| - 1;
            && i <= last < |o| - 1
            && o[i] + filePtr + left <= o[last + 1]
            && (last > i ==> o[last] < o[i] + filePtr + left)
    decreases |o| - i
  {
    if left + o[i] + filePtr > o[i + 1] {
      SplitReach(o, i + 1, dataPtr + (o[i + 1] - o[i] - filePtr), 0, left - (o[i + 1] - o[i] - filePtr));
    }
  }

  // ---- Empty files in front ----

  /** The search for offset zero lands on a file that does not end there. */
  predicate StartsWithBytes(o: seq<nat>)
    requires |o| >= 1
  {
    var i := SearchIndex(o, 0);
    0 <= i < |o| - 1 && o[i + 1] > 0
  }

  /** File `f` is among those of the split of a range that is not empty. */
  ghost predicate Visited(o: seq<nat>, offset: nat, len: nat, f: nat)
    requires ValidOffsets(o)
  {
    && 0 < len && offset + len <= Total(o)
    && var (first, count) := FilesOf(o, offset, len);
       first <= f < first + count
  }

  ghost predicate EndsLater(o: seq<nat>, f: nat) {
    f + 1 < |o| && o[f + 1] > 0
  }

  lemma VisitedEndsLater(o: seq<nat>, offset: nat, len: nat, f: nat)
    requires ValidOffsets(o) && StartsWithBytes(o) && Visited(o, offset, len, f)
    ensures EndsLater(o, f)
  {
    SearchIndexFinds(o, offset);
    var i := SearchIndex(o, offset);
    assert o[i + 1] <= o[f + 1];
  }

  ghost predicate NeverUnderflows(o: seq<nat>)
    requires ValidOffsets(o)
  {
    forall offset: nat, len: nat, f: nat :: Visited(o, offset, len, f) ==> EndsLater(o, f)
  }

  /** The end of a visited file minus one, as at line 161, never underflows exactly when the search for
      offset zero lands on a file with bytes. */
  lemma NeverUnderflowsIff(o: seq<nat>)
    requires ValidOffsets(o) && Total(o) > 0
    ensures NeverUnderflows(o) <==> StartsWithBytes(o)
  {
    if StartsWithBytes(o) {
      forall offset: nat, len: nat, f: nat | Visited(o, offset, len, f) ensures EndsLater(o, f) {
        VisitedEndsLater(o, offset, len, f);
      }
    } else {
      SearchIndexFinds(o, 0);
      var i := SearchIndex(o, 0);
      SplitReach(o, i, 0, 0, 1);
      assert Visited(o, 0, 1, i);
    }
  }

  /** One empty file in front of one file is passed over, since the binary search looks there last; in front
      of three it is found, and line 161 underflows. */
  lemma EmptyFileInFront(n: nat, k: nat)
    requires 0 < n && 0 < k
    ensures ValidOffsets([0, 0, n]) && StartsWithBytes([0, 0, n])
    ensures ValidOffsets([0, 0, n, n + k, n + k + k]) && !StartsWithBytes([0, 0, n, n + k, n + k + k])
  {
    FoundSecond(n);
    FoundFirst(n, k);
  }

  lemma FoundSecond(n: nat)
    requires 0 < n
    ensures SearchIndex([0, 0, n], 0) == 1
  {
  }

  lemma FoundFirst(n: nat, k: nat)
    requires 0 < n && 0 < k
    ensures SearchIndex([0, 0, n, n + k, n + k + k], 0) == 0
  {
    var o := [0, 0, n, n + k, n + k + k];
    assert SearchFrom(o, 0, 0, 4) == SearchFrom(o, 0, 0, 1);
    assert SearchFrom(o, 0, 0, 1) == 0;
  }
}
