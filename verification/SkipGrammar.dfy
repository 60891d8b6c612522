/** What `skip_item` takes, in literal bytes: less strict than the tree decoder, as it looks at no value. */
module SkipGrammar {
  import opened ByteStrings
  import opened Bencode
  import opened BencodeLaws
  import opened HashedBytes
  import opened Grammar

  predicate NumberBytes(s: Bytes) {
    forall i :: 0 <= i < |s| ==> s[i] == '-' as int || '0' as int <= s[i] <= '9' as int
  }

  /** Any number bytes between `i` and `e`, any items for keys, but whole byte strings and pairs only. */
  ghost predicate Skips(t: Bytes)
    decreases |t|, 0
  {
    || (Between('d', t, 'e') && SkipsPairs(Inside(t)))
    || (Between('l', t, 'e') && SkipsItems(Inside(t)))
    || (Between('i', t, 'e') && NumberBytes(Inside(t)))
    || exists k :: 0 < k <= |t| && StringText(t, t[k..])
  }

  ghost predicate SkipsItems(t: Bytes)
    decreases |t|, 1
  {
    t == [] || exists k :: 0 < k <= |t| && Skips(t[..k]) && SkipsItems(t[k..])
  }

  ghost predicate SkipsPairs(t: Bytes)
    decreases |t|, 1
  {
    t == [] || exists j, k :: 0 < j < k <= |t| && Skips(t[..j]) && Skips(t[j..k]) && SkipsPairs(t[k..])
  }

  lemma SkipsStarts(t: Bytes)
    requires Skips(t)
    ensures t != [] && t[0] != 'e' as int
  {
    if k :| 0 < k <= |t| && StringText(t, t[k..]) { assert t[..|t| - |t[k..]| - 1][0] == t[0]; }
  }

  // ---- Whatever is such a text is skipped ----

  lemma StringSkips(t: Bytes, b: Bytes, rest: Bytes)
    requires StringText(t, b)
    ensures SkipItem(t + rest) == Ok((), rest)
  {
    StringDecodes(t, b, rest);
    SkipFollowsDecode(t + rest);
  }

  lemma IntegerSkips(t: Bytes, rest: Bytes)
    requires Between('i', t, 'e') && NumberBytes(Inside(t))
    ensures SkipItem(t + rest) == Ok((), rest)
  {
    var s, n := t + rest, Inside(t);
    WholeText(t, rest);
    NumberLengthIs(n, Closing(rest));
    assert s[1..] == n + Closing(rest) && s[1 + |n|..] == Closing(rest);
    assert Closing(rest)[1..] == rest;
  }

  lemma {:induction false} SkipsIsSkipped(t: Bytes, rest: Bytes)
    requires Skips(t)
    ensures SkipItem(t + rest) == Ok((), rest)
    decreases |t|, 0
  {
    if Between('d', t, 'e') && SkipsPairs(Inside(t)) {
      PairsAreSkipped(Inside(t), rest);
      WholeText(t, rest);
      assert (t + rest)[1..] == Inside(t) + Closing(rest);
    } else if Between('l', t, 'e') && SkipsItems(Inside(t)) {
      ItemsAreSkipped(Inside(t), rest);
      WholeText(t, rest);
      assert (t + rest)[1..] == Inside(t) + Closing(rest);
    } else if Between('i', t, 'e') && NumberBytes(Inside(t)) {
      IntegerSkips(t, rest);
    } else {
      var k :| 0 < k <= |t| && StringText(t, t[k..]);
      StringSkips(t, t[k..], rest);
    }
  }

  lemma SkipCloses(rest: Bytes)
    ensures SkipItems(Closing(rest)) == Ok((), rest) && SkipPairs(Closing(rest)) == Ok((), rest)
  {
    assert Closing(rest)[1..] == rest;
  }

  lemma FirstSkipped(t: Bytes) returns (k: nat)
    requires SkipsItems(t) && t != []
    ensures 0 < k <= |t| && Skips(t[..k]) && SkipsItems(t[k..]) && t[0] != 'e' as int
  {
    k :| 0 < k <= |t| && Skips(t[..k]) && SkipsItems(t[k..]);
    SkipsStarts(t[..k]);
  }

  lemma FirstPairSkipped(t: Bytes) returns (j: nat, k: nat)
    requires SkipsPairs(t) && t != []
    ensures 0 < j < k <= |t| && Skips(t[..j]) && Skips(t[j..k]) && SkipsPairs(t[k..]) && t[0] != 'e' as int
  {
    j, k :| 0 < j < k <= |t| && Skips(t[..j]) && Skips(t[j..k]) && SkipsPairs(t[k..]);
    SkipsStarts(t[..j]);
  }

  lemma {:induction false} ItemsAreSkipped(t: Bytes, rest: Bytes)
    requires SkipsItems(t)
    ensures SkipItems(t + Closing(rest)) == Ok((), rest)
    decreases |t|, 1
  {
    var tail := Closing(rest);
    if t == [] {
      assert t + tail == tail;
      SkipCloses(rest);
    } else {
      var k := FirstSkipped(t);
      SkipsIsSkipped(t[..k], t[k..] + tail);
      ItemsAreSkipped(t[k..], rest);
      CutOff(t, tail, k, k);
      assert (t + tail)[0] == t[0];
    }
  }

  lemma {:induction false} PairsAreSkipped(t: Bytes, rest: Bytes)
    requires SkipsPairs(t)
    ensures SkipPairs(t + Closing(rest)) == Ok((), rest)
    decreases |t|, 1
  {
    var tail := Closing(rest);
    if t == [] {
      assert t + tail == tail;
      SkipCloses(rest);
    } else {
      var j, k := FirstPairSkipped(t);
      SkipsIsSkipped(t[..j], t[j..] + tail);
      SkipsIsSkipped(t[j..k], t[k..] + tail);
      PairsAreSkipped(t[k..], rest);
      CutOff(t, tail, j, k);
      assert (t + tail)[0] == t[0];
    }
  }

  // ---- And whatever is skipped is such a text ----

  /** The reader succeeds and leaves this. */
  predicate Leaves(r: Read<()>, rest: Bytes) {
    r.Ok? && r.rest == rest
  }

  lemma {:induction false} SkipLeavesEnd(s: Bytes)
    requires SkipItem(s).Ok?
    ensures EndsIn(s, SkipItem(s).rest)
    decreases |s|, 0
  {
    if s[0] == BYTE_D {
      SkipPairsLeavesEnd(s[1..]);
      EndsInTail(s, SkipItem(s).rest);
    } else if s[0] == BYTE_L {
      SkipItemsLeavesEnd(s[1..]);
      EndsInTail(s, SkipItem(s).rest);
    } else if s[0] == BYTE_I {
      var n := NumberLength(s[1..]);
      assert s[1 + n..][1..] == s[2 + n..];
    } else {
      SkippedStringIsRead(s);
      ReadByteStringLeavesEnd(s);
    }
  }

  /** A byte string is skipped as it is read. */
  lemma SkippedStringIsRead(s: Bytes)
    requires SkipItem(s).Ok? && s[0] !in {'d' as int, 'l' as int, 'i' as int}
    ensures ReadByteString(s).Ok? && ReadByteString(s).rest == SkipItem(s).rest
  {
  }

  lemma {:induction false} SkipItemsLeavesEnd(s: Bytes)
    requires SkipItems(s).Ok?
    ensures EndsIn(s, SkipItems(s).rest)
    decreases |s|, 1
  {
    if s[0] == BYTE_E {
      assert EndsIn(s, s[1..]);
    } else {
      SkipLeavesEnd(s);
      SkipItemsLeavesEnd(SkipItem(s).rest);
      EndsInEnd(s, SkipItem(s).rest, SkipItems(s).rest);
    }
  }

  lemma {:induction false} SkipPairsLeavesEnd(s: Bytes)
    requires SkipPairs(s).Ok?
    ensures EndsIn(s, SkipPairs(s).rest)
    decreases |s|, 1
  {
    if s[0] == BYTE_E {
      assert EndsIn(s, s[1..]);
    } else {
      var key := SkipItem(s);
      SkipLeavesEnd(s);
      SkipLeavesEnd(key.rest);
      SkipPairsLeavesEnd(SkipItem(key.rest).rest);
      EndsInEnd(s, key.rest, SkipItem(key.rest).rest);
      EndsInEnd(s, SkipItem(key.rest).rest, SkipPairs(s).rest);
    }
  }

  ghost predicate ClosedSkips(t: Bytes) {
    t != [] && t[|t| - 1] == 'e' as int && SkipsItems(t[..|t| - 1])
  }

  ghost predicate ClosedSkipPairs(t: Bytes) {
    t != [] && t[|t| - 1] == 'e' as int && SkipsPairs(t[..|t| - 1])
  }

  lemma ConsSkip(t: Bytes, k: nat)
    requires 0 < k < |t| && Skips(t[..k]) && ClosedSkips(t[k..])
    ensures ClosedSkips(t)
  {
    CutBefore(t, k, k);
    var u := t[..|t| - 1];
    assert Skips(u[..k]) && SkipsItems(u[k..]);
  }

  lemma ConsSkipPair(t: Bytes, j: nat, k: nat)
    requires 0 < j < k < |t| && Skips(t[..j]) && Skips(t[j..k]) && ClosedSkipPairs(t[k..])
    ensures ClosedSkipPairs(t)
  {
    CutBefore(t, j, k);
    var u := t[..|t| - 1];
    assert Skips(u[..j]) && Skips(u[j..k]) && SkipsPairs(u[k..]);
  }

  lemma FirstByte(t: Bytes, rest: Bytes)
    requires |rest| < |t + rest|
    ensures t != [] && (t + rest)[0] == t[0] && (t + rest)[1..] == t[1..] + rest
  {
  }

  lemma {:induction false} SkippedSkips(t: Bytes, rest: Bytes)
    requires Leaves(SkipItem(t + rest), rest)
    ensures Skips(t)
    decreases |t|, 0
  {
    FirstByte(t, rest);
    if t[0] == 'd' as int {
      SkippedPairsSkip(t[1..], rest);
      InsideIsTail(t);
    } else if t[0] == 'l' as int {
      SkippedItemsSkip(t[1..], rest);
      InsideIsTail(t);
    } else if t[0] == 'i' as int {
      SkippedIntegerSkips(t, rest);
    } else {
      SkippedStringSkips(t, rest);
    }
  }

  lemma InsideIsTail(t: Bytes)
    requires |t| >= 2
    ensures Inside(t) == t[1..][..|t[1..]| - 1] && t[|t| - 1] == t[1..][|t[1..]| - 1]
  {
  }

  lemma SkippedIntegerSkips(t: Bytes, rest: Bytes)
    requires Leaves(SkipItem(t + rest), rest) && t != [] && t[0] == 'i' as int
    ensures Skips(t)
  {
    var s := t + rest;
    var n := NumberLength(s[1..]);
    assert s[1 + n..][1..] == s[2 + n..] == rest;
    assert |t| == n + 2;
    assert forall i :: 0 <= i < n ==> Inside(t)[i] == s[1..][i];
  }

  lemma SkippedStringSkips(t: Bytes, rest: Bytes)
    requires Leaves(SkipItem(t + rest), rest) && t != [] && t[0] !in {'d' as int, 'l' as int, 'i' as int}
    ensures Skips(t)
  {
    SkippedStringIsRead(t + rest);
    var b := ReadByteString(t + rest).value;
    StringReadsIff(t, b, rest);
    assert t[|t| - |b|..] == b;
  }

  lemma {:induction false} SkippedItemsSkip(t: Bytes, rest: Bytes)
    requires Leaves(SkipItems(t + rest), rest)
    ensures ClosedSkips(t)
    decreases |t|, 1
  {
    assert t != [] && (t + rest)[0] == t[0];
    if t[0] == 'e' as int {
      assert |(t + rest)[1..]| == |t| - 1 + |rest|;
    } else {
      var k := ItemSkipped(t, rest);
      SkippedSkips(t[..k], t[k..] + rest);
      SkippedItemsSkip(t[k..], rest);
      ConsSkip(t, k);
    }
  }

  lemma {:induction false} SkippedPairsSkip(t: Bytes, rest: Bytes)
    requires Leaves(SkipPairs(t + rest), rest)
    ensures ClosedSkipPairs(t)
    decreases |t|, 1
  {
    assert t != [] && (t + rest)[0] == t[0];
    if t[0] == 'e' as int {
      assert |(t + rest)[1..]| == |t| - 1 + |rest|;
    } else {
      var j, k := PairSkipped(t, rest);
      SkippedSkips(t[..j], t[j..] + rest);
      SkippedSkips(t[j..k], t[k..] + rest);
      SkippedPairsSkip(t[k..], rest);
      ConsSkipPair(t, j, k);
    }
  }

  /** One turn of each loop. */
  lemma SkipTurn(s: Bytes)
    requires s != [] && s[0] != 'e' as int
    ensures SkipItems(s).Ok? ==> SkipItem(s).Ok? && SkipItems(s) == SkipItems(SkipItem(s).rest)
    ensures SkipPairs(s).Ok? ==>
              SkipItem(s).Ok? && SkipItem(SkipItem(s).rest).Ok?
              && SkipPairs(s) == SkipPairs(SkipItem(SkipItem(s).rest).rest)
  {
  }

  lemma ItemSkipped(t: Bytes, rest: Bytes) returns (k: nat)
    requires Leaves(SkipItems(t + rest), rest) && t != [] && t[0] != 'e' as int
    ensures 0 < k < |t| && Leaves(SkipItem(t[..k] + (t[k..] + rest)), t[k..] + rest)
    ensures Leaves(SkipItems(t[k..] + rest), rest)
  {
    var s := t + rest;
    SkipTurn(s);
    var later := SkipItem(s).rest;
    assert |later| > |rest|;
    k := SplitOnce(t, rest, later);
  }

  lemma PairSkipped(t: Bytes, rest: Bytes) returns (j: nat, k: nat)
    requires Leaves(SkipPairs(t + rest), rest) && t != [] && t[0] != 'e' as int
    ensures 0 < j < k < |t| && Leaves(SkipItem(t[..j] + (t[j..] + rest)), t[j..] + rest)
    ensures Leaves(SkipItem(t[j..k] + (t[k..] + rest)), t[k..] + rest)
    ensures Leaves(SkipPairs(t[k..] + rest), rest)
  {
    var s := t + rest;
    SkipTurn(s);
    var key := SkipItem(s).rest;
    var later := SkipItem(key).rest;
    assert |later| > |rest|;
    j, k := SplitTwice(t, rest, key, later);
  }

  lemma SplitOnce(t: Bytes, rest: Bytes, later: Bytes) returns (k: nat)
    requires Leaves(SkipItem(t + rest), later) && |later| > |rest|
    ensures 0 < k < |t| && later == t[k..] + rest && t + rest == t[..k] + (t[k..] + rest)
  {
    SkipLeavesEnd(t + rest);
    SplitAt(t, rest, later);
    k := |t| + |rest| - |later|;
    CutOff(t, rest, k, k);
  }

  lemma SplitTwice(t: Bytes, rest: Bytes, key: Bytes, later: Bytes) returns (j: nat, k: nat)
    requires Leaves(SkipItem(t + rest), key) && Leaves(SkipItem(key), later) && |later| > |rest|
    ensures 0 < j < k < |t| && key == t[j..] + rest && later == t[k..] + rest
    ensures t + rest == t[..j] + (t[j..] + rest) && key == t[j..k] + (t[k..] + rest)
  {
    SkipLeavesEnd(t + rest);
    SkipLeavesEnd(key);
    EndsInEnd(t + rest, key, later);
    SplitAt(t, rest, key);
    SplitAt(t, rest, later);
    j, k := |t| + |rest| - |key|, |t| + |rest| - |later|;
    CutOff(t, rest, j, k);
  }

  /** `skip_item` moves over a text, and stops right after it, exactly when it is such a text. */
  lemma SkipsIff(t: Bytes, rest: Bytes)
    ensures SkipItem(t + rest) == Ok((), rest) <==> Skips(t)
  {
    if Skips(t) { SkipsIsSkipped(t, rest); }
    if SkipItem(t + rest) == Ok((), rest) { SkippedSkips(t, rest); }
  }
}
