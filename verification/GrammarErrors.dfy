/** What the tree decoder says of a text that it does not take, and where it leaves the cursor. */
module GrammarErrors {
  import opened ByteStrings
  import opened Decimal
  import opened Bencode
  import opened BencodeLaws
  import opened Grammar
  import opened SkipGrammar
  import Utf8

  // ---- The first byte ----

  /** At the end of the data there is nothing to read; a byte that begins no value is named, and left. */
  lemma FirstByteTells(s: Bytes)
    ensures s == [] ==> DecodeValue(s) == Fail(Eof, []) && SkipItem(s) == Fail(Eof, [])
    ensures s != [] && s[0] !in {'d' as int, 'l' as int, 'i' as int} && !('0' as int <= s[0] <= '9' as int) ==>
              DecodeValue(s) == Fail(InvalidByte(s[0]), s) && SkipItem(s) == Fail(InvalidByte(s[0]), s)
  {
  }

  // ---- Numbers and what closes them ----

  /** `n` is all the number bytes at the front of `n + after`. */
  predicate Run(n: Bytes, after: Bytes) {
    NumberBytes(n) && (after != [] ==> !NumberBytes([after[0]]))
  }

  /** A number that the data ends in might go on; one that is none, or too large, is invalid. */
  lemma NumberFails(n: Bytes, after: Bytes)
    requires Run(n, after)
    ensures after == [] ==> ReadNumber(n, U64) == Fail(Eof, []) && ReadNumber(n, I64) == Fail(Eof, [])
    ensures after != [] && !(Natural(n, Base10(n)) && Base10(n) < TWO_64) ==>
              ReadNumber(n + after, U64) == Fail(InvalidNumber, after)
    ensures after != [] && !(exists i :: Readable(n, i) && -TWO_63 <= i < TWO_63) ==>
              ReadNumber(n + after, I64) == Fail(InvalidNumber, after)
  {
    if after == [] {
      AllNumber(n);
    } else {
      NumberLengthIs(n, after);
      assert (n + after)[..|n|] == n && (n + after)[|n|..] == after;
      if !Refused(n) && Parse(n, U64).Some? { ParsesIff(n, Parse(n, U64).value); }
      if !Refused(n) && Parse(n, I64).Some? { ParsesIff(n, Parse(n, I64).value); }
    }
  }

  lemma {:induction false} AllNumber(n: Bytes)
    requires NumberBytes(n)
    ensures NumberLength(n) == |n|
  {
    if n != [] { AllNumber(n[1..]); }
  }

  /** An integer's number ends in the data, or is invalid, or is closed by another byte than `e`. */
  lemma IntegerFails(n: Bytes, after: Bytes)
    requires Run(n, after)
    ensures var s := ['i' as int] + n + after;
            && (after == [] ==> DecodeValue(s) == Fail(Eof, []))
            && (after != [] && !(exists i :: Readable(n, i) && -TWO_63 <= i < TWO_63) ==>
                  DecodeValue(s) == Fail(InvalidNumber, after))
            && (after != [] && after[0] != 'e' as int && (exists i :: Readable(n, i) && -TWO_63 <= i < TWO_63) ==>
                  DecodeValue(s) == Fail(UnexpectedByte('e' as int, after[0]), after[1..]))
  {
    var s := ['i' as int] + n + after;
    assert s[1..] == n + after && n + [] == n;
    NumberFails(n, after);
    if i :| after != [] && Readable(n, i) && -TWO_63 <= i < TWO_63 {
      ParsesIff(n, i);
      NumberReadsIff(n, i, I64, after);
    }
  }

  /** A byte string's length ends in the data, or is invalid, or is not followed by a colon, or is more than the
      data has. */
  lemma StringFails(n: Bytes, after: Bytes)
    requires Run(n, after)
    ensures var s := n + after;
            var length := Base10(n);
            && (after == [] ==> ReadByteString(s) == Fail(Eof, []))
            && (after != [] && !(Natural(n, length) && length < TWO_64) ==>
                  ReadByteString(s) == Fail(InvalidNumber, after))
            && (after != [] && Natural(n, length) && length < TWO_64 && after[0] != ':' as int ==>
                  ReadByteString(s) == Fail(UnexpectedByte(':' as int, after[0]), after[1..]))
            && (after != [] && Natural(n, length) && length < TWO_64 && after[0] == ':' as int ==>
                  |after| <= length ==> ReadByteString(s) == Fail(Eof, after[1..]))
  {
    NumberFails(n, after);
    assert n + [] == n;
    if after != [] && Natural(n, Base10(n)) && Base10(n) < TWO_64 {
      BaseIsNat(n);
      ParsesIff(n, Base10(n));
      NumberReadsIff(n, Base10(n), U64, after);
    }
  }

  lemma BaseIsNat(n: Bytes)
    requires IsDecimal(n)
    ensures Base10(n) >= 0
  {
    DecimalIsDigits(n);
  }

  /** A failing byte string fails as a value and as a key; a key that is not UTF-8 is refused behind its bytes. */
  lemma StringFailsAs(s: Bytes, t: Bytes, b: Bytes, rest: Bytes)
    requires s != [] && '0' as int <= s[0] <= '9' as int
    ensures ReadByteString(s).Fail? ==>
              DecodeValue(s) == Fail(ReadByteString(s).error, ReadByteString(s).rest)
              && ReadStr(s) == Fail(ReadByteString(s).error, ReadByteString(s).rest)
    ensures StringText(t, b) && !Utf8.Valid(b) ==> ReadStr(t + rest) == Fail(InvalidUtf8, rest)
  {
    if StringText(t, b) { StringReadsIff(t, b, rest); }
  }

  // ---- Lists and dictionaries ----

  /** What is not the closing byte. */
  predicate GoesOn(u: Bytes) {
    u == [] || u[0] != 'e' as int
  }

  lemma {:induction false} ItemsFail(t: Bytes, items: seq<Value>, u: Bytes)
    requires ReadsItems(t, items) && GoesOn(u) && DecodeValue(u).Fail?
    ensures DecodeItems(t + u) == Fail(DecodeValue(u).error, DecodeValue(u).rest)
    decreases |t|
  {
    if items == [] {
      assert t + u == u;
    } else {
      var k := FirstItem(t, items);
      ReadsIsDecoded(t[..k], items[0], t[k..] + u);
      ItemsFail(t[k..], items[1..], u);
      CutOff(t, u, k, k);
      assert (t + u)[0] == t[0];
    }
  }

  /** A list fails as its first item that fails, with the cursor where that one leaves it. */
  lemma ListFails(t: Bytes, items: seq<Value>, u: Bytes)
    requires ReadsItems(t, items) && GoesOn(u) && DecodeValue(u).Fail?
    ensures DecodeValue(['l' as int] + (t + u)) == Fail(DecodeValue(u).error, DecodeValue(u).rest)
  {
    ItemsFail(t, items, u);
    assert (['l' as int] + (t + u))[1..] == t + u;
  }

  /** What a pair at `u` fails with: its key's error, or its value's. */
  function PairFails(u: Bytes): Read<Value> {
    match ReadStr(u)
    case Fail(e, rest) => Fail(e, rest)
    case Ok(_, later) => DecodeValue(later)
  }

  lemma {:induction false} PairsFail(t: Bytes, pairs: seq<Entry>, u: Bytes, before: seq<Entry>)
    requires ReadsPairs(t, pairs) && GoesOn(u) && PairFails(u).Fail?
    ensures DecodeEntries(t + u, before) == Fail(PairFails(u).error, PairFails(u).rest)
    decreases |t|
  {
    if pairs == [] {
      assert t + u == u;
    } else {
      var j, k := FirstPair(t, pairs);
      StringReadsIff(t[..j], pairs[0].key, t[j..] + u);
      ReadsIsDecoded(t[j..k], pairs[0].value, t[k..] + u);
      PairsFail(t[k..], pairs[1..], u, Insert(before, pairs[0].key, pairs[0].value));
      PairDecodes(t, j, k, u, pairs[0], before);
    }
  }

  /** And so does a dictionary. */
  lemma DictFails(t: Bytes, pairs: seq<Entry>, u: Bytes)
    requires ReadsPairs(t, pairs) && GoesOn(u) && PairFails(u).Fail?
    ensures DecodeValue(['d' as int] + (t + u)) == Fail(PairFails(u).error, PairFails(u).rest)
  {
    PairsFail(t, pairs, u, []);
    assert (['d' as int] + (t + u))[1..] == t + u;
  }
}
