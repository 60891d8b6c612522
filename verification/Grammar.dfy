/** Bencoding as BEP 3 has it ("bencoding"), in literal bytes and apart from the codecs: what the encoder writes,
    and exactly what the tree decoder and the skipper take. */
module Grammar {
  import opened ByteStrings
  import opened Decimal
  import opened Bencode
  import opened BencodeLaws
  import opened InfoHashLaws
  import opened HashedBytes
  import opened StreamAndTree
  import Utf8

  // ---- Numbers in positional notation ----

  predicate IsDecimal(s: Bytes) {
    s != [] && forall i :: 0 <= i < |s| ==> '0' as int <= s[i] <= '9' as int
  }

  function Power10(n: nat): nat {
    if n == 0 then 1 else 10 * Power10(n - 1)
  }

  /** The first digit counts most. */
  function Base10(s: Bytes): int {
    if s == [] then 0 else (s[0] - '0' as int) * Power10(|s| - 1) + Base10(s[1..])
  }

  lemma {:induction false} Base10Appends(s: Bytes, d: byte)
    ensures Base10(s + [d]) == 10 * Base10(s) + (d - '0' as int)
  {
    if s == [] {
      assert s + [d] == [d] && [d][1..] == [] && Power10(0) == 1;
    } else {
      Base10Appends(s[1..], d);
      assert (s + [d])[1..] == s[1..] + [d];
      var x, n := s[0] - '0' as int, Power10(|s| - 1);
      assert Power10(|s|) == 10 * n && x * (10 * n) == 10 * (x * n);
    }
  }

  lemma {:induction false} DigitsValueIsBase10(s: Bytes)
    requires AllDigits(s)
    ensures DigitsValue(s) == Base10(s)
  {
    if s != [] {
      var front := s[..|s| - 1];
      DigitsValueIsBase10(front);
      Base10Appends(front, s[|s| - 1]);
      assert s == front + [s[|s| - 1]];
    }
  }

  /** A natural number: decimal digits, no zero in front of another digit. */
  predicate Natural(s: Bytes, n: int) {
    IsDecimal(s) && (s[0] == '0' as int ==> |s| == 1) && Base10(s) == n
  }

  /** An integer as it is written. */
  predicate Written(s: Bytes, n: int) {
    if n >= 0 then Natural(s, n) else s != [] && s[0] == '-' as int && Natural(s[1..], -n)
  }

  /** An integer as it may be read: after a minus sign zeros may come first, though not a single one alone. */
  predicate Readable(s: Bytes, n: int) {
    || Natural(s, n)
    || (s != [] && s[0] == '-' as int && IsDecimal(s[1..]) && s[1..] != ['0' as int] && -Base10(s[1..]) == n)
  }

  lemma {:induction false} NaturalIsDigits(s: Bytes, n: nat)
    ensures Natural(s, n) <==> s == Digits(n)
  {
    DigitsAreDigits(n);
    if Natural(s, n) {
      DigitsOfValue(s);
      DigitsValueIsBase10(s);
    }
    if s == Digits(n) { DigitsValueIsBase10(s); }
  }

  lemma WrittenIsFormat(s: Bytes, n: int)
    ensures Written(s, n) <==> s == Format(n)
  {
    if n >= 0 {
      NaturalIsDigits(s, n);
    } else {
      if s != [] { NaturalIsDigits(s[1..], -n); }
      assert s != [] && s[0] == MINUS ==> s == [MINUS] + s[1..];
      assert Format(n)[1..] == Digits(-n);
    }
  }

  lemma DecimalIsDigits(s: Bytes)
    ensures IsDecimal(s) <==> s != [] && AllDigits(s)
    ensures IsDecimal(s) ==> Base10(s) == DigitsValue(s)
  {
    if s != [] && AllDigits(s) { DigitsValueIsBase10(s); }
  }

  /** `read_number` takes exactly these texts. */
  lemma ParsesIff(s: Bytes, n: int)
    ensures !Refused(s) && Parse(s, U64) == Some(n) <==> Natural(s, n) && 0 <= n < TWO_64
    ensures !Refused(s) && Parse(s, I64) == Some(n) <==> Readable(s, n) && -TWO_63 <= n < TWO_63
  {
    DecimalIsDigits(s);
    if s != [] {
      DecimalIsDigits(s[1..]);
      assert s[0] == MINUS ==> (s == [MINUS, ZERO] <==> s[1..] == [ZERO]);
    }
  }

  /** Before a byte that is no number byte, `read_number` takes exactly the texts of numbers. */
  lemma NumberReadsIff(t: Bytes, n: int, width: Width, after: Bytes)
    requires after != [] && !IsNumber(after[0])
    ensures ReadNumber(t + after, width) == Ok(n, after) <==> !Refused(t) && Parse(t, width) == Some(n)
  {
    var s := t + after;
    if ReadNumber(s, width) == Ok(n, after) {
      ReadNumberParts(s, width);
      SameFront(s[..NumberLength(s)], t, after);
    }
    if !Refused(t) && Parse(t, width) == Some(n) {
      ParsedIsNumber(t, width);
      NumberLengthIs(t, after);
      assert s[..|t|] == t && s[|t|..] == after;
    }
  }

  lemma ParsedIsNumber(t: Bytes, width: Width)
    requires Parse(t, width).Some?
    ensures forall i :: 0 <= i < |t| ==> IsNumber(t[i])
  {
    if width.I64? && t != [] && t[0] == MINUS {
      forall i | 0 <= i < |t| ensures IsNumber(t[i]) {
        if i > 0 { assert t[i] == t[1..][i - 1]; }
      }
    }
  }

  lemma SameFront(a: Bytes, b: Bytes, rest: Bytes)
    requires a + rest == b + rest
    ensures a == b
  {
    assert |a| == |b| && (a + rest)[..|a|] == a && (b + rest)[..|a|] == b;
  }

  // ---- The grammar ----

  /** What stands between the first and the last byte. */
  function Inside(t: Bytes): Bytes
    requires |t| >= 2
  {
    t[1..|t| - 1]
  }

  predicate Between(first: char, t: Bytes, last: char)
    requires first < 128 as char && last < 128 as char
  {
    |t| >= 2 && t[0] == first as int && t[|t| - 1] == last as int
  }

  /** A byte string: its length, a colon, its bytes. */
  predicate StringText(t: Bytes, b: Bytes) {
    && |b| < |t| && |b| < TWO_64
    && var k := |t| - |b| - 1; t[k] == ':' as int && t[k + 1..] == b && Natural(t[..k], |b|)
  }

  /** The text is one of the value, as the format allows it: keys strictly increase, integers are unpadded. */
  ghost predicate Strict(t: Bytes, v: Value)
    decreases v, 1
  {
    match v
    case Integer(i) => Between('i', t, 'e') && Written(Inside(t), i)
    case Raw(b) => StringText(t, b)
    case Text(b) => StringText(t, b)
    case List(items) => Between('l', t, 'e') && StrictItems(Inside(t), items)
    case Dict(es) => Between('d', t, 'e') && Sorted(es) && StrictEntries(Inside(t), es)
  }

  ghost predicate StrictItems(t: Bytes, items: seq<Value>)
    decreases items, 0
  {
    if items == [] then t == []
    else exists k :: 0 <= k <= |t| && Strict(t[..k], items[0]) && StrictItems(t[k..], items[1..])
  }

  ghost predicate StrictEntries(t: Bytes, es: seq<Entry>)
    decreases es, 0
  {
    if es == [] then t == []
    else
      exists j, k :: 0 <= j <= k <= |t| && StringText(t[..j], es[0].key)
                     && Strict(t[j..k], es[0].value) && StrictEntries(t[k..], es[1..])
  }

  lemma StringTextIs(t: Bytes, b: Bytes)
    requires |b| < TWO_64
    ensures StringText(t, b) <==> t == EncodeBytes(b)
  {
    var n := Format(|b|);
    if |b| < |t| {
      var k := |t| - |b| - 1;
      NaturalIsDigits(t[..k], |b|);
      if StringText(t, b) { assert t == t[..k] + [t[k]] + t[k + 1..]; }
    }
    if t == EncodeBytes(b) { assert t[..|n|] == n && t[|n| + 1..] == b; }
  }

  lemma InsideIs(first: char, t: Bytes, last: char, u: Bytes)
    requires first < 128 as char && last < 128 as char
    ensures Between(first, t, last) && Inside(t) == u <==> t == [first as int] + u + [last as int]
  {
    if Between(first, t, last) { assert t == [first as int] + Inside(t) + [last as int]; }
    if t == [first as int] + u + [last as int] { assert Inside(t) == u; }
  }

  /** The encoder writes just this. */
  lemma {:induction false} EncodingIsStrictIff(t: Bytes, v: Value)
    requires Typed(v)
    ensures Strict(t, v) <==> t == Encode(v)
    decreases v, 1
  {
    match v
    case Integer(i) =>
      InsideIs('i', t, 'e', Format(i));
      if |t| >= 2 { WrittenIsFormat(Inside(t), i); }
    case Raw(b) => StringTextIs(t, b);
    case Text(b) => StringTextIs(t, b);
    case List(items) =>
      InsideIs('l', t, 'e', EncodeItems(items));
      if |t| >= 2 { EncodingsAreStrictIff(Inside(t), items); }
    case Dict(es) =>
      InsideIs('d', t, 'e', EncodeEntries(es));
      if |t| >= 2 { EncodedEntriesAreStrictIff(Inside(t), es); }
  }

  lemma {:induction false} EncodingsAreStrictIff(t: Bytes, items: seq<Value>)
    requires forall x :: x in items ==> Typed(x)
    ensures StrictItems(t, items) <==> t == EncodeItems(items)
    decreases items, 0
  {
    if items != [] {
      if StrictItems(t, items) {
        var k :| 0 <= k <= |t| && Strict(t[..k], items[0]) && StrictItems(t[k..], items[1..]);
        EncodingIsStrictIff(t[..k], items[0]);
        EncodingsAreStrictIff(t[k..], items[1..]);
        assert t == t[..k] + t[k..];
      }
      if t == EncodeItems(items) {
        var k := |Encode(items[0])|;
        assert t[..k] == Encode(items[0]) && t[k..] == EncodeItems(items[1..]);
        EncodingIsStrictIff(t[..k], items[0]);
        EncodingsAreStrictIff(t[k..], items[1..]);
      }
    }
  }

  lemma {:induction false} EncodedEntriesAreStrictIff(t: Bytes, es: seq<Entry>)
    requires forall e :: e in es ==> TypedKey(e.key) && Typed(e.value)
    ensures StrictEntries(t, es) <==> t == EncodeEntries(es)
    decreases es, 1
  {
    if es != [] {
      if StrictEntries(t, es) {
        var j, k := FirstStrictEntry(t, es);
        StringTextIs(t[..j], es[0].key);
        EncodingIsStrictIff(t[j..k], es[0].value);
        EncodedEntriesAreStrictIff(t[k..], es[1..]);
      }
      if t == EncodeEntries(es) { FirstEntryIsStrict(t, es); }
    }
  }

  lemma FirstStrictEntry(t: Bytes, es: seq<Entry>) returns (j: nat, k: nat)
    requires es != [] && StrictEntries(t, es)
    ensures j <= k <= |t| && StringText(t[..j], es[0].key) && Strict(t[j..k], es[0].value)
    ensures StrictEntries(t[k..], es[1..]) && t == t[..j] + t[j..k] + t[k..]
  {
    j, k :| 0 <= j <= k <= |t| && StringText(t[..j], es[0].key)
            && Strict(t[j..k], es[0].value) && StrictEntries(t[k..], es[1..]);
    Rejoin(t, j, k);
  }

  lemma Rejoin(t: Bytes, j: nat, k: nat)
    requires j <= k <= |t|
    ensures t == t[..j] + t[j..k] + t[k..]
  {
  }

  lemma {:induction false} FirstEntryIsStrict(t: Bytes, es: seq<Entry>)
    requires es != [] && (forall e :: e in es ==> TypedKey(e.key) && Typed(e.value)) && t == EncodeEntries(es)
    ensures StrictEntries(t, es)
    decreases es, 0
  {
    var key, value := EncodeBytes(es[0].key), Encode(es[0].value);
    var j, k := |key|, |key| + |value|;
    assert t[..j] == key && t[j..k] == value && t[k..] == EncodeEntries(es[1..]);
    StringTextIs(t[..j], es[0].key);
    EncodingIsStrictIff(t[j..k], es[0].value);
    EncodedEntriesAreStrictIff(t[k..], es[1..]);
  }

  // ---- What the tree decoder takes ----

  /** The value of the last pair with that key. */
  function LastOf(pairs: seq<Entry>, key: Bytes): Option<Value> {
    if pairs == [] then None
    else
      match LastOf(pairs[1..], key)
      case Some(v) => Some(v)
      case None => if pairs[0].key == key then Some(pairs[0].value) else None
  }

  ghost predicate MapOf(es: seq<Entry>, pairs: seq<Entry>) {
    Sorted(es) && forall k :: Lookup(es, k) == LastOf(pairs, k)
  }

  /** The text may be read as the value: keys in any order, the last of repeated ones counting, integers padded
      after a minus sign, and a byte string as text exactly when it is UTF-8. */
  ghost predicate Reads(t: Bytes, v: Value)
    decreases |t|, 0
  {
    match v
    case Integer(i) => Between('i', t, 'e') && Readable(Inside(t), i) && InRange(i, I64)
    case Raw(b) => StringText(t, b) && !Utf8.Valid(b)
    case Text(b) => StringText(t, b) && Utf8.Valid(b)
    case List(items) => Between('l', t, 'e') && ReadsItems(Inside(t), items)
    case Dict(es) =>
      Between('d', t, 'e') &&
      exists pairs :: ReadsPairs(Inside(t), pairs) && MapOf(es, pairs)
  }

  ghost predicate ReadsItems(t: Bytes, items: seq<Value>)
    decreases |t|, 1
  {
    if items == [] then t == []
    else exists k :: 0 < k <= |t| && Reads(t[..k], items[0]) && ReadsItems(t[k..], items[1..])
  }

  ghost predicate ReadsPairs(t: Bytes, pairs: seq<Entry>)
    decreases |t|, 1
  {
    if pairs == [] then t == []
    else
      exists j, k :: 0 < j < k <= |t| && StringText(t[..j], pairs[0].key) && Utf8.Valid(pairs[0].key)
                     && Reads(t[j..k], pairs[0].value) && ReadsPairs(t[k..], pairs[1..])
  }

  lemma StringTextIsRead(t: Bytes, b: Bytes, rest: Bytes)
    requires StringText(t, b)
    ensures ReadByteString(t + rest) == Ok(b, rest)
  {
    var n := t[..|t| - |b| - 1];
    assert t == n + [':' as int] + b;
    var after := [':' as int] + (b + rest);
    assert t + rest == n + after && after[1..] == b + rest;
    ParsesIff(n, |b|);
    NumberReadsIff(n, |b|, U64, after);
    assert (b + rest)[..|b|] == b && (b + rest)[|b|..] == rest;
  }

  lemma StringReadsIff(t: Bytes, b: Bytes, rest: Bytes)
    ensures ReadByteString(t + rest) == Ok(b, rest) <==> StringText(t, b)
  {
    if StringText(t, b) { StringTextIsRead(t, b, rest); }
    if ReadByteString(t + rest) == Ok(b, rest) {
      ReadByteStringIsCanonical(t + rest);
      SameFront(t, EncodeBytes(b), rest);
      ReadByteStringParts(t + rest);
      StringTextIs(t, b);
    }
  }

  lemma IntegerTextIsRead(t: Bytes, i: int, rest: Bytes)
    requires Between('i', t, 'e') && Readable(Inside(t), i) && InRange(i, I64)
    ensures ReadInteger(t + rest, I64) == Ok(i, rest)
  {
    var after := ['e' as int] + rest;
    assert (t + rest)[1..] == Inside(t) + after && after[1..] == rest;
    ParsesIff(Inside(t), i);
    NumberReadsIff(Inside(t), i, I64, after);
  }

  lemma TailOf(t: Bytes, rest: Bytes)
    requires t != []
    ensures (t + rest)[0] == t[0] && (t + rest)[1..] == t[1..] + rest
  {
  }

  lemma ClosedByE(t: Bytes, n: Bytes, rest: Bytes)
    requires t != [] && t[0] == 'i' as int && t[1..] + rest == n + (['e' as int] + rest)
    ensures Between('i', t, 'e') && Inside(t) == n
  {
    Assoc(n, ['e' as int], rest);
    SameFront(t[1..], n + ['e' as int], rest);
    assert t == ['i' as int] + t[1..];
  }

  lemma ReadIntegerIsText(t: Bytes, i: int, rest: Bytes)
    requires t != [] && t[0] == 'i' as int && ReadInteger(t + rest, I64) == Ok(i, rest)
    ensures Between('i', t, 'e') && Readable(Inside(t), i) && InRange(i, I64)
  {
    TailOf(t, rest);
    var s1 := t[1..] + rest;
    ReadIntegerParts(t + rest);
    ReadNumberParts(s1, I64);
    ClosedByE(t, s1[..NumberLength(s1)], rest);
    ParsesIff(Inside(t), i);
  }

  lemma IntegerReadsIff(t: Bytes, i: int, rest: Bytes)
    requires t != [] && t[0] == 'i' as int
    ensures ReadInteger(t + rest, I64) == Ok(i, rest)
       <==> Between('i', t, 'e') && Readable(Inside(t), i) && InRange(i, I64)
  {
    if Between('i', t, 'e') && Readable(Inside(t), i) && InRange(i, I64) { IntegerTextIsRead(t, i, rest); }
    if ReadInteger(t + rest, I64) == Ok(i, rest) { ReadIntegerIsText(t, i, rest); }
  }

  /** The first byte of a value's text. */
  lemma ReadsStarts(t: Bytes, v: Value)
    requires Reads(t, v)
    ensures t != [] && t[0] != 'e' as int
    ensures v.Integer? <==> t[0] == 'i' as int
    ensures v.List? <==> t[0] == 'l' as int
    ensures v.Dict? <==> t[0] == 'd' as int
    ensures v.Raw? || v.Text? <==> IsDigit(t[0])
  {
  }

  /** The map that the loop makes of pairs. */
  function InsertAll(before: seq<Entry>, pairs: seq<Entry>): seq<Entry>
    decreases |pairs|
  {
    if pairs == [] then before else InsertAll(Insert(before, pairs[0].key, pairs[0].value), pairs[1..])
  }

  lemma {:induction false} InsertAllLooksUp(before: seq<Entry>, pairs: seq<Entry>, k: Bytes)
    requires Sorted(before)
    ensures Sorted(InsertAll(before, pairs))
    ensures Lookup(InsertAll(before, pairs), k) == match LastOf(pairs, k)
                                                   case Some(v) => Some(v)
                                                   case None => Lookup(before, k)
    decreases |pairs|
  {
    if pairs != [] {
      InsertIntoSorted(before, pairs[0].key, pairs[0].value);
      LookupInsert(before, pairs[0].key, pairs[0].value, k);
      InsertAllLooksUp(Insert(before, pairs[0].key, pairs[0].value), pairs[1..], k);
    }
  }

  lemma MapOfPairsIff(es: seq<Entry>, pairs: seq<Entry>)
    ensures es == InsertAll([], pairs) <==> MapOf(es, pairs)
  {
    var m := InsertAll([], pairs);
    InsertAllLooksUp([], pairs, []);
    forall k ensures Lookup(m, k) == LastOf(pairs, k) { InsertAllLooksUp([], pairs, k); }
    if MapOf(es, pairs) {
      forall k ensures Lookup(es, k) == Lookup(m, k) {
        assert Lookup(es, k) == LastOf(pairs, k);
      }
      SameLookups(es, m);
    }
  }

  // One turn of each loop of the decoder.

  /** The closing byte, and what follows. */
  function Closing(rest: Bytes): Bytes {
    ['e' as int] + rest
  }

  lemma Closes(rest: Bytes, before: seq<Entry>)
    ensures DecodeItems(Closing(rest)) == Ok([], rest)
    ensures DecodeEntries(Closing(rest), before) == Ok(before, rest)
  {
    assert Closing(rest)[1..] == rest;
  }

  lemma CutOff(t: Bytes, tail: Bytes, j: nat, k: nat)
    requires j <= k <= |t|
    ensures t + tail == t[..j] + (t[j..] + tail) && t[j..] + tail == t[j..k] + (t[k..] + tail)
  {
  }

  lemma ItemDecodes(t: Bytes, k: nat, tail: Bytes, v: Value, items: seq<Value>, rest: Bytes)
    requires 0 < k <= |t| && t[0] != 'e' as int
    requires DecodeValue(t[..k] + (t[k..] + tail)) == Ok(v, t[k..] + tail)
    requires DecodeItems(t[k..] + tail) == Ok(items, rest)
    ensures DecodeItems(t + tail) == Ok([v] + items, rest)
  {
    CutOff(t, tail, k, k);
    assert (t + tail)[0] == t[0];
  }

  lemma PairDecodes(t: Bytes, j: nat, k: nat, tail: Bytes, e: Entry, before: seq<Entry>)
    requires 0 < j < k <= |t| && t[0] != 'e' as int
    requires ReadStr(t[..j] + (t[j..] + tail)) == Ok(e.key, t[j..] + tail)
    requires DecodeValue(t[j..k] + (t[k..] + tail)) == Ok(e.value, t[k..] + tail)
    ensures DecodeEntries(t + tail, before) == DecodeEntries(t[k..] + tail, Insert(before, e.key, e.value))
  {
    CutOff(t, tail, j, k);
    assert (t + tail)[0] == t[0];
  }

  lemma FirstItem(t: Bytes, items: seq<Value>) returns (k: nat)
    requires ReadsItems(t, items) && items != []
    ensures 0 < k <= |t| && Reads(t[..k], items[0]) && ReadsItems(t[k..], items[1..])
    ensures t[0] != 'e' as int && items == [items[0]] + items[1..]
  {
    k :| 0 < k <= |t| && Reads(t[..k], items[0]) && ReadsItems(t[k..], items[1..]);
    ReadsStarts(t[..k], items[0]);
    assert t[..k][0] == t[0];
  }

  lemma FirstPair(t: Bytes, pairs: seq<Entry>) returns (j: nat, k: nat)
    requires ReadsPairs(t, pairs) && pairs != []
    ensures 0 < j < k <= |t| && StringText(t[..j], pairs[0].key) && Utf8.Valid(pairs[0].key)
    ensures Reads(t[j..k], pairs[0].value) && ReadsPairs(t[k..], pairs[1..])
    ensures t[0] != 'e' as int
  {
    j, k :| 0 < j < k <= |t| && StringText(t[..j], pairs[0].key) && Utf8.Valid(pairs[0].key)
            && Reads(t[j..k], pairs[0].value) && ReadsPairs(t[k..], pairs[1..]);
    assert t[..j][0] == t[0];
  }

  // Whatever text may be read is decoded.

  lemma WholeText(t: Bytes, rest: Bytes)
    requires |t| >= 2 && t[|t| - 1] == 'e' as int
    ensures t + rest == [t[0]] + (Inside(t) + Closing(rest))
  {
    assert t == [t[0]] + Inside(t) + ['e' as int];
  }

  lemma ListDecodes(t: Bytes, items: seq<Value>, rest: Bytes)
    requires Between('l', t, 'e') && DecodeItems(Inside(t) + Closing(rest)) == Ok(items, rest)
    ensures DecodeValue(t + rest) == Ok(List(items), rest)
  {
    WholeText(t, rest);
    DecodeListAt(Inside(t) + Closing(rest));
  }

  lemma DictDecodes(t: Bytes, es: seq<Entry>, rest: Bytes)
    requires Between('d', t, 'e') && DecodeEntries(Inside(t) + Closing(rest), []) == Ok(es, rest)
    ensures DecodeValue(t + rest) == Ok(Dict(es), rest)
  {
    WholeText(t, rest);
    DecodeDictAt(Inside(t) + Closing(rest));
  }

  lemma {:induction false} ReadsIsDecoded(t: Bytes, v: Value, rest: Bytes)
    requires Reads(t, v)
    ensures DecodeValue(t + rest) == Ok(v, rest)
    decreases |t|, 0
  {
    match v
    case Integer(i) =>
      IntegerReadsIff(t, i, rest);
      assert (t + rest)[0] == t[0];
    case Raw(b) => StringDecodes(t, b, rest);
    case Text(b) => StringDecodes(t, b, rest);
    case List(items) =>
      ReadItemsAreDecoded(Inside(t), items, rest);
      ListDecodes(t, items, rest);
    case Dict(es) =>
      var pairs :| ReadsPairs(Inside(t), pairs) && MapOf(es, pairs);
      ReadPairsAreDecoded(Inside(t), pairs, [], rest);
      MapOfPairsIff(es, pairs);
      DictDecodes(t, es, rest);
  }

  lemma StringDecodes(t: Bytes, b: Bytes, rest: Bytes)
    requires StringText(t, b)
    ensures DecodeValue(t + rest) == Ok(TextOrRaw(b), rest)
  {
    StringReadsIff(t, b, rest);
    assert (t + rest)[0] == t[0] && t[0] == t[..|t| - |b| - 1][0];
  }

  lemma {:induction false} ReadItemsAreDecoded(t: Bytes, items: seq<Value>, rest: Bytes)
    requires ReadsItems(t, items)
    ensures DecodeItems(t + Closing(rest)) == Ok(items, rest)
    decreases |t|, 1
  {
    if items == [] {
      assert t + Closing(rest) == Closing(rest);
      Closes(rest, []);
    } else {
      var k := FirstItem(t, items);
      ReadsIsDecoded(t[..k], items[0], t[k..] + Closing(rest));
      ReadItemsAreDecoded(t[k..], items[1..], rest);
      ItemDecodes(t, k, Closing(rest), items[0], items[1..], rest);
    }
  }

  lemma {:induction false} ReadPairsAreDecoded(t: Bytes, pairs: seq<Entry>, before: seq<Entry>, rest: Bytes)
    requires ReadsPairs(t, pairs)
    ensures DecodeEntries(t + Closing(rest), before) == Ok(InsertAll(before, pairs), rest)
    decreases |t|, 1
  {
    if pairs == [] {
      assert t + Closing(rest) == Closing(rest);
      Closes(rest, before);
    } else {
      var j, k := FirstPair(t, pairs);
      StringReadsIff(t[..j], pairs[0].key, t[j..] + Closing(rest));
      ReadsIsDecoded(t[j..k], pairs[0].value, t[k..] + Closing(rest));
      ReadPairsAreDecoded(t[k..], pairs[1..], Insert(before, pairs[0].key, pairs[0].value), rest);
      PairDecodes(t, j, k, Closing(rest), pairs[0], before);
    }
  }

  // And whatever is decoded is such a text.

  lemma SplitAt(t: Bytes, rest: Bytes, later: Bytes)
    requires EndsIn(t + rest, later) && |rest| <= |later|
    ensures |later| - |rest| <= |t|
    ensures var k := |t| + |rest| - |later|; later == t[k..] + rest && t + rest == t[..k] + later
  {
    var k := |t| + |rest| - |later|;
    assert (t + rest)[k..] == t[k..] + rest;
  }

  /** Items up to a closing byte. */
  ghost predicate ClosedItems(t: Bytes, items: seq<Value>) {
    t != [] && t[|t| - 1] == 'e' as int && ReadsItems(t[..|t| - 1], items)
  }

  ghost predicate ClosedPairs(t: Bytes, pairs: seq<Entry>) {
    t != [] && t[|t| - 1] == 'e' as int && ReadsPairs(t[..|t| - 1], pairs)
  }

  lemma CutBefore(t: Bytes, j: nat, k: nat)
    requires j <= k < |t|
    ensures var u := t[..|t| - 1];
            u[..j] == t[..j] && u[j..k] == t[j..k] && u[k..] == t[k..][..|t[k..]| - 1]
  {
  }

  lemma ConsItem(t: Bytes, k: nat, v: Value, items: seq<Value>)
    requires 0 < k < |t| && Reads(t[..k], v) && ClosedItems(t[k..], items)
    ensures ClosedItems(t, [v] + items)
  {
    CutBefore(t, k, k);
    var u, all := t[..|t| - 1], [v] + items;
    assert Reads(u[..k], all[0]) && ReadsItems(u[k..], all[1..]);
  }

  lemma ConsPair(t: Bytes, j: nat, k: nat, e: Entry, pairs: seq<Entry>)
    requires 0 < j < k < |t| && StringText(t[..j], e.key) && Utf8.Valid(e.key)
    requires Reads(t[j..k], e.value) && ClosedPairs(t[k..], pairs)
    ensures ClosedPairs(t, [e] + pairs)
  {
    CutBefore(t, j, k);
    var u, all := t[..|t| - 1], [e] + pairs;
    assert StringText(u[..j], all[0].key) && Reads(u[j..k], all[0].value) && ReadsPairs(u[k..], all[1..]);
  }

  lemma ListReads(t: Bytes, items: seq<Value>)
    requires t != [] && t[0] == 'l' as int && ClosedItems(t[1..], items)
    ensures Reads(t, List(items))
  {
    assert Inside(t) == t[1..][..|t[1..]| - 1];
  }

  lemma DictReads(t: Bytes, es: seq<Entry>, pairs: seq<Entry>)
    requires t != [] && t[0] == 'd' as int && ClosedPairs(t[1..], pairs) && MapOf(es, pairs)
    ensures Reads(t, Dict(es))
  {
    assert Inside(t) == t[1..][..|t[1..]| - 1];
    assert ReadsPairs(Inside(t), pairs);
  }

  lemma IntegerReads(t: Bytes, i: int, rest: Bytes)
    requires t != [] && t[0] == 'i' as int && ReadInteger(t + rest, I64) == Ok(i, rest)
    ensures Reads(t, Integer(i))
  {
    IntegerReadsIff(t, i, rest);
  }

  lemma StringReads(t: Bytes, b: Bytes, rest: Bytes)
    requires ReadByteString(t + rest) == Ok(b, rest)
    ensures Reads(t, TextOrRaw(b))
  {
    StringReadsIff(t, b, rest);
  }

  /** Which reader a first byte leads to. */
  lemma DecodedBy(s: Bytes, v: Value, rest: Bytes)
    requires DecodeValue(s) == Ok(v, rest)
    ensures s != []
    ensures s[0] == 'd' as int ==> v.Dict? && DecodeEntries(s[1..], []) == Ok(v.entries, rest)
    ensures s[0] == 'l' as int ==> v.List? && DecodeItems(s[1..]) == Ok(v.items, rest)
    ensures s[0] == 'i' as int ==> v.Integer? && ReadInteger(s, I64) == Ok(v.i, rest)
    ensures s[0] !in {'d' as int, 'l' as int, 'i' as int} ==>
              ReadByteString(s).Ok? && v == TextOrRaw(ReadByteString(s).value) && rest == ReadByteString(s).rest
  {
  }

  lemma TakesSome(t: Bytes, v: Value, rest: Bytes)
    requires DecodeValue(t + rest) == Ok(v, rest)
    ensures t != [] && (t + rest)[0] == t[0] && (t + rest)[1..] == t[1..] + rest
  {
    assert |rest| < |t + rest|;
    TailOf(t, rest);
  }

  lemma {:induction false} DecodedReads(t: Bytes, v: Value, rest: Bytes)
    requires DecodeValue(t + rest) == Ok(v, rest)
    ensures Reads(t, v)
    decreases |t|, 0
  {
    DecodedBy(t + rest, v, rest);
    TakesSome(t, v, rest);
    if t[0] == 'd' as int {
      var pairs := DecodedPairsRead(t[1..], rest, []);
      MapOfPairsIff(v.entries, pairs);
      DictReads(t, v.entries, pairs);
    } else if t[0] == 'l' as int {
      DecodedItemsRead(t[1..], v.items, rest);
      ListReads(t, v.items);
    } else if t[0] == 'i' as int {
      IntegerReads(t, v.i, rest);
    } else {
      StringReads(t, ReadByteString(t + rest).value, rest);
    }
  }

  /** The text that a decoded item takes up. */
  lemma ItemTaken(t: Bytes, rest: Bytes) returns (k: nat)
    requires DecodeItems(t + rest).Ok? && DecodeItems(t + rest).rest == rest && t != [] && t[0] != 'e' as int
    ensures 0 < k < |t| && DecodeValue(t[..k] + (t[k..] + rest)).Ok?
    ensures var v := DecodeValue(t[..k] + (t[k..] + rest));
            && v.rest == t[k..] + rest && DecodeItems(t[k..] + rest).Ok?
            && DecodeItems(t + rest) == Ok([v.value] + DecodeItems(t[k..] + rest).value, rest)
            && DecodeItems(t[k..] + rest).rest == rest
  {
    ItemFirst(t + rest);
    var v := DecodeValue(t + rest);
    DecodeLeavesEnd(t + rest);
    SplitAt(t, rest, v.rest);
    k := |t| + |rest| - |v.rest|;
  }

  lemma ItemFirst(s: Bytes)
    requires DecodeItems(s).Ok? && s[0] != 'e' as int
    ensures DecodeValue(s).Ok? && DecodeItems(DecodeValue(s).rest).Ok?
    ensures var later := DecodeItems(DecodeValue(s).rest);
            && DecodeItems(s) == Ok([DecodeValue(s).value] + later.value, later.rest)
            && |later.rest| < |DecodeValue(s).rest|
  {
  }

  lemma ClosedAtOnce(t: Bytes, rest: Bytes)
    requires t != [] && t[0] == 'e' as int && (t + rest)[1..] == rest
    ensures ClosedItems(t, []) && ClosedPairs(t, [])
  {
    assert |(t + rest)[1..]| == |t| - 1 + |rest|;
  }

  lemma {:induction false} DecodedItemsRead(t: Bytes, items: seq<Value>, rest: Bytes)
    requires DecodeItems(t + rest) == Ok(items, rest)
    ensures ClosedItems(t, items)
    decreases |t|, 1
  {
    assert t != [] && (t + rest)[0] == t[0];
    if t[0] == 'e' as int {
      ClosedAtOnce(t, rest);
    } else {
      var k := ItemTaken(t, rest);
      var v := DecodeValue(t[..k] + (t[k..] + rest)).value;
      var later := DecodeItems(t[k..] + rest).value;
      DecodedReads(t[..k], v, t[k..] + rest);
      DecodedItemsRead(t[k..], later, rest);
      ConsItem(t, k, v, later);
    }
  }

  /** The text that a decoded pair takes up. */
  lemma PairTaken(t: Bytes, rest: Bytes, before: seq<Entry>) returns (j: nat, k: nat, e: Entry)
    requires DecodeEntries(t + rest, before).Ok? && DecodeEntries(t + rest, before).rest == rest
    requires t != [] && t[0] != 'e' as int
    ensures 0 < j < k < |t| && ReadStr(t[..j] + (t[j..] + rest)) == Ok(e.key, t[j..] + rest)
    ensures DecodeValue(t[j..k] + (t[k..] + rest)) == Ok(e.value, t[k..] + rest)
    ensures DecodeEntries(t + rest, before) == DecodeEntries(t[k..] + rest, Insert(before, e.key, e.value))
  {
    var s := t + rest;
    var key := ReadStr(s);
    var v := DecodeValue(key.rest);
    ReadByteStringLeavesEnd(s);
    DecodeLeavesEnd(key.rest);
    EndsInEnd(s, key.rest, v.rest);
    SplitAt(t, rest, key.rest);
    SplitAt(t, rest, v.rest);
    j, k, e := |t| + |rest| - |key.rest|, |t| + |rest| - |v.rest|, Entry(key.value, v.value);
    CutOff(t, rest, j, k);
  }

  lemma {:induction false} DecodedPairsRead(t: Bytes, rest: Bytes, before: seq<Entry>) returns (pairs: seq<Entry>)
    requires DecodeEntries(t + rest, before).Ok? && DecodeEntries(t + rest, before).rest == rest
    ensures ClosedPairs(t, pairs)
    ensures DecodeEntries(t + rest, before).value == InsertAll(before, pairs)
    decreases |t|, 1
  {
    assert t != [] && (t + rest)[0] == t[0];
    if t[0] == 'e' as int {
      ClosedAtOnce(t, rest);
      pairs := [];
    } else {
      var j, k, e := PairTaken(t, rest, before);
      StringReadsIff(t[..j], e.key, t[j..] + rest);
      DecodedReads(t[j..k], e.value, t[k..] + rest);
      var later := DecodedPairsRead(t[k..], rest, Insert(before, e.key, e.value));
      ConsPair(t, j, k, e, later);
      pairs := [e] + later;
      assert pairs[1..] == later;
    }
  }

  /** The tree decoder takes a text as a value, and stops right after it, exactly when it may be read so. */
  lemma DecodesIff(t: Bytes, v: Value, rest: Bytes)
    ensures DecodeValue(t + rest) == Ok(v, rest) <==> Reads(t, v)
  {
    if Reads(t, v) { ReadsIsDecoded(t, v, rest); }
    if DecodeValue(t + rest) == Ok(v, rest) { DecodedReads(t, v, rest); }
  }
}
