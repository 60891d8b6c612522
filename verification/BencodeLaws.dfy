/** What the two codecs of `Value` are for: decoding undoes encoding, what is decoded is in normal form,
    and skipping agrees with decoding. */
module BencodeLaws {
  import opened ByteStrings
  import opened Decimal
  import opened Bencode
  import Utf8

  // ---- Values that the program can build ----

  /** Lengths fit `usize` (no Rust allocation exceeds 2^63 - 1 bytes), integers fit `i64`, strings are
      UTF-8 and maps are ordered. These are the guarantees of the Rust types. */
  predicate Typed(v: Value) {
    match v
    case Integer(i) => InRange(i, I64)
    case Raw(b) => |b| < TWO_63
    case Text(t) => |t| < TWO_63 && Utf8.Valid(t)
    case List(items) => forall x :: x in items ==> Typed(x)
    case Dict(es) =>
      Sorted(es) && forall e :: e in es ==> TypedKey(e.key) && Typed(e.value)
  }

  predicate TypedKey(key: Bytes) {
    |key| < TWO_63 && Utf8.Valid(key)
  }

  /** No `Bytes` value is valid UTF-8. */
  predicate NoTextInRaw(v: Value) {
    match v
    case Integer(_) => true
    case Text(_) => true
    case Raw(b) => !Utf8.Valid(b)
    case List(items) => forall x :: x in items ==> NoTextInRaw(x)
    case Dict(es) => forall e :: e in es ==> NoTextInRaw(e.value)
  }

  /** The value with every `Bytes` that is UTF-8 turned into a `String`. */
  function Normal(v: Value): Value
    decreases v, 1
  {
    match v
    case Integer(_) => v
    case Text(_) => v
    case Raw(b) => TextOrRaw(b)
    case List(items) => List(NormalItems(items))
    case Dict(es) => Dict(NormalEntries(es))
  }

  function NormalItems(items: seq<Value>): seq<Value>
    decreases items, 0
  {
    if items == [] then [] else [Normal(items[0])] + NormalItems(items[1..])
  }

  function NormalEntries(es: seq<Entry>): seq<Entry>
    decreases es, 0
  {
    if es == [] then [] else [Entry(es[0].key, Normal(es[0].value))] + NormalEntries(es[1..])
  }

  lemma {:induction false} NormalIffNoTextInRaw(v: Value)
    ensures Normal(v) == v <==> NoTextInRaw(v)
    decreases v, 1
  {
    match v
    case List(items) => NormalItemsIff(items);
    case Dict(es) => NormalEntriesIff(es);
    case _ =>
  }

  lemma {:induction false} NormalItemsIff(items: seq<Value>)
    ensures NormalItems(items) == items <==> forall x :: x in items ==> NoTextInRaw(x)
    decreases items, 0
  {
    if items != [] {
      NormalIffNoTextInRaw(items[0]);
      NormalItemsIff(items[1..]);
      var n := NormalItems(items);
      assert n[0] == Normal(items[0]) && n[1..] == NormalItems(items[1..]);
      assert items == [items[0]] + items[1..];
    }
  }

  lemma {:induction false} NormalEntriesIff(es: seq<Entry>)
    ensures NormalEntries(es) == es <==> forall e :: e in es ==> NoTextInRaw(e.value)
    decreases es, 0
  {
    if es != [] {
      NormalIffNoTextInRaw(es[0].value);
      NormalEntriesIff(es[1..]);
      var n := NormalEntries(es);
      assert n[0].value == Normal(es[0].value) && n[1..] == NormalEntries(es[1..]);
      assert es == [es[0]] + es[1..];
    }
  }

  // ---- Scalars come back ----

  lemma {:induction false} NumberLengthIs(n: Bytes, rest: Bytes)
    requires forall i :: 0 <= i < |n| ==> IsNumber(n[i])
    requires rest != [] && !IsNumber(rest[0])
    ensures NumberLength(n + rest) == |n|
  {
    assert forall i :: 0 <= i < |n| ==> (n + rest)[i] == n[i];
    assert (n + rest)[|n|] == rest[0];
  }

  lemma ReadFormatted(n: int, width: Width, rest: Bytes)
    requires InRange(n, width)
    requires rest != [] && !IsNumber(rest[0])
    ensures ReadNumber(Format(n) + rest, width) == Ok(n, rest)
  {
    FormatParses(n, width);
    NumberLengthIs(Format(n), rest);
    var s := Format(n) + rest;
    assert s[..|Format(n)|] == Format(n) && s[|Format(n)|..] == rest;
  }

  lemma ReadEncodedInteger(n: int, rest: Bytes)
    requires InRange(n, I64)
    ensures ReadInteger(Encode(Integer(n)) + rest, I64) == Ok(n, rest)
    ensures n >= 0 ==> ReadInteger(Encode(Integer(n)) + rest, U64) == Ok(n, rest)
    ensures n < 0 ==> ReadInteger(Encode(Integer(n)) + rest, U64).Fail?
  {
    var s, tail := Encode(Integer(n)) + rest, [BYTE_E] + rest;
    assert s[1..] == Format(n) + tail;
    assert tail[1..] == rest;
    ReadFormatted(n, I64, tail);
    if n >= 0 {
      ReadFormatted(n, U64, tail);
    } else {
      FormatParses(n, I64);
      NumberLengthIs(Format(n), tail);
      NegativeIsNotUnsigned(n);
      assert s[1..][..|Format(n)|] == Format(n);
    }
  }

  lemma ReadLengthPrefix(b: Bytes, rest: Bytes)
    requires |b| < TWO_63
    ensures ReadNumber(EncodeBytes(b) + rest, U64) == Ok(|b|, [COLON] + (b + rest))
    ensures IsDigit(EncodeBytes(b)[0])
  {
    var tail := [COLON] + (b + rest);
    assert EncodeBytes(b) + rest == Format(|b|) + tail;
    ReadFormatted(|b|, U64, tail);
    FormatParses(|b|, U64);
  }

  lemma ReadEncodedBytes(b: Bytes, rest: Bytes)
    requires |b| < TWO_63
    ensures ReadByteString(EncodeBytes(b) + rest) == Ok(b, rest)
    ensures ReadStr(EncodeBytes(b) + rest) == if Utf8.Valid(b) then Ok(b, rest) else Fail(InvalidUtf8, rest)
    ensures IsDigit(EncodeBytes(b)[0])
  {
    ReadLengthPrefix(b, rest);
    assert ([COLON] + (b + rest))[1..] == b + rest;
    assert (b + rest)[..|b|] == b && (b + rest)[|b|..] == rest;
  }

  /** No value starts with the byte that closes a list or a dictionary. */
  lemma EncodingStarts(v: Value)
    ensures Encode(v) != [] && Encode(v)[0] != BYTE_E
  {
    match v
    case Raw(b) => DigitsAreDigits(|b|);
    case Text(b) => DigitsAreDigits(|b|);
    case _ =>
  }

  // ---- The ordered map ----

  lemma {:induction false} InsertIntoSorted(es: seq<Entry>, key: Bytes, value: Value)
    requires Sorted(es)
    ensures Sorted(Insert(es, key, value))
    ensures forall e :: e in Insert(es, key, value) ==> e in es || e == Entry(key, value)
  {
    var r := Insert(es, key, value);
    if es == [] {
    } else if Less(key, es[0].key) {
      forall j | 0 < j < |es| ensures Less(key, es[j].key) { LessIsTransitive(key, es[0].key, es[j].key); }
    } else if key != es[0].key {
      InsertIntoSorted(es[1..], key, value);
      LessIsTotal(key, es[0].key);
      forall j | 0 < j < |r| ensures Less(r[0].key, r[j].key) {
        assert r[j] in Insert(es[1..], key, value);
      }
      forall i, j | 0 <= i < j < |r| ensures Less(r[i].key, r[j].key) {
        if i > 0 { assert r[i] == r[1..][i - 1] && r[j] == r[1..][j - 1]; }
      }
    }
  }

  lemma {:induction false} LookupInsert(es: seq<Entry>, key: Bytes, value: Value, k: Bytes)
    requires Sorted(es)
    ensures Lookup(Insert(es, key, value), k) == if k == key then Some(value) else Lookup(es, k)
  {
    if es != [] && Less(key, es[0].key) {
      assert Insert(es, key, value)[1..] == es;
    } else if es != [] && key == es[0].key {
      assert Insert(es, key, value)[1..] == es[1..];
    } else if es != [] {
      LookupInsert(es[1..], key, value, k);
      assert Insert(es, key, value)[1..] == Insert(es[1..], key, value);
    }
  }

  /** Inserting keys in increasing order appends them. */
  lemma {:induction false} InsertLast(es: seq<Entry>, key: Bytes, value: Value)
    requires forall e :: e in es ==> Less(e.key, key)
    ensures Insert(es, key, value) == es + [Entry(key, value)]
  {
    if es != [] {
      LessIsAsymmetric(es[0].key, key);
      InsertLast(es[1..], key, value);
      assert es == [es[0]] + es[1..];
    }
  }

  lemma {:induction false} LookupIsMembership(es: seq<Entry>, key: Bytes, value: Value)
    requires Sorted(es)
    ensures Lookup(es, key) == Some(value) <==> Entry(key, value) in es
    ensures Lookup(es, key) == None <==> forall e :: e in es ==> e.key != key
  {
    if es != [] {
      LookupIsMembership(es[1..], key, value);
      assert es == [es[0]] + es[1..];
      forall e | e in es[1..] ensures e.key != es[0].key { LessIsIrreflexive(es[0].key); }
    }
  }

  // ---- Decoding undoes encoding ----

  // One unfolding of the tree decoder for each kind of value.

  lemma DecodeListAt(body: Bytes)
    requires DecodeItems(body).Ok?
    ensures DecodeValue([BYTE_L] + body) == Ok(List(DecodeItems(body).value), DecodeItems(body).rest)
  {
    assert ([BYTE_L] + body)[1..] == body;
  }

  lemma DecodeDictAt(body: Bytes)
    requires DecodeEntries(body, []).Ok?
    ensures DecodeValue([BYTE_D] + body) == Ok(Dict(DecodeEntries(body, []).value), DecodeEntries(body, []).rest)
  {
    assert ([BYTE_D] + body)[1..] == body;
  }

  lemma DecodeBytesAt(b: Bytes, rest: Bytes)
    requires |b| < TWO_63
    ensures DecodeValue(EncodeBytes(b) + rest) == Ok(TextOrRaw(b), rest)
  {
    ReadEncodedBytes(b, rest);
    assert (EncodeBytes(b) + rest)[0] == EncodeBytes(b)[0];
  }

  lemma EncodedListIs(items: seq<Value>, rest: Bytes)
    ensures Encode(List(items)) + rest == [BYTE_L] + (EncodeItems(items) + ([BYTE_E] + rest))
  {
  }

  lemma EncodedDictIs(es: seq<Entry>, rest: Bytes)
    ensures Encode(Dict(es)) + rest == [BYTE_D] + (EncodeEntries(es) + ([BYTE_E] + rest))
  {
  }

  lemma EncodedEntriesAre(es: seq<Entry>, tail: Bytes)
    requires es != []
    ensures EncodeEntries(es) + tail
         == EncodeBytes(es[0].key) + (Encode(es[0].value) + (EncodeEntries(es[1..]) + tail))
  {
    var k, v, later := EncodeBytes(es[0].key), Encode(es[0].value), EncodeEntries(es[1..]);
    Assoc(k + v, later, tail);
    Assoc(k, v, later + tail);
  }

  lemma DecodeEntryAt(e: Entry, later: Bytes, before: seq<Entry>)
    requires TypedKey(e.key)
    requires DecodeValue(Encode(e.value) + later) == Ok(Normal(e.value), later)
    ensures DecodeEntries(EncodeBytes(e.key) + (Encode(e.value) + later), before)
         == DecodeEntries(later, Insert(before, e.key, Normal(e.value)))
  {
    ReadEncodedBytes(e.key, Encode(e.value) + later);
    assert (EncodeBytes(e.key) + (Encode(e.value) + later))[0] == EncodeBytes(e.key)[0];
  }

  /** Decoding what was encoded gives the normal form and stops exactly at what follows. */
  lemma {:induction false} DecodeEncode(v: Value, rest: Bytes)
    requires Typed(v)
    ensures DecodeValue(Encode(v) + rest) == Ok(Normal(v), rest)
    decreases v, 2
  {
    match v
    case Integer(i) => ReadEncodedInteger(i, rest);
    case Raw(b) => DecodeBytesAt(b, rest);
    case Text(b) => DecodeBytesAt(b, rest);
    case List(items) =>
      DecodeEncodedItems(items, rest);
      DecodeListAt(EncodeItems(items) + ([BYTE_E] + rest));
      EncodedListIs(items, rest);
    case Dict(es) =>
      DecodeEncodedBody(es, rest);
      DecodeDictAt(EncodeEntries(es) + ([BYTE_E] + rest));
      EncodedDictIs(es, rest);
  }

  lemma {:induction false} DecodeEncodedItems(items: seq<Value>, rest: Bytes)
    requires forall x :: x in items ==> Typed(x)
    ensures DecodeItems(EncodeItems(items) + ([BYTE_E] + rest)) == Ok(NormalItems(items), rest)
    decreases items, 0
  {
    var tail := [BYTE_E] + rest;
    if items == [] {
      assert EncodeItems(items) + tail == tail && tail[1..] == rest;
    } else {
      var later := EncodeItems(items[1..]) + tail;
      assert EncodeItems(items) + tail == Encode(items[0]) + later;
      EncodingStarts(items[0]);
      DecodeEncode(items[0], later);
      DecodeEncodedItems(items[1..], rest);
    }
  }

  lemma {:induction false} DecodeEncodedBody(es: seq<Entry>, rest: Bytes)
    requires Typed(Dict(es))
    ensures DecodeEntries(EncodeEntries(es) + ([BYTE_E] + rest), []) == Ok(NormalEntries(es), rest)
    decreases es, 1
  {
    assert [] + es == es && [] + NormalEntries(es) == NormalEntries(es);
    DecodeEncodedEntries([], es, rest);
  }

  lemma {:induction false} DecodeEncodedEntries(before: seq<Entry>, es: seq<Entry>, rest: Bytes)
    requires Sorted(before + es)
    requires forall e :: e in es ==> TypedKey(e.key) && Typed(e.value)
    ensures DecodeEntries(EncodeEntries(es) + ([BYTE_E] + rest), before) == Ok(before + NormalEntries(es), rest)
    decreases es, 0
  {
    var tail := [BYTE_E] + rest;
    if es == [] {
      assert EncodeEntries(es) + tail == tail && tail[1..] == rest;
      assert before + NormalEntries(es) == before;
    } else {
      var next := before + [Entry(es[0].key, Normal(es[0].value))];
      DecodeEncode(es[0].value, EncodeEntries(es[1..]) + tail);
      DecodeFirstEntry(before, es, tail);
      NormalKeepsOrder(before, es);
      DecodeEncodedEntries(next, es[1..], rest);
      NormalEntriesFrom(before, es);
    }
  }

  lemma NormalEntriesFrom(before: seq<Entry>, es: seq<Entry>)
    requires es != []
    ensures before + NormalEntries(es)
         == before + [Entry(es[0].key, Normal(es[0].value))] + NormalEntries(es[1..])
  {
  }

  lemma DecodeFirstEntry(before: seq<Entry>, es: seq<Entry>, tail: Bytes)
    requires es != [] && Sorted(before + es) && TypedKey(es[0].key)
    requires var later := EncodeEntries(es[1..]) + tail;
             DecodeValue(Encode(es[0].value) + later) == Ok(Normal(es[0].value), later)
    ensures DecodeEntries(EncodeEntries(es) + tail, before)
         == DecodeEntries(EncodeEntries(es[1..]) + tail, before + [Entry(es[0].key, Normal(es[0].value))])
  {
    EncodedEntriesAre(es, tail);
    DecodeEntryAt(es[0], EncodeEntries(es[1..]) + tail, before);
    NormalKeepsOrder(before, es);
    InsertLast(before, es[0].key, Normal(es[0].value));
  }

  lemma NormalKeepsOrder(before: seq<Entry>, es: seq<Entry>)
    requires Sorted(before + es) && es != []
    ensures forall x :: x in before ==> Less(x.key, es[0].key)
    ensures Sorted(before + [Entry(es[0].key, Normal(es[0].value))] + es[1..])
  {
    var all := before + [Entry(es[0].key, Normal(es[0].value))] + es[1..];
    forall x | x in before ensures Less(x.key, es[0].key) {
      var i :| 0 <= i < |before| && before[i] == x;
      assert (before + es)[i] == x && (before + es)[|before|] == es[0];
    }
    forall i, j | 0 <= i < j < |all| ensures Less(all[i].key, all[j].key) {
      assert all[i].key == (before + es)[i].key && all[j].key == (before + es)[j].key;
    }
  }

  /** The round trip is exact precisely for values without text in `Bytes`. */
  lemma RoundTripIff(v: Value, rest: Bytes)
    requires Typed(v)
    ensures DecodeValue(Encode(v) + rest) == Ok(v, rest) <==> NoTextInRaw(v)
  {
    DecodeEncode(v, rest);
    NormalIffNoTextInRaw(v);
  }

  /** Encodings are prefix-free and injective up to the normal form. */
  lemma EncodingsAreDistinct(v: Value, w: Value, restV: Bytes, restW: Bytes)
    requires Typed(v) && Typed(w)
    requires Encode(v) + restV == Encode(w) + restW
    ensures Normal(v) == Normal(w) && restV == restW
  {
    DecodeEncode(v, restV);
    DecodeEncode(w, restW);
  }

  // ---- What is decoded is in normal form ----

  lemma {:induction false} DecodedIsNormal(s: Bytes)
    requires DecodeValue(s).Ok? && |s| < TWO_63
    ensures Typed(DecodeValue(s).value) && NoTextInRaw(DecodeValue(s).value)
    decreases |s|, 0
  {
    if s[0] == BYTE_D {
      DecodedEntriesAreNormal(s[1..], []);
    } else if s[0] == BYTE_L {
      DecodedItemsAreNormal(s[1..]);
    }
  }

  lemma {:induction false} DecodedItemsAreNormal(s: Bytes)
    requires DecodeItems(s).Ok? && |s| < TWO_63
    ensures forall x :: x in DecodeItems(s).value ==> Typed(x) && NoTextInRaw(x)
    decreases |s|, 1
  {
    if s[0] != BYTE_E {
      DecodedIsNormal(s);
      DecodedItemsAreNormal(DecodeValue(s).rest);
    }
  }

  ghost predicate NormalMap(es: seq<Entry>) {
    && Sorted(es)
    && forall e :: e in es ==> TypedKey(e.key) && Typed(e.value) && NoTextInRaw(e.value)
  }

  lemma {:induction false} DecodedEntriesAreNormal(s: Bytes, entries: seq<Entry>)
    requires DecodeEntries(s, entries).Ok? && |s| < TWO_63 && NormalMap(entries)
    ensures NormalMap(DecodeEntries(s, entries).value)
    decreases |s|, 1
  {
    if s[0] != BYTE_E {
      var key := ReadStr(s);
      var value := DecodeValue(key.rest);
      DecodedIsNormal(key.rest);
      InsertIntoSorted(entries, key.value, value.value);
      DecodedEntriesAreNormal(value.rest, Insert(entries, key.value, value.value));
    }
  }

  /** Whatever spelling was accepted, re-encoding gives one that decodes to the same value. */
  lemma ReencodingIsStable(s: Bytes, rest: Bytes)
    requires DecodeValue(s).Ok? && |s| < TWO_63
    ensures DecodeValue(Encode(DecodeValue(s).value) + rest) == Ok(DecodeValue(s).value, rest)
  {
    DecodedIsNormal(s);
    RoundTripIff(DecodeValue(s).value, rest);
  }

  // ---- Skipping agrees with decoding ----

  /** Where decoding a value succeeds, skipping it succeeds and stops at the same place. */
  lemma {:induction false} SkipFollowsDecode(s: Bytes)
    requires DecodeValue(s).Ok?
    ensures SkipItem(s) == Ok((), DecodeValue(s).rest)
    decreases |s|, 0
  {
    if s[0] == BYTE_D {
      SkipFollowsDecodeEntries(s[1..], []);
    } else if s[0] == BYTE_L {
      SkipFollowsDecodeItems(s[1..]);
    } else if s[0] == BYTE_I {
      var n := NumberLength(s[1..]);
      assert s[1..][n..] == s[1 + n..];
    }
  }

  lemma {:induction false} SkipFollowsDecodeItems(s: Bytes)
    requires DecodeItems(s).Ok?
    ensures SkipItems(s) == Ok((), DecodeItems(s).rest)
    decreases |s|, 1
  {
    if s[0] != BYTE_E {
      SkipFollowsDecode(s);
      SkipFollowsDecodeItems(DecodeValue(s).rest);
    }
  }

  lemma SkipFollowsReadStr(s: Bytes)
    requires ReadStr(s).Ok?
    ensures SkipItem(s) == Ok((), ReadStr(s).rest)
  {
    var n := NumberLength(s);
    assert s[..n] != [] && s[..n][0] == s[0];
  }

  lemma {:induction false} SkipFollowsDecodeEntries(s: Bytes, entries: seq<Entry>)
    requires DecodeEntries(s, entries).Ok?
    ensures SkipPairs(s) == Ok((), DecodeEntries(s, entries).rest)
    decreases |s|, 1
  {
    if s[0] != BYTE_E {
      var key := ReadStr(s);
      var value := DecodeValue(key.rest);
      SkipFollowsReadStr(s);
      SkipFollowsDecode(key.rest);
      SkipFollowsDecodeEntries(value.rest, Insert(entries, key.value, value.value));
    }
  }
}
