/** On which accepted bytes the two readers of the info dictionary agree, and where they part: the tree keeps
    the last of repeated keys and reads padded numbers, the stream takes the first and refuses them. */
module StreamAndTree {
  import opened ByteStrings
  import opened Decimal
  import opened Bencode
  import opened BencodeLaws
  import opened StructReader
  import opened MetaInfo
  import opened Sha1Hash
  import opened MetaInfoLaws
  import opened InfoHashLaws
  import Utf8

  // ---- Canonical bytes ----

  /** What accepted bytes look like when keys strictly increase, at every depth, and no integer is a minus sign
      followed by a zero. */
  predicate Plain(s: Bytes)
    decreases |s|, 0
  {
    if s == [] then false
    else if s[0] == BYTE_D then PlainEntries(s[1..], None)
    else if s[0] == BYTE_L then PlainItems(s[1..])
    else if s[0] == BYTE_I then !(|s| > 2 && s[1] == MINUS && s[2] == ZERO)
    else true
  }

  predicate PlainItems(s: Bytes)
    decreases |s|, 1
  {
    s != [] && (s[0] == BYTE_E ||
      match DecodeValue(s)
      case Ok(_, s1) => Plain(s) && PlainItems(s1)
      case Fail(_, _) => false)
  }

  predicate PlainEntries(s: Bytes, last: Option<Bytes>)
    decreases |s|, 1
  {
    s != [] && (s[0] == BYTE_E ||
      match ReadStr(s)
      case Fail(_, _) => false
      case Ok(key, s1) =>
        (last.Some? ==> Less(last.value, key)) &&
        match DecodeValue(s1)
        case Ok(_, s2) => Plain(s1) && PlainEntries(s2, Some(key))
        case Fail(_, _) => false)
  }

  lemma ReadNumberParts(s: Bytes, width: Width)
    requires ReadNumber(s, width).Ok?
    ensures var n, r := NumberLength(s), ReadNumber(s, width);
            && s == s[..n] + r.rest && !Refused(s[..n]) && Parse(s[..n], width) == Some(r.value)
            && r.rest != [] && !IsNumber(r.rest[0])
  {
  }

  /** A number that is read is spelled as it is written exactly when it is not a minus sign and a zero. */
  lemma ReadNumberIsCanonical(s: Bytes, width: Width)
    requires ReadNumber(s, width).Ok?
    ensures s == Format(ReadNumber(s, width).value) + ReadNumber(s, width).rest
       <==> !(|s| > 1 && s[0] == MINUS && s[1] == ZERO)
  {
    ReadNumberParts(s, width);
    var text, r := s[..NumberLength(s)], ReadNumber(s, width);
    AcceptedSpelling(text, width);
    if s == Format(r.value) + r.rest { SameMiddle([], text, Format(r.value), r.rest, s); }
    if |s| > 1 && s[0] == MINUS && s[1] == ZERO { StartsNumber(s); }
  }

  lemma StartsNumber(s: Bytes)
    requires |s| > 1 && IsNumber(s[0]) && IsNumber(s[1])
    ensures NumberLength(s) > 1
  {
    assert s[1..][0] == s[1];
  }

  lemma ReadIntegerParts(s: Bytes)
    requires s != [] && s[0] == BYTE_I && ReadInteger(s, I64).Ok?
    ensures var number, r := ReadNumber(s[1..], I64), ReadInteger(s, I64);
            number.Ok? && number.rest == [BYTE_E] + r.rest && number.value == r.value
  {
  }

  lemma SameTail(x: byte, a: Bytes, b: Bytes)
    ensures [x] + a == [x] + b <==> a == b
  {
    assert ([x] + a)[1..] == a && ([x] + b)[1..] == b;
  }

  lemma ReadIntegerIsCanonical(s: Bytes)
    requires s != [] && s[0] == BYTE_I && ReadInteger(s, I64).Ok?
    ensures s == Encode(Integer(ReadInteger(s, I64).value)) + ReadInteger(s, I64).rest
       <==> !(|s| > 2 && s[1] == MINUS && s[2] == ZERO)
  {
    ReadIntegerParts(s);
    ReadNumberIsCanonical(s[1..], I64);
    var number, r := ReadNumber(s[1..], I64), ReadInteger(s, I64);
    assert Encode(Integer(r.value)) + r.rest == [BYTE_I] + (Format(r.value) + number.rest);
    assert s == [BYTE_I] + s[1..];
    SameTail(BYTE_I, s[1..], Format(r.value) + number.rest);
  }

  lemma SameMiddle(a: Bytes, x: Bytes, y: Bytes, b: Bytes, s: Bytes)
    requires s == a + x + b && s == a + y + b
    ensures x == y
  {
    assert |x| == |y|;
    assert x == s[|a|..|a| + |x|] && y == s[|a|..|a| + |y|];
  }

  lemma ReadByteStringParts(s: Bytes)
    requires ReadByteString(s).Ok?
    ensures var number, r := ReadNumber(s, U64), ReadByteString(s);
            number.Ok? && number.value == |r.value| && number.rest == [COLON] + (r.value + r.rest)
  {
    var number := ReadNumber(s, U64);
    var body := number.rest[1..];
    assert number.rest == [COLON] + body && body == body[..number.value] + body[number.value..];
  }

  lemma EncodedBytesAre(b: Bytes, rest: Bytes)
    ensures EncodeBytes(b) + rest == Format(|b|) + ([COLON] + (b + rest))
  {
    Assoc(Format(|b|) + [COLON], b, rest);
    Assoc(Format(|b|), [COLON], b + rest);
  }

  /** A byte string has one spelling only. */
  lemma ReadByteStringIsCanonical(s: Bytes)
    requires ReadByteString(s).Ok?
    ensures s == EncodeBytes(ReadByteString(s).value) + ReadByteString(s).rest
  {
    ReadByteStringParts(s);
    ReadNumberIsCanonical(s, U64);
    UnsignedHasNoMinus(s);
    EncodedBytesAre(ReadByteString(s).value, ReadByteString(s).rest);
  }

  lemma UnsignedHasNoMinus(s: Bytes)
    requires ReadNumber(s, U64).Ok?
    ensures s != [] && s[0] != MINUS
  {
    ReadNumberParts(s, U64);
    var text := s[..NumberLength(s)];
    assert AllDigits(text) && IsDigit(text[0]) && text[0] == s[0];
  }

  lemma {:induction false} PlainIsCanonical(s: Bytes)
    requires DecodeValue(s).Ok? && Plain(s)
    ensures s == Encode(DecodeValue(s).value) + DecodeValue(s).rest
    decreases |s|, 0
  {
    var r := DecodeValue(s);
    if s[0] == BYTE_D {
      PlainEntriesAreCanonical(s[1..], [], None);
      EncodedDictIs(r.value.entries, r.rest);
      assert s == [BYTE_D] + s[1..] && r.value.entries[0..] == r.value.entries;
    } else if s[0] == BYTE_L {
      PlainItemsAreCanonical(s[1..]);
      EncodedListIs(r.value.items, r.rest);
      assert s == [BYTE_L] + s[1..];
    } else if s[0] == BYTE_I {
      ReadIntegerIsCanonical(s);
    } else {
      ReadByteStringIsCanonical(s);
    }
  }

  lemma {:induction false} PlainItemsAreCanonical(s: Bytes)
    requires DecodeItems(s).Ok? && PlainItems(s)
    ensures s == EncodeItems(DecodeItems(s).value) + ([BYTE_E] + DecodeItems(s).rest)
    decreases |s|, 1
  {
    var r := DecodeItems(s);
    if s[0] == BYTE_E {
      assert s == [BYTE_E] + s[1..];
    } else {
      var v := DecodeValue(s);
      PlainIsCanonical(s);
      PlainItemsAreCanonical(v.rest);
      assert r.value[0] == v.value && r.value[1..] == DecodeItems(v.rest).value;
      Assoc(Encode(v.value), EncodeItems(r.value[1..]), [BYTE_E] + r.rest);
    }
  }

  /** `last` is the greatest key so far. */
  predicate UpTo(entries: seq<Entry>, last: Option<Bytes>) {
    forall e :: e in entries ==> last.Some? && (e.key == last.value || Less(e.key, last.value))
  }

  /** One turn of the dictionary loop on plain bytes appends an entry. */
  lemma PlainEntryStep(s: Bytes, entries: seq<Entry>, last: Option<Bytes>)
    requires DecodeEntries(s, entries).Ok? && PlainEntries(s, last) && UpTo(entries, last) && s[0] != BYTE_E
    ensures ReadStr(s).Ok? && DecodeValue(ReadStr(s).rest).Ok?
    ensures var (key, v) := (ReadStr(s), DecodeValue(ReadStr(s).rest));
            && Plain(key.rest) && PlainEntries(v.rest, Some(key.value))
            && DecodeEntries(s, entries) == DecodeEntries(v.rest, entries + [Entry(key.value, v.value)])
            && UpTo(entries + [Entry(key.value, v.value)], Some(key.value))
            && s == EncodeBytes(key.value) + key.rest
  {
    var key := ReadStr(s);
    var v := DecodeValue(key.rest);
    forall e | e in entries ensures Less(e.key, key.value) {
      if e.key != last.value { LessIsTransitive(e.key, last.value, key.value); }
    }
    InsertLast(entries, key.value, v.value);
    ReadByteStringIsCanonical(s);
  }

  lemma {:induction false} PlainEntriesAreCanonical(s: Bytes, entries: seq<Entry>, last: Option<Bytes>)
    requires DecodeEntries(s, entries).Ok? && PlainEntries(s, last) && UpTo(entries, last)
    ensures var r := DecodeEntries(s, entries);
            && entries <= r.value
            && s == EncodeEntries(r.value[|entries|..]) + ([BYTE_E] + r.rest)
    decreases |s|, 1
  {
    var r := DecodeEntries(s, entries);
    if s[0] == BYTE_E {
      assert s == [BYTE_E] + s[1..] && r.value[|entries|..] == [];
    } else {
      PlainEntryStep(s, entries, last);
      var key := ReadStr(s);
      var v := DecodeValue(key.rest);
      PlainIsCanonical(key.rest);
      PlainEntriesAreCanonical(v.rest, entries + [Entry(key.value, v.value)], Some(key.value));
      OneEntryMore(entries, Entry(key.value, v.value), r.value, r.rest);
    }
  }

  lemma OneEntryMore(entries: seq<Entry>, e: Entry, all: seq<Entry>, rest: Bytes)
    requires entries + [e] <= all
    ensures entries <= all && all[|entries|..] == [e] + all[|entries| + 1..]
    ensures EncodeBytes(e.key) + (Encode(e.value) + (EncodeEntries(all[|entries| + 1..]) + ([BYTE_E] + rest)))
         == EncodeEntries(all[|entries|..]) + ([BYTE_E] + rest)
  {
    assert (entries + [e])[|entries|] == e == all[|entries|];
    assert all[|entries|..] == [e] + all[|entries| + 1..];
    EncodedEntriesAre(all[|entries|..], [BYTE_E] + rest);
  }

  lemma {:induction false} EncodedIsPlain(v: Value, rest: Bytes)
    requires Typed(v)
    ensures Plain(Encode(v) + rest)
    decreases v, 2
  {
    var s := Encode(v) + rest;
    match v
    case Dict(es) =>
      EncodedDictIs(es, rest);
      assert s[1..] == EncodeEntries(es) + ([BYTE_E] + rest);
      EncodedEntriesArePlain(es, rest, None);
    case List(items) =>
      EncodedListIs(items, rest);
      assert s[1..] == EncodeItems(items) + ([BYTE_E] + rest);
      EncodedItemsArePlain(items, rest);
    case Integer(i) =>
      ReadEncodedInteger(i, rest);
      ReadIntegerIsCanonical(s);
    case Raw(b) => ReadEncodedBytes(b, rest);
    case Text(t) => ReadEncodedBytes(t, rest);
  }

  lemma {:induction false} EncodedItemsArePlain(items: seq<Value>, rest: Bytes)
    requires forall x :: x in items ==> Typed(x)
    ensures PlainItems(EncodeItems(items) + ([BYTE_E] + rest))
    decreases items, 1
  {
    var tail := [BYTE_E] + rest;
    if items == [] {
      assert EncodeItems(items) + tail == tail;
    } else {
      var later := EncodeItems(items[1..]) + tail;
      assert EncodeItems(items) + tail == Encode(items[0]) + later;
      EncodingStarts(items[0]);
      DecodeEncode(items[0], later);
      EncodedIsPlain(items[0], later);
      EncodedItemsArePlain(items[1..], rest);
    }
  }

  lemma {:induction false} EncodedEntriesArePlain(es: seq<Entry>, rest: Bytes, last: Option<Bytes>)
    requires Typed(Dict(es)) && (es != [] && last.Some? ==> Less(last.value, es[0].key))
    ensures PlainEntries(EncodeEntries(es) + ([BYTE_E] + rest), last)
    decreases es, 0
  {
    var tail := [BYTE_E] + rest;
    if es == [] {
      assert EncodeEntries(es) + tail == tail;
    } else {
      var later := EncodeEntries(es[1..]) + tail;
      EncodedEntriesAre(es, tail);
      ReadEncodedBytes(es[0].key, Encode(es[0].value) + later);
      assert (EncodeBytes(es[0].key) + (Encode(es[0].value) + later))[0] == EncodeBytes(es[0].key)[0];
      DecodeEncode(es[0].value, later);
      EncodedIsPlain(es[0].value, later);
      EncodedEntriesArePlain(es[1..], rest, Some(es[0].key));
    }
  }

  /** Accepted bytes are the encoding of what they decode to exactly when their keys strictly increase and no
      integer is padded. */
  lemma CanonicalIff(s: Bytes)
    requires DecodeValue(s).Ok? && |s| < TWO_63
    ensures s == Encode(DecodeValue(s).value) + DecodeValue(s).rest <==> Plain(s)
  {
    DecodedIsNormal(s);
    if Plain(s) { PlainIsCanonical(s); } else { EncodedIsPlain(DecodeValue(s).value, DecodeValue(s).rest); }
  }

  /** On all such bytes the two readers agree exactly when every length is below 2^63, whatever other keys
      there are. */
  lemma ReadersAgreeIff(s: Bytes)
    requires DecodeValue(s).Ok? && |s| < TWO_63
    ensures var info := InfoFromValue(DecodeValue(s).value);
            Plain(s) && info.Success? ==> (DecodeInfo(s) == ReadThroughTree(s) <==> LengthsFit(info.value))
  {
    CanonicalIff(s);
    DecodedIsNormal(s);
    var v := DecodeValue(s).value;
    if InfoFromValue(v).Success? { StreamAgreesWithTree(v, DecodeValue(s).rest); }
  }

  // ---- Where they part ----

  /** The entries of a single-file info dictionary begin with its length. */
  lemma LengthComesFirst(info: Info)
    requires info.Single?
    ensures var es := InfoIntoValue(info).entries;
            es != [] && es[0] == Entry(LENGTH, Integer(AsI64(info.length)))
  {
    var es := InfoIntoValue(info).entries;
    InfoIntoLooksUp(info);
    KeysAreDistinct();
    KeysInOrder();
    assert Lookup(es, LENGTH).Some?;
    HeadIsLeast(es, LENGTH);
    var k := es[0].key;
    assert Lookup(es, k) == Some(es[0].value);
    if k != LENGTH { LessIsAsymmetric(k, LENGTH); }
  }

  /** A single-file dictionary in canonical form, but for its first value. */
  function WithLength(info: Info, length: Bytes, rest: Bytes): Bytes
    requires info.Single?
  {
    [BYTE_D] + (EncodeBytes(LENGTH) + (length + Body(InfoIntoValue(info).entries, rest)))
  }

  /** With `length` under the cursor, `files` is missing and `length` is found at once. */
  lemma LengthIsAsked(value: Bytes)
    ensures var s1 := EncodeBytes(LENGTH) + value;
            && SeekFrom(s1, s1, FILES) == Fail(MissingField(FILES), s1)
            && SeekFrom(s1, s1, LENGTH) == Ok((), value)
  {
    var s1 := EncodeBytes(LENGTH) + value;
    KeyIsTyped(LENGTH);
    ReadEncodedBytes(LENGTH, value);
    assert s1[0] == EncodeBytes(LENGTH)[0];
    LessAt(FILES, LENGTH, 0);
    LessIsAsymmetric(FILES, LENGTH);
  }

  lemma SingleFieldsOf(es: seq<Entry>, info: Info)
    requires InfoFromValue(Dict(es)) == Success(info) && info.Single?
    ensures GetOptionField(Dict(es), MD5SUM, StringFromValue) == Success(info.md5sum)
    ensures SharedFromValue(Dict(es)) == Success(Shared(info.name, info.pieceLength, info.pieces))
  {
  }

  lemma Md5sumAfterLength(info: Info, rest: Bytes)
    requires info.Single? && GoodInfo(info)
    ensures var es := InfoIntoValue(info).entries;
            ReadOption(Body(es, rest), MD5SUM, ReadStr) == Ok(info.md5sum, Body(Ahead(es, MD5SUM), rest))
  {
    InfoIntoIsTyped(info);
    TreeUndoesInto(info);
    SingleFieldsOf(InfoIntoValue(info).entries, info);
    StringOption(InfoIntoValue(info).entries, rest, MD5SUM);
  }

  lemma SharedAfterLength(info: Info, rest: Bytes)
    requires info.Single? && GoodInfo(info) && info.pieceLength < TWO_63
    ensures var ahead := Ahead(InfoIntoValue(info).entries, MD5SUM);
            && SharedFields(Body(ahead, rest))
            == Ok(Shared(info.name, info.pieceLength, info.pieces), Body(AheadOfShared(ahead), rest))
            && SkipPairs(Body(AheadOfShared(ahead), rest)) == Ok((), rest)
  {
    var es := InfoIntoValue(info).entries;
    InfoIntoIsTyped(info);
    TreeUndoesInto(info);
    SingleFieldsOf(es, info);
    SharedFieldsStay(es, MD5SUM);
    SharedFieldsAt(Ahead(es, MD5SUM), rest);
    SkipBody(AheadOfShared(Ahead(es, MD5SUM)), rest);
  }

  /** The stream reader after a first `length` of its own. */
  lemma StreamTakesFirst(info: Info, n: nat, first: Bytes, rest: Bytes)
    requires info.Single? && GoodInfo(info) && info.pieceLength < TWO_63 && n < TWO_63
    requires var body := Body(InfoIntoValue(info).entries, rest); DecodeU64(first + body) == Ok(n, body)
    ensures DecodeInfo(WithLength(info, first, rest)) == Ok(info.(length := n), rest)
  {
    var body := Body(InfoIntoValue(info).entries, rest);
    var s1 := EncodeBytes(LENGTH) + (first + body);
    LengthIsAsked(first + body);
    assert ([BYTE_D] + s1)[1..] == s1;
    assert ReadField(s1, LENGTH, DecodeU64) == Ok(n, body);
    assert InfoFields(s1) == SingleFields(s1);
    Md5sumAfterLength(info, rest);
    SharedAfterLength(info, rest);
  }

  /** The tree reader puts a value under `length`, in place of one that is there. */
  lemma TreeStep(first: Bytes, v: Value, later: Bytes, before: seq<Entry>)
    requires DecodeValue(first + later) == Ok(v, later)
    ensures DecodeEntries(EncodeBytes(LENGTH) + (first + later), before)
         == DecodeEntries(later, Insert(before, LENGTH, v))
  {
    KeyIsTyped(LENGTH);
    ReadEncodedBytes(LENGTH, first + later);
    assert (EncodeBytes(LENGTH) + (first + later))[0] == EncodeBytes(LENGTH)[0];
  }

  /** An entry under `length` makes no difference to what is read when `length` comes again. */
  lemma ReplacedAtOnce(w: Value, later: Bytes, v: Value)
    requires Typed(w) && Normal(w) == w
    ensures var s := EncodeBytes(LENGTH) + (Encode(w) + later);
            DecodeEntries(s, [Entry(LENGTH, v)]) == DecodeEntries(s, [])
  {
    DecodeEncode(w, later);
    TreeStep(Encode(w), w, later, []);
    TreeStep(Encode(w), w, later, [Entry(LENGTH, v)]);
    assert Insert([Entry(LENGTH, v)], LENGTH, w) == [Entry(LENGTH, w)] == Insert([], LENGTH, w);
  }

  lemma EntriesTakeLast(es: seq<Entry>, first: Bytes, v: Value, rest: Bytes)
    requires Typed(Dict(es)) && es != [] && es[0].key == LENGTH && Normal(es[0].value) == es[0].value
    requires DecodeValue(first + Body(es, rest)) == Ok(v, Body(es, rest))
    ensures DecodeEntries(EncodeBytes(LENGTH) + (first + Body(es, rest)), []) == DecodeEntries(Body(es, rest), [])
  {
    TreeStep(first, v, Body(es, rest), []);
    assert Insert([], LENGTH, v) == [Entry(LENGTH, v)];
    BodyStarts(es, rest);
    ReplacedAtOnce(es[0].value, Body(es[1..], rest), v);
  }

  lemma SameEntriesSameTree(a: Bytes, b: Bytes)
    requires DecodeEntries(a, []) == DecodeEntries(b, [])
    ensures ReadThroughTree([BYTE_D] + a) == ReadThroughTree([BYTE_D] + b)
  {
    assert ([BYTE_D] + a)[1..] == a && ([BYTE_D] + b)[1..] == b;
  }

  lemma TreeTakesLast(info: Info, first: Bytes, v: Value, rest: Bytes)
    requires info.Single? && GoodInfo(info)
    requires var later := Body(InfoIntoValue(info).entries, rest); DecodeValue(first + later) == Ok(v, later)
    ensures ReadThroughTree(WithLength(info, first, rest)) == ReadThroughTree(Encode(InfoIntoValue(info)) + rest)
  {
    var es := InfoIntoValue(info).entries;
    InfoIntoIsTyped(info);
    LengthComesFirst(info);
    EntriesTakeLast(es, first, v, rest);
    EncodedDictIs(es, rest);
    SameEntriesSameTree(EncodeBytes(LENGTH) + (first + Body(es, rest)), Body(es, rest));
  }

  /** With a second `length` the stream takes the first one and the tree the last one. */
  lemma RepeatedKeyDisagrees(info: Info, n: nat, rest: Bytes)
    requires info.Single? && GoodInfo(info) && LengthsFit(info) && n < TWO_63
    requires !Utf8.Valid(Join(info.pieces))
    ensures var s := WithLength(info, Encode(Integer(n)), rest);
            && ReadThroughTree(s) == Ok(info, rest)
            && DecodeInfo(s) == Ok(info.(length := n), rest)
  {
    var later := Body(InfoIntoValue(info).entries, rest);
    ReadEncodedInteger(n, later);
    StreamTakesFirst(info, n, Encode(Integer(n)), rest);
    DecodeEncode(Integer(n), later);
    TreeTakesLast(info, Encode(Integer(n)), Integer(n), rest);
    TreeRoundTripIff(info, rest);
  }

  const PADDED_ZERO: Bytes := [BYTE_I, MINUS, ZERO, ZERO, BYTE_E]

  lemma PaddedZeroReads(later: Bytes)
    ensures DecodeValue(PADDED_ZERO + later) == Ok(Integer(0), later)
    ensures DecodeU64(PADDED_ZERO + later).Fail?
  {
    var text, tail := [MINUS, ZERO, ZERO], [BYTE_E] + later;
    var s := PADDED_ZERO + later;
    assert s[1..] == text + tail && tail[1..] == later;
    NumberLengthIs(text, tail);
    assert s[1..][..3] == text && s[1..][3..] == tail;
    ParsesToZero();
  }

  lemma ParsesToZero()
    ensures !Refused([MINUS, ZERO, ZERO]) && Parse([MINUS, ZERO, ZERO], I64) == Some(0)
    ensures Parse([MINUS, ZERO, ZERO], U64) == None
  {
    var body := [ZERO, ZERO];
    assert [MINUS, ZERO, ZERO][1..] == body && body[..1] == [ZERO] && [ZERO][..0] == [];
    assert DigitsValue([ZERO]) == 0 && DigitsValue(body) == 0;
    assert !IsDigit([MINUS, ZERO, ZERO][0]);
  }

  /** A single-file dictionary in canonical form, but for a zero length written `-00`. */
  function WithPaddedZero(info: Info, rest: Bytes): Bytes
    requires info.Single? && InfoIntoValue(info).entries != []
  {
    [BYTE_D] + (EncodeBytes(LENGTH) + (PADDED_ZERO + Body(InfoIntoValue(info).entries[1..], rest)))
  }

  /** The tree reads a padded zero and the stream refuses it. */
  lemma PaddedZeroDisagrees(info: Info, rest: Bytes)
    requires info.Single? && GoodInfo(info) && info.length == 0 && !Utf8.Valid(Join(info.pieces))
    ensures InfoIntoValue(info).entries != []
    ensures ReadThroughTree(WithPaddedZero(info, rest)) == Ok(info, rest)
    ensures DecodeInfo(WithPaddedZero(info, rest)).Fail?
  {
    LengthComesFirst(info);
    PaddedZeroInTree(info, rest);
    PaddedZeroInStream(Body(InfoIntoValue(info).entries[1..], rest));
    TreeRoundTripIff(info, rest);
  }

  lemma PaddedZeroInStream(later: Bytes)
    ensures DecodeInfo([BYTE_D] + (EncodeBytes(LENGTH) + (PADDED_ZERO + later))).Fail?
  {
    var s1 := EncodeBytes(LENGTH) + (PADDED_ZERO + later);
    PaddedZeroReads(later);
    LengthIsAsked(PADDED_ZERO + later);
    assert ([BYTE_D] + s1)[1..] == s1;
    assert InfoFields(s1) == SingleFields(s1);
  }

  lemma PaddedZeroInTree(info: Info, rest: Bytes)
    requires info.Single? && GoodInfo(info) && info.length == 0 && InfoIntoValue(info).entries != []
    ensures ReadThroughTree(WithPaddedZero(info, rest)) == ReadThroughTree(Encode(InfoIntoValue(info)) + rest)
  {
    var es := InfoIntoValue(info).entries;
    var later := Body(es[1..], rest);
    PaddedZeroReads(later);
    TreeStep(PADDED_ZERO, Integer(0), later, []);
    LengthComesFirst(info);
    BodyStarts(es, rest);
    DecodeEncode(Integer(0), later);
    TreeStep(Encode(Integer(0)), Integer(0), later, []);
    EncodedDictIs(es, rest);
    SameEntriesSameTree(EncodeBytes(LENGTH) + (PADDED_ZERO + later), Body(es, rest));
  }

  // ---- What the fallback to the single-file form lets through ----

  /** After `files` with a dictionary for its value the stream reader is inside that dictionary. */
  lemma FilesIsEntered(inner: Bytes)
    ensures var s1 := EncodeBytes(FILES) + ([BYTE_D] + inner);
            ReadField(s1, FILES, DecodeFiles) == Fail(UnexpectedByte(BYTE_L, BYTE_D), inner)
  {
    var value := [BYTE_D] + inner;
    KeyIsTyped(FILES);
    ReadEncodedBytes(FILES, value);
    assert (EncodeBytes(FILES) + value)[0] == EncodeBytes(FILES)[0] && value[1..] == inner;
  }

  /** Any failure to read `files` makes the reader go on with the single-file form from where it is. A dictionary
      under `files` is so read as if it were the info dictionary, and the outer one is not even closed; the tree
      reader refuses it. */
  lemma DictUnderFilesIsRead(info: Info, rest: Bytes)
    requires info.Single? && GoodInfo(info) && LengthsFit(info) && !Utf8.Valid(Join(info.pieces))
    ensures var v := Dict([Entry(FILES, InfoIntoValue(info))]);
            && DecodeInfo(Encode(v) + rest) == Ok(info, [BYTE_E] + rest)
            && DecodeValue(Encode(v) + rest) == Ok(v, rest) && InfoFromValue(v) == Failure(ExtraneousData)
  {
    var w, tail := InfoIntoValue(info), [BYTE_E] + rest;
    InfoIntoIsTyped(info);
    KeyIsTyped(FILES);
    RoundTripIff(Dict([Entry(FILES, w)]), rest);
    OneFieldText(FILES, w, rest);
    EncodedDictIs(w.entries, tail);
    FilesIsEntered(Body(w.entries, tail));
    var s1 := EncodeBytes(FILES) + ([BYTE_D] + Body(w.entries, tail));
    assert ([BYTE_D] + s1)[1..] == s1;
    SingleIsRead(info, tail);
  }

  lemma OneFieldText(key: Bytes, value: Value, rest: Bytes)
    ensures Encode(Dict([Entry(key, value)])) + rest
         == [BYTE_D] + (EncodeBytes(key) + (Encode(value) + ([BYTE_E] + rest)))
  {
    var es, tail := [Entry(key, value)], [BYTE_E] + rest;
    EncodedDictIs(es, rest);
    EncodedEntriesAre(es, tail);
    assert es[1..] == [] && EncodeEntries([]) + tail == tail;
  }

  lemma SingleIsRead(info: Info, rest: Bytes)
    requires info.Single? && GoodInfo(info) && LengthsFit(info)
    ensures var r := SingleFields(Body(InfoIntoValue(info).entries, rest));
            r.Ok? && r.value == info && SkipPairs(r.rest) == Ok((), rest)
  {
    var es := InfoIntoValue(info).entries;
    InfoIntoIsTyped(info);
    TreeUndoesInto(info);
    SingleFieldsAt(es, rest);
    SkipBody(AheadOfShared(Ahead(Ahead(es, LENGTH), MD5SUM)), rest);
  }

  /** An md5sum that is no text is refused, though the field is optional. */
  lemma Md5sumMustBeText(es: seq<Entry>, b: Bytes, rest: Bytes)
    requires Typed(Dict(es)) && Lookup(es, MD5SUM) == Some(Raw(b)) && !Utf8.Valid(b)
    requires Lookup(es, FILES) == None && GetField(Dict(es), LENGTH, U64FromValue).Success?
    ensures DecodeInfo(Encode(Dict(es)) + rest).Fail? && InfoFromValue(Dict(es)) == Failure(InvalidUtf8)
  {
    EncodedDictIs(es, rest);
    assert ([BYTE_D] + Body(es, rest))[1..] == Body(es, rest);
    SeekFinds(Body(es, rest), es, rest, FILES);
    U64Field(es, rest, LENGTH);
    LengthBeforeMd5sum(es);
    AheadIsTyped(es, LENGTH);
    ReadFieldAt(Ahead(es, LENGTH), rest, MD5SUM, ReadStr);
    LookedUpIsTyped(es, MD5SUM);
    ReadEncodedBytes(b, Body(Ahead(Ahead(es, LENGTH), MD5SUM), rest));
  }

  // ---- Missing fields ----

  /** The tree reader names the first field that a torrent must have and this one has not: `length` in the
      single-file form, then `name`, `piece length` and `pieces`. */
  lemma TreeNamesMissing(es: seq<Entry>)
    requires Lookup(es, Ascii("files")) == None && Lookup(es, Ascii("md5sum")) == None
    ensures var r := InfoFromValue(Dict(es));
            var length, number := Lookup(es, Ascii("length")), Lookup(es, Ascii("piece length"));
            && (length == None ==> r == Failure(MissingField(Ascii("length"))))
            && (length.Some? && !length.value.Integer? ==> r == Failure(ExtraneousData))
            && (length.Some? && length.value.Integer? && InRange(length.value.i, I64) ==>
                  && (Lookup(es, Ascii("name")) == None ==> r == Failure(MissingField(Ascii("name"))))
                  && (StringIn(es, Ascii("name")) && number == None ==>
                        r == Failure(MissingField(Ascii("piece length"))))
                  && (StringIn(es, Ascii("name")) && number.Some? && number.value.Integer?
                      && InRange(number.value.i, I64) && Lookup(es, Ascii("pieces")) == None ==>
                        r == Failure(MissingField(Ascii("pieces")))))
  {
  }

  predicate StringIn(es: seq<Entry>, name: Bytes) {
    Lookup(es, name).Some? && Lookup(es, name).value.Text?
  }
}
