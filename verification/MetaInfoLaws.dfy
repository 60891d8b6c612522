/** The two readers of the info dictionary agree, and each undoes the writer, exactly when stated. */
module MetaInfoLaws {
  import opened ByteStrings
  import opened Decimal
  import opened Bencode
  import opened BencodeLaws
  import opened StructReader
  import opened Sha1Hash
  import opened MetaInfo
  import Utf8

  /** What the Rust types `String` and `Vec` guarantee. */
  predicate GoodString(t: Bytes) {
    |t| < TWO_63 && Utf8.Valid(t)
  }

  predicate GoodFile(f: FileInfo) {
    && (f.md5sum.Some? ==> GoodString(f.md5sum.value))
    && forall t :: t in f.path ==> GoodString(t)
  }

  predicate GoodInfo(info: Info) {
    && GoodString(info.name)
    && SIZE * |info.pieces| < TWO_63
    && match info
       case Single(_, md5sum, _, _, _) => md5sum.Some? ==> GoodString(md5sum.value)
       case Multi(files, _, _, _) => forall f :: f in files ==> GoodFile(f)
  }

  /** Every length is below 2^63. */
  predicate LengthsFit(info: Info) {
    && info.pieceLength < TWO_63
    && match info
       case Single(length, _, _, _, _) => length < TWO_63
       case Multi(files, _, _, _) => forall f :: f in files ==> f.length < TWO_63
  }

  lemma KeysInOrder()
    ensures Less(FILES, NAME) && Less(NAME, PIECE_LENGTH) && Less(PIECE_LENGTH, PIECES)
    ensures Less(LENGTH, MD5SUM) && Less(MD5SUM, NAME) && Less(MD5SUM, PATH) && Less(LENGTH, PATH)
    ensures Less(FILES, PIECE_LENGTH) && Less(FILES, PIECES) && Less(NAME, PIECES)
    ensures Less(LENGTH, NAME) && Less(LENGTH, PIECE_LENGTH) && Less(LENGTH, PIECES)
    ensures Less(MD5SUM, PIECE_LENGTH) && Less(MD5SUM, PIECES)
  {
    LessAt(FILES, NAME, 0);
    LessAt(NAME, PIECE_LENGTH, 0);
    LessAt(PIECE_LENGTH, PIECES, 5);
    LessAt(LENGTH, MD5SUM, 0);
    LessAt(MD5SUM, NAME, 0);
    LessAt(MD5SUM, PATH, 0);
    LessAt(LENGTH, PATH, 0);
    LessAt(FILES, PIECE_LENGTH, 0);
    LessAt(FILES, PIECES, 0);
    LessAt(NAME, PIECES, 0);
    LessAt(LENGTH, NAME, 0);
    LessAt(LENGTH, PIECE_LENGTH, 0);
    LessAt(LENGTH, PIECES, 0);
    LessAt(MD5SUM, PIECE_LENGTH, 0);
    LessAt(MD5SUM, PIECES, 0);
  }

  // ---- Reading one field of a sorted dictionary from the stream ----

  lemma ReadFieldAt<T>(es: seq<Entry>, rest: Bytes, name: Bytes, decode: Bytes -> Read<T>)
    requires Typed(Dict(es)) && Lookup(es, name).Some?
    ensures ReadField(Body(es, rest), name, decode)
         == decode(Encode(Lookup(es, name).value) + Body(Ahead(es, name), rest))
  {
    SeekFinds(Body(es, rest), es, rest, name);
  }

  lemma ReadOptionAbsent<T>(es: seq<Entry>, rest: Bytes, name: Bytes, decode: Bytes -> Read<T>)
    requires Typed(Dict(es)) && Lookup(es, name).None?
    ensures ReadOption(Body(es, rest), name, decode) == Ok(None, Body(Ahead(es, name), rest))
  {
    SeekFinds(Body(es, rest), es, rest, name);
  }

  lemma LookedUpIsTyped(es: seq<Entry>, name: Bytes)
    requires Typed(Dict(es)) && Lookup(es, name).Some?
    ensures Typed(Lookup(es, name).value)
  {
    LookupIsMembership(es, name, Lookup(es, name).value);
  }

  lemma U64At(v: Value, rest: Bytes)
    requires Typed(v) && U64FromValue(v).Success?
    ensures var n := U64FromValue(v).value;
            var r := DecodeU64(Encode(v) + rest);
            if n < TWO_63 then r == Ok(n, rest) else r.Fail?
  {
    ReadEncodedInteger(v.i, rest);
  }

  lemma StringAt(v: Value, rest: Bytes)
    requires Typed(v) && StringFromValue(v).Success?
    ensures ReadStr(Encode(v) + rest) == Ok(StringFromValue(v).value, rest)
  {
    ReadEncodedBytes(if v.Raw? then v.bytes else v.text, rest);
  }

  lemma Sha1sAt(v: Value, rest: Bytes)
    requires Typed(v) && Sha1sFromValue(v).Success?
    ensures DecodeSha1s(Encode(v) + rest) == Ok(Sha1sFromValue(v).value, rest)
  {
    ReadEncodedBytes(v.bytes, rest);
  }

  lemma {:induction false} StringItemsAt(items: seq<Value>, rest: Bytes)
    requires forall x :: x in items ==> Typed(x)
    requires StringsFromItems(items).Success?
    ensures DecodeStringItems(EncodeItems(items) + ([BYTE_E] + rest)) == Ok(StringsFromItems(items).value, rest)
  {
    var tail := [BYTE_E] + rest;
    if items == [] {
      assert EncodeItems(items) + tail == tail;
    } else {
      var later := EncodeItems(items[1..]) + tail;
      assert EncodeItems(items) + tail == Encode(items[0]) + later;
      EncodingStarts(items[0]);
      StringAt(items[0], later);
      StringItemsAt(items[1..], rest);
    }
  }

  lemma StringsAt(v: Value, rest: Bytes)
    requires Typed(v) && StringsFromValue(v).Success?
    ensures DecodeStrings(Encode(v) + rest) == Ok(StringsFromValue(v).value, rest)
  {
    var body := EncodeItems(v.items) + ([BYTE_E] + rest);
    EncodedListIs(v.items, rest);
    assert ([BYTE_L] + body)[1..] == body;
    StringItemsAt(v.items, rest);
  }

  /** Reading a field that the tree has as a `u64`. */
  lemma U64Field(es: seq<Entry>, rest: Bytes, name: Bytes)
    requires Typed(Dict(es)) && GetField(Dict(es), name, U64FromValue).Success?
    ensures var n := GetField(Dict(es), name, U64FromValue).value;
            var r := ReadField(Body(es, rest), name, DecodeU64);
            if n < TWO_63 then r == Ok(n, Body(Ahead(es, name), rest)) else r.Fail?
  {
    ReadFieldAt(es, rest, name, DecodeU64);
    LookedUpIsTyped(es, name);
    U64At(Lookup(es, name).value, Body(Ahead(es, name), rest));
  }

  lemma StringField(es: seq<Entry>, rest: Bytes, name: Bytes)
    requires Typed(Dict(es)) && GetField(Dict(es), name, StringFromValue).Success?
    ensures ReadField(Body(es, rest), name, ReadStr)
         == Ok(GetField(Dict(es), name, StringFromValue).value, Body(Ahead(es, name), rest))
  {
    ReadFieldAt(es, rest, name, ReadStr);
    LookedUpIsTyped(es, name);
    StringAt(Lookup(es, name).value, Body(Ahead(es, name), rest));
  }

  lemma StringOption(es: seq<Entry>, rest: Bytes, name: Bytes)
    requires Typed(Dict(es)) && GetOptionField(Dict(es), name, StringFromValue).Success?
    ensures ReadOption(Body(es, rest), name, ReadStr)
         == Ok(GetOptionField(Dict(es), name, StringFromValue).value, Body(Ahead(es, name), rest))
  {
    if Lookup(es, name).None? {
      ReadOptionAbsent(es, rest, name, ReadStr);
    } else {
      StringField(es, rest, name);
    }
  }

  lemma Sha1sField(es: seq<Entry>, rest: Bytes, name: Bytes)
    requires Typed(Dict(es)) && GetField(Dict(es), name, Sha1sFromValue).Success?
    ensures ReadField(Body(es, rest), name, DecodeSha1s)
         == Ok(GetField(Dict(es), name, Sha1sFromValue).value, Body(Ahead(es, name), rest))
  {
    ReadFieldAt(es, rest, name, DecodeSha1s);
    LookedUpIsTyped(es, name);
    Sha1sAt(Lookup(es, name).value, Body(Ahead(es, name), rest));
  }

  lemma StringsField(es: seq<Entry>, rest: Bytes, name: Bytes)
    requires Typed(Dict(es)) && GetField(Dict(es), name, StringsFromValue).Success?
    ensures ReadField(Body(es, rest), name, DecodeStrings)
         == Ok(GetField(Dict(es), name, StringsFromValue).value, Body(Ahead(es, name), rest))
  {
    ReadFieldAt(es, rest, name, DecodeStrings);
    LookedUpIsTyped(es, name);
    StringsAt(Lookup(es, name).value, Body(Ahead(es, name), rest));
  }

  // ---- Whole structs ----

  lemma FileInfoFieldsAt(es: seq<Entry>, rest: Bytes)
    requires Typed(Dict(es)) && FileInfoFromValue(Dict(es)).Success?
    ensures var f := FileInfoFromValue(Dict(es)).value;
            var r := FileInfoFields(Body(es, rest));
            if f.length < TWO_63
            then r == Ok(f, Body(Ahead(Ahead(Ahead(es, LENGTH), MD5SUM), PATH), rest))
                 && Typed(Dict(Ahead(Ahead(Ahead(es, LENGTH), MD5SUM), PATH)))
            else r.Fail?
  {
    KeysInOrder();
    U64Field(es, rest, LENGTH);
    LaterNamesStayAhead(es, LENGTH, MD5SUM);
    LaterNamesStayAhead(es, LENGTH, PATH);
    var es1 := Ahead(es, LENGTH);
    StringOption(es1, rest, MD5SUM);
    LaterNamesStayAhead(es1, MD5SUM, PATH);
    var es2 := Ahead(es1, MD5SUM);
    StringsField(es2, rest, PATH);
    AheadIsTyped(es2, PATH);
  }

  lemma FileInfoAt(v: Value, rest: Bytes)
    requires Typed(v) && FileInfoFromValue(v).Success?
    ensures var f := FileInfoFromValue(v).value;
            var r := DecodeFileInfo(Encode(v) + rest);
            if f.length < TWO_63 then r == Ok(f, rest) else r.Fail?
  {
    var es := v.entries;
    EncodedDictIs(es, rest);
    assert ([BYTE_D] + Body(es, rest))[1..] == Body(es, rest);
    FileInfoFieldsAt(es, rest);
    var left := Ahead(Ahead(Ahead(es, LENGTH), MD5SUM), PATH);
    if FileInfoFromValue(v).value.length < TWO_63 { SkipBody(left, rest); }
  }

  lemma {:induction false} FileItemsAt(items: seq<Value>, rest: Bytes)
    requires forall x :: x in items ==> Typed(x)
    requires FilesFromItems(items).Success?
    ensures var fs := FilesFromItems(items).value;
            var r := DecodeFileItems(EncodeItems(items) + ([BYTE_E] + rest));
            if forall f :: f in fs ==> f.length < TWO_63 then r == Ok(fs, rest) else r.Fail?
  {
    var tail := [BYTE_E] + rest;
    if items == [] {
      assert EncodeItems(items) + tail == tail;
    } else {
      var later := EncodeItems(items[1..]) + tail;
      assert EncodeItems(items) + tail == Encode(items[0]) + later;
      EncodingStarts(items[0]);
      FileInfoAt(items[0], later);
      FileItemsAt(items[1..], rest);
    }
  }

  lemma FilesAt(v: Value, rest: Bytes)
    requires Typed(v) && FilesFromValue(v).Success?
    ensures var fs := FilesFromValue(v).value;
            var r := DecodeFiles(Encode(v) + rest);
            if forall f :: f in fs ==> f.length < TWO_63 then r == Ok(fs, rest) else r.Fail?
  {
    var body := EncodeItems(v.items) + ([BYTE_E] + rest);
    EncodedListIs(v.items, rest);
    assert ([BYTE_L] + body)[1..] == body;
    FileItemsAt(v.items, rest);
  }

  function AheadOfShared(es: seq<Entry>): seq<Entry> {
    Ahead(Ahead(Ahead(es, NAME), PIECE_LENGTH), PIECES)
  }

  lemma SharedFieldsAt(es: seq<Entry>, rest: Bytes)
    requires Typed(Dict(es)) && SharedFromValue(Dict(es)).Success?
    ensures var f := SharedFromValue(Dict(es)).value;
            var r := SharedFields(Body(es, rest));
            if f.pieceLength < TWO_63 then r == Ok(f, Body(AheadOfShared(es), rest)) else r.Fail?
    ensures Typed(Dict(AheadOfShared(es)))
  {
    KeysInOrder();
    StringField(es, rest, NAME);
    LaterNamesStayAhead(es, NAME, PIECE_LENGTH);
    LaterNamesStayAhead(es, NAME, PIECES);
    var es1 := Ahead(es, NAME);
    U64Field(es1, rest, PIECE_LENGTH);
    LaterNamesStayAhead(es1, PIECE_LENGTH, PIECES);
    var es2 := Ahead(es1, PIECE_LENGTH);
    Sha1sField(es2, rest, PIECES);
    AheadIsTyped(es2, PIECES);
  }

  /** The shared fields come after every other one. */
  lemma SharedFieldsStay(es: seq<Entry>, earlier: Bytes)
    requires Typed(Dict(es))
    requires earlier in {FILES, LENGTH, MD5SUM}
    ensures Typed(Dict(Ahead(es, earlier)))
    ensures SharedFromValue(Dict(Ahead(es, earlier))) == SharedFromValue(Dict(es))
  {
    KeysInOrder();
    LaterNamesStayAhead(es, earlier, NAME);
    LaterNamesStayAhead(es, earlier, PIECE_LENGTH);
    LaterNamesStayAhead(es, earlier, PIECES);
  }

  lemma SingleFieldsAt(es: seq<Entry>, rest: Bytes)
    requires Typed(Dict(es)) && InfoFromValue(Dict(es)).Success? && InfoFromValue(Dict(es)).value.Single?
    ensures var info := InfoFromValue(Dict(es)).value;
            var r := SingleFields(Body(es, rest));
            var left := AheadOfShared(Ahead(Ahead(es, LENGTH), MD5SUM));
            if LengthsFit(info) then r == Ok(info, Body(left, rest)) && Typed(Dict(left)) else r.Fail?
  {
    var es1 := Ahead(es, LENGTH);
    var es2 := Ahead(es1, MD5SUM);
    U64Field(es, rest, LENGTH);
    LengthBeforeMd5sum(es);
    SharedFieldsStay(es, LENGTH);
    StringOption(es1, rest, MD5SUM);
    SharedFieldsStay(es1, MD5SUM);
    SharedFieldsAt(es2, rest);
  }

  lemma LengthBeforeMd5sum(es: seq<Entry>)
    requires Typed(Dict(es))
    ensures Lookup(Ahead(es, LENGTH), MD5SUM) == Lookup(es, MD5SUM)
  {
    KeysInOrder();
    LaterNamesStayAhead(es, LENGTH, MD5SUM);
  }

  /** What the info reader has left to skip once it has read all its fields. */
  function LeftOver(es: seq<Entry>): seq<Entry> {
    if Lookup(es, FILES).Some? then AheadOfShared(Ahead(es, FILES))
    else AheadOfShared(Ahead(Ahead(es, LENGTH), MD5SUM))
  }

  lemma FilesField(es: seq<Entry>, rest: Bytes)
    requires Typed(Dict(es)) && GetField(Dict(es), FILES, FilesFromValue).Success?
    ensures var fs := GetField(Dict(es), FILES, FilesFromValue).value;
            var r := ReadField(Body(es, rest), FILES, DecodeFiles);
            if forall f :: f in fs ==> f.length < TWO_63 then r == Ok(fs, Body(Ahead(es, FILES), rest))
            else r.Fail?
  {
    ReadFieldAt(es, rest, FILES, DecodeFiles);
    LookedUpIsTyped(es, FILES);
    FilesAt(Lookup(es, FILES).value, Body(Ahead(es, FILES), rest));
  }

  lemma SingleInfoAt(es: seq<Entry>, rest: Bytes)
    requires Typed(Dict(es)) && InfoFromValue(Dict(es)).Success? && InfoFromValue(Dict(es)).value.Single?
    ensures var info := InfoFromValue(Dict(es)).value;
            var r := InfoFields(Body(es, rest));
            if LengthsFit(info) then r == Ok(info, Body(LeftOver(es), rest)) && Typed(Dict(LeftOver(es)))
            else r.Fail?
  {
    SeekFinds(Body(es, rest), es, rest, FILES);
    SingleFieldsAt(es, rest);
  }

  lemma SingleFieldsAreSingle(s: Bytes)
    ensures SingleFields(s).Ok? ==> SingleFields(s).value.Single?
  {
  }

  lemma MultiInfoAt(es: seq<Entry>, rest: Bytes)
    requires Typed(Dict(es)) && InfoFromValue(Dict(es)).Success? && InfoFromValue(Dict(es)).value.Multi?
    ensures var info := InfoFromValue(Dict(es)).value;
            var r := InfoFields(Body(es, rest));
            if LengthsFit(info) then r == Ok(info, Body(LeftOver(es), rest)) && Typed(Dict(LeftOver(es)))
            else r.Fail? || r.value.Single?
  {
    FilesField(es, rest);
    if ReadField(Body(es, rest), FILES, DecodeFiles).Ok? {
      SharedFieldsStay(es, FILES);
      SharedFieldsAt(Ahead(es, FILES), rest);
    } else {
      SingleFieldsAreSingle(ReadField(Body(es, rest), FILES, DecodeFiles).rest);
    }
  }

  /** The two decoders: on the encoding of any dictionary, unknown keys included, that the tree decoder
      reads as an `Info`, the stream decoder reads the same one exactly when every length fits 63 bits. */
  lemma StreamAgreesWithTree(v: Value, rest: Bytes)
    requires Typed(v) && InfoFromValue(v).Success?
    ensures DecodeInfo(Encode(v) + rest) == Ok(InfoFromValue(v).value, rest)
       <==> LengthsFit(InfoFromValue(v).value)
  {
    var es := v.entries;
    EncodedDictIs(es, rest);
    assert ([BYTE_D] + Body(es, rest))[1..] == Body(es, rest);
    if InfoFromValue(v).value.Single? { SingleInfoAt(es, rest); } else { MultiInfoAt(es, rest); }
    if LengthsFit(InfoFromValue(v).value) { SkipBody(LeftOver(es), rest); }
  }

  // ---- Writing and reading back ----

  lemma AsI64RoundTrips(n: U64)
    ensures InRange(AsI64(n), Width.I64) && AsU64(AsI64(n)) == n
  {
  }

  lemma {:induction false} StringsRoundTrip(ts: seq<Bytes>)
    ensures StringsFromItems(StringsIntoItems(ts)) == Success(ts)
  {
    if ts != [] {
      StringsRoundTrip(ts[1..]);
      assert StringsIntoItems(ts)[1..] == StringsIntoItems(ts[1..]);
      assert ts == [ts[0]] + ts[1..];
    }
  }

  /** Inserting is a map update: sorted stays sorted and every lookup is known. */
  lemma Inserted(es: seq<Entry>, key: Bytes, value: Value)
    requires Sorted(es)
    ensures Sorted(Insert(es, key, value))
    ensures forall k :: Lookup(Insert(es, key, value), k) == if k == key then Some(value) else Lookup(es, k)
  {
    InsertIntoSorted(es, key, value);
    forall k ensures Lookup(Insert(es, key, value), k) == if k == key then Some(value) else Lookup(es, k) {
      LookupInsert(es, key, value, k);
    }
  }

  lemma FileInfoIntoLooksUp(f: FileInfo)
    ensures FileInfoIntoValue(f).Dict? && Sorted(FileInfoIntoValue(f).entries)
    ensures forall k :: Lookup(FileInfoIntoValue(f).entries, k) ==
              if k == LENGTH then Some(Integer(AsI64(f.length)))
              else if k == MD5SUM && f.md5sum.Some? then Some(Text(f.md5sum.value))
              else if k == PATH then Some(List(StringsIntoItems(f.path)))
              else None
  {
    KeysInOrder();
    LessIsAsymmetric(LENGTH, MD5SUM);
    LessIsAsymmetric(MD5SUM, PATH);
    LessIsAsymmetric(LENGTH, PATH);
    var m1 := Insert([], LENGTH, Integer(AsI64(f.length)));
    Inserted([], LENGTH, Integer(AsI64(f.length)));
    if f.md5sum.Some? { Inserted(m1, MD5SUM, Text(f.md5sum.value)); }
    Inserted(InsertOption(m1, MD5SUM, f.md5sum), PATH, List(StringsIntoItems(f.path)));
  }

  lemma FileInfoRoundTrips(f: FileInfo)
    ensures FileInfoFromValue(FileInfoIntoValue(f)) == Success(f)
  {
    FileInfoIntoLooksUp(f);
    KeysInOrder();
    LessIsAsymmetric(LENGTH, MD5SUM);
    LessIsAsymmetric(MD5SUM, PATH);
    LessIsAsymmetric(LENGTH, PATH);
    AsI64RoundTrips(f.length);
    StringsRoundTrip(f.path);
  }

  lemma {:induction false} FilesRoundTrip(fs: seq<FileInfo>)
    ensures FilesFromItems(FilesIntoItems(fs)) == Success(fs)
  {
    if fs != [] {
      FileInfoRoundTrips(fs[0]);
      FilesRoundTrip(fs[1..]);
      assert FilesIntoItems(fs)[1..] == FilesIntoItems(fs[1..]);
      assert fs == [fs[0]] + fs[1..];
    }
  }

  lemma KeysAreDistinct()
    ensures FILES != NAME && FILES != PIECE_LENGTH && FILES != PIECES && FILES != LENGTH && FILES != MD5SUM
    ensures LENGTH != MD5SUM && LENGTH != NAME && LENGTH != PIECE_LENGTH && LENGTH != PIECES && LENGTH != PATH
    ensures MD5SUM != NAME && MD5SUM != PIECE_LENGTH && MD5SUM != PIECES && MD5SUM != PATH
    ensures NAME != PIECE_LENGTH && NAME != PIECES && PIECE_LENGTH != PIECES
  {
    assert FILES[0] == 'f' as int && LENGTH[0] == 'l' as int && MD5SUM[0] == 'm' as int;
    assert NAME[0] == 'n' as int && PIECE_LENGTH[5] == ' ' as int && PIECES[5] == 's' as int;
    assert PIECE_LENGTH[0] == 'p' as int && PIECES[0] == 'p' as int && PATH[0] == 'p' as int;
  }

  lemma InfoIntoLooksUp(info: Info)
    ensures InfoIntoValue(info).Dict? && Sorted(InfoIntoValue(info).entries)
    ensures forall k :: Lookup(InfoIntoValue(info).entries, k) ==
              if k == NAME then Some(Text(info.name))
              else if k == PIECE_LENGTH then Some(Integer(AsI64(info.pieceLength)))
              else if k == PIECES then Some(Raw(Join(info.pieces)))
              else if info.Multi? && k == FILES then Some(List(FilesIntoItems(info.files)))
              else if info.Single? && k == LENGTH then Some(Integer(AsI64(info.length)))
              else if info.Single? && k == MD5SUM && info.md5sum.Some? then Some(Text(info.md5sum.value))
              else None
  {
    KeysAreDistinct();
    match info
    case Multi(files, name, pieceLength, pieces) =>
      Inserted([], FILES, List(FilesIntoItems(files)));
      SharedInserted(Insert([], FILES, List(FilesIntoItems(files))), Shared(name, pieceLength, pieces));
    case Single(length, md5sum, name, pieceLength, pieces) =>
      if md5sum.Some? { Inserted([], MD5SUM, Text(md5sum.value)); }
      var m := InsertOption([], MD5SUM, md5sum);
      Inserted(m, LENGTH, Integer(AsI64(length)));
      SharedInserted(Insert(m, LENGTH, Integer(AsI64(length))), Shared(name, pieceLength, pieces));
  }

  lemma SharedInserted(es: seq<Entry>, f: Shared)
    requires Sorted(es)
    ensures Sorted(InsertShared(es, f))
    ensures forall k :: Lookup(InsertShared(es, f), k) ==
              if k == NAME then Some(Text(f.name))
              else if k == PIECE_LENGTH then Some(Integer(AsI64(f.pieceLength)))
              else if k == PIECES then Some(Raw(Join(f.pieces)))
              else Lookup(es, k)
  {
    KeysAreDistinct();
    var m1 := Insert(es, PIECES, Raw(Join(f.pieces)));
    Inserted(es, PIECES, Raw(Join(f.pieces)));
    Inserted(m1, NAME, Text(f.name));
    Inserted(Insert(m1, NAME, Text(f.name)), PIECE_LENGTH, Integer(AsI64(f.pieceLength)));
  }

  /** Reading back the tree that was written gives the same `Info`, whatever it is. */
  lemma TreeUndoesInto(info: Info)
    ensures InfoFromValue(InfoIntoValue(info)) == Success(info)
  {
    InfoIntoLooksUp(info);
    KeysAreDistinct();
    AsI64RoundTrips(info.pieceLength);
    SplitJoin(info.pieces);
    match info
    case Multi(files, _, _, _) => FilesRoundTrip(files);
    case Single(length, _, _, _, _) => AsI64RoundTrips(length);
  }

  lemma KeyIsTyped(key: Bytes)
    requires key in {FILES, LENGTH, MD5SUM, NAME, PATH, PIECE_LENGTH, PIECES}
    ensures TypedKey(key)
  {
    Utf8.AsciiIsValid(key);
  }

  /** Inserting under a known key keeps a map typed, and free of text in `Bytes` if the value is. */
  lemma InsertedIsTyped(es: seq<Entry>, key: Bytes, value: Value)
    requires key in {FILES, LENGTH, MD5SUM, NAME, PATH, PIECE_LENGTH, PIECES}
    requires Typed(Dict(es)) && Typed(value)
    ensures Typed(Dict(Insert(es, key, value)))
    ensures NoTextInRaw(Dict(es)) && NoTextInRaw(value) ==> NoTextInRaw(Dict(Insert(es, key, value)))
  {
    KeyIsTyped(key);
    InsertIntoSorted(es, key, value);
  }

  lemma StringsIntoAreTyped(ts: seq<Bytes>)
    requires forall t :: t in ts ==> GoodString(t)
    ensures Typed(List(StringsIntoItems(ts))) && NoTextInRaw(List(StringsIntoItems(ts)))
  {
    forall x | x in StringsIntoItems(ts) ensures Typed(x) && NoTextInRaw(x) {
      var i :| 0 <= i < |ts| && x == Text(ts[i]);
      assert ts[i] in ts;
    }
  }

  lemma FileInfoIntoIsTyped(f: FileInfo)
    requires GoodFile(f)
    ensures Typed(FileInfoIntoValue(f)) && NoTextInRaw(FileInfoIntoValue(f))
  {
    AsI64RoundTrips(f.length);
    InsertedIsTyped([], LENGTH, Integer(AsI64(f.length)));
    var m := Insert([], LENGTH, Integer(AsI64(f.length)));
    if f.md5sum.Some? { InsertedIsTyped(m, MD5SUM, Text(f.md5sum.value)); }
    StringsIntoAreTyped(f.path);
    InsertedIsTyped(InsertOption(m, MD5SUM, f.md5sum), PATH, List(StringsIntoItems(f.path)));
  }

  lemma FilesIntoAreTyped(fs: seq<FileInfo>)
    requires forall f :: f in fs ==> GoodFile(f)
    ensures Typed(List(FilesIntoItems(fs))) && NoTextInRaw(List(FilesIntoItems(fs)))
  {
    forall x | x in FilesIntoItems(fs) ensures Typed(x) && NoTextInRaw(x) {
      var i :| 0 <= i < |fs| && x == FileInfoIntoValue(fs[i]);
      FileInfoIntoIsTyped(fs[i]);
    }
  }

  lemma SharedIntoIsTyped(es: seq<Entry>, f: Shared)
    requires Typed(Dict(es)) && NoTextInRaw(Dict(es)) && GoodString(f.name) && SIZE * |f.pieces| < TWO_63
    ensures Typed(Dict(InsertShared(es, f)))
    ensures !Utf8.Valid(Join(f.pieces)) ==> NoTextInRaw(Dict(InsertShared(es, f)))
  {
    SplitJoin(f.pieces);
    AsI64RoundTrips(f.pieceLength);
    var m1 := Insert(es, PIECES, Raw(Join(f.pieces)));
    InsertedIsTyped(es, PIECES, Raw(Join(f.pieces)));
    InsertedIsTyped(m1, NAME, Text(f.name));
    InsertedIsTyped(Insert(m1, NAME, Text(f.name)), PIECE_LENGTH, Integer(AsI64(f.pieceLength)));
  }

  lemma InfoIntoIsTyped(info: Info)
    requires GoodInfo(info)
    ensures Typed(InfoIntoValue(info))
    ensures !Utf8.Valid(Join(info.pieces)) ==> NoTextInRaw(InfoIntoValue(info))
  {
    var f := Shared(info.name, info.pieceLength, info.pieces);
    match info
    case Multi(files, _, _, _) =>
      FilesIntoAreTyped(files);
      InsertedIsTyped([], FILES, List(FilesIntoItems(files)));
      SharedIntoIsTyped(Insert([], FILES, List(FilesIntoItems(files))), f);
    case Single(length, md5sum, _, _, _) =>
      AsI64RoundTrips(length);
      if md5sum.Some? { InsertedIsTyped([], MD5SUM, Text(md5sum.value)); }
      var m := InsertOption([], MD5SUM, md5sum);
      InsertedIsTyped(m, LENGTH, Integer(AsI64(length)));
      SharedIntoIsTyped(Insert(m, LENGTH, Integer(AsI64(length))), f);
  }

  /** Reading an `Info` through the tree: `Value::decode`, then `from_value`. */
  function ReadThroughTree(s: Bytes): Read<Info> {
    var (v, s1) :- DecodeValue(s);
    match InfoFromValue(v)
    case Success(info) => Ok(info, s1)
    case Failure(e) => Fail(e, s1)
  }

  /** Through the tree an `Info` survives exactly when its hashes, joined, are not valid UTF-8. */
  lemma TreeRoundTripIff(info: Info, rest: Bytes)
    requires GoodInfo(info)
    ensures ReadThroughTree(Encode(InfoIntoValue(info)) + rest) == Ok(info, rest)
       <==> !Utf8.Valid(Join(info.pieces))
  {
    var v := InfoIntoValue(info);
    InfoIntoIsTyped(info);
    DecodeEncode(v, rest);
    NormalIffNoTextInRaw(v);
    TreeUndoesInto(info);
    if Utf8.Valid(Join(info.pieces)) { NormalPiecesAreText(info); }
  }

  lemma {:induction false} LookupNormal(es: seq<Entry>, key: Bytes)
    ensures Lookup(NormalEntries(es), key)
         == if Lookup(es, key).Some? then Some(Normal(Lookup(es, key).value)) else None
  {
    if es != [] {
      LookupNormal(es[1..], key);
      assert NormalEntries(es)[1..] == NormalEntries(es[1..]);
    }
  }

  lemma NormalPiecesAreText(info: Info)
    requires Utf8.Valid(Join(info.pieces))
    ensures InfoFromValue(Normal(InfoIntoValue(info))) != Success(info)
  {
    InfoIntoLooksUp(info);
    KeysAreDistinct();
    LookupNormal(InfoIntoValue(info).entries, PIECES);
  }

  /** Through the stream an `Info` survives exactly when its lengths are below 2^63. */
  lemma StreamRoundTripIff(info: Info, rest: Bytes)
    requires GoodInfo(info)
    ensures DecodeInfo(Encode(InfoIntoValue(info)) + rest) == Ok(info, rest) <==> LengthsFit(info)
  {
    InfoIntoIsTyped(info);
    TreeUndoesInto(info);
    StreamAgreesWithTree(InfoIntoValue(info), rest);
  }

  /** For one, an `Info` whose only hash is ASCII text is not read back through the tree. */
  lemma AsciiHashIsLost(hash: Sha1, length: U64, rest: Bytes)
    requires forall i :: 0 <= i < |hash| ==> hash[i] < 0x80
    ensures var info := Single(length, None, [], length, [hash]);
            GoodInfo(info) && ReadThroughTree(Encode(InfoIntoValue(info)) + rest) != Ok(info, rest)
  {
    var info := Single(length, None, [], length, [hash]);
    assert Join([hash]) == hash by { assert [hash][1..] == [] && hash + [] == hash; }
    Utf8.AsciiIsValid(hash);
    Utf8.AsciiIsValid([]);
    TreeRoundTripIff(info, rest);
  }
}
