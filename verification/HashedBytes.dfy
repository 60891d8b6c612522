/** Which bytes `info_hash` hashes: the program keeps no bytes of the info dictionary and hashes what it writes
    back, so the hash is that of the bytes read exactly when writing back gives the same bytes. */
module HashedBytes {
  import opened ByteStrings
  import opened Decimal
  import opened Bencode
  import opened BencodeLaws
  import opened Sha1Hash
  import opened MetaInfo
  import opened MetaInfoLaws
  import opened InfoHashLaws
  import opened StreamAndTree
  import Utf8

  // ---- What a reader leaves is the end of what it was given ----

  predicate EndsIn(s: Bytes, rest: Bytes) {
    |rest| <= |s| && s[|s| - |rest|..] == rest
  }

  lemma EndsInRest(a: Bytes, rest: Bytes)
    ensures EndsIn(a + rest, rest)
  {
  }

  lemma EndsInTail(s: Bytes, rest: Bytes)
    requires s != [] && EndsIn(s[1..], rest)
    ensures EndsIn(s, rest)
  {
  }

  lemma EndsInEnd(s: Bytes, t: Bytes, rest: Bytes)
    requires EndsIn(s, t) && EndsIn(t, rest)
    ensures EndsIn(s, rest)
  {
  }

  lemma ReadByteStringLeavesEnd(s: Bytes)
    requires ReadByteString(s).Ok?
    ensures EndsIn(s, ReadByteString(s).rest)
  {
    ReadByteStringIsCanonical(s);
    EndsInRest(EncodeBytes(ReadByteString(s).value), ReadByteString(s).rest);
  }

  lemma ReadIntegerLeavesEnd(s: Bytes)
    requires s != [] && s[0] == BYTE_I && ReadInteger(s, I64).Ok?
    ensures EndsIn(s, ReadInteger(s, I64).rest)
  {
    ReadIntegerParts(s);
    ReadNumberParts(s[1..], I64);
    EndsInRest([BYTE_E], ReadInteger(s, I64).rest);
    EndsInRest(s[1..][..NumberLength(s[1..])], ReadNumber(s[1..], I64).rest);
    EndsInEnd(s[1..], ReadNumber(s[1..], I64).rest, ReadInteger(s, I64).rest);
    EndsInTail(s, ReadInteger(s, I64).rest);
  }

  lemma {:induction false} DecodeLeavesEnd(s: Bytes)
    requires DecodeValue(s).Ok?
    ensures EndsIn(s, DecodeValue(s).rest)
    decreases |s|, 0
  {
    if s[0] == BYTE_D {
      EntriesLeaveEnd(s[1..], []);
      EndsInTail(s, DecodeValue(s).rest);
    } else if s[0] == BYTE_L {
      ItemsLeaveEnd(s[1..]);
      EndsInTail(s, DecodeValue(s).rest);
    } else if s[0] == BYTE_I {
      ReadIntegerLeavesEnd(s);
    } else {
      ReadByteStringLeavesEnd(s);
    }
  }

  lemma {:induction false} ItemsLeaveEnd(s: Bytes)
    requires DecodeItems(s).Ok?
    ensures EndsIn(s, DecodeItems(s).rest)
    decreases |s|, 1
  {
    if s[0] == BYTE_E {
      assert EndsIn(s, s[1..]);
    } else {
      var v := DecodeValue(s);
      DecodeLeavesEnd(s);
      ItemsLeaveEnd(v.rest);
      EndsInEnd(s, v.rest, DecodeItems(s).rest);
    }
  }

  lemma {:induction false} EntriesLeaveEnd(s: Bytes, entries: seq<Entry>)
    requires DecodeEntries(s, entries).Ok?
    ensures EndsIn(s, DecodeEntries(s, entries).rest)
    decreases |s|, 1
  {
    if s[0] == BYTE_E {
      assert EndsIn(s, s[1..]);
    } else {
      var key := ReadStr(s);
      var v := DecodeValue(key.rest);
      ReadByteStringLeavesEnd(s);
      DecodeLeavesEnd(key.rest);
      EntriesLeaveEnd(v.rest, Insert(entries, key.value, v.value));
      EndsInEnd(s, key.rest, v.rest);
      EndsInEnd(s, v.rest, DecodeEntries(s, entries).rest);
    }
  }

  // ---- What is read from a typed tree is a good `Info` ----

  lemma ReadStringIsGood(v: Value)
    requires Typed(v) && StringFromValue(v).Success?
    ensures GoodString(StringFromValue(v).value)
  {
  }

  lemma {:induction false} ReadStringsAreGood(items: seq<Value>)
    requires (forall x :: x in items ==> Typed(x)) && StringsFromItems(items).Success?
    ensures forall t :: t in StringsFromItems(items).value ==> GoodString(t)
  {
    if items != [] {
      ReadStringIsGood(items[0]);
      ReadStringsAreGood(items[1..]);
    }
  }

  lemma ReadMd5sumIsGood(v: Value)
    requires Typed(v) && GetOptionField(v, MD5SUM, StringFromValue).Success?
    ensures var md5sum := GetOptionField(v, MD5SUM, StringFromValue).value;
            md5sum.Some? ==> GoodString(md5sum.value)
  {
    if Lookup(v.entries, MD5SUM).Some? {
      LookedUpIsTyped(v.entries, MD5SUM);
      ReadStringIsGood(Lookup(v.entries, MD5SUM).value);
    }
  }

  lemma ReadFileIsGood(v: Value)
    requires Typed(v) && FileInfoFromValue(v).Success?
    ensures GoodFile(FileInfoFromValue(v).value)
  {
    ReadMd5sumIsGood(v);
    LookedUpIsTyped(v.entries, PATH);
    ReadStringsAreGood(Lookup(v.entries, PATH).value.items);
  }

  lemma {:induction false} ReadFilesAreGood(items: seq<Value>)
    requires (forall x :: x in items ==> Typed(x)) && FilesFromItems(items).Success?
    ensures forall f :: f in FilesFromItems(items).value ==> GoodFile(f)
  {
    if items != [] {
      ReadFileIsGood(items[0]);
      ReadFilesAreGood(items[1..]);
    }
  }

  lemma ReadSharedIsGood(v: Value)
    requires Typed(v) && SharedFromValue(v).Success?
    ensures var f := SharedFromValue(v).value;
            GoodString(f.name) && SIZE * |f.pieces| < TWO_63
  {
    LookedUpIsTyped(v.entries, NAME);
    ReadStringIsGood(Lookup(v.entries, NAME).value);
    LookedUpIsTyped(v.entries, PIECES);
    JoinSplit(Lookup(v.entries, PIECES).value.bytes);
  }

  lemma ReadInfoIsGood(v: Value)
    requires Typed(v) && InfoFromValue(v).Success?
    ensures GoodInfo(InfoFromValue(v).value)
  {
    ReadSharedIsGood(v);
    if InfoFromValue(v).value.Single? {
      ReadMd5sumIsGood(v);
    } else {
      LookedUpIsTyped(v.entries, FILES);
      ReadFilesAreGood(Lookup(v.entries, FILES).value.items);
    }
  }

  // ---- The hash ----

  /** `info_hash`, for any hash function. */
  function InfoHash(info: Info, sha1: Bytes -> Sha1): Sha1 {
    sha1(Encode(InfoIntoValue(info)))
  }

  /** Whatever the hash function, the torrent has the hash of these bytes. */
  ghost predicate HashedAs(info: Info, bytes: Bytes) {
    forall sha1: Bytes -> Sha1 :: InfoHash(info, sha1) == sha1(bytes)
  }

  /** A hash function can tell any two byte strings apart. */
  lemma HashedAsIff(info: Info, bytes: Bytes)
    ensures HashedAs(info, bytes) <==> Encode(InfoIntoValue(info)) == bytes
  {
    var zero: Sha1, one: Sha1 := seq(20, _ => 0), seq(20, _ => 1);
    var sha1: Bytes -> Sha1 := b => if b == bytes then one else zero;
    assert one[0] != zero[0];
    assert HashedAs(info, bytes) ==> InfoHash(info, sha1) == sha1(bytes);
  }

  /** An accepted dictionary is encoded as it is written back exactly when nothing was dropped. */
  lemma SameEncodingIff(v: Value)
    requires Typed(v) && NoTextInRaw(v) && InfoFromValue(v).Success?
    ensures Encode(InfoIntoValue(InfoFromValue(v).value)) == Encode(v) <==> OnlyModelledKeys(v) && WholeHashes(v)
  {
    var info := InfoFromValue(v).value;
    var w := InfoIntoValue(info);
    IntoUndoesTreeIff(v);
    if Encode(w) == Encode(v) {
      ReadInfoIsGood(v);
      InfoIntoIsTyped(info);
      EncodingsAreDistinct(v, w, [], []);
      NormalIffNoTextInRaw(v);
      if Utf8.Valid(Join(info.pieces)) { NormalPiecesAreText(info); }
      NormalIffNoTextInRaw(w);
    }
  }

  /** The hash is that of the dictionary's encoding exactly when it has only keys that `Info` keeps and whole
      hashes, and that of the very bytes read exactly when these are canonical too. */
  lemma InfoHashIff(s: Bytes)
    requires |s| < TWO_63 && DecodeValue(s).Ok? && InfoFromValue(DecodeValue(s).value).Success?
    ensures var v, rest := DecodeValue(s).value, DecodeValue(s).rest;
            var info := InfoFromValue(v).value;
            && (HashedAs(info, Encode(v)) <==> OnlyModelledKeys(v) && WholeHashes(v))
            && (HashedAs(info, s[..|s| - |rest|]) <==> Plain(s) && OnlyModelledKeys(v) && WholeHashes(v))
  {
    var v, rest := DecodeValue(s).value, DecodeValue(s).rest;
    var info := InfoFromValue(v).value;
    var read := s[..|s| - |rest|];
    HashedAsIff(info, Encode(v));
    HashedAsIff(info, read);
    DecodedIsNormal(s);
    SameEncodingIff(v);
    CanonicalIff(s);
    DecodeLeavesEnd(s);
    assert s == read + rest;
    if Encode(InfoIntoValue(info)) == read { WrittenAsRead(s, info); }
    if Plain(s) { assert (Encode(v) + rest)[..|s| - |rest|] == Encode(v); }
  }

  /** If what is written back is what was read, it decodes to the same tree. */
  lemma WrittenAsRead(s: Bytes, info: Info)
    requires |s| < TWO_63 && DecodeValue(s).Ok? && InfoFromValue(DecodeValue(s).value) == Success(info)
    requires s == Encode(InfoIntoValue(info)) + DecodeValue(s).rest
    ensures InfoIntoValue(info) == DecodeValue(s).value
  {
    var w := InfoIntoValue(info);
    DecodedIsNormal(s);
    ReadInfoIsGood(DecodeValue(s).value);
    InfoIntoIsTyped(info);
    DecodeEncode(w, DecodeValue(s).rest);
    if Utf8.Valid(Join(info.pieces)) { NormalPiecesAreText(info); }
    NormalIffNoTextInRaw(w);
  }

  // ---- Private torrents ----

  const PRIVATE := Ascii("private")

  /** The info dictionary with `private` set to 1 beside the fields of `Info`. */
  function WithPrivate(info: Info): Value {
    Dict(Insert(InfoIntoValue(info).entries, PRIVATE, Integer(1)))
  }

  lemma WithPrivateLooksUp(info: Info)
    ensures Sorted(WithPrivate(info).entries)
    ensures forall k :: Lookup(WithPrivate(info).entries, k)
                     == if k == PRIVATE then Some(Integer(1)) else Lookup(InfoIntoValue(info).entries, k)
    ensures Lookup(InfoIntoValue(info).entries, PRIVATE) == None
    ensures PRIVATE !in {FILES, LENGTH, MD5SUM, NAME, PATH, PIECE_LENGTH, PIECES}
  {
    InfoIntoLooksUp(info);
    Inserted(InfoIntoValue(info).entries, PRIVATE, Integer(1));
    assert PRIVATE[0] == 'p' as int && PRIVATE[1] == 'r' as int;
    assert FILES[0] == 'f' as int && LENGTH[0] == 'l' as int && MD5SUM[0] == 'm' as int && NAME[0] == 'n' as int;
    assert PATH[1] == 'a' as int && PIECE_LENGTH[1] == 'i' as int && PIECES[1] == 'i' as int;
  }

  lemma WithPrivateIsTyped(info: Info)
    requires GoodInfo(info) && !Utf8.Valid(Join(info.pieces))
    ensures Typed(WithPrivate(info)) && NoTextInRaw(WithPrivate(info))
  {
    InfoIntoIsTyped(info);
    Utf8.AsciiIsValid(PRIVATE);
    InsertIntoSorted(InfoIntoValue(info).entries, PRIVATE, Integer(1));
  }

  lemma PrivateIsDropped(info: Info)
    ensures InfoFromValue(WithPrivate(info)) == Success(info)
  {
    WithPrivateLooksUp(info);
    TreeUndoesInto(info);
    SameInfo(WithPrivate(info).entries, InfoIntoValue(info).entries);
  }

  lemma PrivateIsNotModelled(info: Info)
    ensures !OnlyModelledKeys(WithPrivate(info))
  {
    WithPrivateLooksUp(info);
    assert Lookup(WithPrivate(info).entries, PRIVATE).Some?;
  }

  /** An `Info` is read from the fields it keeps. */
  lemma SameInfo(es: seq<Entry>, fs: seq<Entry>)
    requires forall k :: k in SINGLE_KEYS + MULTI_KEYS ==> Lookup(es, k) == Lookup(fs, k)
    ensures InfoFromValue(Dict(es)) == InfoFromValue(Dict(fs))
  {
    assert forall k :: k in MULTI_KEYS ==> k in SINGLE_KEYS + MULTI_KEYS;
  }

  /** The readers see the same `Info` with and without the key, so a private torrent is hashed as other bytes
      than the dictionary it came with. */
  lemma PrivateKeyChangesHash(info: Info, rest: Bytes)
    requires GoodInfo(info) && !Utf8.Valid(Join(info.pieces))
    ensures var bytes := Encode(WithPrivate(info));
            && ReadThroughTree(bytes + rest) == Ok(info, rest)
            && (LengthsFit(info) ==> DecodeInfo(bytes + rest) == Ok(info, rest))
            && !HashedAs(info, bytes)
  {
    var v := WithPrivate(info);
    PrivateIsDropped(info);
    PrivateIsNotModelled(info);
    WithPrivateIsTyped(info);
    RoundTripIff(v, rest);
    StreamAgreesWithTree(v, rest);
    SameEncodingIff(v);
    HashedAsIff(info, Encode(v));
  }
}
