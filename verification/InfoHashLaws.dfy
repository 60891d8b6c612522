/** Re-encoding an info dictionary: when writing back what was read gives the same tree. */
module InfoHashLaws {
  import opened ByteStrings
  import opened Decimal
  import opened Bencode
  import opened BencodeLaws
  import opened StructReader
  import opened Sha1Hash
  import opened MetaInfo
  import opened MetaInfoLaws

  // ---- Ordered maps are determined by their lookups ----

  lemma LookupHead(es: seq<Entry>, k: Bytes)
    requires Sorted(es) && es != []
    ensures Lookup(es[1..], k) == if k == es[0].key then None else Lookup(es, k)
  {
    if k == es[0].key && es[1..] != [] { BeyondIsAbsent(es[1..], k); }
  }

  lemma {:induction false} SameLookups(es: seq<Entry>, fs: seq<Entry>)
    requires Sorted(es) && Sorted(fs)
    requires forall k :: Lookup(es, k) == Lookup(fs, k)
    ensures es == fs
  {
    if es == [] || fs == [] {
      assert es != [] ==> Lookup(es, es[0].key).Some?;
      assert fs != [] ==> Lookup(fs, fs[0].key).Some?;
    } else {
      HeadIsLeast(es, fs[0].key);
      HeadIsLeast(fs, es[0].key);
      assert Lookup(es, es[0].key) == Lookup(fs, es[0].key);
      assert Lookup(es, fs[0].key) == Lookup(fs, fs[0].key);
      if es[0].key != fs[0].key { LessIsAsymmetric(es[0].key, fs[0].key); }
      forall k ensures Lookup(es[1..], k) == Lookup(fs[1..], k) {
        LookupHead(es, k);
        LookupHead(fs, k);
      }
      SameLookups(es[1..], fs[1..]);
      assert es == [es[0]] + es[1..] && fs == [fs[0]] + fs[1..];
    }
  }

  lemma HeadIsLeast(es: seq<Entry>, k: Bytes)
    requires Sorted(es) && es != []
    ensures Lookup(es, k).Some? && k != es[0].key ==> Less(es[0].key, k)
  {
    LessIsTotal(es[0].key, k);
    if Less(k, es[0].key) { BeyondIsAbsent(es, k); }
  }

  // ---- Scalars go back to what they were ----

  lemma AsU64RoundTrips(i: int)
    requires InRange(i, Width.I64)
    ensures AsI64(AsU64(i)) == i
  {
  }

  lemma U64Back(v: Value)
    requires U64FromValue(v).Success?
    ensures Integer(AsI64(U64FromValue(v).value)) == v
  {
    AsU64RoundTrips(v.i);
  }

  lemma StringBack(v: Value)
    requires NoTextInRaw(v) && StringFromValue(v).Success?
    ensures Text(StringFromValue(v).value) == v
  {
  }

  lemma Sha1sBack(v: Value)
    requires Sha1sFromValue(v).Success?
    ensures Raw(Join(Sha1sFromValue(v).value)) == v <==> |v.bytes| % SIZE == 0
  {
    JoinSplit(v.bytes);
  }

  lemma {:induction false} StringItemsBack(items: seq<Value>)
    requires forall x :: x in items ==> NoTextInRaw(x)
    requires StringsFromItems(items).Success?
    ensures StringsIntoItems(StringsFromItems(items).value) == items
  {
    if items != [] {
      StringItemsBack(items[1..]);
      StringBack(items[0]);
      var ts := StringsFromItems(items).value;
      assert ts[1..] == StringsFromItems(items[1..]).value;
      assert StringsIntoItems(ts) == [Text(ts[0])] + StringsIntoItems(ts[1..]);
      assert items == [items[0]] + items[1..];
    }
  }

  // ---- Structs ----

  ghost predicate KeysWithin(es: seq<Entry>, keys: set<Bytes>) {
    forall k :: Lookup(es, k).Some? ==> k in keys
  }

  /** Two maps that agree on `keys` are the same exactly when the first has no other key. */
  lemma SameWithin(es: seq<Entry>, fs: seq<Entry>, keys: set<Bytes>)
    requires Sorted(es) && Sorted(fs) && KeysWithin(fs, keys)
    requires forall k :: k in keys ==> Lookup(es, k) == Lookup(fs, k)
    ensures es == fs <==> KeysWithin(es, keys)
  {
    if KeysWithin(es, keys) {
      forall k ensures Lookup(es, k) == Lookup(fs, k) {
        if k !in keys { assert !Lookup(es, k).Some? && !Lookup(fs, k).Some?; }
      }
      SameLookups(es, fs);
    }
  }

  lemma LookedUpHasNoText(es: seq<Entry>, name: Bytes)
    requires Sorted(es) && NoTextInRaw(Dict(es)) && Lookup(es, name).Some?
    ensures NoTextInRaw(Lookup(es, name).value)
  {
    LookupIsMembership(es, name, Lookup(es, name).value);
  }

  const FILE_KEYS: set<Bytes> := {LENGTH, MD5SUM, PATH}
  const SINGLE_KEYS: set<Bytes> := {LENGTH, MD5SUM, NAME, PIECE_LENGTH, PIECES}
  const MULTI_KEYS: set<Bytes> := {FILES, NAME, PIECE_LENGTH, PIECES}

  lemma Md5sumBack(es: seq<Entry>)
    requires Sorted(es) && NoTextInRaw(Dict(es)) && GetOptionField(Dict(es), MD5SUM, StringFromValue).Success?
    ensures Lookup(es, MD5SUM) == match GetOptionField(Dict(es), MD5SUM, StringFromValue).value
                                  case Some(t) => Some(Text(t))
                                  case None => None
  {
    if Lookup(es, MD5SUM).Some? {
      LookedUpHasNoText(es, MD5SUM);
      StringBack(Lookup(es, MD5SUM).value);
    }
  }

  lemma FileInfoLookupsBack(es: seq<Entry>)
    requires Typed(Dict(es)) && NoTextInRaw(Dict(es)) && FileInfoFromValue(Dict(es)).Success?
    ensures var fs := FileInfoIntoValue(FileInfoFromValue(Dict(es)).value).entries;
            forall k :: k in FILE_KEYS ==> Lookup(es, k) == Lookup(fs, k)
  {
    FileInfoIntoLooksUp(FileInfoFromValue(Dict(es)).value);
    U64Back(Lookup(es, LENGTH).value);
    LookedUpHasNoText(es, PATH);
    StringItemsBack(Lookup(es, PATH).value.items);
    Md5sumBack(es);
    KeysAreDistinct();
  }

  /** A file dictionary is written back as it was exactly when it has no other key. */
  lemma FileInfoBackIff(v: Value)
    requires Typed(v) && NoTextInRaw(v) && FileInfoFromValue(v).Success?
    ensures FileInfoIntoValue(FileInfoFromValue(v).value) == v <==> KeysWithin(v.entries, FILE_KEYS)
  {
    var fs := FileInfoIntoValue(FileInfoFromValue(v).value).entries;
    FileInfoIntoLooksUp(FileInfoFromValue(v).value);
    FileInfoLookupsBack(v.entries);
    SameWithin(v.entries, fs, FILE_KEYS);
  }

  ghost predicate OnlyFileKeys(items: seq<Value>) {
    forall x :: x in items && x.Dict? ==> KeysWithin(x.entries, FILE_KEYS)
  }

  lemma {:induction false} FileItemsBackIff(items: seq<Value>)
    requires forall x :: x in items ==> Typed(x) && NoTextInRaw(x)
    requires FilesFromItems(items).Success?
    ensures FilesIntoItems(FilesFromItems(items).value) == items <==> OnlyFileKeys(items)
  {
    if items != [] {
      FileItemsBackIff(items[1..]);
      FileInfoBackIff(items[0]);
      FilesIntoItemsOf(FileInfoFromValue(items[0]).value, FilesFromItems(items[1..]).value);
      OnlyFileKeysHead(items);
      assert items == [items[0]] + items[1..];
    }
  }

  lemma FilesIntoItemsOf(f: FileInfo, fs: seq<FileInfo>)
    ensures FilesIntoItems([f] + fs) == [FileInfoIntoValue(f)] + FilesIntoItems(fs)
  {
  }

  lemma OnlyFileKeysHead(items: seq<Value>)
    requires items != []
    ensures OnlyFileKeys(items)
       <==> OnlyFileKeys(items[1..]) && (items[0].Dict? ==> KeysWithin(items[0].entries, FILE_KEYS))
  {
    assert items == [items[0]] + items[1..];
  }

  /** Only keys that `Info` and `FileInfo` keep, and no partial hash. */
  ghost predicate OnlyModelledKeys(v: Value)
    requires v.Dict?
  {
    match Lookup(v.entries, FILES)
    case None => KeysWithin(v.entries, SINGLE_KEYS)
    case Some(files) =>
      && KeysWithin(v.entries, MULTI_KEYS)
      && (files.List? ==> OnlyFileKeys(files.items))
  }

  ghost predicate WholeHashes(v: Value)
    requires v.Dict?
  {
    Lookup(v.entries, PIECES).Some? && Lookup(v.entries, PIECES).value.Raw?
    ==> |Lookup(v.entries, PIECES).value.bytes| % SIZE == 0
  }

  lemma SharedBack(es: seq<Entry>)
    requires Typed(Dict(es)) && NoTextInRaw(Dict(es)) && SharedFromValue(Dict(es)).Success?
    ensures var f := SharedFromValue(Dict(es)).value;
            && Lookup(es, NAME) == Some(Text(f.name))
            && Lookup(es, PIECE_LENGTH) == Some(Integer(AsI64(f.pieceLength)))
            && (Lookup(es, PIECES) == Some(Raw(Join(f.pieces))) <==> WholeHashes(Dict(es)))
  {
    LookedUpHasNoText(es, NAME);
    StringBack(Lookup(es, NAME).value);
    U64Back(Lookup(es, PIECE_LENGTH).value);
    Sha1sBack(Lookup(es, PIECES).value);
  }

  lemma IntoKeysWithin(info: Info)
    ensures InfoIntoValue(info).Dict? && Sorted(InfoIntoValue(info).entries)
    ensures KeysWithin(InfoIntoValue(info).entries, if info.Single? then SINGLE_KEYS else MULTI_KEYS)
  {
    InfoIntoLooksUp(info);
  }

  lemma SingleLookupsBack(es: seq<Entry>)
    requires Typed(Dict(es)) && NoTextInRaw(Dict(es))
    requires InfoFromValue(Dict(es)).Success? && InfoFromValue(Dict(es)).value.Single?
    ensures var fs := InfoIntoValue(InfoFromValue(Dict(es)).value).entries;
            && Lookup(es, LENGTH) == Lookup(fs, LENGTH) && Lookup(es, MD5SUM) == Lookup(fs, MD5SUM)
            && Lookup(es, NAME) == Lookup(fs, NAME) && Lookup(es, PIECE_LENGTH) == Lookup(fs, PIECE_LENGTH)
            && (Lookup(es, PIECES) == Lookup(fs, PIECES) <==> WholeHashes(Dict(es)))
  {
    InfoIntoLooksUp(InfoFromValue(Dict(es)).value);
    SharedBack(es);
    U64Back(Lookup(es, LENGTH).value);
    Md5sumBack(es);
    KeysAreDistinct();
  }

  lemma SameSingle(es: seq<Entry>, fs: seq<Entry>)
    requires Sorted(es) && Sorted(fs) && KeysWithin(fs, SINGLE_KEYS)
    requires Lookup(es, LENGTH) == Lookup(fs, LENGTH) && Lookup(es, MD5SUM) == Lookup(fs, MD5SUM)
    requires Lookup(es, NAME) == Lookup(fs, NAME) && Lookup(es, PIECE_LENGTH) == Lookup(fs, PIECE_LENGTH)
    requires Lookup(es, PIECES) == Lookup(fs, PIECES)
    ensures es == fs <==> KeysWithin(es, SINGLE_KEYS)
  {
    SameWithin(es, fs, SINGLE_KEYS);
  }

  lemma SameMulti(es: seq<Entry>, fs: seq<Entry>)
    requires Sorted(es) && Sorted(fs) && KeysWithin(fs, MULTI_KEYS)
    requires Lookup(es, FILES) == Lookup(fs, FILES)
    requires Lookup(es, NAME) == Lookup(fs, NAME) && Lookup(es, PIECE_LENGTH) == Lookup(fs, PIECE_LENGTH)
    requires Lookup(es, PIECES) == Lookup(fs, PIECES)
    ensures es == fs <==> KeysWithin(es, MULTI_KEYS)
  {
    SameWithin(es, fs, MULTI_KEYS);
  }

  lemma SingleBackIff(v: Value)
    requires Typed(v) && NoTextInRaw(v) && InfoFromValue(v).Success? && InfoFromValue(v).value.Single?
    ensures InfoIntoValue(InfoFromValue(v).value) == v <==> OnlyModelledKeys(v) && WholeHashes(v)
  {
    IntoKeysWithin(InfoFromValue(v).value);
    SingleLookupsBack(v.entries);
    if WholeHashes(v) { SameSingle(v.entries, InfoIntoValue(InfoFromValue(v).value).entries); }
  }

  lemma FilesBackIff(v: Value)
    requires Typed(v) && NoTextInRaw(v) && FilesFromValue(v).Success?
    ensures List(FilesIntoItems(FilesFromValue(v).value)) == v <==> OnlyFileKeys(v.items)
  {
    FileItemsBackIff(v.items);
  }

  lemma MultiLookupsBack(es: seq<Entry>)
    requires Typed(Dict(es)) && NoTextInRaw(Dict(es))
    requires InfoFromValue(Dict(es)).Success? && InfoFromValue(Dict(es)).value.Multi?
    ensures var fs := InfoIntoValue(InfoFromValue(Dict(es)).value).entries;
            && Lookup(es, NAME) == Lookup(fs, NAME) && Lookup(es, PIECE_LENGTH) == Lookup(fs, PIECE_LENGTH)
            && (Lookup(es, PIECES) == Lookup(fs, PIECES) <==> WholeHashes(Dict(es)))
            && (Lookup(es, FILES) == Lookup(fs, FILES) <==> OnlyFileKeys(Lookup(es, FILES).value.items))
  {
    InfoIntoLooksUp(InfoFromValue(Dict(es)).value);
    SharedBack(es);
    LookedUpIsTyped(es, FILES);
    LookedUpHasNoText(es, FILES);
    FilesBackIff(Lookup(es, FILES).value);
    KeysAreDistinct();
  }

  lemma MultiBackIff(v: Value)
    requires Typed(v) && NoTextInRaw(v) && InfoFromValue(v).Success? && InfoFromValue(v).value.Multi?
    ensures InfoIntoValue(InfoFromValue(v).value) == v <==> OnlyModelledKeys(v) && WholeHashes(v)
  {
    var es := v.entries;
    var fs := InfoIntoValue(InfoFromValue(v).value).entries;
    IntoKeysWithin(InfoFromValue(v).value);
    MultiLookupsBack(es);
    if Lookup(es, PIECES) == Lookup(fs, PIECES) && Lookup(es, FILES) == Lookup(fs, FILES) {
      SameMulti(es, fs);
    }
  }

  /** Writing back what was read gives the same tree exactly when nothing was dropped. */
  lemma IntoUndoesTreeIff(v: Value)
    requires Typed(v) && NoTextInRaw(v) && InfoFromValue(v).Success?
    ensures InfoIntoValue(InfoFromValue(v).value) == v <==> OnlyModelledKeys(v) && WholeHashes(v)
  {
    if InfoFromValue(v).value.Single? { SingleBackIff(v); } else { MultiBackIff(v); }
  }
}
