/** The info dictionary in literal bytes (BEP 3, "info dictionary"): what is written for an `Info`, which is what
    `info_hash` hashes. */
module InfoText {
  import opened ByteStrings
  import opened Decimal
  import opened Bencode
  import opened BencodeLaws
  import opened Sha1Hash
  import opened MetaInfo
  import opened MetaInfoLaws
  import opened HashedBytes

  // ---- The text ----

  function IntText(n: U64): Bytes {
    Ascii("i") + Format(AsI64(n)) + Ascii("e")
  }

  function StringText(b: Bytes): Bytes {
    Format(|b|) + Ascii(":") + b
  }

  function Field(key: Bytes, value: Bytes, rest: Bytes): Bytes {
    key + value + rest
  }

  function Md5sumText(md5sum: Option<Bytes>, rest: Bytes): Bytes {
    match md5sum
    case Some(t) => Field(Ascii("6:md5sum"), StringText(t), rest)
    case None => rest
  }

  function StringsText(ts: seq<Bytes>): Bytes {
    if ts == [] then [] else StringText(ts[0]) + StringsText(ts[1..])
  }

  function FileText(f: FileInfo): Bytes {
    var path := Field(Ascii("4:path"), Ascii("l") + StringsText(f.path) + Ascii("e"), []);
    Ascii("d") + Field(Ascii("6:length"), IntText(f.length), Md5sumText(f.md5sum, path)) + Ascii("e")
  }

  function FilesText(fs: seq<FileInfo>): Bytes {
    if fs == [] then [] else FileText(fs[0]) + FilesText(fs[1..])
  }

  function SharedText(name: Bytes, pieceLength: U64, pieces: seq<Sha1>): Bytes {
    var hashes := Field(Ascii("6:pieces"), StringText(Join(pieces)), []);
    Field(Ascii("4:name"), StringText(name), Field(Ascii("12:piece length"), IntText(pieceLength), hashes))
  }

  function InfoText(info: Info): Bytes {
    match info
    case Single(length, md5sum, name, pieceLength, pieces) =>
      var shared := SharedText(name, pieceLength, pieces);
      Ascii("d") + Field(Ascii("6:length"), IntText(length), Md5sumText(md5sum, shared)) + Ascii("e")
    case Multi(files, name, pieceLength, pieces) =>
      var shared := SharedText(name, pieceLength, pieces);
      Ascii("d") + Field(Ascii("5:files"), Ascii("l") + FilesText(files) + Ascii("e"), shared) + Ascii("e")
  }

  // ---- What is written ----

  lemma KeyTexts()
    ensures EncodeBytes(LENGTH) == Ascii("6:length") && EncodeBytes(MD5SUM) == Ascii("6:md5sum")
    ensures EncodeBytes(NAME) == Ascii("4:name") && EncodeBytes(PATH) == Ascii("4:path")
    ensures EncodeBytes(FILES) == Ascii("5:files") && EncodeBytes(PIECES) == Ascii("6:pieces")
    ensures EncodeBytes(PIECE_LENGTH) == Ascii("12:piece length")
  {
    assert Format(4) == [52] && Format(5) == [53] && Format(6) == [54];
    assert Digits(12) == Digits(1) + [50] && Digits(1) == [49];
  }

  lemma ValueTexts(n: U64, b: Bytes)
    ensures Encode(Integer(AsI64(n))) == IntText(n)
    ensures EncodeBytes(b) == StringText(b)
  {
  }

  lemma Prepend(e: Entry, es: seq<Entry>)
    ensures EncodeEntries([e] + es) == Field(EncodeBytes(e.key), Encode(e.value), EncodeEntries(es))
  {
    assert ([e] + es)[1..] == es;
  }

  lemma DictText(es: seq<Entry>)
    ensures Encode(Dict(es)) == Ascii("d") + EncodeEntries(es) + Ascii("e")
  {
    assert Ascii("d") == [BYTE_D] && Ascii("e") == [BYTE_E];
  }

  lemma ListText(items: seq<Value>)
    ensures Encode(List(items)) == Ascii("l") + EncodeItems(items) + Ascii("e")
  {
    assert Ascii("l") == [BYTE_L] && Ascii("e") == [BYTE_E];
  }

  function Md5sumEntry(md5sum: Option<Bytes>): seq<Entry> {
    match md5sum
    case Some(t) => [Entry(MD5SUM, Text(t))]
    case None => []
  }

  lemma Md5sumWritten(md5sum: Option<Bytes>, es: seq<Entry>)
    ensures EncodeEntries(Md5sumEntry(md5sum) + es) == Md5sumText(md5sum, EncodeEntries(es))
  {
    KeyTexts();
    match md5sum
    case Some(t) =>
      Prepend(Entry(MD5SUM, Text(t)), es);
      ValueTexts(0, t);
    case None => assert [] + es == es;
  }

  function SharedEntries(f: Shared): seq<Entry> {
    [Entry(NAME, Text(f.name))]
    + ([Entry(PIECE_LENGTH, Integer(AsI64(f.pieceLength)))] + ([Entry(PIECES, Raw(Join(f.pieces)))] + []))
  }

  lemma SharedWritten(f: Shared)
    ensures EncodeEntries(SharedEntries(f)) == SharedText(f.name, f.pieceLength, f.pieces)
  {
    KeyTexts();
    ValueTexts(f.pieceLength, f.name);
    ValueTexts(f.pieceLength, Join(f.pieces));
    var pieces := [Entry(PIECES, Raw(Join(f.pieces)))] + [];
    var lengths := [Entry(PIECE_LENGTH, Integer(AsI64(f.pieceLength)))] + pieces;
    Prepend(Entry(PIECES, Raw(Join(f.pieces))), []);
    Prepend(Entry(PIECE_LENGTH, Integer(AsI64(f.pieceLength))), pieces);
    Prepend(Entry(NAME, Text(f.name)), lengths);
  }

  // ---- The entries in order ----

  function FileEntries(f: FileInfo): seq<Entry> {
    [Entry(LENGTH, Integer(AsI64(f.length)))]
    + (Md5sumEntry(f.md5sum) + ([Entry(PATH, List(StringsIntoItems(f.path)))] + []))
  }

  lemma FileEntriesAre(f: FileInfo)
    ensures FileInfoIntoValue(f) == Dict(FileEntries(f))
  {
    KeysInOrder();
    var m1 := [Entry(LENGTH, Integer(AsI64(f.length)))];
    var m2 := m1 + Md5sumEntry(f.md5sum);
    assert Insert([], LENGTH, Integer(AsI64(f.length))) == m1;
    if f.md5sum.Some? { InsertLast(m1, MD5SUM, Text(f.md5sum.value)); }
    assert InsertOption(m1, MD5SUM, f.md5sum) == m2;
    InsertLast(m2, PATH, List(StringsIntoItems(f.path)));
    assert m2 + [Entry(PATH, List(StringsIntoItems(f.path)))] == FileEntries(f);
  }

  lemma {:induction false} StringsWritten(ts: seq<Bytes>)
    ensures EncodeItems(StringsIntoItems(ts)) == StringsText(ts)
  {
    if ts != [] {
      StringsWritten(ts[1..]);
      ValueTexts(0, ts[0]);
      assert StringsIntoItems(ts)[1..] == StringsIntoItems(ts[1..]);
    }
  }

  lemma FileEntriesWritten(f: FileInfo)
    ensures EncodeEntries(FileEntries(f))
         == Field(Ascii("6:length"), IntText(f.length), Md5sumText(f.md5sum,
              Field(Ascii("4:path"), Ascii("l") + StringsText(f.path) + Ascii("e"), [])))
  {
    KeyTexts();
    StringsWritten(f.path);
    ValueTexts(f.length, []);
    var path := [Entry(PATH, List(StringsIntoItems(f.path)))] + [];
    ListText(StringsIntoItems(f.path));
    Prepend(Entry(PATH, List(StringsIntoItems(f.path))), []);
    Md5sumWritten(f.md5sum, path);
    Prepend(Entry(LENGTH, Integer(AsI64(f.length))), Md5sumEntry(f.md5sum) + path);
  }

  lemma FileWritten(f: FileInfo)
    ensures Encode(FileInfoIntoValue(f)) == FileText(f)
  {
    FileEntriesAre(f);
    FileEntriesWritten(f);
    DictText(FileEntries(f));
  }

  lemma {:induction false} FilesWritten(fs: seq<FileInfo>)
    ensures EncodeItems(FilesIntoItems(fs)) == FilesText(fs)
  {
    if fs != [] {
      FileWritten(fs[0]);
      FilesWritten(fs[1..]);
      assert FilesIntoItems(fs)[1..] == FilesIntoItems(fs[1..]);
    }
  }

  function InfoEntries(info: Info): seq<Entry> {
    match info
    case Single(length, md5sum, name, pieceLength, pieces) =>
      [Entry(LENGTH, Integer(AsI64(length)))]
      + (Md5sumEntry(md5sum) + SharedEntries(Shared(name, pieceLength, pieces)))
    case Multi(files, name, pieceLength, pieces) =>
      [Entry(FILES, List(FilesIntoItems(files)))] + SharedEntries(Shared(name, pieceLength, pieces))
  }

  lemma SharedAfter(before: seq<Entry>, f: Shared)
    requires forall e :: e in before ==> Less(e.key, NAME)
    ensures InsertShared(before, f) == before + SharedEntries(f)
  {
    KeysInOrder();
    LessIsAsymmetric(NAME, PIECES);
    LessIsAsymmetric(PIECE_LENGTH, PIECES);
    forall e | e in before
      ensures Less(e.key, PIECES) && Less(e.key, PIECE_LENGTH) && !Less(PIECE_LENGTH, e.key) && e.key != PIECE_LENGTH
      ensures !Less(NAME, e.key) && e.key != NAME
    {
      LessIsTransitive(e.key, NAME, PIECES);
      LessIsTransitive(e.key, NAME, PIECE_LENGTH);
      LessIsAsymmetric(e.key, PIECE_LENGTH);
      LessIsAsymmetric(e.key, NAME);
    }
    var hashes, name := Raw(Join(f.pieces)), Text(f.name);
    var length := Integer(AsI64(f.pieceLength));
    InsertLast(before, PIECES, hashes);
    InsertBefore(before, [Entry(PIECES, hashes)], NAME, name);
    var m := before + [Entry(NAME, name)];
    forall e | e in m ensures !Less(PIECE_LENGTH, e.key) && e.key != PIECE_LENGTH {
      LessIsAsymmetric(NAME, PIECE_LENGTH);
    }
    InsertBefore(m, [Entry(PIECES, hashes)], PIECE_LENGTH, length);
    assert before + [Entry(NAME, name)] + [Entry(PIECES, hashes)] == m + [Entry(PIECES, hashes)];
    assert m + [Entry(PIECE_LENGTH, length)] + [Entry(PIECES, hashes)] == before + SharedEntries(f);
  }

  lemma {:induction false} InsertBefore(before: seq<Entry>, after: seq<Entry>, key: Bytes, value: Value)
    requires forall e :: e in before ==> !Less(key, e.key) && e.key != key
    requires after != [] && Less(key, after[0].key)
    ensures Insert(before + after, key, value) == before + [Entry(key, value)] + after
  {
    if before == [] {
      assert before + after == after;
    } else {
      InsertBefore(before[1..], after, key, value);
      HeadAndTail(before, after, Entry(key, value));
    }
  }

  lemma HeadAndTail(before: seq<Entry>, after: seq<Entry>, e: Entry)
    requires before != []
    ensures (before + after)[0] == before[0] && (before + after)[1..] == before[1..] + after
    ensures before + [e] + after == [before[0]] + (before[1..] + [e] + after)
  {
  }

  lemma InfoEntriesAre(info: Info)
    ensures InfoIntoValue(info) == Dict(InfoEntries(info))
  {
    KeysInOrder();
    match info
    case Single(length, md5sum, name, pieceLength, pieces) =>
      var f, n := Shared(name, pieceLength, pieces), Integer(AsI64(length));
      var m := [Entry(LENGTH, n)] + Md5sumEntry(md5sum);
      assert Insert(InsertOption([], MD5SUM, md5sum), LENGTH, n) == m;
      SharedAfter(m, f);
      Assoc([Entry(LENGTH, n)], Md5sumEntry(md5sum), SharedEntries(f));
    case Multi(files, name, pieceLength, pieces) =>
      var m := [Entry(FILES, List(FilesIntoItems(files)))];
      assert Insert([], FILES, List(FilesIntoItems(files))) == m;
      SharedAfter(m, Shared(name, pieceLength, pieces));
  }

  lemma SingleWritten(info: Info)
    requires info.Single?
    ensures EncodeEntries(InfoEntries(info))
         == Field(Ascii("6:length"), IntText(info.length),
                  Md5sumText(info.md5sum, SharedText(info.name, info.pieceLength, info.pieces)))
  {
    var f := Shared(info.name, info.pieceLength, info.pieces);
    KeyTexts();
    ValueTexts(info.length, []);
    SharedWritten(f);
    Md5sumWritten(info.md5sum, SharedEntries(f));
    Prepend(Entry(LENGTH, Integer(AsI64(info.length))), Md5sumEntry(info.md5sum) + SharedEntries(f));
  }

  lemma MultiWritten(info: Info)
    requires info.Multi?
    ensures EncodeEntries(InfoEntries(info))
         == Field(Ascii("5:files"), Ascii("l") + FilesText(info.files) + Ascii("e"),
                  SharedText(info.name, info.pieceLength, info.pieces))
  {
    var f := Shared(info.name, info.pieceLength, info.pieces);
    KeyTexts();
    SharedWritten(f);
    FilesWritten(info.files);
    ListText(FilesIntoItems(info.files));
    Prepend(Entry(FILES, List(FilesIntoItems(info.files))), SharedEntries(f));
  }

  /** What is written for any `Info`, byte by byte, and what is hashed. */
  lemma InfoWritten(info: Info, sha1: Bytes -> Sha1)
    ensures Encode(InfoIntoValue(info)) == InfoText(info)
    ensures InfoHash(info, sha1) == sha1(InfoText(info))
  {
    InfoEntriesAre(info);
    DictText(InfoEntries(info));
    if info.Single? { SingleWritten(info); } else { MultiWritten(info); }
  }
}
