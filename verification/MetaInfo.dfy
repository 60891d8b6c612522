/** The info dictionary of meta_info.rs: read from a tree, read from the stream, and written back. */
module MetaInfo {
  import opened ByteStrings
  import opened Decimal
  import opened Bencode
  import opened StructReader
  import opened Sha1Hash
  import Utf8

  type U64 = n: int | 0 <= n < 0x1_0000_0000_0000_0000

  datatype FileInfo = FileInfo(length: U64, md5sum: Option<Bytes>, path: seq<Bytes>)
  datatype Info =
    | Single(length: U64, md5sum: Option<Bytes>, name: Bytes, pieceLength: U64, pieces: seq<Sha1>)
    | Multi(files: seq<FileInfo>, name: Bytes, pieceLength: U64, pieces: seq<Sha1>)

  /** The fields that both forms have, after the first ones. */
  datatype Shared = Shared(name: Bytes, pieceLength: U64, pieces: seq<Sha1>)

  const FILES := Ascii("files")
  const LENGTH := Ascii("length")
  const MD5SUM := Ascii("md5sum")
  const NAME := Ascii("name")
  const PATH := Ascii("path")
  const PIECE_LENGTH := Ascii("piece length")
  const PIECES := Ascii("pieces")

  // ---- From a tree (`FromValue`) ----

  /** `*i as u64`: a negative number wraps around. */
  function AsU64(i: int): U64
    requires InRange(i, Width.I64)
  {
    if i < 0 then i + TWO_64 else i
  }

  /** `self as i64`. */
  function AsI64(n: U64): int {
    if n < TWO_63 then n else n - TWO_64
  }

  function U64FromValue(v: Value): Result<U64> {
    if v.Integer? && InRange(v.i, Width.I64) then Success(AsU64(v.i)) else Failure(ExtraneousData)
  }

  function StringFromValue(v: Value): Result<Bytes> {
    match v
    case Raw(b) => if Utf8.Valid(b) then Success(b) else Failure(InvalidUtf8)
    case Text(t) => Success(t)
    case _ => Failure(ExtraneousData)
  }

  function Sha1sFromValue(v: Value): Result<seq<Sha1>> {
    if v.Raw? then Success(Sha1List(v.bytes)) else Failure(ExtraneousData)
  }

  function StringsFromItems(items: seq<Value>): Result<seq<Bytes>> {
    if items == [] then Success([])
    else
      var t :- StringFromValue(items[0]);
      var ts :- StringsFromItems(items[1..]);
      Success([t] + ts)
  }

  function StringsFromValue(v: Value): Result<seq<Bytes>> {
    if v.List? then StringsFromItems(v.items) else Failure(ExtraneousData)
  }

  function GetField<T>(v: Value, key: Bytes, fromValue: Value -> Result<T>): Result<T> {
    if !v.Dict? then Failure(InvalidDict)
    else
      match Lookup(v.entries, key)
      case Some(x) => fromValue(x)
      case None => Failure(MissingField(key))
  }

  function GetOptionField<T>(v: Value, key: Bytes, fromValue: Value -> Result<T>): Result<Option<T>> {
    if !v.Dict? then Failure(InvalidDict)
    else
      match Lookup(v.entries, key)
      case Some(x) => var t :- fromValue(x); Success(Some(t))
      case None => Success(None)
  }

  function FileInfoFromValue(v: Value): Result<FileInfo> {
    var length :- GetField(v, LENGTH, U64FromValue);
    var md5sum :- GetOptionField(v, MD5SUM, StringFromValue);
    var path :- GetField(v, PATH, StringsFromValue);
    Success(FileInfo(length, md5sum, path))
  }

  function FilesFromItems(items: seq<Value>): Result<seq<FileInfo>> {
    if items == [] then Success([])
    else
      var f :- FileInfoFromValue(items[0]);
      var fs :- FilesFromItems(items[1..]);
      Success([f] + fs)
  }

  function FilesFromValue(v: Value): Result<seq<FileInfo>> {
    if v.List? then FilesFromItems(v.items) else Failure(ExtraneousData)
  }

  function SharedFromValue(v: Value): Result<Shared> {
    var name :- GetField(v, NAME, StringFromValue);
    var pieceLength :- GetField(v, PIECE_LENGTH, U64FromValue);
    var pieces :- GetField(v, PIECES, Sha1sFromValue);
    Success(Shared(name, pieceLength, pieces))
  }

  function InfoFromValue(v: Value): Result<Info> {
    if !v.Dict? then Failure(InvalidDict)
    else if Lookup(v.entries, FILES).None? then
      var length :- GetField(v, LENGTH, U64FromValue);
      var md5sum :- GetOptionField(v, MD5SUM, StringFromValue);
      var f :- SharedFromValue(v);
      Success(Single(length, md5sum, f.name, f.pieceLength, f.pieces))
    else
      var files :- GetField(v, FILES, FilesFromValue);
      var f :- SharedFromValue(v);
      Success(Multi(files, f.name, f.pieceLength, f.pieces))
  }

  // ---- Into a tree (`IntoValue`) ----

  function StringsIntoItems(ts: seq<Bytes>): seq<Value> {
    seq(|ts|, i requires 0 <= i < |ts| => Text(ts[i]))
  }

  function InsertOption(es: seq<Entry>, key: Bytes, t: Option<Bytes>): seq<Entry> {
    match t
    case Some(b) => Insert(es, key, Text(b))
    case None => es
  }

  function FileInfoIntoValue(f: FileInfo): Value {
    var m := Insert([], LENGTH, Integer(AsI64(f.length)));
    var m := InsertOption(m, MD5SUM, f.md5sum);
    var m := Insert(m, PATH, List(StringsIntoItems(f.path)));
    Dict(m)
  }

  function FilesIntoItems(fs: seq<FileInfo>): seq<Value> {
    seq(|fs|, i requires 0 <= i < |fs| => FileInfoIntoValue(fs[i]))
  }

  function InsertShared(es: seq<Entry>, f: Shared): seq<Entry> {
    var m := Insert(es, PIECES, Raw(Join(f.pieces)));
    var m := Insert(m, NAME, Text(f.name));
    Insert(m, PIECE_LENGTH, Integer(AsI64(f.pieceLength)))
  }

  function InfoIntoValue(info: Info): Value {
    match info
    case Multi(files, name, pieceLength, pieces) =>
      var m := Insert([], FILES, List(FilesIntoItems(files)));
      Dict(InsertShared(m, Shared(name, pieceLength, pieces)))
    case Single(length, md5sum, name, pieceLength, pieces) =>
      var m := InsertOption([], MD5SUM, md5sum);
      var m := Insert(m, LENGTH, Integer(AsI64(length)));
      Dict(InsertShared(m, Shared(name, pieceLength, pieces)))
  }

  // ---- From the stream (`DecodeTo`) ----

  function DecodeU64(s: Bytes): (r: Read<U64>)
    ensures |r.rest| <= |s|
  {
    ReadInteger(s, Width.U64)
  }

  function DecodeSha1s(s: Bytes): (r: Read<seq<Sha1>>)
    ensures |r.rest| <= |s|
  {
    var (b, s1) :- ReadByteString(s);
    Ok(Sha1List(b), s1)
  }

  function DecodeStringItems(s: Bytes): (r: Read<seq<Bytes>>)
    ensures |r.rest| <= |s|
    decreases |s|
  {
    if s == [] then Fail(Eof, s)
    else if s[0] == BYTE_E then Ok([], s[1..])
    else
      var (t, s1) :- ReadStr(s);
      var (ts, s2) :- DecodeStringItems(s1);
      Ok([t] + ts, s2)
  }

  function DecodeStrings(s: Bytes): (r: Read<seq<Bytes>>)
    ensures |r.rest| <= |s|
  {
    var (_, s1) :- Expect(s, BYTE_L);
    DecodeStringItems(s1)
  }

  function FileInfoFields(s: Bytes): (r: Read<FileInfo>)
    ensures |r.rest| <= |s|
  {
    var (length, s1) :- ReadField(s, LENGTH, DecodeU64);
    var (md5sum, s2) :- ReadOption(s1, MD5SUM, ReadStr);
    var (path, s3) :- ReadField(s2, PATH, DecodeStrings);
    Ok(FileInfo(length, md5sum, path), s3)
  }

  function DecodeFileInfo(s: Bytes): (r: Read<FileInfo>)
    ensures r.Ok? ==> |r.rest| < |s|
  {
    var (_, s1) :- Expect(s, BYTE_D);
    var (f, s2) :- FileInfoFields(s1);
    var (_, s3) :- SkipPairs(s2);
    Ok(f, s3)
  }

  function DecodeFileItems(s: Bytes): Read<seq<FileInfo>>
    decreases |s|
  {
    if s == [] then Fail(Eof, s)
    else if s[0] == BYTE_E then Ok([], s[1..])
    else
      var (f, s1) :- DecodeFileInfo(s);
      var (fs, s2) :- DecodeFileItems(s1);
      Ok([f] + fs, s2)
  }

  function DecodeFiles(s: Bytes): Read<seq<FileInfo>> {
    var (_, s1) :- Expect(s, BYTE_L);
    DecodeFileItems(s1)
  }

  function SharedFields(s: Bytes): Read<Shared> {
    var (name, s1) :- ReadField(s, NAME, ReadStr);
    var (pieceLength, s2) :- ReadField(s1, PIECE_LENGTH, DecodeU64);
    var (pieces, s3) :- ReadField(s2, PIECES, DecodeSha1s);
    Ok(Shared(name, pieceLength, pieces), s3)
  }

  function MultiFields(s: Bytes, files: seq<FileInfo>): Read<Info> {
    var (f, s1) :- SharedFields(s);
    Ok(Multi(files, f.name, f.pieceLength, f.pieces), s1)
  }

  function SingleFields(s: Bytes): Read<Info> {
    var (length, s1) :- ReadField(s, LENGTH, DecodeU64);
    var (md5sum, s2) :- ReadOption(s1, MD5SUM, ReadStr);
    var (f, s3) :- SharedFields(s2);
    Ok(Single(length, md5sum, f.name, f.pieceLength, f.pieces), s3)
  }

  /** Any failure to read `files` falls back to the single-file form, from wherever the cursor is. */
  function InfoFields(s: Bytes): Read<Info> {
    match ReadField(s, FILES, DecodeFiles)
    case Ok(files, s1) => MultiFields(s1, files)
    case Fail(_, s1) => SingleFields(s1)
  }

  function DecodeInfo(s: Bytes): Read<Info> {
    var (_, s1) :- Expect(s, BYTE_D);
    var (info, s2) :- InfoFields(s1);
    var (_, s3) :- SkipPairs(s2);
    Ok(info, s3)
  }
}
