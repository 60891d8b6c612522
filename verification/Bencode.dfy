/** The bencoding of decode.rs, encode.rs and value.rs as functions. A reader takes the bytes from the
    cursor to the end of the data and says what it returns and where it leaves the cursor, on errors too. */
module Bencode {
  import opened ByteStrings
  import opened Decimal
  import Utf8

  const BYTE_D: byte := 'd' as int
  const BYTE_L: byte := 'l' as int
  const BYTE_I: byte := 'i' as int
  const BYTE_E: byte := 'e' as int
  const COLON: byte := ':' as int

  /** A dictionary is a `BTreeMap`: its entries in strictly increasing order of keys. */
  datatype Value =
    | Integer(i: int)
    | Raw(bytes: Bytes)
    | Text(text: Bytes)
    | List(items: seq<Value>)
    | Dict(entries: seq<Entry>)
  datatype Entry = Entry(key: Bytes, value: Value)

  datatype DecodeError =
    | Eof
    | ExtraneousData
    | InvalidByte(b: byte)
    | InvalidDict
    | InvalidNumber
    | InvalidUtf8
    | MissingField(name: Bytes)
    | UnexpectedByte(expected: byte, found: byte)

  /** `Result<T, DecodeError>`. */
  datatype Result<+T> = Success(value: T) | Failure(error: DecodeError) {
    predicate IsFailure() {
      Failure?
    }
    function PropagateFailure<U>(): Result<U>
      requires Failure?
    {
      Failure(error)
    }
    function Extract(): T
      requires Success?
    {
      value
    }
  }

  /** A reader's result, with the bytes from the new cursor position on. */
  datatype Read<+T> = Ok(value: T, rest: Bytes) | Fail(error: DecodeError, rest: Bytes) {
    predicate IsFailure() {
      Fail?
    }
    function PropagateFailure<U>(): Read<U>
      requires Fail?
    {
      Fail(error, rest)
    }
    function Extract(): (T, Bytes)
      requires Ok?
    {
      (value, rest)
    }
  }

  // ---- Ordered maps ----

  predicate Sorted(es: seq<Entry>) {
    forall i, j :: 0 <= i < j < |es| ==> Less(es[i].key, es[j].key)
  }

  /** `BTreeMap::insert`: replaces the value of a key that is there, else adds the key in its place. */
  function Insert(es: seq<Entry>, key: Bytes, value: Value): seq<Entry> {
    if es == [] || Less(key, es[0].key) then [Entry(key, value)] + es
    else if key == es[0].key then [Entry(key, value)] + es[1..]
    else [es[0]] + Insert(es[1..], key, value)
  }

  /** `BTreeMap::get`. */
  function Lookup(es: seq<Entry>, key: Bytes): Option<Value> {
    if es == [] then None
    else if es[0].key == key then Some(es[0].value)
    else Lookup(es[1..], key)
  }

  // ---- Encoding ----

  function EncodeBytes(b: Bytes): Bytes {
    Format(|b|) + [COLON] + b
  }

  function Encode(v: Value): Bytes
    decreases v, 1
  {
    match v
    case Integer(i) => [BYTE_I] + Format(i) + [BYTE_E]
    case Raw(b) => EncodeBytes(b)
    case Text(t) => EncodeBytes(t)
    case List(items) => [BYTE_L] + EncodeItems(items) + [BYTE_E]
    case Dict(es) => [BYTE_D] + EncodeEntries(es) + [BYTE_E]
  }

  function EncodeItems(items: seq<Value>): Bytes
    decreases items, 0
  {
    if items == [] then [] else Encode(items[0]) + EncodeItems(items[1..])
  }

  function EncodeEntries(es: seq<Entry>): Bytes
    decreases es, 0
  {
    if es == [] then [] else EncodeBytes(es[0].key) + Encode(es[0].value) + EncodeEntries(es[1..])
  }

  // ---- Scalars ----

  function PeekByte(s: Bytes): Read<byte> {
    if s == [] then Fail(Eof, s) else Ok(s[0], s)
  }

  function Expect(s: Bytes, b: byte): Read<()> {
    if s == [] then Fail(Eof, s)
    else if s[0] == b then Ok((), s[1..])
    else Fail(UnexpectedByte(b, s[0]), s[1..])
  }

  /** How many bytes at the front of `s` may appear in a number. */
  function NumberLength(s: Bytes): (n: nat)
    ensures n <= |s|
    ensures forall i :: 0 <= i < n ==> IsNumber(s[i])
    ensures n < |s| ==> !IsNumber(s[n])
  {
    if s == [] || !IsNumber(s[0]) then 0 else 1 + NumberLength(s[1..])
  }

  function ReadNumber(s: Bytes, width: Width): (r: Read<int>)
    ensures r.Ok? ==> InRange(r.value, width)
    ensures |r.rest| <= |s|
  {
    var n := NumberLength(s);
    if n == |s| then Fail(Eof, [])
    else if Refused(s[..n]) then Fail(InvalidNumber, s[n..])
    else
      match Parse(s[..n], width)
      case None => Fail(InvalidNumber, s[n..])
      case Some(i) => Ok(i, s[n..])
  }

  function ReadInteger(s: Bytes, width: Width): Read<int> {
    var (_, s1) :- Expect(s, BYTE_I);
    var (n, s2) :- ReadNumber(s1, width);
    var (_, s3) :- Expect(s2, BYTE_E);
    Ok(n, s3)
  }

  function ReadByteString(s: Bytes): (r: Read<Bytes>)
    ensures |r.rest| <= |s| && (r.Ok? ==> |r.rest| < |s|)
  {
    var (n, s1) :- ReadNumber(s, U64);
    var (_, s2) :- Expect(s1, COLON);
    if |s2| < n then Fail(Eof, s2) else Ok(s2[..n], s2[n..])
  }

  function ReadStr(s: Bytes): (r: Read<Bytes>)
    ensures |r.rest| <= |s| && (r.Ok? ==> |r.rest| < |s|)
  {
    var (b, s1) :- ReadByteString(s);
    if Utf8.Valid(b) then Ok(b, s1) else Fail(InvalidUtf8, s1)
  }

  /** A byte string that happens to be UTF-8 becomes text. */
  function TextOrRaw(b: Bytes): Value {
    if Utf8.Valid(b) then Text(b) else Raw(b)
  }

  // ---- The tree decoder ----

  function DecodeValue(s: Bytes): (r: Read<Value>)
    ensures |r.rest| <= |s| && (r.Ok? ==> |r.rest| < |s|)
    decreases |s|, 0
  {
    if s == [] then Fail(Eof, s)
    else if s[0] == BYTE_D then
      var (es, s1) :- DecodeEntries(s[1..], []);
      Ok(Dict(es), s1)
    else if s[0] == BYTE_L then
      var (items, s1) :- DecodeItems(s[1..]);
      Ok(List(items), s1)
    else if s[0] == BYTE_I then
      var (i, s1) :- ReadInteger(s, I64);
      Ok(Integer(i), s1)
    else if IsDigit(s[0]) then
      var (b, s1) :- ReadByteString(s);
      Ok(TextOrRaw(b), s1)
    else Fail(InvalidByte(s[0]), s)
  }

  /** The loop of `read_list` and its closing byte. */
  function DecodeItems(s: Bytes): (r: Read<seq<Value>>)
    ensures |r.rest| <= |s| && (r.Ok? ==> |r.rest| < |s|)
    decreases |s|, 1
  {
    if s == [] then Fail(Eof, s)
    else if s[0] == BYTE_E then Ok([], s[1..])
    else
      var (v, s1) :- DecodeValue(s);
      var (vs, s2) :- DecodeItems(s1);
      Ok([v] + vs, s2)
  }

  /** The loop of `read_dict` with the map built so far, and its closing byte. */
  function DecodeEntries(s: Bytes, entries: seq<Entry>): (r: Read<seq<Entry>>)
    ensures |r.rest| <= |s| && (r.Ok? ==> |r.rest| < |s|)
    decreases |s|, 1
  {
    if s == [] then Fail(Eof, s)
    else if s[0] == BYTE_E then Ok(entries, s[1..])
    else
      var (key, s1) :- ReadStr(s);
      var (value, s2) :- DecodeValue(s1);
      DecodeEntries(s2, Insert(entries, key, value))
  }

  // ---- Skipping ----

  function SkipItem(s: Bytes): (r: Read<()>)
    ensures |r.rest| <= |s| && (r.Ok? ==> |r.rest| < |s|)
    decreases |s|, 0
  {
    if s == [] then Fail(Eof, s)
    else if s[0] == BYTE_D then SkipPairs(s[1..])
    else if s[0] == BYTE_L then SkipItems(s[1..])
    else if s[0] == BYTE_I then
      var n := NumberLength(s[1..]);
      if 1 + n == |s| then Fail(Eof, []) else Expect(s[1 + n..], BYTE_E)
    else if IsDigit(s[0]) then
      var (n, s1) :- ReadNumber(s, U64);
      var (_, s2) :- Expect(s1, COLON);
      if |s2| < n then Fail(Eof, s2) else Ok((), s2[n..])
    else Fail(InvalidByte(s[0]), s)
  }

  function SkipItems(s: Bytes): (r: Read<()>)
    ensures |r.rest| <= |s| && (r.Ok? ==> |r.rest| < |s|)
    decreases |s|, 1
  {
    if s == [] then Fail(Eof, s)
    else if s[0] == BYTE_E then Ok((), s[1..])
    else
      var (_, s1) :- SkipItem(s);
      SkipItems(s1)
  }

  function SkipPairs(s: Bytes): (r: Read<()>)
    ensures |r.rest| <= |s| && (r.Ok? ==> |r.rest| < |s|)
    decreases |s|, 1
  {
    if s == [] then Fail(Eof, s)
    else if s[0] == BYTE_E then Ok((), s[1..])
    else
      var (_, s1) :- SkipItem(s);
      var (_, s2) :- SkipItem(s1);
      SkipPairs(s2)
  }
}
