/** The `Decoder` of decode.rs: a cursor over the data that every read moves. Each method is the
    reader of the same name in `Bencode`, `StructReader` or `MetaInfo`, on the bytes left. */
module DecoderClass {
  import opened ByteStrings
  import opened Decimal
  import opened Bencode
  import opened StructReader
  import opened MetaInfo
  import Sha1Hash
  import Utf8

  /** What a list reader returns once `front` has been read before it. */
  function Prepend<T>(front: seq<T>, r: Read<seq<T>>): Read<seq<T>> {
    match r
    case Ok(items, rest) => Ok(front + items, rest)
    case Fail(e, rest) => Fail(e, rest)
  }

  lemma PrependNothing<T>(r: Read<seq<T>>)
    ensures Prepend([], r) == r
  {
    if r.Ok? { assert [] + r.value == r.value; }
  }

  lemma PrependOne<T>(front: seq<T>, item: T, r: Read<seq<T>>)
    ensures Prepend(front, Prepend([item], r)) == Prepend(front + [item], r)
  {
    if r.Ok? { assert front + ([item] + r.value) == front + [item] + r.value; }
  }

  lemma PrependEnd<T>(front: seq<T>, rest: Bytes)
    ensures Prepend(front, Ok([], rest)) == Ok(front, rest)
  {
    assert front + [] == front;
  }

  // ---- read_dict and read_list ----

  function DictAt(s: Bytes): Read<seq<Entry>> {
    var (_, s1) :- Expect(s, BYTE_D);
    DecodeEntries(s1, [])
  }

  function ListAt(s: Bytes): Read<seq<Value>> {
    var (_, s1) :- Expect(s, BYTE_L);
    DecodeItems(s1)
  }

  // ---- skip ----

  /** Where `skip` leaves the cursor in `size` bytes of data; `None` is `Eof`. */
  function SkipTo(size: nat, pos: nat, n: nat): Option<nat> {
    if size < pos + n then None else Some(pos + n)
  }

  /** The same in a build whose 64-bit additions wrap around. */
  function WrappedSkipTo(size: nat, pos: nat, n: nat): Option<nat> {
    var end := (pos + n) % TWO_64;
    if size < end then None else Some(end)
  }

  /** Without the check for overflow `skip` is right exactly when the sum fits 64 bits; else, for a length
      just below 2^64, it succeeds and moves the cursor back. */
  lemma SkipWrapsIff(size: nat, pos: nat, n: nat)
    requires pos <= size < TWO_63 && n < TWO_64
    ensures WrappedSkipTo(size, pos, n) == SkipTo(size, pos, n) <==> pos + n < TWO_64
    ensures pos + n >= TWO_64 ==> WrappedSkipTo(size, pos, n).Some? && WrappedSkipTo(size, pos, n).value < pos
  {
    if pos + n >= TWO_64 { assert (pos + n) % TWO_64 == pos + n - TWO_64; }
  }

  class Decoder {
    const data: Bytes
    var pos: nat

    ghost predicate Valid()
      reads this
    {
      pos <= |data|
    }

    /** The bytes from the cursor on. */
    ghost function Left(): Bytes
      requires Valid()
      reads this
    {
      data[pos..]
    }

    /** The outcome and the new cursor are those of `spec`. */
    ghost predicate Did<T(!new)>(r: Result<T>, spec: Read<T>)
      reads this
    {
      && Valid() && Left() == spec.rest
      && r == match spec { case Ok(v, _) => Success(v) case Fail(e, _) => Failure(e) }
    }

    constructor (data: Bytes)
      ensures Valid() && Left() == data
    {
      this.data := data;
      pos := 0;
    }

    method PeekByte() returns (r: Result<byte>)
      requires Valid()
      ensures Did(r, Bencode.PeekByte(Left()))
    {
      if |data| < pos + 1 { return Failure(Eof); }
      return Success(data[pos]);
    }

    method ReadByte() returns (r: Result<byte>)
      requires Valid()
      modifies `pos
      ensures Valid()
      ensures if old(Left()) == [] then r == Failure(Eof) && pos == old(pos)
              else r == Success(old(Left())[0]) && pos == old(pos) + 1 && Left() == old(Left())[1..]
    {
      if pos == |data| { return Failure(Eof); }
      pos := pos + 1;
      return Success(data[pos - 1]);
    }

    method Expect(b: byte) returns (r: Result<()>)
      requires Valid()
      modifies `pos
      ensures Did(r, Bencode.Expect(old(Left()), b))
    {
      var found :- ReadByte();
      if found == b { return Success(()); }
      return Failure(UnexpectedByte(b, found));
    }

    /** `read_while(is_number)`; running into the end of the data is an error there. */
    method ReadWhileNumber() returns (r: Result<Bytes>)
      requires Valid()
      modifies `pos
      ensures var s := old(Left());
              var n := NumberLength(s);
              Did(r, if n == |s| then Fail(Eof, []) else Ok(s[..n], s[n..]))
    {
      var res := [];
      ghost var start, n := pos, NumberLength(Left());
      while true
        invariant start <= pos <= start + n <= |data| && res == data[start..pos]
        decreases |data| - pos
      {
        var b :- PeekByte();
        assert b == data[start..][pos - start];
        if !IsNumber(b) { break; }
        var c := ReadByte();
        res := res + [c.value];
      }
      assert data[start..][..n] == data[start..start + n];
      return Success(res);
    }

    method ReadNumber(width: Width) returns (r: Result<int>)
      requires Valid()
      modifies `pos
      ensures Did(r, Bencode.ReadNumber(old(Left()), width))
    {
      var buf :- ReadWhileNumber();
      if Refused(buf) { return Failure(InvalidNumber); }
      match Parse(buf, width)
      case Some(n) => return Success(n);
      case None => return Failure(InvalidNumber);
    }

    method ReadInteger(width: Width) returns (r: Result<int>)
      requires Valid()
      modifies `pos
      ensures Did(r, Bencode.ReadInteger(old(Left()), width))
    {
      var _ :- Expect(BYTE_I);
      var n :- ReadNumber(width);
      var _ :- Expect(BYTE_E);
      return Success(n);
    }

    method Skip(n: nat) returns (r: Result<()>)
      requires Valid()
      modifies `pos
      ensures Did(r, if |old(Left())| < n then Fail(Eof, old(Left())) else Ok((), old(Left())[n..]))
    {
      var end := SkipTo(|data|, pos, n);
      if end == None { return Failure(Eof); }
      pos := end.value;
      return Success(());
    }

    method SkipItem() returns (r: Result<()>)
      requires Valid()
      modifies `pos
      ensures Did(r, Bencode.SkipItem(old(Left())))
      decreases |data| - pos, 0
    {
      var b :- PeekByte();
      if b == BYTE_D {
        var _ := ReadByte();
        r := SkipOtherFields();
      } else if b == BYTE_L {
        var _ := ReadByte();
        r := SkipOtherItems();
      } else if b == BYTE_I {
        var _ := Expect(BYTE_I);
        var _ :- ReadWhileNumber();
        r := Expect(BYTE_E);
      } else if IsDigit(b) {
        var n :- ReadNumber(Width.U64);
        var _ :- Expect(COLON);
        var _ :- Skip(n);
        return Success(());
      } else {
        return Failure(InvalidByte(b));
      }
    }

    /** The loop of `skip_item` over a dictionary, which is also the end of `read_struct`. */
    method SkipOtherFields() returns (r: Result<()>)
      requires Valid()
      modifies `pos
      ensures Did(r, SkipPairs(old(Left())))
      decreases |data| - pos, 1
    {
      while true
        invariant Valid() && pos >= old(pos) && SkipPairs(Left()) == SkipPairs(old(Left()))
        decreases |data| - pos
      {
        var next :- PeekByte();
        if next == BYTE_E { break; }
        var _ :- SkipItem();
        var _ :- SkipItem();
      }
      r := Expect(BYTE_E);
    }

    /** The loop of `skip_item` over a list. */
    method SkipOtherItems() returns (r: Result<()>)
      requires Valid()
      modifies `pos
      ensures Did(r, SkipItems(old(Left())))
      decreases |data| - pos, 1
    {
      while true
        invariant Valid() && pos >= old(pos) && SkipItems(Left()) == SkipItems(old(Left()))
        decreases |data| - pos
      {
        var next :- PeekByte();
        if next == BYTE_E { break; }
        var _ :- SkipItem();
      }
      r := Expect(BYTE_E);
    }

    /** `read` into a buffer of `n` bytes that are there. */
    method Read(n: nat) returns (buf: Bytes)
      requires Valid() && n <= |data| - pos
      modifies `pos
      ensures Valid() && buf == old(Left())[..n] && Left() == old(Left())[n..]
    {
      buf := data[pos..pos + n];
      pos := pos + n;
    }

    method ReadByteString() returns (r: Result<Bytes>)
      requires Valid()
      modifies `pos
      ensures Did(r, Bencode.ReadByteString(old(Left())))
    {
      var n :- ReadNumber(Width.U64);
      var _ :- Expect(COLON);
      if |data| - pos < n { return Failure(Eof); }
      var buf := Read(n);
      return Success(buf);
    }

    method ReadStr() returns (r: Result<Bytes>)
      requires Valid()
      modifies `pos
      ensures Did(r, Bencode.ReadStr(old(Left())))
    {
      var b :- ReadByteString();
      if Utf8.Valid(b) { return Success(b); }
      return Failure(InvalidUtf8);
    }

    // ---- Value ----

    method ReadDict() returns (r: Result<seq<Entry>>)
      requires Valid()
      modifies `pos
      ensures Did(r, DictAt(old(Left())))
      decreases |data| - pos, 0
    {
      var _ :- Expect(BYTE_D);
      ghost var spec := DecodeEntries(Left(), []);
      var entries: seq<Entry> := [];
      while true
        invariant Valid() && pos > old(pos) && DecodeEntries(Left(), entries) == spec
        decreases |data| - pos
      {
        var next :- PeekByte();
        if next == BYTE_E { break; }
        var key :- ReadStr();
        var value :- DecodeValue();
        entries := Insert(entries, key, value);
      }
      var _ := Expect(BYTE_E);
      return Success(entries);
    }

    method ReadList() returns (r: Result<seq<Value>>)
      requires Valid()
      modifies `pos
      ensures Did(r, ListAt(old(Left())))
      decreases |data| - pos, 0
    {
      var _ :- Expect(BYTE_L);
      ghost var spec := DecodeItems(Left());
      var list: seq<Value> := [];
      PrependNothing(spec);
      while true
        invariant Valid() && pos > old(pos) && Prepend(list, DecodeItems(Left())) == spec
        decreases |data| - pos
      {
        var next :- PeekByte();
        if next == BYTE_E { break; }
        ghost var here := Left();
        var item :- DecodeValue();
        assert DecodeItems(here) == Prepend([item], DecodeItems(Left()));
        PrependOne(list, item, DecodeItems(Left()));
        list := list + [item];
      }
      PrependEnd(list, Left()[1..]);
      var _ := Expect(BYTE_E);
      return Success(list);
    }

    method DecodeValue() returns (r: Result<Value>)
      requires Valid()
      modifies `pos
      ensures Did(r, Bencode.DecodeValue(old(Left())))
      decreases |data| - pos, 1
    {
      var b :- PeekByte();
      if b == BYTE_D {
        var entries :- ReadDict();
        return Success(Dict(entries));
      } else if b == BYTE_L {
        var items :- ReadList();
        return Success(List(items));
      } else if b == BYTE_I {
        var i :- ReadInteger(Width.I64);
        return Success(Integer(i));
      } else if IsDigit(b) {
        var bytes :- ReadByteString();
        return Success(TextOrRaw(bytes));
      } else {
        return Failure(InvalidByte(b));
      }
    }

    // ---- Structs ----

    /** The loop of `read_field` up to the value. */
    method SeekField(name: Bytes) returns (r: Result<()>)
      requires Valid()
      modifies `pos
      ensures Did(r, SeekFrom(old(Left()), old(Left()), name))
    {
      var start := pos;
      while true
        invariant Valid() && pos >= start
        invariant SeekFrom(old(Left()), Left(), name) == SeekFrom(old(Left()), old(Left()), name)
        decreases |data| - pos
      {
        var next :- PeekByte();
        if next == BYTE_E { break; }
        var key :- ReadStr();
        if name == key {
          return Success(());
        } else if Less(key, name) {
          var _ :- SkipItem();
        } else {
          break;
        }
      }
      pos := start;
      return Failure(MissingField(name));
    }

    method ReadFieldU64(name: Bytes) returns (r: Result<U64>)
      requires Valid()
      modifies `pos
      ensures Did(r, ReadField(old(Left()), name, DecodeU64))
    {
      var _ :- SeekField(name);
      var n :- ReadInteger(Width.U64);
      return Success(n);
    }

    method ReadFieldStr(name: Bytes) returns (r: Result<Bytes>)
      requires Valid()
      modifies `pos
      ensures Did(r, ReadField(old(Left()), name, Bencode.ReadStr))
    {
      var _ :- SeekField(name);
      r := ReadStr();
    }

    method ReadOptionStr(name: Bytes) returns (r: Result<Option<Bytes>>)
      requires Valid()
      modifies `pos
      ensures Did(r, ReadOption(old(Left()), name, Bencode.ReadStr))
    {
      var t := ReadFieldStr(name);
      match t
      case Success(b) => return Success(Some(b));
      case Failure(MissingField(_)) => return Success(None);
      case Failure(e) => return Failure(e);
    }

    method ReadFieldSha1s(name: Bytes) returns (r: Result<seq<Sha1Hash.Sha1>>)
      requires Valid()
      modifies `pos
      ensures Did(r, ReadField(old(Left()), name, DecodeSha1s))
    {
      var _ :- SeekField(name);
      var bytes :- ReadByteString();
      var hashes := Sha1Hash.ReadSha1List(bytes);
      return Success(hashes);
    }

    method ReadStringList() returns (r: Result<seq<Bytes>>)
      requires Valid()
      modifies `pos
      ensures Did(r, DecodeStrings(old(Left())))
    {
      var _ :- Expect(BYTE_L);
      ghost var spec := DecodeStringItems(Left());
      var list: seq<Bytes> := [];
      PrependNothing(spec);
      while true
        invariant Valid() && Prepend(list, DecodeStringItems(Left())) == spec
        decreases |data| - pos
      {
        var next :- PeekByte();
        if next == BYTE_E { break; }
        ghost var here := Left();
        var item :- ReadStr();
        assert DecodeStringItems(here) == Prepend([item], DecodeStringItems(Left()));
        PrependOne(list, item, DecodeStringItems(Left()));
        list := list + [item];
      }
      PrependEnd(list, Left()[1..]);
      var _ := Expect(BYTE_E);
      return Success(list);
    }

    method ReadFieldStrings(name: Bytes) returns (r: Result<seq<Bytes>>)
      requires Valid()
      modifies `pos
      ensures Did(r, ReadField(old(Left()), name, DecodeStrings))
    {
      var _ :- SeekField(name);
      r := ReadStringList();
    }

    method ReadFileInfo() returns (r: Result<FileInfo>)
      requires Valid()
      modifies `pos
      ensures Did(r, DecodeFileInfo(old(Left())))
    {
      var _ :- Expect(BYTE_D);
      var length :- ReadFieldU64(LENGTH);
      var md5sum :- ReadOptionStr(MD5SUM);
      var path :- ReadFieldStrings(PATH);
      var _ :- SkipOtherFields();
      return Success(FileInfo(length, md5sum, path));
    }

    method ReadFileList() returns (r: Result<seq<FileInfo>>)
      requires Valid()
      modifies `pos
      ensures Did(r, DecodeFiles(old(Left())))
    {
      var _ :- Expect(BYTE_L);
      ghost var spec := DecodeFileItems(Left());
      var list: seq<FileInfo> := [];
      PrependNothing(spec);
      while true
        invariant Valid() && Prepend(list, DecodeFileItems(Left())) == spec
        decreases |data| - pos
      {
        var next :- PeekByte();
        if next == BYTE_E { break; }
        ghost var here := Left();
        var item :- ReadFileInfo();
        assert DecodeFileItems(here) == Prepend([item], DecodeFileItems(Left()));
        PrependOne(list, item, DecodeFileItems(Left()));
        list := list + [item];
      }
      PrependEnd(list, Left()[1..]);
      var _ := Expect(BYTE_E);
      return Success(list);
    }

    method ReadFieldFiles(name: Bytes) returns (r: Result<seq<FileInfo>>)
      requires Valid()
      modifies `pos
      ensures Did(r, ReadField(old(Left()), name, DecodeFiles))
    {
      var _ :- SeekField(name);
      r := ReadFileList();
    }

    method ReadShared() returns (r: Result<Shared>)
      requires Valid()
      modifies `pos
      ensures Did(r, SharedFields(old(Left())))
    {
      var name :- ReadFieldStr(NAME);
      var pieceLength :- ReadFieldU64(PIECE_LENGTH);
      var pieces :- ReadFieldSha1s(PIECES);
      return Success(Shared(name, pieceLength, pieces));
    }

    method ReadInfoFields() returns (r: Result<Info>)
      requires Valid()
      modifies `pos
      ensures Did(r, InfoFields(old(Left())))
    {
      var files := ReadFieldFiles(FILES);
      if files.Success? {
        var f :- ReadShared();
        return Success(Multi(files.value, f.name, f.pieceLength, f.pieces));
      } else {
        var length :- ReadFieldU64(LENGTH);
        var md5sum :- ReadOptionStr(MD5SUM);
        var f :- ReadShared();
        return Success(Single(length, md5sum, f.name, f.pieceLength, f.pieces));
      }
    }

    method ReadInfo() returns (r: Result<Info>)
      requires Valid()
      modifies `pos
      ensures Did(r, DecodeInfo(old(Left())))
    {
      var _ :- Expect(BYTE_D);
      var info :- ReadInfoFields();
      var _ :- SkipOtherFields();
      return Success(info);
    }
  }
}
