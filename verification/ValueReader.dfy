/** The loops of value.rs that turn lists into vectors and hashes into bytes. */
module ValueReader {
  import opened ByteStrings
  import opened Bencode
  import opened MetaInfo
  import opened Sha1Hash

  method CollectStrings(list: seq<Value>) returns (r: Result<seq<Bytes>>)
    ensures r == StringsFromItems(list)
  {
    var res: seq<Bytes> := [];
    assert list[0..] == list && forall ts: seq<Bytes> :: res + ts == ts;
    for i := 0 to |list|
      invariant StringsFromItems(list) == match StringsFromItems(list[i..])
                                          case Success(ts) => Success(res + ts)
                                          case Failure(e) => Failure(e)
    {
      assert list[i..][1..] == list[i + 1..];
      var t :- StringFromValue(list[i]);
      ghost var later := StringsFromItems(list[i + 1..]);
      if later.Success? { Assoc(res, [t], later.value); }
      res := res + [t];
    }
    assert res + [] == res;
    return Success(res);
  }

  method CollectFiles(list: seq<Value>) returns (r: Result<seq<FileInfo>>)
    ensures r == FilesFromItems(list)
  {
    var res: seq<FileInfo> := [];
    assert list[0..] == list && forall fs: seq<FileInfo> :: res + fs == fs;
    for i := 0 to |list|
      invariant FilesFromItems(list) == match FilesFromItems(list[i..])
                                        case Success(fs) => Success(res + fs)
                                        case Failure(e) => Failure(e)
    {
      assert list[i..][1..] == list[i + 1..];
      var f :- FileInfoFromValue(list[i]);
      ghost var later := FilesFromItems(list[i + 1..]);
      if later.Success? { Assoc(res, [f], later.value); }
      res := res + [f];
    }
    assert res + [] == res;
    return Success(res);
  }

  method JoinHashes(hashes: seq<Sha1>) returns (bytes: Bytes)
    ensures bytes == Join(hashes)
  {
    bytes := [];
    for i := 0 to |hashes|
      invariant bytes + Join(hashes[i..]) == Join(hashes)
    {
      assert hashes[i..][1..] == hashes[i + 1..];
      assert bytes + (hashes[i] + Join(hashes[i + 1..])) == bytes + hashes[i] + Join(hashes[i + 1..]);
      bytes := bytes + hashes[i];
    }
  }
}
