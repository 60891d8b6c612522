/** The `Download` of download.rs: pieces and paths updated in place, files written in place, and events
    sent to the manager. Each method does to the state what the function of the same name says. */
module DownloadClass {
  import opened ByteStrings
  import opened FileLayout
  import opened FlatFiles
  import opened Pieces
  import opened DownloadModel
  import opened DownloadLaws

  class Download {
    const cfg: Config
    const files: seq<array<byte>>
    var pieces: seq<Piece>
    var filePaths: seq<string>
    /** What has gone into `manager_sender`. */
    var sent: seq<Event>

    ghost function Now(): State
      reads this, files
    {
      State(Disk(files), pieces, filePaths, sent)
    }

    ghost predicate Valid()
      reads this, files
    {
      Opened(cfg.offsets, files) && Layout(cfg, Now())
    }

    constructor (cfg: Config, files: seq<array<byte>>)
      requires Creatable(cfg) && Opened(cfg.offsets, files)
      ensures this.cfg == cfg && this.files == files && Now() == Init(cfg, Disk(files))
      ensures WellFormed(cfg) ==> Valid()
    {
      this.cfg := cfg;
      this.files := files;
      var r := CreatePieces(cfg.total, cfg.pieceLength, cfg.shas);
      pieces := r.value;
      filePaths := seq(|cfg.names|, f requires 0 <= f < |cfg.names| => cfg.names[f] + TEMP);
      sent := [];
      new;
      OpenedFits(cfg.offsets, files);
      if WellFormed(cfg) { InitLayout(cfg, Disk(files)); }
    }

    method Verify(p: nat) returns (valid: bool)
      requires Valid() && p < |pieces|
      modifies `pieces
      ensures Valid() && Off(cfg, p) + Len(cfg, p) <= |Disk(files)|
      ensures valid == HashMatches(cfg, Disk(files), old(pieces[p]))
      ensures Now() == old(Now()).(pieces := old(pieces)[p := old(pieces[p]).(done := valid)])
    {
      PieceBounds(cfg, p);
      SearchIndexFinds(cfg.offsets, pieces[p].offset);
      var buffer := Read(files, cfg.offsets, pieces[p].offset, pieces[p].length);
      valid := cfg.sha1(buffer) == pieces[p].hash;
      pieces := pieces[p := pieces[p].(done := valid)];
    }

    method RenameTempFile(f: nat)
      requires Valid() && f < |filePaths|
      modifies `filePaths, `sent
      ensures Valid() && Now() == DownloadModel.RenameTempFile(old(Now()), f)
    {
      var filePath := filePaths[f];
      if EndsWithTemp(filePath) {
        var newName := filePath[..|filePath| - |TEMP|];
        filePaths := filePaths[f := newName];
        sent := sent + [FileFinish(f, newName)];
      }
    }

    method CheckFile(f: nat)
      requires Valid() && cfg.pieceLength > 0 && f < |filePaths| && EndsLater(cfg.offsets, f)
      modifies `filePaths, `sent
      ensures Valid() && Now() == DownloadModel.CheckFile(cfg, old(Now()), f)
    {
      var start, end: nat := cfg.offsets[f], cfg.offsets[f + 1] - 1;
      var low, high := start / cfg.pieceLength, end / cfg.pieceLength;
      var fileIsCompleted := AllDone(pieces, low, high);
      if fileIsCompleted { RenameTempFile(f); }
    }

    method VerifyFile(p: nat)
      requires Valid() && p < |pieces|
      modifies `filePaths, `sent
      ensures Valid() && Now() == DownloadModel.VerifyFile(cfg, old(Now()), p)
    {
      PieceBounds(cfg, p);
      SearchIndexFinds(cfg.offsets, pieces[p].offset);
      var r := SearchPtrs(cfg.offsets, pieces[p].offset, pieces[p].length);
      var (index, v) := r.value;
      var n := |v|;
      assert (index, n) == FilesOf(cfg.offsets, pieces[p].offset, pieces[p].length);
      forall f: nat | index <= f < index + n ensures EndsLater(cfg.offsets, f) {
        VisitedEndsLater(cfg.offsets, pieces[p].offset, pieces[p].length, f);
      }
      CheckFileRange(index, n);
    }

    /** The loop of `verify_file`. */
    method CheckFileRange(index: nat, n: nat)
      requires Valid() && cfg.pieceLength > 0 && index + n <= |filePaths|
      requires forall f: nat :: index <= f < index + n ==> EndsLater(cfg.offsets, f)
      modifies `filePaths, `sent
      ensures Valid() && Now() == CheckFiles(cfg, old(Now()), index, n)
    {
      for i := 0 to n
        invariant Valid()
        invariant CheckFiles(cfg, Now(), index + i, n - i) == CheckFiles(cfg, old(Now()), index, n)
      {
        CheckFile(index + i);
      }
    }

    method ResetBlocks(p: nat)
      requires Valid() && p < |pieces|
      modifies `pieces
      ensures Valid() && Now() == old(Now()).(pieces := old(pieces)[p := DownloadModel.ResetBlocks(old(pieces[p]))])
    {
      ghost var before := pieces[p];
      var blocks := pieces[p].blocks;
      for b := 0 to |blocks|
        invariant |blocks| == |before.blocks|
        invariant forall k :: 0 <= k < |blocks| ==>
                    blocks[k] == if k < b then before.blocks[k].(done := false) else before.blocks[k]
      {
        blocks := blocks[b := blocks[b].(done := false)];
      }
      assert blocks == DownloadModel.ResetBlocks(before).blocks;
      assert Shaped(cfg, p, before);
      pieces := pieces[p := pieces[p].(blocks := blocks)];
    }

    method IsComplete() returns (r: bool)
      ensures r == DownloadModel.IsComplete(pieces)
    {
      r := forall i :: 0 <= i < |pieces| ==> pieces[i].done;
    }

    method Broadcast(e: Event)
      modifies `sent
      ensures sent == old(sent) + [e]
    {
      sent := sent + [e];
    }

    /** Lines 113 to 119. */
    method KeepBlock(p: nat, b: nat, data: Bytes)
      requires Valid() && Writable(cfg, p, b, data)
      requires p < |pieces| && b < |pieces[p].blocks|
      requires pieces[p].offset + BLOCK_SIZE * b + |data| <= |Disk(files)|
      modifies `pieces, files
      ensures Valid() && Now() == WriteBlock(old(Now()), p, b, data)
    {
      BlockSplits(cfg, p, b, data);
      assert Shaped(cfg, p, pieces[p]);
      StoreBlock(files, cfg.offsets, pieces[p].offset + b * BLOCK_SIZE, data);
      pieces := pieces[p := MarkBlock(pieces[p], b)];
    }

    /** Lines 132 to 146. */
    method Announce(p: nat, b: nat)
      requires Valid() && p < |pieces|
      modifies `filePaths, `sent
      ensures Valid() && Now() == DownloadModel.Announce(cfg, old(Now()), p, b)
    {
      VerifyFile(p);
      Broadcast(BlockCompleted(p, b));
      if pieces[p].done { Broadcast(PieceCompleted(p)); }
      var complete := IsComplete();
      if complete { Broadcast(DownloadCompleted); }
    }

    /** Lines 121 to 130: whether there is something to announce. */
    method CheckPiece(p: nat) returns (news: bool)
      requires Valid() && p < |pieces| && !pieces[p].done
      modifies `pieces
      ensures Valid() && Off(cfg, p) + Len(cfg, p) <= |Disk(files)|
      ensures var piece := old(pieces[p]);
              && news == (piece.HasAllBlocks() ==> HashMatches(cfg, Disk(files), piece))
              && Now() == old(Now()).(pieces := old(pieces)[p :=
                   if news then piece.(done := piece.HasAllBlocks() || cfg.asWritten)
                   else DownloadModel.ResetBlocks(piece)])
    {
      PieceBounds(cfg, p);
      assert Shaped(cfg, p, pieces[p]);
      if pieces[p].HasAllBlocks() {
        var valid := Verify(p);
        if !valid {
          ResetBlocks(p);
          return false;
        }
      }
      if cfg.asWritten { pieces := pieces[p := pieces[p].(done := true)]; }
      return true;
    }

    method Store(p: nat, b: nat, data: Bytes)
      requires Valid() && Writable(cfg, p, b, data)
      modifies this, files
      ensures Valid() && Now() == DownloadModel.Store(cfg, old(Now()), p, b, data)
    {
      WritePrecondition(cfg, Now(), p, b, data);
      if pieces[p].blocks[b].done || pieces[p].done { return; }
      KeepBlock(p, b, data);
      var news := CheckPiece(p);
      if news { Announce(p, b); }
    }

    method RetrieveData(p: nat, offset: nat, length: nat) returns (r: Answer)
      requires Valid()
      ensures r == DownloadModel.RetrieveData(cfg, Now(), p, offset, length)
    {
      if p >= |pieces| { return Panic; }
      if !pieces[p].done { return Incomplete; }
      if !Splittable(cfg.offsets, pieces[p].offset + offset, length) { return Panic; }
      var buf := Read(files, cfg.offsets, pieces[p].offset + offset, length);
      return Data(buf);
    }

    method IncompleteBlocksForPiece(p: nat) returns (r: seq<(nat, nat)>)
      requires p < |pieces|
      ensures r == IncompleteBlocks(Now(), p)
    {
      if pieces[p].done { return []; }
      r := [];
      var blocks := pieces[p].blocks;
      for i := 0 to |blocks|
        invariant r + MissingFrom(blocks[i..]) == MissingFrom(blocks)
      {
        assert blocks[i..][1..] == blocks[i + 1..];
        Assoc(r, [(blocks[i].index, blocks[i].length)], MissingFrom(blocks[i + 1..]));
        if !blocks[i].done { r := r + [(blocks[i].index, blocks[i].length)]; }
      }
    }

    method HavePieces() returns (res: seq<bool>)
      ensures res == DownloadModel.HavePieces(Now())
    {
      res := [];
      for i := 0 to |pieces|
        invariant |res| == i && forall k :: 0 <= k < i ==> res[k] == pieces[k].done
      {
        res := res + [pieces[i].done];
      }
    }
  }
}
