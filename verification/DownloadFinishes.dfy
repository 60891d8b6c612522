/** The right data downloads the torrent: any calls with true data that cover all blocks, in any order and
    with repeats, end with every piece complete and the true bytes on disk. */
module DownloadFinishes {
  import opened ByteStrings
  import opened FlatFiles
  import opened Pieces
  import opened DownloadModel
  import opened DownloadLaws
  import opened DownloadRuns
  import opened AnnouncementLaws

  // ---- True contents and true data ----

  /** Contents with the hashes of the torrent. */
  ghost predicate TrueContents(cfg: Config, t: Bytes) {
    && WellFormed(cfg) && |t| == cfg.total
    && forall i :: 0 <= i < |cfg.shas| ==> TruePiece(cfg, t, i)
  }

  ghost predicate TruePiece(cfg: Config, t: Bytes, i: nat)
    requires Buildable(cfg) && |t| == cfg.total && i < |cfg.shas|
  {
    PieceBounds(cfg, i);
    cfg.sha1(t[Off(cfg, i)..Off(cfg, i) + Len(cfg, i)]) == cfg.shas[i]
  }

  ghost predicate IsBlock(cfg: Config, i: nat, b: nat) {
    i < |cfg.shas| && 0 <= Len(cfg, i) && b < NumBlocks(Len(cfg, i))
  }

  function From(cfg: Config, i: nat, b: nat): nat {
    Off(cfg, i) + BLOCK_SIZE * b
  }

  ghost function To(cfg: Config, i: nat, b: nat): nat
    requires IsBlock(cfg, i, b)
  {
    From(cfg, i, b) + BlockAt(Len(cfg, i), b).length
  }

  lemma BlockBounds(cfg: Config, i: nat, b: nat)
    requires Buildable(cfg) && IsBlock(cfg, i, b)
    ensures From(cfg, i, b) < To(cfg, i, b) <= Off(cfg, i) + Len(cfg, i) <= cfg.total
    ensures To(cfg, i, b) <= From(cfg, i, b) + BLOCK_SIZE
  {
    PieceBounds(cfg, i);
    NumBlocksIsCeiling(Len(cfg, i));
  }

  lemma BlocksApart(cfg: Config, i: nat, b: nat, j: nat, k: nat)
    requires Buildable(cfg) && IsBlock(cfg, i, b) && IsBlock(cfg, j, k) && (i != j || b != k)
    ensures To(cfg, i, b) <= From(cfg, j, k) || To(cfg, j, k) <= From(cfg, i, b)
  {
    BlockBounds(cfg, i, b);
    BlockBounds(cfg, j, k);
    if i < j { PiecesDisjoint(cfg, i, j); } else if j < i { PiecesDisjoint(cfg, j, i); }
  }

  /** What a call for block `b` of piece `i` should carry. */
  ghost function TrueBlock(cfg: Config, t: Bytes, i: nat, b: nat): Bytes
    requires Buildable(cfg) && |t| == cfg.total && IsBlock(cfg, i, b)
  {
    BlockBounds(cfg, i, b);
    t[From(cfg, i, b)..To(cfg, i, b)]
  }

  ghost predicate TrueCall(cfg: Config, t: Bytes, c: Call)
    requires Buildable(cfg) && |t| == cfg.total
  {
    IsBlock(cfg, c.piece, c.block) && c.data == TrueBlock(cfg, t, c.piece, c.block)
  }

  ghost predicate TrueCalls(cfg: Config, t: Bytes, calls: seq<Call>)
    requires Buildable(cfg) && |t| == cfg.total
  {
    forall k :: 0 <= k < |calls| ==> TrueCall(cfg, t, calls[k])
  }

  lemma TrueIsStorable(cfg: Config, t: Bytes, c: Call)
    requires Buildable(cfg) && |t| == cfg.total && TrueCall(cfg, t, c)
    ensures Storable(cfg, c.piece, c.block, c.data)
  {
    BlockBounds(cfg, c.piece, c.block);
  }

  lemma TrueAreStorable(cfg: Config, t: Bytes, calls: seq<Call>)
    requires Buildable(cfg) && |t| == cfg.total && TrueCalls(cfg, t, calls)
    ensures AllStorable(cfg, calls) && AllWritable(cfg, calls)
  {
    forall k | 0 <= k < |calls| ensures Storable(cfg, calls[k].piece, calls[k].block, calls[k].data) {
      TrueIsStorable(cfg, t, calls[k]);
    }
  }

  ghost predicate Asked(calls: seq<Call>, i: nat, b: nat) {
    exists k :: 0 <= k < |calls| && calls[k].piece == i && calls[k].block == b
  }

  ghost predicate Covers(cfg: Config, calls: seq<Call>) {
    forall i: nat, b: nat :: IsBlock(cfg, i, b) ==> Asked(calls, i, b)
  }

  // ---- The invariant ----

  ghost predicate Holds(cfg: Config, t: Bytes, disk: Bytes, i: nat, b: nat)
    requires Buildable(cfg) && |t| == cfg.total == |disk| && IsBlock(cfg, i, b)
  {
    BlockBounds(cfg, i, b);
    disk[From(cfg, i, b)..To(cfg, i, b)] == TrueBlock(cfg, t, i, b)
  }

  ghost predicate Marked(s: State, i: nat, b: nat) {
    i < |s.pieces| && b < |s.pieces[i].blocks| && s.pieces[i].blocks[b].done
  }

  /** Each marked block holds its true bytes, and a piece is complete exactly when all its blocks are there. */
  ghost predicate True(cfg: Config, t: Bytes, s: State) {
    && TrueContents(cfg, t) && Layout(cfg, s)
    && (forall i, b :: Marked(s, i, b) ==> IsBlock(cfg, i, b) && Holds(cfg, t, s.disk, i, b))
    && forall i :: 0 <= i < |s.pieces| ==> (s.pieces[i].done <==> s.pieces[i].HasAllBlocks())
  }

  lemma IsBlockIff(cfg: Config, s: State, i: nat, b: nat)
    requires Layout(cfg, s)
    ensures IsBlock(cfg, i, b) <==> i < |s.pieces| && b < |s.pieces[i].blocks|
    ensures IsBlock(cfg, i, b) ==> s.pieces[i].blocks[b].length == BlockAt(Len(cfg, i), b).length
  {
    if i < |s.pieces| {
      assert Shaped(cfg, i, s.pieces[i]);
      PieceBounds(cfg, i);
    }
  }

  /** A piece all of whose blocks hold their true bytes holds its true bytes. */
  lemma BlocksMakePiece(cfg: Config, t: Bytes, disk: Bytes, i: nat)
    requires Buildable(cfg) && |t| == cfg.total == |disk| && i < |cfg.shas|
    requires forall b: nat :: IsBlock(cfg, i, b) ==> Holds(cfg, t, disk, i, b)
    ensures Off(cfg, i) + Len(cfg, i) <= cfg.total && 0 < Len(cfg, i)
    ensures disk[Off(cfg, i)..Off(cfg, i) + Len(cfg, i)] == t[Off(cfg, i)..Off(cfg, i) + Len(cfg, i)]
  {
    PieceBounds(cfg, i);
    var d, u := disk[Off(cfg, i)..Off(cfg, i) + Len(cfg, i)], t[Off(cfg, i)..Off(cfg, i) + Len(cfg, i)];
    forall x | 0 <= x < |d| ensures d[x] == u[x] { ByteInBlock(cfg, t, disk, i, x); }
  }

  lemma ByteInBlock(cfg: Config, t: Bytes, disk: Bytes, i: nat, x: nat)
    requires Buildable(cfg) && |t| == cfg.total == |disk| && i < |cfg.shas| && x < Len(cfg, i)
    requires forall b: nat :: IsBlock(cfg, i, b) ==> Holds(cfg, t, disk, i, b)
    ensures Off(cfg, i) + x < cfg.total && disk[Off(cfg, i) + x] == t[Off(cfg, i) + x]
  {
    var b := x / BLOCK_SIZE;
    PieceBounds(cfg, i);
    BlocksPartitionPiece(Len(cfg, i), Off(cfg, i), cfg.shas[i], x, b);
    assert IsBlock(cfg, i, b) && Holds(cfg, t, disk, i, b);
    var k := x - BLOCK_SIZE * b;
    assert disk[From(cfg, i, b)..To(cfg, i, b)][k] == t[From(cfg, i, b)..To(cfg, i, b)][k];
  }

  // ---- One call ----

  /** A written block holds its bytes, and every other block what it held. */
  lemma WriteHolds(cfg: Config, t: Bytes, s: State, p: nat, b: nat, i: nat, k: nat)
    requires Layout(cfg, s) && |t| == cfg.total && IsBlock(cfg, p, b) && IsBlock(cfg, i, k)
    requires Writable(cfg, p, b, TrueBlock(cfg, t, p, b)) && p < |s.pieces| && b < |s.pieces[p].blocks|
    requires !Held(s, p, b)
    ensures |DiskAfter(cfg, s, p, b, TrueBlock(cfg, t, p, b))| == cfg.total
    ensures (i == p && k == b) || Holds(cfg, t, s.disk, i, k) ==>
              Holds(cfg, t, DiskAfter(cfg, s, p, b, TrueBlock(cfg, t, p, b)), i, k)
  {
    var data := TrueBlock(cfg, t, p, b);
    WritePrecondition(cfg, s, p, b, data);
    BlockBounds(cfg, p, b);
    BlockBounds(cfg, i, k);
    if i == p && k == b {
      SpliceReads(s.disk, From(cfg, p, b), data, 0, 0);
    } else {
      BlocksApart(cfg, p, b, i, k);
      OtherBytesKept(cfg, s, p, b, data, From(cfg, i, k), To(cfg, i, k));
    }
  }

  /** With true data the hash of a full piece matches. */
  lemma LastBlockMatches(cfg: Config, t: Bytes, s: State, p: nat, b: nat)
    requires True(cfg, t, s) && IsBlock(cfg, p, b) && p < |s.pieces| && b < |s.pieces[p].blocks|
    requires Writable(cfg, p, b, TrueBlock(cfg, t, p, b)) && !Held(s, p, b) && LastBlock(s, p, b)
    ensures News(cfg, s, p, b, TrueBlock(cfg, t, p, b))
  {
    var disk := DiskAfter(cfg, s, p, b, TrueBlock(cfg, t, p, b));
    WriteHolds(cfg, t, s, p, b, p, b);
    forall k: nat | IsBlock(cfg, p, k) ensures Holds(cfg, t, disk, p, k) {
      IsBlockIff(cfg, s, p, k);
      if k != b { assert Marked(s, p, k); }
      WriteHolds(cfg, t, s, p, b, p, k);
    }
    BlocksMakePiece(cfg, t, disk, p);
    assert TruePiece(cfg, t, p) && Shaped(cfg, p, s.pieces[p]);
  }

  /** What a true call makes of its piece. */
  lemma TruePieceAfter(cfg: Config, t: Bytes, s: State, p: nat, b: nat)
    requires True(cfg, t, s) && Harmless(cfg) && IsBlock(cfg, p, b)
    requires Writable(cfg, p, b, TrueBlock(cfg, t, p, b))
    ensures p < |s.pieces| && b < |s.pieces[p].blocks|
    ensures var r := PieceAfter(cfg, s, p, b, TrueBlock(cfg, t, p, b));
            && |r.blocks| == |s.pieces[p].blocks| && (r.done <==> r.HasAllBlocks())
            && forall k :: 0 <= k < |r.blocks| ==> (r.blocks[k].done <==> k == b || s.pieces[p].blocks[k].done)
  {
    var data := TrueBlock(cfg, t, p, b);
    WritePrecondition(cfg, s, p, b, data);
    assert Shaped(cfg, p, s.pieces[p]);
    MarkedHasAll(s, p, b);
    if Held(s, p, b) {
    } else if LastBlock(s, p, b) {
      LastBlockMatches(cfg, t, s, p, b);
    } else {
      NumBlocksIsCeiling(Len(cfg, p));
    }
  }

  /** A call with true data keeps the invariant, marks its block and takes no mark back. */
  lemma TrueStoreKeeps(cfg: Config, t: Bytes, s: State, c: Call)
    requires True(cfg, t, s) && Harmless(cfg) && TrueCall(cfg, t, c)
    ensures Writable(cfg, c.piece, c.block, c.data)
    ensures True(cfg, t, Store(cfg, s, c.piece, c.block, c.data))
    ensures Marked(Store(cfg, s, c.piece, c.block, c.data), c.piece, c.block)
    ensures forall i, b :: Marked(s, i, b) ==> Marked(Store(cfg, s, c.piece, c.block, c.data), i, b)
  {
    var p, b := c.piece, c.block;
    TrueIsStorable(cfg, t, c);
    TruePieceAfter(cfg, t, s, p, b);
    StoreEffects(cfg, s, p, b, c.data);
    var r := Store(cfg, s, p, b, c.data);
    forall i, k | Marked(r, i, k) ensures IsBlock(cfg, i, k) && Holds(cfg, t, r.disk, i, k) {
      IsBlockIff(cfg, r, i, k);
      if i != p || k != b { assert Marked(s, i, k); }
      if !Held(s, p, b) { WriteHolds(cfg, t, s, p, b, i, k); } else { assert Marked(s, i, k); }
    }
  }

  // ---- Runs ----

  lemma {:induction false} TrueRunKeeps(cfg: Config, t: Bytes, s: State, calls: seq<Call>)
    requires True(cfg, t, s) && Harmless(cfg) && TrueCalls(cfg, t, calls)
    ensures AllWritable(cfg, calls) && True(cfg, t, Run(cfg, s, calls))
    decreases |calls|
  {
    TrueAreStorable(cfg, t, calls);
    if calls != [] {
      var c := calls[0];
      TrueStoreKeeps(cfg, t, s, c);
      TrueRunKeeps(cfg, t, Store(cfg, s, c.piece, c.block, c.data), calls[1..]);
    }
  }

  /** A block that was there or is asked for is there in the end. */
  lemma {:induction false} TrueRunMarks(cfg: Config, t: Bytes, s: State, calls: seq<Call>, i: nat, b: nat)
    requires True(cfg, t, s) && Harmless(cfg) && TrueCalls(cfg, t, calls) && AllWritable(cfg, calls)
    requires Marked(s, i, b) || Asked(calls, i, b)
    ensures Marked(Run(cfg, s, calls), i, b)
    decreases |calls|
  {
    if calls != [] {
      var c := calls[0];
      TrueStoreKeeps(cfg, t, s, c);
      if !Marked(s, i, b) { AskedLater(calls, i, b); }
      TrueRunMarks(cfg, t, Store(cfg, s, c.piece, c.block, c.data), calls[1..], i, b);
    }
  }

  lemma AskedLater(calls: seq<Call>, i: nat, b: nat)
    requires Asked(calls, i, b) && calls != []
    ensures (calls[0].piece == i && calls[0].block == b) || Asked(calls[1..], i, b)
  {
    var k :| 0 <= k < |calls| && calls[k].piece == i && calls[k].block == b;
    if k > 0 { assert calls[1..][k - 1] == calls[k]; }
  }

  lemma StartsTrue(cfg: Config, t: Bytes, disk: Bytes)
    requires TrueContents(cfg, t) && |disk| == cfg.total
    ensures True(cfg, t, Init(cfg, disk))
  {
    InitLayout(cfg, disk);
    var s := Init(cfg, disk);
    forall i | 0 <= i < |s.pieces| ensures !s.pieces[i].HasAllBlocks() {
      PieceBounds(cfg, i);
      NumBlocksIsCeiling(Len(cfg, i));
      assert !s.pieces[i].blocks[0].done;
    }
  }

  lemma AllMarkedIsWhole(cfg: Config, t: Bytes, s: State)
    requires True(cfg, t, s) && forall i: nat, b: nat :: IsBlock(cfg, i, b) ==> Marked(s, i, b)
    ensures IsComplete(s.pieces) && s.disk == t
  {
    forall i | 0 <= i < |s.pieces| ensures s.pieces[i].done {
      forall b | 0 <= b < |s.pieces[i].blocks| ensures s.pieces[i].blocks[b].done {
        IsBlockIff(cfg, s, i, b);
        assert Marked(s, i, b);
      }
    }
    forall g | 0 <= g < cfg.total ensures s.disk[g] == t[g] {
      ByteIsInSomePiece(cfg.total, cfg.pieceLength, |cfg.shas|, g);
      var i := g / cfg.pieceLength;
      PieceHoldsByte(cfg.total, cfg.pieceLength, |cfg.shas|, g, i);
      forall b: nat | IsBlock(cfg, i, b) ensures Holds(cfg, t, s.disk, i, b) { assert Marked(s, i, b); }
      ByteInBlock(cfg, t, s.disk, i, g - Off(cfg, i));
    }
  }

  // ---- The theorem ----

  /** The state after true calls, from files with any contents. */
  ghost function TrueRun(cfg: Config, t: Bytes, disk: Bytes, calls: seq<Call>): (r: State)
    requires TrueContents(cfg, t) && |disk| == cfg.total && TrueCalls(cfg, t, calls)
    ensures Layout(cfg, r)
  {
    InitLayout(cfg, disk);
    TrueAreStorable(cfg, t, calls);
    Run(cfg, Init(cfg, disk), calls)
  }

  /** True calls that cover all blocks download the torrent: every piece is complete, the disk is the
      contents, every file that is not empty has its name, and the end has been announced once. */
  lemma TrueRunDownloads(cfg: Config, t: Bytes, disk: Bytes, calls: seq<Call>)
    requires TrueContents(cfg, t) && Harmless(cfg) && |disk| == cfg.total
    requires TrueCalls(cfg, t, calls) && Covers(cfg, calls)
    ensures var r := TrueRun(cfg, t, disk, calls);
            && IsComplete(r.pieces) && r.disk == t && Tally(r.events, AllOver) == 1
            && |r.paths| == |cfg.names| && |cfg.offsets| == |cfg.names| + 1
            && forall f :: 0 <= f < |cfg.names| && NonEmpty(cfg, f) ==> r.paths[f] == cfg.names[f]
  {
    StartsTrue(cfg, t, disk);
    TrueRunKeeps(cfg, t, Init(cfg, disk), calls);
    var r := TrueRun(cfg, t, disk, calls);
    forall i: nat, b: nat | IsBlock(cfg, i, b) ensures Marked(r, i, b) {
      TrueRunMarks(cfg, t, Init(cfg, disk), calls, i, b);
    }
    AllMarkedIsWhole(cfg, t, r);
    EveryRunIsAnnounced(cfg, disk, calls);
    forall f | 0 <= f < |cfg.names| && NonEmpty(cfg, f) ensures r.paths[f] == cfg.names[f] {
      AllFilesFinished(cfg, r, f);
    }
  }

  ghost predicate AlwaysDownloads(cfg: Config, t: Bytes)
    requires TrueContents(cfg, t)
  {
    forall disk, calls :: |disk| == cfg.total && TrueCalls(cfg, t, calls) && Covers(cfg, calls) ==>
      IsComplete(TrueRun(cfg, t, disk, calls).pieces) && TrueRun(cfg, t, disk, calls).disk == t
  }

  /** Every such run ends with the true contents exactly when line 130 is in its meant form or no piece has
      a second block; as written, a piece is complete after its first block and the others are dropped. */
  lemma AlwaysDownloadsIff(cfg: Config, t: Bytes)
    requires TrueContents(cfg, t)
    ensures AlwaysDownloads(cfg, t) <==> Harmless(cfg)
  {
    if Harmless(cfg) {
      forall disk, calls | |disk| == cfg.total && TrueCalls(cfg, t, calls) && Covers(cfg, calls)
        ensures IsComplete(TrueRun(cfg, t, disk, calls).pieces) && TrueRun(cfg, t, disk, calls).disk == t
      {
        TrueRunDownloads(cfg, t, disk, calls);
      }
    } else {
      var p :| 0 <= p < |cfg.shas| && Len(cfg, p) > BLOCK_SIZE;
      NumBlocksIsCeiling(Len(cfg, p));
      BlockBounds(cfg, p, 1);
      var at := From(cfg, p, 1);
      var other: byte := if t[at] == 0 then 1 else 0;
      SecondBlockIsDropped(cfg, t, t[at := other], p);
    }
  }

  lemma SecondBlockIsDropped(cfg: Config, t: Bytes, disk: Bytes, p: nat)
    requires TrueContents(cfg, t) && cfg.asWritten && p < |cfg.shas| && Len(cfg, p) > BLOCK_SIZE
    requires |disk| == cfg.total && From(cfg, p, 1) < cfg.total && disk[From(cfg, p, 1)] != t[From(cfg, p, 1)]
    ensures exists calls :: TrueCalls(cfg, t, calls) && Covers(cfg, calls) && TrueRun(cfg, t, disk, calls).disk != t
  {
    NumBlocksIsCeiling(Len(cfg, p));
    var first := Call(p, 0, TrueBlock(cfg, t, p, 0));
    FirstThenAll(cfg, t, first);
    FirstBlockIsKept(cfg, t, disk, p, CallsUpTo(cfg, t, |cfg.shas|));
    assert TrueRun(cfg, t, disk, [first] + CallsUpTo(cfg, t, |cfg.shas|)).disk != t;
  }

  lemma FirstBlockIsKept(cfg: Config, t: Bytes, disk: Bytes, p: nat, later: seq<Call>)
    requires TrueContents(cfg, t) && cfg.asWritten && IsBlock(cfg, p, 0) && IsBlock(cfg, p, 1) && |disk| == cfg.total
    requires TrueCalls(cfg, t, later) && TrueCalls(cfg, t, [Call(p, 0, TrueBlock(cfg, t, p, 0))] + later)
    ensures From(cfg, p, 1) < cfg.total
    ensures TrueRun(cfg, t, disk, [Call(p, 0, TrueBlock(cfg, t, p, 0))] + later).disk[From(cfg, p, 1)]
         == disk[From(cfg, p, 1)]
  {
    var first := Call(p, 0, TrueBlock(cfg, t, p, 0));
    FirstBlockCompletes(cfg, t, disk, p);
    TrueAreStorable(cfg, t, [first] + later);
    TrueAreStorable(cfg, t, later);
    RunStep(cfg, Init(cfg, disk), first, later);
    BlockBounds(cfg, p, 1);
    ByteIsFinal(cfg, Store(cfg, Init(cfg, disk), p, 0, first.data), later, p, BLOCK_SIZE);
  }

  lemma RunStep(cfg: Config, s: State, first: Call, later: seq<Call>)
    requires Layout(cfg, s) && AllWritable(cfg, [first] + later) && AllWritable(cfg, later)
    requires Writable(cfg, first.piece, first.block, first.data)
    ensures Layout(cfg, Store(cfg, s, first.piece, first.block, first.data))
    ensures Run(cfg, s, [first] + later) == Run(cfg, Store(cfg, s, first.piece, first.block, first.data), later)
  {
    StoreEffects(cfg, s, first.piece, first.block, first.data);
    assert ([first] + later)[1..] == later;
  }

  lemma FirstThenAll(cfg: Config, t: Bytes, first: Call)
    requires Buildable(cfg) && |t| == cfg.total && TrueCall(cfg, t, first)
    ensures TrueCalls(cfg, t, CallsUpTo(cfg, t, |cfg.shas|))
    ensures var calls := [first] + CallsUpTo(cfg, t, |cfg.shas|); TrueCalls(cfg, t, calls) && Covers(cfg, calls)
  {
    var later := CallsUpTo(cfg, t, |cfg.shas|);
    var calls := [first] + later;
    UpToAreTrue(cfg, t, |cfg.shas|);
    forall k | 0 <= k < |calls| ensures TrueCall(cfg, t, calls[k]) {
      if k > 0 { assert calls[k] == later[k - 1]; }
    }
    forall i: nat, b: nat | IsBlock(cfg, i, b) ensures Asked(calls, i, b) { AskedAfter([first], later, i, b); }
  }

  lemma ByteIsFinal(cfg: Config, s: State, calls: seq<Call>, p: nat, x: nat)
    requires Layout(cfg, s) && AllStorable(cfg, calls) && p < |s.pieces| && s.pieces[p].done && x < Len(cfg, p)
    ensures Off(cfg, p) + x < |s.disk| == |Run(cfg, s, calls).disk|
    ensures Run(cfg, s, calls).disk[Off(cfg, p) + x] == s.disk[Off(cfg, p) + x]
  {
    CompletedIsFinalInRuns(cfg, s, calls, p);
    RangeAt(s.disk, s.pieces[p], x);
    RangeAt(Run(cfg, s, calls).disk, s.pieces[p], x);
  }

  lemma RangeAt(disk: Bytes, piece: Piece, x: nat)
    requires piece.offset + piece.length <= |disk| && x < piece.length
    ensures Range(disk, piece)[x] == disk[piece.offset + x]
  {
  }

  lemma FirstBlockCompletes(cfg: Config, t: Bytes, disk: Bytes, p: nat)
    requires TrueContents(cfg, t) && cfg.asWritten && IsBlock(cfg, p, 0) && IsBlock(cfg, p, 1) && |disk| == cfg.total
    ensures Layout(cfg, Init(cfg, disk)) && Storable(cfg, p, 0, TrueBlock(cfg, t, p, 0))
    ensures var r := Store(cfg, Init(cfg, disk), p, 0, TrueBlock(cfg, t, p, 0));
            && Layout(cfg, r) && r.pieces[p].done
            && From(cfg, p, 1) < cfg.total && r.disk[From(cfg, p, 1)] == disk[From(cfg, p, 1)]
  {
    var s, data := Init(cfg, disk), TrueBlock(cfg, t, p, 0);
    InitLayout(cfg, disk);
    InitPieces(cfg, p);
    TrueIsStorable(cfg, t, Call(p, 0, data));
    BlockBounds(cfg, p, 0);
    BlockBounds(cfg, p, 1);
    StoreEffects(cfg, s, p, 0, data);
    assert !s.pieces[p].blocks[0].done && !s.pieces[p].blocks[1].done;
    var at := From(cfg, p, 1);
    OtherBytesKept(cfg, s, p, 0, data, at, at + 1);
    assert Store(cfg, s, p, 0, data).disk[at..at + 1][0] == s.disk[at..at + 1][0];
  }

  // ---- There are such runs ----

  ghost function BlocksUpTo(cfg: Config, t: Bytes, i: nat, n: nat): seq<Call>
    requires Buildable(cfg) && |t| == cfg.total && i < |cfg.shas| && 0 <= Len(cfg, i) && n <= NumBlocks(Len(cfg, i))
  {
    if n == 0 then []
    else BlocksUpTo(cfg, t, i, n - 1) + [Call(i, n - 1, TrueBlock(cfg, t, i, n - 1))]
  }

  ghost function CallsUpTo(cfg: Config, t: Bytes, n: nat): seq<Call>
    requires Buildable(cfg) && |t| == cfg.total && n <= |cfg.shas|
  {
    if n == 0 then []
    else
      PieceBounds(cfg, n - 1);
      NumBlocksIsCeiling(Len(cfg, n - 1));
      CallsUpTo(cfg, t, n - 1) + BlocksUpTo(cfg, t, n - 1, NumBlocks(Len(cfg, n - 1)))
  }

  lemma AskedAfter(before: seq<Call>, calls: seq<Call>, i: nat, b: nat)
    ensures Asked(before, i, b) || Asked(calls, i, b) ==> Asked(before + calls, i, b)
  {
    if Asked(before, i, b) {
      var k :| 0 <= k < |before| && before[k].piece == i && before[k].block == b;
      assert (before + calls)[k] == before[k];
    } else if Asked(calls, i, b) {
      var k :| 0 <= k < |calls| && calls[k].piece == i && calls[k].block == b;
      assert (before + calls)[|before| + k] == calls[k];
    }
  }

  lemma {:induction false} BlocksUpToAreTrue(cfg: Config, t: Bytes, i: nat, n: nat)
    requires Buildable(cfg) && |t| == cfg.total && i < |cfg.shas| && 0 <= Len(cfg, i) && n <= NumBlocks(Len(cfg, i))
    ensures TrueCalls(cfg, t, BlocksUpTo(cfg, t, i, n))
    ensures forall b: nat :: b < n ==> Asked(BlocksUpTo(cfg, t, i, n), i, b)
  {
    if n > 0 {
      BlocksUpToAreTrue(cfg, t, i, n - 1);
      var before, c := BlocksUpTo(cfg, t, i, n - 1), Call(i, n - 1, TrueBlock(cfg, t, i, n - 1));
      forall b: nat | b < n ensures Asked(before + [c], i, b) {
        assert [c][0] == c;
        AskedAfter(before, [c], i, b);
      }
    }
  }

  /** Asking for the blocks one after the other is a run that covers them. */
  lemma {:induction false} UpToAreTrue(cfg: Config, t: Bytes, n: nat)
    requires Buildable(cfg) && |t| == cfg.total && n <= |cfg.shas|
    ensures TrueCalls(cfg, t, CallsUpTo(cfg, t, n))
    ensures forall i: nat, b: nat :: i < n && IsBlock(cfg, i, b) ==> Asked(CallsUpTo(cfg, t, n), i, b)
  {
    if n > 0 {
      UpToAreTrue(cfg, t, n - 1);
      PieceBounds(cfg, n - 1);
      NumBlocksIsCeiling(Len(cfg, n - 1));
      var before, more := CallsUpTo(cfg, t, n - 1), BlocksUpTo(cfg, t, n - 1, NumBlocks(Len(cfg, n - 1)));
      BlocksUpToAreTrue(cfg, t, n - 1, NumBlocks(Len(cfg, n - 1)));
      forall k | 0 <= k < |before + more| ensures TrueCall(cfg, t, (before + more)[k]) {
        assert (before + more)[k] == if k < |before| then before[k] else more[k - |before|];
      }
      forall i: nat, b: nat | i < n && IsBlock(cfg, i, b) ensures Asked(before + more, i, b) {
        AskedAfter(before, more, i, b);
      }
    }
  }
}
