/** The download state machine of download.rs over the flat byte space. SHA-1 is a parameter, and so is
    whether line 130 stands as written: it marks a piece complete after any of its blocks, where only a
    successful `verify` is meant to. */
module DownloadModel {
  import opened ByteStrings
  import opened FileLayout
  import opened FlatFiles
  import opened Pieces
  import opened Sha1Hash

  datatype Config = Config(
    total: nat, pieceLength: nat, shas: seq<Sha1>,
    offsets: seq<nat>, names: seq<string>,
    sha1: Bytes -> Sha1, asWritten: bool)

  datatype Event =
    | FileFinish(file: nat, path: string)
    | BlockCompleted(piece: nat, block: nat)
    | PieceCompleted(piece: nat)
    | DownloadCompleted

  datatype State = State(disk: Bytes, pieces: seq<Piece>, paths: seq<string>, events: seq<Event>)

  const TEMP: string := ".temp"

  /** What `create_files` and `create_pieces` set up. */
  ghost predicate Creatable(cfg: Config) {
    && ValidOffsets(cfg.offsets) && Total(cfg.offsets) == cfg.total && |cfg.names| == |cfg.offsets| - 1
    && cfg.shas != [] && CountFits(cfg.total, cfg.pieceLength, |cfg.shas|)
  }

  /** And no piece length is cut to 32 bits. */
  ghost predicate Buildable(cfg: Config) {
    Creatable(cfg) && LengthsFitU32(cfg.total, cfg.pieceLength, |cfg.shas|)
  }

  /** And line 161 never subtracts one from zero. */
  ghost predicate WellFormed(cfg: Config) {
    Buildable(cfg) && StartsWithBytes(cfg.offsets)
  }

  function Off(cfg: Config, i: nat): nat {
    i * cfg.pieceLength
  }

  function Len(cfg: Config, i: nat): int {
    PieceLength(cfg.total, cfg.pieceLength, |cfg.shas|, i)
  }

  /** A piece as created, but for its flags. */
  ghost predicate Shaped(cfg: Config, i: nat, p: Piece) {
    && p.length == Len(cfg, i) && p.offset == Off(cfg, i) && i < |cfg.shas| && p.hash == cfg.shas[i]
    && |p.blocks| == NumBlocks(p.length)
    && forall b :: 0 <= b < |p.blocks| ==>
         p.blocks[b].index == b && p.blocks[b].length == BlockAt(p.length, b).length
  }

  ghost predicate Layout(cfg: Config, s: State) {
    && WellFormed(cfg) && |s.disk| == cfg.total && |s.paths| == |cfg.names|
    && |s.pieces| == |cfg.shas| && forall i :: 0 <= i < |s.pieces| ==> Shaped(cfg, i, s.pieces[i])
  }

  // ---- Pieces and their bytes ----

  lemma PieceBounds(cfg: Config, i: nat)
    requires Buildable(cfg) && i < |cfg.shas|
    ensures 0 < Len(cfg, i) <= cfg.pieceLength && Len(cfg, i) < TWO_32 && Off(cfg, i) + Len(cfg, i) <= cfg.total
  {
    PieceHoldsByte(cfg.total, cfg.pieceLength, |cfg.shas|, 0, i);
  }

  lemma PiecesDisjoint(cfg: Config, i: nat, j: nat)
    requires Buildable(cfg) && i < j < |cfg.shas|
    ensures Off(cfg, i) + Len(cfg, i) <= Off(cfg, j)
  {
    Mul(i + 1, j, cfg.pieceLength);
  }

  /** `search_ptrs` splits what is written without a panic. */
  lemma BlockSplits(cfg: Config, p: nat, b: nat, data: Bytes)
    requires Buildable(cfg) && Writable(cfg, p, b, data)
    ensures Splittable(cfg.offsets, Off(cfg, p) + BLOCK_SIZE * b, |data|)
  {
    PieceBounds(cfg, p);
    NumBlocksIsCeiling(Len(cfg, p));
    SearchIndexFinds(cfg.offsets, Off(cfg, p) + BLOCK_SIZE * b);
  }

  function Range(disk: Bytes, p: Piece): Bytes
    requires p.offset + p.length <= |disk|
  {
    disk[p.offset..p.offset + p.length]
  }

  // ---- Files ----

  predicate EndsWithTemp(path: string) {
    |path| >= |TEMP| && path[|path| - |TEMP|..] == TEMP
  }

  predicate AllDone(pieces: seq<Piece>, low: nat, high: int) {
    forall i :: low <= i <= high && i < |pieces| ==> pieces[i].done
  }

  /** Lines 160 to 166: the pieces that the bytes of file `f` lie in are complete. */
  predicate FileComplete(cfg: Config, pieces: seq<Piece>, f: nat)
    requires cfg.pieceLength > 0 && f < |cfg.offsets| - 1
  {
    AllDone(pieces, cfg.offsets[f] / cfg.pieceLength, (cfg.offsets[f + 1] - 1) / cfg.pieceLength)
  }

  function RenameTempFile(s: State, f: nat): State
    requires f < |s.paths|
  {
    if EndsWithTemp(s.paths[f]) then
      var name := s.paths[f][..|s.paths[f]| - |TEMP|];
      s.(paths := s.paths[f := name], events := s.events + [FileFinish(f, name)])
    else s
  }

  function CheckFile(cfg: Config, s: State, f: nat): State
    requires cfg.pieceLength > 0 && f < |cfg.offsets| - 1 == |s.paths|
  {
    if FileComplete(cfg, s.pieces, f) then RenameTempFile(s, f) else s
  }

  /** The loop of `verify_file` over `n` files from `f`. */
  function CheckFiles(cfg: Config, s: State, f: nat, n: nat): State
    requires cfg.pieceLength > 0 && f + n <= |cfg.offsets| - 1 == |s.paths|
    decreases n
  {
    if n == 0 then s else CheckFiles(cfg, CheckFile(cfg, s, f), f + 1, n - 1)
  }

  function VerifyFile(cfg: Config, s: State, p: nat): State
    requires Layout(cfg, s) && p < |s.pieces|
  {
    PieceBounds(cfg, p);
    var (index, n) := FilesOf(cfg.offsets, s.pieces[p].offset, s.pieces[p].length);
    CheckFiles(cfg, s, index, n)
  }

  // ---- store ----

  /** A block of the torrent, with data that ends inside the total: anything else is a panic. */
  ghost predicate Writable(cfg: Config, p: nat, b: nat, data: Bytes) {
    && p < |cfg.shas| && 0 <= Len(cfg, p) && b < NumBlocks(Len(cfg, p))
    && Off(cfg, p) + BLOCK_SIZE * b + |data| <= cfg.total
  }

  /** The data even stays inside its piece. */
  ghost predicate Storable(cfg: Config, p: nat, b: nat, data: Bytes) {
    Writable(cfg, p, b, data) && BLOCK_SIZE * b + |data| <= Len(cfg, p)
  }

  function MarkBlock(piece: Piece, b: nat): Piece
    requires b < |piece.blocks|
  {
    piece.(blocks := piece.blocks[b := piece.blocks[b].(done := true)])
  }

  function ResetBlocks(piece: Piece): Piece {
    piece.(blocks := seq(|piece.blocks|, b requires 0 <= b < |piece.blocks| => piece.blocks[b].(done := false)))
  }

  predicate IsComplete(pieces: seq<Piece>) {
    forall i :: 0 <= i < |pieces| ==> pieces[i].done
  }

  /** The block is on disk and marked. */
  function WriteBlock(s: State, p: nat, b: nat, data: Bytes): State
    requires p < |s.pieces| && b < |s.pieces[p].blocks|
    requires s.pieces[p].offset + BLOCK_SIZE * b + |data| <= |s.disk|
  {
    s.(disk := Splice(s.disk, s.pieces[p].offset + BLOCK_SIZE * b, data),
       pieces := s.pieces[p := MarkBlock(s.pieces[p], b)])
  }

  /** What lines 135 to 146 announce, after the file checks. */
  function Told(pieces: seq<Piece>, p: nat, b: nat, events: seq<Event>): seq<Event>
    requires p < |pieces|
  {
    var e1 := events + [BlockCompleted(p, b)];
    var e2 := if pieces[p].done then e1 + [PieceCompleted(p)] else e1;
    if IsComplete(pieces) then e2 + [DownloadCompleted] else e2
  }

  /** The announcements of lines 132 to 146. */
  function Announce(cfg: Config, s: State, p: nat, b: nat): State
    requires Layout(cfg, s) && p < |s.pieces|
  {
    var s1 := VerifyFile(cfg, s, p);
    s1.(events := Told(s.pieces, p, b, s1.events))
  }

  predicate HashMatches(cfg: Config, disk: Bytes, piece: Piece)
    requires piece.offset + piece.length <= |disk|
  {
    cfg.sha1(Range(disk, piece)) == piece.hash
  }

  lemma WritePrecondition(cfg: Config, s: State, p: nat, b: nat, data: Bytes)
    requires Layout(cfg, s) && Writable(cfg, p, b, data)
    ensures p < |s.pieces| && b < |s.pieces[p].blocks|
    ensures s.pieces[p].offset + s.pieces[p].length <= |s.disk|
    ensures s.pieces[p].offset + BLOCK_SIZE * b + |data| <= |s.disk|
  {
    PieceBounds(cfg, p);
    assert Shaped(cfg, p, s.pieces[p]);
  }

  function Store(cfg: Config, s: State, p: nat, b: nat, data: Bytes): State
    requires Layout(cfg, s) && Writable(cfg, p, b, data)
  {
    WritePrecondition(cfg, s, p, b, data);
    if s.pieces[p].blocks[b].done || s.pieces[p].done then s
    else
      var s1 := WriteBlock(s, p, b, data);
      var piece := s1.pieces[p];
      if piece.HasAllBlocks() && !HashMatches(cfg, s1.disk, piece) then
        s1.(pieces := s1.pieces[p := ResetBlocks(piece)])
      else
        var s2 := s1.(pieces := s1.pieces[p := piece.(done := piece.HasAllBlocks() || cfg.asWritten)]);
        Announce(cfg, s2, p, b)
  }

  // ---- Queries ----

  function MissingFrom(blocks: seq<Block>): seq<(nat, nat)> {
    if blocks == [] then []
    else (if blocks[0].done then [] else [(blocks[0].index, blocks[0].length)]) + MissingFrom(blocks[1..])
  }

  function IncompleteBlocks(s: State, p: nat): seq<(nat, nat)>
    requires p < |s.pieces|
  {
    if s.pieces[p].done then [] else MissingFrom(s.pieces[p].blocks)
  }

  function HavePieces(s: State): seq<bool> {
    seq(|s.pieces|, i requires 0 <= i < |s.pieces| => s.pieces[i].done)
  }

  /** What becomes of a request for data; `Panic` is an index past a vector. */
  datatype Answer = Data(bytes: Bytes) | Incomplete | Panic

  function RetrieveData(cfg: Config, s: State, p: nat, offset: nat, length: nat): Answer
    requires Layout(cfg, s)
  {
    if p >= |s.pieces| then Panic
    else if !s.pieces[p].done then Incomplete
    else if !Splittable(cfg.offsets, s.pieces[p].offset + offset, length) then Panic
    else Data(s.disk[s.pieces[p].offset + offset..s.pieces[p].offset + offset + length])
  }

  // ---- Runs ----

  function Init(cfg: Config, disk: Bytes): State
    requires Creatable(cfg)
  {
    State(disk, PiecesOf(cfg.total, cfg.pieceLength, cfg.shas),
          seq(|cfg.names|, f requires 0 <= f < |cfg.names| => cfg.names[f] + TEMP), [])
  }

  datatype Call = Call(piece: nat, block: nat, data: Bytes)
}
