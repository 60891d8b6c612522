/** What the download announces over a run: pieces, files and the end, each once and at its time. These
    hold whether line 130 stands as written or not. */
module AnnouncementLaws {
  import opened ByteStrings
  import opened FileLayout
  import opened Pieces
  import opened DownloadModel
  import opened DownloadLaws

  /** What an event is about. */
  datatype Kind = Finished(file: nat) | BlockDone(piece: nat, block: nat) | PieceDone(piece: nat) | AllOver

  function KindOf(e: Event): Kind {
    match e
    case FileFinish(f, _) => Finished(f)
    case BlockCompleted(p, b) => BlockDone(p, b)
    case PieceCompleted(p) => PieceDone(p)
    case DownloadCompleted => AllOver
  }

  /** How often something has been announced. */
  function Tally(events: seq<Event>, kind: Kind): nat {
    if events == [] then 0
    else Tally(events[..|events| - 1], kind) + if KindOf(events[|events| - 1]) == kind then 1 else 0
  }

  lemma TallyAdd(events: seq<Event>, e: Event, kind: Kind)
    ensures Tally(events + [e], kind) == Tally(events, kind) + if KindOf(e) == kind then 1 else 0
  {
    assert (events + [e])[..|events|] == events;
  }

  // ---- Files ----

  ghost predicate NonEmpty(cfg: Config, f: nat)
    requires f + 1 < |cfg.offsets|
  {
    cfg.offsets[f] < cfg.offsets[f + 1]
  }

  ghost predicate Overlaps(cfg: Config, p: nat, f: nat)
    requires f + 1 < |cfg.offsets|
  {
    cfg.offsets[f] < Off(cfg, p) + Len(cfg, p) && Off(cfg, p) < cfg.offsets[f + 1]
  }

  /** The pieces that `verify_file` looks at are exactly those that share a byte with the file. */
  lemma FilePiecesOverlap(cfg: Config, f: nat, i: nat)
    requires WellFormed(cfg) && f < |cfg.names| && NonEmpty(cfg, f) && i < |cfg.shas|
    ensures cfg.pieceLength > 0
    ensures cfg.offsets[f] / cfg.pieceLength <= i <= (cfg.offsets[f + 1] - 1) / cfg.pieceLength
       <==> Overlaps(cfg, i, f)
  {
    var first, last := cfg.offsets[f], cfg.offsets[f + 1] - 1;
    assert cfg.offsets[f + 1] <= cfg.total;
    PieceBounds(cfg, i);
    PieceHoldsByte(cfg.total, cfg.pieceLength, |cfg.shas|, first, i);
    PieceHoldsByte(cfg.total, cfg.pieceLength, |cfg.shas|, last, i);
    QuotientOrder(first, Off(cfg, i), cfg.pieceLength, i);
    QuotientOrder(last, Off(cfg, i), cfg.pieceLength, i);
  }

  lemma QuotientOrder(x: nat, y: nat, d: nat, i: nat)
    requires d > 0 && y == i * d
    ensures i <= x / d <==> y <= x
    ensures x / d < i <==> x < y
  {
    if y <= x { Quotient(x, d, i); } else if i <= x / d { Mul(i, x / d, d); }
  }

  lemma Quotient(x: nat, d: nat, i: nat)
    requires d > 0 && i * d <= x
    ensures i <= x / d
  {
    if x / d < i { Mul(x / d + 1, i, d); }
  }

  /** For a file that is visited, line 161 does not underflow and line 163 does not panic. */
  lemma FilePiecesExist(cfg: Config, p: nat, f: nat)
    requires WellFormed(cfg) && p < |cfg.shas|
    requires 0 <= Len(cfg, p) && Visited(cfg.offsets, Off(cfg, p), Len(cfg, p), f)
    ensures f < |cfg.names| && 0 < cfg.offsets[f + 1] && cfg.pieceLength > 0
    ensures (cfg.offsets[f + 1] - 1) / cfg.pieceLength < |cfg.shas|
    ensures cfg.offsets[f] / cfg.pieceLength <= (cfg.offsets[f + 1] - 1) / cfg.pieceLength + 1
  {
    VisitedEndsLater(cfg.offsets, Off(cfg, p), Len(cfg, p), f);
    assert cfg.offsets[f + 1] <= cfg.total && cfg.offsets[f] <= cfg.offsets[f + 1];
    ByteIsInSomePiece(cfg.total, cfg.pieceLength, |cfg.shas|, cfg.offsets[f + 1] - 1);
    QuotientStep(cfg.offsets[f], cfg.offsets[f + 1] - 1, cfg.pieceLength);
  }

  lemma QuotientGrows(x: nat, y: nat, d: nat)
    requires d > 0 && x <= y
    ensures x / d <= y / d
  {
    if x / d > y / d { Mul(y / d + 1, x / d, d); }
  }

  lemma QuotientStep(x: nat, y: nat, d: nat)
    requires d > 0 && x <= y + 1
    ensures x / d <= y / d + 1
  {
    if x / d > y / d + 1 { Mul(y / d + 2, x / d, d); }
  }

  /** A file that is not empty overlaps a piece. */
  lemma FileHasPiece(cfg: Config, f: nat)
    requires WellFormed(cfg) && f < |cfg.names| && NonEmpty(cfg, f)
    ensures cfg.pieceLength > 0
    ensures 0 <= cfg.offsets[f] / cfg.pieceLength < |cfg.shas|
    ensures cfg.offsets[f] / cfg.pieceLength <= (cfg.offsets[f + 1] - 1) / cfg.pieceLength
  {
    assert cfg.offsets[f] < cfg.offsets[f + 1] <= cfg.total;
    ByteIsInSomePiece(cfg.total, cfg.pieceLength, |cfg.shas|, cfg.offsets[f]);
    QuotientGrows(cfg.offsets[f], cfg.offsets[f + 1] - 1, cfg.pieceLength);
  }

  function Stripped(path: string): string {
    if EndsWithTemp(path) then path[..|path| - |TEMP|] else path
  }

  /** What the file checks do to file `g`: renamed once if it is among them and complete. */
  lemma {:induction false} CheckFilesAt(cfg: Config, s: State, f: nat, n: nat, g: nat)
    requires cfg.pieceLength > 0 && f + n <= |cfg.offsets| - 1 == |s.paths| && g < |s.paths|
    ensures var r := CheckFiles(cfg, s, f, n);
            var hit := f <= g < f + n && FileComplete(cfg, s.pieces, g) && EndsWithTemp(s.paths[g]);
            && |r.paths| == |s.paths|
            && r.paths[g] == (if hit then Stripped(s.paths[g]) else s.paths[g])
            && Tally(r.events, Finished(g)) == Tally(s.events, Finished(g)) + if hit then 1 else 0
    decreases n
  {
    if n > 0 {
      var s1 := CheckFile(cfg, s, f);
      CheckFilesAt(cfg, s1, f + 1, n - 1, g);
      if s1 != s { TallyAdd(s.events, FileFinish(f, Stripped(s.paths[f])), Finished(g)); }
    }
  }

  /** The file checks announce nothing but files, after what was announced before. */
  lemma {:induction false} CheckFilesOnlyFinish(cfg: Config, s: State, f: nat, n: nat)
    requires cfg.pieceLength > 0 && f + n <= |cfg.offsets| - 1 == |s.paths|
    ensures s.events <= CheckFiles(cfg, s, f, n).events
    ensures forall e :: e in CheckFiles(cfg, s, f, n).events[|s.events|..] ==> e.FileFinish?
    ensures forall kind: Kind :: !kind.Finished? ==>
              Tally(CheckFiles(cfg, s, f, n).events, kind) == Tally(s.events, kind)
    decreases n
  {
    if n > 0 {
      var s1 := CheckFile(cfg, s, f);
      CheckFilesOnlyFinish(cfg, s1, f + 1, n - 1);
      var r := CheckFiles(cfg, s, f, n);
      if s1 != s {
        var e := FileFinish(f, Stripped(s.paths[f]));
        forall kind: Kind ensures Tally(s1.events, kind) == Tally(s.events, kind) + if KindOf(e) == kind then 1 else 0 {
          TallyAdd(s.events, e, kind);
        }
        assert r.events[|s.events|..] == [e] + r.events[|s1.events|..];
      }
    }
  }

  // ---- The invariant ----

  /** A file that is not empty is finished, once, exactly when every piece that overlaps it is complete,
      and then it has lost its temporary name. */
  ghost predicate FileTold(cfg: Config, s: State, f: nat)
    requires Layout(cfg, s) && f < |cfg.names|
  {
    PieceBounds(cfg, 0);
    var complete := FileComplete(cfg, s.pieces, f);
    && Tally(s.events, Finished(f)) == (if complete then 1 else 0)
    && s.paths[f] == if complete then cfg.names[f] else cfg.names[f] + TEMP
  }

  /** The end is announced after every piece. */
  ghost predicate EndComesLast(n: nat, events: seq<Event>) {
    forall j, i :: 0 <= j < |events| && events[j] == DownloadCompleted && 0 <= i < n ==>
      PieceCompleted(i) in events[..j]
  }

  ghost predicate PiecesTold(pieces: seq<Piece>, events: seq<Event>) {
    && (forall i :: 0 <= i < |pieces| ==> Tally(events, PieceDone(i)) == if pieces[i].done then 1 else 0)
    && Tally(events, AllOver) == if IsComplete(pieces) then 1 else 0
  }

  ghost predicate Announced(cfg: Config, s: State) {
    && Layout(cfg, s) && PiecesTold(s.pieces, s.events) && EndComesLast(|s.pieces|, s.events)
    && forall f :: 0 <= f < |cfg.names| && NonEmpty(cfg, f) ==> FileTold(cfg, s, f)
  }

  lemma {:induction false} TallyFinds(events: seq<Event>, e: Event)
    requires e.PieceCompleted? || e.DownloadCompleted?
    ensures Tally(events, KindOf(e)) > 0 <==> e in events
  {
    if events != [] {
      TallyFinds(events[..|events| - 1], e);
      assert events == events[..|events| - 1] + [events[|events| - 1]];
    }
  }

  lemma EndStaysLast(n: nat, events: seq<Event>, e: Event)
    requires EndComesLast(n, events)
    requires e.DownloadCompleted? ==> forall i :: 0 <= i < n ==> PieceCompleted(i) in events
    ensures EndComesLast(n, events + [e])
  {
    var all := events + [e];
    forall j, i | 0 <= j < |all| && all[j] == DownloadCompleted && 0 <= i < n
      ensures PieceCompleted(i) in all[..j]
    {
      if j < |events| { assert all[..j] == events[..j]; } else { assert all[..j] == events; }
    }
  }

  /** Events about files leave the rest of the story as it is. */
  lemma {:induction false} EndStaysLastAll(n: nat, events: seq<Event>, more: seq<Event>)
    requires EndComesLast(n, events) && forall e :: e in more ==> e.FileFinish?
    ensures EndComesLast(n, events + more)
    decreases |more|
  {
    if more == [] {
      assert events + more == events;
    } else {
      assert more[0] in more && more[0].FileFinish?;
      EndStaysLast(n, events, more[0]);
      EndStaysLastAll(n, events + [more[0]], more[1..]);
      assert events + [more[0]] + more[1..] == events + more;
    }
  }

  lemma InitIsAnnounced(cfg: Config, disk: Bytes)
    requires WellFormed(cfg) && |disk| == cfg.total
    ensures Announced(cfg, Init(cfg, disk))
  {
    var s := Init(cfg, disk);
    InitLayout(cfg, disk);
    assert !s.pieces[0].done;
    forall f | 0 <= f < |cfg.names| && NonEmpty(cfg, f) ensures FileTold(cfg, s, f) {
      FileHasPiece(cfg, f);
      assert !s.pieces[cfg.offsets[f] / cfg.pieceLength].done;
    }
  }

  // ---- One call ----

  /** The files that `verify_file` looks at for a piece, of those that are not empty: the ones it overlaps. */
  lemma VerifyFileAt(cfg: Config, s: State, p: nat, f: nat)
    requires Layout(cfg, s) && p < |s.pieces| && f < |cfg.names| && NonEmpty(cfg, f)
    ensures cfg.pieceLength > 0
    ensures var r := VerifyFile(cfg, s, p);
            var hit := Overlaps(cfg, p, f) && FileComplete(cfg, s.pieces, f) && EndsWithTemp(s.paths[f]);
            && |r.paths| == |s.paths|
            && r.paths[f] == (if hit then Stripped(s.paths[f]) else s.paths[f])
            && Tally(r.events, Finished(f)) == Tally(s.events, Finished(f)) + if hit then 1 else 0
  {
    PieceBounds(cfg, p);
    var (index, n) := FilesOf(cfg.offsets, s.pieces[p].offset, s.pieces[p].length);
    SplitVisits(cfg.offsets, s.pieces[p].offset, s.pieces[p].length, f);
    CheckFilesAt(cfg, s, index, n, f);
  }

  lemma VerifyFileOnlyFinishes(cfg: Config, s: State, p: nat)
    requires Layout(cfg, s) && p < |s.pieces|
    ensures s.events <= VerifyFile(cfg, s, p).events
    ensures forall e :: e in VerifyFile(cfg, s, p).events[|s.events|..] ==> e.FileFinish?
    ensures forall kind: Kind :: !kind.Finished? ==>
              Tally(VerifyFile(cfg, s, p).events, kind) == Tally(s.events, kind)
  {
    PieceBounds(cfg, p);
    var (index, n) := FilesOf(cfg.offsets, s.pieces[p].offset, s.pieces[p].length);
    CheckFilesOnlyFinish(cfg, s, index, n);
  }

  lemma StrippedTemp(name: string)
    ensures EndsWithTemp(name + TEMP) && Stripped(name + TEMP) == name
  {
  }

  /** Piece `p` was not complete; now the pieces are `after`. */
  ghost predicate OnePieceMoved(pieces: seq<Piece>, after: seq<Piece>, p: nat) {
    && p < |pieces| == |after| && !pieces[p].done
    && forall i :: 0 <= i < |pieces| && i != p ==> after[i].done == pieces[i].done
  }

  /** A piece that was not complete and now may be decides only about the files that it overlaps. */
  lemma CompleteAfter(cfg: Config, pieces: seq<Piece>, after: seq<Piece>, p: nat, f: nat)
    requires WellFormed(cfg) && |pieces| == |cfg.shas| && OnePieceMoved(pieces, after, p)
    requires f < |cfg.names| && NonEmpty(cfg, f)
    ensures cfg.pieceLength > 0
    ensures if Overlaps(cfg, p, f) then !FileComplete(cfg, pieces, f)
            else FileComplete(cfg, after, f) == FileComplete(cfg, pieces, f)
  {
    FileHasPiece(cfg, f);
    FilePiecesOverlap(cfg, f, p);
  }

  /** A file's state after the checks, when piece `p` was not complete before. */
  lemma FileToldAfter(cfg: Config, s: State, s2: State, p: nat, f: nat)
    requires Layout(cfg, s) && Layout(cfg, s2) && OnePieceMoved(s.pieces, s2.pieces, p)
    requires s2.paths == s.paths && s2.events == s.events
    requires f < |cfg.names| && NonEmpty(cfg, f) && FileTold(cfg, s, f)
    ensures Layout(cfg, VerifyFile(cfg, s2, p)) && FileTold(cfg, VerifyFile(cfg, s2, p), f)
  {
    CompleteAfter(cfg, s.pieces, s2.pieces, p, f);
    VerifyFileAt(cfg, s2, p, f);
    VerifyFileFrame(cfg, s2, p);
    StrippedTemp(cfg.names[f]);
  }

  lemma ToldTallies(pieces: seq<Piece>, p: nat, b: nat, events: seq<Event>, kind: Kind)
    requires p < |pieces|
    ensures Tally(Told(pieces, p, b, events), kind)
         == Tally(events, kind) + (if kind == BlockDone(p, b) then 1 else 0)
            + (if kind == PieceDone(p) && pieces[p].done then 1 else 0)
            + (if kind == AllOver && IsComplete(pieces) then 1 else 0)
  {
    var e1 := events + [BlockCompleted(p, b)];
    var e2 := if pieces[p].done then e1 + [PieceCompleted(p)] else e1;
    TallyAdd(events, BlockCompleted(p, b), kind);
    TallyAdd(e1, PieceCompleted(p), kind);
    TallyAdd(e2, DownloadCompleted, kind);
  }

  lemma PiecesToldAfter(pieces: seq<Piece>, after: seq<Piece>, p: nat, b: nat, events: seq<Event>, more: seq<Event>)
    requires PiecesTold(pieces, events) && OnePieceMoved(pieces, after, p)
    requires forall kind: Kind :: !kind.Finished? ==> Tally(more, kind) == Tally(events, kind)
    ensures PiecesTold(after, Told(after, p, b, more))
  {
    forall i | 0 <= i < |pieces|
      ensures Tally(Told(after, p, b, more), PieceDone(i)) == if after[i].done then 1 else 0
    {
      ToldTallies(after, p, b, more, PieceDone(i));
    }
    ToldTallies(after, p, b, more, AllOver);
  }

  lemma EndToldLast(pieces: seq<Piece>, after: seq<Piece>, p: nat, b: nat, events: seq<Event>, more: seq<Event>)
    requires PiecesTold(pieces, events) && OnePieceMoved(pieces, after, p)
    requires forall kind: Kind :: !kind.Finished? ==> Tally(more, kind) == Tally(events, kind)
    requires EndComesLast(|pieces|, more)
    ensures EndComesLast(|pieces|, Told(after, p, b, more))
  {
    var e1 := more + [BlockCompleted(p, b)];
    var e2 := if after[p].done then e1 + [PieceCompleted(p)] else e1;
    EndStaysLast(|pieces|, more, BlockCompleted(p, b));
    EndStaysLast(|pieces|, e1, PieceCompleted(p));
    if IsComplete(after) {
      forall i | 0 <= i < |pieces| ensures PieceCompleted(i) in e2 {
        assert i == p || Tally(events, PieceDone(i)) == 1;
        TallyAdd(more, BlockCompleted(p, b), PieceDone(i));
        TallyAdd(e1, PieceCompleted(p), PieceDone(i));
        TallyFinds(e2, PieceCompleted(i));
      }
      EndStaysLast(|pieces|, e2, DownloadCompleted);
    }
  }

  /** Every call keeps the story straight. */
  lemma StoreKeepsAnnounced(cfg: Config, s: State, p: nat, b: nat, data: Bytes)
    requires Announced(cfg, s) && Writable(cfg, p, b, data)
    ensures Announced(cfg, Store(cfg, s, p, b, data))
  {
    WritePrecondition(cfg, s, p, b, data);
    StoreEffects(cfg, s, p, b, data);
    if Held(s, p, b) {
      HeldChangesNothing(cfg, s, p, b, data);
    } else if FailedCheck(cfg, s, p, b, data) {
      FailedKeepsAnnounced(cfg, s, p, b, data);
    } else {
      NewsKeepsAnnounced(cfg, s, p, b, data);
    }
  }

  lemma FailedKeepsAnnounced(cfg: Config, s: State, p: nat, b: nat, data: Bytes)
    requires Announced(cfg, s) && Writable(cfg, p, b, data) && FailedCheck(cfg, s, p, b, data)
    ensures Announced(cfg, Store(cfg, s, p, b, data))
  {
    var r := Store(cfg, s, p, b, data);
    StoreEffects(cfg, s, p, b, data);
    FailedCheckStartsOver(cfg, s, p, b, data);
    assert forall i :: 0 <= i < |s.pieces| ==> r.pieces[i].done == s.pieces[i].done;
    forall f | 0 <= f < |cfg.names| && NonEmpty(cfg, f) ensures FileTold(cfg, r, f) {
      FileHasPiece(cfg, f);
      assert FileTold(cfg, s, f);
    }
  }

  lemma NewsKeepsAnnounced(cfg: Config, s: State, p: nat, b: nat, data: Bytes)
    requires Announced(cfg, s) && Writable(cfg, p, b, data) && News(cfg, s, p, b, data)
    ensures Announced(cfg, Store(cfg, s, p, b, data))
  {
    StoreIsAnnounce(cfg, s, p, b, data);
    AnnounceKeepsAnnounced(cfg, s, BeforeNews(cfg, s, p, b, data), p, b);
  }

  lemma AnnounceIsTold(cfg: Config, s: State, p: nat, b: nat)
    requires Layout(cfg, s) && p < |s.pieces|
    ensures var r, more := Announce(cfg, s, p, b), VerifyFile(cfg, s, p);
            && Layout(cfg, r) && Layout(cfg, more) && s.events <= more.events
            && r.events == Told(s.pieces, p, b, more.events)
            && r.paths == more.paths && r.pieces == more.pieces == s.pieces
  {
    VerifyFileFrame(cfg, s, p);
    VerifyFileOnlyFinishes(cfg, s, p);
  }

  lemma AnnounceKeepsFileTold(cfg: Config, s: State, s2: State, p: nat, b: nat, f: nat)
    requires Announced(cfg, s) && Layout(cfg, s2) && s2.paths == s.paths && s2.events == s.events
    requires OnePieceMoved(s.pieces, s2.pieces, p) && f < |cfg.names| && NonEmpty(cfg, f)
    ensures Layout(cfg, Announce(cfg, s2, p, b)) && FileTold(cfg, Announce(cfg, s2, p, b), f)
  {
    AnnounceIsTold(cfg, s2, p, b);
    FileToldAfter(cfg, s, s2, p, f);
    ToldTallies(s2.pieces, p, b, VerifyFile(cfg, s2, p).events, Finished(f));
  }

  lemma AnnounceKeepsPiecesTold(cfg: Config, s: State, s2: State, p: nat, b: nat)
    requires PiecesTold(s.pieces, s.events) && EndComesLast(|s.pieces|, s.events)
    requires Layout(cfg, s2) && s2.events == s.events && OnePieceMoved(s.pieces, s2.pieces, p)
    ensures PiecesTold(s2.pieces, Announce(cfg, s2, p, b).events)
    ensures EndComesLast(|s.pieces|, Announce(cfg, s2, p, b).events)
  {
    AnnounceIsTold(cfg, s2, p, b);
    VerifyFileOnlyFinishes(cfg, s2, p);
    var more := VerifyFile(cfg, s2, p).events;
    assert more == s.events + more[|s.events|..];
    EndStaysLastAll(|s.pieces|, s.events, more[|s.events|..]);
    PiecesToldAfter(s.pieces, s2.pieces, p, b, s.events, more);
    EndToldLast(s.pieces, s2.pieces, p, b, s.events, more);
  }

  lemma AnnounceKeepsAnnounced(cfg: Config, s: State, s2: State, p: nat, b: nat)
    requires Announced(cfg, s) && Layout(cfg, s2) && s2.paths == s.paths && s2.events == s.events
    requires OnePieceMoved(s.pieces, s2.pieces, p)
    ensures Announced(cfg, Announce(cfg, s2, p, b))
  {
    AnnounceIsTold(cfg, s2, p, b);
    AnnounceKeepsPiecesTold(cfg, s, s2, p, b);
    forall f | 0 <= f < |cfg.names| && NonEmpty(cfg, f) ensures FileTold(cfg, Announce(cfg, s2, p, b), f) {
      AnnounceKeepsFileTold(cfg, s, s2, p, b, f);
    }
  }

  /** A call only adds to what was announced; it announces complete pieces, and each newly complete one. */
  lemma StoreTells(cfg: Config, s: State, p: nat, b: nat, data: Bytes)
    requires Layout(cfg, s) && Writable(cfg, p, b, data)
    ensures var r := Store(cfg, s, p, b, data);
            && |r.pieces| == |s.pieces| && s.events <= r.events
            && (forall e :: e in r.events[|s.events|..] && e.PieceCompleted? ==>
                  e.piece < |r.pieces| && r.pieces[e.piece].done)
            && forall i :: 0 <= i < |s.pieces| && r.pieces[i].done && !s.pieces[i].done ==>
                 PieceCompleted(i) in r.events[|s.events|..]
  {
    StoreIsAnnounce(cfg, s, p, b, data);
    StoreEffects(cfg, s, p, b, data);
    WritePrecondition(cfg, s, p, b, data);
    var r, s2 := Store(cfg, s, p, b, data), BeforeNews(cfg, s, p, b, data);
    if News(cfg, s, p, b, data) {
      AnnounceTells(cfg, s2, p, b);
    } else {
      assert r.events[|s.events|..] == [];
    }
  }

  /** It announces its block, once, exactly if it stores it and the hash does not fail, and no other block. */
  lemma StoreTellsBlock(cfg: Config, s: State, p: nat, b: nat, data: Bytes, i: nat, k: nat)
    requires Layout(cfg, s) && Writable(cfg, p, b, data)
    ensures Tally(Store(cfg, s, p, b, data).events, BlockDone(i, k))
         == Tally(s.events, BlockDone(i, k)) + if News(cfg, s, p, b, data) && i == p && k == b then 1 else 0
  {
    StoreIsAnnounce(cfg, s, p, b, data);
    WritePrecondition(cfg, s, p, b, data);
    var s2 := BeforeNews(cfg, s, p, b, data);
    if News(cfg, s, p, b, data) {
      AnnounceIsTold(cfg, s2, p, b);
      VerifyFileOnlyFinishes(cfg, s2, p);
      ToldBlocks(s2.pieces, p, b, VerifyFile(cfg, s2, p).events, i, k);
    }
  }

  lemma ToldBlocks(pieces: seq<Piece>, p: nat, b: nat, events: seq<Event>, i: nat, k: nat)
    requires p < |pieces|
    ensures Tally(Told(pieces, p, b, events), BlockDone(i, k))
         == Tally(events, BlockDone(i, k)) + if i == p && k == b then 1 else 0
  {
    TallyAdd(events, BlockCompleted(p, b), BlockDone(i, k));
    var e1 := events + [BlockCompleted(p, b)];
    TallyAdd(e1, PieceCompleted(p), BlockDone(i, k));
    var e2 := if pieces[p].done then e1 + [PieceCompleted(p)] else e1;
    TallyAdd(e2, DownloadCompleted, BlockDone(i, k));
  }

  lemma ToldTells(pieces: seq<Piece>, p: nat, b: nat, events: seq<Event>, more: seq<Event>)
    requires p < |pieces| && events <= more && forall e :: e in more[|events|..] ==> e.FileFinish?
    ensures var r := Told(pieces, p, b, more);
            && events <= r
            && (forall e :: e in r[|events|..] && e.PieceCompleted? ==> e.piece == p && pieces[p].done)
            && (pieces[p].done ==> PieceCompleted(p) in r[|events|..])
  {
    var first, last := [BlockCompleted(p, b)], if IsComplete(pieces) then [DownloadCompleted] else [];
    var middle := if pieces[p].done then [PieceCompleted(p)] else [];
    assert Told(pieces, p, b, more)[|events|..] == more[|events|..] + first + middle + last;
  }

  lemma AnnounceTells(cfg: Config, s: State, p: nat, b: nat)
    requires Layout(cfg, s) && p < |s.pieces|
    ensures var r := Announce(cfg, s, p, b);
            && s.events <= r.events
            && (forall e :: e in r.events[|s.events|..] && e.PieceCompleted? ==> e.piece == p && s.pieces[p].done)
            && (s.pieces[p].done ==> PieceCompleted(p) in r.events[|s.events|..])
  {
    AnnounceIsTold(cfg, s, p, b);
    VerifyFileOnlyFinishes(cfg, s, p);
    ToldTells(s.pieces, p, b, s.events, VerifyFile(cfg, s, p).events);
  }
}
