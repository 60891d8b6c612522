/** No completion is lost and none is invented, the assertion in `connect` never fails, and what is uploaded
    is true, over all interleavings. */
module SwarmLaws {
  import opened ByteStrings
  import opened Pieces
  import opened Wire
  import opened PeerModel
  import opened PeerRequestLaws
  import PeerRuns
  import opened ManagerModel
  import opened PeerUploadLaws
  import opened BitfieldLaws
  import opened Swarm
  import D = DownloadModel
  import L = DownloadLaws
  import A = AnnouncementLaws
  import R = DownloadRuns

  // ---- Completions stay true ----

  /** Pieces that were complete still are. */
  ghost predicate Grown(dl: D.State, dl': D.State) {
    |dl'.pieces| == |dl.pieces| && forall p :: Done(dl, p) ==> Done(dl', p)
  }

  lemma TrueMessageGrows(dl: D.State, dl': D.State, m: Message)
    requires TrueMessage(dl, m) && Grown(dl, dl')
    ensures TrueMessage(dl', m)
  {
  }

  lemma TrueConnGrows(cfg: D.Config, dl: D.State, dl': D.State, c: Conn)
    requires TrueConn(cfg, dl, c) && Grown(dl, dl')
    ensures TrueConn(cfg, dl', c)
  {
    forall m | m in c.sent ensures TrueMessage(dl', m) { TrueMessageGrows(dl, dl', m); }
  }

  lemma TrueSlotGrows(cfg: D.Config, dl: D.State, dl': D.State, slot: Slot)
    requires TrueSlot(cfg, dl, slot) && Grown(dl, dl')
    ensures TrueSlot(cfg, dl', slot)
  {
    if slot.conn.Some? { TrueConnGrows(cfg, dl, dl', slot.conn.value); }
  }

  // ---- Bytes stay true ----

  /** The piece is as it was, with the same bytes. */
  ghost predicate Kept(dl: D.State, dl': D.State, p: nat)
    requires Done(dl, p) && |dl'.pieces| == |dl.pieces|
  {
    var piece := dl.pieces[p];
    && dl'.pieces[p] == piece && piece.offset + piece.length <= |dl.disk| == |dl'.disk|
    && D.Range(dl'.disk, piece) == D.Range(dl.disk, piece)
  }

  ghost predicate BytesKept(dl: D.State, dl': D.State) {
    |dl'.pieces| == |dl.pieces| && forall p :: Done(dl, p) ==> Kept(dl, dl', p)
  }

  lemma TrueUploadsStay(dl: D.State, dl': D.State, slot: Slot)
    requires TrueUploads(dl, slot) && BytesKept(dl, dl')
    ensures TrueUploads(dl', slot)
  {
    if slot.conn.Some? {
      forall m | m in slot.conn.value.sent && m.Piece? ensures TrueData(dl', m.index, m.offset, m.data) {
        assert TrueData(dl, m.index, m.offset, m.data) && Kept(dl, dl', m.index);
      }
    }
  }

  // ---- The download loop's answers ----

  lemma ListedIsReal(cfg: D.Config, p: nat, missing: seq<(U32, U32)>, i: nat)
    requires Listed(cfg, p, missing) && i < |missing|
    ensures RealBlock(Lengths(cfg), p, missing[i].0, missing[i].1)
  {
    var d: D.State :| D.Layout(cfg, d) && p < |d.pieces| && missing == D.IncompleteBlocks(d, p);
    R.ListedBlocksFit(cfg, d, p);
  }

  lemma AnswersAreGood(cfg: D.Config, dl: D.State, env: Env)
    requires D.Layout(cfg, dl) && FromDownload(cfg, dl, env)
    ensures GoodAnswers(Lengths(cfg), env)
  {
    forall p, i | p in env.missing && 0 <= i < |env.missing[p]|
      ensures RealBlock(Lengths(cfg), p, env.missing[p][i].0, env.missing[p][i].1)
    {
      ListedIsReal(cfg, p, env.missing[p], i);
    }
  }

  /** What the download loop serves is true. */
  lemma ServedIsTrue(cfg: D.Config, dl: D.State, r: Req)
    requires D.Layout(cfg, dl)
    ensures Served(cfg, dl, r).Some? ==> TrueData(dl, r.piece, r.offset, Served(cfg, dl, r).value)
  {
    if Served(cfg, dl, r).Some? {
      D.PieceBounds(cfg, r.piece);
      if r.offset + r.length <= dl.pieces[r.piece].length {
        R.SliceOfRange(dl.disk, dl.pieces[r.piece], r.offset, r.length);
      }
    }
  }

  lemma AnswerIsTrue(cfg: D.Config, dl: D.State, env: Env, m: Message)
    requires D.Layout(cfg, dl) && FromDownload(cfg, dl, env) && m.Piece? && Answers(env.data, m)
    ensures TrueData(dl, m.index, m.offset, m.data)
  {
    var r: Req :| r.piece == m.index && r.offset == m.offset && env.data(r) == Some(m.data);
    ServedIsTrue(cfg, dl, r);
  }

  lemma NewWordsAreTrue(cfg: D.Config, dl: D.State, c: Conn, ipc: Ipc, env: Env, m: Message)
    requires D.Layout(cfg, dl) && TrueIpc(dl, ipc)
    requires PeerModel.WellFormed(c, ipc) && EnvFits(c, ipc, env) && FromDownload(cfg, dl, env)
    requires c.sent <= Handle(c, ipc, env).sent && m in Handle(c, ipc, env).sent[|c.sent|..]
    ensures TrueMessage(dl, m)
  {
    HandleHas(c, ipc, env);
    if m.Piece? { AnswerIsTrue(cfg, dl, env, m); }
  }

  lemma WordsStayTrue(cfg: D.Config, dl: D.State, c: Conn, ipc: Ipc, env: Env)
    requires D.Layout(cfg, dl) && TrueIpc(dl, ipc) && forall m :: m in c.sent ==> TrueMessage(dl, m)
    requires PeerModel.WellFormed(c, ipc) && EnvFits(c, ipc, env) && FromDownload(cfg, dl, env)
    ensures forall m :: m in Handle(c, ipc, env).sent ==> TrueMessage(dl, m)
  {
    HandleHas(c, ipc, env);
    var r := Handle(c, ipc, env);
    assert r.sent == c.sent + r.sent[|c.sent|..];
    forall m | m in r.sent ensures TrueMessage(dl, m) {
      if m !in c.sent { NewWordsAreTrue(cfg, dl, c, ipc, env, m); }
    }
  }

  /** A connection's own step adds no false word. */
  lemma HandleStaysTrue(cfg: D.Config, dl: D.State, c: Conn, ipc: Ipc, env: Env)
    requires D.Layout(cfg, dl) && TrueConn(cfg, dl, c) && TrueIpc(dl, ipc)
    requires PeerModel.WellFormed(c, ipc) && EnvFits(c, ipc, env) && FromDownload(cfg, dl, env)
    ensures TrueConn(cfg, dl, Handle(c, ipc, env))
  {
    AnswersAreGood(cfg, dl, env);
    PeerRuns.HandleKeepsSound(Lengths(cfg), c, ipc, env);
    WordsStayTrue(cfg, dl, c, ipc, env);
    HandleHas(c, ipc, env);
  }

  /** And it uploads nothing false. */
  lemma HandleUploadsTrue(cfg: D.Config, dl: D.State, slot: Slot, ipc: Ipc, env: Env)
    requires D.Layout(cfg, dl) && slot.conn.Some? && TrueUploads(dl, slot)
    requires PeerModel.WellFormed(slot.conn.value, ipc) && EnvFits(slot.conn.value, ipc, env)
    requires FromDownload(cfg, dl, env)
    ensures TrueUploads(dl, slot.(conn := Some(Handle(slot.conn.value, ipc, env))))
  {
    var c := slot.conn.value;
    var r := Handle(c, ipc, env);
    HandleHas(c, ipc, env);
    assert r.sent == c.sent + r.sent[|c.sent|..];
    forall m | m in r.sent && m.Piece? ensures TrueData(dl, m.index, m.offset, m.data) {
      if m !in c.sent {
        assert m in r.sent[|c.sent|..];
        AnswerIsTrue(cfg, dl, env, m);
      }
    }
  }

  lemma StartIsTrue(cfg: D.Config, dl: D.State)
    ensures TrueConn(cfg, dl, Start(D.HavePieces(dl)))
  {
    PeerRuns.StartIsSound(Lengths(cfg), D.HavePieces(dl));
    var have := D.HavePieces(dl);
    forall k | 0 <= k < 8 * |PackBits(have)| && BitAt(PackBits(have), k) ensures Done(dl, k) {
      PackedBit(have, k);
    }
  }

  // ---- One slot changes ----

  /** Slot `id` is replaced by one in which whatever had reached it still has. */
  lemma SlotChange(cfg: D.Config, s: System, id: nat, slot: Slot)
    requires Inv(cfg, s) && id < |s.slots| && TrueSlot(cfg, s.dl, slot)
    requires s.inside ==> TrueUploads(s.dl, slot)
    requires slot.open ==> s.slots[id].open
    requires slot.open && slot.conn.Some? ==>
               forall p :: Done(s.dl, p) ==> Reached(slot, p) || (s.slots[id].conn.Some? && !Reached(s.slots[id], p))
    ensures Inv(cfg, WithSlot(s, id, slot))
  {
    var r := WithSlot(s, id, slot);
    forall p, peer | Done(r.dl, p) && peer in r.mgr.peers ensures NotLost(r, p, peer) {
      assert NotLost(s, p, peer);
    }
  }

  lemma ReachedLonger(slot: Slot, ipc: Ipc, p: nat)
    ensures Reached(slot, p) ==> Reached(slot.(inbox := slot.inbox + [ipc]), p)
    ensures slot.conn.Some? && ipc.PieceCompleted? && ipc.piece == p ==>
              Reached(slot.(inbox := slot.inbox + [ipc]), p)
  {
    var r := slot.(inbox := slot.inbox + [ipc]);
    assert ipc in r.inbox && forall i :: i in slot.inbox ==> i in r.inbox;
  }

  lemma PushKeeps(cfg: D.Config, s: System, id: nat, ipc: Ipc)
    requires Inv(cfg, s) && id < |s.slots| && TrueIpc(s.dl, ipc)
    ensures Inv(cfg, WithSlot(s, id, s.slots[id].(inbox := s.slots[id].inbox + [ipc])))
  {
    var slot := s.slots[id];
    forall p | Done(s.dl, p) ensures Reached(slot, p) ==> Reached(slot.(inbox := slot.inbox + [ipc]), p) {
      ReachedLonger(slot, ipc, p);
    }
    assert TrueSlot(cfg, s.dl, slot);
    SlotChange(cfg, s, id, slot.(inbox := slot.inbox + [ipc]));
  }

  lemma MainKeeps(cfg: D.Config, s: System, id: nat, env: Env)
    requires Inv(cfg, s) && Enabled(cfg, s, Main(id, env))
    ensures Next(cfg, s, Main(id, env)).Some? && Inv(cfg, Next(cfg, s, Main(id, env)).value)
  {
    var slot := s.slots[id];
    var c, ipc := slot.conn.value, slot.inbox[0];
    var slot' := slot.(conn := Some(Handle(c, ipc, env)), inbox := slot.inbox[1..]);
    assert TrueSlot(cfg, s.dl, slot) && ipc in slot.inbox;
    HandleStaysTrue(cfg, s.dl, c, ipc, env);
    if s.inside { HandleUploadsTrue(cfg, s.dl, slot, ipc, env); }
    HandleHas(c, ipc, env);
    assert slot.inbox == [ipc] + slot.inbox[1..];
    forall p: nat | Done(s.dl, p) ensures Reached(slot, p) ==> Reached(slot', p) {
      if Reached(slot, p) && !(p < |c.me.hasPieces| && c.me.hasPieces[p]) {
        var i :| i in slot.inbox && i.PieceCompleted? && i.piece == p;
        if i != ipc { assert i in slot'.inbox; }
      }
    }
    SlotChange(cfg, s, id, slot');
  }

  lemma SnapshotKeeps(cfg: D.Config, s: System, id: nat)
    requires Inv(cfg, s) && Enabled(cfg, s, Snapshot(id))
    ensures Next(cfg, s, Snapshot(id)).Some? && Inv(cfg, Next(cfg, s, Snapshot(id)).value)
  {
    StartIsTrue(cfg, s.dl);
    assert TrueSlot(cfg, s.dl, s.slots[id]);
    SlotChange(cfg, s, id, s.slots[id].(conn := Some(Start(D.HavePieces(s.dl)))));
  }

  lemma CloseKeeps(cfg: D.Config, s: System, id: nat)
    requires Inv(cfg, s) && id < |s.slots|
    ensures Inv(cfg, WithSlot(s, id, s.slots[id].(open := false)))
  {
    assert TrueSlot(cfg, s.dl, s.slots[id]);
    SlotChange(cfg, s, id, s.slots[id].(open := false));
  }

  // ---- The download and the manager ----

  lemma StoreGrows(cfg: D.Config, dl: D.State, p: nat, b: nat, data: Bytes)
    requires D.Layout(cfg, dl) && D.Writable(cfg, p, b, data)
    ensures Grown(dl, D.Store(cfg, dl, p, b, data)) && D.Layout(cfg, D.Store(cfg, dl, p, b, data))
  {
    D.WritePrecondition(cfg, dl, p, b, data);
    L.StoreEffects(cfg, dl, p, b, data);
    L.HeldChangesNothing(cfg, dl, p, b, data);
  }

  lemma StoreKeepsBytes(cfg: D.Config, dl: D.State, p: nat, b: nat, data: Bytes)
    requires D.Layout(cfg, dl) && D.Storable(cfg, p, b, data)
    ensures BytesKept(dl, D.Store(cfg, dl, p, b, data))
  {
    L.StoreEffects(cfg, dl, p, b, data);
    forall i | Done(dl, i) ensures Kept(dl, D.Store(cfg, dl, p, b, data), i) {
      L.CompletedIsFinal(cfg, dl, p, b, data, i);
    }
  }

  /** A call of `store` keeps uploads true, and a call with data that leaves its piece ends the promise. */
  lemma StoreKeepsBytesTrue(cfg: D.Config, s: System, p: nat, b: nat, data: Bytes)
    requires Inv(cfg, s) && Enabled(cfg, s, Store(p, b, data))
    ensures BytesTrue(cfg, Next(cfg, s, Store(p, b, data)).value)
  {
    var r := Next(cfg, s, Store(p, b, data)).value;
    if r.inside {
      StoreKeepsBytes(cfg, s.dl, p, b, data);
      if R.Harmless(cfg) { R.StoreKeepsVerified(cfg, s.dl, p, b, data); }
      forall id | 0 <= id < |r.slots| ensures TrueUploads(r.dl, r.slots[id]) {
        TrueUploadsStay(s.dl, r.dl, s.slots[id]);
      }
    }
  }

  /** It invents no completion. */
  lemma StoreInventsNone(cfg: D.Config, s: System, p: nat, b: nat, data: Bytes)
    requires Inv(cfg, s) && Enabled(cfg, s, Store(p, b, data))
    ensures NoneInvented(cfg, Next(cfg, s, Store(p, b, data)).value)
  {
    var r, dl := Next(cfg, s, Store(p, b, data)).value, D.Store(cfg, s.dl, p, b, data);
    StoreGrows(cfg, s.dl, p, b, data);
    A.StoreTells(cfg, s.dl, p, b, data);
    var news := dl.events[|s.dl.events|..];
    assert dl.events == s.dl.events + news;
    forall id | 0 <= id < |r.slots| ensures TrueSlot(cfg, dl, r.slots[id]) {
      TrueSlotGrows(cfg, s.dl, dl, s.slots[id]);
    }
    forall e | e in dl.events && e.PieceCompleted? ensures Done(dl, e.piece) {
      if e in s.dl.events { assert Done(s.dl, e.piece); } else { assert e in news; }
    }
  }

  /** And it loses none. */
  lemma StoreKeeps(cfg: D.Config, s: System, p: nat, b: nat, data: Bytes)
    requires Inv(cfg, s) && Enabled(cfg, s, Store(p, b, data))
    ensures Next(cfg, s, Store(p, b, data)).Some? && Inv(cfg, Next(cfg, s, Store(p, b, data)).value)
  {
    var r, dl := Next(cfg, s, Store(p, b, data)).value, D.Store(cfg, s.dl, p, b, data);
    StoreGrows(cfg, s.dl, p, b, data);
    StoreKeepsBytesTrue(cfg, s, p, b, data);
    StoreInventsNone(cfg, s, p, b, data);
    A.StoreTells(cfg, s.dl, p, b, data);
    var news := dl.events[|s.dl.events|..];
    assert dl.events == s.dl.events + news && dl.events[s.told..] == s.dl.events[s.told..] + news;
    forall q, peer | Done(dl, q) && peer in r.mgr.peers ensures NotLost(r, q, peer) {
      if Done(s.dl, q) {
        assert NotLost(s, q, peer);
      } else {
        assert D.PieceCompleted(q) in news;
      }
    }
  }

  lemma NextEventKeeps(cfg: D.Config, s: System)
    requires Inv(cfg, s) && Enabled(cfg, s, NextEvent)
    ensures Next(cfg, s, NextEvent).Some? && Inv(cfg, Next(cfg, s, NextEvent).value)
  {
    var r, e := Next(cfg, s, NextEvent).value, s.dl.events[s.told];
    assert s.dl.events[s.told..] == [e] + r.dl.events[r.told..];
    assert e in s.dl.events;
    forall p, peer | Done(r.dl, p) && peer in r.mgr.peers ensures NotLost(r, p, peer) {
      assert NotLost(s, p, peer);
    }
  }

  lemma SendToKeeps(cfg: D.Config, s: System, peer: Peer)
    requires Inv(cfg, s) && Enabled(cfg, s, SendTo(peer))
    ensures Next(cfg, s, SendTo(peer)).Some? && Inv(cfg, Next(cfg, s, SendTo(peer)).value)
  {
    var r, busy, id := Next(cfg, s, SendTo(peer)).value, s.busy.value, s.mgr.peers[peer];
    if s.slots[id].open {
      PushKeeps(cfg, s, id, busy.ipc);
      var s1 := WithSlot(s, id, s.slots[id].(inbox := s.slots[id].inbox + [busy.ipc]));
      forall p, q | Done(r.dl, p) && q in r.mgr.peers ensures NotLost(r, p, q) {
        assert NotLost(s1, p, q);
        if q == peer { ReachedLonger(s.slots[id], busy.ipc, p); }
      }
    } else {
      forall p, q | Done(r.dl, p) && q in r.mgr.peers ensures NotLost(r, p, q) { assert NotLost(s, p, q); }
    }
  }

  /** The manager makes, keeps and forgets connections, between broadcasts. */
  lemma ManagerKeeps(cfg: D.Config, s: System, mgr: Manager)
    requires Inv(cfg, s) && Tidy(mgr) && AllWait(mgr, true) && s.mgr.made <= mgr.made
    requires s.busy.Some? ==> s.busy.value.todo == {}
    requires forall p :: p in mgr.peers && mgr.peers[p] < |s.mgr.made| ==>
               p in s.mgr.peers && s.mgr.peers[p] == mgr.peers[p]
    ensures WithBook(s, Some(mgr)).Some? && Inv(cfg, WithBook(s, Some(mgr)).value)
  {
    var r := WithBook(s, Some(mgr)).value;
    forall id | 0 <= id < |r.slots| ensures TrueSlot(cfg, r.dl, r.slots[id]) {
      if id < |s.slots| { assert TrueSlot(cfg, s.dl, s.slots[id]); }
    }
    forall p, peer | Done(r.dl, p) && peer in r.mgr.peers ensures NotLost(r, p, peer) {
      if mgr.peers[peer] < |s.mgr.made| { assert NotLost(s, p, peer); }
    }
  }

  lemma EndBroadcastKeeps(cfg: D.Config, s: System)
    requires Inv(cfg, s) && Enabled(cfg, s, EndBroadcast)
    ensures Next(cfg, s, EndBroadcast).Some? && Inv(cfg, Next(cfg, s, EndBroadcast).value)
  {
    var failed := s.busy.value.failed;
    ProcessKeeps(s.mgr, Event.Broadcast(failed), true);
    ReplaceAllFrame(s.mgr, failed);
    ManagerKeeps(cfg, s, ReplaceAll(s.mgr, failed).value);
  }

  lemma ConnectionKeeps(cfg: D.Config, s: System, peer: Peer)
    requires Inv(cfg, s) && Enabled(cfg, s, Move.Connection(peer))
    ensures Next(cfg, s, Move.Connection(peer)).Some? && Inv(cfg, Next(cfg, s, Move.Connection(peer)).value)
  {
    ProcessKeeps(s.mgr, Event.Connection(true, peer), true);
    OnConnectionFrame(s.mgr, true, peer);
    ManagerKeeps(cfg, s, OnConnection(s.mgr, true, peer).value);
  }

  lemma DisconnectedKeeps(cfg: D.Config, s: System, peer: Peer)
    requires Inv(cfg, s) && Enabled(cfg, s, Move.Disconnected(peer))
    ensures Next(cfg, s, Move.Disconnected(peer)).Some? && Inv(cfg, Next(cfg, s, Move.Disconnected(peer)).value)
  {
    ProcessKeeps(s.mgr, Event.Disconnected(peer), true);
    ManagerKeeps(cfg, s, Disconnect(s.mgr, peer));
  }

  // ---- Every step, every run ----

  /** No step fails the assertion in `connect`, and each keeps the invariant. */
  lemma NextKeeps(cfg: D.Config, s: System, move: Move)
    requires Inv(cfg, s) && Enabled(cfg, s, move)
    ensures Next(cfg, s, move).Some? && Inv(cfg, Next(cfg, s, move).value)
  {
    match move
    case Store(p, b, data) => StoreKeeps(cfg, s, p, b, data);
    case NextEvent => NextEventKeeps(cfg, s);
    case SendTo(peer) => SendToKeeps(cfg, s, peer);
    case EndBroadcast => EndBroadcastKeeps(cfg, s);
    case Connection(peer) => ConnectionKeeps(cfg, s, peer);
    case Disconnected(peer) => DisconnectedKeeps(cfg, s, peer);
    case Snapshot(id) => SnapshotKeeps(cfg, s, id);
    case Main(id, env) => MainKeeps(cfg, s, id, env);
    case Deliver(id, m) => PushKeeps(cfg, s, id, FromPeer(m));
    case Uploaded(id) => PushKeeps(cfg, s, id, BlockUploaded);
    case Close(id) => CloseKeeps(cfg, s, id);
  }

  function Beginning(dl: D.State): System {
    System(dl, true, 0, NOBODY, None, [])
  }

  ghost predicate Leads(cfg: D.Config, s: System, move: Move, r: System) {
    Enabled(cfg, s, move) && Next(cfg, s, move) == Some(r)
  }

  ghost predicate Trace(cfg: D.Config, ss: seq<System>, moves: seq<Move>) {
    && |ss| == |moves| + 1
    && forall i :: 0 <= i < |moves| ==> Leads(cfg, ss[i], moves[i], ss[i + 1])
  }

  lemma BeginsWell(cfg: D.Config, disk: Bytes)
    requires D.WellFormed(cfg) && |disk| == cfg.total && |cfg.shas| < TWO_32
    ensures Inv(cfg, Beginning(D.Init(cfg, disk)))
  {
    L.InitLayout(cfg, disk);
  }

  lemma LeadsKeeps(cfg: D.Config, s: System, move: Move, r: System)
    requires Inv(cfg, s) && Leads(cfg, s, move, r)
    ensures Inv(cfg, r)
  {
    NextKeeps(cfg, s, move);
  }

  ghost predicate NothingFails(cfg: D.Config, s: System) {
    forall move :: Enabled(cfg, s, move) ==> Next(cfg, s, move).Some?
  }

  lemma NoMoveFails(cfg: D.Config, s: System)
    requires Inv(cfg, s)
    ensures NothingFails(cfg, s)
  {
    forall move | Enabled(cfg, s, move) ensures Next(cfg, s, move).Some? { NextKeeps(cfg, s, move); }
  }

  lemma {:induction false} TraceKeeps(cfg: D.Config, ss: seq<System>, moves: seq<Move>, i: nat)
    requires Trace(cfg, ss, moves) && i <= |moves| && Inv(cfg, ss[0])
    ensures Inv(cfg, ss[i])
  {
    if i > 0 {
      var k := i - 1;
      TraceKeeps(cfg, ss, moves, k);
      LeadsKeeps(cfg, ss[k], moves[k], ss[k + 1]);
    }
  }

  /** In every state of every interleaving, from fresh files on, the invariant holds, and whatever comes next
      does not fail. */
  lemma EveryTraceKeeps(cfg: D.Config, disk: Bytes, ss: seq<System>, moves: seq<Move>, i: nat)
    requires D.WellFormed(cfg) && |disk| == cfg.total && |cfg.shas| < TWO_32
    requires Trace(cfg, ss, moves) && i <= |moves| && ss[0] == Beginning(D.Init(cfg, disk))
    ensures Inv(cfg, ss[i]) && NothingFails(cfg, ss[i])
  {
    BeginsWell(cfg, disk);
    TraceKeeps(cfg, ss, moves, i);
    NoMoveFails(cfg, ss[i]);
  }

  // ---- What follows ----

  /** What is uploaded to any peer is of a complete piece. As long as all data stored lies inside its piece, an
      upload inside its piece is that slice of its bytes; and if line 130 does no harm, these have the hash of the
      torrent. */
  lemma UploadsAreVerified(cfg: D.Config, s: System, id: nat, m: Message)
    requires Inv(cfg, s) && id < |s.slots| && s.slots[id].conn.Some?
    requires m in s.slots[id].conn.value.sent && m.Piece?
    ensures m.index < |s.dl.pieces| == |cfg.shas| && s.dl.pieces[m.index].done
    ensures D.Off(cfg, m.index) + D.Len(cfg, m.index) <= |s.dl.disk|
    ensures var bytes := D.Range(s.dl.disk, s.dl.pieces[m.index]);
            s.inside ==>
              && (m.offset + |m.data| <= D.Len(cfg, m.index) ==> m.data == bytes[m.offset..m.offset + |m.data|])
              && (R.Harmless(cfg) ==> cfg.sha1(bytes) == cfg.shas[m.index])
  {
    assert TrueSlot(cfg, s.dl, s.slots[id]) && TrueMessage(s.dl, m);
    D.PieceBounds(cfg, m.index);
    if s.inside {
      assert TrueUploads(s.dl, s.slots[id]) && TrueData(s.dl, m.index, m.offset, m.data);
      if R.Harmless(cfg) { assert L.PieceVerified(cfg, s.dl.disk, s.dl.pieces[m.index]); }
    }
  }

  ghost predicate StaysInside(cfg: D.Config, move: Move) {
    move.Store? ==> D.Storable(cfg, move.piece, move.block, move.data)
  }

  ghost predicate AllInside(cfg: D.Config, moves: seq<Move>) {
    forall i :: 0 <= i < |moves| ==> StaysInside(cfg, moves[i])
  }

  lemma NextInside(cfg: D.Config, s: System, move: Move, r: System)
    requires Leads(cfg, s, move, r)
    ensures r.inside <==> s.inside && StaysInside(cfg, move)
  {
  }

  lemma OneMoreInside(cfg: D.Config, moves: seq<Move>, i: nat)
    requires i < |moves|
    ensures AllInside(cfg, moves[..i + 1]) <==> AllInside(cfg, moves[..i]) && StaysInside(cfg, moves[i])
  {
    assert moves[..i + 1] == moves[..i] + [moves[i]];
    assert moves[..i + 1][i] == moves[i] && forall k :: 0 <= k < i ==> moves[..i + 1][k] == moves[..i][k];
  }

  /** `inside` is what it says. */
  lemma {:induction false} InsideIff(cfg: D.Config, ss: seq<System>, moves: seq<Move>, i: nat)
    requires Trace(cfg, ss, moves) && i <= |moves| && ss[0].inside
    ensures ss[i].inside <==> AllInside(cfg, moves[..i])
  {
    if i > 0 {
      var k := i - 1;
      InsideIff(cfg, ss, moves, k);
      NextInside(cfg, ss[k], moves[k], ss[k + 1]);
      OneMoreInside(cfg, moves, k);
    }
  }

  /** Every request sent to any peer is for a block of the torrent, at its place and of its exact length. */
  lemma RequestsAreReal(cfg: D.Config, s: System, id: nat)
    requires Inv(cfg, s) && id < |s.slots|
    ensures s.slots[id].conn.Some? ==>
              forall m :: m in s.slots[id].conn.value.sent && m.Request? ==> IsRealRequest(cfg, m)
  {
    assert TrueSlot(cfg, s.dl, s.slots[id]);
    if s.slots[id].conn.Some? {
      var c := s.slots[id].conn.value;
      forall m | m in c.sent && m.Request? ensures IsRealRequest(cfg, m) {
        assert GoodSent(Lengths(cfg), c, m);
        D.PieceBounds(cfg, m.index);
      }
    }
  }

  ghost predicate IsRealRequest(cfg: D.Config, m: Message)
    requires m.Request?
  {
    && m.index < |cfg.shas| && 0 <= D.Len(cfg, m.index)
    && m.offset % BLOCK_SIZE == 0 && m.offset / BLOCK_SIZE < NumBlocks(D.Len(cfg, m.index))
    && m.length == BlockAt(D.Len(cfg, m.index), m.offset / BLOCK_SIZE).length
  }

  /** A broadcast never makes a running connection panic. */
  lemma BroadcastsAreWellFormed(cfg: D.Config, s: System, id: nat)
    requires Inv(cfg, s) && id < |s.slots| && s.slots[id].conn.Some? && s.slots[id].inbox != []
    requires !s.slots[id].inbox[0].FromPeer? && !s.slots[id].conn.value.halt
    ensures PeerModel.WellFormed(s.slots[id].conn.value, s.slots[id].inbox[0])
  {
    assert TrueSlot(cfg, s.dl, s.slots[id]) && s.slots[id].inbox[0] in s.slots[id].inbox;
  }

  /** Once the queues have run dry, every registered connection that runs knows exactly the complete pieces. */
  lemma QuietMeansAgreed(cfg: D.Config, s: System, peer: Peer, p: nat)
    requires Inv(cfg, s) && s.told == |s.dl.events| && s.busy.None?
    requires peer in s.mgr.peers && s.mgr.peers[peer] < |s.slots|
    requires s.slots[s.mgr.peers[peer]].open && s.slots[s.mgr.peers[peer]].conn.Some?
    requires s.slots[s.mgr.peers[peer]].inbox == []
    ensures var has := s.slots[s.mgr.peers[peer]].conn.value.me.hasPieces;
            |has| == |s.dl.pieces| && (p < |has| ==> (has[p] <==> s.dl.pieces[p].done))
  {
    assert TrueSlot(cfg, s.dl, s.slots[s.mgr.peers[peer]]);
    if Done(s.dl, p) { assert NotLost(s, p, peer); }
  }
}
