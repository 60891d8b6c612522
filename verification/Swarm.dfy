/** The download loop, the manager and all connections together: how the completion of a piece travels.
    The manager's queue, its broadcast loop and each connection's queue move one message at a time, in any
    interleaving; connections come, start, end and are forgotten at any time. */
module Swarm {
  import opened ByteStrings
  import opened Wire
  import opened PeerModel
  import opened ManagerModel
  import PeerRuns
  import D = DownloadModel
  import L = DownloadLaws
  import R = DownloadRuns

  /** A connection as the manager made it; `conn` is there once it has taken its `have_pieces` snapshot,
      and `open` says that it still runs. */
  datatype Slot = Slot(inbox: seq<Ipc>, conn: Option<Conn>, open: bool)

  /** A broadcast under way: who is still to be sent to, and who could not be. */
  datatype Busy = Busy(ipc: Ipc, todo: set<Peer>, failed: seq<Peer>)

  /** `told` is how many of the download's events the manager has taken from its queue; `inside` is whether
      all data stored so far lay inside its piece, which no move reads. */
  datatype System = System(
    dl: D.State, inside: bool, told: nat, mgr: Manager, busy: Option<Busy>, slots: seq<Slot>)

  datatype Move =
    | Store(piece: nat, block: nat, data: Bytes)
    | NextEvent
    | SendTo(peer: Peer)
    | EndBroadcast
    | Connection(peer: Peer)
    | Disconnected(peer: Peer)
    | Snapshot(id: nat)
    | Main(id: nat, env: Env)
    | Deliver(id: nat, m: Message)
    | Uploaded(id: nat)
    | Close(id: nat)

  /** What a broadcast of the download's event is to a connection. */
  function ToIpc(e: D.Event): Option<Ipc> {
    match e
    case FileFinish(_, _) => None
    case BlockCompleted(p, b) =>
      if p < TWO_32 && b < TWO_32 then Some(Ipc.BlockCompleted(p, b)) else None
    case PieceCompleted(p) => if p < TWO_32 then Some(Ipc.PieceCompleted(p)) else None
    case DownloadCompleted => Some(Ipc.DownloadCompleted)
  }

  /** Room for the connections that the manager has just made. */
  function WithSlots(slots: seq<Slot>, n: nat): seq<Slot> {
    slots + seq(if n > |slots| then n - |slots| else 0, _ => Slot([], None, true))
  }

  // ---- The download loop's answers ----

  function Lengths(cfg: D.Config): seq<nat> {
    seq(|cfg.shas|, i requires 0 <= i < |cfg.shas| => if D.Len(cfg, i) >= 0 then D.Len(cfg, i) else 0)
  }

  /** What `incomplete_blocks_for_piece` answers at some time: one event asks for several pieces, and blocks
      may be stored in between. */
  ghost predicate Listed(cfg: D.Config, p: nat, missing: seq<(U32, U32)>) {
    exists d: D.State :: D.Layout(cfg, d) && p < |d.pieces| && missing == D.IncompleteBlocks(d, p)
  }

  /** What a connection gets for a request: the data, or a failed answer when the piece is not complete or the
      download loop panics. */
  ghost function Served(cfg: D.Config, dl: D.State, r: Req): Option<Bytes>
    requires D.Layout(cfg, dl)
  {
    match D.RetrieveData(cfg, dl, r.piece, r.offset, r.length)
    case Data(bytes) => Some(bytes)
    case _ => None
  }

  /** Any answer may also fail: either failure ends the download loop, and then all later ones fail. */
  ghost predicate FromDownload(cfg: D.Config, dl: D.State, env: Env)
    requires D.Layout(cfg, dl)
  {
    && (forall p :: p in env.missing ==> Listed(cfg, p, env.missing[p]))
    && forall r: Req :: env.data(r).Some? ==> env.data(r) == Served(cfg, dl, r)
  }

  // ---- Moves ----

  ghost predicate Enabled(cfg: D.Config, s: System, move: Move) {
    && D.Layout(cfg, s.dl) && |s.slots| == |s.mgr.made| && s.told <= |s.dl.events|
    && (forall p :: p in s.mgr.peers ==> s.mgr.peers[p] < |s.slots|)
    && match move
       case Store(p, b, data) => D.Writable(cfg, p, b, data)
       case NextEvent => s.busy.None? && s.told < |s.dl.events|
       case SendTo(peer) => s.busy.Some? && peer in s.busy.value.todo && peer in s.mgr.peers
       case EndBroadcast => s.busy.Some? && s.busy.value.todo == {}
       case Connection(_) => s.busy.None?
       case Disconnected(_) => s.busy.None?
       case Snapshot(id) => id < |s.slots| && s.slots[id].open && s.slots[id].conn.None?
       case Main(id, env) =>
         && id < |s.slots| && s.slots[id].open && s.slots[id].conn.Some? && s.slots[id].inbox != []
         && WellFormed(s.slots[id].conn.value, s.slots[id].inbox[0])
         && EnvFits(s.slots[id].conn.value, s.slots[id].inbox[0], env) && FromDownload(cfg, s.dl, env)
       case Deliver(id, _) => id < |s.slots|
       case Uploaded(id) => id < |s.slots|
       case Close(id) => id < |s.slots|
  }

  /** The book after what the manager has done, with room for new connections. */
  function WithBook(s: System, mgr: Option<Manager>): Option<System> {
    match mgr
    case Some(m) => Some(s.(mgr := m, busy := None, slots := WithSlots(s.slots, |m.made|)))
    case None => None
  }

  /** `None` is the assertion in `connect` failing. Connections are asked for by the tracker only, always with
      the handshake sent first. */
  ghost function Next(cfg: D.Config, s: System, move: Move): Option<System>
    requires Enabled(cfg, s, move)
  {
    match move
    case Store(p, b, data) =>
      Some(s.(dl := D.Store(cfg, s.dl, p, b, data), inside := s.inside && D.Storable(cfg, p, b, data)))
    case NextEvent =>
      var ipc := ToIpc(s.dl.events[s.told]);
      Some(s.(told := s.told + 1, busy := if ipc.Some? then Some(Busy(ipc.value, s.mgr.peers.Keys, [])) else None))
    case SendTo(peer) =>
      var busy, id := s.busy.value, s.mgr.peers[peer];
      var slot := s.slots[id];
      if slot.open then
        Some(s.(slots := s.slots[id := slot.(inbox := slot.inbox + [busy.ipc])],
                busy := Some(busy.(todo := busy.todo - {peer}))))
      else Some(s.(busy := Some(busy.(todo := busy.todo - {peer}, failed := busy.failed + [peer]))))
    case EndBroadcast => WithBook(s, ReplaceAll(s.mgr, s.busy.value.failed))
    case Connection(peer) => WithBook(s, OnConnection(s.mgr, true, peer))
    case Disconnected(peer) => WithBook(s, Some(Disconnect(s.mgr, peer)))
    case Snapshot(id) => Some(WithSlot(s, id, s.slots[id].(conn := Some(Start(D.HavePieces(s.dl))))))
    case Main(id, env) =>
      var slot := s.slots[id];
      Some(WithSlot(s, id, slot.(conn := Some(Handle(slot.conn.value, slot.inbox[0], env)), inbox := slot.inbox[1..])))
    case Deliver(id, m) => Some(WithSlot(s, id, s.slots[id].(inbox := s.slots[id].inbox + [FromPeer(m)])))
    case Uploaded(id) => Some(WithSlot(s, id, s.slots[id].(inbox := s.slots[id].inbox + [BlockUploaded])))
    case Close(id) => Some(WithSlot(s, id, s.slots[id].(open := false)))
  }

  function WithSlot(s: System, id: nat, slot: Slot): System
    requires id < |s.slots|
  {
    s.(slots := s.slots[id := slot])
  }

  // ---- The invariant ----

  predicate Done(dl: D.State, p: nat) {
    p < |dl.pieces| && dl.pieces[p].done
  }

  predicate TrueIpc(dl: D.State, ipc: Ipc) {
    ipc.PieceCompleted? ==> Done(dl, ipc.piece)
  }

  /** The data is that slice of a complete piece, if it lies in one. */
  predicate TrueData(dl: D.State, p: nat, offset: nat, data: Bytes) {
    && Done(dl, p) && dl.pieces[p].offset + dl.pieces[p].length <= |dl.disk|
    && (offset + |data| <= dl.pieces[p].length ==> D.Range(dl.disk, dl.pieces[p])[offset..offset + |data|] == data)
  }

  /** What a message tells the peer that we have. */
  predicate TrueMessage(dl: D.State, m: Message) {
    match m
    case Have(p) => Done(dl, p)
    case Bitfield(bits) => forall k :: 0 <= k < 8 * |bits| && BitAt(bits, k) ==> Done(dl, k)
    case Piece(p, _, _) => Done(dl, p)
    case _ => true
  }

  /** What has been uploaded is true. */
  ghost predicate TrueUploads(dl: D.State, slot: Slot) {
    slot.conn.Some? ==>
      forall m :: m in slot.conn.value.sent && m.Piece? ==> TrueData(dl, m.index, m.offset, m.data)
  }

  ghost predicate TrueConn(cfg: D.Config, dl: D.State, c: Conn) {
    && |c.me.hasPieces| == |c.he.hasPieces| == |dl.pieces| && PeerRuns.Sound(Lengths(cfg), c)
    && (forall p :: 0 <= p < |c.me.hasPieces| && c.me.hasPieces[p] ==> Done(dl, p))
    && forall m :: m in c.sent ==> TrueMessage(dl, m)
  }

  ghost predicate TrueSlot(cfg: D.Config, dl: D.State, slot: Slot) {
    && (forall ipc :: ipc in slot.inbox ==> TrueIpc(dl, ipc))
    && (slot.conn.Some? ==> TrueConn(cfg, dl, slot.conn.value))
  }

  /** Nothing is invented: every completion on its way, noted or told to a peer is of a complete piece. */
  ghost predicate NoneInvented(cfg: D.Config, s: System) {
    && (forall e :: e in s.dl.events && e.PieceCompleted? ==> Done(s.dl, e.piece))
    && (s.busy.Some? ==> TrueIpc(s.dl, s.busy.value.ipc))
    && forall id :: 0 <= id < |s.slots| ==> TrueSlot(cfg, s.dl, s.slots[id])
  }

  /** The completion of `p` is still with the manager, for this peer. */
  ghost predicate WithManager(s: System, p: nat, peer: Peer) {
    || (s.told <= |s.dl.events| && D.PieceCompleted(p) in s.dl.events[s.told..])
    || (s.busy.Some? && peer in s.busy.value.todo
        && s.busy.value.ipc.PieceCompleted? && s.busy.value.ipc.piece == p)
  }

  ghost predicate Reached(slot: Slot, p: nat) {
    && slot.conn.Some?
    && ((p < |slot.conn.value.me.hasPieces| && slot.conn.value.me.hasPieces[p])
        || exists ipc :: ipc in slot.inbox && ipc.PieceCompleted? && ipc.piece == p)
  }

  /** Nothing is lost: a complete piece has reached every registered connection that runs and has its
      snapshot, or is still on its way to it. */
  ghost predicate NoneLost(s: System) {
    forall p, peer :: Done(s.dl, p) && peer in s.mgr.peers ==> NotLost(s, p, peer)
  }

  ghost predicate NotLost(s: System, p: nat, peer: Peer) {
    peer in s.mgr.peers && s.mgr.peers[peer] < |s.slots| &&
    (var slot := s.slots[s.mgr.peers[peer]];
     slot.open && slot.conn.Some? ==> Reached(slot, p) || WithManager(s, p, peer))
  }

  /** A broadcast has its peers still to be sent to, and has failed for others, each once. */
  ghost predicate UnderWay(m: Manager, busy: Busy) {
    && busy.todo <= m.peers.Keys && Failing(m, busy.failed)
    && forall p :: p in busy.failed ==> p !in busy.todo
  }

  ghost predicate Shape(cfg: D.Config, s: System) {
    && D.Layout(cfg, s.dl) && |cfg.shas| < TWO_32
    && s.told <= |s.dl.events| && |s.slots| == |s.mgr.made|
    && Tidy(s.mgr) && AllWait(s.mgr, true) && (s.busy.Some? ==> UnderWay(s.mgr, s.busy.value))
  }

  /** As long as all data lies inside its piece, uploads are true, and if line 130 does no harm, all complete
      pieces have the right hash. */
  ghost predicate BytesTrue(cfg: D.Config, s: System) {
    s.inside ==>
      && (R.Harmless(cfg) ==> L.Verified(cfg, s.dl))
      && forall id :: 0 <= id < |s.slots| ==> TrueUploads(s.dl, s.slots[id])
  }

  ghost predicate Inv(cfg: D.Config, s: System) {
    Shape(cfg, s) && NoneInvented(cfg, s) && NoneLost(s) && BytesTrue(cfg, s)
  }
}
