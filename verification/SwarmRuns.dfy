/** The parts of the system run as they do alone: in every interleaving the download loop has made a run of its
    calls, the manager a run of its events, and each connection a run of the events that have come to it, in their
    order. So what is proved of the runs of the parts holds in the system. */
module SwarmRuns {
  import opened ByteStrings
  import opened PeerModel
  import opened Pieces
  import opened Swarm
  import opened SwarmLaws
  import A = AnnouncementLaws
  import D = DownloadModel
  import L = DownloadLaws
  import M = ManagerModel
  import MR = ManagerRuns
  import P = PeerRuns
  import PH = PeerHistory
  import R = DownloadRuns

  /** A trace from fresh files on, of any of the moves. */
  ghost predicate Whole(cfg: D.Config, disk: Bytes, ss: seq<System>, moves: seq<Move>) {
    && D.WellFormed(cfg) && |disk| == cfg.total && |cfg.shas| < TWO_32
    && Trace(cfg, ss, moves) && ss[0] == Beginning(D.Init(cfg, disk))
  }

  lemma StepAt(cfg: D.Config, disk: Bytes, ss: seq<System>, moves: seq<Move>, k: nat)
    requires Whole(cfg, disk, ss, moves) && k < |moves|
    ensures Inv(cfg, ss[k]) && Leads(cfg, ss[k], moves[k], ss[k + 1])
  {
    EveryTraceKeeps(cfg, disk, ss, moves, k);
  }

  // ---- The download loop ----

  function Stores(moves: seq<Move>): seq<D.Call> {
    if moves == [] then []
    else
      var m := moves[|moves| - 1];
      Stores(moves[..|moves| - 1]) + if m.Store? then [D.Call(m.piece, m.block, m.data)] else []
  }

  lemma {:induction false} RunOneMore(cfg: D.Config, s: D.State, calls: seq<D.Call>, c: D.Call)
    requires D.Layout(cfg, s) && R.AllWritable(cfg, calls) && D.Writable(cfg, c.piece, c.block, c.data)
    ensures R.AllWritable(cfg, calls + [c])
    ensures R.Run(cfg, s, calls + [c]) == D.Store(cfg, R.Run(cfg, s, calls), c.piece, c.block, c.data)
    decreases |calls|
  {
    if calls == [] {
      assert calls + [c] == [c] && [c][1..] == [];
      L.StoreEffects(cfg, s, c.piece, c.block, c.data);
      assert R.AllWritable(cfg, [c]);
    } else {
      var first := calls[0];
      L.StoreEffects(cfg, s, first.piece, first.block, first.data);
      RunOneMore(cfg, D.Store(cfg, s, first.piece, first.block, first.data), calls[1..], c);
      assert (calls + [c])[1..] == calls[1..] + [c];
    }
  }

  lemma DownloadMoves(cfg: D.Config, s: System, move: Move, r: System)
    requires Leads(cfg, s, move, r)
    ensures r.dl == if move.Store? then D.Store(cfg, s.dl, move.piece, move.block, move.data) else s.dl
  {
  }

  /** The download is what its calls of `store` have made of it. */
  lemma {:induction false} DownloadIsRun(cfg: D.Config, disk: Bytes, ss: seq<System>, moves: seq<Move>, i: nat)
    requires Whole(cfg, disk, ss, moves) && i <= |moves|
    ensures D.Layout(cfg, D.Init(cfg, disk)) && R.AllWritable(cfg, Stores(moves[..i]))
    ensures ss[i].dl == R.Run(cfg, D.Init(cfg, disk), Stores(moves[..i]))
  {
    L.InitLayout(cfg, disk);
    if i > 0 {
      var k := i - 1;
      DownloadIsRun(cfg, disk, ss, moves, k);
      StepAt(cfg, disk, ss, moves, k);
      DownloadMoves(cfg, ss[k], moves[k], ss[k + 1]);
      assert moves[..i][..k] == moves[..k] && moves[..i][k] == moves[k];
      if moves[k].Store? {
        RunOneMore(cfg, D.Init(cfg, disk), Stores(moves[..k]), D.Call(moves[k].piece, moves[k].block, moves[k].data));
      } else {
        assert Stores(moves[..k]) + [] == Stores(moves[..k]);
      }
    }
  }

  // ---- The manager ----

  /** The event of the manager that the move is. */
  function ManagerEvent(s: System, move: Move): Option<M.Event> {
    match move
    case Connection(peer) => Some(M.Connection(true, peer))
    case Disconnected(peer) => Some(M.Disconnected(peer))
    case EndBroadcast => if s.busy.Some? then Some(M.Broadcast(s.busy.value.failed)) else None
    case _ => None
  }

  function AsSeq<T>(x: Option<T>): seq<T> {
    match x
    case Some(y) => [y]
    case None => []
  }

  function ManagerEvents(ss: seq<System>, moves: seq<Move>, i: nat): seq<M.Event>
    requires |ss| == |moves| + 1 && i <= |moves|
  {
    if i == 0 then [] else ManagerEvents(ss, moves, i - 1) + AsSeq(ManagerEvent(ss[i - 1], moves[i - 1]))
  }

  /** The book after the move is what the manager's event, if it is one, has made of the book before. */
  ghost predicate ManagerStep(ss: seq<System>, moves: seq<Move>, k: nat)
    requires |ss| == |moves| + 1 && k < |moves|
  {
    match ManagerEvent(ss[k], moves[k])
    case Some(e) => MR.Leads(ss[k].mgr, e, ss[k + 1].mgr) && (e.Connection? ==> e.sendHandshakeFirst)
    case None => ss[k + 1].mgr == ss[k].mgr
  }

  lemma ManagerMoves(cfg: D.Config, disk: Bytes, ss: seq<System>, moves: seq<Move>, k: nat)
    requires Whole(cfg, disk, ss, moves) && k < |moves|
    ensures ManagerStep(ss, moves, k)
  {
    StepAt(cfg, disk, ss, moves, k);
  }

  lemma CourseOneMore(ms: seq<M.Manager>, events: seq<M.Event>, e: M.Event, r: M.Manager)
    requires MR.Course(ms, events) && MR.Leads(ms[|events|], e, r) && (e.Connection? ==> e.sendHandshakeFirst)
    ensures MR.Course(ms + [r], events + [e])
  {
    var ms1, es1 := ms + [r], events + [e];
    forall i | 0 <= i < |es1| ensures MR.Leads(ms1[i], es1[i], ms1[i + 1]) {
      if i < |events| { assert MR.Leads(ms[i], events[i], ms[i + 1]); }
    }
  }

  lemma {:induction false} ManagerFollows(ss: seq<System>, moves: seq<Move>, i: nat) returns (ms: seq<M.Manager>)
    requires |ss| == |moves| + 1 && i <= |moves| && ss[0].mgr == M.NOBODY
    requires forall k :: 0 <= k < |moves| ==> ManagerStep(ss, moves, k)
    ensures var events := ManagerEvents(ss, moves, i);
            MR.Course(ms, events) && ms[|events|] == ss[i].mgr
  {
    if i == 0 {
      ms := [M.NOBODY];
    } else {
      var k := i - 1;
      ms := ManagerFollows(ss, moves, k);
      assert ManagerStep(ss, moves, k);
      var events := ManagerEvents(ss, moves, k);
      match ManagerEvent(ss[k], moves[k])
      case Some(e) =>
        CourseOneMore(ms, events, e, ss[i].mgr);
        ms := ms + [ss[i].mgr];
      case None => assert events + [] == events;
    }
  }

  /** The book is what the manager's events have made of it. */
  lemma ManagerIsRun(cfg: D.Config, disk: Bytes, ss: seq<System>, moves: seq<Move>, i: nat)
      returns (ms: seq<M.Manager>)
    requires Whole(cfg, disk, ss, moves) && i <= |moves|
    ensures var events := ManagerEvents(ss, moves, i);
            MR.Course(ms, events) && ms[|events|] == ss[i].mgr
  {
    forall k | 0 <= k < |moves| ensures ManagerStep(ss, moves, k) { ManagerMoves(cfg, disk, ss, moves, k); }
    ms := ManagerFollows(ss, moves, i);
  }

  // ---- The queue of a connection ----

  /** What the move puts into the queue of connection `id`. */
  function Put(s: System, move: Move, id: nat): seq<Ipc> {
    match move
    case SendTo(peer) =>
      if s.busy.Some? && peer in s.mgr.peers && s.mgr.peers[peer] == id && id < |s.slots| && s.slots[id].open
      then [s.busy.value.ipc] else []
    case Deliver(to, m) => if to == id then [FromPeer(m)] else []
    case Uploaded(to) => if to == id then [BlockUploaded] else []
    case _ => []
  }

  /** And what it takes from there. */
  function Taken(s: System, move: Move, id: nat): seq<Ipc> {
    if move.Main? && move.id == id && id < |s.slots| && s.slots[id].inbox != [] then [s.slots[id].inbox[0]] else []
  }

  function PutUpTo(ss: seq<System>, moves: seq<Move>, id: nat, i: nat): seq<Ipc>
    requires |ss| == |moves| + 1 && i <= |moves|
  {
    if i == 0 then [] else PutUpTo(ss, moves, id, i - 1) + Put(ss[i - 1], moves[i - 1], id)
  }

  function TakenUpTo(ss: seq<System>, moves: seq<Move>, id: nat, i: nat): seq<Ipc>
    requires |ss| == |moves| + 1 && i <= |moves|
  {
    if i == 0 then [] else TakenUpTo(ss, moves, id, i - 1) + Taken(ss[i - 1], moves[i - 1], id)
  }

  function InboxOf(s: System, id: nat): seq<Ipc> {
    if id < |s.slots| then s.slots[id].inbox else []
  }

  /** The queue before with what is put in is what is taken and the queue after. */
  predicate QueueKept(s: System, move: Move, r: System, id: nat) {
    InboxOf(s, id) + Put(s, move, id) == Taken(s, move, id) + InboxOf(r, id)
  }

  lemma HandledIsTaken(cfg: D.Config, s: System, move: Move, r: System, id: nat)
    requires Leads(cfg, s, move, r) && move.Main?
    ensures QueueKept(s, move, r, id)
  {
    var q := InboxOf(s, id);
    if move.id == id { assert q == [q[0]] + q[1..]; } else { assert InboxOf(r, id) == q; }
  }

  lemma SentIsPut(cfg: D.Config, s: System, move: Move, r: System, id: nat)
    requires Leads(cfg, s, move, r) && (move.SendTo? || move.Deliver? || move.Uploaded?)
    ensures QueueKept(s, move, r, id)
  {
  }

  lemma OthersLeaveQueue(cfg: D.Config, s: System, move: Move, r: System, id: nat)
    requires Leads(cfg, s, move, r) && !(move.Main? || move.SendTo? || move.Deliver? || move.Uploaded?)
    ensures QueueKept(s, move, r, id)
  {
    assert InboxOf(r, id) == InboxOf(s, id);
  }

  lemma QueueMoves(cfg: D.Config, s: System, move: Move, r: System, id: nat)
    requires Leads(cfg, s, move, r)
    ensures QueueKept(s, move, r, id)
  {
    match move
    case Main(_, _) => HandledIsTaken(cfg, s, move, r, id);
    case SendTo(_) => SentIsPut(cfg, s, move, r, id);
    case Deliver(_, _) => SentIsPut(cfg, s, move, r, id);
    case Uploaded(_) => SentIsPut(cfg, s, move, r, id);
    case _ => OthersLeaveQueue(cfg, s, move, r, id);
  }

  ghost predicate QueueStep(ss: seq<System>, moves: seq<Move>, id: nat, k: nat)
    requires |ss| == |moves| + 1 && k < |moves|
  {
    QueueKept(ss[k], moves[k], ss[k + 1], id)
  }

  lemma {:induction false} QueueFollows(ss: seq<System>, moves: seq<Move>, id: nat, i: nat)
    requires |ss| == |moves| + 1 && i <= |moves| && ss[0].slots == []
    requires forall k :: 0 <= k < |moves| ==> QueueStep(ss, moves, id, k)
    ensures PutUpTo(ss, moves, id, i) == TakenUpTo(ss, moves, id, i) + InboxOf(ss[i], id)
  {
    if i > 0 {
      var k := i - 1;
      QueueFollows(ss, moves, id, k);
      assert QueueStep(ss, moves, id, k);
      var taken := TakenUpTo(ss, moves, id, k);
      Assoc(taken, InboxOf(ss[k], id), Put(ss[k], moves[k], id));
      Assoc(taken, Taken(ss[k], moves[k], id), InboxOf(ss[i], id));
    }
  }

  /** A connection handles what is put into its queue, all of it, in order and once. */
  lemma QueuesKeepOrder(cfg: D.Config, ss: seq<System>, moves: seq<Move>, id: nat, i: nat)
    requires Trace(cfg, ss, moves) && ss[0].slots == [] && i <= |moves|
    ensures PutUpTo(ss, moves, id, i) == TakenUpTo(ss, moves, id, i) + InboxOf(ss[i], id)
  {
    forall k | 0 <= k < |moves| ensures QueueStep(ss, moves, id, k) {
      assert Leads(cfg, ss[k], moves[k], ss[k + 1]);
      QueueMoves(cfg, ss[k], moves[k], ss[k + 1], id);
    }
    QueueFollows(ss, moves, id, i);
  }

  // ---- A connection ----

  function ConnOf(s: System, id: nat): Option<Conn> {
    if id < |s.slots| then s.slots[id].conn else None
  }

  function Ipcs(turns: seq<P.Turn>): seq<Ipc> {
    seq(|turns|, k requires 0 <= k < |turns| => turns[k].ipc)
  }

  /** A turn of connection `id`. */
  ghost predicate TurnOf(cfg: D.Config, s: System, r: System, id: nat, env: Env) {
    && ConnOf(s, id).Some? && ConnOf(r, id).Some? && id < |s.slots| && s.slots[id].inbox != []
    && PH.Leads(Lengths(cfg), ConnOf(s, id).value, P.Turn(s.slots[id].inbox[0], env), ConnOf(r, id).value)
  }

  lemma MainIsTurn(cfg: D.Config, s: System, id: nat, env: Env, r: System)
    requires Leads(cfg, s, Main(id, env), r)
    ensures TurnOf(cfg, s, r, id, env)
  {
    AnswersAreGood(cfg, s.dl, env);
  }

  lemma SnapshotStarts(cfg: D.Config, s: System, id: nat, r: System)
    requires Leads(cfg, s, Snapshot(id), r)
    ensures ConnOf(s, id) == None && ConnOf(r, id) == Some(Start(D.HavePieces(s.dl)))
  {
  }

  /** No other move touches the connection. */
  lemma ConnStays(cfg: D.Config, s: System, move: Move, r: System, id: nat)
    requires Leads(cfg, s, move, r)
    requires !(move.Main? && move.id == id) && !(move.Snapshot? && move.id == id)
    ensures ConnOf(r, id) == ConnOf(s, id)
  {
  }

  lemma TurnOneMore(lengths: seq<nat>, have: seq<bool>, cs: seq<Conn>, turns: seq<P.Turn>, t: P.Turn, r: Conn)
    requires PH.Course(lengths, have, cs, turns) && PH.Leads(lengths, cs[|turns|], t, r)
    ensures PH.Course(lengths, have, cs + [r], turns + [t]) && Ipcs(turns + [t]) == Ipcs(turns) + [t.ipc]
  {
    var cs1, ts1 := cs + [r], turns + [t];
    forall i | 0 <= i < |ts1| ensures PH.Leads(lengths, cs1[i], ts1[i], cs1[i + 1]) {
      if i < |turns| { assert PH.Leads(lengths, cs[i], turns[i], cs[i + 1]); }
    }
  }

  /** What the move at `k` does to connection `id`: it is one of its turns, or starts it, or leaves it alone. */
  ghost predicate ConnStep(cfg: D.Config, ss: seq<System>, moves: seq<Move>, id: nat, k: nat)
    requires |ss| == |moves| + 1 && k < |moves|
  {
    match moves[k]
    case Main(of, env) =>
      if of == id then TurnOf(cfg, ss[k], ss[k + 1], id, env) else ConnOf(ss[k + 1], id) == ConnOf(ss[k], id)
    case Snapshot(of) =>
      if of == id then ConnOf(ss[k], id) == None && ConnOf(ss[k + 1], id) == Some(Start(D.HavePieces(ss[k].dl)))
      else ConnOf(ss[k + 1], id) == ConnOf(ss[k], id)
    case _ => ConnOf(ss[k + 1], id) == ConnOf(ss[k], id)
  }

  lemma ConnMoves(cfg: D.Config, ss: seq<System>, moves: seq<Move>, id: nat, k: nat)
    requires Trace(cfg, ss, moves) && k < |moves|
    ensures ConnStep(cfg, ss, moves, id, k)
  {
    var s, move, r := ss[k], moves[k], ss[k + 1];
    assert Leads(cfg, s, move, r);
    if move.Main? && move.id == id {
      MainIsTurn(cfg, s, id, move.env, r);
    } else if move.Snapshot? && move.id == id {
      SnapshotStarts(cfg, s, id, r);
    } else {
      ConnStays(cfg, s, move, r, id);
    }
  }

  lemma {:induction false} ConnFollows(cfg: D.Config, ss: seq<System>, moves: seq<Move>, id: nat, i: nat)
      returns (have: seq<bool>, cs: seq<Conn>, turns: seq<P.Turn>)
    requires |ss| == |moves| + 1 && i <= |moves| && ss[0].slots == []
    requires forall k :: 0 <= k < |moves| ==> ConnStep(cfg, ss, moves, id, k)
    ensures ConnOf(ss[i], id) == None ==> TakenUpTo(ss, moves, id, i) == []
    ensures ConnOf(ss[i], id).Some? ==>
              && PH.Course(Lengths(cfg), have, cs, turns) && cs[|turns|] == ConnOf(ss[i], id).value
              && Ipcs(turns) == TakenUpTo(ss, moves, id, i)
  {
    have, cs, turns := [], [], [];
    if i > 0 {
      var k := i - 1;
      have, cs, turns := ConnFollows(cfg, ss, moves, id, k);
      assert ConnStep(cfg, ss, moves, id, k);
      var taken, before := TakenUpTo(ss, moves, id, k), Taken(ss[k], moves[k], id);
      assert TakenUpTo(ss, moves, id, i) == taken + before;
      if moves[k].Main? && moves[k].id == id {
        var t, r := P.Turn(ss[k].slots[id].inbox[0], moves[k].env), ConnOf(ss[i], id).value;
        TurnOneMore(Lengths(cfg), have, cs, turns, t, r);
        cs, turns := cs + [r], turns + [t];
      } else {
        assert before == [] && taken + [] == taken;
        if moves[k].Snapshot? && moves[k].id == id {
          have := D.HavePieces(ss[k].dl);
          cs, turns := [Start(have)], [];
        }
      }
    }
  }

  /** Each connection is what the events that it has handled have made of it, from the pieces that were complete when
      it started. */
  lemma ConnIsRun(cfg: D.Config, ss: seq<System>, moves: seq<Move>, id: nat, i: nat)
      returns (have: seq<bool>, cs: seq<Conn>, turns: seq<P.Turn>)
    requires Trace(cfg, ss, moves) && ss[0].slots == [] && i <= |moves|
    ensures ConnOf(ss[i], id) == None ==> TakenUpTo(ss, moves, id, i) == []
    ensures ConnOf(ss[i], id).Some? ==>
              && PH.Course(Lengths(cfg), have, cs, turns) && cs[|turns|] == ConnOf(ss[i], id).value
              && Ipcs(turns) == TakenUpTo(ss, moves, id, i)
  {
    forall k | 0 <= k < |moves| ensures ConnStep(cfg, ss, moves, id, k) { ConnMoves(cfg, ss, moves, id, k); }
    have, cs, turns := ConnFollows(cfg, ss, moves, id, i);
  }

  // ---- What the manager broadcasts ----

  lemma {:induction false} RunTellsBlocks(cfg: D.Config, s: D.State, calls: seq<D.Call>, p: nat, b: nat)
    requires D.Layout(cfg, s) && R.AllWritable(cfg, calls)
    requires A.Tally(R.Run(cfg, s, calls).events, A.BlockDone(p, b)) > A.Tally(s.events, A.BlockDone(p, b))
    ensures p < |cfg.shas| && 0 <= D.Len(cfg, p) && b < NumBlocks(D.Len(cfg, p))
    decreases |calls|
  {
    if calls != [] {
      var c := calls[0];
      L.StoreEffects(cfg, s, c.piece, c.block, c.data);
      A.StoreTellsBlock(cfg, s, c.piece, c.block, c.data, p, b);
      if c.piece != p || c.block != b {
        RunTellsBlocks(cfg, D.Store(cfg, s, c.piece, c.block, c.data), calls[1..], p, b);
      }
    }
  }

  lemma {:induction false} ToldCounts(events: seq<D.Event>, e: D.Event)
    requires e in events
    ensures A.Tally(events, A.KindOf(e)) > 0
  {
    var front := events[..|events| - 1];
    if events[|events| - 1] != e {
      assert events == front + [events[|events| - 1]];
      ToldCounts(front, e);
    }
  }

  /** The message to the connections that an event of the download is. */
  predicate AsIpc(e: D.Event, ipc: Ipc) {
    match e
    case FileFinish(_, _) => false
    case BlockCompleted(p, b) => ipc.BlockCompleted? && ipc.piece == p && ipc.block == b
    case PieceCompleted(p) => ipc.PieceCompleted? && ipc.piece == p
    case DownloadCompleted => ipc.DownloadCompleted?
  }

  /** In every interleaving, each event of the download but those about files is broadcast as it is, to all peers
      registered then. */
  lemma EveryEventIsBroadcast(cfg: D.Config, disk: Bytes, ss: seq<System>, moves: seq<Move>, i: nat)
    requires Whole(cfg, disk, ss, moves) && i < |moves| && moves[i].NextEvent?
    ensures ss[i].told < |ss[i].dl.events| && ss[i + 1].told == ss[i].told + 1
    ensures var e, busy := ss[i].dl.events[ss[i].told], ss[i + 1].busy;
            && (e.FileFinish? ==> busy == None)
            && (!e.FileFinish? ==> busy.Some? && AsIpc(e, busy.value.ipc)
                                   && busy.value.todo == ss[i].mgr.peers.Keys && busy.value.failed == [])
  {
    StepAt(cfg, disk, ss, moves, i);
    DownloadIsRun(cfg, disk, ss, moves, i);
    var e := ss[i].dl.events[ss[i].told];
    if e.BlockCompleted? {
      ToldCounts(ss[i].dl.events, e);
      assert A.Tally(D.Init(cfg, disk).events, A.BlockDone(e.piece, e.block)) == 0;
      RunTellsBlocks(cfg, D.Init(cfg, disk), Stores(moves[..i]), e.piece, e.block);
      D.PieceBounds(cfg, e.piece);
      NumBlocksIsCeiling(D.Len(cfg, e.piece));
    }
    if e.PieceCompleted? { assert Done(ss[i].dl, e.piece); }
  }

  /** The peers that the broadcast under way has still to send to: all that were registered when it began, but for
      those whose turn has come. */
  function ToSend(ss: seq<System>, moves: seq<Move>, i: nat): set<M.Peer>
    requires |ss| == |moves| + 1 && i <= |moves|
  {
    if i == 0 then {}
    else
      match moves[i - 1]
      case NextEvent => ss[i - 1].mgr.peers.Keys
      case SendTo(peer) => ToSend(ss, moves, i - 1) - {peer}
      case _ => ToSend(ss, moves, i - 1)
  }

  /** And those whose connection had gone when their turn came. */
  function FoundGone(ss: seq<System>, moves: seq<Move>, i: nat): seq<M.Peer>
    requires |ss| == |moves| + 1 && i <= |moves|
  {
    if i == 0 then []
    else
      match moves[i - 1]
      case NextEvent => []
      case SendTo(peer) => FoundGone(ss, moves, i - 1) + if IsOpen(ss[i - 1], peer) then [] else [peer]
      case _ => FoundGone(ss, moves, i - 1)
  }

  predicate IsOpen(s: System, peer: M.Peer) {
    peer in s.mgr.peers && s.mgr.peers[peer] < |s.slots| && s.slots[s.mgr.peers[peer]].open
  }

  /** What the move does to the broadcast under way after it. */
  predicate BusyStep(ss: seq<System>, moves: seq<Move>, k: nat)
    requires |ss| == |moves| + 1 && k < |moves|
  {
    var s, r := ss[k], ss[k + 1];
    r.busy.Some? ==>
      match moves[k]
      case NextEvent => r.busy.value.todo == s.mgr.peers.Keys && r.busy.value.failed == []
      case SendTo(peer) =>
        && s.busy.Some? && r.busy.value.todo == s.busy.value.todo - {peer}
        && r.busy.value.failed == s.busy.value.failed + if IsOpen(s, peer) then [] else [peer]
      case _ => r.busy == s.busy
  }

  lemma BusyMoves(cfg: D.Config, ss: seq<System>, moves: seq<Move>, k: nat)
    requires Trace(cfg, ss, moves) && k < |moves|
    ensures BusyStep(ss, moves, k)
  {
    var s, move := ss[k], moves[k];
    assert Leads(cfg, s, move, ss[k + 1]);
    if move.SendTo? && IsOpen(s, move.peer) { assert s.busy.value.failed + [] == s.busy.value.failed; }
  }

  lemma {:induction false} BroadcastFollows(ss: seq<System>, moves: seq<Move>, i: nat)
    requires |ss| == |moves| + 1 && i <= |moves| && ss[0].busy == None
    requires forall k :: 0 <= k < |moves| ==> BusyStep(ss, moves, k)
    ensures ss[i].busy.Some? ==>
              ss[i].busy.value.todo == ToSend(ss, moves, i) && ss[i].busy.value.failed == FoundGone(ss, moves, i)
  {
    if i > 0 {
      var k := i - 1;
      BroadcastFollows(ss, moves, k);
      assert BusyStep(ss, moves, k);
    }
  }

  /** In every interleaving a broadcast has exactly these to send to and exactly those to replace. */
  lemma BroadcastsGoRound(cfg: D.Config, ss: seq<System>, moves: seq<Move>, i: nat)
    requires Trace(cfg, ss, moves) && ss[0].busy == None && i <= |moves|
    ensures ss[i].busy.Some? ==>
              ss[i].busy.value.todo == ToSend(ss, moves, i) && ss[i].busy.value.failed == FoundGone(ss, moves, i)
  {
    forall k | 0 <= k < |moves| ensures BusyStep(ss, moves, k) { BusyMoves(cfg, ss, moves, k); }
    BroadcastFollows(ss, moves, i);
  }

  /** A connection is open when it is made, and a move that closes it finds it there. */
  ghost predicate OpenStep(ss: seq<System>, moves: seq<Move>, id: nat, k: nat)
    requires |ss| == |moves| + 1 && k < |moves|
  {
    var s, r, close := ss[k], ss[k + 1], moves[k] == Close(id);
    && |s.slots| <= |r.slots| && (close ==> id < |s.slots|)
    && (id < |s.slots| ==> r.slots[id].open == (s.slots[id].open && !close))
    && (|s.slots| <= id < |r.slots| ==> r.slots[id].open)
  }

  lemma OpenMoves(cfg: D.Config, ss: seq<System>, moves: seq<Move>, id: nat, k: nat)
    requires Trace(cfg, ss, moves) && k < |moves|
    ensures OpenStep(ss, moves, id, k)
  {
    assert Leads(cfg, ss[k], moves[k], ss[k + 1]);
  }

  lemma {:induction false} OpenFollows(ss: seq<System>, moves: seq<Move>, id: nat, i: nat)
    requires |ss| == |moves| + 1 && i <= |moves| && ss[0].slots == []
    requires forall k :: 0 <= k < |moves| ==> OpenStep(ss, moves, id, k)
    ensures id < |ss[i].slots| ==> (ss[i].slots[id].open <==> Close(id) !in moves[..i])
    ensures id >= |ss[i].slots| ==> Close(id) !in moves[..i]
  {
    if i > 0 {
      var k := i - 1;
      OpenFollows(ss, moves, id, k);
      assert OpenStep(ss, moves, id, k);
      assert moves[..i] == moves[..k] + [moves[k]];
    }
  }

  /** In every interleaving a connection is open from when it is made until it is closed. */
  lemma OpenUntilClosed(cfg: D.Config, ss: seq<System>, moves: seq<Move>, id: nat, i: nat)
    requires Trace(cfg, ss, moves) && ss[0].slots == [] && i <= |moves|
    ensures id < |ss[i].slots| ==> (ss[i].slots[id].open <==> Close(id) !in moves[..i])
  {
    forall k | 0 <= k < |moves| ensures OpenStep(ss, moves, id, k) { OpenMoves(cfg, ss, moves, id, k); }
    OpenFollows(ss, moves, id, i);
  }
}
