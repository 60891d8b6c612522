/** The connection book-keeping of manager.rs: which peers are connected, and which wait. */
module ManagerModel {
  import opened ByteStrings

  const MAX_PEERS: nat := 30

  datatype Peer = Peer(ip: string, port: nat)

  /** `peers` maps a peer to its connection; connections are numbered as they are made, for `made[id]`. */
  datatype Manager = Manager(peers: map<Peer, nat>, deque: seq<(bool, Peer)>, made: seq<Peer>)

  /** `connect`; `None` is its assertion failing. */
  function Connect(m: Manager, peer: Peer): Option<Manager> {
    if peer in m.peers then None
    else Some(m.(peers := m.peers[peer := |m.made|], made := m.made + [peer]))
  }

  /** A `Connection` event. */
  function OnConnection(m: Manager, sendHandshakeFirst: bool, peer: Peer): Option<Manager> {
    if peer in m.peers || (sendHandshakeFirst, peer) in m.deque then Some(m)
    else if |m.peers| < MAX_PEERS then Connect(m, peer)
    else Some(m.(deque := m.deque + [(sendHandshakeFirst, peer)]))
  }

  /** A connection has ended. */
  function Disconnect(m: Manager, peer: Peer): Manager {
    m.(peers := m.peers - {peer})
  }

  /** A peer that could not be sent to makes room for the next one waiting. */
  function Replace(m: Manager, peer: Peer): Option<Manager> {
    var m1 := m.(peers := m.peers - {peer});
    if m1.deque == [] then Some(m1) else Connect(m1.(deque := m1.deque[1..]), m1.deque[0].1)
  }

  function ReplaceAll(m: Manager, failed: seq<Peer>): Option<Manager>
    decreases |failed|
  {
    if failed == [] then Some(m)
    else
      match Replace(m, failed[0])
      case Some(m1) => ReplaceAll(m1, failed[1..])
      case None => None
  }

  // ---- What they keep ----

  /** Connections are numbered by peer. */
  predicate Numbered(m: Manager) {
    forall p :: p in m.peers ==> m.peers[p] < |m.made| && m.made[m.peers[p]] == p
  }

  /** Nobody waits twice, or waits while connected; at most thirty are connected. */
  predicate Tidy(m: Manager) {
    && |m.peers| <= MAX_PEERS && Numbered(m)
    && (forall i :: 0 <= i < |m.deque| ==> m.deque[i].1 !in m.peers)
    && forall i, j :: 0 <= i < j < |m.deque| ==> m.deque[i].1 != m.deque[j].1
  }

  lemma Smaller<K, V>(m: map<K, V>, k: K)
    ensures |m - {k}| <= |m| && (k in m ==> |m - {k}| == |m| - 1)
    ensures |(m - {k}).Keys| == |m - {k}|
  {
    assert (m - {k}).Keys == m.Keys - {k};
  }

  lemma ConnectKeeps(m: Manager, peer: Peer)
    requires Tidy(m) && peer !in m.peers && |m.peers| < MAX_PEERS
    requires forall i :: 0 <= i < |m.deque| ==> m.deque[i].1 != peer
    ensures Connect(m, peer).Some? && Tidy(Connect(m, peer).value)
  {
    var r := Connect(m, peer).value;
    assert r.peers.Keys == m.peers.Keys + {peer};
  }

  /** A `Connection` event never makes `connect` fail, and it keeps the book tidy exactly when the same
      peer does not wait already with the other handshake order. */
  lemma OnConnectionKeepsIff(m: Manager, flag: bool, peer: Peer)
    requires Tidy(m)
    ensures OnConnection(m, flag, peer).Some?
    ensures Tidy(OnConnection(m, flag, peer).value) <==> (!flag, peer) !in m.deque
  {
    var r := OnConnection(m, flag, peer).value;
    if (!flag, peer) in m.deque {
      var i :| 0 <= i < |m.deque| && m.deque[i] == (!flag, peer);
      assert peer !in m.peers && m.deque[i].1 == peer;
      if (flag, peer) in m.deque {
        var j :| 0 <= j < |m.deque| && m.deque[j] == (flag, peer);
        assert false;
      }
      if |m.peers| < MAX_PEERS {
        assert r.deque[i].1 in r.peers;
      } else {
        assert r.deque[i].1 == r.deque[|m.deque|].1;
      }
    } else if peer !in m.peers && (flag, peer) !in m.deque {
      forall i | 0 <= i < |m.deque| ensures m.deque[i].1 != peer {
        var (waiting, p) := m.deque[i];
        assert (waiting, p) in m.deque && (waiting == flag || waiting == !flag);
      }
      if |m.peers| < MAX_PEERS { ConnectKeeps(m, peer); }
    }
  }

  lemma DisconnectKeeps(m: Manager, peer: Peer)
    requires Tidy(m)
    ensures Tidy(Disconnect(m, peer))
  {
    Smaller(m.peers, peer);
  }

  lemma ReplaceKeeps(m: Manager, peer: Peer)
    requires Tidy(m) && peer in m.peers
    ensures Replace(m, peer).Some? && Tidy(Replace(m, peer).value)
    ensures forall p :: p in m.peers && p != peer ==> p in Replace(m, peer).value.peers
  {
    Smaller(m.peers, peer);
    var m1 := m.(peers := m.peers - {peer});
    if m1.deque != [] { ConnectKeeps(m1.(deque := m1.deque[1..]), m1.deque[0].1); }
  }

  /** The replacements after a broadcast never make `connect` fail, and keep the book tidy. */
  lemma {:induction false} ReplaceAllKeeps(m: Manager, failed: seq<Peer>)
    requires Tidy(m) && forall i :: 0 <= i < |failed| ==> failed[i] in m.peers
    requires forall i, j :: 0 <= i < j < |failed| ==> failed[i] != failed[j]
    ensures ReplaceAll(m, failed).Some? && Tidy(ReplaceAll(m, failed).value)
    decreases |failed|
  {
    if failed != [] {
      ReplaceKeeps(m, failed[0]);
      ReplaceAllKeeps(Replace(m, failed[0]).value, failed[1..]);
    }
  }

  /** Connections already made keep their numbers; a peer that stays is where it was. */
  lemma ReplaceFrame(m: Manager, peer: Peer)
    requires Replace(m, peer).Some? && Numbered(m)
    ensures var r := Replace(m, peer).value;
            && m.made <= r.made && Numbered(r)
            && (forall p :: p in r.peers && r.peers[p] < |m.made| ==>
                  p in m.peers && m.peers[p] == r.peers[p] && p != peer)
  {
    var m1 := m.(peers := m.peers - {peer});
    if m1.deque != [] { assert Connect(m1.(deque := m1.deque[1..]), m1.deque[0].1).Some?; }
  }

  lemma {:induction false} ReplaceAllFrame(m: Manager, failed: seq<Peer>)
    requires ReplaceAll(m, failed).Some? && Numbered(m)
    ensures var r := ReplaceAll(m, failed).value;
            && m.made <= r.made && Numbered(r)
            && (forall p :: p in r.peers && r.peers[p] < |m.made| ==>
                  p in m.peers && m.peers[p] == r.peers[p] && p !in failed)
    decreases |failed|
  {
    if failed != [] {
      ReplaceFrame(m, failed[0]);
      ReplaceAllFrame(Replace(m, failed[0]).value, failed[1..]);
    }
  }

  lemma OnConnectionFrame(m: Manager, flag: bool, peer: Peer)
    requires OnConnection(m, flag, peer).Some? && Numbered(m)
    ensures var r := OnConnection(m, flag, peer).value;
            && m.made <= r.made && Numbered(r)
            && (forall p :: p in r.peers && r.peers[p] < |m.made| ==> p in m.peers && m.peers[p] == r.peers[p])
  {
  }

  // ---- Runs of manager events ----

  /** What changes the book: connections asked for, connections that end, and broadcasts with the peers that
      could not be sent to. */
  datatype Event =
    | Connection(sendHandshakeFirst: bool, peer: Peer)
    | Disconnected(peer: Peer)
    | Broadcast(failed: seq<Peer>)

  /** The send loop of a broadcast lists registered peers, each once. */
  ghost predicate Failing(m: Manager, failed: seq<Peer>) {
    && (forall i :: 0 <= i < |failed| ==> failed[i] in m.peers)
    && forall i, j :: 0 <= i < j < |failed| ==> failed[i] != failed[j]
  }

  /** `None` is the assertion in `connect` failing. */
  function Process(m: Manager, e: Event): Option<Manager> {
    match e
    case Connection(flag, peer) => OnConnection(m, flag, peer)
    case Disconnected(peer) => Some(Disconnect(m, peer))
    case Broadcast(failed) => ReplaceAll(m, failed)
  }

  function ProcessAll(m: Manager, events: seq<Event>): Option<Manager>
    decreases |events|
  {
    if events == [] then Some(m)
    else
      match Process(m, events[0])
      case Some(m1) => ProcessAll(m1, events[1..])
      case None => None
  }

  ghost predicate EventsFit(m: Manager, events: seq<Event>)
    decreases |events|
  {
    events == [] ||
    (&& (events[0].Broadcast? ==> Failing(m, events[0].failed))
     && match Process(m, events[0])
        case Some(m1) => EventsFit(m1, events[1..])
        case None => true)
  }

  const NOBODY := Manager(map[], [], [])

  predicate AllWait(m: Manager, flag: bool) {
    forall i :: 0 <= i < |m.deque| ==> m.deque[i].0 == flag
  }

  ghost predicate OneOrder(events: seq<Event>, flag: bool) {
    forall i :: 0 <= i < |events| && events[i].Connection? ==> events[i].sendHandshakeFirst == flag
  }

  lemma {:induction false} ReplaceAllWait(m: Manager, failed: seq<Peer>, flag: bool)
    requires AllWait(m, flag) && ReplaceAll(m, failed).Some?
    ensures AllWait(ReplaceAll(m, failed).value, flag)
    decreases |failed|
  {
    if failed != [] { ReplaceAllWait(Replace(m, failed[0]).value, failed[1..], flag); }
  }

  /** While all connections are asked for with one handshake order, no event fails `connect`, and each keeps
      the book tidy. */
  lemma ProcessKeeps(m: Manager, e: Event, flag: bool)
    requires Tidy(m) && AllWait(m, flag)
    requires e.Connection? ==> e.sendHandshakeFirst == flag
    requires e.Broadcast? ==> Failing(m, e.failed)
    ensures Process(m, e).Some? && Tidy(Process(m, e).value) && AllWait(Process(m, e).value, flag)
  {
    match e
    case Connection(_, peer) => OnConnectionKeepsIff(m, flag, peer);
    case Disconnected(peer) => DisconnectKeeps(m, peer);
    case Broadcast(failed) =>
      ReplaceAllKeeps(m, failed);
      ReplaceAllWait(m, failed, flag);
  }

  lemma {:induction false} ProcessAllKeeps(m: Manager, events: seq<Event>, flag: bool)
    requires Tidy(m) && AllWait(m, flag) && OneOrder(events, flag) && EventsFit(m, events)
    ensures ProcessAll(m, events).Some? && Tidy(ProcessAll(m, events).value)
    decreases |events|
  {
    if events != [] {
      ProcessKeeps(m, events[0], flag);
      ProcessAllKeeps(Process(m, events[0]).value, events[1..], flag);
    }
  }

  /** From the start, whatever connections the tracker asks for (it always has us shake hands first), whichever
      end and whichever cannot be sent to: the book stays tidy and the assertion in `connect` never fails. */
  lemma EveryRunIsTidy(events: seq<Event>)
    requires OneOrder(events, true) && EventsFit(NOBODY, events)
    ensures ProcessAll(NOBODY, events).Some? && Tidy(ProcessAll(NOBODY, events).value)
  {
    ProcessAllKeeps(NOBODY, events, true);
  }

  // ---- The latent case: both orders ----

  function Guest(i: nat): Peer {
    Peer("", i)
  }

  function Arrivals(n: nat): seq<Event> {
    if n == 0 then [] else Arrivals(n - 1) + [Connection(true, Guest(n - 1))]
  }

  /** The book with the first `n` guests connected and nobody waiting. */
  ghost predicate Seated(m: Manager, n: nat) {
    && Tidy(m) && m.deque == [] && |m.peers| == n
    && forall p :: p in m.peers <==> p.ip == "" && p.port < n
  }

  ghost function Book(n: nat): Manager {
    if n == 0 then NOBODY else var m := Book(n - 1); Connect(m, Guest(n - 1)).GetOr(m)
  }

  lemma ConnectCounts(m: Manager, peer: Peer)
    requires peer !in m.peers
    ensures |Connect(m, peer).value.peers| == |m.peers| + 1
  {
    assert Connect(m, peer).value.peers.Keys == m.peers.Keys + {peer};
  }

  lemma OneMoreSeated(m: Manager, n: nat)
    requires Seated(m, n) && n < MAX_PEERS
    ensures Connect(m, Guest(n)).Some? && Seated(Connect(m, Guest(n)).value, n + 1)
  {
    ConnectKeeps(m, Guest(n));
    ConnectCounts(m, Guest(n));
  }

  lemma {:induction false} BookIsSeated(n: nat)
    requires n <= MAX_PEERS
    ensures Seated(Book(n), n)
  {
    if n > 0 {
      BookIsSeated(n - 1);
      OneMoreSeated(Book(n - 1), n - 1);
    }
  }

  lemma {:induction false} ProcessThen(m: Manager, events: seq<Event>, later: seq<Event>, r: Manager)
    requires EventsFit(m, events) && ProcessAll(m, events) == Some(r)
    ensures ProcessAll(m, events + later) == ProcessAll(r, later)
    ensures EventsFit(m, events + later) <==> EventsFit(r, later)
    decreases |events|
  {
    if events == [] {
      assert events + later == later;
    } else {
      assert (events + later)[1..] == events[1..] + later;
      ProcessThen(Process(m, events[0]).value, events[1..], later, r);
    }
  }

  lemma GuestArrives(n: nat)
    requires n < MAX_PEERS
    ensures var e := Connection(true, Guest(n));
            EventsFit(Book(n), [e]) && ProcessAll(Book(n), [e]) == Some(Book(n + 1))
  {
    BookIsSeated(n);
    OneMoreSeated(Book(n), n);
    var e := Connection(true, Guest(n));
    assert [e][1..] == [] && Process(Book(n), e) == Some(Book(n + 1));
  }

  lemma {:induction false} GuestsArrive(n: nat)
    requires n <= MAX_PEERS
    ensures EventsFit(NOBODY, Arrivals(n)) && ProcessAll(NOBODY, Arrivals(n)) == Some(Book(n))
  {
    if n > 0 {
      var k := n - 1;
      GuestsArrive(k);
      GuestArrives(k);
      ProcessThen(NOBODY, Arrivals(k), [Connection(true, Guest(k))], Book(k));
      assert Arrivals(n) == Arrivals(k) + [Connection(true, Guest(k))];
    }
  }

  /** One peer asked for in both orders, and two connections found gone by a broadcast. */
  function BothOrders(p: Peer): seq<Event> {
    [Connection(true, p), Connection(false, p), Broadcast([Guest(0), Guest(1)])]
  }

  /** Were connections asked for in the other order too, as `Connection` allows but nothing does yet, a run
      from the start would make the assertion in `connect` fail: when all places are taken. */
  lemma MixedOrdersFail(n: nat)
    requires n == MAX_PEERS
    ensures EventsFit(NOBODY, Arrivals(n) + BothOrders(Guest(n)))
    ensures ProcessAll(NOBODY, Arrivals(n) + BothOrders(Guest(n))) == None
  {
    GuestsArrive(n);
    BookIsSeated(n);
    ProcessThen(NOBODY, Arrivals(n), BothOrders(Guest(n)), Book(n));
    FullBookFails(Book(n), Guest(n));
  }

  lemma FullBookFails(m: Manager, p: Peer)
    requires |m.peers| == MAX_PEERS && m.deque == [] && p !in m.peers && Guest(0) in m.peers && Guest(1) in m.peers
    ensures EventsFit(m, BothOrders(p)) && ProcessAll(m, BothOrders(p)) == None
  {
    var es := BothOrders(p);
    var m1, m2 := m.(deque := [(true, p)]), m.(deque := [(true, p), (false, p)]);
    assert m.deque + [(true, p)] == m1.deque && m1.deque + [(false, p)] == m2.deque;
    assert (false, p) !in m1.deque;
    BothWaitFails(m2, p, Guest(0), Guest(1));
    assert Process(m, es[0]) == Some(m1) && Process(m1, es[1]) == Some(m2) && Process(m2, es[2]) == None;
    assert ProcessAll(m2, [es[2]]) == None && EventsFit(m2, [es[2]]);
    assert [es[1], es[2]][1..] == [es[2]] && es[1..] == [es[1], es[2]];
    assert ProcessAll(m1, [es[1], es[2]]) == None && EventsFit(m1, [es[1], es[2]]);
  }

  lemma BothWaitFails(m: Manager, p: Peer, g0: Peer, g1: Peer)
    requires m.deque == [(true, p), (false, p)] && p !in m.peers && g0 in m.peers && g1 in m.peers && g0 != g1
    ensures Failing(m, [g0, g1]) && ReplaceAll(m, [g0, g1]) == None
  {
    var m1 := m.(peers := m.peers - {g0}, deque := m.deque[1..]);
    assert m.deque[1..] == [(false, p)] && [g0, g1][1..] == [g1];
    assert Replace(m, g0) == Connect(m1, p);
    var m2 := Connect(m1, p).value;
    assert m2.deque[1..] == [];
    assert p in m2.peers - {g1};
    assert Replace(m2, g1) == None;
  }
}
