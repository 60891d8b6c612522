/** The manager's book as a history: who is registered, which connection a peer is registered with, and who waits,
    told from the events alone. */
module ManagerRuns {
  import opened ByteStrings
  import opened ManagerModel
  import opened History

  // ---- One event ----

  /** The end of a connection takes its peer out of the book and changes nothing else. */
  lemma DisconnectTakesOut(m: Manager, peer: Peer)
    ensures var r := Disconnect(m, peer);
            && r.peers.Keys == m.peers.Keys - {peer}
            && (forall p :: p in r.peers ==> r.peers[p] == m.peers[p])
            && r.deque == m.deque && r.made == m.made
  {
  }

  function Min(a: nat, b: nat): nat {
    if a < b then a else b
  }

  /** The peers that wait, first come first. */
  function Names(deque: seq<(bool, Peer)>): seq<Peer> {
    seq(|deque|, i requires 0 <= i < |deque| => deque[i].1)
  }

  /** Whom a broadcast lets in: as many of those who wait as it has found gone, or all of them. */
  function LetIn(m: Manager, failed: seq<Peer>): seq<Peer> {
    Names(m.deque[..Min(|failed|, |m.deque|)])
  }

  /** What a broadcast makes of the book: those gone are out, those let in are registered with connections of
      their own in the order in which they waited, and everybody else is as before. */
  ghost predicate Replaced(m: Manager, failed: seq<Peer>, r: Manager) {
    && r.made == m.made + LetIn(m, failed) && r.deque == m.deque[Min(|failed|, |m.deque|)..]
    && (forall p :: p in r.peers <==> p in LetIn(m, failed) || (p in m.peers && p !in failed))
    && (forall p :: p in r.peers && p !in LetIn(m, failed) ==> r.peers[p] == m.peers[p])
  }

  lemma NamesHead(deque: seq<(bool, Peer)>, k: nat)
    requires 0 < k <= |deque|
    ensures Names(deque[..k]) == [deque[0].1] + Names(deque[1..][..k - 1])
  {
  }

  lemma ReplaceIs(m: Manager, peer: Peer)
    requires Tidy(m) && peer in m.peers
    ensures Replace(m, peer).Some? && Replaced(m, [peer], Replace(m, peer).value)
  {
    ReplaceKeeps(m, peer);
    if m.deque != [] { assert LetIn(m, [peer]) == [m.deque[0].1]; }
  }

  lemma {:induction false} ReplaceAllIs(m: Manager, failed: seq<Peer>)
    requires Tidy(m) && Failing(m, failed)
    ensures ReplaceAll(m, failed).Some? && Replaced(m, failed, ReplaceAll(m, failed).value)
    decreases |failed|
  {
    if failed == [] {
      assert LetIn(m, failed) == [] && m.made + [] == m.made;
    } else {
      var m1 := Replace(m, failed[0]).value;
      ReplaceKeeps(m, failed[0]);
      ReplaceIs(m, failed[0]);
      ReplaceAllIs(m1, failed[1..]);
      assert ReplaceAll(m, failed) == ReplaceAll(m1, failed[1..]);
      ReplacedTwice(m, failed, m1, ReplaceAll(m1, failed[1..]).value);
    }
  }

  lemma LetInTwice(m: Manager, failed: seq<Peer>, m1: Manager)
    requires failed != [] && m1.deque == m.deque[Min(1, |m.deque|)..]
    ensures LetIn(m, failed) == LetIn(m, [failed[0]]) + LetIn(m1, failed[1..])
    ensures m1.deque[Min(|failed| - 1, |m1.deque|)..] == m.deque[Min(|failed|, |m.deque|)..]
  {
    var k := Min(|failed|, |m.deque|);
    if m.deque != [] {
      NamesHead(m.deque, 1);
      NamesHead(m.deque, k);
      assert Names(m.deque[1..][..0]) == [];
      assert m.deque[1..][k - 1..] == m.deque[k..];
    }
  }

  lemma LetInWaits(m: Manager, failed: seq<Peer>, p: Peer)
    requires Tidy(m) && Failing(m, failed) && p in LetIn(m, failed)
    ensures p !in m.peers && p !in failed
  {
    var i :| 0 <= i < |LetIn(m, failed)| && LetIn(m, failed)[i] == p;
    assert m.deque[i].1 == p;
  }

  lemma ReplacedTwice(m: Manager, failed: seq<Peer>, m1: Manager, r: Manager)
    requires Tidy(m) && failed != [] && Failing(m, failed)
    requires Replaced(m, [failed[0]], m1) && Replaced(m1, failed[1..], r)
    ensures Replaced(m, failed, r)
  {
    LetInTwice(m, failed, m1);
    assert failed == [failed[0]] + failed[1..];
    var first, later, all := LetIn(m, [failed[0]]), LetIn(m1, failed[1..]), LetIn(m, failed);
    assert m.made + first + later == m.made + all;
    forall p ensures p in r.peers <==> p in all || (p in m.peers && p !in failed) {
      assert p in r.peers <==> p in later || (p in m1.peers && p !in failed[1..]);
      if p in all { LetInWaits(m, failed, p); }
    }
    forall p | p in r.peers && p !in all ensures r.peers[p] == m.peers[p] {
      assert p !in later && p !in first;
    }
  }

  // ---- Runs ----

  /** The books after each event of a run. */
  ghost predicate Course(ms: seq<Manager>, events: seq<Event>) {
    && |ms| == |events| + 1 && ms[0] == NOBODY && OneOrder(events, true)
    && forall i :: 0 <= i < |events| ==> Leads(ms[i], events[i], ms[i + 1])
  }

  ghost predicate Leads(m: Manager, e: Event, r: Manager) {
    (e.Broadcast? ==> Failing(m, e.failed)) && Process(m, e) == Some(r)
  }

  ghost predicate Good(m: Manager) {
    Tidy(m) && AllWait(m, true)
  }

  lemma LeadsKeeps(m: Manager, e: Event, r: Manager)
    requires Good(m) && Leads(m, e, r) && (e.Connection? ==> e.sendHandshakeFirst)
    ensures Good(r)
  {
    ProcessKeeps(m, e, true);
  }

  lemma {:induction false} CourseKeeps(ms: seq<Manager>, events: seq<Event>, i: nat)
    requires Course(ms, events) && i <= |events|
    ensures Good(ms[i])
  {
    if i > 0 {
      var k := i - 1;
      CourseKeeps(ms, events, k);
      assert Leads(ms[k], events[k], ms[k + 1]);
      LeadsKeeps(ms[k], events[k], ms[k + 1]);
    }
  }

  /** A connection to the peer is made between the two books. */
  predicate Made(m: Manager, r: Manager, p: Peer) {
    |m.made| <= |r.made| && p in r.made[|m.made|..]
  }

  /** The peer's connection has ended, or a broadcast has found it gone. */
  predicate Drops(e: Event, p: Peer) {
    match e
    case Connection(_, _) => false
    case Disconnected(peer) => peer == p
    case Broadcast(failed) => p in failed
  }

  /** Which connections an event makes, and who then waits. */
  lemma ProcessMakes(m: Manager, e: Event, r: Manager)
    requires Good(m) && Leads(m, e, r) && (e.Connection? ==> e.sendHandshakeFirst)
    ensures match e
            case Connection(_, peer) =>
              var first := peer !in m.peers && (true, peer) !in m.deque;
              && r.made == m.made + (if first && |m.peers| < 30 then [peer] else [])
              && r.deque == m.deque + (if first && |m.peers| >= 30 then [(true, peer)] else [])
            case Disconnected(_) => r.made == m.made && r.deque == m.deque
            case Broadcast(failed) =>
              r.made == m.made + LetIn(m, failed) && r.deque == m.deque[Min(|failed|, |m.deque|)..]
  {
    if e.Broadcast? { ReplaceAllIs(m, e.failed); }
  }

  /** After an event a peer is registered if a connection to it has just been made, or it was and has not been
      dropped; and it stays registered with the connection it had. */
  lemma ProcessRegisters(m: Manager, e: Event, r: Manager, p: Peer)
    requires Good(m) && Leads(m, e, r) && (e.Connection? ==> e.sendHandshakeFirst)
    ensures p in r.peers <==> Made(m, r, p) || (p in m.peers && !Drops(e, p))
    ensures p in m.peers && p in r.peers ==> r.peers[p] == m.peers[p] && !Made(m, r, p)
    ensures p !in m.peers && p in r.peers ==> r.peers[p] >= |m.made|
  {
    LeadsKeeps(m, e, r);
    match e
    case Connection(_, peer) =>
    case Disconnected(peer) => DisconnectTakesOut(m, peer);
    case Broadcast(failed) =>
      ReplaceAllIs(m, failed);
      assert r.made[|m.made|..] == LetIn(m, failed);
      if p in LetIn(m, failed) { LetInWaits(m, failed, p); }
      if p in r.peers && p !in m.peers && r.peers[p] < |m.made| { ReplaceAllFrame(m, failed); }
  }

  // ---- Who is registered ----

  ghost predicate MadeBefore(ms: seq<Manager>, events: seq<Event>, p: Peer, j: nat)
    requires |ms| == |events| + 1 && j <= |events|
  {
    exists i :: 0 <= i < j && Made(ms[i], ms[i + 1], p) && KeptBetween(events, p, i, j)
  }

  ghost predicate KeptBetween(events: seq<Event>, p: Peer, i: nat, j: nat)
    requires j <= |events|
  {
    forall l :: i < l < j ==> !Drops(events[l], p)
  }

  function Ups(ms: seq<Manager>, p: Peer): seq<bool>
    requires |ms| > 0
  {
    seq(|ms| - 1, i requires 0 <= i < |ms| - 1 => Made(ms[i], ms[i + 1], p))
  }

  function Downs(events: seq<Event>, p: Peer): seq<bool> {
    seq(|events|, i requires 0 <= i < |events| => Drops(events[i], p))
  }

  function Flags(ms: seq<Manager>, p: Peer): seq<bool> {
    seq(|ms|, i requires 0 <= i < |ms| => p in ms[i].peers)
  }

  lemma FlagsFollow(ms: seq<Manager>, events: seq<Event>, p: Peer, i: nat)
    requires Course(ms, events) && i < |events|
    ensures Follows(Ups(ms, p), Downs(events, p), Flags(ms, p), i)
  {
    CourseKeeps(ms, events, i);
    assert Leads(ms[i], events[i], ms[i + 1]);
    ProcessRegisters(ms[i], events[i], ms[i + 1], p);
  }

  lemma RaisedIsMade(ms: seq<Manager>, events: seq<Event>, p: Peer, i: nat, j: nat)
    requires |ms| == |events| + 1 && i < j <= |events|
    ensures RaisedAt(Ups(ms, p), Downs(events, p), i, j)
       <==> Made(ms[i], ms[i + 1], p) && KeptBetween(events, p, i, j)
  {
    var down := Downs(events, p);
    assert forall l :: i < l < j ==> down[l] == Drops(events[l], p);
  }

  /** In every run a peer is registered if and only if a connection to it has been made that has neither ended nor
      been found gone since. */
  lemma RegisteredIff(ms: seq<Manager>, events: seq<Event>, p: Peer, j: nat)
    requires Course(ms, events) && j <= |events|
    ensures p in ms[j].peers <==> MadeBefore(ms, events, p, j)
  {
    forall i | 0 <= i < |events| ensures Follows(Ups(ms, p), Downs(events, p), Flags(ms, p), i) {
      FlagsFollow(ms, events, p, i);
    }
    LastWins(Ups(ms, p), Downs(events, p), Flags(ms, p), j);
    if i :| 0 <= i < j && RaisedAt(Ups(ms, p), Downs(events, p), i, j) { RaisedIsMade(ms, events, p, i, j); }
    if i :| 0 <= i < j && Made(ms[i], ms[i + 1], p) && KeptBetween(events, p, i, j) {
      RaisedIsMade(ms, events, p, i, j);
    }
  }

  /** The peer's connection is the latest one made to it. */
  predicate Latest(m: Manager, p: Peer) {
    p in m.peers ==>
      && m.peers[p] < |m.made| && m.made[m.peers[p]] == p
      && forall x :: m.peers[p] < x < |m.made| ==> m.made[x] != p
  }

  lemma LetInDistinct(m: Manager, failed: seq<Peer>, i: nat, j: nat)
    requires Tidy(m) && i < j < |LetIn(m, failed)|
    ensures LetIn(m, failed)[i] != LetIn(m, failed)[j]
  {
    assert m.deque[i].1 != m.deque[j].1;
  }

  lemma MadeOnce(m: Manager, e: Event, r: Manager, i: nat, j: nat)
    requires Good(m) && Leads(m, e, r) && (e.Connection? ==> e.sendHandshakeFirst)
    requires |m.made| <= i < j < |r.made|
    ensures r.made[i] != r.made[j]
  {
    ProcessMakes(m, e, r);
    if e.Broadcast? { LetInDistinct(m, e.failed, i - |m.made|, j - |m.made|); }
  }

  lemma LeadsKeepsLatest(m: Manager, e: Event, r: Manager, p: Peer)
    requires Good(m) && Leads(m, e, r) && (e.Connection? ==> e.sendHandshakeFirst) && Latest(m, p)
    ensures Latest(r, p)
  {
    LeadsKeeps(m, e, r);
    ProcessRegisters(m, e, r, p);
    ProcessMakes(m, e, r);
    if p in r.peers {
      forall x | r.peers[p] < x < |r.made| ensures r.made[x] != p {
        if x >= |m.made| {
          assert r.made[|m.made|..][x - |m.made|] == r.made[x];
          if r.peers[p] >= |m.made| { MadeOnce(m, e, r, r.peers[p], x); }
        }
      }
    }
  }

  /** In every run each registered peer is so with the latest connection made to it. */
  lemma {:induction false} RegisteredWithLatest(ms: seq<Manager>, events: seq<Event>, p: Peer, j: nat)
    requires Course(ms, events) && j <= |events|
    ensures Latest(ms[j], p)
  {
    if j > 0 {
      var k := j - 1;
      RegisteredWithLatest(ms, events, p, k);
      CourseKeeps(ms, events, k);
      assert Leads(ms[k], events[k], ms[k + 1]);
      LeadsKeepsLatest(ms[k], events[k], ms[k + 1], p);
    }
  }

  // ---- Who waits ----

  /** The peers that have had to wait, in the order in which they came. */
  function HadToWait(ms: seq<Manager>, events: seq<Event>, j: nat): seq<Peer>
    requires |ms| == |events| + 1 && j <= |events|
  {
    if j == 0 then []
    else
      HadToWait(ms, events, j - 1) +
      if events[j - 1].Connection? && |ms[j - 1].deque| <= |ms[j].deque|
      then Names(ms[j].deque[|ms[j - 1].deque|..]) else []
  }

  /** The peers that broadcasts have let in, in that order. */
  function WereLetIn(ms: seq<Manager>, events: seq<Event>, j: nat): seq<Peer>
    requires |ms| == |events| + 1 && j <= |events|
  {
    if j == 0 then []
    else
      WereLetIn(ms, events, j - 1) +
      if events[j - 1].Broadcast? && |ms[j - 1].made| <= |ms[j].made| then ms[j].made[|ms[j - 1].made|..] else []
  }

  lemma NamesSplit(deque: seq<(bool, Peer)>, k: nat)
    requires k <= |deque|
    ensures Names(deque) == Names(deque[..k]) + Names(deque[k..])
  {
  }

  lemma OneEventServes(ms: seq<Manager>, events: seq<Event>, k: nat)
    requires |ms| == |events| + 1 && k < |events|
    requires Good(ms[k]) && Leads(ms[k], events[k], ms[k + 1])
    requires events[k].Connection? ==> events[k].sendHandshakeFirst
    requires HadToWait(ms, events, k) == WereLetIn(ms, events, k) + Names(ms[k].deque)
    ensures HadToWait(ms, events, k + 1) == WereLetIn(ms, events, k + 1) + Names(ms[k + 1].deque)
  {
    var m, r := ms[k], ms[k + 1];
    var let, had := WereLetIn(ms, events, k), HadToWait(ms, events, k);
    WaitersMove(m, events[k], r);
    match events[k]
    case Connection(_, _) => Assoc(let, Names(m.deque), Names(r.deque[|m.deque|..]));
    case Disconnected(_) => assert had + [] == had && let + [] == let;
    case Broadcast(_) =>
      Assoc(let, r.made[|m.made|..], Names(r.deque));
      assert had + [] == had;
  }

  /** First come, first served: in every run those let in and those who wait are those who have had to wait, in
      the order in which they came. */
  lemma {:induction false} FirstComeFirstServed(ms: seq<Manager>, events: seq<Event>, j: nat)
    requires Course(ms, events) && j <= |events|
    ensures HadToWait(ms, events, j) == WereLetIn(ms, events, j) + Names(ms[j].deque)
  {
    if j > 0 {
      var k := j - 1;
      FirstComeFirstServed(ms, events, k);
      CourseKeeps(ms, events, k);
      assert Leads(ms[k], events[k], ms[k + 1]);
      OneEventServes(ms, events, k);
    }
  }

  lemma WaitersMove(m: Manager, e: Event, r: Manager)
    requires Good(m) && Leads(m, e, r) && (e.Connection? ==> e.sendHandshakeFirst)
    ensures e.Connection? ==> |m.deque| <= |r.deque| && Names(r.deque) == Names(m.deque) + Names(r.deque[|m.deque|..])
    ensures e.Disconnected? ==> r.deque == m.deque
    ensures e.Broadcast? ==> |m.made| <= |r.made| && Names(m.deque) == r.made[|m.made|..] + Names(r.deque)
  {
    ProcessMakes(m, e, r);
    match e
    case Connection(_, _) =>
      NamesSplit(r.deque, |m.deque|);
      assert r.deque[..|m.deque|] == m.deque;
    case Disconnected(_) =>
    case Broadcast(failed) =>
      NamesSplit(m.deque, Min(|failed|, |m.deque|));
      assert r.made[|m.made|..] == LetIn(m, failed);
  }

  // ---- A free place is not given to those who wait ----

  /** However many places are free, the end of a connection lets nobody in, and a peer that waits and is asked for
      again goes on waiting: only a broadcast that finds a connection gone lets it in. */
  lemma WaitingIsPassedOver(m: Manager, peer: Peer, other: Peer)
    requires (true, peer) in m.deque
    ensures OnConnection(m, true, peer) == Some(m)
    ensures Disconnect(m, other).deque == m.deque && Disconnect(m, other).made == m.made
  {
  }

  /** Thirty-one guests, the end of one connection, and the last guest asked for again. */
  function OneLeaves(): seq<Event> {
    [Connection(true, Guest(30)), Disconnected(Guest(0)), Connection(true, Guest(30))]
  }

  /** Then a place is free and a guest waits. */
  lemma PlaceStaysFree()
    ensures var r := ProcessAll(NOBODY, Arrivals(30) + OneLeaves());
            && EventsFit(NOBODY, Arrivals(30) + OneLeaves()) && r.Some?
            && |r.value.peers| == 29 && r.value.deque == [(true, Guest(30))] && Guest(30) !in r.value.peers
  {
    var m := Book(30);
    GuestsArrive(30);
    BookIsSeated(30);
    ProcessThen(NOBODY, Arrivals(30), OneLeaves(), m);
    LeavesFree(m);
  }

  lemma LeavesFree(m: Manager)
    requires Seated(m, 30)
    ensures EventsFit(m, OneLeaves())
    ensures ProcessAll(m, OneLeaves()) == Some(m.(peers := m.peers - {Guest(0)}, deque := [(true, Guest(30))]))
    ensures |m.peers - {Guest(0)}| == 29 && Guest(30) !in m.peers
  {
    var es := OneLeaves();
    var m1 := m.(deque := [(true, Guest(30))]);
    var m2 := m1.(peers := m.peers - {Guest(0)});
    Smaller(m.peers, Guest(0));
    assert m.deque + [(true, Guest(30))] == m1.deque;
    assert Process(m, es[0]) == Some(m1) && Process(m1, es[1]) == Some(m2) && Process(m2, es[2]) == Some(m2);
    assert es[1..] == [es[1], es[2]] && [es[1], es[2]][1..] == [es[2]] && [es[2]][1..] == [];
    assert ProcessAll(m2, [es[2]]) == Some(m2) && EventsFit(m2, [es[2]]);
    assert ProcessAll(m1, [es[1], es[2]]) == Some(m2) && EventsFit(m1, [es[1], es[2]]);
  }
}
