/** Our work with a peer: every block that it has and we miss is asked for, none is forgotten before it has come,
    and we are interested just as long as there is one. */
module PeerWorkLaws {
  import opened ByteStrings
  import opened Pieces
  import opened Wire
  import opened PeerModel
  import opened BitfieldLaws
  import opened PeerRequestLaws
  import opened PeerSentLaws

  // ---- The blocks we still want from this peer ----

  function Asked(q: seq<Req>): set<Key> {
    set r | r in q :: KeyOf(r)
  }

  /** Still to be requested, or requested and outstanding. */
  function Pending(c: Conn): set<Key> {
    c.toRequest.Keys + Asked(c.me.requests)
  }

  function Listed(p: U32, missing: seq<(U32, U32)>): set<Key> {
    set m | m in missing :: (p, m.0)
  }

  /** The blocks that an event tells us the peer has and we miss: those listed for a piece that it announces. */
  function News(c: Conn, ipc: Ipc, env: Env): set<Key>
    requires WellFormed(c, ipc)
  {
    match ipc
    case FromPeer(Have(i)) => Listed(i, MissingOf(env.missing, i))
    case FromPeer(Bitfield(bits)) => NewsFrom(|c.he.hasPieces|, bits, 0, env.missing)
    case _ => {}
  }

  /** Those for the pieces from `i` on that a bitfield announces. */
  function NewsFrom(n: nat, bits: Bytes, i: nat, missing: map<U32, seq<(U32, U32)>>): set<Key>
    requires n <= 8 * |bits| && n < TWO_32
    decreases n - i
  {
    if i >= n then {}
    else (if IsSet(bits, i) then Listed(i, MissingOf(missing, i)) else {}) + NewsFrom(n, bits, i + 1, missing)
  }

  /** The block that an event brings, if it was requested, or that another peer has brought. */
  function Finished(c: Conn, ipc: Ipc): set<Key> {
    match ipc
    case FromPeer(Piece(p, offset, _)) => {(p, offset / 16384)} * Asked(c.me.requests)
    case BlockCompleted(p, b) => {(p, b)}
    case _ => {}
  }

  // ---- queue_blocks ----

  lemma AskedIff(q: seq<Req>, k: Key)
    ensures k in Asked(q) <==> Has(q, k.0, k.1)
  {
    HasIsMembership(q, k.0, k.1);
    if k in Asked(q) {
      var r :| r in q && KeyOf(r) == k;
      var i :| 0 <= i < |q| && q[i] == r;
      assert KeyOf(q[i]) == (k.0, k.1);
    }
    if Has(q, k.0, k.1) {
      var i :| 0 <= i < |q| && KeyOf(q[i]) == (k.0, k.1);
      assert q[i] in q;
    }
  }

  /** Every missing block is queued unless it is outstanding; what was queued stays, and nothing else comes. */
  lemma {:induction false} QueueBlocksQueues(c: Conn, p: U32, missing: seq<(U32, U32)>)
    ensures var r := QueueBlocks(c, p, missing);
            && r == c.(toRequest := r.toRequest)
            && r.toRequest.Keys == c.toRequest.Keys + (Listed(p, missing) - Asked(c.me.requests))
    decreases |missing|
  {
    if missing != [] {
      var (b, length) := missing[0];
      AskedIff(c.me.requests, (p, b));
      var c1 := if Has(c.me.requests, p, b) then c else c.(toRequest := c.toRequest[(p, b) := Target(p, b, length)]);
      QueueBlocksQueues(c1, p, missing[1..]);
      ListedHead(p, missing);
    }
  }

  lemma ListedHead(p: U32, missing: seq<(U32, U32)>)
    requires missing != []
    ensures Listed(p, missing) == {(p, missing[0].0)} + Listed(p, missing[1..])
  {
    assert missing == [missing[0]] + missing[1..];
    forall k | k in Listed(p, missing) ensures k in {(p, missing[0].0)} + Listed(p, missing[1..]) {
      var m :| m in missing && k == (p, m.0);
      if m != missing[0] { assert m in missing[1..]; }
    }
    forall k | k in Listed(p, missing[1..]) ensures k in Listed(p, missing) {
      var m :| m in missing[1..] && k == (p, m.0);
      assert m in missing;
    }
  }

  lemma AnnouncePends(c: Conn, p: U32, missing: map<U32, seq<(U32, U32)>>)
    ensures Pending(Announce(c, p, missing)) == Pending(c) + Listed(p, MissingOf(missing, p))
    ensures Announce(c, p, missing).me == c.me && Announce(c, p, missing).he == c.he
  {
    QueueBlocksQueues(c.(log := c.log.(announced := c.log.announced + {p})), p, MissingOf(missing, p));
  }

  /** One bit of the loop over a bitfield. */
  function TakeBit(c: Conn, i: U32, value: bool, missing: map<U32, seq<(U32, U32)>>): Conn
    requires i < |c.he.hasPieces|
  {
    var c1 := c.(he := c.he.(hasPieces := c.he.hasPieces[i := value]));
    if value then Announce(c1, i, missing) else c1
  }

  lemma TakeBitPends(c: Conn, i: U32, value: bool, missing: map<U32, seq<(U32, U32)>>)
    requires i < |c.he.hasPieces|
    ensures Pending(TakeBit(c, i, value, missing))
         == Pending(c) + if value then Listed(i, MissingOf(missing, i)) else {}
    ensures |TakeBit(c, i, value, missing).he.hasPieces| == |c.he.hasPieces|
  {
    AnnouncePends(c.(he := c.he.(hasPieces := c.he.hasPieces[i := value])), i, missing);
  }

  lemma OneBitMore(c: Conn, bits: Bytes, i: U32, missing: map<U32, seq<(U32, U32)>>)
    requires i < |c.he.hasPieces| <= 8 * |bits| && |c.he.hasPieces| < TWO_32
    ensures var c1, n := TakeBit(c, i, BitAt(bits, i), missing), |c.he.hasPieces|;
            && |c1.he.hasPieces| == n
            && Pending(c1) + NewsFrom(n, bits, i + 1, missing) == Pending(c) + NewsFrom(n, bits, i, missing)
  {
    BitAtIsSet(bits, i);
    TakeBitPends(c, i, BitAt(bits, i), missing);
  }

  lemma {:induction false} TakeBitsPends(c: Conn, bits: Bytes, i: nat, missing: map<U32, seq<(U32, U32)>>)
    requires |c.he.hasPieces| <= 8 * |bits| && |c.he.hasPieces| < TWO_32
    ensures Pending(TakeBits(c, bits, i, missing)) == Pending(c) + NewsFrom(|c.he.hasPieces|, bits, i, missing)
    decreases |c.he.hasPieces| - i
  {
    if i < |c.he.hasPieces| {
      var c1 := TakeBit(c, i, BitAt(bits, i), missing);
      OneBitMore(c, bits, i, missing);
      TakeBitsPends(c1, bits, i + 1, missing);
    }
  }

  // ---- request_more_blocks ----

  lemma AskedOneMore(q: seq<Req>, r: Req)
    ensures Asked(q + [r]) == Asked(q) + {KeyOf(r)}
  {
    assert forall x :: x in q + [r] <==> x in q || x == r;
    assert r in q + [r];
  }

  /** `m` asks for block `k`, at its place. */
  predicate AsksFor(m: Message, k: Key) {
    m.Request? && m.index == k.0 && m.offset == k.1 * 16384
  }

  ghost predicate SaidSo(sent: seq<Message>, k: Key) {
    exists m :: m in sent && AsksFor(m, k)
  }

  lemma RequestOnePends(lengths: seq<nat>, c: Conn, k: Key)
    requires Requests(lengths, c) && k in c.toRequest
    ensures Pending(RequestOne(c, k)) == Pending(c)
    ensures var r := RequestOne(c, k);
            && r == c.(toRequest := r.toRequest, me := c.me.(requests := r.me.requests), sent := r.sent)
            && Asked(r.me.requests) == Asked(c.me.requests) + {k}
            && |r.sent| == |c.sent| + 1 && r.sent[..|c.sent|] == c.sent && AsksFor(r.sent[|c.sent|], k)
  {
    AddNeverFails(lengths, c, k);
    assert GoodTarget(lengths, c, k);
    var t := c.toRequest[k];
    AskedOneMore(c.me.requests, Req(t.piece, t.block, t.block * BLOCK_SIZE, t.length));
    assert (c.toRequest - {k}).Keys == c.toRequest.Keys - {k};
  }

  /** The loop forgets no block, and ends with ten requests out or none left to make. */
  lemma {:induction false} FillPends(lengths: seq<nat>, c: Conn, picks: seq<Key>)
    requires Requests(lengths, c) && PicksFill(c, picks)
    ensures var r := Fill(c, picks);
            && r == c.(toRequest := r.toRequest, me := c.me.(requests := r.me.requests), sent := r.sent)
            && Pending(r) == Pending(c) && c.sent <= r.sent && (|r.me.requests| >= 10 || r.toRequest == map[])
    decreases |picks|
  {
    if picks != [] {
      RequestOnePends(lengths, c, picks[0]);
      RequestOneKeeps(lengths, c, picks[0]);
      FillPends(lengths, RequestOne(c, picks[0]), picks[1..]);
    }
  }

  /** And it has asked for each block that it has taken. */
  lemma {:induction false} FillSays(lengths: seq<nat>, c: Conn, picks: seq<Key>, k: Key)
    requires Requests(lengths, c) && PicksFill(c, picks)
    ensures c.sent <= Fill(c, picks).sent
    ensures k in Asked(Fill(c, picks).me.requests) <==>
              k in Asked(c.me.requests) || SaidSo(Fill(c, picks).sent[|c.sent|..], k)
    decreases |picks|
  {
    if picks != [] {
      var c1 := RequestOne(c, picks[0]);
      RequestOnePends(lengths, c, picks[0]);
      RequestOneKeeps(lengths, c, picks[0]);
      FillSays(lengths, c1, picks[1..], k);
      SaidNow(c.sent, c1.sent, Fill(c1, picks[1..]).sent, k, picks[0]);
    }
  }

  lemma SaidNow(before: seq<Message>, next: seq<Message>, after: seq<Message>, k: Key, first: Key)
    requires |next| == |before| + 1 && before <= next <= after && AsksFor(next[|before|], first)
    ensures SaidSo(after[|before|..], k) <==> k == first || SaidSo(after[|next|..], k)
  {
    SaidFirst(before, next, after, k);
  }

  lemma SaidFirst(before: seq<Message>, next: seq<Message>, after: seq<Message>, k: Key)
    requires |next| == |before| + 1 && before <= next <= after
    ensures SaidSo(after[|before|..], k) <==> AsksFor(next[|before|], k) || SaidSo(after[|next|..], k)
  {
    assert after[|before|..] == [next[|before|]] + after[|next|..];
    if AsksFor(next[|before|], k) { assert next[|before|] in after[|before|..]; }
    if SaidSo(after[|next|..], k) {
      var m :| m in after[|next|..] && AsksFor(m, k);
      assert m in after[|before|..];
    }
  }

  // ---- Blocks that are finished ----

  lemma AskedAt(q: seq<Req>, k: Key) returns (i: nat)
    requires k in Asked(q)
    ensures i < |q| && KeyOf(q[i]) == k
  {
    var r :| r in q && KeyOf(r) == k;
    i :| 0 <= i < |q| && q[i] == r;
  }

  lemma WithoutIsAsked(q: seq<Req>, p: U32, b: U32, k: Key)
    requires Distinct(q) && k in Asked(Without(q, Position(q, p, b)))
    ensures k in Asked(q) && k != (p, b)
  {
    var i := Position(q, p, b);
    var a := AskedAt(Without(q, i), k);
    assert q[if a < i then a else if i < |q| then a + 1 else a] == Without(q, i)[a];
  }

  lemma AskedWithout(q: seq<Req>, p: U32, b: U32)
    requires Distinct(q)
    ensures Asked(Without(q, Position(q, p, b))) == Asked(q) - {(p, b)}
  {
    var i := Position(q, p, b);
    var q1 := Without(q, i);
    forall k | k in Asked(q1) ensures k in Asked(q) && k != (p, b) { WithoutIsAsked(q, p, b, k); }
    forall k | k in Asked(q) && k != (p, b) ensures k in Asked(q1) {
      var a := AskedAt(q, k);
      assert q1[if a < i then a else a - 1] == q[a];
    }
  }

  lemma TakeOffPends(lengths: seq<nat>, c: Conn, p: U32, b: U32)
    requires Requests(lengths, c)
    ensures Pending(TakeOffList(c, p, b)) == Pending(c) - ({(p, b)} * Asked(c.me.requests))
  {
    AskedWithout(c.me.requests, p, b);
    forall k | k in Asked(c.me.requests) ensures k !in c.toRequest {
      var i := AskedAt(c.me.requests, k);
      assert GoodRequest(lengths, c, c.me.requests[i]);
    }
  }

  lemma CancelPends(c: Conn, p: U32, b: U32)
    requires Distinct(c.me.requests)
    ensures Pending(CancelBlock(c, p, b)) == Pending(c) - {(p, b)}
  {
    AskedWithout(c.me.requests, p, b);
    assert (c.toRequest - {(p, b)}).Keys == c.toRequest.Keys - {(p, b)};
  }

  // ---- One event ----

  lemma BeforeRequestsPends(lengths: seq<nat>, c: Conn, ipc: Ipc, env: Env)
    requires Requests(lengths, c) && WellFormed(c, ipc)
    ensures match BeforeRequests(c, ipc, env)
            case Some(c1) => Pending(c1) == Pending(c) + News(c, ipc, env) - Finished(c, ipc)
            case None => true
  {
    match ipc
    case FromPeer(Have(i)) => AnnouncePends(c.(he := c.he.(hasPieces := c.he.hasPieces[i := true])), i, env.missing);
    case FromPeer(Bitfield(bits)) => TakeBitsPends(c, bits, 0, env.missing);
    case FromPeer(Piece(p, offset, _)) => TakeOffPends(lengths, c, p, offset / BLOCK_SIZE);
    case _ =>
  }

  lemma OtherPends(c: Conn, ipc: Ipc, env: Env)
    requires Distinct(c.me.requests) && WellFormed(c, ipc) && BeforeRequests(c, ipc, env).None?
    ensures Pending(HandleOther(c, ipc, env)) == Pending(c) + News(c, ipc, env) - Finished(c, ipc)
  {
    if ipc.BlockCompleted? { CancelPends(c, ipc.piece, ipc.block); }
  }

  /** What we want from the peer after an event: what we wanted, and what it has announced and we miss, but for
      what has come. */
  lemma HandlePends(lengths: seq<nat>, c: Conn, ipc: Ipc, env: Env)
    requires Requests(lengths, c) && Eager(c) && GoodAnswers(lengths, env) && WellFormed(c, ipc) && EnvFits(c, ipc, env)
    ensures Pending(Handle(c, ipc, env)) == Pending(c) + News(c, ipc, env) - Finished(c, ipc)
  {
    BeforeRequestsPends(lengths, c, ipc, env);
    BeforeRequestsKeeps(lengths, c, ipc, env);
    match BeforeRequests(c, ipc, env)
    case Some(c1) => if MayRequest(c1) { FillPends(lengths, c1, env.picks); }
    case None => OtherPends(c, ipc, env);
  }

  // ---- What is asked for ----

  lemma BeforeRequestsTakesOff(c: Conn, ipc: Ipc, env: Env)
    requires WellFormed(c, ipc)
    ensures match BeforeRequests(c, ipc, env)
            case Some(c1) =>
              c1.me.requests == (match ipc
                                 case FromPeer(Piece(p, offset, _)) =>
                                   Without(c.me.requests, Position(c.me.requests, p, offset / BLOCK_SIZE))
                                 case _ => c.me.requests)
            case None => true
  {
    match ipc
    case FromPeer(Have(i)) => AnnouncePends(c.(he := c.he.(hasPieces := c.he.hasPieces[i := true])), i, env.missing);
    case FromPeer(Bitfield(bits)) => TakenBits(c, bits, 0, env);
    case _ =>
  }

  lemma BeforeRequestsAsked(c: Conn, ipc: Ipc, env: Env)
    requires Distinct(c.me.requests) && WellFormed(c, ipc)
    ensures match BeforeRequests(c, ipc, env)
            case Some(c1) => Asked(c1.me.requests) == Asked(c.me.requests) - Finished(c, ipc)
            case None => true
  {
    BeforeRequestsTakesOff(c, ipc, env);
    match ipc
    case FromPeer(Piece(p, offset, _)) => AskedWithout(c.me.requests, p, offset / BLOCK_SIZE);
    case _ =>
  }

  lemma OtherAsked(c: Conn, ipc: Ipc, env: Env)
    requires Distinct(c.me.requests) && WellFormed(c, ipc) && BeforeRequests(c, ipc, env).None?
    ensures Asked(HandleOther(c, ipc, env).me.requests) == Asked(c.me.requests) - Finished(c, ipc)
  {
    if ipc.BlockCompleted? { AskedWithout(c.me.requests, ipc.piece, ipc.block); }
  }

  lemma SaidAfter(a: seq<Message>, b: seq<Message>, sent: seq<Message>, k: Key)
    requires b <= sent && (b == a || b == a + [Interested] || b == a + [NotInterested])
    ensures a <= sent && (SaidSo(sent[|a|..], k) <==> SaidSo(sent[|b|..], k))
  {
    if b != a { SaidFirst(a, b, sent, k); }
  }

  /** A block is outstanding exactly if it was and has not come, or has just been requested. */
  lemma HandleAsked(lengths: seq<nat>, c: Conn, ipc: Ipc, env: Env, k: Key)
    requires Requests(lengths, c) && Eager(c) && GoodAnswers(lengths, env) && WellFormed(c, ipc) && EnvFits(c, ipc, env)
    ensures c.sent <= Handle(c, ipc, env).sent
    ensures k in Asked(Handle(c, ipc, env).me.requests)
       <==> (k in Asked(c.me.requests) && k !in Finished(c, ipc)) || SaidSo(Handle(c, ipc, env).sent[|c.sent|..], k)
  {
    var r := Handle(c, ipc, env);
    BeforeRequestsAsked(c, ipc, env);
    BeforeRequestsSends(c, ipc, env);
    BeforeRequestsKeeps(lengths, c, ipc, env);
    match BeforeRequests(c, ipc, env)
    case Some(c1) =>
      if MayRequest(c1) { FillSays(lengths, c1, env.picks, k); }
      SaidAfter(c.sent, c1.sent, r.sent, k);
    case None =>
      OtherAsked(c, ipc, env);
      OtherSendsNoRequest(c, ipc, env);
  }

  /** The events after which more blocks are requested. */
  predicate MayAsk(c: Conn, ipc: Ipc) {
    match ipc
    case FromPeer(UnChoke) => c.me.isChoked
    case FromPeer(m) => m.Have? || m.Bitfield? || m.Piece?
    case _ => false
  }

  /** After these, unless we are choked, ten requests are out or none is left to make. */
  lemma HandleFills(lengths: seq<nat>, c: Conn, ipc: Ipc, env: Env)
    requires Requests(lengths, c) && Eager(c) && GoodAnswers(lengths, env) && WellFormed(c, ipc) && EnvFits(c, ipc, env)
    requires MayAsk(c, ipc)
    ensures var r := Handle(c, ipc, env);
            !r.me.isChoked ==> |r.me.requests| == 10 || r.toRequest == map[]
  {
    BeforeRequestsKeeps(lengths, c, ipc, env);
    HandleKeepsRequests(lengths, c, ipc, env);
    var c1 := BeforeRequests(c, ipc, env).value;
    if MayRequest(c1) { FillPends(lengths, c1, env.picks); }
  }

  // ---- Interest ----

  /** The events after which the interest is looked at. */
  predicate Reviews(ipc: Ipc) {
    match ipc
    case FromPeer(m) => m.Have? || m.Bitfield? || m.Piece?
    case _ => ipc.PieceCompleted? || ipc.DownloadCompleted?
  }

  lemma PendingIff(c: Conn)
    ensures Pending(c) != {} <==> c.me.requests != [] || c.toRequest != map[]
  {
    if c.me.requests != [] { assert KeyOf(c.me.requests[0]) in Asked(c.me.requests); }
    if c.toRequest != map[] {
      var k :| k in c.toRequest;
      assert k in Pending(c);
    }
  }

  /** After these we are interested if and only if a block is pending; other events leave the flag alone. */
  lemma HandleInterest(lengths: seq<nat>, c: Conn, ipc: Ipc, env: Env)
    requires Requests(lengths, c) && Eager(c) && GoodAnswers(lengths, env) && WellFormed(c, ipc) && EnvFits(c, ipc, env)
    ensures Handle(c, ipc, env).me.isInterested
         == if Reviews(ipc) then Pending(Handle(c, ipc, env)) != {} else c.me.isInterested
  {
    BeforeRequestsKeeps(lengths, c, ipc, env);
    PendingIff(Handle(c, ipc, env));
    match BeforeRequests(c, ipc, env)
    case Some(c1) =>
      PendingIff(c1);
      if MayRequest(c1) { FillPends(lengths, c1, env.picks); }
    case None =>
  }
}
