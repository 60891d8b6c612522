/** Our requests to a peer, after any sequence of events. */
module PeerRequestLaws {
  import opened ByteStrings
  import opened Pieces
  import opened Wire
  import opened PeerModel

  /** Block `b` of piece `p`, of that length, is one of a torrent whose pieces have these lengths. */
  ghost predicate RealBlock(lengths: seq<nat>, p: nat, b: nat, length: nat) {
    && p < |lengths| && lengths[p] < TWO_32
    && b < NumBlocks(lengths[p]) && length == BlockAt(lengths[p], b).length
  }

  lemma RealBlockFits(lengths: seq<nat>, p: nat, b: nat, length: nat)
    requires RealBlock(lengths, p, b, length)
    ensures b * BLOCK_SIZE < TWO_32 && b * BLOCK_SIZE + length <= lengths[p]
  {
    NumBlocksIsCeiling(lengths[p]);
  }

  /** The download loop lists only blocks of the torrent. */
  ghost predicate GoodAnswers(lengths: seq<nat>, env: Env) {
    forall p, i :: p in env.missing && 0 <= i < |env.missing[p]| ==>
      RealBlock(lengths, p, env.missing[p][i].0, env.missing[p][i].1)
  }

  function KeyOf(r: Req): Key {
    (r.piece, r.block)
  }

  /** A request on the list is for a block of an announced piece, at the offset of its block. */
  ghost predicate GoodRequest(lengths: seq<nat>, c: Conn, r: Req) {
    && r.piece in c.log.announced && RealBlock(lengths, r.piece, r.block, r.length)
    && r.offset == r.block * BLOCK_SIZE && KeyOf(r) !in c.toRequest
  }

  ghost predicate GoodTarget(lengths: seq<nat>, c: Conn, k: Key) {
    && k in c.toRequest && k.0 in c.log.announced && k.1 * BLOCK_SIZE < TWO_32
    && c.toRequest[k].piece == k.0 && c.toRequest[k].block == k.1
    && RealBlock(lengths, k.0, k.1, c.toRequest[k].length)
  }

  ghost predicate Distinct(q: seq<Req>) {
    forall i, j :: 0 <= i < j < |q| ==> KeyOf(q[i]) != KeyOf(q[j])
  }

  /** A `Request` sent asks for a whole block of an announced piece. */
  ghost predicate GoodSent(lengths: seq<nat>, c: Conn, m: Message) {
    m.Request? ==>
      && m.index in c.log.announced && m.offset % BLOCK_SIZE == 0
      && RealBlock(lengths, m.index, m.offset / BLOCK_SIZE, m.length)
  }

  /** At most ten requests, no two for one block, none for a block still to be requested; all of them, and
      all ever sent, for whole blocks of pieces that the peer has announced. */
  ghost predicate Requests(lengths: seq<nat>, c: Conn) {
    && |c.me.requests| <= MAX_CONCURRENT_REQUESTS && Distinct(c.me.requests)
    && (forall i :: 0 <= i < |c.me.requests| ==> GoodRequest(lengths, c, c.me.requests[i]))
    && (forall k :: k in c.toRequest ==> GoodTarget(lengths, c, k))
    && forall m :: m in c.sent ==> GoodSent(lengths, c, m)
  }

  /** Pending work implies that we are interested. */
  predicate Eager(c: Conn) {
    c.me.requests != [] || c.toRequest != map[] ==> c.me.isInterested
  }

  lemma HasIsMembership(q: seq<Req>, p: U32, b: U32)
    ensures Has(q, p, b) <==> exists i :: 0 <= i < |q| && KeyOf(q[i]) == (p, b)
  {
    if Has(q, p, b) { assert KeyOf(q[Position(q, p, b)]) == (p, b); }
  }

  /** A block that is still to be requested is not on the list, so adding it never fails. */
  lemma AddNeverFails(lengths: seq<nat>, c: Conn, k: Key)
    requires Requests(lengths, c) && k in c.toRequest
    ensures !Has(c.me.requests, c.toRequest[k].piece, c.toRequest[k].block)
  {
    assert GoodTarget(lengths, c, k);
    HasIsMembership(c.me.requests, k.0, k.1);
    forall i | 0 <= i < |c.me.requests| ensures KeyOf(c.me.requests[i]) != k {
      assert GoodRequest(lengths, c, c.me.requests[i]);
    }
  }

  lemma RequestOneKeeps(lengths: seq<nat>, c: Conn, k: Key)
    requires Requests(lengths, c) && k in c.toRequest && |c.me.requests| < MAX_CONCURRENT_REQUESTS
    ensures Requests(lengths, RequestOne(c, k))
    ensures var t := c.toRequest[k];
            && RequestOne(c, k).sent == c.sent + [Request(t.piece, t.block * BLOCK_SIZE, t.length)]
            && RequestOne(c, k).me.requests == c.me.requests + [Req(t.piece, t.block, t.block * BLOCK_SIZE, t.length)]
  {
    AddNeverFails(lengths, c, k);
    assert GoodTarget(lengths, c, k);
    var r := RequestOne(c, k);
    forall i | 0 <= i < |r.me.requests|
      ensures GoodRequest(lengths, r, r.me.requests[i])
      ensures i < |c.me.requests| ==> KeyOf(r.me.requests[i]) != k
    {
      if i < |c.me.requests| { assert GoodRequest(lengths, c, c.me.requests[i]); }
    }
    forall x | x in r.toRequest ensures GoodTarget(lengths, r, x) { assert GoodTarget(lengths, c, x); }
  }

  lemma {:induction false} FillKeeps(lengths: seq<nat>, c: Conn, picks: seq<Key>)
    requires Requests(lengths, c) && PicksFill(c, picks)
    ensures Requests(lengths, Fill(c, picks))
    ensures Fill(c, picks).me.isInterested == c.me.isInterested && Fill(c, picks).me.isChoked == c.me.isChoked
    decreases |picks|
  {
    if picks != [] {
      RequestOneKeeps(lengths, c, picks[0]);
      FillKeeps(lengths, RequestOne(c, picks[0]), picks[1..]);
    }
  }

  lemma RequestMoreKeeps(lengths: seq<nat>, c: Conn, picks: seq<Key>)
    requires Requests(lengths, c) && Eager(c) && PicksFit(c, picks)
    ensures Requests(lengths, RequestMoreBlocks(c, picks)) && Eager(RequestMoreBlocks(c, picks))
  {
    if MayRequest(c) { FillKeeps(lengths, c, picks); }
  }

  lemma {:induction false} QueueKeeps(lengths: seq<nat>, c: Conn, p: U32, missing: seq<(U32, U32)>)
    requires Requests(lengths, c) && p in c.log.announced
    requires forall i :: 0 <= i < |missing| ==> RealBlock(lengths, p, missing[i].0, missing[i].1)
    ensures Requests(lengths, QueueBlocks(c, p, missing))
    decreases |missing|
  {
    if missing != [] {
      var (b, length) := missing[0];
      var c1 := if Has(c.me.requests, p, b) then c else c.(toRequest := c.toRequest[(p, b) := Target(p, b, length)]);
      assert RealBlock(lengths, p, missing[0].0, missing[0].1);
      RealBlockFits(lengths, p, b, length);
      HasIsMembership(c.me.requests, p, b);
      forall i | 0 <= i < |c1.me.requests| ensures GoodRequest(lengths, c1, c1.me.requests[i]) {
        assert GoodRequest(lengths, c, c.me.requests[i]);
      }
      forall k | k in c1.toRequest ensures GoodTarget(lengths, c1, k) {
        if k != (p, b) { assert GoodTarget(lengths, c, k); }
      }
      QueueKeeps(lengths, c1, p, missing[1..]);
    }
  }

  /** Learning more of the peer changes nothing that was known. */
  lemma MoreAnnounced(lengths: seq<nat>, c: Conn, c1: Conn)
    requires Requests(lengths, c) && c1.me.requests == c.me.requests && c1.toRequest == c.toRequest
    requires c1.sent == c.sent && c.log.announced <= c1.log.announced
    ensures Requests(lengths, c1)
  {
    forall i | 0 <= i < |c1.me.requests| ensures GoodRequest(lengths, c1, c1.me.requests[i]) {
      assert GoodRequest(lengths, c, c.me.requests[i]);
    }
    forall k | k in c1.toRequest ensures GoodTarget(lengths, c1, k) { assert GoodTarget(lengths, c, k); }
  }

  lemma AnnounceKeeps(lengths: seq<nat>, c: Conn, p: U32, env: Env)
    requires Requests(lengths, c) && GoodAnswers(lengths, env)
    ensures Requests(lengths, Announce(c, p, env.missing))
  {
    var c1 := c.(log := c.log.(announced := c.log.announced + {p}));
    MoreAnnounced(lengths, c, c1);
    QueueKeeps(lengths, c1, p, MissingOf(env.missing, p));
  }

  lemma {:induction false} TakeBitsKeeps(lengths: seq<nat>, c: Conn, bits: Bytes, i: nat, env: Env)
    requires Requests(lengths, c) && GoodAnswers(lengths, env)
    requires |c.he.hasPieces| <= 8 * |bits| && |c.he.hasPieces| < TWO_32
    ensures Requests(lengths, TakeBits(c, bits, i, env.missing))
    decreases |c.he.hasPieces| - i
  {
    if i < |c.he.hasPieces| {
      var value := BitAt(bits, i);
      var c1 := c.(he := c.he.(hasPieces := c.he.hasPieces[i := value]));
      MoreAnnounced(lengths, c, c1);
      QueueKeepsHe(c1.(log := c1.log.(announced := c1.log.announced + {i})), i, MissingOf(env.missing, i));
      if value { AnnounceKeeps(lengths, c1, i, env); }
      TakeBitsKeeps(lengths, if value then Announce(c1, i, env.missing) else c1, bits, i + 1, env);
    }
  }

  lemma UpdateKeeps(lengths: seq<nat>, c: Conn)
    requires Requests(lengths, c)
    ensures Requests(lengths, UpdateMyInterestedStatus(c)) && Eager(UpdateMyInterestedStatus(c))
  {
    var r := UpdateMyInterestedStatus(c);
    forall i | 0 <= i < |r.me.requests| ensures GoodRequest(lengths, r, r.me.requests[i]) {
      assert GoodRequest(lengths, c, c.me.requests[i]);
    }
    forall k | k in r.toRequest ensures GoodTarget(lengths, r, k) { assert GoodTarget(lengths, c, k); }
  }

  lemma WithoutKeeps(lengths: seq<nat>, c: Conn, c1: Conn, i: nat)
    requires Requests(lengths, c) && c1.me.requests == Without(c.me.requests, i)
    requires c1.toRequest.Keys <= c.toRequest.Keys
    requires forall k :: k in c1.toRequest ==> c1.toRequest[k] == c.toRequest[k]
    requires c1.log.announced == c.log.announced
    requires forall m :: m in c1.sent && m.Request? ==> m in c.sent
    ensures Requests(lengths, c1)
  {
    var q, q1 := c.me.requests, c1.me.requests;
    forall a | 0 <= a < |q1|
      ensures GoodRequest(lengths, c1, q1[a]) && q1[a] == q[if a < i then a else if i < |q| then a + 1 else a]
    {
      assert GoodRequest(lengths, c, q[if a < i then a else if i < |q| then a + 1 else a]);
    }
    forall k | k in c1.toRequest ensures GoodTarget(lengths, c1, k) { assert GoodTarget(lengths, c, k); }
  }

  lemma OthersKeep(lengths: seq<nat>, c: Conn, c1: Conn)
    requires Requests(lengths, c) && Eager(c)
    requires c1.me.requests == c.me.requests && c1.me.isInterested == c.me.isInterested
    requires c1.toRequest == c.toRequest && c1.log.announced == c.log.announced
    requires forall m :: m in c1.sent && m.Request? ==> m in c.sent
    ensures Requests(lengths, c1) && Eager(c1)
  {
    WithoutKeeps(lengths, c, c1, |c.me.requests|);
  }

  lemma BeforeRequestsKeeps(lengths: seq<nat>, c: Conn, ipc: Ipc, env: Env)
    requires Requests(lengths, c) && Eager(c) && GoodAnswers(lengths, env) && WellFormed(c, ipc)
    ensures match BeforeRequests(c, ipc, env)
            case Some(c1) => Requests(lengths, c1) && Eager(c1)
            case None => true
  {
    match ipc
    case FromPeer(UnChoke) => if c.me.isChoked { OthersKeep(lengths, c, c.(me := c.me.(isChoked := false))); }
    case FromPeer(Have(i)) =>
      var c1 := c.(he := c.he.(hasPieces := c.he.hasPieces[i := true]));
      MoreAnnounced(lengths, c, c1);
      AnnounceKeeps(lengths, c1, i, env);
      UpdateKeeps(lengths, Announce(c1, i, env.missing));
    case FromPeer(Bitfield(bits)) =>
      TakeBitsKeeps(lengths, c, bits, 0, env);
      UpdateKeeps(lengths, TakeBits(c, bits, 0, env.missing));
    case FromPeer(Piece(p, offset, _)) =>
      var c1 := TakeOffList(c, p, offset / BLOCK_SIZE);
      WithoutKeeps(lengths, c, c1, Position(c.me.requests, p, offset / BLOCK_SIZE));
      UpdateKeeps(lengths, c1);
    case _ =>
  }

  lemma UploadKeeps(lengths: seq<nat>, c: Conn, data: Req -> Option<Bytes>)
    requires Requests(lengths, c) && Eager(c) && |c.log.queued| == |c.he.requests|
    ensures Requests(lengths, UploadNextBlock(c, data)) && Eager(UploadNextBlock(c, data))
  {
    OthersKeep(lengths, c, UploadNextBlock(c, data));
  }

  lemma CancelKeeps(lengths: seq<nat>, c: Conn, p: U32, b: U32)
    requires Requests(lengths, c) && Eager(c)
    ensures Requests(lengths, CancelBlock(c, p, b)) && Eager(CancelBlock(c, p, b))
  {
    WithoutKeeps(lengths, c, CancelBlock(c, p, b), Position(c.me.requests, p, b));
  }

  lemma CompletedKeeps(lengths: seq<nat>, c: Conn, p: U32)
    requires Requests(lengths, c) && p < |c.me.hasPieces|
    ensures var c1 := UpdateMyInterestedStatus(c.(me := c.me.(hasPieces := c.me.hasPieces[p := true])));
            var r := c1.(sent := c1.sent + [Message.Have(p)]);
            Requests(lengths, r) && Eager(r)
  {
    var c0 := c.(me := c.me.(hasPieces := c.me.hasPieces[p := true]));
    MoreAnnounced(lengths, c, c0);
    UpdateKeeps(lengths, c0);
    var c1 := UpdateMyInterestedStatus(c0);
    OthersKeep(lengths, c1, c1.(sent := c1.sent + [Message.Have(p)]));
  }

  lemma HandleOtherKeeps(lengths: seq<nat>, c: Conn, ipc: Ipc, env: Env)
    requires Requests(lengths, c) && Eager(c) && WellFormed(c, ipc)
    ensures Requests(lengths, HandleOther(c, ipc, env)) && Eager(HandleOther(c, ipc, env))
  {
    match ipc
    case FromPeer(Interested) =>
      var c1 := c.(he := c.he.(isInterested := true));
      OthersKeep(lengths, c, c1);
      if c.he.isChoked {
        var c2 := c1.(he := c1.he.(isChoked := false), sent := c.sent + [UnChoke]);
        OthersKeep(lengths, c, c2);
        UploadKeeps(lengths, c2, env.data);
      }
    case FromPeer(Request(p, offset, length)) =>
      OthersKeep(lengths, c, AcceptRequest(c, p, offset, length));
      UploadKeeps(lengths, AcceptRequest(c, p, offset, length), env.data);
    case BlockCompleted(p, b) => CancelKeeps(lengths, c, p, b);
    case PieceCompleted(p) => CompletedKeeps(lengths, c, p);
    case DownloadCompleted => UpdateKeeps(lengths, c);
    case BlockUploaded =>
      OthersKeep(lengths, c, c.(uploadInProgress := false));
      UploadKeeps(lengths, c.(uploadInProgress := false), env.data);
    case _ => OthersKeep(lengths, c, HandleOther(c, ipc, env));
  }

  /** Every event keeps the request invariant. */
  lemma HandleKeepsRequests(lengths: seq<nat>, c: Conn, ipc: Ipc, env: Env)
    requires Requests(lengths, c) && Eager(c) && GoodAnswers(lengths, env) && WellFormed(c, ipc) && EnvFits(c, ipc, env)
    ensures Requests(lengths, Handle(c, ipc, env)) && Eager(Handle(c, ipc, env))
  {
    BeforeRequestsKeeps(lengths, c, ipc, env);
    match BeforeRequests(c, ipc, env)
    case Some(c1) => RequestMoreKeeps(lengths, c1, env.picks);
    case None => HandleOtherKeeps(lengths, c, ipc, env);
  }

  lemma StartKeepsRequests(lengths: seq<nat>, have: seq<bool>)
    ensures Requests(lengths, Start(have)) && Eager(Start(have))
  {
  }
}
