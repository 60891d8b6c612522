/** What has been sent to a peer, after any sequence of events: requests are accounted for, interest
    alternates, uploads follow the order of the peer's requests. */
module PeerSentLaws {
  import opened ByteStrings
  import opened Pieces
  import opened Wire
  import opened PeerModel
  import opened PeerRequestLaws
  import opened BitfieldLaws

  datatype Sort = OfRequest | OfCancel | OfPiece | OfOther

  function SortOf(m: Message): Sort {
    match m
    case Request(_, _, _) => OfRequest
    case Cancel(_, _, _) => OfCancel
    case Piece(_, _, _) => OfPiece
    case _ => OfOther
  }

  function Count(sent: seq<Message>, sort: Sort): nat {
    if sent == [] then 0
    else Count(sent[..|sent| - 1], sort) + if SortOf(sent[|sent| - 1]) == sort then 1 else 0
  }

  /** What the peer has last been told of our interest. */
  function InterestTold(sent: seq<Message>): bool {
    if sent == [] then false
    else
      match sent[|sent| - 1]
      case Interested => true
      case NotInterested => false
      case _ => InterestTold(sent[..|sent| - 1])
  }

  /** `Interested` and `NotInterested` strictly alternate, beginning with `Interested`. */
  predicate Alternates(sent: seq<Message>) {
    sent == [] ||
    (var before := sent[..|sent| - 1];
     && Alternates(before)
     && match sent[|sent| - 1]
        case Interested => !InterestTold(before)
        case NotInterested => InterestTold(before)
        case _ => true)
  }

  lemma Sending(sent: seq<Message>, m: Message)
    ensures forall sort: Sort :: Count(sent + [m], sort) == Count(sent, sort) + if SortOf(m) == sort then 1 else 0
    ensures InterestTold(sent + [m])
         == match m { case Interested => true case NotInterested => false case _ => InterestTold(sent) }
    ensures Alternates(sent + [m]) <==>
              && Alternates(sent)
              && (m.Interested? ==> !InterestTold(sent)) && (m.NotInterested? ==> InterestTold(sent))
  {
    assert (sent + [m])[..|sent|] == sent;
  }

  // ---- Accounting ----

  /** Requests sent are those outstanding, those answered and those cancelled; and the peer knows our
      interest. */
  ghost predicate Books(c: Conn) {
    && Count(c.sent, OfRequest) == |c.me.requests| + c.log.fetched + Count(c.sent, OfCancel)
    && Alternates(c.sent) && InterestTold(c.sent) == c.me.isInterested
  }

  lemma {:induction false} FillBooks(lengths: seq<nat>, c: Conn, picks: seq<Key>)
    requires Requests(lengths, c) && PicksFill(c, picks) && Books(c)
    ensures Books(Fill(c, picks))
    decreases |picks|
  {
    if picks != [] {
      RequestOneKeeps(lengths, c, picks[0]);
      var t := c.toRequest[picks[0]];
      Sending(c.sent, Request(t.piece, t.block * BLOCK_SIZE, t.length));
      FillBooks(lengths, RequestOne(c, picks[0]), picks[1..]);
    }
  }

  lemma UpdateBooks(c: Conn)
    requires Books(c)
    ensures Books(UpdateMyInterestedStatus(c))
  {
    Sending(c.sent, Interested);
    Sending(c.sent, NotInterested);
  }

  lemma {:induction false} TakeBitsBooks(c: Conn, bits: Bytes, i: nat, env: Env)
    requires |c.he.hasPieces| <= 8 * |bits| && |c.he.hasPieces| < TWO_32 && Books(c)
    ensures Books(TakeBits(c, bits, i, env.missing))
    decreases |c.he.hasPieces| - i
  {
    if i < |c.he.hasPieces| {
      var value := BitAt(bits, i);
      var c1 := c.(he := c.he.(hasPieces := c.he.hasPieces[i := value]));
      QueueKeepsHe(c1.(log := c1.log.(announced := c1.log.announced + {i})), i, MissingOf(env.missing, i));
      TakeBitsBooks(if value then Announce(c1, i, env.missing) else c1, bits, i + 1, env);
    }
  }

  lemma BeforeRequestsBooks(c: Conn, ipc: Ipc, env: Env)
    requires WellFormed(c, ipc) && Books(c)
    ensures match BeforeRequests(c, ipc, env) { case Some(c1) => Books(c1) case None => true }
  {
    match ipc
    case FromPeer(Have(i)) =>
      var c1 := c.(he := c.he.(hasPieces := c.he.hasPieces[i := true]));
      QueueKeepsHe(c1.(log := c1.log.(announced := c1.log.announced + {i})), i, MissingOf(env.missing, i));
      UpdateBooks(Announce(c1, i, env.missing));
    case FromPeer(Bitfield(bits)) =>
      TakeBitsBooks(c, bits, 0, env);
      UpdateBooks(TakeBits(c, bits, 0, env.missing));
    case FromPeer(Piece(p, offset, _)) => UpdateBooks(TakeOffList(c, p, offset / BLOCK_SIZE));
    case _ =>
  }

  lemma UploadBooks(c: Conn, data: Req -> Option<Bytes>)
    requires Books(c) && |c.log.queued| == |c.he.requests|
    ensures Books(UploadNextBlock(c, data))
  {
    if c.he.requests != [] && data(c.he.requests[0]).Some? {
      var r := c.he.requests[0];
      Sending(c.sent, Message.Piece(r.piece, r.offset, data(r).value));
    }
  }

  lemma UnchokeBooks(c: Conn, data: Req -> Option<Bytes>)
    requires Books(c) && |c.log.queued| == |c.he.requests|
    ensures var he := c.he.(isInterested := true, isChoked := false);
            Books(UploadNextBlock(c.(he := he, sent := c.sent + [UnChoke]), data))
  {
    Sending(c.sent, UnChoke);
    UploadBooks(c.(he := c.he.(isInterested := true, isChoked := false), sent := c.sent + [UnChoke]), data);
  }

  lemma CancelBooks(c: Conn, p: U32, b: U32)
    requires Books(c)
    ensures Books(CancelBlock(c, p, b))
  {
    var i := Position(c.me.requests, p, b);
    if i < |c.me.requests| {
      var r := c.me.requests[i];
      Sending(c.sent, Cancel(r.piece, r.offset, r.length));
    }
  }

  lemma CompletedBooks(c: Conn, p: U32)
    requires Books(c) && p < |c.me.hasPieces|
    ensures var c1 := UpdateMyInterestedStatus(c.(me := c.me.(hasPieces := c.me.hasPieces[p := true])));
            Books(c1.(sent := c1.sent + [Message.Have(p)]))
  {
    var c0 := c.(me := c.me.(hasPieces := c.me.hasPieces[p := true]));
    UpdateBooks(c0);
    Sending(UpdateMyInterestedStatus(c0).sent, Message.Have(p));
  }

  lemma HandleOtherBooks(c: Conn, ipc: Ipc, env: Env)
    requires WellFormed(c, ipc) && Books(c)
    ensures Books(HandleOther(c, ipc, env))
  {
    match ipc
    case FromPeer(Interested) => UnchokeBooks(c, env.data);
    case FromPeer(Request(p, offset, length)) => UploadBooks(AcceptRequest(c, p, offset, length), env.data);
    case BlockCompleted(p, b) => CancelBooks(c, p, b);
    case PieceCompleted(p) => CompletedBooks(c, p);
    case DownloadCompleted => UpdateBooks(c);
    case BlockUploaded => UploadBooks(c.(uploadInProgress := false), env.data);
    case _ =>
  }

  /** Every event keeps the books. */
  lemma HandleKeepsBooks(lengths: seq<nat>, c: Conn, ipc: Ipc, env: Env)
    requires Requests(lengths, c) && Eager(c) && GoodAnswers(lengths, env)
    requires WellFormed(c, ipc) && EnvFits(c, ipc, env) && Books(c)
    ensures Books(Handle(c, ipc, env))
  {
    BeforeRequestsBooks(c, ipc, env);
    BeforeRequestsKeeps(lengths, c, ipc, env);
    match BeforeRequests(c, ipc, env)
    case Some(c1) => if MayRequest(c1) { FillBooks(lengths, c1, env.picks); }
    case None => HandleOtherBooks(c, ipc, env);
  }

  // ---- Requests are sent only while allowed ----

  lemma {:induction false} FillSends(c: Conn, picks: seq<Key>)
    requires PicksFill(c, picks)
    ensures c.sent <= Fill(c, picks).sent
    ensures Fill(c, picks).me.isChoked == c.me.isChoked && Fill(c, picks).me.isInterested == c.me.isInterested
    decreases |picks|
  {
    if picks != [] { FillSends(RequestOne(c, picks[0]), picks[1..]); }
  }

  /** Before the request loop an event sends at most our interest. */
  lemma BeforeRequestsSends(c: Conn, ipc: Ipc, env: Env)
    requires WellFormed(c, ipc)
    ensures match BeforeRequests(c, ipc, env)
            case Some(c1) =>
              c1.sent == c.sent || c1.sent == c.sent + [Interested] || c1.sent == c.sent + [NotInterested]
            case None => true
  {
    match ipc
    case FromPeer(Have(i)) =>
      var c1 := c.(he := c.he.(hasPieces := c.he.hasPieces[i := true]));
      QueueKeepsHe(c1.(log := c1.log.(announced := c1.log.announced + {i})), i, MissingOf(env.missing, i));
    case FromPeer(Bitfield(bits)) => TakenBits(c, bits, 0, env);
    case _ =>
  }

  /** An event that sends a `Request` leaves us unchoked and interested, and only appends to what was sent. */
  lemma RequestsWhileAllowed(c: Conn, ipc: Ipc, env: Env)
    requires WellFormed(c, ipc) && EnvFits(c, ipc, env)
    ensures c.sent <= Handle(c, ipc, env).sent
    ensures forall m :: m in Handle(c, ipc, env).sent[|c.sent|..] && m.Request? ==>
              !Handle(c, ipc, env).me.isChoked && Handle(c, ipc, env).me.isInterested
  {
    BeforeRequestsSends(c, ipc, env);
    match BeforeRequests(c, ipc, env)
    case Some(c1) => if MayRequest(c1) { FillSends(c1, env.picks); }
    case None => OtherSendsNoRequest(c, ipc, env);
  }

  lemma OtherSendsNoRequest(c: Conn, ipc: Ipc, env: Env)
    requires WellFormed(c, ipc)
    ensures c.sent <= HandleOther(c, ipc, env).sent
    ensures forall m :: m in HandleOther(c, ipc, env).sent[|c.sent|..] ==> !m.Request?
  {
  }
}
