/** What a peer gets from us: each request that we accept is answered in its turn, as soon as nothing else is being
    uploaded and as long as the peer is unchoked and interested; and what its messages and ours do to the flags. */
module PeerServiceLaws {
  import opened ByteStrings
  import opened Pieces
  import opened Wire
  import opened PeerModel
  import opened BitfieldLaws
  import opened PeerRequestLaws
  import opened PeerSentLaws
  import opened PeerUploadLaws

  // ---- The peer's requests ----

  /** The requests without those for one block. */
  function Other(q: seq<Req>, k: Key): seq<Req> {
    if q == [] then [] else (if KeyOf(q[0]) == k then [] else [q[0]]) + Other(q[1..], k)
  }

  /** The peer's requests that wait, once the event is taken in: a new one comes last, unless its block is asked for
      already; a cancelled one goes. */
  function Waiting(c: Conn, ipc: Ipc): seq<Req> {
    match ipc
    case FromPeer(Request(p, offset, length)) =>
      var r := Req(p, offset / 16384, offset, length);
      if exists x :: x in c.he.requests && KeyOf(x) == KeyOf(r) then c.he.requests else c.he.requests + [r]
    case FromPeer(Cancel(p, offset, _)) => Other(c.he.requests, (p, offset / 16384))
    case _ => c.he.requests
  }

  /** The event is one after which we look for something to upload, and there is something, nothing else is being
      uploaded, and the peer is interested and not choked. */
  predicate Serves(c: Conn, ipc: Ipc) {
    && Waiting(c, ipc) != []
    && match ipc
       case FromPeer(Request(_, _, _)) => !c.uploadInProgress && !c.he.isChoked && c.he.isInterested
       case FromPeer(Interested) => !c.uploadInProgress && c.he.isChoked
       case BlockUploaded => !c.he.isChoked && c.he.isInterested
       case _ => false
  }

  /** The pieces among messages. */
  function PiecesIn(sent: seq<Message>): seq<Message> {
    if sent == [] then [] else (if sent[0].Piece? then [sent[0]] else []) + PiecesIn(sent[1..])
  }

  lemma {:induction false} NoPieces(sent: seq<Message>)
    requires forall m :: m in sent ==> !m.Piece?
    ensures PiecesIn(sent) == []
  {
    if sent != [] { NoPieces(sent[1..]); }
  }

  lemma {:induction false} OtherIsAll(q: seq<Req>, k: Key)
    requires forall x :: x in q ==> KeyOf(x) != k
    ensures Other(q, k) == q
  {
    if q != [] { OtherIsAll(q[1..], k); }
  }

  lemma {:induction false} OtherIsWithout(q: seq<Req>, p: U32, b: U32)
    requires Distinct(q)
    ensures Other(q, (p, b)) == Without(q, Position(q, p, b))
  {
    if q != [] {
      if q[0].Matches(p, b) {
        forall x | x in q[1..] ensures KeyOf(x) != (p, b) {
          var i :| 0 <= i < |q[1..]| && q[1..][i] == x;
          assert q[i + 1] == x && KeyOf(q[0]) != KeyOf(q[i + 1]);
        }
        OtherIsAll(q[1..], (p, b));
      } else {
        forall i, j | 0 <= i < j < |q[1..]| ensures KeyOf(q[1..][i]) != KeyOf(q[1..][j]) {
          assert KeyOf(q[i + 1]) != KeyOf(q[j + 1]);
        }
        OtherIsWithout(q[1..], p, b);
      }
    }
  }

  lemma AcceptedWaits(c: Conn, p: U32, offset: U32, length: U32)
    ensures AcceptRequest(c, p, offset, length).he.requests == Waiting(c, FromPeer(Request(p, offset, length)))
  {
    var k: Key := (p, offset / BLOCK_SIZE);
    HasIsMembership(c.he.requests, k.0, k.1);
    if x :| x in c.he.requests && KeyOf(x) == k {
      var i :| 0 <= i < |c.he.requests| && c.he.requests[i] == x;
      assert KeyOf(c.he.requests[i]) == k;
    }
    if i :| 0 <= i < |c.he.requests| && KeyOf(c.he.requests[i]) == k { assert c.he.requests[i] in c.he.requests; }
  }

  lemma DroppedIsOther(c: Conn, p: U32, offset: U32, length: U32)
    requires Distinct(c.he.requests)
    ensures DropRequest(c, p, offset / BLOCK_SIZE).he.requests == Waiting(c, FromPeer(Cancel(p, offset, length)))
  {
    OtherIsWithout(c.he.requests, p, offset / BLOCK_SIZE);
  }

  // ---- What an event serves ----

  /** What the answer to the first request makes of the connection: uploaded in its turn, or the end. */
  ghost predicate Served(c: Conn, r: Conn, q: seq<Req>, data: Req -> Option<Bytes>)
    requires q != []
  {
    && c.sent <= r.sent && r.he.requests == q[1..]
    && match data(q[0])
       case Some(d) =>
         !r.halt && r.uploadInProgress && PiecesIn(r.sent[|c.sent|..]) == [Message.Piece(q[0].piece, q[0].offset, d)]
       case None => r.halt && PiecesIn(r.sent[|c.sent|..]) == []
  }

  /** Nothing is uploaded, and the requests wait as they are. */
  ghost predicate NotServed(c: Conn, r: Conn, q: seq<Req>, inProgress: bool, halt: bool) {
    && c.sent <= r.sent && r.he.requests == q && PiecesIn(r.sent[|c.sent|..]) == []
    && r.uploadInProgress == inProgress && r.halt == halt
  }

  lemma UploadServes(c: Conn, c1: Conn, data: Req -> Option<Bytes>)
    requires |c1.log.queued| == |c1.he.requests| && !c1.halt
    requires c1.sent == c.sent || c1.sent == c.sent + [UnChoke]
    ensures var q, r := c1.he.requests, UploadNextBlock(c1, data);
            if q != [] && !c1.uploadInProgress && !c1.he.isChoked && c1.he.isInterested then Served(c, r, q, data)
            else NotServed(c, r, q, c1.uploadInProgress, false)
  {
    var r := UploadNextBlock(c1, data);
    var before := c1.sent[|c.sent|..];
    assert before == [] || before == [UnChoke];
    if r.sent == c1.sent {
      NoPieces(before);
    } else {
      var m := r.sent[|c1.sent|];
      assert r.sent[|c.sent|..] == before + [m];
      OnePiece(before, m);
    }
  }

  lemma OnePiece(before: seq<Message>, m: Message)
    requires (before == [] || before == [UnChoke]) && m.Piece?
    ensures PiecesIn(before + [m]) == [m]
  {
    assert [m][1..] == [] && PiecesIn([m]) == [m];
    assert before == [] ==> before + [m] == [m];
    assert before == [UnChoke] ==> (before + [m])[1..] == [m];
  }

  lemma BeforeRequestsServesNot(c: Conn, ipc: Ipc, env: Env)
    requires WellFormed(c, ipc) && EnvFits(c, ipc, env) && BeforeRequests(c, ipc, env).Some?
    ensures NotServed(c, Handle(c, ipc, env), c.he.requests, c.uploadInProgress, false)
  {
    RequestEventsAreQuiet(c, ipc, env);
    NoPieces(Handle(c, ipc, env).sent[|c.sent|..]);
    RequestEventsGoOn(c, ipc, env);
  }

  lemma {:induction false} FillGoesOn(c: Conn, picks: seq<Key>)
    requires PicksFill(c, picks)
    ensures Fill(c, picks).halt == c.halt && Fill(c, picks).he == c.he
    ensures Fill(c, picks).me.isChoked == c.me.isChoked
    decreases |picks|
  {
    if picks != [] { FillGoesOn(RequestOne(c, picks[0]), picks[1..]); }
  }

  lemma {:induction false} TakeBitsGoesOn(c: Conn, bits: Bytes, i: nat, env: Env)
    requires |c.he.hasPieces| <= 8 * |bits| && |c.he.hasPieces| < TWO_32
    ensures var r := TakeBits(c, bits, i, env.missing);
            && r.halt == c.halt && r.he.isChoked == c.he.isChoked && r.he.isInterested == c.he.isInterested
    decreases |c.he.hasPieces| - i
  {
    if i < |c.he.hasPieces| {
      var value := BitAt(bits, i);
      var c1 := c.(he := c.he.(hasPieces := c.he.hasPieces[i := value]));
      QueueKeepsHe(c1.(log := c1.log.(announced := c1.log.announced + {i})), i, MissingOf(env.missing, i));
      TakeBitsGoesOn(if value then Announce(c1, i, env.missing) else c1, bits, i + 1, env);
    }
  }

  lemma BeforeRequestsGoesOn(c: Conn, ipc: Ipc, env: Env)
    requires WellFormed(c, ipc) && BeforeRequests(c, ipc, env).Some?
    ensures var r := BeforeRequests(c, ipc, env).value;
            && !r.halt && r.he.isChoked == c.he.isChoked && r.he.isInterested == c.he.isInterested
            && r.me.isChoked == (c.me.isChoked && ipc != FromPeer(UnChoke))
  {
    match ipc
    case FromPeer(Have(i)) =>
      var c0 := c.(he := c.he.(hasPieces := c.he.hasPieces[i := true]));
      QueueKeepsHe(c0.(log := c0.log.(announced := c0.log.announced + {i})), i, MissingOf(env.missing, i));
    case FromPeer(Bitfield(bits)) =>
      TakeBitsGoesOn(c, bits, 0, env);
      TakenBits(c, bits, 0, env);
    case _ =>
  }

  lemma RequestEventsGoOn(c: Conn, ipc: Ipc, env: Env)
    requires WellFormed(c, ipc) && EnvFits(c, ipc, env) && BeforeRequests(c, ipc, env).Some?
    ensures var r := Handle(c, ipc, env);
            && !r.halt && r.he.isChoked == c.he.isChoked && r.he.isInterested == c.he.isInterested
            && r.me.isChoked == (c.me.isChoked && ipc != FromPeer(UnChoke))
            && r.he.hasPieces == BeforeRequests(c, ipc, env).value.he.hasPieces
  {
    BeforeRequestsGoesOn(c, ipc, env);
    var c1 := BeforeRequests(c, ipc, env).value;
    if MayRequest(c1) { FillGoesOn(c1, env.picks); }
  }

  /** An event uploads something if and only if it is one after which we look, something waits, nothing is being
      uploaded and the peer is unchoked and interested: then the first of the requests that wait, with the data
      that the download loop answers, or the connection ends if it has none. */
  lemma HandleServes(c: Conn, ipc: Ipc, env: Env)
    requires WellFormed(c, ipc) && EnvFits(c, ipc, env) && Distinct(c.he.requests)
    ensures if Serves(c, ipc) then Served(c, Handle(c, ipc, env), Waiting(c, ipc), env.data)
            else NotServed(c, Handle(c, ipc, env), Waiting(c, ipc),
                           c.uploadInProgress && !ipc.BlockUploaded?, ipc == FromPeer(Port))
  {
    if BeforeRequests(c, ipc, env).Some? {
      BeforeRequestsServesNot(c, ipc, env);
    } else {
      OtherServes(c, ipc, env);
    }
  }

  lemma OtherServes(c: Conn, ipc: Ipc, env: Env)
    requires WellFormed(c, ipc) && Distinct(c.he.requests) && BeforeRequests(c, ipc, env).None?
    ensures if Serves(c, ipc) then Served(c, HandleOther(c, ipc, env), Waiting(c, ipc), env.data)
            else NotServed(c, HandleOther(c, ipc, env), Waiting(c, ipc),
                           c.uploadInProgress && !ipc.BlockUploaded?, ipc == FromPeer(Port))
  {
    match ipc
    case FromPeer(Request(p, offset, length)) =>
      AcceptedWaits(c, p, offset, length);
      UploadServes(c, AcceptRequest(c, p, offset, length), env.data);
    case FromPeer(Interested) =>
      var c1 := c.(he := c.he.(isInterested := true, isChoked := false), sent := c.sent + [UnChoke]);
      if c.he.isChoked { UploadServes(c, c1, env.data); }
    case FromPeer(Cancel(p, offset, length)) => DroppedIsOther(c, p, offset, length);
    case BlockUploaded => UploadServes(c, c.(uploadInProgress := false), env.data);
    case _ => SaysNoPiece(c, ipc, env);
  }

  lemma SaysNoPiece(c: Conn, ipc: Ipc, env: Env)
    requires WellFormed(c, ipc) && BeforeRequests(c, ipc, env).None? && !ipc.BlockUploaded?
    requires ipc.FromPeer? ==> !ipc.m.Request? && !ipc.m.Interested? && !ipc.m.Cancel?
    ensures NotServed(c, HandleOther(c, ipc, env), c.he.requests, c.uploadInProgress, ipc == FromPeer(Port))
  {
    var r := HandleOther(c, ipc, env);
    assert c.sent <= r.sent;
    NoPieces(r.sent[|c.sent|..]);
  }

  // ---- Who is choked and interested, and who has what ----

  /** The pieces that the peer has told us of, after the event. */
  function TheirPieces(c: Conn, ipc: Ipc): seq<bool>
    requires WellFormed(c, ipc)
  {
    match ipc
    case FromPeer(Have(i)) => c.he.hasPieces[i := true]
    case FromPeer(Bitfield(bits)) =>
      seq(|c.he.hasPieces|, k requires 0 <= k < |c.he.hasPieces| => IsSet(bits, k))
    case _ => c.he.hasPieces
  }

  /** Each flag is set by its own messages only. The peer is unchoked once, when it is first interested; it is told
      so then, and never choked again. */
  lemma HandleFlags(c: Conn, ipc: Ipc, env: Env)
    requires WellFormed(c, ipc) && EnvFits(c, ipc, env)
    ensures var r := Handle(c, ipc, env);
            && r.me.isChoked == (ipc == FromPeer(Choke) || (c.me.isChoked && ipc != FromPeer(UnChoke)))
            && r.he.isInterested == (ipc == FromPeer(Interested)
                                     || (c.he.isInterested && ipc != FromPeer(NotInterested)))
            && r.he.isChoked == (c.he.isChoked && ipc != FromPeer(Interested))
            && r.he.hasPieces == TheirPieces(c, ipc)
            && c.sent <= r.sent && Choke !in r.sent[|c.sent|..]
            && (UnChoke in r.sent[|c.sent|..] <==> c.he.isChoked && !r.he.isChoked)
  {
    match BeforeRequests(c, ipc, env)
    case Some(_) =>
      RequestEventsGoOn(c, ipc, env);
      RequestEventsSay(c, ipc, env);
      TheirPiecesBefore(c, ipc, env);
    case None =>
      OtherFlags(c, ipc, env);
      OtherSays(c, ipc, env);
  }

  lemma TheirPiecesBefore(c: Conn, ipc: Ipc, env: Env)
    requires WellFormed(c, ipc) && BeforeRequests(c, ipc, env).Some?
    ensures BeforeRequests(c, ipc, env).value.he.hasPieces == TheirPieces(c, ipc)
  {
    match ipc
    case FromPeer(Have(i)) =>
      var c0 := c.(he := c.he.(hasPieces := c.he.hasPieces[i := true]));
      QueueKeepsHe(c0.(log := c0.log.(announced := c0.log.announced + {i})), i, MissingOf(env.missing, i));
    case FromPeer(Bitfield(bits)) => TakenBits(c, bits, 0, env);
    case _ =>
  }

  lemma OtherFlags(c: Conn, ipc: Ipc, env: Env)
    requires WellFormed(c, ipc) && BeforeRequests(c, ipc, env).None?
    ensures var r := HandleOther(c, ipc, env);
            && r.me.isChoked == (ipc == FromPeer(Choke) || (c.me.isChoked && ipc != FromPeer(UnChoke)))
            && r.he.isInterested == (ipc == FromPeer(Interested)
                                     || (c.he.isInterested && ipc != FromPeer(NotInterested)))
            && r.he.isChoked == (c.he.isChoked && ipc != FromPeer(Interested))
            && r.he.hasPieces == TheirPieces(c, ipc)
  {
    match ipc
    case FromPeer(Request(p, offset, length)) => UploadKeepsFlags(AcceptRequest(c, p, offset, length), env.data);
    case FromPeer(Interested) =>
      UploadKeepsFlags(c.(he := c.he.(isInterested := true, isChoked := false), sent := c.sent + [UnChoke]), env.data);
    case BlockUploaded => UploadKeepsFlags(c.(uploadInProgress := false), env.data);
    case PieceCompleted(p) =>
    case _ =>
  }

  lemma UploadKeepsFlags(c: Conn, data: Req -> Option<Bytes>)
    requires |c.log.queued| == |c.he.requests|
    ensures var r := UploadNextBlock(c, data); r.me == c.me && r.he == c.he.(requests := r.he.requests)
  {
  }

  lemma OtherSays(c: Conn, ipc: Ipc, env: Env)
    requires WellFormed(c, ipc) && BeforeRequests(c, ipc, env).None?
    ensures var r := HandleOther(c, ipc, env);
            && c.sent <= r.sent && Choke !in r.sent[|c.sent|..]
            && (UnChoke in r.sent[|c.sent|..] <==> c.he.isChoked && ipc == FromPeer(Interested))
  {
    var r := HandleOther(c, ipc, env);
    if ipc == FromPeer(Interested) && c.he.isChoked {
      assert r.sent[|c.sent|] == UnChoke && UnChoke in r.sent[|c.sent|..];
    }
  }

  /** What the events that may request more send is only our interest and requests. */
  predicate Asking(m: Message) {
    m.Request? || m.Interested? || m.NotInterested?
  }

  lemma {:induction false} FillAsks(c: Conn, picks: seq<Key>)
    requires PicksFill(c, picks)
    ensures c.sent <= Fill(c, picks).sent && forall m :: m in Fill(c, picks).sent[|c.sent|..] ==> Asking(m)
    decreases |picks|
  {
    if picks != [] {
      var c1, r := RequestOne(c, picks[0]), Fill(c, picks);
      FillAsks(c1, picks[1..]);
      assert r.sent[|c.sent|..] == c1.sent[|c.sent|..] + r.sent[|c1.sent|..];
    }
  }

  lemma RequestEventsSay(c: Conn, ipc: Ipc, env: Env)
    requires WellFormed(c, ipc) && EnvFits(c, ipc, env) && BeforeRequests(c, ipc, env).Some?
    ensures c.sent <= Handle(c, ipc, env).sent
    ensures forall m :: m in Handle(c, ipc, env).sent[|c.sent|..] ==> Asking(m)
  {
    BeforeRequestsSends(c, ipc, env);
    var c1, r := BeforeRequests(c, ipc, env).value, Handle(c, ipc, env);
    if MayRequest(c1) { FillAsks(c1, env.picks); }
    assert r.sent[|c.sent|..] == c1.sent[|c.sent|..] + r.sent[|c1.sent|..];
  }

  // ---- What we tell of ourselves ----

  /** The pieces advertised among messages. */
  function Advertised(sent: seq<Message>): seq<U32> {
    if sent == [] then [] else (if sent[0].Have? then [sent[0].index] else []) + Advertised(sent[1..])
  }

  lemma {:induction false} NothingAdvertised(sent: seq<Message>)
    requires forall m :: m in sent ==> !m.Have?
    ensures Advertised(sent) == []
  {
    if sent != [] { NothingAdvertised(sent[1..]); }
  }

  lemma {:induction false} AdvertisedLast(sent: seq<Message>, p: U32)
    requires forall m :: m in sent ==> !m.Have?
    ensures Advertised(sent + [Message.Have(p)]) == [p]
  {
    if sent == [] {
      assert sent + [Message.Have(p)] == [Message.Have(p)] && [Message.Have(p)][1..] == [];
    } else {
      AdvertisedLast(sent[1..], p);
      assert (sent + [Message.Have(p)])[1..] == sent[1..] + [Message.Have(p)];
    }
  }

  /** The completion of a piece is advertised, once; nothing else is. */
  lemma HandleAdvertises(c: Conn, ipc: Ipc, env: Env)
    requires WellFormed(c, ipc) && EnvFits(c, ipc, env)
    ensures c.sent <= Handle(c, ipc, env).sent
    ensures Advertised(Handle(c, ipc, env).sent[|c.sent|..]) == if ipc.PieceCompleted? then [ipc.piece] else []
  {
    HandleHas(c, ipc, env);
    var r := Handle(c, ipc, env);
    if ipc.PieceCompleted? {
      CompletedHas(c, ipc.piece);
      var c1 := UpdateMyInterestedStatus(c.(me := c.me.(hasPieces := c.me.hasPieces[ipc.piece := true])));
      assert r.sent[|c.sent|..] == c1.sent[|c.sent|..] + [Message.Have(ipc.piece)];
      AdvertisedLast(c1.sent[|c.sent|..], ipc.piece);
    } else {
      NothingAdvertised(r.sent[|c.sent|..]);
    }
  }

  /** A connection starts with both sides choked and not interested, with nothing known of the peer and nothing
      requested, and with one message sent, the bitfield of what we have. */
  lemma StartSays(have: seq<bool>, k: nat)
    ensures var c := Start(have);
            && c.me.isChoked && !c.me.isInterested && c.he.isChoked && !c.he.isInterested
            && c.me.hasPieces == have && |c.he.hasPieces| == |have| && (k < |have| ==> !c.he.hasPieces[k])
            && c.me.requests == [] && c.he.requests == [] && c.toRequest == map[] && !c.uploadInProgress && !c.halt
            && |c.sent| == 1 && c.sent[0].Bitfield? && |c.sent[0].bits| == (|have| + 7) / 8
            && (k / 8 < |c.sent[0].bits| ==> (IsSet(c.sent[0].bits, k) <==> k < |have| && have[k]))
  {
    PackedBit(have, k);
  }
}
