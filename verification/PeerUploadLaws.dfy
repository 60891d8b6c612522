/** Serving a peer's requests and telling it what we have, after any sequence of events. */
module PeerUploadLaws {
  import opened ByteStrings
  import opened Pieces
  import opened Wire
  import opened PeerModel
  import opened PeerRequestLaws

  // ---- What an event leaves alone ----

  /** `c1` comes after `c` without anything uploaded, queued or advertised in between. */
  ghost predicate Quiet(c: Conn, c1: Conn) {
    && c1.he.requests == c.he.requests && c1.uploadInProgress == c.uploadInProgress
    && c1.log.accepted == c.log.accepted && c1.log.queued == c.log.queued && c1.log.served == c.log.served
    && c1.me.hasPieces == c.me.hasPieces && |c1.he.hasPieces| == |c.he.hasPieces|
    && c.sent <= c1.sent && forall m :: m in c1.sent[|c.sent|..] ==> !m.Piece? && !m.Have? && !m.Bitfield?
  }

  lemma QuietTwice(c: Conn, c1: Conn, c2: Conn)
    requires Quiet(c, c1) && Quiet(c1, c2)
    ensures Quiet(c, c2)
  {
    assert c2.sent[|c.sent|..] == c1.sent[|c.sent|..] + c2.sent[|c1.sent|..];
  }

  lemma {:induction false} FillIsQuiet(c: Conn, picks: seq<Key>)
    requires PicksFill(c, picks)
    ensures Quiet(c, Fill(c, picks))
    decreases |picks|
  {
    if picks != [] {
      var c1 := RequestOne(c, picks[0]);
      FillIsQuiet(c1, picks[1..]);
      assert Quiet(c, c1);
      QuietTwice(c, c1, Fill(c, picks));
    }
  }

  lemma {:induction false} TakeBitsIsQuiet(c: Conn, bits: Bytes, i: nat, env: Env)
    requires |c.he.hasPieces| <= 8 * |bits| && |c.he.hasPieces| < TWO_32
    ensures Quiet(c, TakeBits(c, bits, i, env.missing))
    decreases |c.he.hasPieces| - i
  {
    if i < |c.he.hasPieces| {
      var value := BitAt(bits, i);
      var c1 := c.(he := c.he.(hasPieces := c.he.hasPieces[i := value]));
      QueueKeepsHe(c1.(log := c1.log.(announced := c1.log.announced + {i})), i, MissingOf(env.missing, i));
      var c2 := if value then Announce(c1, i, env.missing) else c1;
      TakeBitsIsQuiet(c2, bits, i + 1, env);
      assert Quiet(c, c2);
      QuietTwice(c, c2, TakeBits(c, bits, i, env.missing));
    }
  }

  lemma UpdateIsQuiet(c: Conn, c1: Conn)
    requires Quiet(c, c1)
    ensures Quiet(c, UpdateMyInterestedStatus(c1))
  {
    assert Quiet(c1, UpdateMyInterestedStatus(c1));
    QuietTwice(c, c1, UpdateMyInterestedStatus(c1));
  }

  lemma HaveIsQuiet(c: Conn, i: U32, env: Env)
    requires i < |c.he.hasPieces|
    ensures Quiet(c, Announce(c.(he := c.he.(hasPieces := c.he.hasPieces[i := true])), i, env.missing))
  {
    var c1 := c.(he := c.he.(hasPieces := c.he.hasPieces[i := true]));
    QueueKeepsHe(c1.(log := c1.log.(announced := c1.log.announced + {i})), i, MissingOf(env.missing, i));
  }

  lemma BeforeRequestsIsQuiet(c: Conn, ipc: Ipc, env: Env)
    requires WellFormed(c, ipc)
    ensures match BeforeRequests(c, ipc, env) { case Some(c1) => Quiet(c, c1) case None => true }
  {
    match ipc
    case FromPeer(Have(i)) =>
      HaveIsQuiet(c, i, env);
      UpdateIsQuiet(c, Announce(c.(he := c.he.(hasPieces := c.he.hasPieces[i := true])), i, env.missing));
    case FromPeer(Bitfield(bits)) =>
      TakeBitsIsQuiet(c, bits, 0, env);
      UpdateIsQuiet(c, TakeBits(c, bits, 0, env.missing));
    case FromPeer(Piece(p, offset, _)) =>
      assert Quiet(c, TakeOffList(c, p, offset / BLOCK_SIZE));
      UpdateIsQuiet(c, TakeOffList(c, p, offset / BLOCK_SIZE));
    case _ =>
  }

  lemma RequestEventsAreQuiet(c: Conn, ipc: Ipc, env: Env)
    requires WellFormed(c, ipc) && EnvFits(c, ipc, env) && BeforeRequests(c, ipc, env).Some?
    ensures Quiet(c, Handle(c, ipc, env))
  {
    BeforeRequestsIsQuiet(c, ipc, env);
    var c1 := BeforeRequests(c, ipc, env).value;
    if MayRequest(c1) {
      FillIsQuiet(c1, env.picks);
      QuietTwice(c, c1, Fill(c1, env.picks));
    }
  }

  // ---- First in, first out, and at most once ----

  /** What has been uploaded: piece and offset, in order. */
  function Uploaded(sent: seq<Message>): seq<(U32, U32)> {
    if sent == [] then []
    else
      var before := Uploaded(sent[..|sent| - 1]);
      match sent[|sent| - 1]
      case Piece(p, offset, _) => before + [(p, offset)]
      case _ => before
  }

  predicate Increasing(s: seq<nat>) {
    forall i, j :: 0 <= i < j < |s| ==> s[i] < s[j]
  }

  predicate Below(s: seq<nat>, n: nat) {
    forall i :: 0 <= i < |s| ==> s[i] < n
  }

  /** The places in `accepted` are those of the requests in `q`. */
  predicate Places(accepted: seq<Req>, places: seq<nat>, q: seq<Req>) {
    && |places| == |q| && Below(places, |accepted|)
    && forall k :: 0 <= k < |q| ==> accepted[places[k]] == q[k]
  }

  lemma IncreasingWithout(served: seq<nat>, queued: seq<nat>, i: nat)
    requires Increasing(served + queued) && i < |queued|
    ensures Increasing(served + Without(queued, i))
  {
    var all, after := served + queued, served + Without(queued, i);
    assert forall k :: 0 <= k < |after| ==> after[k] == all[if k < |served| + i then k else k + 1];
  }

  lemma PlacesWithout(accepted: seq<Req>, places: seq<nat>, q: seq<Req>, i: nat)
    requires Places(accepted, places, q) && Distinct(q) && i < |q|
    ensures Places(accepted, Without(places, i), Without(q, i)) && Distinct(Without(q, i))
  {
    var p1, q1 := Without(places, i), Without(q, i);
    assert forall k :: 0 <= k < |q1| ==>
        q1[k] == q[if k < i then k else k + 1] && p1[k] == places[if k < i then k else k + 1];
  }

  /** The uploads are accepted requests in the order in which they were accepted, none twice, and those
      still queued come after them in the same order; no block is queued twice. */
  ghost predicate Uploads(c: Conn) {
    && Distinct(c.he.requests) && Places(c.log.accepted, c.log.queued, c.he.requests)
    && Increasing(c.log.served + c.log.queued) && Below(c.log.served, |c.log.accepted|)
    && |Uploaded(c.sent)| == |c.log.served|
    && forall k :: 0 <= k < |c.log.served| ==> Uploaded(c.sent)[k] == Spot(c.log.accepted[c.log.served[k]])
  }

  /** Where the data of a request is. */
  function Spot(r: Req): (U32, U32) {
    (r.piece, r.offset)
  }

  lemma {:induction false} UploadedLater(sent: seq<Message>, more: seq<Message>)
    requires forall m :: m in more ==> !m.Piece?
    ensures Uploaded(sent + more) == Uploaded(sent)
  {
    if more == [] {
      assert sent + more == sent;
    } else {
      var front := more[..|more| - 1];
      assert (sent + more)[..|sent + more| - 1] == sent + front;
      assert more[|more| - 1] in more && forall m :: m in front ==> m in more;
      UploadedLater(sent, front);
    }
  }

  lemma QuietKeepsUploads(c: Conn, c1: Conn)
    requires Uploads(c) && Quiet(c, c1)
    ensures Uploads(c1)
  {
    var more := c1.sent[|c.sent|..];
    assert c1.sent == c.sent + more;
    UploadedLater(c.sent, more);
  }

  lemma AcceptKeeps(c: Conn, p: U32, offset: U32, length: U32)
    requires Uploads(c)
    ensures Uploads(AcceptRequest(c, p, offset, length))
  {
    var r := AcceptRequest(c, p, offset, length);
    var all, n := c.log.served + c.log.queued, |c.log.accepted|;
    if r != c {
      HasIsMembership(c.he.requests, p, offset / BLOCK_SIZE);
      assert r.log.served + r.log.queued == all + [n];
      assert Below(all, n);
    }
  }

  lemma DropKeeps(c: Conn, p: U32, b: U32)
    requires Uploads(c)
    ensures Uploads(DropRequest(c, p, b))
  {
    var i := Position(c.he.requests, p, b);
    if i < |c.he.requests| {
      IncreasingWithout(c.log.served, c.log.queued, i);
      PlacesWithout(c.log.accepted, c.log.queued, c.he.requests, i);
    }
  }

  lemma UploadKeepsOrder(c: Conn, data: Req -> Option<Bytes>)
    requires Uploads(c)
    ensures Uploads(UploadNextBlock(c, data))
  {
    if c.he.requests != [] {
      var q, places := c.he.requests, c.log.queued;
      PlacesWithout(c.log.accepted, places, q, 0);
      assert Without(q, 0) == q[1..] && Without(places, 0) == places[1..];
      if data(q[0]).Some? {
        var m := Message.Piece(q[0].piece, q[0].offset, data(q[0]).value);
        assert c.log.served + [places[0]] + places[1..] == c.log.served + places;
        assert (c.sent + [m])[..|c.sent|] == c.sent;
        assert Uploaded(c.sent + [m]) == Uploaded(c.sent) + [Spot(q[0])];
      } else {
        IncreasingWithout(c.log.served, places, 0);
      }
    }
  }

  lemma UnchokeKeepsOrder(c: Conn, data: Req -> Option<Bytes>)
    requires Uploads(c)
    ensures var he := c.he.(isInterested := true, isChoked := false);
            Uploads(UploadNextBlock(c.(he := he, sent := c.sent + [UnChoke]), data))
  {
    var c2 := c.(he := c.he.(isInterested := true, isChoked := false), sent := c.sent + [UnChoke]);
    QuietKeepsUploads(c, c2);
    UploadKeepsOrder(c2, data);
  }

  lemma HandleOtherUploads(c: Conn, ipc: Ipc, env: Env)
    requires WellFormed(c, ipc) && Uploads(c)
    ensures Uploads(HandleOther(c, ipc, env))
  {
    match ipc
    case FromPeer(Interested) =>
      UnchokeKeepsOrder(c, env.data);
    case FromPeer(Request(p, offset, length)) =>
      AcceptKeeps(c, p, offset, length);
      UploadKeepsOrder(AcceptRequest(c, p, offset, length), env.data);
    case FromPeer(Cancel(p, offset, _)) => DropKeeps(c, p, offset / BLOCK_SIZE);
    case BlockUploaded => UploadKeepsOrder(c.(uploadInProgress := false), env.data);
    case _ => NewsKeepsUploads(c, HandleOther(c, ipc, env));
  }

  lemma NewsKeepsUploads(c: Conn, c1: Conn)
    requires Uploads(c) && c1.he.requests == c.he.requests
    requires c1.log.accepted == c.log.accepted && c1.log.queued == c.log.queued && c1.log.served == c.log.served
    requires c.sent <= c1.sent && forall m :: m in c1.sent[|c.sent|..] ==> !m.Piece?
    ensures Uploads(c1)
  {
    var more := c1.sent[|c.sent|..];
    assert c1.sent == c.sent + more;
    UploadedLater(c.sent, more);
  }

  /** Every event keeps the order of uploads. */
  lemma HandleKeepsUploads(c: Conn, ipc: Ipc, env: Env)
    requires WellFormed(c, ipc) && EnvFits(c, ipc, env) && Uploads(c)
    ensures Uploads(Handle(c, ipc, env))
  {
    if BeforeRequests(c, ipc, env).Some? {
      RequestEventsAreQuiet(c, ipc, env);
      QuietKeepsUploads(c, Handle(c, ipc, env));
    } else {
      HandleOtherUploads(c, ipc, env);
    }
  }

  // ---- What we say we have ----

  /** A `Piece` carries the download loop's answer to a request for that place. */
  ghost predicate Answers(data: Req -> Option<Bytes>, m: Message) {
    m.Piece? ==> exists r: Req :: r.piece == m.index && r.offset == m.offset && data(r) == Some(m.data)
  }

  /** Only the completion of a piece changes what we have, and only it is announced; what is uploaded is what
      the download loop has answered. */
  lemma HandleHas(c: Conn, ipc: Ipc, env: Env)
    requires WellFormed(c, ipc) && EnvFits(c, ipc, env)
    ensures var r := Handle(c, ipc, env);
            && r.me.hasPieces == (if ipc.PieceCompleted? then c.me.hasPieces[ipc.piece := true] else c.me.hasPieces)
            && |r.he.hasPieces| == |c.he.hasPieces|
            && c.sent <= r.sent
            && forall m :: m in r.sent[|c.sent|..] ==>
                 !m.Bitfield? && (m.Have? ==> ipc.PieceCompleted? && m.index == ipc.piece) && Answers(env.data, m)
  {
    if BeforeRequests(c, ipc, env).Some? { RequestEventsAreQuiet(c, ipc, env); } else { OtherHas(c, ipc, env); }
  }

  /** `c1` comes after `c` with no change to what we have and nothing said about it. */
  ghost predicate SameHas(c: Conn, c1: Conn, data: Req -> Option<Bytes>) {
    && c1.me.hasPieces == c.me.hasPieces && |c1.he.hasPieces| == |c.he.hasPieces| && c.sent <= c1.sent
    && forall m :: m in c1.sent[|c.sent|..] ==> !m.Bitfield? && !m.Have? && Answers(data, m)
  }

  lemma UploadSameHas(c: Conn, data: Req -> Option<Bytes>)
    requires |c.log.queued| == |c.he.requests|
    ensures SameHas(c, UploadNextBlock(c, data), data)
  {
  }

  lemma OtherKeepsHas(c: Conn, ipc: Ipc, env: Env)
    requires WellFormed(c, ipc)
    ensures var r := HandleOther(c, ipc, env);
            && r.me.hasPieces == (if ipc.PieceCompleted? then c.me.hasPieces[ipc.piece := true] else c.me.hasPieces)
            && |r.he.hasPieces| == |c.he.hasPieces|
  {
    if ipc.PieceCompleted? { CompletedHas(c, ipc.piece); }
  }

  lemma OtherHas(c: Conn, ipc: Ipc, env: Env)
    requires WellFormed(c, ipc)
    ensures var r := HandleOther(c, ipc, env);
            && r.me.hasPieces == (if ipc.PieceCompleted? then c.me.hasPieces[ipc.piece := true] else c.me.hasPieces)
            && |r.he.hasPieces| == |c.he.hasPieces|
            && c.sent <= r.sent
            && forall m :: m in r.sent[|c.sent|..] ==>
                 !m.Bitfield? && (m.Have? ==> ipc.PieceCompleted? && m.index == ipc.piece) && Answers(env.data, m)
  {
    OtherKeepsHas(c, ipc, env);
    OtherTells(c, ipc, env);
  }

  lemma OtherTells(c: Conn, ipc: Ipc, env: Env)
    requires WellFormed(c, ipc)
    ensures var r := HandleOther(c, ipc, env);
            && c.sent <= r.sent
            && forall m :: m in r.sent[|c.sent|..] ==>
                 !m.Bitfield? && (m.Have? ==> ipc.PieceCompleted? && m.index == ipc.piece) && Answers(env.data, m)
  {
    match ipc
    case FromPeer(Interested) =>
      UploadSameHas(c.(he := c.he.(isInterested := true, isChoked := false), sent := c.sent + [UnChoke]), env.data);
    case FromPeer(Request(p, offset, length)) => UploadSameHas(AcceptRequest(c, p, offset, length), env.data);
    case BlockUploaded => UploadSameHas(c.(uploadInProgress := false), env.data);
    case PieceCompleted(p) => CompletedHas(c, p);
    case _ =>
  }

  lemma CompletedHas(c: Conn, p: U32)
    requires p < |c.me.hasPieces|
    ensures var c1 := UpdateMyInterestedStatus(c.(me := c.me.(hasPieces := c.me.hasPieces[p := true])));
            && c.sent <= c1.sent && c1.me.hasPieces == c.me.hasPieces[p := true] && c1.he == c.he
            && forall m :: m in c1.sent[|c.sent|..] ==> m.Interested? || m.NotInterested?
  {
  }
}
