/** `RequestQueue`, `PeerMetadata` and `PeerConnection` of peer_connection.rs, updated in place. The
    answers of the download loop come in as `env`; the picks of the hash map go out as a ghost. */
module PeerConnectionClass {
  import opened ByteStrings
  import opened Pieces
  import opened Wire
  import opened PeerModel

  class RequestQueue {
    var requests: seq<Req>

    constructor ()
      ensures requests == []
    {
      requests := [];
    }

    method Position(p: U32, b: U32) returns (i: nat)
      ensures i == PeerModel.Position(requests, p, b)
    {
      i := 0;
      while i < |requests| && !requests[i].Matches(p, b)
        invariant i <= |requests| && i + PeerModel.Position(requests[i..], p, b) == PeerModel.Position(requests, p, b)
      {
        assert requests[i..][1..] == requests[i + 1..];
        i := i + 1;
      }
    }

    method Has(p: U32, b: U32) returns (r: bool)
      ensures r == PeerModel.Has(requests, p, b)
    {
      var i := Position(p, b);
      r := i < |requests|;
    }

    method Add(p: U32, b: U32, offset: U32, length: U32) returns (added: bool)
      modifies this
      ensures added == !PeerModel.Has(old(requests), p, b)
      ensures requests == if added then old(requests) + [Req(p, b, offset, length)] else old(requests)
    {
      var has := Has(p, b);
      if !has { requests := requests + [Req(p, b, offset, length)]; }
      added := !has;
    }

    method Pop() returns (r: Option<Req>)
      modifies this
      ensures if old(requests) == [] then r == None && requests == []
              else r == Some(old(requests)[0]) && requests == old(requests)[1..]
    {
      if |requests| > 0 {
        r := Some(requests[0]);
        requests := requests[1..];
      } else {
        r := None;
      }
    }

    method Remove(p: U32, b: U32) returns (r: Option<Req>)
      modifies this
      ensures var i := PeerModel.Position(old(requests), p, b);
              && requests == Without(old(requests), i)
              && r == if i < |old(requests)| then Some(old(requests)[i]) else None
    {
      var i := Position(p, b);
      if i < |requests| {
        r := Some(requests[i]);
        requests := requests[..i] + requests[i + 1..];
      } else {
        r := None;
      }
    }
  }

  class PeerMetadata {
    var hasPieces: seq<bool>
    var isChoked: bool
    var isInterested: bool
    const requests: RequestQueue

    constructor (hasPieces: seq<bool>)
      ensures this.hasPieces == hasPieces && isChoked && !isInterested
      ensures fresh(requests) && requests.requests == []
    {
      this.hasPieces := hasPieces;
      isChoked := true;
      isInterested := false;
      requests := new RequestQueue();
    }

    ghost function Now(): Side
      reads this, requests
    {
      Side(hasPieces, isChoked, isInterested, requests.requests)
    }
  }

  // ---- The picks of a loop, one after the other ----

  predicate PicksRun(c: Conn, picks: seq<Key>)
    decreases |picks|
  {
    picks == [] || (CanRequest(c) && picks[0] in c.toRequest && PicksRun(RequestOne(c, picks[0]), picks[1..]))
  }

  function RunPicks(c: Conn, picks: seq<Key>): Conn
    requires PicksRun(c, picks)
    decreases |picks|
  {
    if picks == [] then c else RunPicks(RequestOne(c, picks[0]), picks[1..])
  }

  lemma {:induction false} PickOneMore(c: Conn, picks: seq<Key>, k: Key)
    requires PicksRun(c, picks) && CanRequest(RunPicks(c, picks)) && k in RunPicks(c, picks).toRequest
    ensures PicksRun(c, picks + [k]) && RunPicks(c, picks + [k]) == RequestOne(RunPicks(c, picks), k)
    decreases |picks|
  {
    if picks == [] {
      assert picks + [k] == [k] && [k][1..] == [];
    } else {
      assert (picks + [k])[1..] == picks[1..] + [k];
      PickOneMore(RequestOne(c, picks[0]), picks[1..], k);
    }
  }

  lemma {:induction false} PicksAtEnd(c: Conn, picks: seq<Key>)
    requires PicksRun(c, picks) && !CanRequest(RunPicks(c, picks))
    ensures PicksFill(c, picks) && Fill(c, picks) == RunPicks(c, picks)
    decreases |picks|
  {
    if picks != [] { PicksAtEnd(RequestOne(c, picks[0]), picks[1..]); }
  }

  class PeerConnection {
    var halt: bool
    const me: PeerMetadata
    const he: PeerMetadata
    var toRequest: map<Key, Target>
    var uploadInProgress: bool
    /** What has gone into `writer_sender`. */
    var sent: seq<Message>
    ghost var log: Log

    ghost predicate Valid() {
      me != he && me.requests != he.requests
    }

    ghost function Now(): Conn
      reads this, me, he, me.requests, he.requests
    {
      Conn(halt, me.Now(), he.Now(), toRequest, uploadInProgress, sent, log)
    }

    constructor (havePieces: seq<bool>)
      ensures Valid() && fresh(me) && fresh(he) && fresh(me.requests) && fresh(he.requests)
      ensures Now() == Start(havePieces)
    {
      halt := false;
      me := new PeerMetadata(havePieces);
      he := new PeerMetadata(seq(|havePieces|, _ => false));
      toRequest := map[];
      uploadInProgress := false;
      sent := [];
      log := Log({}, 0, [], [], []);
      new;
      SendBitfield();
    }

    method Send(m: Message)
      modifies `sent
      ensures sent == old(sent) + [m]
    {
      sent := sent + [m];
    }

    method SendBitfield()
      requires Valid()
      modifies `sent
      ensures sent == old(sent) + [Bitfield(PackBits(me.hasPieces))]
    {
      NumBytesIsCeiling(|me.hasPieces|);
      var bytes: Bytes := seq(NumBytes(|me.hasPieces|), _ => 0);
      var l := |me.hasPieces|;
      for i := 0 to l
        invariant |bytes| == NumBytes(l)
        invariant PackFrom(me.hasPieces, i, bytes) == PackBits(me.hasPieces)
      {
        if me.hasPieces[i] { bytes := bytes[i / 8 := SetBit(bytes[i / 8], i % 8)]; }
      }
      Send(Bitfield(bytes));
    }

    method RequestMoreBlocks() returns (ghost picks: seq<Key>)
      requires Valid()
      modifies this, me.requests
      ensures PicksFit(old(Now()), picks) && Now() == PeerModel.RequestMoreBlocks(old(Now()), picks)
    {
      picks := [];
      if me.isChoked || !me.isInterested || toRequest == map[] { return; }
      ghost var start := Now();
      while |me.requests.requests| < MAX_CONCURRENT_REQUESTS
        invariant PicksRun(start, picks) && RunPicks(start, picks) == Now()
        decreases |toRequest|
      {
        if toRequest == map[] { break; }
        var k :| k in toRequest;
        var t := toRequest[k];
        PickOneMore(start, picks, k);
        picks := picks + [k];
        toRequest := toRequest - {k};
        var offset := t.block * BLOCK_SIZE % TWO_32;
        var added := me.requests.Add(t.piece, t.block, offset, t.length);
        if added { Send(Request(t.piece, offset, t.length)); }
      }
      PicksAtEnd(start, picks);
    }

    method UploadNextBlock(data: Req -> Option<Bytes>)
      requires Valid() && |log.queued| == |he.requests.requests|
      modifies this, he.requests
      ensures Now() == PeerModel.UploadNextBlock(old(Now()), data)
    {
      if uploadInProgress || he.isChoked || !he.isInterested { return; }
      var next := he.requests.Pop();
      match next
      case None =>
      case Some(r) =>
        ghost var place := log.queued[0];
        log := log.(queued := log.queued[1..]);
        var answer := data(r);
        if answer == None {
          halt := true;
          return;
        }
        uploadInProgress := true;
        log := log.(served := log.served + [place]);
        Send(Message.Piece(r.piece, r.offset, answer.value));
    }

    method QueueBlocks(p: U32, missing: seq<(U32, U32)>)
      requires Valid()
      modifies `toRequest
      ensures Now() == PeerModel.QueueBlocks(old(Now()), p, missing)
    {
      for i := 0 to |missing|
        invariant PeerModel.QueueBlocks(Now(), p, missing[i..]) == PeerModel.QueueBlocks(old(Now()), p, missing)
      {
        assert missing[i..][1..] == missing[i + 1..];
        var (b, length) := missing[i];
        var has := me.requests.Has(p, b);
        if !has { toRequest := toRequest[(p, b) := Target(p, b, length)]; }
      }
    }

    method UpdateMyInterestedStatus()
      requires Valid()
      modifies me, `sent
      ensures Now() == PeerModel.UpdateMyInterestedStatus(old(Now()))
    {
      var amInterested := |me.requests.requests| > 0 || toRequest != map[];
      if me.isInterested != amInterested {
        me.isInterested := amInterested;
        Send(if amInterested then Interested else NotInterested);
      }
    }

    /** Notes that the peer has piece `p` and queues what we miss of it. */
    method NoteAnnounced(p: U32, env: Env)
      requires Valid()
      modifies `toRequest, `log
      ensures Now() == Announce(old(Now()), p, env.missing)
    {
      log := log.(announced := log.announced + {p});
      QueueBlocks(p, MissingOf(env.missing, p));
    }

    method TakeBitfield(bits: Bytes, env: Env)
      requires Valid() && |he.hasPieces| <= 8 * |bits| && |he.hasPieces| < TWO_32
      modifies `toRequest, `log, he
      ensures |he.hasPieces| == |old(he.hasPieces)|
      ensures Now() == TakeBits(old(Now()), bits, 0, env.missing)
    {
      var l := |he.hasPieces|;
      for i := 0 to l
        invariant |he.hasPieces| == l
        invariant TakeBits(Now(), bits, i, env.missing) == TakeBits(old(Now()), bits, 0, env.missing)
      {
        var value := BitAt(bits, i);
        he.hasPieces := he.hasPieces[i := value];
        if value { NoteAnnounced(i, env); }
      }
    }

    method ProcessMessage(m: Message, env: Env) returns (ghost picks: seq<Key>)
      requires Valid() && WellFormed(Now(), FromPeer(m))
      modifies this, me, he, me.requests, he.requests
      ensures EnvFits(old(Now()), FromPeer(m), env.(picks := picks))
      ensures Now() == Handle(old(Now()), FromPeer(m), env.(picks := picks))
    {
      picks := [];
      match m
      case KeepAlive =>
      case Choke => me.isChoked := true;
      case UnChoke =>
        if me.isChoked {
          me.isChoked := false;
          picks := RequestMoreBlocks();
        }
      case Interested =>
        he.isInterested := true;
        if he.isChoked {
          he.isChoked := false;
          Send(UnChoke);
          UploadNextBlock(env.data);
        }
      case NotInterested => he.isInterested := false;
      case Have(i) =>
        he.hasPieces := he.hasPieces[i := true];
        NoteAnnounced(i, env);
        UpdateMyInterestedStatus();
        picks := RequestMoreBlocks();
      case Bitfield(bits) =>
        TakeBitfield(bits, env);
        UpdateMyInterestedStatus();
        picks := RequestMoreBlocks();
      case Request(p, offset, length) =>
        AcceptRequest(p, offset, length);
        UploadNextBlock(env.data);
      case Piece(p, offset, _) =>
        TakeOffList(p, offset / BLOCK_SIZE);
        UpdateMyInterestedStatus();
        picks := RequestMoreBlocks();
      case Cancel(p, offset, _) => DropRequest(p, offset / BLOCK_SIZE);
      case Port => halt := true;
    }

    method AcceptRequest(p: U32, offset: U32, length: U32)
      requires Valid() && |log.queued| == |he.requests.requests|
      modifies he.requests, `log
      ensures Now() == PeerModel.AcceptRequest(old(Now()), p, offset, length)
      ensures |log.queued| == |he.requests.requests|
    {
      var b := offset / BLOCK_SIZE;
      var added := he.requests.Add(p, b, offset, length);
      if added {
        log := log.(accepted := log.accepted + [Req(p, b, offset, length)], queued := log.queued + [|log.accepted|]);
      }
    }

    method DropRequest(p: U32, b: U32)
      requires Valid()
      modifies he.requests, `log
      ensures Now() == PeerModel.DropRequest(old(Now()), p, b)
    {
      ghost var i := PeerModel.Position(he.requests.requests, p, b);
      var _ := he.requests.Remove(p, b);
      log := log.(queued := Without(log.queued, i));
    }

    method TakeOffList(p: U32, b: U32)
      requires Valid()
      modifies me.requests, `log
      ensures Now() == PeerModel.TakeOffList(old(Now()), p, b)
    {
      var r := me.requests.Remove(p, b);
      log := log.(fetched := log.fetched + if r.Some? then 1 else 0);
    }

    method CancelBlock(p: U32, b: U32)
      requires Valid()
      modifies this, me.requests
      ensures Now() == PeerModel.CancelBlock(old(Now()), p, b)
    {
      toRequest := toRequest - {(p, b)};
      var removed := me.requests.Remove(p, b);
      match removed
      case Some(r) => Send(Cancel(r.piece, r.offset, r.length));
      case None =>
    }

    /** One turn of the loop of `peer_conn_loop`. */
    method HandleIpc(ipc: Ipc, env: Env) returns (ghost picks: seq<Key>)
      requires Valid() && WellFormed(Now(), ipc)
      modifies this, me, he, me.requests, he.requests
      ensures EnvFits(old(Now()), ipc, env.(picks := picks))
      ensures Now() == Handle(old(Now()), ipc, env.(picks := picks))
    {
      picks := [];
      match ipc
      case FromPeer(m) => picks := ProcessMessage(m, env);
      case BlockCompleted(p, b) => CancelBlock(p, b);
      case PieceCompleted(p) =>
        me.hasPieces := me.hasPieces[p := true];
        UpdateMyInterestedStatus();
        Send(Message.Have(p));
      case DownloadCompleted => UpdateMyInterestedStatus();
      case BlockUploaded =>
        uploadInProgress := false;
        UploadNextBlock(env.data);
    }
  }
}
