/** One peer connection of peer_connection.rs as a state machine: what each event of `peer_conn_loop` does
    to the state and what it sends. `sent` is all that has gone into `writer_sender`; `log` keeps what
    the theorems speak of and no branch reads it. */
module PeerModel {
  import opened ByteStrings
  import opened Pieces
  import opened Wire

  const MAX_CONCURRENT_REQUESTS: nat := 10

  /** `RequestMetadata`. */
  datatype Req = Req(piece: U32, block: U32, offset: U32, length: U32) {
    predicate Matches(p: U32, b: U32) {
      piece == p && block == b
    }
  }

  type Key = (U32, U32)
  datatype Target = Target(piece: U32, block: U32, length: U32)

  /** `PeerMetadata`. */
  datatype Side = Side(hasPieces: seq<bool>, isChoked: bool, isInterested: bool, requests: seq<Req>)

  datatype Log = Log(
    announced: set<U32>,    // pieces the peer has ever said it has
    fetched: nat,           // requests of ours that a received `Piece` took off the list
    accepted: seq<Req>,     // requests of the peer's that were queued, in order
    queued: seq<nat>,       // where in `accepted` those still queued are
    served: seq<nat>)       // where in `accepted` those popped for upload are

  datatype Conn = Conn(
    halt: bool, me: Side, he: Side, toRequest: map<Key, Target>, uploadInProgress: bool,
    sent: seq<Message>, log: Log)

  datatype Ipc =
    | FromPeer(m: Message)
    | BlockCompleted(piece: U32, block: U32)
    | PieceCompleted(piece: U32)
    | DownloadCompleted
    | BlockUploaded

  /** What a handler gets from elsewhere: the download loop's answers to what it may ask, and which key each
      `keys().nth(0)` of the hash map happens to be. */
  datatype Env = Env(missing: map<U32, seq<(U32, U32)>>, picks: seq<Key>, data: Req -> Option<Bytes>)

  function MissingOf(missing: map<U32, seq<(U32, U32)>>, p: U32): seq<(U32, U32)> {
    if p in missing then missing[p] else []
  }

  // ---- RequestQueue ----

  /** The index of the first match, or the length. */
  function Position(q: seq<Req>, p: U32, b: U32): (i: nat)
    ensures i <= |q| && (i < |q| ==> q[i].Matches(p, b))
    ensures forall k :: 0 <= k < i ==> !q[k].Matches(p, b)
  {
    if q == [] || q[0].Matches(p, b) then 0 else 1 + Position(q[1..], p, b)
  }

  predicate Has(q: seq<Req>, p: U32, b: U32) {
    Position(q, p, b) < |q|
  }

  function Without<T>(q: seq<T>, i: nat): seq<T> {
    if i < |q| then q[..i] + q[i + 1..] else q
  }

  // ---- Our requests ----

  /** One turn of the loop of `request_more_blocks`, with the key that was picked. */
  function RequestOne(c: Conn, k: Key): Conn
    requires k in c.toRequest
  {
    var t := c.toRequest[k];
    var offset := t.block * BLOCK_SIZE % TWO_32;
    var c1 := c.(toRequest := c.toRequest - {k});
    if Has(c.me.requests, t.piece, t.block) then c1
    else c1.(me := c.me.(requests := c.me.requests + [Req(t.piece, t.block, offset, t.length)]),
             sent := c.sent + [Request(t.piece, offset, t.length)])
  }

  predicate CanRequest(c: Conn) {
    |c.me.requests| < MAX_CONCURRENT_REQUESTS && c.toRequest != map[]
  }

  /** The picks drive the loop to its end, and no further. */
  predicate PicksFill(c: Conn, picks: seq<Key>)
    decreases |picks|
  {
    if picks == [] then !CanRequest(c)
    else CanRequest(c) && picks[0] in c.toRequest && PicksFill(RequestOne(c, picks[0]), picks[1..])
  }

  function Fill(c: Conn, picks: seq<Key>): Conn
    requires PicksFill(c, picks)
    decreases |picks|
  {
    if picks == [] then c else Fill(RequestOne(c, picks[0]), picks[1..])
  }

  predicate MayRequest(c: Conn) {
    !c.me.isChoked && c.me.isInterested && c.toRequest != map[]
  }

  predicate PicksFit(c: Conn, picks: seq<Key>) {
    if MayRequest(c) then PicksFill(c, picks) else picks == []
  }

  function RequestMoreBlocks(c: Conn, picks: seq<Key>): Conn
    requires PicksFit(c, picks)
  {
    if MayRequest(c) then Fill(c, picks) else c
  }

  function QueueBlocks(c: Conn, p: U32, missing: seq<(U32, U32)>): Conn
    decreases |missing|
  {
    if missing == [] then c
    else
      var (b, length) := missing[0];
      var c1 := if Has(c.me.requests, p, b) then c else c.(toRequest := c.toRequest[(p, b) := Target(p, b, length)]);
      QueueBlocks(c1, p, missing[1..])
  }

  function UpdateMyInterestedStatus(c: Conn): Conn {
    var amInterested := c.me.requests != [] || c.toRequest != map[];
    if c.me.isInterested == amInterested then c
    else c.(me := c.me.(isInterested := amInterested),
            sent := c.sent + [if amInterested then Interested else NotInterested])
  }

  // ---- The peer's requests ----

  /** A failed answer from the download loop ends the connection. */
  function UploadNextBlock(c: Conn, data: Req -> Option<Bytes>): Conn
    requires |c.log.queued| == |c.he.requests|
  {
    if c.uploadInProgress || c.he.isChoked || !c.he.isInterested || c.he.requests == [] then c
    else
      var r := c.he.requests[0];
      var c1 := c.(he := c.he.(requests := c.he.requests[1..]), log := c.log.(queued := c.log.queued[1..]));
      match data(r)
      case None => c1.(halt := true)
      case Some(d) =>
        c1.(uploadInProgress := true, sent := c.sent + [Message.Piece(r.piece, r.offset, d)],
            log := c1.log.(served := c.log.served + [c.log.queued[0]]))
  }

  function AcceptRequest(c: Conn, p: U32, offset: U32, length: U32): Conn {
    var b := offset / BLOCK_SIZE;
    if Has(c.he.requests, p, b) then c
    else
      var r := Req(p, b, offset, length);
      c.(he := c.he.(requests := c.he.requests + [r]),
         log := c.log.(accepted := c.log.accepted + [r], queued := c.log.queued + [|c.log.accepted|]))
  }

  function DropRequest(c: Conn, p: U32, b: U32): Conn {
    var i := Position(c.he.requests, p, b);
    c.(he := c.he.(requests := Without(c.he.requests, i)), log := c.log.(queued := Without(c.log.queued, i)))
  }

  // ---- Bitfields ----

  /** `(l as f64 / 8 as f64).ceil()`. */
  function NumBytes(l: nat): int {
    -(-(l as real / 8.0)).Floor
  }

  /** `1 << (7 - j)`. */
  function Mask(j: nat): bv8
    requires j < 8
  {
    [0x80, 0x40, 0x20, 0x10, 0x08, 0x04, 0x02, 0x01][j]
  }

  predicate TestMask(x: bv8, j: nat)
    requires j < 8
  {
    x & Mask(j) != 0
  }

  function OrMask(x: bv8, j: nat): bv8
    requires j < 8
  {
    x | Mask(j)
  }

  predicate TestBit(b: byte, j: nat)
    requires j < 8
  {
    TestMask(b as bv8, j)
  }

  function SetBit(b: byte, j: nat): byte
    requires j < 8
  {
    OrMask(b as bv8, j) as int
  }

  predicate BitAt(bits: Bytes, i: nat)
    requires i / 8 < |bits|
  {
    TestBit(bits[i / 8], i % 8)
  }

  /** The loop of the `Bitfield` branch of `process_message`, from piece `i` on. */
  function TakeBits(c: Conn, bits: Bytes, i: nat, missing: map<U32, seq<(U32, U32)>>): Conn
    requires |c.he.hasPieces| <= 8 * |bits| && |c.he.hasPieces| < TWO_32
    decreases |c.he.hasPieces| - i
  {
    if i >= |c.he.hasPieces| then c
    else
      var value := BitAt(bits, i);
      var c1 := c.(he := c.he.(hasPieces := c.he.hasPieces[i := value]));
      var c2 := if value then Announce(c1, i, missing) else c1;
      QueueKeepsHe(c1.(log := c1.log.(announced := c1.log.announced + {i})), i, MissingOf(missing, i));
      TakeBits(c2, bits, i + 1, missing)
  }

  lemma {:induction false} QueueKeepsHe(c: Conn, p: U32, missing: seq<(U32, U32)>)
    ensures QueueBlocks(c, p, missing) == c.(toRequest := QueueBlocks(c, p, missing).toRequest)
    decreases |missing|
  {
    if missing != [] {
      var (b, length) := missing[0];
      var c1 := if Has(c.me.requests, p, b) then c else c.(toRequest := c.toRequest[(p, b) := Target(p, b, length)]);
      QueueKeepsHe(c1, p, missing[1..]);
    }
  }

  /** The peer has piece `p`: what we miss of it is to be requested. */
  function Announce(c: Conn, p: U32, missing: map<U32, seq<(U32, U32)>>): Conn {
    QueueBlocks(c.(log := c.log.(announced := c.log.announced + {p})), p, MissingOf(missing, p))
  }

  // ---- The event loop ----

  /** What an event must satisfy for its handler not to panic: indices and bitfields fit the torrent. */
  predicate WellFormed(c: Conn, ipc: Ipc) {
    && !c.halt && |c.me.hasPieces| == |c.he.hasPieces| < TWO_32
    && |c.log.queued| == |c.he.requests|
    && match ipc
       case FromPeer(Have(i)) => i < |c.he.hasPieces|
       case FromPeer(Bitfield(bits)) => |c.he.hasPieces| <= 8 * |bits|
       case PieceCompleted(p) => p < |c.me.hasPieces|
       case _ => true
  }

  /** What `request_more_blocks` is called on, where it is called. */
  function BeforeRequests(c: Conn, ipc: Ipc, env: Env): Option<Conn>
    requires WellFormed(c, ipc)
  {
    match ipc
    case FromPeer(UnChoke) => if c.me.isChoked then Some(c.(me := c.me.(isChoked := false))) else None
    case FromPeer(Have(i)) =>
      var c1 := c.(he := c.he.(hasPieces := c.he.hasPieces[i := true]));
      Some(UpdateMyInterestedStatus(Announce(c1, i, env.missing)))
    case FromPeer(Bitfield(bits)) => Some(UpdateMyInterestedStatus(TakeBits(c, bits, 0, env.missing)))
    case FromPeer(Piece(p, offset, _)) => Some(UpdateMyInterestedStatus(TakeOffList(c, p, offset / BLOCK_SIZE)))
    case _ => None
  }

  /** A received block is no longer outstanding. */
  function TakeOffList(c: Conn, p: U32, b: U32): Conn {
    var i := Position(c.me.requests, p, b);
    c.(me := c.me.(requests := Without(c.me.requests, i)),
       log := c.log.(fetched := c.log.fetched + if i < |c.me.requests| then 1 else 0))
  }

  /** The block has come from another peer. */
  function CancelBlock(c: Conn, p: U32, b: U32): Conn {
    var i := Position(c.me.requests, p, b);
    var c1 := c.(toRequest := c.toRequest - {(p, b)}, me := c.me.(requests := Without(c.me.requests, i)));
    if i < |c.me.requests| then
      var r := c.me.requests[i];
      c1.(sent := c.sent + [Cancel(r.piece, r.offset, r.length)])
    else c1
  }

  /** The environment's picks are those that the loop of `request_more_blocks` needs, if it runs. */
  predicate EnvFits(c: Conn, ipc: Ipc, env: Env)
    requires WellFormed(c, ipc)
  {
    match BeforeRequests(c, ipc, env)
    case Some(c1) => PicksFit(c1, env.picks)
    case None => true
  }

  /** The events after which nothing is requested. */
  function HandleOther(c: Conn, ipc: Ipc, env: Env): Conn
    requires WellFormed(c, ipc)
  {
    match ipc
    case FromPeer(Choke) => c.(me := c.me.(isChoked := true))
    case FromPeer(Interested) =>
      var c1 := c.(he := c.he.(isInterested := true));
      if c.he.isChoked then
        UploadNextBlock(c1.(he := c1.he.(isChoked := false), sent := c.sent + [UnChoke]), env.data)
      else c1
    case FromPeer(NotInterested) => c.(he := c.he.(isInterested := false))
    case FromPeer(Request(p, offset, length)) => UploadNextBlock(AcceptRequest(c, p, offset, length), env.data)
    case FromPeer(Cancel(p, offset, _)) => DropRequest(c, p, offset / BLOCK_SIZE)
    case FromPeer(Port) => c.(halt := true)
    case BlockCompleted(p, b) => CancelBlock(c, p, b)
    case PieceCompleted(p) =>
      var c1 := UpdateMyInterestedStatus(c.(me := c.me.(hasPieces := c.me.hasPieces[p := true])));
      c1.(sent := c1.sent + [Message.Have(p)])
    case DownloadCompleted => UpdateMyInterestedStatus(c)
    case BlockUploaded => UploadNextBlock(c.(uploadInProgress := false), env.data)
    case _ => c
  }

  function Handle(c: Conn, ipc: Ipc, env: Env): Conn
    requires WellFormed(c, ipc) && EnvFits(c, ipc, env)
  {
    match BeforeRequests(c, ipc, env)
    case Some(c1) => RequestMoreBlocks(c1, env.picks)
    case None => HandleOther(c, ipc, env)
  }

  // ---- The start ----

  /** The loop of `send_bitfield` from piece `i` on. */
  function PackFrom(has: seq<bool>, i: nat, bits: Bytes): Bytes
    requires |has| <= 8 * |bits|
    decreases |has| - i
  {
    if i >= |has| then bits
    else
      PackFrom(has, i + 1, if has[i] then bits[i / 8 := SetBit(bits[i / 8], i % 8)] else bits)
  }

  lemma NumBytesIsCeiling(l: nat)
    ensures NumBytes(l) == (l + 7) / 8 && l <= 8 * NumBytes(l)
  {
    var n, q := NumBytes(l), l as real / 8.0;
    assert q * 8.0 == l as real;
    assert (-q).Floor as real <= -q < (-q).Floor as real + 1.0;
    assert (n as real - 1.0) * 8.0 < l as real <= n as real * 8.0;
  }

  function PackBits(has: seq<bool>): Bytes {
    NumBytesIsCeiling(|has|);
    PackFrom(has, 0, seq(NumBytes(|has|), _ => 0))
  }

  /** `PeerConnection` after the handshake and the bitfield. */
  function Start(have: seq<bool>): Conn {
    Conn(false, Side(have, true, false, []), Side(seq(|have|, _ => false), true, false, []), map[], false,
         [Bitfield(PackBits(have))], Log({}, 0, [], [], []))
  }
}
