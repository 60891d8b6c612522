/** Peer messages on the wire: ipc.rs, and the length-prefixed read loop of peer_connection.rs. */
module Wire {
  import opened ByteStrings

  type U32 = n: int | 0 <= n < 0x1_0000_0000

  const BYTE_0: int := 0x100_0000
  const BYTE_1: int := 0x1_0000
  const BYTE_2: int := 0x100

  datatype Message =
    | KeepAlive
    | Choke
    | UnChoke
    | Interested
    | NotInterested
    | Have(index: U32)
    | Bitfield(bits: Bytes)
    | Request(index: U32, offset: U32, length: U32)
    | Piece(index: U32, offset: U32, data: Bytes)
    | Cancel(index: U32, offset: U32, length: U32)
    | Port

  /** The id that `serialize` writes for a `Piece` at line 82, and the one that `Message::new` and the
      protocol (BEP 3, "peer messages") use. */
  const PIECE_ID_WRITTEN: byte := 6
  const PIECE_ID: byte := 7

  // ---- 32-bit numbers ----

  function BytesToU32(b: Bytes): U32
    requires |b| >= 4
  {
    b[0] * BYTE_0 + b[1] * BYTE_1 + b[2] * BYTE_2 + b[3]
  }

  function U32ToBytes(n: U32): Bytes {
    [n / BYTE_0, n / BYTE_1 % 256, n / BYTE_2 % 256, n % 256]
  }

  method SplitU32(n: U32) returns (b: Bytes)
    ensures b == U32ToBytes(n)
  {
    Base256(n);
    ghost var b1, b2, b3 := n / BYTE_1 % 256, n / BYTE_2 % 256, n % 256;
    var rest: int := n;
    var first := rest / BYTE_0;
    rest := rest - first * BYTE_0;
    assert rest == b1 * BYTE_1 + (b2 * BYTE_2 + b3);
    var second := rest / BYTE_1;
    assert second == b1;
    rest := rest - second * BYTE_1;
    var third := rest / BYTE_2;
    assert third == b2;
    rest := rest - third * BYTE_2;
    b := [first, second, third, rest];
  }

  lemma Base256(n: U32)
    ensures n == n / BYTE_0 * BYTE_0 + n / BYTE_1 % 256 * BYTE_1 + n / BYTE_2 % 256 * BYTE_2 + n % 256
  {
    assert n / BYTE_1 == n / BYTE_0 * 256 + n / BYTE_1 % 256;
    assert n / BYTE_2 == n / BYTE_1 * 256 + n / BYTE_2 % 256;
  }

  lemma U32RoundTrips(n: U32, rest: Bytes)
    ensures |U32ToBytes(n)| == 4 && BytesToU32(U32ToBytes(n) + rest) == n
  {
    var b := U32ToBytes(n) + rest;
    assert b[0] == n / BYTE_0 && b[1] == n / BYTE_1 % 256 && b[2] == n / BYTE_2 % 256 && b[3] == n % 256;
    Base256(n);
  }

  lemma BytesRoundTrip(b: Bytes)
    requires |b| >= 4
    ensures U32ToBytes(BytesToU32(b)) == b[..4]
  {
    FourBytes(b[0], b[1], b[2], b[3]);
    assert b[..4] == [b[0], b[1], b[2], b[3]];
  }

  lemma FourBytes(b0: byte, b1: byte, b2: byte, b3: byte)
    ensures var n := b0 * BYTE_0 + b1 * BYTE_1 + b2 * BYTE_2 + b3;
            n / BYTE_0 == b0 && n / BYTE_1 % 256 == b1 && n / BYTE_2 % 256 == b2 && n % 256 == b3
  {
    var n := b0 * BYTE_0 + b1 * BYTE_1 + b2 * BYTE_2 + b3;
    var x1 := b0 * BYTE_1 + b1 * BYTE_2 + b2;
    var x2 := b0 * BYTE_2 + b1;
    assert n == x1 * BYTE_2 + b3;
    assert n == x2 * BYTE_1 + (b2 * BYTE_2 + b3);
    assert n / BYTE_2 == x1 && n / BYTE_1 == x2;
  }

  // ---- Messages ----

  /** `Message::new`; `None` is a panic, on a short body or an unknown id. */
  function NewMessage(id: byte, body: Bytes): Option<Message> {
    if id == 0 then Some(Choke)
    else if id == 1 then Some(UnChoke)
    else if id == 2 then Some(Interested)
    else if id == 3 then Some(NotInterested)
    else if id == 4 then if |body| < 4 then None else Some(Have(BytesToU32(body)))
    else if id == 5 then Some(Bitfield(body))
    else if id == 6 then
      if |body| < 12 then None
      else Some(Request(BytesToU32(body[0..4]), BytesToU32(body[4..8]), BytesToU32(body[8..12])))
    else if id == 7 then
      if |body| < 8 then None else Some(Piece(BytesToU32(body[0..4]), BytesToU32(body[4..8]), body[8..]))
    else if id == 8 then
      if |body| < 12 then None
      else Some(Cancel(BytesToU32(body[0..4]), BytesToU32(body[4..8]), BytesToU32(body[8..12])))
    else if id == 9 then Some(Port)
    else None
  }

  function Payload(m: Message, pieceId: byte): Bytes {
    match m
    case KeepAlive => []
    case Choke => [0]
    case UnChoke => [1]
    case Interested => [2]
    case NotInterested => [3]
    case Have(index) => [4] + U32ToBytes(index)
    case Bitfield(bits) => [5] + bits
    case Request(index, offset, length) => [6] + U32ToBytes(index) + U32ToBytes(offset) + U32ToBytes(length)
    case Piece(index, offset, data) => [pieceId] + U32ToBytes(index) + U32ToBytes(offset) + data
    case Cancel(index, offset, length) => [8] + U32ToBytes(index) + U32ToBytes(offset) + U32ToBytes(length)
    case Port => [9]
  }

  /** The size, as 32 bits, and the payload. */
  function Frame(payload: Bytes): Bytes {
    U32ToBytes(|payload| % TWO_32) + payload
  }

  function Serialize(m: Message, pieceId: byte): Bytes {
    Frame(Payload(m, pieceId))
  }

  method SerializeMessage(m: Message, pieceId: byte) returns (bytes: Bytes)
    ensures bytes == Serialize(m, pieceId)
  {
    var payload: Bytes := [];
    match m {
      case KeepAlive =>
      case Choke => payload := [0];
      case UnChoke => payload := [1];
      case Interested => payload := [2];
      case NotInterested => payload := [3];
      case Have(index) =>
        payload := [4];
        payload := payload + U32ToBytes(index);
      case Bitfield(bits) =>
        payload := [5];
        payload := payload + bits;
      case Request(index, offset, length) =>
        payload := [6];
        payload := payload + U32ToBytes(index);
        payload := payload + U32ToBytes(offset);
        payload := payload + U32ToBytes(length);
      case Piece(index, offset, data) =>
        payload := [pieceId];
        payload := payload + U32ToBytes(index);
        payload := payload + U32ToBytes(offset);
        payload := payload + data;
      case Cancel(index, offset, length) =>
        payload := [8];
        payload := payload + U32ToBytes(index);
        payload := payload + U32ToBytes(offset);
        payload := payload + U32ToBytes(length);
      case Port => payload := [9];
    }
    assert payload == Payload(m, pieceId);
    var size := SplitU32(|payload| % TWO_32);
    bytes := size + payload;
  }

  // ---- The read loop ----

  function ParsePayload(message: Bytes): Option<Message> {
    if message == [] then Some(KeepAlive) else NewMessage(message[0], message[1..])
  }

  /** One turn of `conn_read_loop`: a message and what follows it. `None`: the stream ends, or a panic. */
  function ReadMessage(s: Bytes): Option<(Message, Bytes)> {
    if |s| < 4 then None
    else
      var size: int := BytesToU32(s);
      if |s| - 4 < size then None
      else
        match ParsePayload(s[4..4 + size])
        case Some(m) => Some((m, s[4 + size..]))
        case None => None
  }

  /** All messages of a stream; `None` unless it ends between two of them. */
  function ReadAll(s: Bytes): Option<seq<Message>> {
    if s == [] then Some([])
    else
      match ReadMessage(s)
      case None => None
      case Some((m, rest)) =>
        if |rest| >= |s| then None
        else
          match ReadAll(rest)
          case Some(ms) => Some([m] + ms)
          case None => None
  }

  method ReadLoop(stream: Bytes) returns (r: Option<seq<Message>>)
    ensures r == ReadAll(stream)
  {
    var s, ms := stream, [];
    assert ReadAll(s).Some? ==> [] + ReadAll(s).value == ReadAll(s).value;
    while s != []
      invariant ReadAll(stream) == match ReadAll(s) { case Some(rest) => Some(ms + rest) case None => None }
      decreases |s|
    {
      if |s| < 4 { return None; }
      var size: int := BytesToU32(s);
      if |s| - 4 < size { return None; }
      var message := s[4..4 + size];
      var m := KeepAlive;
      if size > 0 {
        var next := NewMessage(message[0], message[1..]);
        if next == None { return None; }
        m := next.value;
      }
      ghost var later := ReadAll(s[4 + size..]);
      assert later.Some? ==> ms + ([m] + later.value) == ms + [m] + later.value;
      ms, s := ms + [m], s[4 + size..];
    }
    assert ms + [] == ms;
    return Some(ms);
  }

  // ---- Laws ----

  lemma ThreeNumbers(a: U32, b: U32, c: U32)
    ensures var body := U32ToBytes(a) + U32ToBytes(b) + U32ToBytes(c);
            |body| == 12 && BytesToU32(body[0..4]) == a && BytesToU32(body[4..8]) == b && BytesToU32(body[8..12]) == c
  {
    var body := U32ToBytes(a) + U32ToBytes(b) + U32ToBytes(c);
    assert body[0..4] == U32ToBytes(a) + [] && body[4..8] == U32ToBytes(b) + [] && body[8..12] == U32ToBytes(c) + [];
    U32RoundTrips(a, []);
    U32RoundTrips(b, []);
    U32RoundTrips(c, []);
  }

  lemma TwoNumbers(a: U32, b: U32, data: Bytes)
    ensures var body := U32ToBytes(a) + U32ToBytes(b) + data;
            |body| == 8 + |data| && BytesToU32(body[0..4]) == a && BytesToU32(body[4..8]) == b && body[8..] == data
  {
    var body := U32ToBytes(a) + U32ToBytes(b) + data;
    assert body[0..4] == U32ToBytes(a) + [] && body[4..8] == U32ToBytes(b) + [];
    U32RoundTrips(a, []);
    U32RoundTrips(b, []);
  }

  /** A payload parses back exactly when it is not a `Piece` under the id of a `Request`; that one comes out
      as a `Request`, or not at all. */
  lemma PayloadParsesIff(m: Message, pieceId: byte)
    requires pieceId in {PIECE_ID_WRITTEN, PIECE_ID}
    ensures ParsePayload(Payload(m, pieceId)) == Some(m) <==> !m.Piece? || pieceId == PIECE_ID
    ensures m.Piece? && pieceId == PIECE_ID_WRITTEN && ParsePayload(Payload(m, pieceId)).Some? ==>
              ParsePayload(Payload(m, pieceId)).value.Request?
  {
    var p := Payload(m, pieceId);
    match m
    case Have(index) =>
      assert p[1..] == U32ToBytes(index) + [];
      U32RoundTrips(index, []);
    case Request(index, offset, length) =>
      ThreeNumbers(index, offset, length);
      assert p[1..] == U32ToBytes(index) + U32ToBytes(offset) + U32ToBytes(length);
    case Cancel(index, offset, length) =>
      ThreeNumbers(index, offset, length);
      assert p[1..] == U32ToBytes(index) + U32ToBytes(offset) + U32ToBytes(length);
    case Piece(index, offset, data) =>
      TwoNumbers(index, offset, data);
      assert p[1..] == U32ToBytes(index) + U32ToBytes(offset) + data;
    case Bitfield(bits) => assert p[1..] == bits;
    case _ =>
  }

  /** A frame is cut at its end, whatever is in it. */
  lemma ReadFrame(p: Bytes, rest: Bytes)
    requires |p| < TWO_32
    ensures |Frame(p)| >= 4
    ensures ReadMessage(Frame(p) + rest)
         == match ParsePayload(p) { case Some(m) => Some((m, rest)) case None => None }
  {
    var s := Frame(p) + rest;
    U32RoundTrips(|p|, p + rest);
    assert s == U32ToBytes(|p|) + (p + rest);
    assert s[4..4 + |p|] == p && s[4 + |p|..] == rest;
  }

  /** A message is read back, with whatever follows it, exactly when it is not a `Piece` under id 6; that
      one comes out as a `Request`, or not at all. */
  lemma MessageRoundTripIff(m: Message, pieceId: byte, rest: Bytes)
    requires pieceId in {PIECE_ID_WRITTEN, PIECE_ID} && |Payload(m, pieceId)| < TWO_32
    ensures var r := ReadMessage(Serialize(m, pieceId) + rest);
            && (r == Some((m, rest)) <==> !m.Piece? || pieceId == PIECE_ID)
            && (r.Some? ==> r.value.1 == rest && (m.Piece? && pieceId == PIECE_ID_WRITTEN ==> r.value.0.Request?))
  {
    var p := Payload(m, pieceId);
    PayloadParsesIff(m, pieceId);
    ReadFrame(p, rest);
  }

  function Concat(ms: seq<Message>, pieceId: byte): Bytes {
    if ms == [] then [] else Serialize(ms[0], pieceId) + Concat(ms[1..], pieceId)
  }

  /** A stream of messages is split and parsed back to the same messages exactly when none is a `Piece`
      under id 6. */
  lemma {:induction false} StreamRoundTripIff(ms: seq<Message>, pieceId: byte)
    requires pieceId in {PIECE_ID_WRITTEN, PIECE_ID}
    requires forall m :: m in ms ==> |Payload(m, pieceId)| < TWO_32
    ensures ReadAll(Concat(ms, pieceId)) == Some(ms) <==> pieceId == PIECE_ID || forall m :: m in ms ==> !m.Piece?
  {
    if ms != [] {
      var s, later := Concat(ms, pieceId), Concat(ms[1..], pieceId);
      StreamRoundTripIff(ms[1..], pieceId);
      MessageRoundTripIff(ms[0], pieceId, later);
      ReadFrame(Payload(ms[0], pieceId), later);
      FirstOfAll(s, later, ms);
      PieceAmong(ms);
    }
  }

  lemma FirstOfAll(s: Bytes, later: Bytes, ms: seq<Message>)
    requires ms != [] && |later| < |s|
    requires ReadMessage(s).Some? ==> ReadMessage(s).value.1 == later
    ensures ReadAll(s) == Some(ms)
       <==> ReadMessage(s) == Some((ms[0], later)) && ReadAll(later) == Some(ms[1..])
  {
    assert ms == [ms[0]] + ms[1..];
    if ReadAll(s).Some? {
      assert ReadAll(s).value[1..] == ReadAll(later).value;
    }
  }

  lemma PieceAmong(ms: seq<Message>)
    requires ms != []
    ensures (forall m :: m in ms ==> !m.Piece?) <==> !ms[0].Piece? && forall m :: m in ms[1..] ==> !m.Piece?
  {
    assert ms == [ms[0]] + ms[1..];
  }
}
