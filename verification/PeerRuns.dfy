/** Whole runs of a connection, and its event loop together with the loop that writes to the peer. */
module PeerRuns {
  import opened ByteStrings
  import opened Pieces
  import opened Wire
  import opened PeerModel
  import opened PeerRequestLaws
  import opened PeerSentLaws
  import opened PeerUploadLaws

  // ---- The event loop ----

  datatype Turn = Turn(ipc: Ipc, env: Env)

  ghost predicate Possible(lengths: seq<nat>, c: Conn, t: Turn) {
    WellFormed(c, t.ipc) && EnvFits(c, t.ipc, t.env) && GoodAnswers(lengths, t.env)
  }

  ghost predicate RunFits(lengths: seq<nat>, c: Conn, turns: seq<Turn>)
    decreases |turns|
  {
    turns == [] ||
      (Possible(lengths, c, turns[0]) && RunFits(lengths, Handle(c, turns[0].ipc, turns[0].env), turns[1..]))
  }

  ghost function Run(lengths: seq<nat>, c: Conn, turns: seq<Turn>): Conn
    requires RunFits(lengths, c, turns)
    decreases |turns|
  {
    if turns == [] then c else Run(lengths, Handle(c, turns[0].ipc, turns[0].env), turns[1..])
  }

  ghost predicate Sound(lengths: seq<nat>, c: Conn) {
    Requests(lengths, c) && Eager(c) && Books(c) && Uploads(c)
  }

  lemma HandleKeepsSound(lengths: seq<nat>, c: Conn, ipc: Ipc, env: Env)
    requires Sound(lengths, c) && WellFormed(c, ipc) && EnvFits(c, ipc, env) && GoodAnswers(lengths, env)
    ensures Sound(lengths, Handle(c, ipc, env))
  {
    HandleKeepsRequests(lengths, c, ipc, env);
    HandleKeepsBooks(lengths, c, ipc, env);
    HandleKeepsUploads(c, ipc, env);
  }

  lemma StartIsSound(lengths: seq<nat>, have: seq<bool>)
    ensures Sound(lengths, Start(have))
  {
    StartKeepsRequests(lengths, have);
    var first := Bitfield(PackBits(have));
    Sending([], first);
    assert [] + [first] == [first] && [first][..0] == [];
    assert Uploaded([first]) == [];
  }

  /** Every run of events keeps every invariant of the connection. */
  lemma {:induction false} RunKeepsSound(lengths: seq<nat>, c: Conn, turns: seq<Turn>)
    requires Sound(lengths, c) && RunFits(lengths, c, turns)
    ensures Sound(lengths, Run(lengths, c, turns))
    decreases |turns|
  {
    if turns != [] {
      HandleKeepsSound(lengths, c, turns[0].ipc, turns[0].env);
      RunKeepsSound(lengths, Handle(c, turns[0].ipc, turns[0].env), turns[1..]);
    }
  }

  lemma EveryRunIsSound(lengths: seq<nat>, have: seq<bool>, turns: seq<Turn>)
    requires RunFits(lengths, Start(have), turns)
    ensures Sound(lengths, Run(lengths, Start(have), turns))
  {
    StartIsSound(lengths, have);
    RunKeepsSound(lengths, Start(have), turns);
  }

  // ---- With the write loop ----

  /** The connection, what its writer has taken of `sent`, what it is writing, and the events to come. */
  datatype Link = Link(conn: Conn, taken: nat, writing: Option<Message>, inbox: seq<Ipc>)

  datatype Step =
    | Main(env: Env)         // the event loop handles the next event
    | Deliver(m: Message)    // the read loop passes a message on
    | Notify(ipc: Ipc)       // the manager broadcasts a completion
    | Take                   // the write loop takes a message
    | Wrote                  // and has written it

  ghost predicate Enabled(lengths: seq<nat>, l: Link, step: Step) {
    match step
    case Main(env) => l.inbox != [] && Possible(lengths, l.conn, Turn(l.inbox[0], env))
    case Deliver(_) => true
    case Notify(ipc) => !ipc.FromPeer? && !ipc.BlockUploaded?
    case Take => l.writing.None? && l.taken < |l.conn.sent|
    case Wrote => l.writing.Some?
  }

  ghost function Next(lengths: seq<nat>, l: Link, step: Step): Link
    requires Enabled(lengths, l, step)
  {
    match step
    case Main(env) => l.(conn := Handle(l.conn, l.inbox[0], env), inbox := l.inbox[1..])
    case Deliver(m) => l.(inbox := l.inbox + [FromPeer(m)])
    case Notify(ipc) => l.(inbox := l.inbox + [ipc])
    case Take => l.(taken := l.taken + 1, writing := Some(l.conn.sent[l.taken]))
    case Wrote =>
      l.(writing := None, inbox := if l.writing.value.Piece? then l.inbox + [BlockUploaded] else l.inbox)
  }

  function Notices(inbox: seq<Ipc>): nat {
    if inbox == [] then 0 else (if inbox[0].BlockUploaded? then 1 else 0) + Notices(inbox[1..])
  }

  /** `Piece` messages not yet written, and notices of written ones not yet handled. */
  function InFlight(l: Link): nat
    requires l.taken <= |l.conn.sent|
  {
    Count(l.conn.sent[l.taken..], OfPiece)
    + (if l.writing.Some? && l.writing.value.Piece? then 1 else 0)
    + Notices(l.inbox)
  }

  function One(b: bool): nat {
    if b then 1 else 0
  }

  /** One upload at a time: something is in flight exactly while the flag is up, and never two. */
  ghost predicate OneUpload(l: Link) {
    l.taken <= |l.conn.sent| && InFlight(l) == One(l.conn.uploadInProgress)
  }

  lemma {:induction false} CountSplit(a: seq<Message>, b: seq<Message>, sort: Sort)
    ensures Count(a + b, sort) == Count(a, sort) + Count(b, sort)
    decreases |b|
  {
    if b == [] {
      assert a + b == a;
    } else {
      assert (a + b)[..|a + b| - 1] == a + b[..|b| - 1];
      CountSplit(a, b[..|b| - 1], sort);
    }
  }

  lemma CountHead(s: seq<Message>, sort: Sort)
    requires s != []
    ensures Count(s, sort) == One(SortOf(s[0]) == sort) + Count(s[1..], sort)
  {
    assert s == [s[0]] + s[1..] && [s[0]][..0] == [];
    CountSplit([s[0]], s[1..], sort);
  }

  lemma {:induction false} NoticesAdd(inbox: seq<Ipc>, ipc: Ipc)
    ensures Notices(inbox + [ipc]) == Notices(inbox) + One(ipc.BlockUploaded?)
  {
    if inbox == [] {
      assert inbox + [ipc] == [ipc] && [ipc][1..] == [];
    } else {
      NoticesAdd(inbox[1..], ipc);
      assert (inbox + [ipc])[1..] == inbox[1..] + [ipc];
    }
  }

  lemma {:induction false} NoPieces(more: seq<Message>)
    requires forall m :: m in more ==> !m.Piece?
    ensures Count(more, OfPiece) == 0
  {
    if more != [] {
      assert more[|more| - 1] in more;
      NoPieces(more[..|more| - 1]);
    }
  }

  /** An event sends as many `Piece` messages as the flag goes up; the notice of the last one takes it
      down first. */
  lemma HandleUploadsOne(c: Conn, ipc: Ipc, env: Env)
    requires WellFormed(c, ipc) && EnvFits(c, ipc, env)
    ensures var r := Handle(c, ipc, env);
            && c.sent <= r.sent
            && Count(r.sent[|c.sent|..], OfPiece) + One(c.uploadInProgress && !ipc.BlockUploaded?)
               == One(r.uploadInProgress)
  {
    if BeforeRequests(c, ipc, env).Some? {
      RequestEventsAreQuiet(c, ipc, env);
      NoPieces(Handle(c, ipc, env).sent[|c.sent|..]);
    } else {
      OtherUploadsOne(c, ipc, env);
    }
  }

  lemma UploadSendsOne(c: Conn, data: Req -> Option<Bytes>)
    requires |c.log.queued| == |c.he.requests|
    ensures var r := UploadNextBlock(c, data);
            c.sent <= r.sent
            && Count(r.sent[|c.sent|..], OfPiece) + One(c.uploadInProgress) == One(r.uploadInProgress)
  {
    var r := UploadNextBlock(c, data);
    if r.sent == c.sent {
      assert r.sent[|c.sent|..] == [];
    } else {
      var more := r.sent[|c.sent|..];
      assert |more| == 1 && more[0].Piece? && more[..0] == [];
    }
  }

  lemma SendsNoPiece(c: Conn, r: Conn)
    requires r.uploadInProgress == c.uploadInProgress
    requires c.sent <= r.sent && forall m :: m in r.sent[|c.sent|..] ==> !m.Piece?
    ensures Count(r.sent[|c.sent|..], OfPiece) + One(c.uploadInProgress) == One(r.uploadInProgress)
  {
    NoPieces(r.sent[|c.sent|..]);
  }

  lemma UnchokeUploadsOne(c: Conn, data: Req -> Option<Bytes>)
    requires |c.log.queued| == |c.he.requests|
    ensures var c2 := c.(he := c.he.(isInterested := true, isChoked := false), sent := c.sent + [UnChoke]);
            var r := UploadNextBlock(c2, data);
            && c.sent <= r.sent
            && Count(r.sent[|c.sent|..], OfPiece) + One(c.uploadInProgress) == One(r.uploadInProgress)
  {
    var c2 := c.(he := c.he.(isInterested := true, isChoked := false), sent := c.sent + [UnChoke]);
    var r := UploadNextBlock(c2, data);
    UploadSendsOne(c2, data);
    var more := r.sent[|c.sent|..];
    CountHead(more, OfPiece);
    assert more[1..] == r.sent[|c2.sent|..];
  }

  lemma OtherUploadsOne(c: Conn, ipc: Ipc, env: Env)
    requires WellFormed(c, ipc)
    ensures var r := HandleOther(c, ipc, env);
            && c.sent <= r.sent
            && Count(r.sent[|c.sent|..], OfPiece) + One(c.uploadInProgress && !ipc.BlockUploaded?)
               == One(r.uploadInProgress)
  {
    var r := HandleOther(c, ipc, env);
    match ipc
    case FromPeer(Interested) =>
      if c.he.isChoked { UnchokeUploadsOne(c, env.data); } else { SendsNoPiece(c, r); }
    case FromPeer(Request(p, offset, length)) => UploadSendsOne(AcceptRequest(c, p, offset, length), env.data);
    case BlockUploaded => UploadSendsOne(c.(uploadInProgress := false), env.data);
    case _ => SendsNoPiece(c, r);
  }

  lemma MainKeepsOneUpload(lengths: seq<nat>, l: Link, env: Env)
    requires OneUpload(l) && Enabled(lengths, l, Main(env))
    ensures OneUpload(Next(lengths, l, Main(env)))
  {
    var c, r := l.conn, Handle(l.conn, l.inbox[0], env);
    HandleUploadsOne(c, l.inbox[0], env);
    assert r.sent[l.taken..] == c.sent[l.taken..] + r.sent[|c.sent|..];
    CountSplit(c.sent[l.taken..], r.sent[|c.sent|..], OfPiece);
  }

  lemma TakeKeepsOneUpload(lengths: seq<nat>, l: Link)
    requires OneUpload(l) && Enabled(lengths, l, Take)
    ensures OneUpload(Next(lengths, l, Take))
  {
    CountHead(l.conn.sent[l.taken..], OfPiece);
    assert l.conn.sent[l.taken..][1..] == l.conn.sent[l.taken + 1..];
  }

  /** No interleaving of the loops breaks the flow control. */
  lemma StepKeepsOneUpload(lengths: seq<nat>, l: Link, step: Step)
    requires OneUpload(l) && Enabled(lengths, l, step)
    ensures OneUpload(Next(lengths, l, step))
  {
    match step
    case Main(env) => MainKeepsOneUpload(lengths, l, env);
    case Take => TakeKeepsOneUpload(lengths, l);
    case Deliver(m) => NoticesAdd(l.inbox, FromPeer(m));
    case Notify(ipc) => NoticesAdd(l.inbox, ipc);
    case Wrote => NoticesAdd(l.inbox, BlockUploaded);
  }

  ghost predicate Trace(lengths: seq<nat>, ls: seq<Link>, steps: seq<Step>) {
    && |ls| == |steps| + 1
    && forall i :: 0 <= i < |steps| ==> Enabled(lengths, ls[i], steps[i]) && ls[i + 1] == Next(lengths, ls[i], steps[i])
  }

  lemma {:induction false} EveryTraceHasOneUpload(lengths: seq<nat>, have: seq<bool>, ls: seq<Link>,
                                                  steps: seq<Step>, i: nat)
    requires Trace(lengths, ls, steps) && i <= |steps| && ls[0] == Link(Start(have), 0, None, [])
    ensures OneUpload(ls[i]) && Sound(lengths, ls[i].conn)
  {
    if i == 0 {
      StartIsSound(lengths, have);
      NoPieces(Start(have).sent);
      assert Start(have).sent[0..] == Start(have).sent;
    } else {
      EveryTraceHasOneUpload(lengths, have, ls, steps, i - 1);
      StepKeepsOneUpload(lengths, ls[i - 1], steps[i - 1]);
      if steps[i - 1].Main? { HandleKeepsSound(lengths, ls[i - 1].conn, ls[i - 1].inbox[0], steps[i - 1].env); }
    }
  }
}
