/** A connection as a history: what we still want from the peer, who is choked, who is interested and what the peer
    has, told from the events alone. */
module PeerHistory {
  import opened History
  import opened Wire
  import opened PeerModel
  import opened BitfieldLaws
  import opened PeerRuns
  import opened PeerWorkLaws
  import opened PeerServiceLaws

  /** The connection after each event of a run. */
  ghost predicate Course(lengths: seq<nat>, have: seq<bool>, cs: seq<Conn>, turns: seq<Turn>) {
    && |cs| == |turns| + 1 && cs[0] == Start(have)
    && forall i :: 0 <= i < |turns| ==> Leads(lengths, cs[i], turns[i], cs[i + 1])
  }

  ghost predicate Leads(lengths: seq<nat>, c: Conn, t: Turn, r: Conn) {
    Possible(lengths, c, t) && r == Handle(c, t.ipc, t.env)
  }

  lemma {:induction false} CourseIsSound(lengths: seq<nat>, have: seq<bool>, cs: seq<Conn>, turns: seq<Turn>, i: nat)
    requires Course(lengths, have, cs, turns) && i <= |turns|
    ensures Sound(lengths, cs[i])
  {
    if i == 0 {
      StartIsSound(lengths, have);
    } else {
      var k := i - 1;
      CourseIsSound(lengths, have, cs, turns, k);
      assert Leads(lengths, cs[k], turns[k], cs[k + 1]);
      HandleKeepsSound(lengths, cs[k], turns[k].ipc, turns[k].env);
    }
  }

  // ---- The blocks we want ----

  ghost predicate Brings(lengths: seq<nat>, c: Conn, t: Turn, k: Key) {
    Possible(lengths, c, t) && k in News(c, t.ipc, t.env)
  }

  ghost predicate StillWanted(lengths: seq<nat>, cs: seq<Conn>, turns: seq<Turn>, k: Key, i: nat, j: nat)
    requires |cs| == |turns| + 1 && i < j <= |turns|
  {
    Brings(lengths, cs[i], turns[i], k) && forall l :: i < l < j ==> k !in Finished(cs[l], turns[l].ipc)
  }

  /** No block is forgotten and none made up: in every run a block is pending, queued or requested, if and only if
      the peer has announced its piece while we missed the block, and it has not come since. */
  lemma PendingIff(lengths: seq<nat>, have: seq<bool>, cs: seq<Conn>, turns: seq<Turn>, k: Key, j: nat)
    requires Course(lengths, have, cs, turns) && j <= |turns|
    ensures k in Pending(cs[j]) <==> exists i :: 0 <= i < j && StillWanted(lengths, cs, turns, k, i, j)
  {
    var n := |turns|;
    var up := seq(n, i requires 0 <= i < n => Brings(lengths, cs[i], turns[i], k));
    var down := seq(n, i requires 0 <= i < n => k in Finished(cs[i], turns[i].ipc));
    var flag := seq(n + 1, i requires 0 <= i <= n => k in Pending(cs[i]));
    forall i | 0 <= i < n ensures Follows(up, down, flag, i) {
      CourseIsSound(lengths, have, cs, turns, i);
      assert Leads(lengths, cs[i], turns[i], cs[i + 1]);
      HandlePends(lengths, cs[i], turns[i].ipc, turns[i].env);
      NotBoth(cs[i], turns[i].ipc, turns[i].env);
    }
    LastWins(up, down, flag, j);
    if i :| 0 <= i < j && RaisedAt(up, down, i, j) {
      forall l | i < l < j ensures k !in Finished(cs[l], turns[l].ipc) { assert !down[l]; }
      assert StillWanted(lengths, cs, turns, k, i, j);
    }
    if i :| 0 <= i < j && StillWanted(lengths, cs, turns, k, i, j) { assert RaisedAt(up, down, i, j); }
  }

  lemma NotBoth(c: Conn, ipc: Ipc, env: Env)
    requires WellFormed(c, ipc)
    ensures News(c, ipc, env) == {} || Finished(c, ipc) == {}
  {
  }

  // ---- Choking and interest ----

  /** The event came at `i`, and the other one not since. */
  predicate LastWas(turns: seq<Turn>, on: Ipc, off: Ipc, i: nat, j: nat)
    requires i < j <= |turns|
  {
    turns[i].ipc == on && forall l :: i < l < j ==> turns[l].ipc != off
  }

  predicate LastSaid(turns: seq<Turn>, on: Ipc, off: Ipc, j: nat)
    requires j <= |turns|
  {
    exists i :: 0 <= i < j && LastWas(turns, on, off, i, j)
  }

  lemma LastSaidIff(turns: seq<Turn>, on: Ipc, off: Ipc, flag: seq<bool>, j: nat)
    requires |flag| == |turns| + 1 && j <= |turns| && !flag[0]
    requires forall i :: 0 <= i < |turns| ==> Switches(turns, on, off, flag, i)
    ensures flag[j] <==> LastSaid(turns, on, off, j)
  {
    var n := |turns|;
    var up := seq(n, i requires 0 <= i < n => turns[i].ipc == on);
    var down := seq(n, i requires 0 <= i < n => turns[i].ipc == off);
    forall i | 0 <= i < n ensures Follows(up, down, flag, i) { assert Switches(turns, on, off, flag, i); }
    LastWins(up, down, flag, j);
    if i :| 0 <= i < j && RaisedAt(up, down, i, j) {
      forall l | i < l < j ensures turns[l].ipc != off { assert !down[l]; }
      assert LastWas(turns, on, off, i, j);
    }
    if i :| 0 <= i < j && LastWas(turns, on, off, i, j) { assert RaisedAt(up, down, i, j); }
  }

  predicate Switches(turns: seq<Turn>, on: Ipc, off: Ipc, flag: seq<bool>, i: nat)
    requires |flag| == |turns| + 1 && i < |turns|
  {
    flag[i + 1] == (turns[i].ipc == on || (flag[i] && turns[i].ipc != off))
  }

  /** In every run we are unchoked exactly while the last word on it was `UnChoke`, and the peer is interested
      exactly while its last word on it was `Interested`. */
  lemma LastWordHolds(lengths: seq<nat>, have: seq<bool>, cs: seq<Conn>, turns: seq<Turn>, j: nat)
    requires Course(lengths, have, cs, turns) && j <= |turns|
    ensures !cs[j].me.isChoked <==> LastSaid(turns, FromPeer(UnChoke), FromPeer(Choke), j)
    ensures cs[j].he.isInterested <==> LastSaid(turns, FromPeer(Interested), FromPeer(NotInterested), j)
  {
    var n := |turns|;
    var unchoked := seq(n + 1, i requires 0 <= i <= n => !cs[i].me.isChoked);
    var interested := seq(n + 1, i requires 0 <= i <= n => cs[i].he.isInterested);
    forall i | 0 <= i < n
      ensures Switches(turns, FromPeer(UnChoke), FromPeer(Choke), unchoked, i)
      ensures Switches(turns, FromPeer(Interested), FromPeer(NotInterested), interested, i)
    {
      assert Leads(lengths, cs[i], turns[i], cs[i + 1]);
      HandleFlags(cs[i], turns[i].ipc, turns[i].env);
    }
    LastSaidIff(turns, FromPeer(UnChoke), FromPeer(Choke), unchoked, j);
    LastSaidIff(turns, FromPeer(Interested), FromPeer(NotInterested), interested, j);
  }

  /** The peer is unchoked from its first interest on, and it has been told so once. */
  lemma {:induction false} UnchokedOnce(lengths: seq<nat>, have: seq<bool>, cs: seq<Conn>, turns: seq<Turn>, j: nat)
    requires Course(lengths, have, cs, turns) && j <= |turns|
    ensures !cs[j].he.isChoked <==> exists i :: 0 <= i < j && turns[i].ipc == FromPeer(Interested)
    ensures !cs[j].he.isChoked <==> UnChoke in cs[j].sent
    ensures Choke !in cs[j].sent
  {
    if j > 0 {
      var k := j - 1;
      UnchokedOnce(lengths, have, cs, turns, k);
      assert Leads(lengths, cs[k], turns[k], cs[k + 1]);
      HandleFlags(cs[k], turns[k].ipc, turns[k].env);
      assert cs[j].sent == cs[k].sent + cs[j].sent[|cs[k].sent|..];
    }
  }

  // ---- What the peer has ----

  /** The event says that the peer has piece `p`. */
  predicate SaysHas(n: nat, ipc: Ipc, p: nat) {
    match ipc
    case FromPeer(Have(i)) => i == p
    case FromPeer(Bitfield(bits)) => p < n <= 8 * |bits| && IsSet(bits, p)
    case _ => false
  }

  predicate SaysHasNot(n: nat, ipc: Ipc, p: nat) {
    match ipc
    case FromPeer(Bitfield(bits)) => p < n <= 8 * |bits| && !IsSet(bits, p)
    case _ => false
  }

  predicate HasSince(n: nat, turns: seq<Turn>, p: nat, i: nat, j: nat)
    requires i < j <= |turns|
  {
    SaysHas(n, turns[i].ipc, p) && forall l :: i < l < j ==> !SaysHasNot(n, turns[l].ipc, p)
  }

  lemma {:induction false} SameNumber(lengths: seq<nat>, have: seq<bool>, cs: seq<Conn>, turns: seq<Turn>, i: nat)
    requires Course(lengths, have, cs, turns) && i <= |turns|
    ensures |cs[i].he.hasPieces| == |have|
  {
    if i > 0 {
      var k := i - 1;
      SameNumber(lengths, have, cs, turns, k);
      assert Leads(lengths, cs[k], turns[k], cs[k + 1]);
      HandleFlags(cs[k], turns[k].ipc, turns[k].env);
    }
  }

  /** In every run we take the peer to have a piece exactly if it has said so, by `Have` or by a bit, and no later
      bitfield has taken it back. */
  lemma TheyHaveIff(lengths: seq<nat>, have: seq<bool>, cs: seq<Conn>, turns: seq<Turn>, p: nat, j: nat)
    requires Course(lengths, have, cs, turns) && j <= |turns| && p < |have|
    ensures p < |cs[j].he.hasPieces|
    ensures cs[j].he.hasPieces[p] <==> exists i :: 0 <= i < j && HasSince(|have|, turns, p, i, j)
  {
    var n := |turns|;
    forall i | 0 <= i <= n ensures |cs[i].he.hasPieces| == |have| { SameNumber(lengths, have, cs, turns, i); }
    var up := seq(n, i requires 0 <= i < n => SaysHas(|have|, turns[i].ipc, p));
    var down := seq(n, i requires 0 <= i < n => SaysHasNot(|have|, turns[i].ipc, p));
    var flag := seq(n + 1, i requires 0 <= i <= n => cs[i].he.hasPieces[p]);
    forall i | 0 <= i < n ensures Follows(up, down, flag, i) {
      assert Leads(lengths, cs[i], turns[i], cs[i + 1]);
      HandleFlags(cs[i], turns[i].ipc, turns[i].env);
    }
    LastWins(up, down, flag, j);
    if i :| 0 <= i < j && RaisedAt(up, down, i, j) {
      forall l | i < l < j ensures !SaysHasNot(|have|, turns[l].ipc, p) { assert !down[l]; }
      assert HasSince(|have|, turns, p, i, j);
    }
    if i :| 0 <= i < j && HasSince(|have|, turns, p, i, j) { assert RaisedAt(up, down, i, j); }
  }
}
