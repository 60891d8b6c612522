/** The `Manager` of manager.rs: `process_event` for connections and broadcasts, `connect` and the end of
    connections, on its map of peers and its queue, with the connections' queues beside it. */
module ManagerClass {
  import opened ByteStrings
  import opened ManagerModel
  import opened PeerModel

  class Manager {
    var peers: map<Peer, nat>
    var peersDeque: seq<(bool, Peer)>
    /** The peers of all connections made, by number. */
    var made: seq<Peer>
    /** The queue of each connection, and whether its receiver is still there. */
    var inboxes: seq<seq<Ipc>>
    var open: seq<bool>

    ghost function Now(): ManagerModel.Manager
      reads this
    {
      ManagerModel.Manager(peers, peersDeque, made)
    }

    /** Each connection made has its queue, and the map knows its number. */
    ghost predicate Linked()
      reads this
    {
      |inboxes| == |made| == |open| && Numbered(Now())
    }

    ghost predicate Valid()
      reads this
    {
      Linked() && Tidy(Now())
    }

    constructor ()
      ensures Valid() && Now() == ManagerModel.Manager(map[], [], [])
    {
      peers, peersDeque, made, inboxes, open := map[], [], [], [], [];
    }

    method Connect(peer: Peer)
      requires |inboxes| == |made| == |open| && peer !in peers
      modifies this
      ensures Some(Now()) == ManagerModel.Connect(old(Now()), peer)
      ensures inboxes == old(inboxes) + [[]] && open == old(open) + [true]
    {
      peers := peers[peer := |made|];
      made := made + [peer];
      inboxes := inboxes + [[]];
      open := open + [true];
    }

    method ProcessConnection(sendHandshakeFirst: bool, peer: Peer)
      requires Valid()
      modifies this
      ensures Linked() && (Valid() <==> (!sendHandshakeFirst, peer) !in old(peersDeque))
      ensures Some(Now()) == OnConnection(old(Now()), sendHandshakeFirst, peer)
      ensures old(inboxes) <= inboxes && forall id :: |old(inboxes)| <= id < |inboxes| ==> inboxes[id] == []
    {
      OnConnectionKeepsIff(Now(), sendHandshakeFirst, peer);
      if peer in peers || (sendHandshakeFirst, peer) in peersDeque {
      } else if |peers| < MAX_PEERS {
        Connect(peer);
      } else {
        peersDeque := peersDeque + [(sendHandshakeFirst, peer)];
      }
    }

    method ProcessDisconnect(peer: Peer)
      requires Valid()
      modifies this
      ensures Valid() && Now() == Disconnect(old(Now()), peer)
      ensures inboxes == old(inboxes) && open == old(open)
    {
      DisconnectKeeps(Now(), peer);
      peers := peers - {peer};
    }

    /** Connection `id` is the one that its peer is registered with. */
    predicate Registered(id: nat)
      requires id < |made|
      reads this
    {
      made[id] in peers && peers[made[id]] == id
    }

    /** `keys` are the peers outside `todo` whose connection is gone, each once. */
    ghost predicate Listed(keys: seq<Peer>, todo: set<Peer>)
      requires Linked()
      reads this
    {
      && (forall p :: p in keys <==> p in peers && p !in todo && !open[peers[p]])
      && forall i, j :: 0 <= i < j < |keys| ==> keys[i] != keys[j]
    }

    lemma ListOne(keys: seq<Peer>, todo: set<Peer>, p: Peer)
      requires Linked() && Listed(keys, todo) && p in todo && p in peers
      ensures Listed(if open[peers[p]] then keys else keys + [p], todo - {p})
    {
    }

    /** Every registered connection outside `todo` that is there has got the message, once. */
    ghost predicate Sent(before: seq<seq<Ipc>>, ipc: Ipc, todo: set<Peer>)
      requires Linked()
      reads this
    {
      && |before| == |inboxes|
      && forall id :: 0 <= id < |inboxes| ==>
           inboxes[id] == if Registered(id) && made[id] !in todo && open[id] then before[id] + [ipc] else before[id]
    }

    /** One turn of the send loop: send to `p`, or note that its receiver is gone. */
    method SendOne(p: Peer, ipc: Ipc, deleteKeys: seq<Peer>, ghost before: seq<seq<Ipc>>, ghost todo: set<Peer>)
        returns (noted: seq<Peer>)
      requires Linked() && p in peers && p in todo && Sent(before, ipc, todo) && Listed(deleteKeys, todo)
      modifies `inboxes
      ensures Linked() && Sent(before, ipc, todo - {p}) && Listed(noted, todo - {p})
    {
      var id := peers[p];
      assert made[id] == p && Registered(id);
      ListOne(deleteKeys, todo, p);
      if open[id] {
        inboxes := inboxes[id := inboxes[id] + [ipc]];
        noted := deleteKeys;
      } else {
        noted := deleteKeys + [p];
      }
    }

    /** The send loop of a broadcast. */
    method SendToAll(ipc: Ipc) returns (deleteKeys: seq<Peer>)
      requires Linked()
      modifies `inboxes
      ensures Linked() && Sent(old(inboxes), ipc, {}) && Listed(deleteKeys, {})
    {
      deleteKeys := [];
      var todo := peers.Keys;
      while todo != {}
        invariant todo <= peers.Keys && Linked() && Sent(old(inboxes), ipc, todo) && Listed(deleteKeys, todo)
        decreases todo
      {
        var p :| p in todo;
        deleteKeys := SendOne(p, ipc, deleteKeys, old(inboxes), todo);
        todo := todo - {p};
      }
    }

    method ReplaceOne(peer: Peer)
      requires Valid() && peer in peers
      modifies this
      ensures Valid() && Some(Now()) == Replace(old(Now()), peer)
      ensures old(inboxes) <= inboxes && old(open) <= open
    {
      ReplaceKeeps(Now(), peer);
      peers := peers - {peer};
      if |peersDeque| > 0 {
        var next := peersDeque[0].1;
        peersDeque := peersDeque[1..];
        Connect(next);
      }
    }

    /** The delete loop of a broadcast. */
    method ReplaceEach(deleteKeys: seq<Peer>)
      requires Valid() && Listed(deleteKeys, {})
      modifies this
      ensures Valid() && Some(Now()) == ReplaceAll(old(Now()), deleteKeys)
      ensures old(inboxes) <= inboxes
    {
      ReplaceAllKeeps(Now(), deleteKeys);
      for i := 0 to |deleteKeys|
        invariant Valid() && old(inboxes) <= inboxes
        invariant ReplaceAll(Now(), deleteKeys[i..]) == ReplaceAll(old(Now()), deleteKeys)
        invariant forall j :: i <= j < |deleteKeys| ==> deleteKeys[j] in peers
      {
        assert deleteKeys[i..][0] == deleteKeys[i] && deleteKeys[i..][1..] == deleteKeys[i + 1..];
        ReplaceKeeps(Now(), deleteKeys[i]);
        ReplaceOne(deleteKeys[i]);
      }
    }

    /** A `Broadcast` event. */
    method ProcessBroadcast(ipc: Ipc) returns (ghost failed: seq<Peer>)
      requires Valid()
      modifies this
      ensures Valid() && Some(Now()) == ReplaceAll(old(Now()), failed)
      ensures forall p :: p in failed <==> p in old(peers) && !old(open)[old(peers)[p]]
      ensures |old(inboxes)| <= |inboxes|
      ensures forall id :: 0 <= id < |old(inboxes)| ==>
                inboxes[id] == if old(Registered(id)) && old(open)[id] then old(inboxes)[id] + [ipc]
                               else old(inboxes)[id]
    {
      var deleteKeys := SendToAll(ipc);
      failed := deleteKeys;
      ReplaceEach(deleteKeys);
    }
  }
}
