/** src/node.rs: the table of peers as the object behind the node's lock, method by method.

    Each method is told which table value `t` the object stands for, and says which one it stands
    for afterwards: the operation of `Node` of the same name, applied to `t`. */
module PeerTables {
  import opened Wrappers
  import opened Bytes
  import opened Versions
  import opened Node

  /** A queue after a message was offered to it, taken or not. */
  function AfterSend(q: Queue<seq<byte>>, m: seq<byte>): Queue<seq<byte>> {
    if TrySend(q, m).Some? then TrySend(q, m).value else q
  }

  class Outbound {
    var items: seq<seq<byte>>
    var open: bool

    function View(): Queue<seq<byte>>
      reads this
    {
      Queue(items, open)
    }

    constructor ()
      ensures View() == Queue([], true)
    {
      items := [];
      open := true;
    }

    method Send(m: seq<byte>) returns (ok: bool)
      modifies this
      ensures ok == TrySend(old(View()), m).Some? && View() == AfterSend(old(View()), m)
    {
      ok := open && |items| < OUTBOUND_QUEUE;
      if ok {
        items := items + [m];
      }
    }
  }

  datatype PeerHandle = PeerHandle(address: SocketAddr, origin: Origin, handshake: Handshake, outbound: Outbound)

  /** Each peer has a channel of its own. */
  ghost predicate Distinct(peers: map<PeerId, PeerHandle>) {
    forall i, j :: i in peers && j in peers && i != j ==> peers[i].outbound != peers[j].outbound
  }

  class PeerTable {
    var peers: map<PeerId, PeerHandle>
    var nextId: PeerId

    /** Holds every peer's channel; the table never reaches beyond it. */
    ghost var channels: set<Outbound>

    ghost predicate Matches(id: PeerId, p: Peer<seq<byte>>)
      requires id in peers
      reads this, peers[id].outbound
    {
      var handle := peers[id];
      p == Peer(handle.address, handle.origin, handle.handshake, handle.outbound.View())
    }

    ghost predicate StandsFor(t: Table<seq<byte>>)
      reads this, channels
    {
      && Distinct(peers) && nextId == t.nextId && peers.Keys == t.peers.Keys
      && forall id :: id in peers ==> peers[id].outbound in channels && Matches(id, t.peers[id])
    }

    constructor ()
      ensures StandsFor(Table(map[], 0)) && channels == {}
    {
      peers := map[];
      nextId := 0;
      channels := {};
    }

    method IsDialling(address: SocketAddr, ghost t: Table<seq<byte>>) returns (yes: bool)
      requires StandsFor(t)
      ensures yes == IsDialled(t, address)
    {
      yes := exists id :: id in peers && peers[id].origin == Dialled && peers[id].address == address;
      assert forall id :: id in peers ==>
        peers[id].origin == t.peers[id].origin && peers[id].address == t.peers[id].address;
    }

    method Register(address: SocketAddr, origin: Origin, outbound: Outbound, ghost t: Table<seq<byte>>)
        returns (r: Result<PeerId, Refused>)
      requires StandsFor(t) && outbound !in channels
      modifies this
      ensures var (after, got) := Node.Register(t, address, origin, outbound.View()); StandsFor(after) && r == got
    {
      hide IsDialled, StandsFor, TrySend;
      var dialled := IsDialling(address, t);
      SameSize(t);
      if origin == Dialled && dialled {
        return Err(AlreadyDialled);
      }
      if |peers| >= MAX_PEERS {
        return Err(AtCapacity);
      }
      r := Ok(nextId);
      Insert(PeerHandle(address, origin, AwaitingVersion, outbound), t);
    }

    lemma SameSize(t: Table<seq<byte>>)
      requires StandsFor(t)
      ensures |peers| == |t.peers| && nextId == t.nextId
    {
      assert |peers| == |peers.Keys| && |t.peers| == |t.peers.Keys|;
    }

    method Insert(handle: PeerHandle, ghost t: Table<seq<byte>>)
      requires StandsFor(t) && handle.outbound !in channels
      modifies this
      ensures var p := Peer(handle.address, handle.origin, handle.handshake, handle.outbound.View());
              StandsFor(Table(t.peers[t.nextId := p], t.nextId + 1))
    {
      peers := peers[nextId := handle];
      nextId := nextId + 1;
      channels := channels + {handle.outbound};
    }

    method Remove(id: PeerId, ghost t: Table<seq<byte>>) returns (removed: Option<PeerHandle>)
      requires StandsFor(t)
      modifies this
      ensures StandsFor(Node.Remove(t, id)) && channels == old(channels)
      ensures removed == if id in old(peers) then Some(old(peers[id])) else None
    {
      removed := if id in peers then Some(peers[id]) else None;
      peers := peers - {id};
    }

    method AdvanceHandshake(id: PeerId, event: HandshakeEvent, ghost t: Table<seq<byte>>)
        returns (r: Result<Handshake, HandshakeError>)
      requires StandsFor(t)
      modifies this
      ensures var (after, got) := Node.AdvanceHandshake(t, id, event);
              StandsFor(after) && r == got && channels == old(channels)
    {
      if id !in peers {
        return Err(NoSuchPeer);
      }
      r := Advance(peers[id].handshake, event);
      if r.Ok? {
        peers := peers[id := peers[id].(handshake := r.value)];
      }
    }

    method HandshakeOf(id: PeerId, ghost t: Table<seq<byte>>) returns (r: Option<Handshake>)
      requires StandsFor(t)
      ensures r == if id in t.peers then Some(t.peers[id].handshake) else None
    {
      r := if id in peers then Some(peers[id].handshake) else None;
    }

    /** A peer that cannot take the message is dropped; its queue keeps what it held. */
    method SendTo(id: PeerId, m: seq<byte>, ghost t: Table<seq<byte>>) returns (reached: bool)
      requires StandsFor(t)
      modifies this, channels
      ensures var (after, got) := Node.SendTo(t, id, m); StandsFor(after) && reached == got && channels == old(channels)
      ensures id in t.peers && !reached ==> old(peers[id]).outbound.View() == t.peers[id].queue
    {
      if id !in peers {
        return false;
      }
      reached := peers[id].outbound.Send(m);
      if !reached {
        var removed := Remove(id, t);
      }
    }

    /** Midway through a broadcast: the peers in `done` have been offered `m`, the others not. */
    ghost predicate Sending(t: Table<seq<byte>>, m: seq<byte>, done: set<PeerId>)
      reads this, channels
    {
      && Distinct(peers) && peers.Keys == t.peers.Keys
      && forall id :: id in peers ==>
           && peers[id].outbound in channels
           && peers[id].outbound.View() == if id in done then AfterSend(t.peers[id].queue, m) else t.peers[id].queue
    }

    /** Each peer is visited once, in an order the map does not fix. */
    method SendAll(m: seq<byte>, ghost t: Table<seq<byte>>) returns (delivered: nat, failed: set<PeerId>)
      requires Sending(t, m, {}) && peers.Keys == t.peers.Keys
      modifies channels
      ensures failed == t.peers.Keys - Reached(t, m) && delivered == |Reached(t, m)|
      ensures Sending(t, m, peers.Keys)
    {
      hide *;
      ghost var reached := Reached(t, m);
      delivered, failed := 0, {};
      var ids := peers.Keys;
      var todo := ids;
      ghost var done: set<PeerId> := {};
      NoneYet(ids, reached);
      while todo != {}
        invariant Parts(ids, todo, done) && peers == old(peers) && channels == old(channels)
        invariant failed == done - reached && delivered == |done * reached| && Sending(t, m, done)
        decreases |todo|
      {
        var id :| id in todo;
        OneMore(ids, todo, done, reached, id);
        var ok := Visit(id, m, t, done);
        todo, done := todo - {id}, done + {id};
        if ok {
          delivered := delivered + 1;
        } else {
          failed := failed + {id};
        }
      }
      AllDone(t, m, ids, done);
    }

    method Visit(id: PeerId, m: seq<byte>, ghost t: Table<seq<byte>>, ghost done: set<PeerId>) returns (ok: bool)
      requires Sending(t, m, done) && id in peers && id !in done
      modifies channels
      ensures Sending(t, m, done + {id}) && (ok <==> id in Reached(t, m))
    {
      ok := peers[id].outbound.Send(m);
    }

    ghost predicate Parts(ids: set<PeerId>, todo: set<PeerId>, done: set<PeerId>) {
      todo <= ids && done == ids - todo
    }

    lemma NoneYet(ids: set<PeerId>, reached: set<PeerId>)
      ensures Parts(ids, ids, {}) && {} - reached == {} && |{} * reached| == 0
    {
    }

    lemma AllDone(t: Table<seq<byte>>, m: seq<byte>, ids: set<PeerId>, done: set<PeerId>)
      requires Parts(ids, {}, done) && ids == t.peers.Keys
      ensures done == ids && done * Reached(t, m) == Reached(t, m)
    {
    }

    lemma OneMore(ids: set<PeerId>, todo: set<PeerId>, done: set<PeerId>, reached: set<PeerId>, id: PeerId)
      requires id in todo && Parts(ids, todo, done)
      ensures Parts(ids, todo - {id}, done + {id}) && id !in done && |todo - {id}| < |todo|
      ensures forall i :: i in todo || i in done ==> i in ids
      ensures id in reached ==>
                |(done + {id}) * reached| == |done * reached| + 1 && (done + {id}) - reached == done - reached
      ensures id !in reached ==>
                (done + {id}) * reached == done * reached && (done + {id}) - reached == done - reached + {id}
    {
      if id in reached {
        assert (done + {id}) * reached == done * reached + {id};
      }
    }

    method RemoveAll(failed: set<PeerId>)
      modifies this
      ensures peers == old(peers) - failed && nextId == old(nextId) && channels == old(channels)
    {
      var todo := failed;
      while todo != {}
        invariant todo <= failed && nextId == old(nextId) && channels == old(channels)
        invariant peers == old(peers) - (failed - todo)
        decreases |todo|
      {
        var id :| id in todo;
        todo := todo - {id};
        peers := peers - {id};
      }
    }

    /** Whatever order the peers are visited in, the outcome is the same. */
    method Broadcast(m: seq<byte>, ghost t: Table<seq<byte>>) returns (delivered: nat)
      requires StandsFor(t)
      modifies this, channels
      ensures var (after, got) := Node.Broadcast(t, m); StandsFor(after) && delivered == got
      ensures forall id :: id in old(peers) ==> old(peers)[id].outbound.View() == AfterSend(t.peers[id].queue, m)
    {
      var failed;
      delivered, failed := SendAll(m, t);
      RemoveAll(failed);
    }
  }
}
