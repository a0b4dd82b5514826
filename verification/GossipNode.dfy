/**
 * One node of the gossip protocol: its handlers as functions on a node state, and the node object
 * whose methods carry them out (peer/impl/handlers.go, peer/impl/mod.go, peer/impl/broadcast.go).
 */
module GossipNode {
  import opened Basics
  import opened Messages
  import opened Replicas
  import opened NbrSets

  /**
   * `delivered` is the list of rumors whose payload was handed to the message registry on receipt;
   * `processedLocally` the payloads of own broadcasts handed to it.
   */
  datatype NodeState = NodeState(
    addr: Addr,
    replica: Replica,
    nbrs: set<Addr>,
    table: map<Addr, Addr>,
    delivered: seq<Rumor>,
    processedLocally: seq<Payload>)

  /** What chance decides in one handler: a neighbour, and the order of origins in a delta. */
  datatype Choice = Choice(nbr: Option<Addr>, delta: seq<Rumor>)

  function NewNode(addr: Addr): NodeState
  {
    NodeState(addr, Replica(map[], map[]), {}, map[addr := addr], [], [])
  }

  function SetRoutingEntry(n: NodeState, origin: Addr, relay: Addr): NodeState
  {
    if relay == NoAddr then n.(table := n.table - {origin})
    else n.(table := n.table[origin := relay],
            nbrs := if origin == relay && origin != n.addr then n.nbrs + {origin} else n.nbrs)
  }

  function AddPeer(n: NodeState, peer: Addr): NodeState
  {
    var n' := SetRoutingEntry(n, peer, peer);
    n'.(nbrs := n'.nbrs + {peer})
  }

  function ExecRumor(n: NodeState, r: Rumor, relayedBy: Addr): NodeState
  {
    if !Expected(n.replica, r) then n
    else
      var n' := n.(replica := Update(n.replica, r.origin, r), delivered := n.delivered + [r]);
      if r.origin in n.nbrs then n' else SetRoutingEntry(n', r.origin, relayedBy)
  }

  function ExecRumors(n: NodeState, rs: seq<Rumor>, relayedBy: Addr): NodeState
  {
    if rs == [] then n
    else ExecRumor(ExecRumors(n, rs[..|rs| - 1], relayedBy), rs[|rs| - 1], relayedBy)
  }

  predicate AnyExpected(n: NodeState, rs: seq<Rumor>, relayedBy: Addr)
  {
    rs != [] &&
    (AnyExpected(n, rs[..|rs| - 1], relayedBy)
     || Expected(ExecRumors(n, rs[..|rs| - 1], relayedBy).replica, rs[|rs| - 1]))
  }

  function Direct(n: NodeState, nbr: Addr, msg: Message): Packet
  {
    Packet(n.addr, n.addr, nbr, nbr, msg)
  }

  /** Relay keeps the original source and takes the routing table's next hop, if there is one. */
  function Relayed(n: NodeState, source: Addr, nbr: Addr, msg: Message): seq<Packet>
  {
    if nbr in n.table then [Packet(source, n.addr, nbr, n.table[nbr], msg)] else []
  }

  /** What an accepted rumors message makes the node pass on: the whole message, once. */
  function RelayOf(n: NodeState, p: Packet, c: Choice): seq<Packet>
    requires p.msg.RumorsMessage?
  {
    var n' := ExecRumors(n, p.msg.rumors, p.relayedBy);
    if AnyExpected(n, p.msg.rumors, p.relayedBy) && c.nbr.Some?
    then Relayed(n', p.source, c.nbr.value, p.msg) else []
  }

  function HandleRumors(n: NodeState, p: Packet, c: Choice): (NodeState, seq<Packet>)
    requires p.msg.RumorsMessage?
  {
    var n' := ExecRumors(n, p.msg.rumors, p.relayedBy);
    var ack := if p.source == n.addr then [] else [Direct(n, p.relayedBy, AckMessage(n'.replica.counters))];
    (n', RelayOf(n, p, c) + ack)
  }

  /** The answers to a status received from `source`: own status, missing rumors, or mongering on. */
  ghost function StatusReplies(n: NodeState, source: Addr, status: StatusMessage, c: Choice): seq<Packet>
  {
    var mine := n.replica.counters;
    (if Ahead(status, mine) then [Direct(n, source, StatusUpdate(mine))] else [])
    + (if Ahead(mine, status) then [Direct(n, source, RumorsMessage(c.delta))] else [])
    + (if !Ahead(status, mine) && !Ahead(mine, status) && c.nbr.Some?
       then [Direct(n, c.nbr.value, StatusUpdate(mine))] else [])
  }

  /** handlePacket: process a packet addressed to this node, hand any other to its destination. */
  ghost function HandlePacket(n: NodeState, p: Packet, c: Choice): (NodeState, seq<Packet>)
  {
    if p.destination != n.addr then (n, [p.(relayedBy := n.addr, sentTo := p.destination)])
    else if p.msg.RumorsMessage? then HandleRumors(n, p, c)
    else (n, StatusReplies(n, p.source, p.msg.status, c))
  }

  /** The choices that chance can make in HandlePacket. */
  ghost predicate ValidChoice(n: NodeState, p: Packet, c: Choice)
  {
    p.destination == n.addr ==>
      if p.msg.RumorsMessage?
      then AnyExpected(n, p.msg.rumors, p.relayedBy) ==>
             Picked(c.nbr, ExecRumors(n, p.msg.rumors, p.relayedBy).nbrs, p.source)
      else IsDelta(n.replica, p.msg.status, c.delta) && (c.nbr.Some? ==> Picked(c.nbr, n.nbrs, p.source))
  }

  function NextRumor(n: NodeState, msg: Payload): Rumor
  {
    Rumor(n.addr, SeqOf(n.replica.counters, n.addr) + 1, msg)
  }

  /** Broadcast: log the new rumor, send it to a neighbour ("" when there is none), process it here. */
  function BroadcastState(n: NodeState, msg: Payload): NodeState
  {
    n.(replica := Update(n.replica, n.addr, NextRumor(n, msg)), processedLocally := n.processedLocally + [msg])
  }

  function NbrOrEmpty(pick: Option<Addr>): Addr
  {
    if pick.Some? then pick.value else NoAddr
  }

  function BroadcastPacket(n: NodeState, msg: Payload, pick: Option<Addr>): Packet
  {
    Direct(n, NbrOrEmpty(pick), RumorsMessage([NextRumor(n, msg)]))
  }

  // ---- what the handlers do to the replica ----

  lemma {:induction false} ExecRumorsReplica(n: NodeState, rs: seq<Rumor>, relayedBy: Addr)
    ensures ExecRumors(n, rs, relayedBy).replica == AcceptAll(n.replica, rs)
    ensures ExecRumors(n, rs, relayedBy).addr == n.addr
    ensures ExecRumors(n, rs, relayedBy).processedLocally == n.processedLocally
    ensures n.nbrs <= ExecRumors(n, rs, relayedBy).nbrs
    ensures |n.delivered| + (if AnyExpected(n, rs, relayedBy) then 1 else 0)
            <= |ExecRumors(n, rs, relayedBy).delivered|
    ensures !AnyExpected(n, rs, relayedBy) ==> ExecRumors(n, rs, relayedBy) == n
  {
    if rs != [] {
      ExecRumorsReplica(n, rs[..|rs| - 1], relayedBy);
    }
  }

  // ---- the node object ----

  class Node {
    const addr: Addr
    const continueMongering: real
    const status: Status
    const nbrSet: NbrSet
    var routingTable: map<Addr, Addr>
    var outs: seq<Packet>                 // the packets given to the socket, oldest first
    var delivered: seq<Rumor>
    var processedLocally: seq<Payload>

    ghost function State(): NodeState
      reads this, status, nbrSet
    {
      NodeState(addr, status.State(), nbrSet.nbrs, routingTable, delivered, processedLocally)
    }

    ghost predicate Valid()
      reads this, status
    {
      Wf(status.State())
    }

    constructor (addr: Addr, continueMongering: real)
      ensures Valid() && State() == NewNode(addr) && outs == []
      ensures this.continueMongering == continueMongering
      ensures fresh(status) && fresh(nbrSet)
    {
      this.addr, this.continueMongering := addr, continueMongering;
      var st := new Status();
      var nbrs := new NbrSet();
      status, nbrSet := st, nbrs;
      routingTable := map[addr := addr];
      outs, delivered, processedLocally := [], [], [];
    }

    method DirectlySendToNbr(msg: Message, nbr: Addr)
      modifies this`outs
      ensures outs == old(outs) + [Direct(State(), nbr, msg)]
    {
      outs := outs + [Packet(addr, addr, nbr, nbr, msg)];
    }

    /** Fails without a route. */
    method Relay(src: Addr, dest: Addr, msg: Message) returns (ok: bool)
      modifies this`outs
      ensures ok <==> dest in routingTable
      ensures outs == old(outs) + Relayed(State(), src, dest, msg)
    {
      if dest in routingTable {
        outs := outs + [Packet(src, addr, dest, routingTable[dest], msg)];
      }
      ok := dest in routingTable;
    }

    method SetRouting(origin: Addr, relayAddr: Addr)
      modifies this`routingTable, nbrSet
      ensures State() == SetRoutingEntry(old(State()), origin, relayAddr)
    {
      if relayAddr == NoAddr {
        routingTable := routingTable - {origin};
      } else {
        routingTable := routingTable[origin := relayAddr];
        if origin == relayAddr && origin != addr {
          nbrSet.AddNbr(origin);
        }
      }
    }

    method AddOnePeer(peer: Addr)
      modifies this`routingTable, nbrSet
      ensures State() == AddPeer(old(State()), peer)
    {
      SetRouting(peer, peer);
      nbrSet.AddNbr(peer);
    }

    method CreateRumor(msg: Payload) returns (rumor: Rumor)
      modifies status
      ensures rumor == NextRumor(old(State()), msg)
      ensures State() == old(State()).(replica := Update(old(State()).replica, addr, rumor))
    {
      var myCurrSeq := status.GetSeqForNode(addr);
      rumor := Rumor(addr, myCurrSeq + 1, msg);
      status.UpdateForNewRumorFromNode(addr, rumor);
    }

    method Broadcast(msg: Payload) returns (ghost pick: Option<Addr>)
      modifies this`outs, this`processedLocally, status
      ensures Picked(pick, nbrSet.nbrs, NoAddr)
      ensures State() == BroadcastState(old(State()), msg)
      ensures outs == old(outs) + [BroadcastPacket(old(State()), msg, pick)]
    {
      var rumor := CreateRumor(msg);
      var nbr := nbrSet.SelectARandomNbrExcept(NoAddr);
      DirectlySendToNbr(RumorsMessage([rumor]), if nbr.Some? then nbr.value else NoAddr);
      processedLocally := processedLocally + [msg];
      pick := nbr;
    }

    /** Whether the rumor was expected; if so its payload is delivered before the log grows. */
    method ExecOneRumor(rumor: Rumor, pkt: Packet) returns (expected: bool)
      modifies this`routingTable, this`delivered, status, nbrSet
      ensures State() == ExecRumor(old(State()), rumor, pkt.relayedBy)
      ensures expected == Expected(old(State()).replica, rumor)
    {
      var currSeqNum := status.GetSeqForNode(rumor.origin);
      if currSeqNum + 1 == rumor.sequence {
        delivered := delivered + [rumor];
        status.UpdateForNewRumorFromNode(rumor.origin, rumor);
        var originIsNbr := nbrSet.Contains(rumor.origin);
        if !originIsNbr {
          SetRouting(rumor.origin, pkt.relayedBy);
        }
        return true;
      }
      return false;
    }

    method ExecRumorsMessage(pkt: Packet) returns (ghost c: Choice)
      requires pkt.msg.RumorsMessage? && pkt.destination == addr
      modifies this, status, nbrSet
      ensures ValidChoice(old(State()), pkt, c)
      ensures State() == HandleRumors(old(State()), pkt, c).0
      ensures outs == old(outs) + HandleRumors(old(State()), pkt, c).1
    {
      var rumors := pkt.msg.rumors;
      var atLeastOneRumorExpected := false;
      ghost var n := State();
      var i := 0;
      while i < |rumors|
        invariant 0 <= i <= |rumors| && outs == old(outs)
        invariant State() == ExecRumors(n, rumors[..i], pkt.relayedBy)
        invariant atLeastOneRumorExpected == AnyExpected(n, rumors[..i], pkt.relayedBy)
      {
        var expected := ExecOneRumor(rumors[i], pkt);
        if expected {
          atLeastOneRumorExpected := true;
        }
        assert rumors[..i + 1][..i] == rumors[..i];
        i := i + 1;
      }
      assert rumors[..i] == rumors;
      c := Choice(None, []);
      if atLeastOneRumorExpected {
        var nbr := nbrSet.SelectARandomNbrExcept(pkt.source);
        c := Choice(nbr, []);
        if nbr.Some? {
          var _ := Relay(pkt.source, nbr.value, pkt.msg);
        }
      }
      assert outs == old(outs) + RelayOf(n, pkt, c);
      ExecRumorsReplica(n, rumors, pkt.relayedBy);
      if pkt.source == addr {
        return;
      }
      var mine := status.GetStatusMsg();
      DirectlySendToNbr(AckMessage(mine), pkt.relayedBy);
    }

    /** A status from `source`, received as such or inside an acknowledgement. */
    method ExecStatusMessage(others: StatusMessage, source: Addr) returns (ghost c: Choice)
      requires Valid()
      modifies this`outs
      ensures IsDelta(State().replica, others, c.delta)
      ensures c.nbr.Some? ==> Picked(c.nbr, nbrSet.nbrs, source) && continueMongering > 0.0
      ensures outs == old(outs) + StatusReplies(State(), source, others, c)
    {
      var iHaveNew, otherHasNew, rumorsNeedToSend := status.CompareWithOthersStatus(others);
      if otherHasNew {
        var mine := status.GetStatusMsg();
        DirectlySendToNbr(StatusUpdate(mine), source);
      }
      if iHaveNew {
        DirectlySendToNbr(RumorsMessage(rumorsNeedToSend), source);
      }
      c := Choice(None, rumorsNeedToSend);
      var draw: real :| 0.0 <= draw < 1.0;
      if !otherHasNew && !iHaveNew && draw < continueMongering {
        var nbr := nbrSet.SelectARandomNbrExcept(source);
        if nbr.Some? && nbr.value != NoAddr {
          c := Choice(nbr, rumorsNeedToSend);
          var mine := status.GetStatusMsg();
          DirectlySendToNbr(StatusUpdate(mine), nbr.value);
        }
      }
    }

    /** The receive loop's step: its effect is HandlePacket for some choice of chance. */
    method ReceivePacket(pkt: Packet) returns (ghost c: Choice)
      requires Valid()
      modifies this, status, nbrSet
      ensures Valid() && ValidChoice(old(State()), pkt, c)
      ensures continueMongering == 0.0 && !pkt.msg.RumorsMessage? ==> c.nbr.None?
      ensures State() == HandlePacket(old(State()), pkt, c).0
      ensures outs == old(outs) + HandlePacket(old(State()), pkt, c).1
    {
      c := Choice(None, []);
      if pkt.destination == addr {
        match pkt.msg {
          case RumorsMessage(rumors) =>
            ExecRumorsReplica(State(), rumors, pkt.relayedBy);
            AcceptAllWf(State().replica, rumors);
            c := ExecRumorsMessage(pkt);
          case AckMessage(others) =>
            c := ExecStatusMessage(others, pkt.source);
          case StatusUpdate(others) =>
            c := ExecStatusMessage(others, pkt.source);
        }
      } else {
        outs := outs + [pkt.(relayedBy := addr, sentTo := pkt.destination)];
      }
    }
  }
}
