/**
 * What one delivery does to the network, said without the handlers: what is relayed, acknowledged,
 * answered and forwarded (peer/impl/handlers.go, peer/impl/mod.go).
 */
module Relaying {
  import opened Basics
  import opened Messages
  import opened Replicas
  import opened NbrSets
  import opened GossipNode
  import opened GossipNetwork

  /** The packet reaches its destination b. */
  ghost predicate Arrives(s: Network, i: nat, b: Addr)
  {
    i < |s.net| && b in s.nodes && s.net[i].sentTo == s.net[i].destination == b
  }

  /** The delivery handed at least one payload to b's registry. */
  ghost predicate Accepted(s: Network, s': Network, b: Addr)
  {
    b in s.nodes && b in s'.nodes && |s.nodes[b].delivered| < |s'.nodes[b].delivered|
  }

  /** Something was accepted, and the neighbour picked has a route. */
  predicate GoesOn(n: NodeState, accepted: bool, nbr: Option<Addr>)
  {
    accepted && nbr.Some? && nbr.value in n.table
  }

  /** The packets that a rumors message p leaves behind at b, which then is n, if chance picks `nbr`. */
  function LeftBehind(p: Packet, b: Addr, n: NodeState, accepted: bool, nbr: Option<Addr>): seq<Packet>
  {
    (if GoesOn(n, accepted, nbr)
     then [Packet(p.source, b, nbr.value, n.table[nbr.value], p.msg)] else [])
    + (if p.source != b
       then [Packet(b, b, p.relayedBy, p.relayedBy, AckMessage(n.replica.counters))] else [])
  }

  /**
   * A rumors message delivered at its destination b. If b accepted anything, chance picks a neighbour
   * other than the packet's source, if there is one, and the whole message goes on to it once, if it has
   * a route, with the original source; nothing goes on if b accepted nothing. Unless b itself is the
   * source, one acknowledgement with b's new counters goes back to the hop. Nothing else is sent, and
   * nobody else changes.
   */
  lemma RumorsDelivered(s: Network, i: nat, c: Choice, b: Addr)
    requires Inv(s) && Arrives(s, i, b) && s.net[i].msg.RumorsMessage? && Enabled(s, Deliver(i, c))
    ensures var s' := Apply(s, Deliver(i, c));
            var p := s.net[i];
            && b in s'.nodes && s'.nodes == s.nodes[b := s'.nodes[b]]
            && s'.net == RemoveAt(s.net, i) + LeftBehind(p, b, s'.nodes[b], Accepted(s, s', b), c.nbr)
            && (Accepted(s, s', b) ==> Picked(c.nbr, s'.nodes[b].nbrs, p.source))
  {
    var n, p := s.nodes[b], s.net[i];
    assert NodeInv(n, b, s.created);
    ExecRumorsReplica(n, p.msg.rumors, p.relayedBy);
    assert Accepted(s, Apply(s, Deliver(i, c)), b) <==> AnyExpected(n, p.msg.rumors, p.relayedBy);
  }

  /**
   * What b, which is n, sends in answer to a status received from `source`, if chance may make it monger
   * on to `nbr`.
   */
  ghost predicate Answer(b: Addr, n: NodeState, source: Addr, status: StatusMessage, nbr: Option<Addr>,
                         out: seq<Packet>)
  {
    var mine := n.replica.counters;
    var behind, ahead := Ahead(status, mine), Ahead(mine, status);
    if behind || ahead then
      exists delta :: IsDelta(n.replica, status, delta)
        && out == (if behind then [Packet(b, b, source, source, StatusUpdate(mine))] else [])
                  + (if ahead then [Packet(b, b, source, source, RumorsMessage(delta))] else [])
    else
      && (nbr.Some? ==> nbr.value in n.nbrs && nbr.value != source)
      && out == if nbr.Some? then [Packet(b, b, nbr.value, nbr.value, StatusUpdate(mine))] else []
  }

  /**
   * A status delivered at its destination b, plain or inside an acknowledgement. If b is behind somewhere
   * its own status goes back, and if it is ahead somewhere exactly the rumors that the sender lacks; if
   * neither, its status may go on to one neighbour other than the sender. No node changes.
   */
  lemma StatusDelivered(s: Network, i: nat, c: Choice, b: Addr)
    requires Inv(s) && Arrives(s, i, b) && !s.net[i].msg.RumorsMessage? && Enabled(s, Deliver(i, c))
    ensures var s' := Apply(s, Deliver(i, c));
            var rest := RemoveAt(s.net, i);
            && s'.nodes == s.nodes && |rest| <= |s'.net| && s'.net[..|rest|] == rest
            && Answer(b, s.nodes[b], s.net[i].source, s.net[i].msg.status, c.nbr, s'.net[|rest|..])
  {
    var n, p := s.nodes[b], s.net[i];
    var s' := Apply(s, Deliver(i, c));
    assert NodeInv(n, b, s.created);
    var out := StatusReplies(n, p.source, p.msg.status, c);
    assert s'.net == RemoveAt(s.net, i) + out;
    assert s'.net[|RemoveAt(s.net, i)|..] == out;
  }

  /**
   * A packet delivered at a hop on its way goes on to its destination, with the same source and message;
   * no node changes and nothing else is sent.
   */
  lemma Forwarded(s: Network, i: nat, c: Choice, hop: Addr)
    requires Inv(s) && i < |s.net| && s.net[i].sentTo == hop != s.net[i].destination && Enabled(s, Deliver(i, c))
    ensures var s' := Apply(s, Deliver(i, c));
            var p := s.net[i];
            && s'.nodes == s.nodes
            && s'.net == RemoveAt(s.net, i) + [Packet(p.source, hop, p.destination, p.destination, p.msg)]
  {
    assert NodeInv(s.nodes[hop], hop, s.created);
  }
}
