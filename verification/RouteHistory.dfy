/**
 * Where routes and neighbours come from: after any run, an entry of the routing table is what the last
 * step that set it gave it, and a neighbour is one that some step made it (peer/impl/mod.go,
 * peer/impl/handlers.go).
 */
module RouteHistory {
  import opened Basics
  import opened Messages
  import opened Replicas
  import opened GossipNode
  import opened GossipNetwork

  // ---- one rumors message ----

  /** The relay that the table gives for an origin, if any. */
  function Entry(n: NodeState, o: Addr): Option<Addr>
  {
    if o in n.table then Some(n.table[o]) else None
  }

  /** The node's counter for the origin has grown. */
  predicate Heard(n: NodeState, n': NodeState, o: Addr)
  {
    SeqOf(n.replica.counters, o) < SeqOf(n'.replica.counters, o)
  }

  lemma HeardOne(n: NodeState, r: Rumor, relayedBy: Addr, o: Addr)
    requires relayedBy != NoAddr
    ensures var n' := ExecRumor(n, r, relayedBy);
            && SeqOf(n.replica.counters, o) <= SeqOf(n'.replica.counters, o)
            && Entry(n', o) == (if Heard(n, n', o) && o !in n.nbrs then Some(relayedBy) else Entry(n, o))
            && (o in n'.nbrs <==> o in n.nbrs || (Heard(n, n', o) && o == relayedBy != n.addr))
  {
  }

  /**
   * A rumors message routes exactly the origins that it brought something of, unless they are neighbours,
   * and routes them to the hop; and it makes a neighbour only of the hop, if that is such an origin.
   */
  lemma {:induction false} HeardAll(n: NodeState, rs: seq<Rumor>, relayedBy: Addr, o: Addr)
    requires relayedBy != NoAddr
    ensures var n' := ExecRumors(n, rs, relayedBy);
            && n'.addr == n.addr && SeqOf(n.replica.counters, o) <= SeqOf(n'.replica.counters, o)
            && Entry(n', o) == (if Heard(n, n', o) && o !in n.nbrs then Some(relayedBy) else Entry(n, o))
            && (o in n'.nbrs <==> o in n.nbrs || (Heard(n, n', o) && o == relayedBy != n.addr))
  {
    if rs != [] {
      var k := |rs| - 1;
      HeardAll(n, rs[..k], relayedBy, o);
      HeardOne(ExecRumors(n, rs[..k], relayedBy), rs[k], relayedBy, o);
    }
  }

  // ---- one step ----

  /** A delivery at b after which b's counter for o is higher. */
  ghost predicate Hears(s: Network, step: Step, b: Addr, o: Addr)
    requires Enabled(s, step) && b in s.nodes
  {
    && step.Deliver? && s.net[step.i].sentTo == b && b in Apply(s, step).nodes
    && Heard(s.nodes[b], Apply(s, step).nodes[b], o)
  }

  /** The step sets b's entry for o. */
  ghost predicate Sets(s: Network, step: Step, b: Addr, o: Addr)
    requires Enabled(s, step) && b in s.nodes
  {
    match step
    case SetRoute(at, origin, _) => at == b && origin == o
    case AddOnePeer(at, peer) => at == b && peer == o
    case Deliver(_, _) => Hears(s, step, b, o) && o !in s.nodes[b].nbrs
    case _ => false
  }

  /** What the step sets it to: an empty relay deletes it. */
  ghost function SetTo(s: Network, step: Step, b: Addr, o: Addr): Option<Addr>
    requires Enabled(s, step) && b in s.nodes && Sets(s, step, b, o)
  {
    var relay := match step
      case SetRoute(_, _, relay) => relay
      case AddOnePeer(_, peer) => peer
      case Deliver(i, _) => s.net[i].relayedBy;
    if relay == NoAddr then None else Some(relay)
  }

  /** The step makes o a neighbour of b. */
  ghost predicate Befriends(s: Network, step: Step, b: Addr, o: Addr)
    requires Enabled(s, step) && b in s.nodes
  {
    match step
    case SetRoute(at, origin, relay) => at == b && origin == relay == o && o != b && o != NoAddr
    case AddOnePeer(at, peer) => at == b && peer == o
    case Deliver(i, _) => Hears(s, step, b, o) && s.net[i].relayedBy == o && o != b
    case _ => false
  }

  ghost function EntryAt(s: Network, b: Addr, o: Addr): Option<Addr>
  {
    if b in s.nodes then Entry(s.nodes[b], o) else None
  }

  ghost predicate IsNbr(s: Network, b: Addr, o: Addr)
  {
    b in s.nodes && o in s.nodes[b].nbrs
  }

  lemma NodeAfter(s: Network, i: nat, c: Choice, b: Addr)
    requires Enabled(s, Deliver(i, c)) && b in s.nodes
    ensures b in Apply(s, Deliver(i, c)).nodes
    ensures Apply(s, Deliver(i, c)).nodes[b]
            == if s.net[i].sentTo == b then HandlePacket(s.nodes[b], s.net[i], c).0 else s.nodes[b]
  {
  }

  lemma HandleHears(n: NodeState, p: Packet, c: Choice, o: Addr)
    requires p.relayedBy != NoAddr
    ensures var n' := HandlePacket(n, p, c).0;
            && Entry(n', o) == (if Heard(n, n', o) && o !in n.nbrs then Some(p.relayedBy) else Entry(n, o))
            && (o in n'.nbrs <==> o in n.nbrs || (Heard(n, n', o) && o == p.relayedBy != n.addr))
  {
    if p.msg.RumorsMessage? {
      HeardAll(n, p.msg.rumors, p.relayedBy, o);
    }
  }

  lemma HopHasAddr(s: Network, i: nat, b: Addr)
    requires Inv(s) && i < |s.net| && b in s.nodes
    ensures s.net[i].relayedBy != NoAddr && s.nodes[b].addr == b
  {
    assert PacketInv(s.net[i], s.created) && NodeInv(s.nodes[b], b, s.created);
  }

  lemma DeliverSets(s: Network, i: nat, c: Choice, b: Addr, o: Addr)
    requires Inv(s) && Enabled(s, Deliver(i, c)) && b in s.nodes
    ensures var step := Deliver(i, c);
            && EntryAt(Apply(s, step), b, o) == (if Sets(s, step, b, o) then SetTo(s, step, b, o) else EntryAt(s, b, o))
            && (IsNbr(Apply(s, step), b, o) <==> IsNbr(s, b, o) || Befriends(s, step, b, o))
  {
    NodeAfter(s, i, c, b);
    HopHasAddr(s, i, b);
    HandleHears(s.nodes[b], s.net[i], c, o);
  }

  lemma OtherSets(s: Network, step: Step, b: Addr, o: Addr)
    requires Enabled(s, step) && !step.Deliver? && b in s.nodes && s.nodes[b].addr == b && b in Apply(s, step).nodes
    ensures EntryAt(Apply(s, step), b, o) == (if Sets(s, step, b, o) then SetTo(s, step, b, o) else EntryAt(s, b, o))
    ensures IsNbr(Apply(s, step), b, o) <==> IsNbr(s, b, o) || Befriends(s, step, b, o)
  {
  }

  lemma StepSets(s: Network, step: Step, b: Addr, o: Addr)
    requires Inv(s) && Enabled(s, step) && b in s.nodes
    ensures EntryAt(Apply(s, step), b, o) == (if Sets(s, step, b, o) then SetTo(s, step, b, o) else EntryAt(s, b, o))
    ensures IsNbr(Apply(s, step), b, o) <==> IsNbr(s, b, o) || Befriends(s, step, b, o)
  {
    if step.Deliver? {
      DeliverSets(s, step.i, step.choice, b, o);
    } else {
      assert NodeInv(s.nodes[b], b, s.created);
      OtherSets(s, step, b, o);
    }
  }

  // ---- every run ----

  /** b's entry for o by history: what the last step that set it gave it; at first only b itself has one. */
  ghost predicate LastSet(s: Network, steps: seq<Step>, b: Addr, o: Addr, relay: Option<Addr>)
    requires ValidRun(s, steps)
  {
    if steps == [] then relay == if o == b then Some(b) else None
    else
      var k := |steps| - 1;
      var t := Exec(s, steps[..k]);
      if b in t.nodes && Sets(t, steps[k], b, o) then relay == SetTo(t, steps[k], b, o)
      else LastSet(s, steps[..k], b, o, relay)
  }

  /** Some step made o a neighbour of b. */
  ghost predicate Befriended(s: Network, steps: seq<Step>, b: Addr, o: Addr)
    requires ValidRun(s, steps)
  {
    steps != [] &&
    (var k := |steps| - 1;
     var t := Exec(s, steps[..k]);
     Befriended(s, steps[..k], b, o) || (b in t.nodes && Befriends(t, steps[k], b, o)))
  }

  lemma StaysNode(s: Network, step: Step, b: Addr)
    requires Enabled(s, step) && b in s.nodes
    ensures b in Apply(s, step).nodes
  {
  }

  /**
   * The routing table by history. After any run, with any outside calls, b's entry for o is the relay
   * that the last step which set it gave it: a SetRoute, or an AddPeer, at b for o, or a delivery at b
   * that raised b's counter for an o that was no neighbour, which gives the hop of that packet.
   */
  lemma {:induction false} RouteByHistory(s0: Network, steps: seq<Step>, b: Addr, o: Addr, relay: Option<Addr>)
    requires Init(s0) && ValidRun(s0, steps) && b in s0.nodes
    ensures b in Exec(s0, steps).nodes
    ensures EntryAt(Exec(s0, steps), b, o) == relay <==> LastSet(s0, steps, b, o, relay)
  {
    if steps != [] {
      var k := |steps| - 1;
      RouteByHistory(s0, steps[..k], b, o, relay);
      ReachableInv(s0, steps[..k]);
      StaysNode(Exec(s0, steps[..k]), steps[k], b);
      StepSets(Exec(s0, steps[..k]), steps[k], b, o);
    }
  }

  /**
   * The neighbours by history. After any run o is a neighbour of b if and only if some step was an AddPeer
   * of o at b, a direct SetRoute for another node o at b, or a delivery at b, from the hop o itself, that
   * raised b's counter for o.
   */
  lemma {:induction false} NbrsByHistory(s0: Network, steps: seq<Step>, b: Addr, o: Addr)
    requires Init(s0) && ValidRun(s0, steps) && b in s0.nodes
    ensures b in Exec(s0, steps).nodes
    ensures IsNbr(Exec(s0, steps), b, o) <==> Befriended(s0, steps, b, o)
  {
    if steps != [] {
      var k := |steps| - 1;
      NbrsByHistory(s0, steps[..k], b, o);
      ReachableInv(s0, steps[..k]);
      StaysNode(Exec(s0, steps[..k]), steps[k], b);
      StepSets(Exec(s0, steps[..k]), steps[k], b, o);
    }
  }
}
