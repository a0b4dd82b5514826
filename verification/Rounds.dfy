/**
 * One round of anti-entropy: what the delivery of a status, of the answers to it and of the rumors
 * these call for guarantees, whatever else is in flight, lost, duplicated or broadcast meanwhile.
 */
module Rounds {
  import opened Basics
  import opened Messages
  import opened Replicas
  import opened GossipNode
  import opened GossipNetwork
  import opened Quiescence
  import opened Exchange

  // ---- runs only grow ----

  /** The nodes are the same, their counters and neighbours have grown, origins have created more. */
  ghost predicate Later(s: Network, s': Network)
  {
    && (forall a :: a in s'.nodes <==> a in s.nodes) && s'.peers == s.peers
    && (forall a :: a in s.nodes ==> NodeGrows(s.nodes[a], s'.nodes[a]))
    && (forall o :: CreatedBy(s.created, o) <= CreatedBy(s'.created, o))
  }

  ghost predicate NodeGrows(n: NodeState, n': NodeState)
  {
    AtMost(n.replica.counters, n'.replica.counters) && n.nbrs <= n'.nbrs
  }

  lemma HandleNodeGrows(n: NodeState, p: Packet, c: Choice)
    ensures NodeGrows(n, HandlePacket(n, p, c).0)
  {
    HandleGrows(n, p, c);
    if p.msg.RumorsMessage? {
      ExecRumorsReplica(n, p.msg.rumors, p.relayedBy);
    }
  }

  /** One node changes, for the better, and nothing else that growth is about. */
  lemma OneGrows(s: Network, s': Network, a: Addr, n: NodeState)
    requires a in s.nodes && s'.nodes == s.nodes[a := n] && NodeGrows(s.nodes[a], n) && s'.peers == s.peers
    requires forall o :: CreatedBy(s.created, o) <= CreatedBy(s'.created, o)
    ensures Later(s, s')
  {
  }

  lemma DeliverGrows(s: Network, i: nat, c: Choice)
    requires Enabled(s, Deliver(i, c))
    ensures Later(s, Apply(s, Deliver(i, c)))
  {
    var p := s.net[i];
    HandleNodeGrows(s.nodes[p.sentTo], p, c);
    OneGrows(s, Apply(s, Deliver(i, c)), p.sentTo, HandlePacket(s.nodes[p.sentTo], p, c).0);
  }

  lemma StepGrows(s: Network, step: Step)
    requires Enabled(s, step)
    ensures Later(s, Apply(s, step))
  {
    var s' := Apply(s, step);
    match step {
      case Deliver(i, c) => DeliverGrows(s, i, c);
      case Broadcast(at, msg, _) => OneGrows(s, s', at, BroadcastState(s.nodes[at], msg));
      case AddOnePeer(at, peer) => OneGrows(s, s', at, AddPeer(s.nodes[at], peer));
      case SetRoute(at, origin, relay) => OneGrows(s, s', at, SetRoutingEntry(s.nodes[at], origin, relay));
      case _ =>
    }
  }

  lemma LaterTransitive(s: Network, t: Network, u: Network)
    requires Later(s, t) && Later(t, u)
    ensures Later(s, u)
  {
    forall a | a in s.nodes
      ensures NodeGrows(s.nodes[a], u.nodes[a])
    {
      assert NodeGrows(s.nodes[a], t.nodes[a]) && NodeGrows(t.nodes[a], u.nodes[a]);
    }
  }

  lemma {:induction false} RunGrows(s: Network, steps: seq<Step>)
    requires Inv(s) && ValidRun(s, steps)
    ensures Later(s, Exec(s, steps)) && Inv(Exec(s, steps))
  {
    if steps != [] {
      var k := |steps| - 1;
      RunGrows(s, steps[..k]);
      var t := Exec(s, steps[..k]);
      StepGrows(t, steps[k]);
      InvStep(t, steps[k]);
      LaterTransitive(s, t, Exec(s, steps));
    }
  }

  // ---- a shipped delta arrives ----

  lemma ShipAt(s: Network, t: Network, y: Addr, x: Addr, status: StatusMessage, delta: seq<Rumor>, o: Addr)
    requires Inv(s) && Inv(t) && Later(s, t) && y in s.nodes && x in s.nodes
    requires IsDelta(s.nodes[y].replica, status, delta) && AtMost(status, s.nodes[x].replica.counters)
    ensures SeqOf(s.nodes[y].replica.counters, o) <= SeqOf(AcceptAll(t.nodes[x].replica, delta).counters, o)
  {
    var sender, receiver := s.nodes[y].replica, t.nodes[x].replica;
    assert NodeInv(t.nodes[x], x, t.created) && NodeInv(s.nodes[y], y, s.created);
    assert NodeGrows(s.nodes[x], t.nodes[x]);
    LogFacts(s, y, o);
    LogFacts(t, x, o);
    Comparable(LogOf(sender, o), CreatedBy(s.created, o), LogOf(receiver, o), CreatedBy(t.created, o));
    assert PerOrigin(delta, o) == Missing(sender, status, o);
    StaleDeltaAt(sender, status, receiver, delta, o);
  }

  /**
   * Missing rumors that y ships for a status of x bring x, whenever they are delivered, at least to
   * where y was when it shipped them.
   */
  lemma ShipArrives(s: Network, t: Network, y: Addr, x: Addr, status: StatusMessage, delta: seq<Rumor>,
                    i: nat, c: Choice)
    requires Inv(s) && Inv(t) && Later(s, t) && y in s.nodes && x in s.nodes
    requires IsDelta(s.nodes[y].replica, status, delta) && AtMost(status, s.nodes[x].replica.counters)
    requires Enabled(t, Deliver(i, c)) && t.net[i] == Direct(s.nodes[y], x, RumorsMessage(delta))
    ensures AtMost(s.nodes[y].replica.counters, Apply(t, Deliver(i, c)).nodes[x].replica.counters)
  {
    Taken(t, x, i, c);
    forall o
      ensures SeqOf(s.nodes[y].replica.counters, o) <= SeqOf(AcceptAll(t.nodes[x].replica, delta).counters, o)
    {
      ShipAt(s, t, y, x, status, delta, o);
    }
  }

  /** A rumors message for x, delivered. */
  lemma Taken(t: Network, x: Addr, i: nat, c: Choice)
    requires Inv(t) && Enabled(t, Deliver(i, c)) && t.net[i].msg.RumorsMessage?
    requires t.net[i].sentTo == t.net[i].destination == x
    ensures x in t.nodes && x in Apply(t, Deliver(i, c)).nodes
    ensures Apply(t, Deliver(i, c)).nodes[x].replica == AcceptAll(t.nodes[x].replica, t.net[i].msg.rumors)
  {
    assert NodeInv(t.nodes[x], x, t.created);
    ExecRumorsReplica(t.nodes[x], t.net[i].msg.rumors, t.net[i].relayedBy);
  }

  lemma Comparable(xs: seq<Rumor>, full: seq<Rumor>, ys: seq<Rumor>, more: seq<Rumor>)
    requires xs <= full <= more && ys <= more
    ensures xs <= ys || ys <= xs
  {
  }

  // ---- a round ----

  /** Step k of the run delivers this packet, with this choice of chance. */
  ghost predicate DeliveredAt(s: Network, steps: seq<Step>, k: nat, p: Packet, c: Choice)
  {
    && k < |steps| && ValidRun(s, steps[..k]) && steps[k].Deliver? && steps[k].choice == c
    && Enabled(Exec(s, steps[..k]), steps[k]) && Exec(s, steps[..k]).net[steps[k].i] == p
  }

  ghost predicate DeliveredAfter(s: Network, steps: seq<Step>, k: nat, p: Packet)
  {
    exists k': nat, c :: k < k' && DeliveredAt(s, steps, k', p, c)
  }

  /** A status of x is delivered at y, and so are the missing rumors that y ships in answer, if any. */
  ghost predicate Answered(s: Network, steps: seq<Step>, x: Addr, y: Addr, k: nat, p: Packet, c: Choice)
  {
    && DeliveredAt(s, steps, k, p, c) && !p.msg.RumorsMessage?
    && p.source == x && p.destination == p.sentTo == y && y in Exec(s, steps[..k]).nodes
    && var n := Exec(s, steps[..k]).nodes[y];
       Ahead(n.replica.counters, p.msg.status) ==>
         DeliveredAfter(s, steps, k, Direct(n, x, RumorsMessage(c.delta)))
  }

  lemma {:induction false} PrefixGrows(s: Network, steps: seq<Step>, k: nat)
    requires Inv(s) && ValidRun(s, steps) && k <= |steps|
    ensures ValidRun(s, steps[..k]) && Inv(Exec(s, steps[..k]))
    ensures Later(s, Exec(s, steps[..k])) && Later(Exec(s, steps[..k]), Exec(s, steps))
  {
    var t := Exec(s, steps);
    if k == |steps| {
      assert steps[..k] == steps;
      RunGrows(s, steps);
      LaterSelf(t);
    } else {
      var n := |steps| - 1;
      assert steps[..n][..k] == steps[..k];
      PrefixGrows(s, steps[..n], k);
      StepGrows(Exec(s, steps[..n]), steps[n]);
      LaterTransitive(Exec(s, steps[..k]), Exec(s, steps[..n]), t);
    }
  }

  lemma LaterSelf(s: Network)
    ensures Later(s, s)
  {
  }

  ghost predicate AnsweredAfter(s: Network, steps: seq<Step>, x: Addr, y: Addr, k: nat, p: Packet)
  {
    exists k': nat, c :: k < k' && Answered(s, steps, x, y, k', p, c)
  }

  /**
   * A round: a status of a is answered by b, and, if it is ahead of b somewhere, b's own status, which b
   * then sends, is answered by a.
   */
  ghost predicate RoundDone(s: Network, steps: seq<Step>, a: Addr, b: Addr, k: nat, p: Packet, c: Choice)
  {
    && Answered(s, steps, a, b, k, p, c)
    && var n := Exec(s, steps[..k]).nodes[b];
       Ahead(p.msg.status, n.replica.counters) ==>
         AnsweredAfter(s, steps, b, a, k, Direct(n, a, StatusUpdate(n.replica.counters)))
  }

  lemma StateAt(s: Network, steps: seq<Step>, k: nat)
    requires Inv(s) && Honest(s.net, s.nodes) && ValidRun(s, steps) && k <= |steps|
    ensures ValidRun(s, steps[..k])
    ensures var t := Exec(s, steps[..k]);
            Inv(t) && Honest(t.net, t.nodes) && Later(s, t) && Later(t, Exec(s, steps))
  {
    PrefixGrows(s, steps, k);
    NoStatusOverstates(s, steps[..k]);
  }

  /** Two points of one run. */
  lemma StateBetween(s: Network, steps: seq<Step>, j: nat, k: nat)
    requires Inv(s) && Honest(s.net, s.nodes) && ValidRun(s, steps) && j <= k <= |steps|
    ensures ValidRun(s, steps[..j]) && ValidRun(s, steps[..k])
    ensures Later(Exec(s, steps[..j]), Exec(s, steps[..k]))
  {
    StateAt(s, steps, k);
    assert steps[..k][..j] == steps[..j];
    StateAt(s, steps[..k], j);
  }

  /** The state after step k, on the way to the last. */
  lemma AfterStep(s: Network, steps: seq<Step>, k: nat)
    requires Inv(s) && ValidRun(s, steps) && k < |steps|
    ensures ValidRun(s, steps[..k]) && Enabled(Exec(s, steps[..k]), steps[k])
    ensures Later(Apply(Exec(s, steps[..k]), steps[k]), Exec(s, steps))
  {
    PrefixGrows(s, steps, k + 1);
    NextState(s, steps, k);
  }

  lemma NextState(s: Network, steps: seq<Step>, k: nat)
    requires k < |steps| && ValidRun(s, steps[..k + 1])
    ensures ValidRun(s, steps[..k]) && Enabled(Exec(s, steps[..k]), steps[k])
    ensures Exec(s, steps[..k + 1]) == Apply(Exec(s, steps[..k]), steps[k])
  {
    assert steps[..k + 1][..k] == steps[..k];
  }

  /** Rumors shipped in state t, delivered in state u, seen from a last state. */
  lemma ShippedReaches(t: Network, u: Network, last: Network, x: Addr, y: Addr, status: StatusMessage,
                       delta: seq<Rumor>, i: nat, c: Choice)
    requires Inv(t) && Inv(u) && Later(t, u) && y in t.nodes && x in t.nodes
    requires IsDelta(t.nodes[y].replica, status, delta) && AtMost(status, t.nodes[x].replica.counters)
    requires Enabled(u, Deliver(i, c)) && u.net[i] == Direct(t.nodes[y], x, RumorsMessage(delta))
    requires Later(Apply(u, Deliver(i, c)), last)
    ensures x in last.nodes && AtMost(t.nodes[y].replica.counters, last.nodes[x].replica.counters)
  {
    ShipArrives(t, u, y, x, status, delta, i, c);
    assert x in u.nodes;
    assert NodeGrows(Apply(u, Deliver(i, c)).nodes[x], last.nodes[x]);
  }

  /** Rumors shipped after k steps and delivered at step k'. */
  lemma ShipmentReaches(s: Network, steps: seq<Step>, k: nat, k': nat, c': Choice, x: Addr, y: Addr,
                        status: StatusMessage, delta: seq<Rumor>)
    requires Inv(s) && Honest(s.net, s.nodes) && ValidRun(s, steps) && k < k' < |steps| && ValidRun(s, steps[..k])
    requires var t := Exec(s, steps[..k]);
             && x in t.nodes && y in t.nodes && IsDelta(t.nodes[y].replica, status, delta)
             && AtMost(status, t.nodes[x].replica.counters)
             && DeliveredAt(s, steps, k', Direct(t.nodes[y], x, RumorsMessage(delta)), c')
    ensures x in Exec(s, steps).nodes
    ensures AtMost(Exec(s, steps[..k]).nodes[y].replica.counters, Exec(s, steps).nodes[x].replica.counters)
  {
    var t := Exec(s, steps[..k]);
    StateAt(s, steps, k);
    StateBetween(s, steps, k, k');
    StateAt(s, steps, k');
    AfterStep(s, steps, k');
    assert steps[k'] == Deliver(steps[k'].i, c');
    ShippedReaches(t, Exec(s, steps[..k']), Exec(s, steps), x, y, status, delta, steps[k'].i, c');
  }

  /** A node that is not ahead of a status is at or below it. */
  lemma NotAhead(a: StatusMessage, b: StatusMessage)
    requires !Ahead(a, b)
    ensures AtMost(a, b)
  {
  }

  /** Once y has answered a status of x, x is at least where y was, for every origin. */
  lemma AnsweredReaches(s: Network, steps: seq<Step>, x: Addr, y: Addr, k: nat, p: Packet, c: Choice)
    requires Inv(s) && Honest(s.net, s.nodes) && ValidRun(s, steps) && Answered(s, steps, x, y, k, p, c)
    requires x in s.nodes
    ensures var n := Exec(s, steps[..k]).nodes[y].replica.counters;
            var last := Exec(s, steps);
            && x in last.nodes && y in last.nodes
            && AtMost(n, last.nodes[x].replica.counters) && AtMost(p.msg.status, last.nodes[x].replica.counters)
            && AtMost(n, last.nodes[y].replica.counters)
  {
    StateAt(s, steps, k);
    var t, last := Exec(s, steps[..k]), Exec(s, steps);
    assert HonestPacket(p, t.nodes);
    assert NodeGrows(t.nodes[x], last.nodes[x]) && NodeGrows(t.nodes[y], last.nodes[y]);
    var n := t.nodes[y].replica.counters;
    if Ahead(n, p.msg.status) {
      var q := Direct(t.nodes[y], x, RumorsMessage(c.delta));
      var k': nat, c' :| k < k' && DeliveredAt(s, steps, k', q, c');
      assert NodeInv(t.nodes[y], y, t.created);
      ShipmentReaches(s, steps, k, k', c', x, y, p.msg.status, c.delta);
    } else {
      NotAhead(n, p.msg.status);
    }
  }

  /** What a packet in flight says of its sender is at most what the sender has later. */
  lemma StatusStays(s: Network, steps: seq<Step>, k: nat, k': nat, p: Packet, a: Addr)
    requires Inv(s) && Honest(s.net, s.nodes) && ValidRun(s, steps) && k <= k' <= |steps| && a in s.nodes
    requires ValidRun(s, steps[..k]) && p in Exec(s, steps[..k]).net && !p.msg.RumorsMessage? && p.source == a
    ensures ValidRun(s, steps[..k']) && a in Exec(s, steps[..k']).nodes
    ensures AtMost(p.msg.status, Exec(s, steps[..k']).nodes[a].replica.counters)
  {
    StateAt(s, steps, k);
    StateBetween(s, steps, k, k');
    var t, u := Exec(s, steps[..k]), Exec(s, steps[..k']);
    assert HonestPacket(p, t.nodes);
    assert NodeGrows(t.nodes[a], u.nodes[a]);
    AtMostTransitive(p.msg.status, t.nodes[a].replica.counters, u.nodes[a].replica.counters);
  }

  /** b's side of a round: b ends up at least at the status that a sent. */
  lemma StatusReaches(s: Network, steps: seq<Step>, a: Addr, b: Addr, k: nat, p: Packet, c: Choice)
    requires Inv(s) && Honest(s.net, s.nodes) && ValidRun(s, steps) && a in s.nodes && b in s.nodes
    requires RoundDone(s, steps, a, b, k, p, c)
    ensures b in Exec(s, steps).nodes && AtMost(p.msg.status, Exec(s, steps).nodes[b].replica.counters)
  {
    AnsweredReaches(s, steps, a, b, k, p, c);
    var t := Exec(s, steps[..k]);
    var n := t.nodes[b];
    if Ahead(p.msg.status, n.replica.counters) {
      var q := Direct(n, a, StatusUpdate(n.replica.counters));
      var k': nat, c' :| k < k' && Answered(s, steps, b, a, k', q, c');
      AnsweredReaches(s, steps, b, a, k', q, c');
      StatusStays(s, steps, k, k', p, a);
      AtMostTransitive(p.msg.status, Exec(s, steps[..k']).nodes[a].replica.counters,
                       Exec(s, steps).nodes[b].replica.counters);
    } else {
      NotAhead(p.msg.status, n.replica.counters);
    }
  }

  lemma AtMostTransitive(a: StatusMessage, b: StatusMessage, c: StatusMessage)
    requires AtMost(a, b) && AtMost(b, c)
    ensures AtMost(a, c)
  {
  }

  /**
   * One round reaches the maximum. In any run whatsoever, with loss, duplication, broadcasts and other
   * nodes: once a round is done, both ends hold at least the larger of the status that a sent and of
   * b's counters when it arrived, for every origin.
   */
  lemma RoundReaches(s: Network, steps: seq<Step>, a: Addr, b: Addr, k: nat, p: Packet, c: Choice, o: Addr)
    requires Inv(s) && Honest(s.net, s.nodes) && ValidRun(s, steps) && a in s.nodes && b in s.nodes
    requires RoundDone(s, steps, a, b, k, p, c)
    ensures var n := Exec(s, steps[..k]).nodes[b].replica.counters;
            var last := Exec(s, steps);
            && a in last.nodes && b in last.nodes
            && Max(SeqOf(p.msg.status, o), SeqOf(n, o)) <= SeqOf(last.nodes[a].replica.counters, o)
            && Max(SeqOf(p.msg.status, o), SeqOf(n, o)) <= SeqOf(last.nodes[b].replica.counters, o)
  {
    AnsweredReaches(s, steps, a, b, k, p, c);
    StatusReaches(s, steps, a, b, k, p, c);
  }

  // ---- and no more, if only the two talk ----

  /** Packets between the two ends are delivered; any packet is lost or duplicated. */
  ghost predicate LossyStep(e: Pair, s: Network, step: Step)
    requires Enabled(s, step)
  {
    step.Drop? || step.Duplicate? || (step.Deliver? && Inside(e, s.net[step.i]))
  }

  ghost predicate LossyRun(e: Pair, s: Network, steps: seq<Step>)
    requires ValidRun(s, steps)
  {
    steps == [] ||
    (LossyRun(e, s, steps[..|steps| - 1]) && LossyStep(e, Exec(s, steps[..|steps| - 1]), steps[|steps| - 1]))
  }

  ghost predicate Below(e: Pair, status: StatusMessage)
  {
    forall o :: SeqOf(status, o) <= Hi(e, o)
  }

  ghost predicate RumorsBelow(e: Pair, rs: seq<Rumor>)
  {
    forall r :: r in rs ==> r.sequence <= Hi(e, r.origin)
  }

  ghost predicate PacketBelow(e: Pair, p: Packet)
  {
    Inside(e, p) && p.msg.RumorsMessage? ==> RumorsBelow(e, p.msg.rumors)
  }

  ghost predicate NetBelow(e: Pair, net: seq<Packet>)
  {
    forall p :: p in net ==> PacketBelow(e, p)
  }

  ghost predicate BelowInv(e: Pair, s: Network)
  {
    && Inv(s) && e.a in s.nodes && e.b in s.nodes && s.created == e.created
    && Below(e, s.nodes[e.a].replica.counters) && Below(e, s.nodes[e.b].replica.counters) && NetBelow(e, s.net)
  }

  lemma {:induction false} AcceptBelow(e: Pair, r: Replica, rs: seq<Rumor>)
    requires Below(e, r.counters) && RumorsBelow(e, rs)
    ensures Below(e, AcceptAll(r, rs).counters)
  {
    if rs != [] {
      var k := |rs| - 1;
      AcceptBelow(e, r, rs[..k]);
      assert rs[k] in rs;
    }
  }

  lemma DeltaBelow(e: Pair, n: NodeState, status: StatusMessage, delta: seq<Rumor>)
    requires Wf(n.replica) && Below(e, n.replica.counters) && IsDelta(n.replica, status, delta)
    ensures RumorsBelow(e, delta)
  {
    forall r | r in delta
      ensures r.sequence <= Hi(e, r.origin)
    {
      var k :| 0 <= k < |delta| && delta[k] == r;
      PerOriginMember(delta, k);
      assert r in Missing(n.replica, status, r.origin);
      assert WfAt(n.replica, r.origin);
    }
  }

  lemma HandleBelow(e: Pair, n: NodeState, p: Packet, c: Choice)
    requires Wf(n.replica) && Below(e, n.replica.counters) && ValidChoice(n, p, c)
    requires p.msg.RumorsMessage? ==> RumorsBelow(e, p.msg.rumors)
    ensures Below(e, HandlePacket(n, p, c).0.replica.counters) && NetBelow(e, HandlePacket(n, p, c).1)
  {
    if p.msg.RumorsMessage? {
      ExecRumorsReplica(n, p.msg.rumors, p.relayedBy);
      AcceptBelow(e, n.replica, p.msg.rumors);
    } else if p.destination == n.addr {
      DeltaBelow(e, n, p.msg.status, c.delta);
    }
  }

  /** Only one end has changed. */
  lemma BelowFrom(e: Pair, s: Network, s': Network, y: Addr, n: NodeState)
    requires BelowInv(e, s) && Inv(s') && IsEnd(e, y) && Below(e, n.replica.counters)
    requires s'.nodes == s.nodes[y := n] && s'.created == s.created && NetBelow(e, s'.net)
    ensures BelowInv(e, s')
  {
  }

  lemma RestBelow(e: Pair, net: seq<Packet>, i: nat, out: seq<Packet>)
    requires i < |net| && NetBelow(e, net) && NetBelow(e, out)
    ensures NetBelow(e, RemoveAt(net, i) + out)
  {
    RemoveAtMembers(net, i);
  }

  lemma DeliverBelow(e: Pair, s: Network, i: nat, c: Choice)
    requires BelowInv(e, s) && Enabled(s, Deliver(i, c)) && Inside(e, s.net[i])
    ensures BelowInv(e, Apply(s, Deliver(i, c)))
  {
    InvStep(s, Deliver(i, c));
    var p := s.net[i];
    var n := s.nodes[p.sentTo];
    assert PacketBelow(e, p);
    assert NodeInv(n, p.sentTo, s.created);
    HandleBelow(e, n, p, c);
    RestBelow(e, s.net, i, HandlePacket(n, p, c).1);
    BelowFrom(e, s, Apply(s, Deliver(i, c)), p.sentTo, HandlePacket(n, p, c).0);
  }

  lemma {:induction false} RunBelow(e: Pair, s: Network, steps: seq<Step>)
    requires BelowInv(e, s) && ValidRun(s, steps) && LossyRun(e, s, steps)
    ensures BelowInv(e, Exec(s, steps))
  {
    if steps != [] {
      var k := |steps| - 1;
      RunBelow(e, s, steps[..k]);
      var t := Exec(s, steps[..k]);
      if steps[k].Deliver? {
        DeliverBelow(e, t, steps[k].i, steps[k].choice);
      } else {
        InvStep(t, steps[k]);
        NetStepBelow(e, t, steps[k]);
      }
    }
  }

  lemma NetStepBelow(e: Pair, s: Network, step: Step)
    requires BelowInv(e, s) && Enabled(s, step) && (step.Drop? || step.Duplicate?)
    ensures NetBelow(e, Apply(s, step).net)
  {
    if step.Drop? {
      RemoveAtMembers(s.net, step.i);
    } else {
      assert s.net[step.i] in s.net;
    }
  }

  lemma StartBelow(e: Pair, s: Network)
    requires Start(e, s)
    ensures BelowInv(e, s)
  {
  }

  /** Both ends end up at least at the maximum. */
  lemma RoundReachesTop(e: Pair, s: Network, steps: seq<Step>, k: nat, p: Packet, c: Choice, x: Addr, o: Addr)
    requires Inv(s) && Honest(s.net, s.nodes) && ValidRun(s, steps) && IsEnd(e, x) && e.a in s.nodes && e.b in s.nodes
    requires RoundDone(s, steps, e.a, e.b, k, p, c) && p.msg.status == e.a0 && e.b0 == s.nodes[e.b].replica.counters
    ensures x in Exec(s, steps).nodes && Hi(e, o) <= SeqOf(Exec(s, steps).nodes[x].replica.counters, o)
  {
    GrownAt(s, steps, k, e.b);
    var n := Exec(s, steps[..k]).nodes[e.b].replica.counters;
    assert SeqOf(e.b0, o) <= SeqOf(n, o);
    RoundReaches(s, steps, e.a, e.b, k, p, c, o);
    assert Hi(e, o) <= Max(SeqOf(p.msg.status, o), SeqOf(n, o));
  }

  lemma GrownAt(s: Network, steps: seq<Step>, k: nat, x: Addr)
    requires Inv(s) && ValidRun(s, steps) && k <= |steps| && x in s.nodes
    ensures ValidRun(s, steps[..k]) && x in Exec(s, steps[..k]).nodes
    ensures AtMost(s.nodes[x].replica.counters, Exec(s, steps[..k]).nodes[x].replica.counters)
  {
    PrefixGrows(s, steps, k);
    assert NodeGrows(s.nodes[x], Exec(s, steps[..k]).nodes[x]);
  }

  /**
   * The round is enough. When only the two ends talk, with any loss and duplication: once a's starting
   * status, b's answers to it and the rumors a answers these with are delivered, both ends hold exactly
   * the pointwise maximum and the longer of the two original logs, whatever is still in flight.
   */
  lemma RoundJoins(e: Pair, s: Network, steps: seq<Step>, k: nat, c: Choice, x: Addr, o: Addr)
    requires Start(e, s) && ValidRun(s, steps) && LossyRun(e, s, steps) && IsEnd(e, x)
    requires RoundDone(s, steps, e.a, e.b, k, Direct(s.nodes[e.a], e.b, StatusUpdate(e.a0)), c)
    ensures var last := Exec(s, steps).nodes;
            && x in last && SeqOf(last[x].replica.counters, o) == Max(SeqOf(e.a0, o), SeqOf(e.b0, o))
            && LogOf(last[x].replica, o) == Longer(LogOf(s.nodes[e.a].replica, o), LogOf(s.nodes[e.b].replica, o))
  {
    RoundReachesTop(e, s, steps, k, Direct(s.nodes[e.a], e.b, StatusUpdate(e.a0)), c, x, o);
    StartBelow(e, s);
    RunBelow(e, s, steps);
    AtTheTop(e, s, Exec(s, steps), x, o);
  }

  lemma AtTheTop(e: Pair, s: Network, last: Network, x: Addr, o: Addr)
    requires Start(e, s) && BelowInv(e, last) && IsEnd(e, x) && Hi(e, o) <= SeqOf(last.nodes[x].replica.counters, o)
    ensures SeqOf(last.nodes[x].replica.counters, o) == Hi(e, o)
    ensures LogOf(last.nodes[x].replica, o) == Longer(LogOf(s.nodes[e.a].replica, o), LogOf(s.nodes[e.b].replica, o))
  {
    assert Below(e, last.nodes[x].replica.counters);
    LogFacts(last, x, o);
    LongerOriginal(e, s, o);
    WholePrefix(LogOf(last.nodes[x].replica, o), CreatedBy(e.created, o), Hi(e, o));
  }

  lemma WholePrefix(log: seq<Rumor>, full: seq<Rumor>, n: nat)
    requires log <= full && |log| == n
    ensures n <= |full| && log == full[..n]
  {
  }
}
