/** The routing table under gossip, and under calls of SetRoutingEntry and AddPeer from outside. */
module Routing {
  import opened Basics
  import opened Messages
  import opened Replicas
  import opened GossipNode
  import opened NbrSets
  import opened GossipNetwork

  /** The entry of a is the direct one. */
  predicate DirectRoute(n: NodeState, a: Addr)
  {
    a in n.table && n.table[a] == a
  }

  /** The own entry stays, neighbours are reached directly, every known origin has a route. */
  ghost predicate Routed(n: NodeState)
  {
    && DirectRoute(n, n.addr)
    && (forall x :: x in n.nbrs && x != NoAddr ==> DirectRoute(n, x))
    && (forall o :: o in n.replica.counters ==> o in n.table)
  }

  ghost predicate RoutingInv(s: Network)
  {
    forall a :: a in s.nodes ==> Routed(s.nodes[a])
  }

  lemma ExecRumorRouted(n: NodeState, r: Rumor, relayedBy: Addr, created: map<Addr, seq<Rumor>>)
    requires Routed(n) && NodeInv(n, n.addr, created) && Genuine(r, created)
    requires relayedBy != NoAddr && NoAddr !in created
    ensures Routed(ExecRumor(n, r, relayedBy))
    ensures r.origin != n.addr || ExecRumor(n, r, relayedBy) == n
  {
    assert WfAt(n.replica, r.origin);
  }

  lemma {:induction false} ExecRumorsRouted(n: NodeState, rs: seq<Rumor>, relayedBy: Addr,
                                            created: map<Addr, seq<Rumor>>)
    requires Routed(n) && NodeInv(n, n.addr, created) && relayedBy != NoAddr && NoAddr !in created
    requires forall r :: r in rs ==> Genuine(r, created)
    ensures Routed(ExecRumors(n, rs, relayedBy))
  {
    if rs != [] {
      var k := |rs| - 1;
      ExecRumorsRouted(n, rs[..k], relayedBy, created);
      ExecRumorsInv(n, rs[..k], relayedBy, created);
      ExecRumorsReplica(n, rs[..k], relayedBy);
      assert rs[k] in rs;
      ExecRumorRouted(ExecRumors(n, rs[..k], relayedBy), rs[k], relayedBy, created);
    }
  }

  lemma AddPeerRouted(n: NodeState, peer: Addr, created: map<Addr, seq<Rumor>>)
    requires Routed(n) && NodeInv(n, n.addr, created) && NoAddr !in created
    ensures Routed(AddPeer(n, peer))
  {
    assert HoldsPrefix(n, n.addr, NoAddr, created);
    assert WfAt(n.replica, NoAddr);
  }

  lemma DeliverRouted(s: Network, i: nat, choice: Choice, a: Addr)
    requires Inv(s) && a in s.nodes && Routed(s.nodes[a]) && Enabled(s, Deliver(i, choice))
    ensures a in Apply(s, Deliver(i, choice)).nodes && Routed(Apply(s, Deliver(i, choice)).nodes[a])
  {
    var p := s.net[i];
    if p.sentTo == a && p.msg.RumorsMessage? {
      assert NodeInv(s.nodes[a], a, s.created) && PacketInv(p, s.created);
      ExecRumorsRouted(s.nodes[a], p.msg.rumors, p.relayedBy, s.created);
    }
  }

  /** The step changes the routing table of a from outside. */
  predicate Reroutes(step: Step, a: Addr)
  {
    step.SetRoute? && step.at == a
  }

  /** No other step disturbs the routes of a. */
  lemma RoutedStep(s: Network, step: Step, a: Addr)
    requires Inv(s) && a in s.nodes && Routed(s.nodes[a]) && Enabled(s, step) && !Reroutes(step, a)
    ensures a in Apply(s, step).nodes && Routed(Apply(s, step).nodes[a])
  {
    assert NodeInv(s.nodes[a], a, s.created);
    match step {
      case Deliver(i, choice) =>
        DeliverRouted(s, i, choice, a);
      case AddOnePeer(at, peer) =>
        if at == a {
          AddPeerRouted(s.nodes[a], peer, s.created);
        }
      case _ =>
    }
  }

  lemma {:induction false} RoutedRun(s: Network, steps: seq<Step>, a: Addr)
    requires Inv(s) && ValidRun(s, steps) && a in s.nodes && Routed(s.nodes[a])
    requires forall step :: step in steps ==> !Reroutes(step, a)
    ensures a in Exec(s, steps).nodes && Routed(Exec(s, steps).nodes[a])
  {
    if steps != [] {
      var k := |steps| - 1;
      assert steps[k] in steps;
      RoutedRun(s, steps[..k], a);
      RunInv(s, steps[..k]);
      RoutedStep(Exec(s, steps[..k]), steps[k], a);
    }
  }

  lemma RoutingStep(s: Network, step: Step)
    requires Inv(s) && RoutingInv(s) && Enabled(s, step) && !step.SetRoute?
    ensures RoutingInv(Apply(s, step))
  {
    forall a | a in Apply(s, step).nodes
      ensures Routed(Apply(s, step).nodes[a])
    {
      RoutedStep(s, step, a);
    }
  }

  lemma {:induction false} RoutingRun(s: Network, steps: seq<Step>)
    requires Inv(s) && RoutingInv(s) && ValidRun(s, steps)
    requires forall step :: step in steps ==> !step.SetRoute?
    ensures RoutingInv(Exec(s, steps))
  {
    if steps != [] {
      var k := |steps| - 1;
      RoutingRun(s, steps[..k]);
      RunInv(s, steps[..k]);
      RoutingStep(Exec(s, steps[..k]), steps[k]);
    }
  }

  /**
   * After any run without outside SetRoutingEntry calls at a, gossip has not rewritten a's own entry,
   * every neighbour is routed directly (so Relay reaches it in one hop), and every origin in the
   * status is a key of the routing table.
   */
  lemma RoutesKept(s0: Network, steps: seq<Step>, a: Addr)
    requires Init(s0) && ValidRun(s0, steps) && a in s0.nodes
    requires forall step :: step in steps ==> !Reroutes(step, a)
    ensures a in Exec(s0, steps).nodes
    ensures var n := Exec(s0, steps).nodes[a];
            && n.addr == a && Routed(n)
            && forall nbr, src, msg :: nbr in n.nbrs && nbr != NoAddr ==>
                 Relayed(n, src, nbr, msg) == [Packet(src, a, nbr, nbr, msg)]
  {
    InitInv(s0);
    RoutedRun(s0, steps, a);
    RunInv(s0, steps);
    assert NodeInv(Exec(s0, steps).nodes[a], a, Exec(s0, steps).created);
  }

  // ---- the own entry ----

  lemma {:induction false} ExecRumorsOwnRoute(n: NodeState, rs: seq<Rumor>, relayedBy: Addr,
                                              created: map<Addr, seq<Rumor>>)
    requires NodeInv(n, n.addr, created) && relayedBy != NoAddr && NoAddr !in created
    requires forall r :: r in rs ==> Genuine(r, created)
    ensures DirectRoute(ExecRumors(n, rs, relayedBy), n.addr) <==> DirectRoute(n, n.addr)
  {
    if rs != [] {
      var k := |rs| - 1;
      ExecRumorsOwnRoute(n, rs[..k], relayedBy, created);
      ExecRumorsInv(n, rs[..k], relayedBy, created);
      ExecRumorsReplica(n, rs[..k], relayedBy);
      assert rs[k] in rs;
      assert WfAt(ExecRumors(n, rs[..k], relayedBy).replica, rs[k].origin);
    }
  }

  lemma HandleOwnRoute(n: NodeState, p: Packet, c: Choice, created: map<Addr, seq<Rumor>>)
    requires NodeInv(n, n.addr, created) && PacketInv(p, created) && NoAddr !in created
    ensures DirectRoute(HandlePacket(n, p, c).0, n.addr) <==> DirectRoute(n, n.addr)
  {
    if p.msg.RumorsMessage? {
      ExecRumorsOwnRoute(n, p.msg.rumors, p.relayedBy, created);
    }
  }

  /** a has the direct entry to itself. */
  ghost predicate HasOwnRoute(s: Network, a: Addr)
  {
    a in s.nodes && DirectRoute(s.nodes[a], a)
  }

  lemma DeliveredTo(s: Network, i: nat, c: Choice, a: Addr)
    requires a in s.nodes && Enabled(s, Deliver(i, c))
    ensures HasOwnRoute(Apply(s, Deliver(i, c)), a)
            <==> DirectRoute(if s.net[i].sentTo == a then HandlePacket(s.nodes[a], s.net[i], c).0 else s.nodes[a], a)
  {
  }

  lemma OwnRouteDeliver(s: Network, i: nat, c: Choice, a: Addr)
    requires Inv(s) && a in s.nodes && Enabled(s, Deliver(i, c))
    ensures HasOwnRoute(Apply(s, Deliver(i, c)), a) <==> HasOwnRoute(s, a)
  {
    DeliveredTo(s, i, c, a);
    assert NodeInv(s.nodes[a], a, s.created) && PacketInv(s.net[i], s.created);
    HandleOwnRoute(s.nodes[a], s.net[i], c, s.created);
  }

  /** The step gives a's own entry another relay, or deletes it. */
  predicate Diverts(step: Step, a: Addr)
  {
    step.SetRoute? && step.at == step.origin == a && step.relay != a
  }

  /** The step makes a's own entry the direct one. */
  predicate Directs(step: Step, a: Addr)
  {
    step == AddOnePeer(a, a) || step == SetRoute(a, a, a)
  }

  lemma OwnRouteOther(s: Network, step: Step, a: Addr)
    requires a in s.nodes && a != NoAddr && Enabled(s, step) && !step.Deliver?
    ensures HasOwnRoute(Apply(s, step), a) <==> Directs(step, a) || (HasOwnRoute(s, a) && !Diverts(step, a))
  {
  }

  lemma OwnRouteStep(s: Network, step: Step, a: Addr)
    requires Inv(s) && Enabled(s, step) && a in s.nodes
    ensures HasOwnRoute(Apply(s, step), a) <==> Directs(step, a) || (HasOwnRoute(s, a) && !Diverts(step, a))
  {
    if step.Deliver? {
      OwnRouteDeliver(s, step.i, step.choice, a);
    } else {
      OwnRouteOther(s, step, a);
    }
  }

  /** Every diverting step was made good later. */
  predicate LastDirect(steps: seq<Step>, a: Addr)
  {
    forall k :: 0 <= k < |steps| && Diverts(steps[k], a) ==> DirectedAfter(steps, k, a)
  }

  predicate DirectedAfter(steps: seq<Step>, k: nat, a: Addr)
  {
    exists j :: k < j < |steps| && Directs(steps[j], a)
  }

  lemma LastDirectOneMore(steps: seq<Step>, a: Addr)
    requires steps != []
    ensures var k := |steps| - 1;
            LastDirect(steps, a) <==> Directs(steps[k], a) || (LastDirect(steps[..k], a) && !Diverts(steps[k], a))
  {
    var n := |steps| - 1;
    if LastDirect(steps, a) && !Directs(steps[n], a) {
      forall k | 0 <= k < n && Diverts(steps[..n][k], a)
        ensures DirectedAfter(steps[..n], k, a)
      {
        assert Diverts(steps[k], a);
        var j :| k < j < |steps| && Directs(steps[j], a);
        assert Directs(steps[..n][j], a);
      }
    } else if Directs(steps[n], a) || (LastDirect(steps[..n], a) && !Diverts(steps[n], a)) {
      forall k | 0 <= k <= n && Diverts(steps[k], a)
        ensures DirectedAfter(steps, k, a)
      {
        if !Directs(steps[n], a) {
          assert Diverts(steps[..n][k], a);
          var j :| k < j < n && Directs(steps[..n][j], a);
          assert Directs(steps[j], a);
        }
      }
    }
  }

  /**
   * The documentation of RoutingTable says that a node always has the direct entry to itself. After any
   * run, with any outside calls, it has that entry if and only if each call that gave the entry another
   * relay, or deleted it, was followed by one that set it to the node itself or added the node to itself.
   */
  lemma {:induction false} OwnRouteIff(s0: Network, steps: seq<Step>, a: Addr)
    requires Init(s0) && ValidRun(s0, steps) && a in s0.nodes
    ensures HasOwnRoute(Exec(s0, steps), a) <==> LastDirect(steps, a)
  {
    ReachableInv(s0, steps);
    if steps != [] {
      var k := |steps| - 1;
      OwnRouteIff(s0, steps[..k], a);
      ReachableInv(s0, steps[..k]);
      OwnRouteStep(Exec(s0, steps[..k]), steps[k], a);
      LastDirectOneMore(steps, a);
    }
  }

  // ---- adding oneself ----

  /**
   * The documentation of AddPeer says that adding oneself has no effect. The code makes the node a
   * neighbour of its own and sets its own route, so there is no effect exactly if it was its own
   * neighbour already and its own route was the direct one.
   */
  lemma AddingSelf(n: NodeState)
    requires n.addr != NoAddr
    ensures AddPeer(n, n.addr) == n.(nbrs := n.nbrs + {n.addr}, table := n.table[n.addr := n.addr])
    ensures AddPeer(n, n.addr) == n <==> n.addr in n.nbrs && n.addr in n.table && n.table[n.addr] == n.addr
  {
    if n.addr in n.nbrs && n.addr in n.table && n.table[n.addr] == n.addr {
      assert n.table[n.addr := n.addr] == n.table;
      assert n.nbrs + {n.addr} == n.nbrs;
    }
    if AddPeer(n, n.addr) == n {
      assert n.addr in AddPeer(n, n.addr).nbrs && AddPeer(n, n.addr).table[n.addr] == n.addr;
    }
  }

  /** A new node is not its own neighbour, so adding itself does have an effect. */
  lemma AddingSelfToNew(a: Addr)
    requires a != NoAddr
    ensures AddPeer(NewNode(a), a) == NewNode(a).(nbrs := {a}) != NewNode(a)
  {
    AddingSelf(NewNode(a));
    assert a in AddPeer(NewNode(a), a).nbrs;
  }

  // ---- sending to oneself ----

  lemma {:induction false} RumorsAddNoSelf(n: NodeState, rs: seq<Rumor>, relayedBy: Addr)
    ensures n.addr in ExecRumors(n, rs, relayedBy).nbrs <==> n.addr in n.nbrs
  {
    if rs != [] {
      RumorsAddNoSelf(n, rs[..|rs| - 1], relayedBy);
      ExecRumorsReplica(n, rs[..|rs| - 1], relayedBy);
    }
  }

  lemma SelfNbrDeliver(s: Network, i: nat, c: Choice, a: Addr)
    requires Inv(s) && Enabled(s, Deliver(i, c)) && a in s.nodes
    ensures a in Apply(s, Deliver(i, c)).nodes
    ensures a in Apply(s, Deliver(i, c)).nodes[a].nbrs <==> a in s.nodes[a].nbrs
  {
    var p := s.net[i];
    if p.sentTo == a && p.msg.RumorsMessage? {
      assert NodeInv(s.nodes[a], a, s.created);
      RumorsAddNoSelf(s.nodes[a], p.msg.rumors, p.relayedBy);
    }
  }

  /** After the step a is its own neighbour. */
  ghost predicate OwnNbr(s: Network, a: Addr)
  {
    a in s.nodes && a in s.nodes[a].nbrs
  }

  lemma SelfNbrAdd(s: Network, at: Addr, peer: Addr, a: Addr)
    requires Inv(s) && Enabled(s, AddOnePeer(at, peer)) && a in s.nodes
    ensures OwnNbr(Apply(s, AddOnePeer(at, peer)), a) <==> OwnNbr(s, a) || (at == a && peer == a)
  {
    assert NodeInv(s.nodes[a], a, s.created);
    assert AddPeer(s.nodes[at], peer).nbrs == s.nodes[at].nbrs + {peer};
  }

  lemma SelfNbrReroute(s: Network, at: Addr, origin: Addr, relay: Addr, a: Addr)
    requires Inv(s) && Enabled(s, SetRoute(at, origin, relay)) && a in s.nodes
    ensures OwnNbr(Apply(s, SetRoute(at, origin, relay)), a) <==> OwnNbr(s, a)
  {
    assert NodeInv(s.nodes[a], a, s.created);
  }

  lemma SelfNbrOther(s: Network, step: Step, a: Addr)
    requires Enabled(s, step) && !step.Deliver? && !step.AddOnePeer? && !step.SetRoute?
    ensures OwnNbr(Apply(s, step), a) <==> OwnNbr(s, a)
  {
  }

  lemma SelfNbrStep(s: Network, step: Step, a: Addr)
    requires Inv(s) && Enabled(s, step) && a in s.nodes
    ensures OwnNbr(Apply(s, step), a) <==> OwnNbr(s, a) || step == AddOnePeer(a, a)
  {
    match step {
      case Deliver(i, c) => SelfNbrDeliver(s, i, c, a);
      case AddOnePeer(at, peer) => SelfNbrAdd(s, at, peer, a);
      case SetRoute(at, origin, relay) => SelfNbrReroute(s, at, origin, relay, a);
      case _ => SelfNbrOther(s, step, a);
    }
  }

  /** Over every run a node is its own neighbour exactly if it was added to itself. */
  lemma {:induction false} SelfNeighbour(s0: Network, steps: seq<Step>, a: Addr)
    requires Init(s0) && ValidRun(s0, steps) && a in s0.nodes
    ensures a in Exec(s0, steps).nodes
    ensures OwnNbr(Exec(s0, steps), a) <==> AddOnePeer(a, a) in steps
  {
    ReachableInv(s0, steps);
    InitInv(s0);
    if steps != [] {
      var k := |steps| - 1;
      SelfNeighbour(s0, steps[..k], a);
      ReachableInv(s0, steps[..k]);
      SelfNbrStep(Exec(s0, steps[..k]), steps[k], a);
      MemberLast(steps, AddOnePeer(a, a));
    }
  }

  /** The node can pick itself for a broadcast. */
  ghost predicate MaySendToItself(n: NodeState, msg: Payload)
  {
    exists pick :: Picked(pick, n.nbrs, NoAddr) && BroadcastPacket(n, msg, pick).sentTo == n.addr
  }

  /**
   * The documentation of Broadcast says that a node must not send the message to itself. After any
   * run, it may do so if and only if it was added as a peer to itself in that run.
   */
  lemma BroadcastToSelf(s0: Network, steps: seq<Step>, a: Addr, msg: Payload)
    requires Init(s0) && ValidRun(s0, steps) && a in s0.nodes
    ensures a in Exec(s0, steps).nodes
    ensures MaySendToItself(Exec(s0, steps).nodes[a], msg) <==> AddOnePeer(a, a) in steps
  {
    SelfNeighbour(s0, steps, a);
    ReachableInv(s0, steps);
    var s := Exec(s0, steps);
    assert NodeInv(s.nodes[a], a, s.created);
    var n := s.nodes[a];
    if a in n.nbrs {
      assert Picked(Some(a), n.nbrs, NoAddr) && BroadcastPacket(n, msg, Some(a)).sentTo == a;
    }
  }

  /** Added to itself and then picked by itself. */
  lemma SelfSteps(s0: Network, a: Addr, msg: Payload)
    requires Inv(s0) && a in s0.nodes
    ensures Enabled(s0, AddOnePeer(a, a))
    ensures var t := Apply(s0, AddOnePeer(a, a));
            && a in t.nodes && t.nodes[a].addr == a && Enabled(t, Broadcast(a, msg, Some(a)))
  {
    assert NodeInv(s0.nodes[a], a, s0.created);
  }

  /** A run of two steps in which a node broadcasts to itself. */
  lemma SelfBroadcast(s0: Network, a: Addr, msg: Payload)
    requires Init(s0) && a in s0.nodes
    ensures var steps := [AddOnePeer(a, a), Broadcast(a, msg, Some(a))];
            && ValidRun(s0, steps)
            && exists p :: p in Exec(s0, steps).net && p.source == p.sentTo == a && p.msg.RumorsMessage?
  {
    var first, second := AddOnePeer(a, a), Broadcast(a, msg, Some(a));
    InitInv(s0);
    SelfSteps(s0, a, msg);
    var t := Apply(s0, first);
    OneMore(s0, [], first);
    assert [] + [first] == [first];
    OneMore(s0, [first], second);
    assert [first] + [second] == [first, second];
    var net := Apply(t, second).net;
    assert net[|net| - 1] == BroadcastPacket(t.nodes[a], msg, Some(a));
  }

  lemma OneMore(s: Network, steps: seq<Step>, step: Step)
    requires ValidRun(s, steps) && Enabled(Exec(s, steps), step)
    ensures ValidRun(s, steps + [step]) && Exec(s, steps + [step]) == Apply(Exec(s, steps), step)
  {
    assert (steps + [step])[..|steps|] == steps;
  }
}
