/**
 * Quiescence: no status in flight overstates its sender; once all nodes agree, nothing new is
 * broadcast and mongering is off, every delivery uses up a bounded amount of work.
 */
module Quiescence {
  import opened Basics
  import opened Messages
  import opened Replicas
  import opened GossipNode
  import opened GossipNetwork

  // ---- no status overstates its sender ----

  ghost predicate AtMost(a: StatusMessage, b: StatusMessage)
  {
    forall o :: SeqOf(a, o) <= SeqOf(b, o)
  }

  ghost predicate HonestPacket(p: Packet, nodes: map<Addr, NodeState>)
  {
    !p.msg.RumorsMessage? ==> p.source in nodes && AtMost(p.msg.status, nodes[p.source].replica.counters)
  }

  ghost predicate Honest(net: seq<Packet>, nodes: map<Addr, NodeState>)
  {
    forall p :: p in net ==> HonestPacket(p, nodes)
  }

  /** Node by node the counters of `later` are at least those of `nodes`. */
  ghost predicate Grown(nodes: map<Addr, NodeState>, later: map<Addr, NodeState>)
  {
    forall a :: a in nodes ==> a in later && AtMost(nodes[a].replica.counters, later[a].replica.counters)
  }

  lemma HonestGrows(net: seq<Packet>, nodes: map<Addr, NodeState>, later: map<Addr, NodeState>)
    requires Honest(net, nodes) && Grown(nodes, later)
    ensures Honest(net, later)
  {
    forall p | p in net
      ensures HonestPacket(p, later)
    {
      assert HonestPacket(p, nodes);
    }
  }

  lemma HandleGrows(n: NodeState, p: Packet, c: Choice)
    ensures AtMost(n.replica.counters, HandlePacket(n, p, c).0.replica.counters)
    ensures HandlePacket(n, p, c).0.addr == n.addr
  {
    if p.msg.RumorsMessage? {
      ExecRumorsReplica(n, p.msg.rumors, p.relayedBy);
      forall o
        ensures SeqOf(n.replica.counters, o) <= SeqOf(AcceptAll(n.replica, p.msg.rumors).counters, o)
      {
        AcceptAllGrows(n.replica, p.msg.rumors, o);
      }
    }
  }

  /** What a handler sends, it sends with its own, current status. */
  lemma HandleHonest(n: NodeState, p: Packet, c: Choice, later: map<Addr, NodeState>)
    requires n.addr in later && later[n.addr] == HandlePacket(n, p, c).0
    requires HonestPacket(p, later)
    ensures Honest(HandlePacket(n, p, c).1, later)
  {
  }

  lemma HonestDeliver(s: Network, i: nat, choice: Choice)
    requires Inv(s) && Honest(s.net, s.nodes) && Enabled(s, Deliver(i, choice))
    ensures Honest(Apply(s, Deliver(i, choice)).net, Apply(s, Deliver(i, choice)).nodes)
  {
    var p := s.net[i];
    var n := s.nodes[p.sentTo];
    var later := Apply(s, Deliver(i, choice)).nodes;
    assert NodeInv(n, p.sentTo, s.created);
    HandleGrows(n, p, choice);
    assert Grown(s.nodes, later);
    HonestGrows(s.net, s.nodes, later);
    RemoveAtMembers(s.net, i);
    assert HonestPacket(p, later);
    HandleHonest(n, p, choice, later);
  }

  lemma HonestStep(s: Network, step: Step)
    requires Inv(s) && Honest(s.net, s.nodes) && Enabled(s, step)
    ensures Honest(Apply(s, step).net, Apply(s, step).nodes)
  {
    match step {
      case Deliver(i, choice) =>
        HonestDeliver(s, i, choice);
      case Drop(i) =>
        RemoveAtMembers(s.net, i);
      case Duplicate(i) =>
        assert s.net[i] in s.net;
      case AntiEntropy(at, pick) =>
        assert NodeInv(s.nodes[at], at, s.created);
      case _ =>
        HonestLocal(s, step);
    }
  }

  lemma HonestLocal(s: Network, step: Step)
    requires Honest(s.net, s.nodes) && Enabled(s, step)
    requires step.Broadcast? || step.Retransmit? || step.AddOnePeer? || step.SetRoute?
    ensures Honest(Apply(s, step).net, Apply(s, step).nodes)
  {
    assert Grown(s.nodes, Apply(s, step).nodes);
    HonestGrows(s.net, s.nodes, Apply(s, step).nodes);
  }

  /** Over every run, no status in flight, plain or acknowledging, overstates its sender. */
  lemma {:induction false} NoStatusOverstates(s: Network, steps: seq<Step>)
    requires Inv(s) && Honest(s.net, s.nodes) && ValidRun(s, steps)
    ensures Honest(Exec(s, steps).net, Exec(s, steps).nodes)
  {
    if steps != [] {
      var k := |steps| - 1;
      NoStatusOverstates(s, steps[..k]);
      RunInv(s, steps[..k]);
      HonestStep(Exec(s, steps[..k]), steps[k]);
    }
  }

  // ---- the weighted count ----

  /** Stale status 3, rumors 2, current status 1; doubled, plus 1 while a hop is still to go. */
  ghost function Weight(p: Packet, current: StatusMessage): nat
  {
    2 * (if p.msg.RumorsMessage? then 2 else if SameCounters(p.msg.status, current) then 1 else 3)
    + (if p.destination == p.sentTo then 0 else 1)
  }

  ghost function Work(net: seq<Packet>, current: StatusMessage): nat
  {
    if net == [] then 0 else Work(net[..|net| - 1], current) + Weight(net[|net| - 1], current)
  }

  lemma {:induction false} WorkConcat(xs: seq<Packet>, ys: seq<Packet>, current: StatusMessage)
    ensures Work(xs + ys, current) == Work(xs, current) + Work(ys, current)
  {
    if ys == [] {
      assert xs + ys == xs;
    } else {
      var k := |ys| - 1;
      assert (xs + ys)[..|xs + ys| - 1] == xs + ys[..k];
      WorkConcat(xs, ys[..k], current);
    }
  }

  lemma WorkOne(p: Packet, current: StatusMessage)
    ensures Work([p], current) == Weight(p, current)
  {
    assert [p][..0] == [];
  }

  lemma WorkRemove(net: seq<Packet>, i: nat, current: StatusMessage)
    requires i < |net|
    ensures Work(RemoveAt(net, i), current) + Weight(net[i], current) == Work(net, current)
  {
    assert net == net[..i] + ([net[i]] + net[i + 1..]);
    WorkConcat(net[..i], [net[i]] + net[i + 1..], current);
    WorkConcat([net[i]], net[i + 1..], current);
    WorkOne(net[i], current);
    WorkConcat(net[..i], net[i + 1..], current);
  }

  // ---- all nodes agree ----

  ghost predicate Agree(s: Network, current: StatusMessage)
  {
    forall a :: a in s.nodes ==> SameCounters(s.nodes[a].replica.counters, current)
  }

  /** A delivery without mongering, or a loss. */
  ghost predicate Quiet(s: Network, step: Step)
    requires Enabled(s, step)
  {
    step.Drop? || (step.Deliver? && (s.net[step.i].msg.RumorsMessage? || step.choice.nbr.None?))
  }

  /** Where all nodes agree, no rumor in flight is expected anywhere. */
  lemma {:induction false} NothingExpected(s: Network, current: StatusMessage, n: NodeState, rs: seq<Rumor>,
                                           relayedBy: Addr)
    requires Inv(s) && Agree(s, current) && SameCounters(n.replica.counters, current)
    requires forall r :: r in rs ==> Genuine(r, s.created)
    ensures !AnyExpected(n, rs, relayedBy)
  {
    if rs != [] {
      var k := |rs| - 1;
      NothingExpected(s, current, n, rs[..k], relayedBy);
      ExecRumorsReplica(n, rs[..k], relayedBy);
      var r := rs[k];
      assert r in rs && Genuine(r, s.created);
      LogFacts(s, r.origin, r.origin);
      assert SameCounters(s.nodes[r.origin].replica.counters, current);
      assert SeqOf(n.replica.counters, r.origin) == SeqOf(current, r.origin);
    }
  }

  lemma StatusWork(n: NodeState, source: Addr, status: StatusMessage, c: Choice, current: StatusMessage)
    requires SameCounters(n.replica.counters, current) && AtMost(status, current) && c.nbr.None?
    ensures Work(StatusReplies(n, source, status, c), current) < 2 * (if SameCounters(status, current) then 1 else 3)
  {
    var mine := n.replica.counters;
    assert !Ahead(status, mine) by {
      forall o
        ensures !(SeqOf(mine, o) < SeqOf(status, o))
      {
        assert SeqOf(mine, o) == SeqOf(current, o);
      }
    }
    if SameCounters(status, current) {
      assert !Ahead(mine, status) by {
        forall o
          ensures !(SeqOf(status, o) < SeqOf(mine, o))
        {
          assert SeqOf(mine, o) == SeqOf(current, o) == SeqOf(status, o);
        }
      }
      assert StatusReplies(n, source, status, c) == [];
    } else {
      var o :| SeqOf(status, o) != SeqOf(current, o);
      assert SeqOf(status, o) < SeqOf(mine, o);
      assert StatusReplies(n, source, status, c) == [Direct(n, source, RumorsMessage(c.delta))];
      WorkOne(Direct(n, source, RumorsMessage(c.delta)), current);
    }
  }

  /** A rumors message with nothing new costs one acknowledgement. */
  lemma RumorsWork(n: NodeState, p: Packet, c: Choice, current: StatusMessage)
    requires p.msg.RumorsMessage? && !AnyExpected(n, p.msg.rumors, p.relayedBy)
    requires SameCounters(n.replica.counters, current)
    ensures HandleRumors(n, p, c).0 == n && Work(HandleRumors(n, p, c).1, current) <= 2
  {
    ExecRumorsReplica(n, p.msg.rumors, p.relayedBy);
    assert RelayOf(n, p, c) == [];
    var ack := Direct(n, p.relayedBy, AckMessage(n.replica.counters));
    WorkOne(ack, current);
    assert [] + [ack] == [ack];
  }

  lemma AtMostCurrent(status: StatusMessage, sender: StatusMessage, current: StatusMessage)
    requires AtMost(status, sender) && SameCounters(sender, current)
    ensures AtMost(status, current)
  {
    forall o
      ensures SeqOf(status, o) <= SeqOf(current, o)
    {
      assert SeqOf(sender, o) == SeqOf(current, o);
    }
  }

  /** One delivery among agreeing nodes changes no node and replaces the packet by less work. */
  lemma QuietDelivery(s: Network, current: StatusMessage, i: nat, choice: Choice)
    requires Inv(s) && Honest(s.net, s.nodes) && Agree(s, current)
    requires Enabled(s, Deliver(i, choice)) && Quiet(s, Deliver(i, choice))
    ensures var (n', out) := HandlePacket(s.nodes[s.net[i].sentTo], s.net[i], choice);
            n' == s.nodes[s.net[i].sentTo] && Work(out, current) < Weight(s.net[i], current)
  {
    var p := s.net[i];
    var n := s.nodes[p.sentTo];
    assert NodeInv(n, p.sentTo, s.created) && PacketInv(p, s.created) && HonestPacket(p, s.nodes);
    assert SameCounters(n.replica.counters, current);
    if p.destination != n.addr {
      WorkOne(p.(relayedBy := n.addr, sentTo := p.destination), current);
    } else if p.msg.RumorsMessage? {
      NothingExpected(s, current, n, p.msg.rumors, p.relayedBy);
      RumorsWork(n, p, choice, current);
    } else {
      AtMostCurrent(p.msg.status, s.nodes[p.source].replica.counters, current);
      StatusWork(n, p.source, p.msg.status, choice, current);
    }
  }

  /** A packet is replaced by less work. */
  lemma WorkReplace(net: seq<Packet>, i: nat, out: seq<Packet>, current: StatusMessage)
    requires i < |net| && Work(out, current) < Weight(net[i], current)
    ensures Work(RemoveAt(net, i) + out, current) < Work(net, current)
  {
    WorkRemove(net, i, current);
    WorkConcat(RemoveAt(net, i), out, current);
  }

  lemma QuietDeliver(s: Network, current: StatusMessage, i: nat, choice: Choice)
    requires Inv(s) && Honest(s.net, s.nodes) && Agree(s, current)
    requires Enabled(s, Deliver(i, choice)) && Quiet(s, Deliver(i, choice))
    ensures Apply(s, Deliver(i, choice)).nodes == s.nodes
    ensures Work(Apply(s, Deliver(i, choice)).net, current) < Work(s.net, current)
  {
    QuietDelivery(s, current, i, choice);
    var n := s.nodes[s.net[i].sentTo];
    WorkReplace(s.net, i, HandlePacket(n, s.net[i], choice).1, current);
    assert s.nodes[s.net[i].sentTo := n] == s.nodes;
  }

  lemma QuietStep(s: Network, current: StatusMessage, step: Step)
    requires Inv(s) && Honest(s.net, s.nodes) && Agree(s, current) && Enabled(s, step) && Quiet(s, step)
    ensures Apply(s, step).nodes == s.nodes && Apply(s, step).created == s.created
    ensures Work(Apply(s, step).net, current) < Work(s.net, current)
  {
    if step.Deliver? {
      QuietDeliver(s, current, step.i, step.choice);
    } else {
      WorkRemove(s.net, step.i, current);
    }
  }

  ghost predicate QuietRun(s: Network, steps: seq<Step>)
    requires ValidRun(s, steps)
  {
    steps == [] ||
    (QuietRun(s, steps[..|steps| - 1]) && Quiet(Exec(s, steps[..|steps| - 1]), steps[|steps| - 1]))
  }

  /**
   * Quiescence. Once all nodes agree, any schedule of deliveries and losses without new broadcasts,
   * timers, mongering or duplication leaves the nodes as they are and is no longer than the work in
   * flight at its start.
   */
  lemma {:induction false} Drains(s: Network, current: StatusMessage, steps: seq<Step>)
    requires Inv(s) && Honest(s.net, s.nodes) && Agree(s, current)
    requires ValidRun(s, steps) && QuietRun(s, steps)
    ensures Exec(s, steps).nodes == s.nodes
    ensures Work(Exec(s, steps).net, current) + |steps| <= Work(s.net, current)
  {
    if steps != [] {
      var k := |steps| - 1;
      Drains(s, current, steps[..k]);
      RunInv(s, steps[..k]);
      NoStatusOverstates(s, steps[..k]);
      QuietStep(Exec(s, steps[..k]), current, steps[k]);
    }
  }

  /** The schedule can always go on: any packet at a node can be delivered without mongering. */
  lemma CanDeliver(s: Network, i: nat)
    requires Inv(s) && i < |s.net| && s.net[i].sentTo in s.nodes
    ensures exists c :: Enabled(s, Deliver(i, c)) && Quiet(s, Deliver(i, c))
  {
    var p := s.net[i];
    var n := s.nodes[p.sentTo];
    var c := Choice(None, []);
    if p.msg.RumorsMessage? {
      var nbrs := ExecRumors(n, p.msg.rumors, p.relayedBy).nbrs;
      if !(nbrs <= {p.source}) {
        var nbr :| nbr in nbrs && nbr != p.source;
        c := Choice(Some(nbr), []);
      }
    } else {
      assert NodeInv(n, p.sentTo, s.created);
      var delta := DeltaExists(n.replica, p.msg.status);
      c := Choice(None, delta);
    }
    assert Enabled(s, Deliver(i, c)) && Quiet(s, Deliver(i, c));
  }
}
