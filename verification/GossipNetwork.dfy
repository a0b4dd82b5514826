/**
 * The gossip network: nodes, packets in flight, and every step that can happen, with packets lost,
 * duplicated and delivered in any order. The main results are invariants of every run.
 */
module GossipNetwork {
  import opened Basics
  import opened Messages
  import opened Replicas
  import opened NbrSets
  import opened GossipNode

  /**
   * `created` is history: the rumors each origin created, in order. `relays` counts Relay sends.
   * Nodes never leave; `peers` lists them once each.
   */
  datatype Network = Network(
    peers: seq<Addr>,
    nodes: map<Addr, NodeState>,
    net: seq<Packet>,
    created: map<Addr, seq<Rumor>>,
    relays: nat)

  datatype Step =
    | Broadcast(at: Addr, msg: Payload, pick: Option<Addr>)
    | Deliver(i: nat, choice: Choice)
    | Drop(i: nat)
    | Duplicate(i: nat)
    | AntiEntropy(at: Addr, pick: Option<Addr>)
    | Retransmit(at: Addr, k: nat, pick: Option<Addr>)
    | AddOnePeer(at: Addr, peer: Addr)
    | SetRoute(at: Addr, origin: Addr, relay: Addr)

  ghost predicate Init(s: Network)
  {
    && Distinct(s.peers) && NoAddr !in s.peers
    && s.nodes == (map a | a in s.peers :: NewNode(a))
    && s.created == (map a | a in s.peers :: [])
    && s.net == [] && s.relays == 0
  }

  ghost predicate Enabled(s: Network, step: Step)
  {
    match step
    case Broadcast(at, _, pick) => at in s.nodes && at in s.created && Picked(pick, s.nodes[at].nbrs, NoAddr)
    case Deliver(i, choice) =>
      && i < |s.net| && s.net[i].sentTo in s.nodes
      && ValidChoice(s.nodes[s.net[i].sentTo], s.net[i], choice)
    case Drop(i) => i < |s.net|
    case Duplicate(i) => i < |s.net|
    case AntiEntropy(at, pick) => at in s.nodes && Picked(pick, s.nodes[at].nbrs, NoAddr)
    case Retransmit(at, k, pick) => at in s.nodes && at in s.created && k < |s.created[at]|
    case AddOnePeer(at, _) => at in s.nodes
    case SetRoute(at, _, _) => at in s.nodes
  }

  /** How many Relay sends a delivery makes. */
  function RelaysOf(n: NodeState, p: Packet, c: Choice): nat
  {
    if p.destination == n.addr && p.msg.RumorsMessage? then |RelayOf(n, p, c)| else 0
  }

  ghost function Apply(s: Network, step: Step): Network
    requires Enabled(s, step)
  {
    match step
    case Broadcast(at, msg, pick) =>
      var n := s.nodes[at];
      s.(nodes := s.nodes[at := BroadcastState(n, msg)],
         created := s.created[at := s.created[at] + [NextRumor(n, msg)]],
         net := s.net + [BroadcastPacket(n, msg, pick)])
    case Deliver(i, choice) =>
      var p := s.net[i];
      var n := s.nodes[p.sentTo];
      var (n', out) := HandlePacket(n, p, choice);
      s.(nodes := s.nodes[p.sentTo := n'],
         net := RemoveAt(s.net, i) + out,
         relays := s.relays + RelaysOf(n, p, choice))
    case Drop(i) => s.(net := RemoveAt(s.net, i))
    case Duplicate(i) => s.(net := s.net + [s.net[i]])
    case AntiEntropy(at, pick) =>
      var n := s.nodes[at];
      s.(net := s.net + Relayed(n, at, NbrOrEmpty(pick), StatusUpdate(n.replica.counters)))
    case Retransmit(at, k, pick) =>
      s.(net := s.net + [Direct(s.nodes[at], NbrOrEmpty(pick), RumorsMessage([s.created[at][k]]))])
    case AddOnePeer(at, peer) => s.(nodes := s.nodes[at := AddPeer(s.nodes[at], peer)])
    case SetRoute(at, origin, relay) => s.(nodes := s.nodes[at := SetRoutingEntry(s.nodes[at], origin, relay)])
  }

  ghost predicate ValidRun(s: Network, steps: seq<Step>)
    decreases |steps|, 0
  {
    steps == [] ||
    (ValidRun(s, steps[..|steps| - 1]) && Enabled(Exec(s, steps[..|steps| - 1]), steps[|steps| - 1]))
  }

  ghost function Exec(s: Network, steps: seq<Step>): Network
    requires ValidRun(s, steps)
    decreases |steps|, 1
  {
    if steps == [] then s else Apply(Exec(s, steps[..|steps| - 1]), steps[|steps| - 1])
  }

  // ---- the invariant ----

  /** The rumor is the one its origin created under that sequence number. */
  ghost predicate Genuine(r: Rumor, created: map<Addr, seq<Rumor>>)
  {
    && r.origin in created && 1 <= r.sequence <= |created[r.origin]|
    && created[r.origin][r.sequence - 1] == r
  }

  ghost predicate PacketInv(p: Packet, created: map<Addr, seq<Rumor>>)
  {
    && p.source in created && p.relayedBy in created
    && (p.msg.RumorsMessage? ==> forall r :: r in p.msg.rumors ==> Genuine(r, created))
  }

  function Payloads(rs: seq<Rumor>): seq<Payload>
  {
    if rs == [] then [] else Payloads(rs[..|rs| - 1]) + [rs[|rs| - 1].msg]
  }

  /** One origin at one node: the log is a prefix of what the origin created, and was delivered. */
  ghost predicate HoldsPrefix(n: NodeState, a: Addr, o: Addr, created: map<Addr, seq<Rumor>>)
  {
    && LogOf(n.replica, o) <= CreatedBy(created, o)
    && PerOrigin(n.delivered, o) == if o == a then [] else LogOf(n.replica, o)
  }

  function CreatedBy(created: map<Addr, seq<Rumor>>, o: Addr): seq<Rumor>
  {
    if o in created then created[o] else []
  }

  /** What one node holds, delivered and processed, against what the origins created. */
  ghost predicate NodeInv(n: NodeState, a: Addr, created: map<Addr, seq<Rumor>>)
  {
    && n.addr == a && a in created
    && Wf(n.replica)
    && (forall o :: HoldsPrefix(n, a, o, created))
    && LogOf(n.replica, a) == created[a]
    && n.processedLocally == Payloads(created[a])
  }

  ghost predicate AllNumbered(created: map<Addr, seq<Rumor>>)
  {
    forall o :: o in created ==> Numbered(created[o], o)
  }

  ghost predicate PacketsInv(net: seq<Packet>, created: map<Addr, seq<Rumor>>)
  {
    forall p :: p in net ==> PacketInv(p, created)
  }

  ghost predicate NodesInv(nodes: map<Addr, NodeState>, created: map<Addr, seq<Rumor>>)
  {
    forall a :: a in nodes ==> NodeInv(nodes[a], a, created)
  }

  ghost predicate SameNodes(s: Network)
  {
    && (forall a :: a in s.nodes <==> a in s.created)
    && (forall a :: a in s.nodes <==> a in s.peers)
    && NoAddr !in s.nodes && Distinct(s.peers)
  }

  ghost predicate Inv(s: Network)
  {
    SameNodes(s) && AllNumbered(s.created) && NodesInv(s.nodes, s.created) && PacketsInv(s.net, s.created)
  }

  lemma InitInv(s: Network)
    requires Init(s)
    ensures Inv(s)
  {
    forall a | a in s.nodes
      ensures NodeInv(s.nodes[a], a, s.created)
    {
      assert forall o :: WfAt(s.nodes[a].replica, o);
      assert forall o :: HoldsPrefix(s.nodes[a], a, o, s.created);
    }
  }

  // ---- the invariant is kept: receiving rumors ----

  lemma SameReplicaInv(n: NodeState, n': NodeState, created: map<Addr, seq<Rumor>>)
    requires NodeInv(n, n.addr, created)
    requires n' == n.(nbrs := n'.nbrs, table := n'.table)
    ensures NodeInv(n', n.addr, created)
  {
    forall o
      ensures HoldsPrefix(n', n.addr, o, created)
    {
      assert HoldsPrefix(n, n.addr, o, created);
    }
  }

  lemma DeliverOneAt(n: NodeState, n': NodeState, r: Rumor, o: Addr, created: map<Addr, seq<Rumor>>)
    requires Wf(n.replica) && r.origin != n.addr && HoldsPrefix(n, n.addr, o, created)
    requires Genuine(r, created) && Expected(n.replica, r)
    requires n'.replica == Update(n.replica, r.origin, r) && n'.delivered == n.delivered + [r]
    ensures HoldsPrefix(n', n.addr, o, created)
  {
    PerOriginOneMore(n.delivered, r, o);
    AcceptAt(n.replica, r, o);
    if o == r.origin {
      assert WfAt(n.replica, o);
      PrefixGrows(LogOf(n.replica, o), created[o], r);
    }
  }

  lemma PrefixGrows(log: seq<Rumor>, full: seq<Rumor>, r: Rumor)
    requires log <= full && |log| < |full| && full[|log|] == r
    ensures log + [r] <= full
  {
  }

  lemma DeliverOneInv(n: NodeState, n': NodeState, r: Rumor, created: map<Addr, seq<Rumor>>)
    requires NodeInv(n, n.addr, created) && Genuine(r, created) && Expected(n.replica, r)
    requires n' == n.(replica := Update(n.replica, r.origin, r), delivered := n.delivered + [r])
    ensures NodeInv(n', n.addr, created)
  {
    assert WfAt(n.replica, r.origin);
    UpdateWf(n.replica, r);
    forall o
      ensures HoldsPrefix(n', n.addr, o, created)
    {
      assert HoldsPrefix(n, n.addr, o, created);
      DeliverOneAt(n, n', r, o, created);
    }
  }

  lemma ExecRumorInv(n: NodeState, r: Rumor, relayedBy: Addr, created: map<Addr, seq<Rumor>>)
    requires NodeInv(n, n.addr, created) && Genuine(r, created)
    ensures NodeInv(ExecRumor(n, r, relayedBy), n.addr, created)
  {
    if Expected(n.replica, r) {
      var n' := n.(replica := Update(n.replica, r.origin, r), delivered := n.delivered + [r]);
      DeliverOneInv(n, n', r, created);
      SameReplicaInv(n', ExecRumor(n, r, relayedBy), created);
    }
  }

  lemma {:induction false} ExecRumorsInv(n: NodeState, rs: seq<Rumor>, relayedBy: Addr,
                                         created: map<Addr, seq<Rumor>>)
    requires NodeInv(n, n.addr, created)
    requires forall r :: r in rs ==> Genuine(r, created)
    ensures NodeInv(ExecRumors(n, rs, relayedBy), n.addr, created)
  {
    if rs != [] {
      var k := |rs| - 1;
      ExecRumorsInv(n, rs[..k], relayedBy, created);
      ExecRumorsReplica(n, rs[..k], relayedBy);
      assert rs[k] in rs;
      ExecRumorInv(ExecRumors(n, rs[..k], relayedBy), rs[k], relayedBy, created);
    }
  }

  /** What a node ships as missing rumors is genuine. */
  lemma DeltaGenuine(n: NodeState, others: StatusMessage, delta: seq<Rumor>, created: map<Addr, seq<Rumor>>)
    requires NodeInv(n, n.addr, created) && IsDelta(n.replica, others, delta) && AllNumbered(created)
    ensures forall r :: r in delta ==> Genuine(r, created)
  {
    forall r | r in delta
      ensures Genuine(r, created)
    {
      var k :| 0 <= k < |delta| && delta[k] == r;
      PerOriginMember(delta, k);
      assert r in Missing(n.replica, others, r.origin);
      assert HoldsPrefix(n, n.addr, r.origin, created);
      LogGenuine(LogOf(n.replica, r.origin), r, created);
    }
  }

  lemma LogGenuine(log: seq<Rumor>, r: Rumor, created: map<Addr, seq<Rumor>>)
    requires r in log && log <= CreatedBy(created, r.origin) && AllNumbered(created)
    ensures Genuine(r, created)
  {
    var j :| 0 <= j < |log| && log[j] == r;
    assert created[r.origin][j] == r;
  }

  lemma HandlePacketInv(n: NodeState, p: Packet, c: Choice, created: map<Addr, seq<Rumor>>)
    requires NodeInv(n, n.addr, created) && PacketInv(p, created) && ValidChoice(n, p, c)
    requires AllNumbered(created)
    ensures NodeInv(HandlePacket(n, p, c).0, n.addr, created)
    ensures PacketsInv(HandlePacket(n, p, c).1, created)
  {
    if p.destination == n.addr {
      if p.msg.RumorsMessage? {
        ExecRumorsInv(n, p.msg.rumors, p.relayedBy, created);
      } else {
        DeltaGenuine(n, p.msg.status, c.delta, created);
      }
    }
  }

  // ---- the invariant is kept: creating a rumor ----

  lemma PayloadsAppend(rs: seq<Rumor>, r: Rumor)
    ensures Payloads(rs + [r]) == Payloads(rs) + [r.msg]
  {
    assert (rs + [r])[..|rs + [r]| - 1] == rs;
  }

  lemma CreateInv(n: NodeState, msg: Payload, created: map<Addr, seq<Rumor>>)
    requires NodeInv(n, n.addr, created) && AllNumbered(created)
    ensures var created' := created[n.addr := created[n.addr] + [NextRumor(n, msg)]];
            && NodeInv(BroadcastState(n, msg), n.addr, created') && AllNumbered(created')
            && Genuine(NextRumor(n, msg), created')
  {
    var r := NextRumor(n, msg);
    var created' := created[n.addr := created[n.addr] + [r]];
    assert WfAt(n.replica, n.addr);
    UpdateWf(n.replica, r);
    PayloadsAppend(created[n.addr], r);
    forall o
      ensures HoldsPrefix(BroadcastState(n, msg), n.addr, o, created')
    {
      assert HoldsPrefix(n, n.addr, o, created);
      AcceptAt(n.replica, r, o);
    }
  }

  /** One origin's new rumor disturbs no other node. */
  lemma GrowthKeepsNode(n: NodeState, b: Addr, created: map<Addr, seq<Rumor>>, at: Addr, r: Rumor,
                        created': map<Addr, seq<Rumor>>)
    requires at in created && b != at && NodeInv(n, b, created) && created' == created[at := created[at] + [r]]
    ensures NodeInv(n, b, created')
  {
    forall o
      ensures HoldsPrefix(n, b, o, created')
    {
      assert HoldsPrefix(n, b, o, created);
    }
  }

  lemma GrowthKeepsNodes(nodes: map<Addr, NodeState>, created: map<Addr, seq<Rumor>>, at: Addr, r: Rumor,
                         n: NodeState, created': map<Addr, seq<Rumor>>)
    requires at in created && at in nodes && NodesInv(nodes, created)
    requires created' == created[at := created[at] + [r]] && NodeInv(n, at, created')
    ensures NodesInv(nodes[at := n], created')
  {
    forall b | b in nodes && b != at
      ensures NodeInv(nodes[b], b, created')
    {
      GrowthKeepsNode(nodes[b], b, created, at, r, created');
    }
  }

  lemma GrowthKeepsPackets(net: seq<Packet>, created: map<Addr, seq<Rumor>>, at: Addr, r: Rumor,
                           created': map<Addr, seq<Rumor>>)
    requires at in created && PacketsInv(net, created) && created' == created[at := created[at] + [r]]
    ensures PacketsInv(net, created')
  {
    forall q: Rumor | Genuine(q, created)
      ensures Genuine(q, created')
    {
    }
    forall p | p in net
      ensures PacketInv(p, created')
    {
      assert PacketInv(p, created);
    }
  }

  /** Replacing one node's state and the packets in flight, with nothing created. */
  lemma ReplaceInv(s: Network, a: Addr, n: NodeState, net: seq<Packet>, relays: nat)
    requires Inv(s) && a in s.nodes && NodeInv(n, a, s.created)
    requires PacketsInv(net, s.created)
    ensures Inv(s.(nodes := s.nodes[a := n], net := net, relays := relays))
  {
  }

  lemma DeliverInv(s: Network, i: nat, choice: Choice)
    requires Inv(s) && Enabled(s, Deliver(i, choice))
    ensures Inv(Apply(s, Deliver(i, choice)))
  {
    var p := s.net[i];
    var n := s.nodes[p.sentTo];
    assert PacketInv(p, s.created) && NodeInv(n, p.sentTo, s.created);
    HandlePacketInv(n, p, choice, s.created);
    RemoveAtMembers(s.net, i);
    var (n', out) := HandlePacket(n, p, choice);
    ReplaceInv(s, p.sentTo, n', RemoveAt(s.net, i) + out, s.relays + RelaysOf(n, p, choice));
  }

  lemma BroadcastInv(s: Network, at: Addr, msg: Payload, pick: Option<Addr>)
    requires Inv(s) && Enabled(s, Broadcast(at, msg, pick))
    ensures Inv(Apply(s, Broadcast(at, msg, pick)))
  {
    var n, r := s.nodes[at], NextRumor(s.nodes[at], msg);
    assert NodeInv(n, at, s.created);
    CreateInv(n, msg, s.created);
    var created := s.created[at := s.created[at] + [r]];
    GrowthKeepsNodes(s.nodes, s.created, at, r, BroadcastState(n, msg), created);
    GrowthKeepsPackets(s.net, s.created, at, r, created);
    PutInv(s, at, BroadcastState(n, msg), created, BroadcastPacket(n, msg, pick));
  }

  lemma PutInv(s: Network, at: Addr, n: NodeState, created: map<Addr, seq<Rumor>>, p: Packet)
    requires SameNodes(s) && at in s.nodes
    requires forall o :: o in created <==> o in s.created
    requires AllNumbered(created) && NodesInv(s.nodes[at := n], created) && PacketsInv(s.net, created)
    requires PacketInv(p, created)
    ensures Inv(s.(nodes := s.nodes[at := n], created := created, net := s.net + [p]))
  {
  }

  lemma DuplicateInv(s: Network, i: nat)
    requires Inv(s) && Enabled(s, Duplicate(i))
    ensures Inv(Apply(s, Duplicate(i)))
  {
    assert s.net[i] in s.net;
  }

  lemma DropInv(s: Network, i: nat)
    requires Inv(s) && Enabled(s, Drop(i))
    ensures Inv(Apply(s, Drop(i)))
  {
    RemoveAtMembers(s.net, i);
  }

  /** A node sends one more packet of its own. */
  lemma SendInv(s: Network, at: Addr, out: seq<Packet>)
    requires Inv(s) && at in s.nodes && PacketsInv(out, s.created)
    ensures Inv(s.(net := s.net + out))
  {
  }

  lemma AntiEntropyInv(s: Network, at: Addr, pick: Option<Addr>)
    requires Inv(s) && Enabled(s, AntiEntropy(at, pick))
    ensures Inv(Apply(s, AntiEntropy(at, pick)))
  {
    var n := s.nodes[at];
    assert NodeInv(n, at, s.created);
    SendInv(s, at, Relayed(n, at, NbrOrEmpty(pick), StatusUpdate(n.replica.counters)));
  }

  lemma RetransmitInv(s: Network, at: Addr, k: nat, pick: Option<Addr>)
    requires Inv(s) && Enabled(s, Retransmit(at, k, pick))
    ensures Inv(Apply(s, Retransmit(at, k, pick)))
  {
    var r := s.created[at][k];
    assert NodeInv(s.nodes[at], at, s.created);
    LogGenuine(s.created[at], r, s.created);
    SendInv(s, at, [Direct(s.nodes[at], NbrOrEmpty(pick), RumorsMessage([r]))]);
  }

  /** A node changes its neighbours or routing table. */
  lemma RerouteInv(s: Network, at: Addr, n: NodeState)
    requires Inv(s) && at in s.nodes && n == s.nodes[at].(nbrs := n.nbrs, table := n.table)
    ensures Inv(s.(nodes := s.nodes[at := n]))
  {
    assert NodeInv(s.nodes[at], at, s.created);
    SameReplicaInv(s.nodes[at], n, s.created);
    ReplaceInv(s, at, n, s.net, s.relays);
  }

  lemma InvStep(s: Network, step: Step)
    requires Inv(s) && Enabled(s, step)
    ensures Inv(Apply(s, step))
  {
    match step {
      case Broadcast(at, msg, pick) =>
        BroadcastInv(s, at, msg, pick);
      case Deliver(i, choice) =>
        DeliverInv(s, i, choice);
      case Drop(i) =>
        DropInv(s, i);
      case Duplicate(i) =>
        DuplicateInv(s, i);
      case AntiEntropy(at, pick) =>
        AntiEntropyInv(s, at, pick);
      case Retransmit(at, k, pick) =>
        RetransmitInv(s, at, k, pick);
      case AddOnePeer(at, peer) =>
        RerouteInv(s, at, AddPeer(s.nodes[at], peer));
      case SetRoute(at, origin, relay) =>
        RerouteInv(s, at, SetRoutingEntry(s.nodes[at], origin, relay));
    }
  }

  lemma {:induction false} RunInv(s: Network, steps: seq<Step>)
    requires Inv(s) && ValidRun(s, steps)
    ensures Inv(Exec(s, steps))
    ensures Exec(s, steps).peers == s.peers
  {
    if steps != [] {
      RunInv(s, steps[..|steps| - 1]);
      InvStep(Exec(s, steps[..|steps| - 1]), steps[|steps| - 1]);
    }
  }

  lemma ReachableInv(s0: Network, steps: seq<Step>)
    requires Init(s0) && ValidRun(s0, steps)
    ensures Inv(Exec(s0, steps)) && Exec(s0, steps).peers == s0.peers
  {
    InitInv(s0);
    RunInv(s0, steps);
  }

  // ---- main results about every run ----

  /** What the invariant says about one log. */
  lemma LogFacts(s: Network, a: Addr, o: Addr)
    requires Inv(s) && a in s.nodes
    ensures var r := s.nodes[a].replica;
            && WfAt(r, o) && LogOf(r, o) <= CreatedBy(s.created, o)
            && PerOrigin(s.nodes[a].delivered, o) == (if o == a then [] else LogOf(r, o))
            && LogOf(r, a) == CreatedBy(s.created, a)
            && s.nodes[a].processedLocally == Payloads(CreatedBy(s.created, a))
  {
    assert NodeInv(s.nodes[a], a, s.created);
    assert HoldsPrefix(s.nodes[a], a, o, s.created);
  }

  /**
   * Prefix agreement. After any run every log of an origin is a prefix of what that origin created,
   * the counter is the log's length and entry k has sequence k + 1; every rumor in flight is genuine.
   */
  lemma PrefixAgreement(s0: Network, steps: seq<Step>, a: Addr, o: Addr)
    requires Init(s0) && ValidRun(s0, steps) && a in Exec(s0, steps).nodes
    ensures var s := Exec(s0, steps);
            var r := s.nodes[a].replica;
            && LogOf(r, o) <= CreatedBy(s.created, o)
            && SeqOf(r.counters, o) == |LogOf(r, o)|
            && Numbered(LogOf(r, o), o)
            && PacketsInv(s.net, s.created)
  {
    ReachableInv(s0, steps);
    LogFacts(Exec(s0, steps), a, o);
  }

  /** Any two nodes' logs of an origin are comparable, and the origin's own log is the longest. */
  lemma LogsComparable(s: Network, a: Addr, b: Addr, o: Addr)
    requires Inv(s) && a in s.nodes && b in s.nodes
    ensures LogOf(s.nodes[a].replica, o) <= LogOf(s.nodes[b].replica, o)
            || LogOf(s.nodes[b].replica, o) <= LogOf(s.nodes[a].replica, o)
    ensures o in s.nodes ==> LogOf(s.nodes[a].replica, o) <= LogOf(s.nodes[o].replica, o)
  {
    LogFacts(s, a, o);
    LogFacts(s, b, o);
    if o in s.nodes {
      LogFacts(s, o, o);
    }
  }

  lemma DeliveredFacts(s: Network, a: Addr, o: Addr)
    requires Inv(s) && a in s.nodes
    ensures var n := s.nodes[a];
            && SeqOf(n.replica.counters, o) <= |CreatedBy(s.created, o)|
            && PerOrigin(n.delivered, o)
               == (if o == a then [] else CreatedBy(s.created, o)[..SeqOf(n.replica.counters, o)])
            && n.processedLocally == Payloads(CreatedBy(s.created, a))
  {
    LogFacts(s, a, o);
  }

  /**
   * In-order exactly-once delivery: what a node handed to its registry for a remote origin is exactly
   * that origin's first `counter` rumors, in order; each own broadcast was processed here once.
   */
  lemma InOrderExactlyOnce(s0: Network, steps: seq<Step>, a: Addr, o: Addr)
    requires Init(s0) && ValidRun(s0, steps) && a in Exec(s0, steps).nodes
    ensures var s := Exec(s0, steps);
            var n := s.nodes[a];
            && SeqOf(n.replica.counters, o) <= |CreatedBy(s.created, o)|
            && PerOrigin(n.delivered, o)
               == (if o == a then [] else CreatedBy(s.created, o)[..SeqOf(n.replica.counters, o)])
            && n.processedLocally == Payloads(CreatedBy(s.created, a))
  {
    ReachableInv(s0, steps);
    DeliveredFacts(Exec(s0, steps), a, o);
  }

  /** No rumor in flight that names the receiving node as origin is ever expected there. */
  lemma OwnOriginNeverExpected(s: Network, p: Packet, r: Rumor)
    requires Inv(s) && p in s.net && p.msg.RumorsMessage? && r in p.msg.rumors && r.origin in s.nodes
    ensures !Expected(s.nodes[r.origin].replica, r)
  {
    assert PacketInv(p, s.created) && NodeInv(s.nodes[r.origin], r.origin, s.created);
    assert Genuine(r, s.created);
    assert WfAt(s.nodes[r.origin].replica, r.origin);
  }
}
