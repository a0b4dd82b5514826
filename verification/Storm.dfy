/** No rumor storm: relays are paid for by acceptances, and acceptances are bounded. */
module Storm {
  import opened Basics
  import opened Messages
  import opened GossipNode
  import opened GossipNetwork
  import opened Relaying

  ghost function Acceptances(s: Network): Addr -> nat
  {
    a => if a in s.nodes then |s.nodes[a].delivered| else 0
  }

  ghost function CreatedCount(created: map<Addr, seq<Rumor>>): Addr -> nat
  {
    o => |CreatedBy(created, o)|
  }

  lemma RelayPaid(n: NodeState, p: Packet, c: Choice)
    ensures |n.delivered| + RelaysOf(n, p, c) <= |HandlePacket(n, p, c).0.delivered|
  {
    if p.destination == n.addr && p.msg.RumorsMessage? {
      ExecRumorsReplica(n, p.msg.rumors, p.relayedBy);
    }
  }

  lemma RelaysDeliver(s: Network, i: nat, choice: Choice)
    requires Inv(s) && Enabled(s, Deliver(i, choice)) && s.relays <= Sum(s.peers, Acceptances(s))
    ensures var s' := Apply(s, Deliver(i, choice));
            s'.relays <= Sum(s'.peers, Acceptances(s'))
  {
    var p := s.net[i];
    var n := s.nodes[p.sentTo];
    RelayPaid(n, p, choice);
    SumRaise(s.peers, Acceptances(s), Acceptances(Apply(s, Deliver(i, choice))), p.sentTo, RelaysOf(n, p, choice));
  }

  /** Only deliveries accept rumors or relay. */
  lemma OthersKeepCounts(s: Network, step: Step)
    requires Enabled(s, step) && !step.Deliver?
    ensures Apply(s, step).relays == s.relays && Apply(s, step).peers == s.peers
    ensures forall a :: Acceptances(Apply(s, step))(a) == Acceptances(s)(a)
  {
  }

  /** The step delivers a rumors message at its destination, from where it goes on. */
  ghost predicate Relays(s: Network, step: Step)
    requires Enabled(s, step)
  {
    && step.Deliver? && s.net[step.i].msg.RumorsMessage? && Arrives(s, step.i, s.net[step.i].sentTo)
    && var b, s' := s.net[step.i].sentTo, Apply(s, step);
       b in s'.nodes && GoesOn(s'.nodes[b], Accepted(s, s', b), step.choice.nbr)
  }

  /** The count of relays is exact: it grows by 1 with each such step and with no other. */
  lemma RelaysCounted(s: Network, step: Step)
    requires Inv(s) && Enabled(s, step)
    ensures Apply(s, step).relays == s.relays + if Relays(s, step) then 1 else 0
  {
    if step.Deliver? {
      var p := s.net[step.i];
      assert NodeInv(s.nodes[p.sentTo], p.sentTo, s.created);
      if p.msg.RumorsMessage? {
        ExecRumorsReplica(s.nodes[p.sentTo], p.msg.rumors, p.relayedBy);
      }
    }
  }

  lemma RelaysStep(s: Network, step: Step)
    requires Inv(s) && Enabled(s, step) && s.relays <= Sum(s.peers, Acceptances(s))
    ensures Apply(s, step).relays <= Sum(Apply(s, step).peers, Acceptances(Apply(s, step)))
  {
    if step.Deliver? {
      RelaysDeliver(s, step.i, step.choice);
    } else {
      OthersKeepCounts(s, step);
      SumMonotone(s.peers, Acceptances(s), Acceptances(Apply(s, step)));
    }
  }

  lemma {:induction false} RelaysRun(s: Network, steps: seq<Step>)
    requires Inv(s) && ValidRun(s, steps) && s.relays == 0
    ensures Exec(s, steps).relays <= Sum(Exec(s, steps).peers, Acceptances(Exec(s, steps)))
  {
    if steps != [] {
      var k := |steps| - 1;
      RelaysRun(s, steps[..k]);
      RunInv(s, steps[..k]);
      RelaysStep(Exec(s, steps[..k]), steps[k]);
    }
  }

  /** A list of rumors of known origins is as long as its parts together. */
  lemma {:induction false} CountByOrigin(rs: seq<Rumor>, peers: seq<Addr>)
    requires Distinct(peers) && forall r :: r in rs ==> r.origin in peers
    ensures |rs| == Sum(peers, o => |PerOrigin(rs, o)|)
  {
    var f: Addr -> nat := o => |PerOrigin(rs, o)|;
    if rs == [] {
      SumZero(peers, f);
    } else {
      var k := |rs| - 1;
      var g: Addr -> nat := o => |PerOrigin(rs[..k], o)|;
      assert rs[k] in rs;
      assert rs == rs[..k] + [rs[k]];
      CountByOrigin(rs[..k], peers);
      SumUpdate(peers, g, f, rs[k].origin);
    }
  }

  lemma {:induction false} SumZero(xs: seq<Addr>, f: Addr -> nat)
    requires forall x :: x in xs ==> f(x) == 0
    ensures Sum(xs, f) == 0
  {
    if xs != [] {
      SumZero(xs[..|xs| - 1], f);
    }
  }

  /** A node accepts at most the rumors that the other nodes created. */
  lemma AcceptedAtMost(s: Network, a: Addr)
    requires Inv(s) && a in s.nodes
    ensures |s.nodes[a].delivered| + |CreatedBy(s.created, a)| <= Sum(s.peers, CreatedCount(s.created))
  {
    var d := s.nodes[a].delivered;
    forall r | r in d
      ensures r.origin in s.peers
    {
      var k :| 0 <= k < |d| && d[k] == r;
      PerOriginMember(d, k);
      LogFacts(s, a, r.origin);
    }
    CountByOrigin(d, s.peers);
    var f: Addr -> nat := o => |PerOrigin(d, o)|;
    forall o | o in s.peers
      ensures f(o) <= CreatedCount(s.created)(o)
      ensures o == a ==> f(o) == 0
    {
      LogFacts(s, a, o);
    }
    SumRaise(s.peers, f, CreatedCount(s.created), a, |CreatedBy(s.created, a)|);
  }

  /** If every share leaves c(x) of the total t untouched, the shares sum to at most |xs| t minus the c(x). */
  lemma {:induction false} SumOfRests(xs: seq<Addr>, f: Addr -> nat, c: Addr -> nat, t: nat)
    requires forall x :: x in xs ==> f(x) + c(x) <= t
    ensures Sum(xs, f) + Sum(xs, c) <= |xs| * t
  {
    if xs != [] {
      var k := |xs| - 1;
      SumOfRests(xs[..k], f, c, t);
      assert xs[k] in xs;
      assert |xs| * t == k * t + t;
    }
  }

  lemma OneLess(n: nat, t: nat)
    ensures (n - 1) * t == n * t - t
  {
  }

  /**
   * No rumor storm: over every run, with loss and duplication, the Relay sends number at most the
   * rumor acceptances, which number at most (nodes - 1) times the rumors ever created.
   */
  lemma NoRumorStorm(s0: Network, steps: seq<Step>)
    requires Init(s0) && ValidRun(s0, steps)
    ensures var s := Exec(s0, steps);
            var acceptances := Sum(s.peers, Acceptances(s));
            && s.relays <= acceptances
            && (s.peers != [] ==> acceptances <= (|s.peers| - 1) * Sum(s.peers, CreatedCount(s.created)))
  {
    ReachableInv(s0, steps);
    InitInv(s0);
    RelaysRun(s0, steps);
    var s := Exec(s0, steps);
    var t := Sum(s.peers, CreatedCount(s.created));
    forall a | a in s.peers
      ensures Acceptances(s)(a) + CreatedCount(s.created)(a) <= t
    {
      AcceptedAtMost(s, a);
    }
    SumOfRests(s.peers, Acceptances(s), CreatedCount(s.created), t);
    if s.peers != [] {
      OneLess(|s.peers|, t);
    }
  }
}
