/**
 * What deliveries alone bring about: a gap is repaired by the acknowledgement that reports it, a
 * broadcast can travel along any path of up-to-date nodes, and a status along any path of agreeing ones.
 */
module Spreading {
  import opened Basics
  import opened Messages
  import opened Replicas
  import opened GossipNode
  import opened GossipNetwork
  import opened Routing
  import opened Quiescence
  import opened Rounds
  import opened Convergence
  import opened Relaying

  // ---- runs of deliveries ----

  ghost predicate DeliverRun(s: Network, steps: seq<Step>)
  {
    ValidRun(s, steps) && forall step :: step in steps ==> step.Deliver?
  }

  lemma OneStepRun(s: Network, step: Step)
    requires Enabled(s, step)
    ensures ValidRun(s, [step]) && Exec(s, [step]) == Apply(s, step)
  {
    assert [step][..0] == [];
  }

  lemma {:induction false} RunsJoin(s: Network, xs: seq<Step>, ys: seq<Step>)
    requires ValidRun(s, xs) && ValidRun(Exec(s, xs), ys)
    ensures ValidRun(s, xs + ys) && Exec(s, xs + ys) == Exec(Exec(s, xs), ys)
  {
    if ys == [] {
      assert xs + ys == xs;
    } else {
      var n := |ys| - 1;
      RunsJoin(s, xs, ys[..n]);
      OneMore(s, xs + ys[..n], ys[n]);
      ConcatLast(xs, ys);
    }
  }

  lemma MoreDeliveries(s: Network, xs: seq<Step>, ys: seq<Step>)
    requires DeliverRun(s, xs) && DeliverRun(Exec(s, xs), ys)
    ensures DeliverRun(s, xs + ys) && Exec(s, xs + ys) == Exec(Exec(s, xs), ys)
  {
    RunsJoin(s, xs, ys);
  }

  lemma OneIsDelivery(s: Network, steps: seq<Step>)
    requires ValidRun(s, steps) && |steps| == 1 && steps[0].Deliver?
    ensures DeliverRun(s, steps)
  {
  }

  lemma SomeChoice(s: Network, i: nat) returns (c: Choice)
    requires Inv(s) && i < |s.net| && s.net[i].sentTo in s.nodes
    ensures Enabled(s, Deliver(i, c))
  {
    CanDeliver(s, i);
    c :| Enabled(s, Deliver(i, c)) && Quiet(s, Deliver(i, c));
  }

  // ---- a gap is repaired ----

  /** The acknowledgement that b, with these counters, returns to a hop. */
  function AckOf(b: Addr, hop: Addr, counters: StatusMessage): Packet
  {
    Packet(b, b, hop, hop, AckMessage(counters))
  }

  lemma AckSent(s: Network, i: nat, c: Choice, b: Addr)
    requires Inv(s) && Arrives(s, i, b) && s.net[i].msg.RumorsMessage? && s.net[i].source != b
    requires Enabled(s, Deliver(i, c))
    ensures var s' := Apply(s, Deliver(i, c));
            && b in s'.nodes && s'.net != []
            && s'.net[|s'.net| - 1] == AckOf(b, s.net[i].relayedBy, s'.nodes[b].replica.counters)
  {
    RumorsDelivered(s, i, c, b);
  }

  /**
   * In every run, with any loss, duplication and other traffic: once b has received a rumors message from
   * a hop, its acknowledgement is in flight; and if that is delivered, and so are the missing rumors with
   * which the hop answers it, b is at least where the hop then was. So every rumor of the message that b
   * had to refuse because of a gap, and that the hop has accepted, is then at b.
   */
  lemma GapRepaired(s: Network, steps: seq<Step>, j: nat, c: Choice, b: Addr, p: Packet,
                    k: nat, c': Choice, q: Packet)
    requires Inv(s) && Honest(s.net, s.nodes) && ValidRun(s, steps) && b in s.nodes
    requires DeliveredAt(s, steps, j, p, c) && p.msg.RumorsMessage? && p.sentTo == p.destination == b != p.source
    requires ValidRun(s, steps[..j + 1]) && b in Exec(s, steps[..j + 1]).nodes
    requires q == AckOf(b, p.relayedBy, Exec(s, steps[..j + 1]).nodes[b].replica.counters)
    requires j < k && Answered(s, steps, b, p.relayedBy, k, q, c')
    ensures q in Exec(s, steps[..j + 1]).net
    ensures b in Exec(s, steps).nodes
    ensures var hop := Exec(s, steps[..k]).nodes[p.relayedBy].replica.counters;
            var last := Exec(s, steps).nodes[b].replica.counters;
            && AtMost(hop, last)
            && forall r :: r in p.msg.rumors && r.sequence <= SeqOf(hop, r.origin) ==>
                 r.sequence <= SeqOf(last, r.origin)
  {
    StateAt(s, steps, j);
    NextState(s, steps, j);
    AckSent(Exec(s, steps[..j]), steps[j].i, c, b);
    AnsweredReaches(s, steps, b, p.relayedBy, k, q, c');
  }

  /** A current acknowledgement of b is in flight to the hop. */
  ghost predicate Acknowledging(t: Network, i: nat, b: Addr, hop: Addr)
  {
    && i < |t.net| && b in t.nodes && hop in t.nodes
    && t.net[i] == AckOf(b, hop, t.nodes[b].replica.counters)
  }

  lemma AckAfter(s: Network, i: nat, c: Choice, b: Addr) returns (first: seq<Step>, j: nat)
    requires Inv(s) && Arrives(s, i, b) && s.net[i].msg.RumorsMessage?
    requires s.net[i].source != b && Enabled(s, Deliver(i, c))
    ensures first == [Deliver(i, c)] && DeliverRun(s, first)
    ensures Acknowledging(Exec(s, first), j, b, s.net[i].relayedBy)
  {
    first := [Deliver(i, c)];
    j := |Apply(s, Deliver(i, c)).net| - 1;
    OneStepRun(s, Deliver(i, c));
    AckSent(s, i, c, b);
    HopKnown(s, i);
  }

  lemma HopKnown(s: Network, i: nat)
    requires Inv(s) && i < |s.net|
    ensures s.net[i].relayedBy in s.nodes
  {
    assert PacketInv(s.net[i], s.created);
  }

  /** Deliveries alone can do it: after the message at most two more, and no timer. */
  lemma GapCanBeRepaired(s: Network, i: nat, c: Choice, b: Addr) returns (first: seq<Step>, steps: seq<Step>)
    requires Inv(s) && Arrives(s, i, b) && s.net[i].msg.RumorsMessage?
    requires s.net[i].source != b && Enabled(s, Deliver(i, c))
    ensures first == [Deliver(i, c)] && |steps| <= 2 && DeliverRun(s, first) && DeliverRun(s, first + steps)
    ensures var t, u := Exec(s, first), Exec(s, first + steps);
            var hop := s.net[i].relayedBy;
            && hop in t.nodes && b in u.nodes
            && AtMost(t.nodes[hop].replica.counters, u.nodes[b].replica.counters)
  {
    var j;
    first, j := AckAfter(s, i, c, b);
    RunInv(s, first);
    steps := AnswerToAck(Exec(s, first), j, b, s.net[i].relayedBy);
    MoreDeliveries(s, first, steps);
  }

  lemma AnswerToAck(t: Network, i: nat, b: Addr, hop: Addr) returns (steps: seq<Step>)
    requires Inv(t) && Acknowledging(t, i, b, hop)
    ensures |steps| <= 2 && DeliverRun(t, steps) && b in Exec(t, steps).nodes
    ensures AtMost(t.nodes[hop].replica.counters, Exec(t, steps).nodes[b].replica.counters)
  {
    if Ahead(t.nodes[hop].replica.counters, t.nodes[b].replica.counters) {
      steps := AnswerTaken(t, i, b, hop);
    } else {
      steps := [];
      NotAhead(t.nodes[hop].replica.counters, t.nodes[b].replica.counters);
    }
  }

  lemma AnswerTaken(t: Network, i: nat, b: Addr, hop: Addr) returns (steps: seq<Step>)
    requires Inv(t) && Acknowledging(t, i, b, hop)
    requires Ahead(t.nodes[hop].replica.counters, t.nodes[b].replica.counters)
    ensures |steps| == 2 && DeliverRun(t, steps) && b in Exec(t, steps).nodes
    ensures AtMost(t.nodes[hop].replica.counters, Exec(t, steps).nodes[b].replica.counters)
  {
    var out, delta := AckAnswered(t, i, b, hop);
    var u := Exec(t, out);
    var take := TakeIn(u, b, hop, t.nodes[b].replica.counters, delta);
    OneIsDelivery(u, take);
    MoreDeliveries(t, out, take);
    steps := out + take;
  }

  /** The hop answers with the rumors that b lacks. */
  lemma AckAnswered(t: Network, i: nat, b: Addr, hop: Addr) returns (steps: seq<Step>, delta: seq<Rumor>)
    requires Inv(t) && Acknowledging(t, i, b, hop)
    requires Ahead(t.nodes[hop].replica.counters, t.nodes[b].replica.counters)
    ensures |steps| == 1 && DeliverRun(t, steps) && Inv(Exec(t, steps)) && Exec(t, steps).nodes == t.nodes
    ensures ShippedTo(Exec(t, steps), b, hop, t.nodes[b].replica.counters, delta)
  {
    var status := t.nodes[b].replica.counters;
    var c := StatusChoice(t, hop, status);
    delta := c.delta;
    steps := [Deliver(i, c)];
    assert NodeInv(t.nodes[hop], hop, t.created);
    LastReply(t.nodes[hop], b, status, c);
    StatusDelivered(t, i, c, hop);
    OneStepRun(t, Deliver(i, c));
    RunInv(t, steps);
  }

  // ---- a rumor is handed over ----

  /** The node got r, and only the entry of its origin and the neighbours may have changed. */
  ghost predicate Took(n: NodeState, n': NodeState, r: Rumor)
  {
    && n'.delivered == n.delivered + [r] && SeqOf(n'.replica.counters, r.origin) == r.sequence
    && n.nbrs <= n'.nbrs && forall x :: x != r.origin && DirectRoute(n, x) ==> DirectRoute(n', x)
  }

  /** y has got r, as the last of its origin, and handed it to its registry once; others are as before. */
  ghost predicate HandedOver(s: Network, s': Network, y: Addr, r: Rumor)
  {
    && y in s.nodes && y in s'.nodes && s'.nodes == s.nodes[y := s'.nodes[y]] && s'.created == s.created
    && Took(s.nodes[y], s'.nodes[y], r)
  }

  lemma TakeOne(n: NodeState, r: Rumor, relayedBy: Addr)
    requires Expected(n.replica, r)
    ensures Took(n, ExecRumors(n, [r], relayedBy), r)
  {
    assert [r][..0] == [];
  }

  lemma HandOver(s: Network, i: nat, c: Choice, y: Addr, r: Rumor)
    requires Inv(s) && Arrives(s, i, y) && Enabled(s, Deliver(i, c))
    requires s.net[i].msg == RumorsMessage([r]) && Expected(s.nodes[y].replica, r)
    ensures HandedOver(s, Apply(s, Deliver(i, c)), y, r)
  {
    assert NodeInv(s.nodes[y], y, s.created);
    TakeOne(s.nodes[y], r, s.net[i].relayedBy);
    assert Apply(s, Deliver(i, c)).nodes[y] == ExecRumors(s.nodes[y], [r], s.net[i].relayedBy);
  }

  lemma BroadcastSends(s: Network, at: Addr, msg: Payload, y: Addr) returns (r: Rumor)
    requires Inv(s) && at in s.nodes && y in s.nodes[at].nbrs && y in s.nodes
    ensures Enabled(s, Broadcast(at, msg, Some(y)))
    ensures var t := Apply(s, Broadcast(at, msg, Some(y)));
            && r.msg == msg && r.origin == at && r.sequence == |s.created[at]| + 1
            && at in t.created && t.created[at] == s.created[at] + [r] && t.net != []
            && t.net[|t.net| - 1] == Packet(at, at, y, y, RumorsMessage([r]))
            && at in t.nodes && t.nodes == s.nodes[at := t.nodes[at]]
  {
    assert NodeInv(s.nodes[at], at, s.created);
    assert WfAt(s.nodes[at].replica, at);
    r := NextRumor(s.nodes[at], msg);
  }

  /**
   * A broadcast reaches the neighbour it is sent to. If that neighbour had all that the origin created,
   * the delivery of the packet hands it exactly one more rumor, with the payload that was broadcast, and
   * it again has all that the origin created.
   */
  lemma BroadcastReaches(s: Network, at: Addr, msg: Payload, y: Addr, c: Choice)
    requires Inv(s) && at in s.nodes && y in s.nodes[at].nbrs && y != at && Has(s, y, at)
    requires Enabled(s, Broadcast(at, msg, Some(y)))
    requires Enabled(Apply(s, Broadcast(at, msg, Some(y))), Deliver(|s.net|, c))
    ensures var t := Apply(s, Broadcast(at, msg, Some(y)));
            var u := Apply(t, Deliver(|s.net|, c));
            && y in u.nodes && |u.nodes[y].delivered| == |s.nodes[y].delivered| + 1
            && u.nodes[y].delivered[..|s.nodes[y].delivered|] == s.nodes[y].delivered
            && u.nodes[y].delivered[|s.nodes[y].delivered|].msg == msg
            && u.nodes[y].delivered[|s.nodes[y].delivered|].origin == at
            && |CreatedBy(u.created, at)| == |CreatedBy(s.created, at)| + 1 && Has(u, y, at)
  {
    var r := BroadcastSends(s, at, msg, y);
    InvStep(s, Broadcast(at, msg, Some(y)));
    HandOver(Apply(s, Broadcast(at, msg, Some(y))), |s.net|, c, y, r);
  }

  /** The same for a rumor sent again, to whom it is the next. */
  lemma RetransmitReaches(s: Network, at: Addr, k: nat, y: Addr, c: Choice)
    requires Inv(s) && y in s.nodes && Enabled(s, Retransmit(at, k, Some(y)))
    requires SeqOf(s.nodes[y].replica.counters, at) == k
    requires Enabled(Apply(s, Retransmit(at, k, Some(y))), Deliver(|s.net|, c))
    ensures HandedOver(s, Apply(Apply(s, Retransmit(at, k, Some(y))), Deliver(|s.net|, c)), y, s.created[at][k])
  {
    InvStep(s, Retransmit(at, k, Some(y)));
    HandOver(Apply(s, Retransmit(at, k, Some(y))), |s.net|, c, y, s.created[at][k]);
  }

  // ---- along a path ----

  /** The first can pass a message on to the second in one hop. */
  ghost predicate DirectLink(s: Network, x: Addr, y: Addr)
  {
    x in s.nodes && y in s.nodes && y in s.nodes[x].nbrs && DirectRoute(s.nodes[x], y)
  }

  ghost predicate Chain(s: Network, path: seq<Addr>)
  {
    && path != [] && path[0] in s.nodes
    && (|path| > 1 ==> DirectLink(s, path[0], path[1]) && Chain(s, path[1..]))
  }

  lemma {:induction false} ChainNodes(s: Network, path: seq<Addr>)
    requires Chain(s, path)
    ensures forall y :: y in path ==> y in s.nodes
  {
    if |path| > 1 {
      ChainNodes(s, path[1..]);
      assert path == [path[0]] + path[1..];
    }
  }

  /** Only a node that is not on it has changed. */
  lemma {:induction false} ChainStays(s: Network, s': Network, path: seq<Addr>, x: Addr)
    requires Chain(s, path) && x !in path && x in s.nodes && x in s'.nodes && s'.nodes == s.nodes[x := s'.nodes[x]]
    ensures Chain(s', path)
  {
    if |path| > 1 {
      assert path[1] in path;
      ChainStays(s, s', path[1..], x);
    }
  }

  lemma Rest(path: seq<Addr>)
    requires |path| > 1 && Distinct(path)
    ensures Distinct(path[1..]) && path[0] !in path[1..] && forall y :: y in path <==> y == path[0] || y in path[1..]
  {
    assert path == [path[0]] + path[1..];
    forall k | 0 <= k < |path[1..]|
      ensures path[1..][k] != path[0]
    {
      assert path[1..][k] == path[k + 1];
    }
  }

  /** Each node of the path is still to get r, the next rumor of its origin. */
  ghost predicate Lack(s: Network, path: seq<Addr>, r: Rumor)
  {
    forall y :: y in path ==> y in s.nodes && SeqOf(s.nodes[y].replica.counters, r.origin) + 1 == r.sequence
  }

  /** Each node of the path has got r, and no other has changed. */
  ghost predicate AllGot(s: Network, s': Network, path: seq<Addr>, r: Rumor)
  {
    && s'.created == s.created && s'.nodes.Keys == s.nodes.Keys
    && forall y :: y in s.nodes ==>
         if y in path then GotIt(s.nodes[y], s'.nodes[y], r) else s'.nodes[y] == s.nodes[y]
  }

  predicate GotIt(n: NodeState, n': NodeState, r: Rumor)
  {
    n'.delivered == n.delivered + [r] && SeqOf(n'.replica.counters, r.origin) == r.sequence
  }

  lemma AllGotOne(s: Network, t: Network, path: seq<Addr>, r: Rumor)
    requires |path| == 1 && HandedOver(s, t, path[0], r)
    ensures AllGot(s, t, path, r)
  {
  }

  lemma AllGotMore(s: Network, t: Network, u: Network, path: seq<Addr>, r: Rumor)
    requires |path| > 1 && Distinct(path) && HandedOver(s, t, path[0], r) && AllGot(t, u, path[1..], r)
    ensures AllGot(s, u, path, r)
  {
    Rest(path);
    forall y | y in s.nodes
      ensures if y in path then GotIt(s.nodes[y], u.nodes[y], r) else u.nodes[y] == s.nodes[y]
    {
      assert y in t.nodes;
    }
  }

  /** The rumor r of `at` is in flight to the first node of a path that lacks it. */
  ghost predicate Carrying(s: Network, at: Addr, r: Rumor, path: seq<Addr>, i: nat)
  {
    && Inv(s) && Chain(s, path) && Distinct(path) && at !in path && Lack(s, path, r) && r.origin == at
    && i < |s.net| && s.net[i].source == at && s.net[i].msg == RumorsMessage([r])
    && s.net[i].sentTo == s.net[i].destination == path[0]
  }

  lemma TakenByFirst(s: Network, at: Addr, r: Rumor, path: seq<Addr>, i: nat, c: Choice)
    requires Carrying(s, at, r, path, i) && Enabled(s, Deliver(i, c))
    ensures HandedOver(s, Apply(s, Deliver(i, c)), path[0], r)
  {
    assert path[0] in path;
    HandOver(s, i, c, path[0], r);
  }

  /** The first node of the path can, by chance, pass the rumor on to the second. */
  lemma NextPicked(s: Network, at: Addr, r: Rumor, path: seq<Addr>, i: nat) returns (c: Choice)
    requires Carrying(s, at, r, path, i) && |path| > 1
    ensures c == Choice(Some(path[1]), []) && Enabled(s, Deliver(i, c))
  {
    c := Choice(Some(path[1]), []);
    assert path[0] in path && path[1] in path;
    assert NodeInv(s.nodes[path[0]], path[0], s.created);
    ExecRumorsReplica(s.nodes[path[0]], [r], s.net[i].relayedBy);
  }

  lemma PassedOn(s: Network, at: Addr, r: Rumor, path: seq<Addr>, i: nat, c: Choice) returns (j: nat)
    requires Carrying(s, at, r, path, i) && |path| > 1 && c == Choice(Some(path[1]), []) && Enabled(s, Deliver(i, c))
    ensures var t := Apply(s, Deliver(i, c));
            && HandedOver(s, t, path[0], r)
            && j < |t.net| && t.net[j].source == at && t.net[j].msg == RumorsMessage([r])
            && t.net[j].sentTo == t.net[j].destination == path[1]
  {
    assert path[0] in path && path[1] in path;
    TakenByFirst(s, at, r, path, i, c);
    RumorsDelivered(s, i, c, path[0]);
    j := |RemoveAt(s.net, i)|;
  }

  lemma CarryingOn(s: Network, t: Network, at: Addr, r: Rumor, path: seq<Addr>, i: nat, j: nat)
    requires Carrying(s, at, r, path, i) && |path| > 1 && Inv(t) && HandedOver(s, t, path[0], r)
    requires j < |t.net| && t.net[j].source == at && t.net[j].msg == RumorsMessage([r])
    requires t.net[j].sentTo == t.net[j].destination == path[1]
    ensures Carrying(t, at, r, path[1..], j)
  {
    Rest(path);
    ChainStays(s, t, path[1..], path[0]);
  }

  lemma PassStep(s: Network, at: Addr, r: Rumor, path: seq<Addr>, i: nat) returns (steps: seq<Step>, j: nat)
    requires Carrying(s, at, r, path, i) && |path| > 1
    ensures |steps| == 1 && DeliverRun(s, steps) && HandedOver(s, Exec(s, steps), path[0], r)
    ensures Carrying(Exec(s, steps), at, r, path[1..], j)
  {
    var c := NextPicked(s, at, r, path, i);
    j := PassedOn(s, at, r, path, i, c);
    InvStep(s, Deliver(i, c));
    CarryingOn(s, Apply(s, Deliver(i, c)), at, r, path, i, j);
    OneStepRun(s, Deliver(i, c));
    steps := [Deliver(i, c)];
  }

  lemma LastPass(s: Network, at: Addr, r: Rumor, path: seq<Addr>, i: nat) returns (steps: seq<Step>)
    requires Carrying(s, at, r, path, i) && |path| == 1
    ensures |steps| == 1 && DeliverRun(s, steps) && AllGot(s, Exec(s, steps), path, r)
  {
    assert path[0] in path;
    var c := SomeChoice(s, i);
    TakenByFirst(s, at, r, path, i, c);
    AllGotOne(s, Apply(s, Deliver(i, c)), path, r);
    OneStepRun(s, Deliver(i, c));
    steps := [Deliver(i, c)];
  }

  /** A rumor in flight to the first node of a path can be passed on to all of it by deliveries alone. */
  lemma {:induction false} PassOn(s: Network, at: Addr, r: Rumor, path: seq<Addr>, i: nat) returns (steps: seq<Step>)
    requires Carrying(s, at, r, path, i)
    ensures DeliverRun(s, steps) && |steps| == |path| && AllGot(s, Exec(s, steps), path, r)
    decreases |path|
  {
    if |path| == 1 {
      steps := LastPass(s, at, r, path, i);
    } else {
      var first, j := PassStep(s, at, r, path, i);
      var rest := PassOn(Exec(s, first), at, r, path[1..], j);
      MoreDeliveries(s, first, rest);
      AllGotMore(s, Exec(s, first), Exec(s, first + rest), path, r);
      steps := first + rest;
    }
  }

  /** The node holds all of the origin's rumors, and has got r since. */
  ghost predicate Gained(s: Network, u: Network, y: Addr, at: Addr, r: Rumor)
  {
    && y in s.nodes && y in u.nodes && Has(u, y, at)
    && u.nodes[y].delivered == s.nodes[y].delivered + [r]
  }

  lemma PathHas(s: Network, t: Network, u: Network, path: seq<Addr>, at: Addr, r: Rumor)
    requires AllGot(t, u, path, r) && r.origin == at && r.sequence == |CreatedBy(t.created, at)|
    requires forall y :: y in path ==> y in s.nodes && y in t.nodes && t.nodes[y] == s.nodes[y]
    ensures forall y :: y in path ==> Gained(s, u, y, at, r)
  {
    forall y | y in path
      ensures Gained(s, u, y, at, r)
    {
      assert GotIt(t.nodes[y], u.nodes[y], r);
    }
  }

  /** What the broadcast makes of the network, except for the invariant. */
  ghost predicate Started(s: Network, t: Network, at: Addr, r: Rumor, i: nat, y: Addr)
  {
    && at in s.nodes && at in t.nodes && t.nodes == s.nodes[at := t.nodes[at]]
    && r.origin == at && r.sequence == |CreatedBy(t.created, at)|
    && CreatedBy(t.created, at) == CreatedBy(s.created, at) + [r]
    && i < |t.net| && t.net[i] == Packet(at, at, y, y, RumorsMessage([r]))
  }

  lemma BroadcastStarts(s: Network, at: Addr, msg: Payload, y: Addr)
    returns (first: seq<Step>, r: Rumor, i: nat)
    requires Inv(s) && at in s.nodes && y in s.nodes[at].nbrs && y in s.nodes
    ensures first == [Broadcast(at, msg, Some(y))] && ValidRun(s, first)
    ensures r.msg == msg && Started(s, Exec(s, first), at, r, i, y)
  {
    first, i := [Broadcast(at, msg, Some(y))], |s.net|;
    r := BroadcastSends(s, at, msg, y);
    OneStepRun(s, Broadcast(at, msg, Some(y)));
  }

  /** The path is as it was before, and the rumor is on its way to its first node. */
  lemma StartsCarrying(s: Network, t: Network, at: Addr, r: Rumor, path: seq<Addr>, i: nat)
    requires Inv(t) && Chain(s, path) && Distinct(path) && at !in path && Started(s, t, at, r, i, path[0])
    requires forall y :: y in path ==> Has(s, y, at)
    ensures Carrying(t, at, r, path, i) && forall y :: y in path ==> y in t.nodes && t.nodes[y] == s.nodes[y]
  {
    ChainNodes(s, path);
    ChainStays(s, t, path, at);
    assert forall y :: y in path ==> Has(s, y, at);
  }

  /**
   * A broadcast can travel. Along any path of directly routed links, without repeats and not back to the
   * origin, whose nodes have all that the origin created so far, the broadcast and one delivery per node
   * can bring the payload to every node of the path; each hands it to its registry once and then again
   * has all that the origin created.
   */
  lemma BroadcastTravels(s: Network, at: Addr, msg: Payload, path: seq<Addr>) returns (steps: seq<Step>, r: Rumor)
    requires Inv(s) && at in s.nodes && Chain(s, path) && Distinct(path) && at !in path
    requires path[0] in s.nodes[at].nbrs && forall y :: y in path ==> Has(s, y, at)
    ensures |steps| == |path| && forall step :: step in steps ==> step.Deliver?
    ensures ValidRun(s, [Broadcast(at, msg, Some(path[0]))] + steps)
    ensures var u := Exec(s, [Broadcast(at, msg, Some(path[0]))] + steps);
            && r.msg == msg && CreatedBy(u.created, at) == CreatedBy(s.created, at) + [r]
            && forall y :: y in path ==> Gained(s, u, y, at, r)
  {
    var first, i;
    ChainNodes(s, path);
    first, r, i := BroadcastStarts(s, at, msg, path[0]);
    RunInv(s, first);
    StartsCarrying(s, Exec(s, first), at, r, path, i);
    steps := PassOn(Exec(s, first), at, r, path, i);
    RunsJoin(s, first, steps);
    PathHas(s, Exec(s, first), Exec(s, first + steps), path, at, r);
  }

  // ---- mongering ----

  /** A path of neighbours, all but the last with these counters. */
  ghost predicate Agreeing(s: Network, path: seq<Addr>, status: StatusMessage)
  {
    && path != [] && path[0] in s.nodes
    && (|path| > 1 ==>
          && path[1] in s.nodes[path[0]].nbrs && SameCounters(s.nodes[path[0]].replica.counters, status)
          && Agreeing(s, path[1..], status))
  }

  /** A status with these counters is in flight to y. */
  ghost predicate StatusFor(s: Network, i: nat, y: Addr, status: StatusMessage)
  {
    && i < |s.net| && s.net[i].sentTo == s.net[i].destination == y && s.net[i].msg.StatusUpdate?
    && SameCounters(s.net[i].msg.status, status)
  }

  /** A status is in flight to the first node of a path on which it can travel. */
  ghost predicate Mongering(s: Network, i: nat, status: StatusMessage, path: seq<Addr>)
  {
    && Inv(s) && Agreeing(s, path, status) && Distinct(path) && StatusFor(s, i, path[0], status)
    && (|path| > 1 ==> s.net[i].source != path[1])
  }

  lemma MongerNext(s: Network, i: nat, status: StatusMessage, y: Addr, next: Addr) returns (c: Choice)
    requires Inv(s) && y in s.nodes && next in s.nodes[y].nbrs && StatusFor(s, i, y, status)
    requires s.net[i].source != next && SameCounters(s.nodes[y].replica.counters, status)
    ensures Enabled(s, Deliver(i, c))
    ensures var t := Apply(s, Deliver(i, c));
            && t.nodes == s.nodes && t.net != [] && t.net[|t.net| - 1].source == y
            && StatusFor(t, |t.net| - 1, next, status)
  {
    var n, p := s.nodes[y], s.net[i];
    assert NodeInv(n, y, s.created);
    var delta := DeltaExists(n.replica, p.msg.status);
    c := Choice(Some(next), delta);
    StatusDelivered(s, i, c, y);
  }

  lemma MongeringOn(s: Network, t: Network, i: nat, j: nat, status: StatusMessage, path: seq<Addr>)
    requires Mongering(s, i, status, path) && |path| > 1 && Inv(t) && t.nodes == s.nodes
    requires StatusFor(t, j, path[1], status) && t.net[j].source == path[0]
    ensures Mongering(t, j, status, path[1..])
  {
    Rest(path);
    AgreeingStays(s, t, path[1..], status);
    if |path| > 2 {
      assert path[2] in path[1..] by {
        assert path[1..][1] == path[2];
      }
    }
  }

  lemma MongerStep(s: Network, i: nat, status: StatusMessage, path: seq<Addr>)
    returns (steps: seq<Step>, j: nat)
    requires Mongering(s, i, status, path) && |path| > 1
    ensures |steps| == 1 && DeliverRun(s, steps) && Exec(s, steps).nodes == s.nodes
    ensures Mongering(Exec(s, steps), j, status, path[1..])
  {
    var c := MongerNext(s, i, status, path[0], path[1]);
    var t := Apply(s, Deliver(i, c));
    InvStep(s, Deliver(i, c));
    j := |t.net| - 1;
    MongeringOn(s, t, i, j, status, path);
    OneStepRun(s, Deliver(i, c));
    steps := [Deliver(i, c)];
  }

  /**
   * Mongering can travel. A status in flight can be carried on, by deliveries alone, along any path of
   * neighbours without repeats and not straight back, as long as all but the last node have the counters
   * that it reports; it is then in flight to the last, and no node has changed.
   */
  lemma {:induction false} MongerTravels(s: Network, i: nat, status: StatusMessage, path: seq<Addr>)
    returns (steps: seq<Step>, j: nat)
    requires Mongering(s, i, status, path)
    ensures DeliverRun(s, steps) && |steps| == |path| - 1 && Exec(s, steps).nodes == s.nodes
    ensures StatusFor(Exec(s, steps), j, path[|path| - 1], status)
    decreases |path|
  {
    if |path| == 1 {
      steps, j := [], i;
    } else {
      var first, k := MongerStep(s, i, status, path);
      var rest;
      rest, j := MongerTravels(Exec(s, first), k, status, path[1..]);
      MoreDeliveries(s, first, rest);
      steps := first + rest;
    }
  }

  lemma {:induction false} AgreeingStays(s: Network, t: Network, path: seq<Addr>, status: StatusMessage)
    requires Agreeing(s, path, status) && t.nodes == s.nodes
    ensures Agreeing(t, path, status)
  {
    if |path| > 1 {
      AgreeingStays(s, t, path[1..], status);
    }
  }
}
