/**
 * Anti-entropy between two nodes of the network computes a join: once one node's status is on its way
 * to the other, any loss-free handling of the packets between the two, in any order and with copies,
 * ends with both holding the longer of their two original logs for every origin.
 */
module Exchange {
  import opened Basics
  import opened Messages
  import opened Replicas
  import opened GossipNode
  import opened GossipNetwork
  import opened Quiescence

  /** The two nodes, their counters at the start, and what the origins had created by then. */
  datatype Pair = Pair(a: Addr, b: Addr, a0: StatusMessage, b0: StatusMessage, created: map<Addr, seq<Rumor>>)

  predicate IsEnd(e: Pair, x: Addr) { x == e.a || x == e.b }

  function Other(e: Pair, x: Addr): Addr { if x == e.a then e.b else e.a }

  function Orig(e: Pair, x: Addr): StatusMessage { if x == e.a then e.a0 else e.b0 }

  function Hi(e: Pair, o: Addr): nat { Max(SeqOf(e.a0, o), SeqOf(e.b0, o)) }

  function Lo(e: Pair, o: Addr): nat { Min(SeqOf(e.a0, o), SeqOf(e.b0, o)) }

  /** What one node has of an origin beyond the other at the start. */
  function Gap(e: Pair, o: Addr): seq<Rumor>
  {
    if Hi(e, o) <= |CreatedBy(e.created, o)| then CreatedBy(e.created, o)[Lo(e, o)..Hi(e, o)] else []
  }

  /** Sent by one end to the other. */
  predicate Inside(e: Pair, p: Packet)
  {
    IsEnd(e, p.relayedBy) && p.sentTo == Other(e, p.relayedBy)
  }

  // ---- the invariant of an exchange ----

  predicate ReachedAt(e: Pair, x: Addr, status: StatusMessage, o: Addr)
  {
    SeqOf(status, o) == SeqOf(Orig(e, x), o) || SeqOf(status, o) == Hi(e, o)
  }

  /** Per origin, x is either where it started or at the join. */
  ghost predicate Reached(e: Pair, x: Addr, status: StatusMessage)
  {
    forall o :: ReachedAt(e, x, status, o)
  }

  predicate GapOrNothing(e: Pair, rs: seq<Rumor>, o: Addr)
  {
    PerOrigin(rs, o) == [] || PerOrigin(rs, o) == Gap(e, o)
  }

  ghost predicate Good(e: Pair, p: Packet)
  {
    Inside(e, p) ==>
      if p.msg.RumorsMessage? then forall o :: GapOrNothing(e, p.msg.rumors, o)
      else p.source == p.relayedBy && p.destination == p.sentTo && Reached(e, p.source, p.msg.status)
  }

  ghost predicate AllGood(e: Pair, net: seq<Packet>)
  {
    forall p :: p in net ==> Good(e, p)
  }

  predicate Lacking(e: Pair, x: Addr, status: StatusMessage, o: Addr)
  {
    SeqOf(status, o) == SeqOf(Orig(e, x), o) < Hi(e, o)
  }

  /** The packet leads to x getting what it lacks of o: a status either way, or the gap itself. */
  predicate Helps(e: Pair, p: Packet, x: Addr, o: Addr)
  {
    Inside(e, p) &&
    (p.msg.RumorsMessage? ==> p.sentTo == x && p.destination == x && PerOrigin(p.msg.rumors, o) == Gap(e, o))
  }

  ghost predicate Helped(e: Pair, net: seq<Packet>, x: Addr, o: Addr)
  {
    exists p :: p in net && Helps(e, p, x, o)
  }

  ghost predicate Progress(e: Pair, net: seq<Packet>, x: Addr, status: StatusMessage)
  {
    forall o :: Lacking(e, x, status, o) ==> Helped(e, net, x, o)
  }

  ghost predicate Ends(e: Pair, s: Network)
  {
    && e.a != e.b && e.a in s.nodes && e.b in s.nodes && s.created == e.created
    && (forall o :: Hi(e, o) <= |CreatedBy(e.created, o)|)
  }

  ghost predicate ExInv(e: Pair, s: Network)
  {
    && Inv(s) && Honest(s.net, s.nodes) && Ends(e, s)
    && Reached(e, e.a, s.nodes[e.a].replica.counters) && Reached(e, e.b, s.nodes[e.b].replica.counters)
    && AllGood(e, s.net)
    && Progress(e, s.net, e.a, s.nodes[e.a].replica.counters)
    && Progress(e, s.net, e.b, s.nodes[e.b].replica.counters)
  }

  /** The exchange starts when a's status is on its way to b and nothing else is between the two. */
  ghost predicate Start(e: Pair, s: Network)
  {
    && Inv(s) && Honest(s.net, s.nodes)
    && e.a != e.b && e.a in s.nodes && e.b in s.nodes && s.created == e.created
    && e.a0 == s.nodes[e.a].replica.counters && e.b0 == s.nodes[e.b].replica.counters
    && Direct(s.nodes[e.a], e.b, StatusUpdate(e.a0)) in s.net
    && forall p :: p in s.net && Inside(e, p) ==> p == Direct(s.nodes[e.a], e.b, StatusUpdate(e.a0))
  }

  lemma StartInv(e: Pair, s: Network)
    requires Start(e, s)
    ensures ExInv(e, s)
  {
    forall o
      ensures Hi(e, o) <= |CreatedBy(e.created, o)|
    {
      LogFacts(s, e.a, o);
      LogFacts(s, e.b, o);
    }
    assert Reached(e, e.a, e.a0) && Reached(e, e.b, e.b0);
    var first := Direct(s.nodes[e.a], e.b, StatusUpdate(e.a0));
    assert NodeInv(s.nodes[e.a], e.a, s.created);
    forall x, o | IsEnd(e, x)
      ensures Helped(e, s.net, x, o)
    {
      assert first in s.net && Helps(e, first, x, o);
    }
  }

  // ---- a status arrives ----

  /** What the invariant says about one end and one origin. */
  lemma EndFacts(e: Pair, s: Network, x: Addr, o: Addr)
    requires ExInv(e, s) && IsEnd(e, x)
    ensures x in s.nodes && s.nodes[x].addr == x && Wf(s.nodes[x].replica) && WfAt(s.nodes[x].replica, o)
    ensures LogOf(s.nodes[x].replica, o) <= CreatedBy(e.created, o) && Hi(e, o) <= |CreatedBy(e.created, o)|
    ensures ReachedAt(e, x, s.nodes[x].replica.counters, o)
  {
    LogFacts(s, x, o);
    assert NodeInv(s.nodes[x], x, s.created);
    assert Reached(e, x, s.nodes[x].replica.counters);
  }

  /** What y ships in answer to x's status is, per origin, the gap or nothing; it is the gap if x lacks o. */
  lemma DeltaIsGap(e: Pair, s: Network, y: Addr, status: StatusMessage, delta: seq<Rumor>, o: Addr)
    requires ExInv(e, s) && IsEnd(e, y)
    requires ReachedAt(e, Other(e, y), status, o)
    requires IsDelta(s.nodes[y].replica, status, delta)
    ensures GapOrNothing(e, delta, o)
    ensures SeqOf(status, o) == SeqOf(Orig(e, Other(e, y)), o) < Hi(e, o)
            ==> PerOrigin(delta, o) == Gap(e, o) && SeqOf(status, o) < SeqOf(s.nodes[y].replica.counters, o)
  {
    EndFacts(e, s, y, o);
    MissingIsGap(LogOf(s.nodes[y].replica, o), CreatedBy(e.created, o), SeqOf(Orig(e, y), o),
                 SeqOf(Orig(e, Other(e, y)), o), SeqOf(status, o));
    assert PerOrigin(delta, o) == Missing(s.nodes[y].replica, status, o);
  }

  lemma MissingIsGap(log: seq<Rumor>, full: seq<Rumor>, mine0: nat, theirs0: nat, st: nat)
    requires log <= full && Max(mine0, theirs0) <= |full|
    requires |log| == mine0 || |log| == Max(mine0, theirs0)
    requires st == theirs0 || st == Max(mine0, theirs0)
    ensures st >= |log| || log[st..] == full[Min(mine0, theirs0)..Max(mine0, theirs0)]
    ensures st == theirs0 < Max(mine0, theirs0) ==> st < |log|
  {
    if st < |log| {
      assert log[st..] == full[st..|log|];
    }
  }

  lemma RepliesGood(e: Pair, n: NodeState, source: Addr, status: StatusMessage, c: Choice)
    requires e.a != e.b && IsEnd(e, n.addr) && source == Other(e, n.addr)
    requires Reached(e, n.addr, n.replica.counters)
    requires forall o :: GapOrNothing(e, c.delta, o)
    requires c.nbr.Some? ==> c.nbr.value != source
    ensures AllGood(e, StatusReplies(n, source, status, c))
  {
    assert Good(e, Direct(n, source, StatusUpdate(n.replica.counters)));
    assert Good(e, Direct(n, source, RumorsMessage(c.delta)));
  }

  lemma StatusRepliesGood(e: Pair, s: Network, y: Addr, p: Packet, c: Choice)
    requires ExInv(e, s) && IsEnd(e, y)
    requires Inside(e, p) && Good(e, p) && p.sentTo == y && !p.msg.RumorsMessage?
    requires ValidChoice(s.nodes[y], p, c)
    ensures p.destination == s.nodes[y].addr
    ensures AllGood(e, StatusReplies(s.nodes[y], p.source, p.msg.status, c))
  {
    var n := s.nodes[y];
    assert NodeInv(n, y, s.created);
    assert Reached(e, y, n.replica.counters);
    forall o
      ensures GapOrNothing(e, c.delta, o)
    {
      assert ReachedAt(e, p.source, p.msg.status, o);
      DeltaIsGap(e, s, y, p.msg.status, c.delta, o);
    }
    RepliesGood(e, n, p.source, p.msg.status, c);
  }

  /** y's answers help whichever end still lacks something, so p itself is no longer needed. */
  lemma StatusRepliesHelp(e: Pair, s: Network, y: Addr, p: Packet, c: Choice, x: Addr, o: Addr)
    requires ExInv(e, s) && IsEnd(e, y) && IsEnd(e, x)
    requires p in s.net && Inside(e, p) && Good(e, p) && p.sentTo == y && !p.msg.RumorsMessage?
    requires ValidChoice(s.nodes[y], p, c) && p.destination == s.nodes[y].addr == y
    requires Lacking(e, x, s.nodes[x].replica.counters, o)
    ensures Helped(e, StatusReplies(s.nodes[y], p.source, p.msg.status, c), x, o)
  {
    var n := s.nodes[y];
    var mine := n.replica.counters;
    var replies := StatusReplies(n, p.source, p.msg.status, c);
    assert ReachedAt(e, p.source, p.msg.status, o);
    if x == y {
      assert SeqOf(mine, o) < SeqOf(p.msg.status, o);
      assert Ahead(p.msg.status, mine);
      assert replies[0] == Direct(n, p.source, StatusUpdate(mine));
      assert replies[0] in replies && Helps(e, replies[0], x, o);
    } else {
      assert HonestPacket(p, s.nodes);
      assert SeqOf(p.msg.status, o) <= SeqOf(s.nodes[x].replica.counters, o);
      DeltaIsGap(e, s, y, p.msg.status, c.delta, o);
      assert Ahead(mine, p.msg.status);
      var q := Direct(n, p.source, RumorsMessage(c.delta));
      assert q in replies && Helps(e, q, x, o);
    }
  }

  // ---- rumors arrive ----

  /** Rumors that hold the gap or nothing of an origin bring y to the join there or leave it. */
  lemma {:induction false} GapArrives(e: Pair, s: Network, y: Addr, rs: seq<Rumor>, o: Addr)
    requires ExInv(e, s) && IsEnd(e, y) && GapOrNothing(e, rs, o)
    ensures y in s.nodes
    ensures ReachedAt(e, y, AcceptAll(s.nodes[y].replica, rs).counters, o)
    ensures PerOrigin(rs, o) == Gap(e, o) || SeqOf(s.nodes[y].replica.counters, o) == Hi(e, o)
            ==> SeqOf(AcceptAll(s.nodes[y].replica, rs).counters, o) == Hi(e, o)
  {
    GapReady(e, s, y, rs, o);
    GapTaken(e, s.nodes[y].replica, rs, SeqOf(Orig(e, y), o), o);
  }

  /** The gap is numbered, and the replica, which started at one of its ends, is there or at the far end. */
  ghost predicate ReadyFor(e: Pair, r: Replica, rs: seq<Rumor>, orig: nat, o: Addr)
  {
    && Wf(r) && GapOrNothing(e, rs, o) && |Gap(e, o)| == Hi(e, o) - Lo(e, o)
    && (forall k :: 0 <= k < |Gap(e, o)| ==> Gap(e, o)[k].sequence == Lo(e, o) + k + 1)
    && (orig == Lo(e, o) || orig == Hi(e, o))
    && (SeqOf(r.counters, o) == orig || SeqOf(r.counters, o) == Hi(e, o))
  }

  lemma GapReady(e: Pair, s: Network, y: Addr, rs: seq<Rumor>, o: Addr)
    requires ExInv(e, s) && IsEnd(e, y) && GapOrNothing(e, rs, o)
    ensures y in s.nodes && ReadyFor(e, s.nodes[y].replica, rs, SeqOf(Orig(e, y), o), o)
  {
    EndFacts(e, s, y, o);
    GapNumbered(e, s, o);
  }

  /** The same for a replica, with what is known of it spelt out. */
  lemma GapTaken(e: Pair, r: Replica, rs: seq<Rumor>, orig: nat, o: Addr)
    requires ReadyFor(e, r, rs, orig, o)
    ensures var after := SeqOf(AcceptAll(r, rs).counters, o);
            && (after == orig || after == Hi(e, o))
            && (PerOrigin(rs, o) == Gap(e, o) || SeqOf(r.counters, o) == Hi(e, o) ==> after == Hi(e, o))
  {
    AcceptAllPerOrigin(r, rs, o);
    AcceptAllWf(r, rs);
    assert WfAt(AcceptAll(r, rs), o) && WfAt(r, o);
    GapLengthens(LogOf(r, o), Gap(e, o), PerOrigin(rs, o), Lo(e, o), orig);
  }

  /** A log that starts at one end of the gap stays there or ends up at the far end. */
  lemma GapLengthens(log: seq<Rumor>, gap: seq<Rumor>, rs: seq<Rumor>, from: nat, orig: nat)
    requires forall k :: 0 <= k < |gap| ==> gap[k].sequence == from + k + 1
    requires rs == [] || rs == gap
    requires orig == from || orig == from + |gap|
    requires |log| == orig || |log| == from + |gap|
    ensures |Extend(log, rs)| == orig || |Extend(log, rs)| == from + |gap|
    ensures rs == gap || |log| == from + |gap| ==> |Extend(log, rs)| == from + |gap|
  {
    ExtendSegment(log, gap, from);
  }

  lemma GapNumbered(e: Pair, s: Network, o: Addr)
    requires ExInv(e, s)
    ensures forall k :: 0 <= k < |Gap(e, o)| ==> Gap(e, o)[k].sequence == Lo(e, o) + k + 1
  {
    assert o in s.created ==> Numbered(s.created[o], o);
  }

  /** Wherever the rumors hold the gap or nothing, y stays or joins. */
  lemma RumorsReach(e: Pair, s: Network, y: Addr, rs: seq<Rumor>)
    requires ExInv(e, s) && IsEnd(e, y) && forall o :: GapOrNothing(e, rs, o)
    ensures Reached(e, y, AcceptAll(s.nodes[y].replica, rs).counters)
  {
    forall o
      ensures ReachedAt(e, y, AcceptAll(s.nodes[y].replica, rs).counters, o)
    {
      GapArrives(e, s, y, rs, o);
    }
  }

  /** What y sends on is the message itself and its own status. */
  lemma RelayGood(e: Pair, n: NodeState, p: Packet, c: Choice)
    requires e.a != e.b && IsEnd(e, n.addr) && p.msg.RumorsMessage? && forall o :: GapOrNothing(e, p.msg.rumors, o)
    requires Reached(e, n.addr, HandleRumors(n, p, c).0.replica.counters)
    ensures AllGood(e, HandleRumors(n, p, c).1)
  {
    ExecRumorsReplica(n, p.msg.rumors, p.relayedBy);
  }

  lemma RumorsGood(e: Pair, s: Network, y: Addr, p: Packet, c: Choice)
    requires ExInv(e, s) && IsEnd(e, y)
    requires Inside(e, p) && Good(e, p) && p.sentTo == y && p.msg.RumorsMessage? && p.destination == y
    ensures Reached(e, y, HandleRumors(s.nodes[y], p, c).0.replica.counters)
    ensures AllGood(e, HandleRumors(s.nodes[y], p, c).1)
  {
    var n := s.nodes[y];
    assert NodeInv(n, y, s.created);
    ExecRumorsReplica(n, p.msg.rumors, p.relayedBy);
    RumorsReach(e, s, y, p.msg.rumors);
    RelayGood(e, n, p, c);
  }

  lemma RumorsProgress(e: Pair, s: Network, y: Addr, i: nat, c: Choice, rest: seq<Packet>)
    requires ExInv(e, s) && IsEnd(e, y) && i < |s.net|
    requires var p := s.net[i]; Inside(e, p) && p.sentTo == y && p.msg.RumorsMessage? && p.destination == y
    requires forall q :: q in s.net && q != s.net[i] ==> q in rest
    ensures Progress(e, rest, y, HandleRumors(s.nodes[y], s.net[i], c).0.replica.counters)
    ensures Progress(e, rest, Other(e, y), s.nodes[Other(e, y)].replica.counters)
  {
    var p := s.net[i];
    var n, x := s.nodes[y], Other(e, y);
    assert Good(e, p);
    ExecRumorsReplica(n, p.msg.rumors, p.relayedBy);
    forall o | Lacking(e, y, AcceptAll(n.replica, p.msg.rumors).counters, o)
      ensures Helped(e, rest, y, o)
    {
      assert GapOrNothing(e, p.msg.rumors, o);
      GapArrives(e, s, y, p.msg.rumors, o);
      assert ReachedAt(e, y, n.replica.counters, o);
      assert Lacking(e, y, n.replica.counters, o);
      var q :| q in s.net && Helps(e, q, y, o);
      assert q in rest;
    }
    forall o | Lacking(e, x, s.nodes[x].replica.counters, o)
      ensures Helped(e, rest, x, o)
    {
      var q :| q in s.net && Helps(e, q, x, o);
      assert q in rest;
    }
  }

  // ---- the exchange as a run of the network ----

  /** Packets between the two ends are delivered, in any order, or any packet is duplicated. */
  ghost predicate ExchangeStep(e: Pair, s: Network, step: Step)
    requires Enabled(s, step)
  {
    step.Duplicate? || (step.Deliver? && Inside(e, s.net[step.i]))
  }

  lemma DuplicateKeeps(e: Pair, s: Network, i: nat)
    requires ExInv(e, s) && Enabled(s, Duplicate(i))
    ensures ExInv(e, Apply(s, Duplicate(i)))
  {
    InvStep(s, Duplicate(i));
    HonestStep(s, Duplicate(i));
    MoreHelps(e, s.net, [s.net[i]], e.a, s.nodes[e.a].replica.counters);
    MoreHelps(e, s.net, [s.net[i]], e.b, s.nodes[e.b].replica.counters);
  }

  lemma MoreHelps(e: Pair, net: seq<Packet>, more: seq<Packet>, x: Addr, status: StatusMessage)
    requires Progress(e, net, x, status)
    ensures Progress(e, net + more, x, status)
  {
    forall o | Lacking(e, x, status, o)
      ensures Helped(e, net + more, x, o)
    {
      var p :| p in net && Helps(e, p, x, o);
      assert p in net + more;
    }
  }

  /** The receiving end's part of the invariant after a delivery, and what is then in flight. */
  lemma DeliverParts(e: Pair, s: Network, i: nat, c: Choice)
    requires ExInv(e, s) && Enabled(s, Deliver(i, c)) && Inside(e, s.net[i])
    ensures var p := s.net[i];
            var y := p.sentTo;
            var (n', out) := HandlePacket(s.nodes[y], p, c);
            && IsEnd(e, y) && y in s.nodes
            && Reached(e, y, n'.replica.counters) && AllGood(e, out)
            && Progress(e, RemoveAt(s.net, i) + out, y, n'.replica.counters)
            && Progress(e, RemoveAt(s.net, i) + out, Other(e, y), s.nodes[Other(e, y)].replica.counters)
  {
    var p := s.net[i];
    var y := p.sentTo;
    var n := s.nodes[y];
    var rest := RemoveAt(s.net, i);
    var (n', out) := HandlePacket(n, p, c);
    assert Good(e, p) && NodeInv(n, y, s.created);
    RemoveAtMembers(s.net, i);
    if !p.msg.RumorsMessage? {
      StatusRepliesGood(e, s, y, p, c);
      StatusProgress(e, s, y, i, c, y);
      StatusProgress(e, s, y, i, c, Other(e, y));
    } else if p.destination == y {
      RumorsGood(e, s, y, p, c);
      RumorsProgress(e, s, y, i, c, rest);
      MoreHelps(e, rest, out, y, n'.replica.counters);
      MoreHelps(e, rest, out, Other(e, y), s.nodes[Other(e, y)].replica.counters);
    } else {
      ForwardProgress(e, s, i, rest, y);
      ForwardProgress(e, s, i, rest, Other(e, y));
      MoreHelps(e, rest, out, y, n'.replica.counters);
      MoreHelps(e, rest, out, Other(e, y), s.nodes[Other(e, y)].replica.counters);
    }
  }

  lemma StatusProgress(e: Pair, s: Network, y: Addr, i: nat, c: Choice, x: Addr)
    requires ExInv(e, s) && IsEnd(e, y) && IsEnd(e, x) && i < |s.net|
    requires var p := s.net[i]; Inside(e, p) && p.sentTo == y && !p.msg.RumorsMessage?
                                && p.destination == s.nodes[y].addr == y && ValidChoice(s.nodes[y], p, c)
    ensures Progress(e, RemoveAt(s.net, i) + HandlePacket(s.nodes[y], s.net[i], c).1, x,
                     s.nodes[x].replica.counters)
  {
    var p := s.net[i];
    var out := HandlePacket(s.nodes[y], p, c).1;
    assert Good(e, p);
    forall o | Lacking(e, x, s.nodes[x].replica.counters, o)
      ensures Helped(e, RemoveAt(s.net, i) + out, x, o)
    {
      StatusRepliesHelp(e, s, y, p, c, x, o);
      var q :| q in out && Helps(e, q, x, o);
      assert q in RemoveAt(s.net, i) + out;
    }
  }

  /** A packet that is only passed on helped nobody yet. */
  lemma ForwardProgress(e: Pair, s: Network, i: nat, rest: seq<Packet>, x: Addr)
    requires ExInv(e, s) && IsEnd(e, x) && i < |s.net|
    requires s.net[i].msg.RumorsMessage? && s.net[i].destination != s.net[i].sentTo
    requires forall q :: q in s.net && q != s.net[i] ==> q in rest
    ensures Progress(e, rest, x, s.nodes[x].replica.counters)
  {
    forall o | Lacking(e, x, s.nodes[x].replica.counters, o)
      ensures Helped(e, rest, x, o)
    {
      var q :| q in s.net && Helps(e, q, x, o);
      assert q in rest;
    }
  }

  /** The invariant of a state in which only one end has changed. */
  lemma ExInvFrom(e: Pair, s: Network, s': Network, y: Addr, n': NodeState)
    requires ExInv(e, s) && Inv(s') && Honest(s'.net, s'.nodes)
    requires IsEnd(e, y) && s'.nodes == s.nodes[y := n'] && s'.created == s.created
    requires Reached(e, y, n'.replica.counters) && AllGood(e, s'.net)
    requires Progress(e, s'.net, y, n'.replica.counters)
    requires Progress(e, s'.net, Other(e, y), s.nodes[Other(e, y)].replica.counters)
    ensures ExInv(e, s')
  {
  }

  lemma DeliverKeeps(e: Pair, s: Network, i: nat, c: Choice)
    requires ExInv(e, s) && Enabled(s, Deliver(i, c)) && Inside(e, s.net[i])
    ensures ExInv(e, Apply(s, Deliver(i, c)))
  {
    InvStep(s, Deliver(i, c));
    HonestStep(s, Deliver(i, c));
    DeliverParts(e, s, i, c);
    var y := s.net[i].sentTo;
    var (n', out) := HandlePacket(s.nodes[y], s.net[i], c);
    RestGood(e, s.net, i, out);
    ExInvFrom(e, s, Apply(s, Deliver(i, c)), y, n');
  }

  lemma RestGood(e: Pair, net: seq<Packet>, i: nat, out: seq<Packet>)
    requires i < |net| && AllGood(e, net) && AllGood(e, out)
    ensures AllGood(e, RemoveAt(net, i) + out)
  {
    RemoveAtMembers(net, i);
  }

  ghost predicate ExchangeRun(e: Pair, s: Network, steps: seq<Step>)
    requires ValidRun(s, steps)
  {
    steps == [] ||
    (ExchangeRun(e, s, steps[..|steps| - 1]) && ExchangeStep(e, Exec(s, steps[..|steps| - 1]), steps[|steps| - 1]))
  }

  lemma {:induction false} ExchangeInv(e: Pair, s: Network, steps: seq<Step>)
    requires Start(e, s) && ValidRun(s, steps) && ExchangeRun(e, s, steps)
    ensures ExInv(e, Exec(s, steps))
  {
    if steps == [] {
      StartInv(e, s);
    } else {
      var k := |steps| - 1;
      ExchangeInv(e, s, steps[..k]);
      var s' := Exec(s, steps[..k]);
      if steps[k].Deliver? {
        DeliverKeeps(e, s', steps[k].i, steps[k].choice);
      } else {
        DuplicateKeeps(e, s', steps[k].i);
      }
    }
  }

  lemma JoinedLog(e: Pair, s: Network, x: Addr, o: Addr)
    requires ExInv(e, s) && IsEnd(e, x) && forall p :: p in s.net ==> !Inside(e, p)
    ensures x in s.nodes && SeqOf(s.nodes[x].replica.counters, o) == Hi(e, o) <= |CreatedBy(e.created, o)|
    ensures LogOf(s.nodes[x].replica, o) == CreatedBy(e.created, o)[..Hi(e, o)]
  {
    EndFacts(e, s, x, o);
    assert !Helped(e, s.net, x, o);
    assert !Lacking(e, x, s.nodes[x].replica.counters, o);
  }

  lemma LongerOriginal(e: Pair, s: Network, o: Addr)
    requires Start(e, s)
    ensures Hi(e, o) <= |CreatedBy(e.created, o)|
    ensures Longer(LogOf(s.nodes[e.a].replica, o), LogOf(s.nodes[e.b].replica, o))
            == CreatedBy(e.created, o)[..Hi(e, o)]
  {
    LogFacts(s, e.a, o);
    LogFacts(s, e.b, o);
    LongerPrefix(LogOf(s.nodes[e.a].replica, o), LogOf(s.nodes[e.b].replica, o), CreatedBy(e.created, o));
  }

  lemma LongerPrefix(xs: seq<Rumor>, ys: seq<Rumor>, full: seq<Rumor>)
    requires xs <= full && ys <= full
    ensures Longer(xs, ys) == full[..Max(|xs|, |ys|)]
  {
  }

  /**
   * Anti-entropy computes a join. At every moment of an exchange each end's counter of an origin is
   * its original one or the larger of the two; when nothing is left between the ends, both hold
   * exactly the larger counter and with it the longer of the two original logs, for every origin.
   */
  lemma ExchangeJoins(e: Pair, s: Network, steps: seq<Step>, x: Addr, o: Addr)
    requires Start(e, s) && ValidRun(s, steps) && ExchangeRun(e, s, steps) && IsEnd(e, x)
    ensures x in Exec(s, steps).nodes && e.a in s.nodes && e.b in s.nodes
    ensures ReachedAt(e, x, Exec(s, steps).nodes[x].replica.counters, o)
    ensures (forall p :: p in Exec(s, steps).net ==> !Inside(e, p)) ==>
              && SeqOf(Exec(s, steps).nodes[x].replica.counters, o) == Max(SeqOf(e.a0, o), SeqOf(e.b0, o))
              && LogOf(Exec(s, steps).nodes[x].replica, o)
                 == Longer(LogOf(s.nodes[e.a].replica, o), LogOf(s.nodes[e.b].replica, o))
  {
    ExchangeInv(e, s, steps);
    EndFacts(e, Exec(s, steps), x, o);
    if forall p :: p in Exec(s, steps).net ==> !Inside(e, p) {
      JoinedLog(e, Exec(s, steps), x, o);
      LongerOriginal(e, s, o);
    }
  }
}
