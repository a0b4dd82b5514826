/**
 * The search network: floods of requests with a budget, replies on their way to the origin, and the
 * catalogs and full-file reports built from them.
 */
module SearchNetwork {
  import opened Basics
  import opened Budgets
  import opened SearchNode

  /** History of one request id: the budgets given out at the start and how many requests came of it. */
  datatype Flood = Flood(initial: nat, sent: nat, received: nat, lost: nat)

  /** `answers` is history: who answered which request, in order. */
  datatype Network = Network(
    nodes: map<Addr, NodeState>,
    net: seq<SearchPacket>,
    floods: map<ReqId, Flood>,
    answers: seq<(Addr, ReqId)>)

  datatype Step =
    | Start(at: Addr, id: ReqId, sends: seq<SearchPacket>)
    | Deliver(i: nat, choice: Choice)
    | Drop(i: nat)
    | Duplicate(i: nat)
    | StoreBlob(at: Addr, key: Bytes, value: Bytes)
    | Tag(at: Addr, name: Bytes, metahash: Bytes)
    | AddNbr(at: Addr, nbr: Addr)

  // ---- the requests of one flood that are in flight ----

  predicate IsRequest(p: SearchPacket, id: ReqId)
  {
    p.msg.SearchRequest? && p.msg.id == id
  }

  /** The budgets of the requests with this id, in order. */
  function InFlight(net: seq<SearchPacket>, id: ReqId): (budgets: seq<nat>)
    ensures Total(budgets) >= 0
  {
    if net == [] then []
    else
      var rest := InFlight(net[..|net| - 1], id);
      if IsRequest(net[|net| - 1], id)
      then TotalOneMore(rest, net[|net| - 1].msg.budget); rest + [net[|net| - 1].msg.budget]
      else rest
  }

  function Count(p: SearchPacket, id: ReqId): nat { if IsRequest(p, id) then 1 else 0 }

  function Cost(p: SearchPacket, id: ReqId): nat { if IsRequest(p, id) then p.msg.budget else 0 }

  lemma {:induction false} InFlightConcat(xs: seq<SearchPacket>, ys: seq<SearchPacket>, id: ReqId)
    ensures InFlight(xs + ys, id) == InFlight(xs, id) + InFlight(ys, id)
  {
    if ys == [] {
      assert xs + ys == xs;
    } else {
      var n := |ys| - 1;
      assert (xs + ys)[..|xs + ys| - 1] == xs + ys[..n];
      InFlightConcat(xs, ys[..n], id);
    }
  }

  lemma InFlightOne(p: SearchPacket, id: ReqId)
    ensures InFlight([p], id) == if IsRequest(p, id) then [p.msg.budget] else []
  {
    assert [p][..0] == [];
  }

  /** Sizes and totals of what is in flight, after a removal and an addition. */
  lemma InFlightReplace(net: seq<SearchPacket>, i: nat, out: seq<SearchPacket>, id: ReqId)
    requires i < |net|
    ensures |InFlight(RemoveAt(net, i) + out, id)| + Count(net[i], id) == |InFlight(net, id)| + |InFlight(out, id)|
    ensures Total(InFlight(RemoveAt(net, i) + out, id)) + Cost(net[i], id)
            == Total(InFlight(net, id)) + Total(InFlight(out, id))
  {
    var a, p, b := net[..i], net[i], net[i + 1..];
    assert net == a + [p] + b;
    InFlightConcat(a + [p], b, id);
    InFlightConcat(a, [p], id);
    InFlightOne(p, id);
    InFlightConcat(a + b, out, id);
    InFlightConcat(a, b, id);
    TotalConcat(InFlight(a, id) + InFlight([p], id), InFlight(b, id));
    TotalConcat(InFlight(a, id), InFlight([p], id));
    TotalConcat(InFlight(a + b, id), InFlight(out, id));
    TotalConcat(InFlight(a, id), InFlight(b, id));
    if IsRequest(p, id) {
      assert [p.msg.budget][..0] == [];
    }
  }

  lemma InFlightAppend(net: seq<SearchPacket>, out: seq<SearchPacket>, id: ReqId)
    ensures |InFlight(net + out, id)| == |InFlight(net, id)| + |InFlight(out, id)|
    ensures Total(InFlight(net + out, id)) == Total(InFlight(net, id)) + Total(InFlight(out, id))
  {
    InFlightConcat(net, out, id);
    TotalConcat(InFlight(net, id), InFlight(out, id));
  }

  // ---- steps ----

  /** A search starts with requests of its own, fresh id, each with a budget of at least 1. */
  ghost predicate ValidStart(at: Addr, id: ReqId, sends: seq<SearchPacket>)
  {
    forall p :: p in sends ==> IsRequest(p, id) && GoodRequest(p) && p.source == p.relayedBy == at
  }

  predicate GoodRequest(p: SearchPacket)
  {
    p.msg.SearchRequest? ==> p.msg.budget >= 1 && p.destination == p.sentTo
  }

  ghost predicate Enabled(matches: Matcher, s: Network, step: Step)
  {
    match step
    case Start(at, id, sends) => at in s.nodes && id !in s.floods && ValidStart(at, id, sends)
    case Deliver(i, choice) =>
      i < |s.net| && s.net[i].sentTo in s.nodes && ValidChoice(s.nodes[s.net[i].sentTo], matches, s.net[i], choice)
    case Drop(i) => i < |s.net|
    case Duplicate(i) => i < |s.net|
    case StoreBlob(at, _, _) => at in s.nodes
    case Tag(at, _, _) => at in s.nodes
    case AddNbr(at, _) => at in s.nodes
  }

  /** Bookkeeping: one request arrived at its destination and made the node send `more` of its kind. */
  function Arrived(floods: map<ReqId, Flood>, p: SearchPacket, more: nat): map<ReqId, Flood>
  {
    if p.msg.SearchRequest? && p.msg.id in floods
    then var f := floods[p.msg.id];
         floods[p.msg.id := f.(received := f.received + 1, sent := f.sent + more)]
    else floods
  }

  function Lost(floods: map<ReqId, Flood>, p: SearchPacket): map<ReqId, Flood>
  {
    if p.msg.SearchRequest? && p.msg.id in floods
    then floods[p.msg.id := floods[p.msg.id].(lost := floods[p.msg.id].lost + 1)] else floods
  }

  predicate Answers(n: NodeState, p: SearchPacket)
  {
    p.destination == n.addr && p.msg.SearchRequest? && p.msg.id !in n.seen
  }

  ghost function Apply(matches: Matcher, s: Network, step: Step): Network
    requires Enabled(matches, s, step)
  {
    match step
    case Start(at, id, sends) =>
      s.(net := s.net + sends,
         floods := s.floods[id := Flood(Total(InFlight(sends, id)), |sends|, 0, 0)])
    case Deliver(i, choice) =>
      var p := s.net[i];
      var n := s.nodes[p.sentTo];
      var (n', out) := HandlePacket(n, p, choice);
      s.(nodes := s.nodes[p.sentTo := n'],
         net := RemoveAt(s.net, i) + out,
         floods := if p.destination == n.addr then Arrived(s.floods, p, |InFlight(out, p.msg.id)|) else s.floods,
         answers := if Answers(n, p) then s.answers + [(n.addr, p.msg.id)] else s.answers)
    case Drop(i) => s.(net := RemoveAt(s.net, i), floods := Lost(s.floods, s.net[i]))
    case Duplicate(i) => s.(net := s.net + [s.net[i]])
    case StoreBlob(at, key, value) =>
      s.(nodes := s.nodes[at := s.nodes[at].(blob := s.nodes[at].blob[key := value])])
    case Tag(at, name, metahash) =>
      s.(nodes := s.nodes[at := s.nodes[at].(naming := s.nodes[at].naming[name := metahash])])
    case AddNbr(at, nbr) =>
      s.(nodes := s.nodes[at := s.nodes[at].(nbrs := s.nodes[at].nbrs + {nbr})])
  }

  ghost predicate ValidRun(matches: Matcher, s: Network, steps: seq<Step>)
    decreases |steps|, 0
  {
    steps == [] ||
    (ValidRun(matches, s, steps[..|steps| - 1])
     && Enabled(matches, Exec(matches, s, steps[..|steps| - 1]), steps[|steps| - 1]))
  }

  ghost function Exec(matches: Matcher, s: Network, steps: seq<Step>): Network
    requires ValidRun(matches, s, steps)
    decreases |steps|, 1
  {
    if steps == [] then s else Apply(matches, Exec(matches, s, steps[..|steps| - 1]), steps[|steps| - 1])
  }

  ghost predicate Init(s: Network)
  {
    && (forall a :: a in s.nodes ==> s.nodes[a].addr == a && s.nodes[a].seen == {} && s.nodes[a].catalog == map[])
    && s.net == [] && s.floods == map[] && s.answers == []
  }

  // ---- every request in flight is a direct one with budget at least 1 ----

  ghost predicate GoodRequests(net: seq<SearchPacket>)
  {
    forall p :: p in net ==> GoodRequest(p)
  }

  ghost predicate Named(nodes: map<Addr, NodeState>)
  {
    forall a :: a in nodes ==> nodes[a].addr == a
  }

  /** Only requests of the one id are sent, each with a budget of at least 1; none for no positive share. */
  lemma {:induction false} RequestsGood(at: Addr, id: ReqId, origin: Addr, pattern: Bytes,
                                        shares: seq<int>, picks: seq<Option<Addr>>)
    requires |shares| == |picks|
    ensures forall p :: p in Requests(at, id, origin, pattern, shares, picks) ==> GoodRequest(p) && IsRequest(p, id)
    ensures (forall i :: 0 <= i < |shares| ==> shares[i] <= 0) ==>
              Requests(at, id, origin, pattern, shares, picks) == []
  {
    if shares != [] {
      var k := |shares| - 1;
      RequestsGood(at, id, origin, pattern, shares[..k], picks[..k]);
    }
  }

  lemma OneMoreRequest(rest: seq<SearchPacket>, p: SearchPacket, id: ReqId)
    requires IsRequest(p, id)
    ensures Total(InFlight(rest + [p], id)) == Total(InFlight(rest, id)) + p.msg.budget
  {
    assert (rest + [p])[..|rest|] == rest;
    TotalOneMore(InFlight(rest, id), p.msg.budget);
  }

  /** What is sent sums to what was divided. */
  lemma {:induction false} RequestsTotal(at: Addr, id: ReqId, origin: Addr, pattern: Bytes,
                                         shares: seq<int>, picks: seq<Option<Addr>>)
    requires |shares| == |picks| && NoDebt(shares)
    ensures Total(InFlight(Requests(at, id, origin, pattern, shares, picks), id)) == Total(shares)
  {
    if shares != [] {
      var k := |shares| - 1;
      assert NoDebt(shares[..k]);
      RequestsTotal(at, id, origin, pattern, shares[..k], picks[..k]);
      var rest := Requests(at, id, origin, pattern, shares[..k], picks[..k]);
      var nbr := if picks[k].Some? then picks[k].value else NoAddr;
      OneMoreRequest(rest, Request(at, nbr, id, origin, pattern, Max(shares[k], 0)), id);
    }
  }

  /** What a node forwards of one request costs no more than the request's budget less 1. */
  lemma ForwardsBudget(n: NodeState, matches: Matcher, p: SearchPacket, c: Choice, other: ReqId)
    requires ValidChoice(n, matches, p, c) && Answers(n, p) && p.msg.budget >= 1
    ensures GoodRequests(Forwards(n, p, c))
    ensures other != p.msg.id ==> InFlight(Forwards(n, p, c), other) == []
    ensures Total(InFlight(Forwards(n, p, c), p.msg.id)) <= p.msg.budget - 1
  {
    if Decrement(p.msg.budget) > 0 {
      RequestsGood(n.addr, p.msg.id, p.msg.origin, p.msg.pattern, c.shares, c.picks);
      if other != p.msg.id {
        NoneInFlight(Forwards(n, p, c), other);
      }
      var budget := ToInt(p.msg.budget - 1);
      if budget >= 0 && |n.nbrs| > 0 {
        forall i | 0 <= i < |c.shares|
          ensures c.shares[i] >= 0
        {
          FairShares(c.shares, budget, i, i);
        }
        RequestsTotal(n.addr, p.msg.id, p.msg.origin, p.msg.pattern, c.shares, c.picks);
      }
    }
  }

  /**
   * Exactly what a first arrival sends on: the whole budget less 1 if there is a neighbour, counted on
   * signed 64 bits. A share misses every neighbour if and only if the packet's source is the only one,
   * and then all do.
   */
  lemma ForwardsExact(n: NodeState, matches: Matcher, p: SearchPacket, c: Choice)
    requires ValidChoice(n, matches, p, c) && Answers(n, p) && p.msg.budget >= 1
    ensures Total(InFlight(HandlePacket(n, p, c).1, p.msg.id))
            == if n.nbrs == {} then 0 else Max(0, ToInt(p.msg.budget - 1))
    ensures p.msg.budget > 1 ==> forall i :: 0 <= i < |c.shares| && c.shares[i] > 0 ==>
              (c.picks[i].None? <==> n.nbrs <= {p.source})
  {
    var id, budget := p.msg.id, ToInt(p.msg.budget - 1);
    var reply := SearchPacket(n.addr, n.addr, p.msg.origin, p.source, SearchReply(id, c.infos));
    InFlightConcat(Forwards(n, p, c), [reply], id);
    InFlightOne(reply, id);
    assert InFlight(Forwards(n, p, c), id) + [] == InFlight(Forwards(n, p, c), id);
    if p.msg.budget > 1 {
      RequestsGood(n.addr, id, p.msg.origin, p.msg.pattern, c.shares, c.picks);
      if budget >= 0 && n.nbrs != {} {
        forall i | 0 <= i < |c.shares|
          ensures c.shares[i] >= 0
        {
          FairShares(c.shares, budget, i, i);
        }
        RequestsTotal(n.addr, id, p.msg.origin, p.msg.pattern, c.shares, c.picks);
      }
    }
  }

  /** The same for everything a handler sends. */
  lemma HandleBudget(n: NodeState, matches: Matcher, p: SearchPacket, c: Choice, other: ReqId)
    requires ValidChoice(n, matches, p, c) && GoodRequest(p) && p.sentTo == n.addr
    ensures var out := HandlePacket(n, p, c).1;
            && GoodRequests(out)
            && (!IsRequest(p, other) ==> InFlight(out, other) == [])
            && (IsRequest(p, other) ==> Total(InFlight(out, other)) <= p.msg.budget - 1)
  {
    if Answers(n, p) {
      ForwardsBudget(n, matches, p, c, other);
      var reply := SearchPacket(n.addr, n.addr, p.msg.origin, p.source, SearchReply(p.msg.id, c.infos));
      InFlightConcat(Forwards(n, p, c), [reply], other);
      InFlightOne(reply, other);
      assert InFlight(Forwards(n, p, c), other) + [] == InFlight(Forwards(n, p, c), other);
    } else if p.destination != n.addr {
      InFlightOne(p.(relayedBy := n.addr, sentTo := p.destination), other);
    }
  }

  // ---- conservation of one flood's budget ----

  ghost predicate FloodInv(net: seq<SearchPacket>, id: ReqId, f: Flood)
  {
    && Total(InFlight(net, id)) + f.received + f.lost <= f.initial
    && |InFlight(net, id)| + f.received + f.lost == f.sent
  }

  ghost predicate Inv(s: Network)
  {
    && Named(s.nodes) && GoodRequests(s.net)
    && (forall id :: id in s.floods ==> FloodInv(s.net, id, s.floods[id]))
    && (forall p :: p in s.net && p.msg.SearchRequest? ==> p.msg.id in s.floods)
  }

  lemma {:induction false} NoneInFlight(net: seq<SearchPacket>, id: ReqId)
    requires forall p :: p in net ==> !IsRequest(p, id)
    ensures InFlight(net, id) == []
  {
    if net != [] {
      assert net[|net| - 1] in net;
      NoneInFlight(net[..|net| - 1], id);
    }
  }

  lemma {:induction false} AllInFlight(net: seq<SearchPacket>, id: ReqId)
    requires forall p :: p in net ==> IsRequest(p, id)
    ensures |InFlight(net, id)| == |net|
  {
    if net != [] {
      assert net[|net| - 1] in net;
      AllInFlight(net[..|net| - 1], id);
    }
  }

  lemma StartInv(matches: Matcher, s: Network, at: Addr, id: ReqId, sends: seq<SearchPacket>)
    requires Inv(s) && Enabled(matches, s, Start(at, id, sends))
    ensures Inv(Apply(matches, s, Start(at, id, sends)))
  {
    var s' := Apply(matches, s, Start(at, id, sends));
    NoneInFlight(s.net, id);
    AllInFlight(sends, id);
    forall other | other in s'.floods
      ensures FloodInv(s'.net, other, s'.floods[other])
    {
      InFlightAppend(s.net, sends, other);
      if other != id {
        NoneInFlight(sends, other);
      }
    }
  }

  lemma DeliverFlood(matches: Matcher, s: Network, i: nat, c: Choice, other: ReqId)
    requires Inv(s) && Enabled(matches, s, Deliver(i, c)) && other in s.floods
    ensures var s' := Apply(matches, s, Deliver(i, c));
            other in s'.floods && FloodInv(s'.net, other, s'.floods[other])
  {
    var p := s.net[i];
    var n := s.nodes[p.sentTo];
    assert p in s.net;
    HandleBudget(n, matches, p, c, other);
    InFlightReplace(s.net, i, HandlePacket(n, p, c).1, other);
    if p.destination != n.addr {
      assert !p.msg.SearchRequest?;
    }
  }

  lemma DeliverInv(matches: Matcher, s: Network, i: nat, c: Choice)
    requires Inv(s) && Enabled(matches, s, Deliver(i, c))
    ensures Inv(Apply(matches, s, Deliver(i, c)))
  {
    var p := s.net[i];
    var n := s.nodes[p.sentTo];
    var s' := Apply(matches, s, Deliver(i, c));
    assert p in s.net;
    RemoveAtMembers(s.net, i);
    HandleBudget(n, matches, p, c, p.msg.id);
    HandleAddr(n, p, c);
    assert forall id :: id in s'.floods <==> id in s.floods;
    forall other | other in s'.floods
      ensures FloodInv(s'.net, other, s'.floods[other])
    {
      DeliverFlood(matches, s, i, c, other);
    }
    forall q | q in HandlePacket(n, p, c).1 && q.msg.SearchRequest?
      ensures q.msg.id in s.floods
    {
      SameId(n, p, c, q);
    }
  }

  lemma SameId(n: NodeState, p: SearchPacket, c: Choice, q: SearchPacket)
    requires |c.shares| == |c.picks| && q in HandlePacket(n, p, c).1 && q.msg.SearchRequest?
    ensures p.msg.SearchRequest? && q.msg.id == p.msg.id
  {
    if Answers(n, p) {
      assert q in Forwards(n, p, c);
      SameIdRequests(n.addr, p.msg.id, p.msg.origin, p.msg.pattern, c.shares, c.picks, q);
    }
  }

  lemma {:induction false} SameIdRequests(at: Addr, id: ReqId, origin: Addr, pattern: Bytes,
                                          shares: seq<int>, picks: seq<Option<Addr>>, q: SearchPacket)
    requires |shares| == |picks| && q in Requests(at, id, origin, pattern, shares, picks)
    ensures IsRequest(q, id)
  {
    var k := |shares| - 1;
    if q in Requests(at, id, origin, pattern, shares[..k], picks[..k]) {
      SameIdRequests(at, id, origin, pattern, shares[..k], picks[..k], q);
    }
  }

  lemma {:induction false} HandleReplyKeeps(n: NodeState, responses: seq<FileInfo>, source: Addr)
    ensures var n' := HandleReply(n, responses, source);
            n'.addr == n.addr && n'.blob == n.blob && n'.seen == n.seen && n'.nbrs == n.nbrs
  {
    if responses != [] {
      HandleReplyKeeps(n, responses[..|responses| - 1], source);
    }
  }

  lemma HandleAddr(n: NodeState, p: SearchPacket, c: Choice)
    requires |c.shares| == |c.picks|
    ensures var n' := HandlePacket(n, p, c).0;
            && n'.addr == n.addr && n'.blob == n.blob
            && n'.seen == if Answers(n, p) then n.seen + {p.msg.id} else n.seen
  {
    if p.msg.SearchReply? {
      HandleReplyKeeps(n, p.msg.responses, p.source);
    }
  }

  lemma DropInv(matches: Matcher, s: Network, i: nat)
    requires Inv(s) && i < |s.net|
    ensures Inv(Apply(matches, s, Drop(i)))
  {
    var s' := Apply(matches, s, Drop(i));
    RemoveAtMembers(s.net, i);
    assert s.net[i] in s.net;
    assert RemoveAt(s.net, i) + [] == RemoveAt(s.net, i);
    forall other | other in s'.floods
      ensures FloodInv(s'.net, other, s'.floods[other])
    {
      InFlightReplace(s.net, i, [], other);
    }
  }

  lemma InvStep(matches: Matcher, s: Network, step: Step)
    requires Inv(s) && Enabled(matches, s, step) && !step.Duplicate?
    ensures Inv(Apply(matches, s, step))
  {
    match step {
      case Start(at, id, sends) => StartInv(matches, s, at, id, sends);
      case Deliver(i, c) => DeliverInv(matches, s, i, c);
      case Drop(i) => DropInv(matches, s, i);
      case _ =>
    }
  }

  lemma {:induction false} RunInv(matches: Matcher, s: Network, steps: seq<Step>)
    requires Init(s) && ValidRun(matches, s, steps)
    requires forall step :: step in steps ==> !step.Duplicate?
    ensures Inv(Exec(matches, s, steps))
  {
    if steps != [] {
      var k := |steps| - 1;
      RunInv(matches, s, steps[..k]);
      InvStep(matches, Exec(matches, s, steps[..k]), steps[k]);
    }
  }

  /** As many requests as their budgets allow, since each is at least 1. */
  lemma {:induction false} CountAtMostTotal(net: seq<SearchPacket>, id: ReqId)
    requires GoodRequests(net)
    ensures |InFlight(net, id)| <= Total(InFlight(net, id))
  {
    if net != [] {
      var k := |net| - 1;
      CountAtMostTotal(net[..k], id);
      assert net[k] in net;
      TotalOneMore(InFlight(net[..k], id), Cost(net[k], id));
    }
  }

  /**
   * Flood conservation. On a network that does not duplicate, for every request id the budgets in
   * flight plus the requests already delivered never exceed the budget given out at the start; every
   * request in flight has a budget of at least 1, so Budget - 1 never wraps; and no more requests are
   * ever sent than that initial budget.
   */
  lemma FloodConservation(matches: Matcher, s0: Network, steps: seq<Step>, id: ReqId)
    requires Init(s0) && ValidRun(matches, s0, steps) && id in Exec(matches, s0, steps).floods
    requires forall step :: step in steps ==> !step.Duplicate?
    ensures var s := Exec(matches, s0, steps);
            var f := s.floods[id];
            && Total(InFlight(s.net, id)) + f.received <= f.initial
            && f.sent <= f.initial
            && forall p :: p in s.net && p.msg.SearchRequest? ==>
                 p.msg.budget >= 1 && Decrement(p.msg.budget) == p.msg.budget - 1
  {
    RunInv(matches, s0, steps);
    var s := Exec(matches, s0, steps);
    assert FloodInv(s.net, id, s.floods[id]);
    CountAtMostTotal(s.net, id);
  }

  /** The budget in flight is a termination measure: every arrival or loss of a request lowers it. */
  lemma FloodTerminates(matches: Matcher, s: Network, step: Step, id: ReqId)
    requires Inv(s) && Enabled(matches, s, step) && (step.Deliver? || step.Drop?)
    ensures Total(InFlight(Apply(matches, s, step).net, id)) + Count(s.net[step.i], id) <= Total(InFlight(s.net, id))
  {
    var p := s.net[step.i];
    assert p in s.net;
    if step.Deliver? {
      var n := s.nodes[p.sentTo];
      HandleBudget(n, matches, p, step.choice, id);
      InFlightReplace(s.net, step.i, HandlePacket(n, p, step.choice).1, id);
    } else {
      InFlightReplace(s.net, step.i, [], id);
      assert RemoveAt(s.net, step.i) + [] == RemoveAt(s.net, step.i);
    }
  }

  // ---- each node answers a request at most once ----

  ghost predicate AnswersInv(s: Network)
  {
    && Named(s.nodes) && Distinct(s.answers)
    && (forall x :: x in s.answers ==> x.0 in s.nodes && x.1 in s.nodes[x.0].seen)
    && forall a, id :: a in s.nodes && id in s.nodes[a].seen ==> (a, id) in s.answers
  }

  lemma AnswersDeliver(matches: Matcher, s: Network, i: nat, c: Choice)
    requires AnswersInv(s) && Enabled(matches, s, Deliver(i, c))
    ensures AnswersInv(Apply(matches, s, Deliver(i, c)))
  {
    var p := s.net[i];
    var n := s.nodes[p.sentTo];
    HandleAddr(n, p, c);
    var s' := Apply(matches, s, Deliver(i, c));
    if Answers(n, p) {
      assert (n.addr, p.msg.id) !in s.answers;
    }
    forall a, id | a in s'.nodes && id in s'.nodes[a].seen
      ensures (a, id) in s'.answers
    {
      assert id in s.nodes[a].seen || (a == n.addr && id == p.msg.id && Answers(n, p));
    }
  }

  lemma AnswersOther(matches: Matcher, s: Network, step: Step)
    requires AnswersInv(s) && Enabled(matches, s, step) && !step.Deliver?
    ensures AnswersInv(Apply(matches, s, step))
  {
  }

  /** Even with loss and duplication, a node answers exactly the requests it has seen, and none of them twice. */
  lemma {:induction false} AnswersOnce(matches: Matcher, s: Network, steps: seq<Step>)
    requires Init(s) && ValidRun(matches, s, steps)
    ensures AnswersInv(Exec(matches, s, steps))
  {
    if steps != [] {
      var k := |steps| - 1;
      AnswersOnce(matches, s, steps[..k]);
      var s' := Exec(matches, s, steps[..k]);
      if steps[k].Deliver? {
        AnswersDeliver(matches, s', steps[k].i, steps[k].choice);
      } else {
        AnswersOther(matches, s', steps[k]);
      }
    }
  }
}
