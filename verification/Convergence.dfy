/**
 * Agreement can always be reached: from every reachable state of a network whose neighbour graph is
 * connected, anti-entropy alone can bring all nodes to the same state; and then the network drains.
 */
module Convergence {
  import opened Basics
  import opened Messages
  import opened Replicas
  import opened GossipNode
  import opened GossipNetwork
  import opened Routing
  import opened Quiescence
  import opened Rounds

  // ---- the neighbour graph ----

  /** One of the two is a neighbour of the other. */
  ghost predicate Linked(s: Network, x: Addr, y: Addr)
  {
    x in s.nodes && y in s.nodes && (y in s.nodes[x].nbrs || x in s.nodes[y].nbrs)
  }

  /** A path through the neighbour graph, from its first node to its last. */
  datatype Path = At(node: Addr) | Via(rest: Path, next: Addr)

  function First(path: Path): Addr
  {
    match path
    case At(node) => node
    case Via(rest, _) => First(rest)
  }

  function Last(path: Path): Addr
  {
    match path
    case At(node) => node
    case Via(_, next) => next
  }

  ghost predicate IsPath(s: Network, path: Path)
  {
    match path
    case At(node) => node in s.nodes
    case Via(rest, next) => IsPath(s, rest) && Linked(s, Last(rest), next)
  }

  ghost predicate Joined(s: Network, x: Addr, y: Addr)
  {
    exists path :: IsPath(s, path) && First(path) == x && Last(path) == y
  }

  ghost predicate ConnectedNbrs(s: Network)
  {
    forall x, y :: x in s.nodes && y in s.nodes ==> Joined(s, x, y)
  }

  lemma LinkedLater(s: Network, s': Network, x: Addr, y: Addr)
    requires Later(s, s') && Linked(s, x, y)
    ensures Linked(s', x, y)
  {
    assert NodeGrows(s.nodes[x], s'.nodes[x]) && NodeGrows(s.nodes[y], s'.nodes[y]);
  }

  lemma {:induction false} PathLater(s: Network, s': Network, path: Path)
    requires Later(s, s') && IsPath(s, path)
    ensures IsPath(s', path)
  {
    match path {
      case At(_) =>
      case Via(rest, next) =>
        PathLater(s, s', rest);
        LinkedLater(s, s', Last(rest), next);
    }
  }

  lemma ConnectedLater(s: Network, s': Network)
    requires Later(s, s') && ConnectedNbrs(s)
    ensures ConnectedNbrs(s')
  {
    forall x, y | x in s'.nodes && y in s'.nodes
      ensures Joined(s', x, y)
    {
      assert Joined(s, x, y);
      var path :| IsPath(s, path) && First(path) == x && Last(path) == y;
      PathLater(s, s', path);
    }
  }

  // ---- runs of anti-entropy ----

  ghost predicate Live(s: Network)
  {
    Inv(s) && Honest(s.net, s.nodes) && RoutingInv(s)
  }

  /** Timers and deliveries only: nothing is broadcast, lost, duplicated or reconfigured. */
  predicate Syncs(step: Step)
  {
    step.AntiEntropy? || step.Deliver?
  }

  ghost predicate SyncRun(s: Network, steps: seq<Step>)
  {
    ValidRun(s, steps) && forall step :: step in steps ==> Syncs(step)
  }

  lemma SyncStepLive(s: Network, step: Step)
    requires Live(s) && Enabled(s, step) && Syncs(step)
    ensures Live(Apply(s, step))
  {
    InvStep(s, step);
    HonestStep(s, step);
    RoutingStep(s, step);
  }

  lemma {:induction false} SyncFacts(s: Network, steps: seq<Step>)
    requires Live(s) && SyncRun(s, steps)
    ensures Live(Exec(s, steps)) && Later(s, Exec(s, steps)) && Exec(s, steps).created == s.created
  {
    if steps == [] {
      LaterSelf(s);
    } else {
      var k := |steps| - 1;
      SyncFacts(s, steps[..k]);
      var t := Exec(s, steps[..k]);
      assert steps[k] in steps;
      SyncStepLive(t, steps[k]);
      StepGrows(t, steps[k]);
      LaterTransitive(s, t, Exec(s, steps));
    }
  }

  lemma OneStep(s: Network, step: Step)
    requires Enabled(s, step) && Syncs(step)
    ensures SyncRun(s, [step]) && Exec(s, [step]) == Apply(s, step)
  {
    assert [step][..0] == [];
  }

  lemma OneMoreStep(s: Network, steps: seq<Step>, step: Step)
    requires SyncRun(s, steps) && Enabled(Exec(s, steps), step) && Syncs(step)
    ensures SyncRun(s, steps + [step]) && Exec(s, steps + [step]) == Apply(Exec(s, steps), step)
  {
    assert (steps + [step])[..|steps|] == steps;
  }

  lemma LastStep(s: Network, steps: seq<Step>)
    requires SyncRun(s, steps) && steps != []
    ensures var k := |steps| - 1;
            && SyncRun(s, steps[..k]) && Syncs(steps[k]) && Enabled(Exec(s, steps[..k]), steps[k])
            && Exec(s, steps) == Apply(Exec(s, steps[..k]), steps[k])
  {
    assert steps[|steps| - 1] in steps;
  }

  lemma {:induction false} MoreSteps(s: Network, xs: seq<Step>, ys: seq<Step>)
    requires SyncRun(s, xs) && SyncRun(Exec(s, xs), ys)
    ensures SyncRun(s, xs + ys) && Exec(s, xs + ys) == Exec(Exec(s, xs), ys)
  {
    if ys == [] {
      assert xs + ys == xs;
    } else {
      var n := |ys| - 1;
      LastStep(Exec(s, xs), ys);
      MoreSteps(s, xs, ys[..n]);
      OneMoreStep(s, xs + ys[..n], ys[n]);
      ConcatLast(xs, ys);
    }
  }

  // ---- one node learns what a linked one has ----

  /** A choice for a status that is not mongered on. */
  lemma StatusChoice(s: Network, y: Addr, status: StatusMessage) returns (c: Choice)
    requires Inv(s) && y in s.nodes
    ensures c.nbr == None && IsDelta(s.nodes[y].replica, status, c.delta)
  {
    assert NodeInv(s.nodes[y], y, s.created);
    var delta := DeltaExists(s.nodes[y].replica, status);
    c := Choice(None, delta);
  }

  ghost predicate StatusAt(s: Network, i: nat, x: Addr, y: Addr)
  {
    && x in s.nodes && y in s.nodes && i < |s.net|
    && s.net[i] == Direct(s.nodes[x], y, StatusUpdate(s.nodes[x].replica.counters))
  }

  /** Handling a status changes no node. */
  lemma StatusHandled(s: Network, i: nat, x: Addr, y: Addr, c: Choice)
    requires Live(s) && StatusAt(s, i, x, y) && c.nbr == None
    requires IsDelta(s.nodes[y].replica, s.nodes[x].replica.counters, c.delta)
    ensures Enabled(s, Deliver(i, c))
    ensures var s' := Apply(s, Deliver(i, c));
            && s'.nodes == s.nodes
            && s'.net == RemoveAt(s.net, i) + StatusReplies(s.nodes[y], x, s.nodes[x].replica.counters, c)
  {
    assert NodeInv(s.nodes[y], y, s.created) && NodeInv(s.nodes[x], x, s.created);
  }

  /** The rumors that y ships for a status of x, as the last packet in flight. */
  ghost predicate ShippedTo(s: Network, x: Addr, y: Addr, status: StatusMessage, delta: seq<Rumor>)
  {
    && x in s.nodes && y in s.nodes && s.net != []
    && IsDelta(s.nodes[y].replica, status, delta) && status == s.nodes[x].replica.counters
    && s.net[|s.net| - 1] == Direct(s.nodes[y], x, RumorsMessage(delta))
  }

  /** A current status of x is at y, which is ahead: y ships. */
  lemma ShipOut(s: Network, i: nat, x: Addr, y: Addr) returns (steps: seq<Step>, delta: seq<Rumor>)
    requires Live(s) && StatusAt(s, i, x, y) && Ahead(s.nodes[y].replica.counters, s.nodes[x].replica.counters)
    ensures SyncRun(s, steps) && Exec(s, steps).nodes == s.nodes
    ensures ShippedTo(Exec(s, steps), x, y, s.nodes[x].replica.counters, delta)
  {
    var c := StatusChoice(s, y, s.nodes[x].replica.counters);
    delta := c.delta;
    StatusHandled(s, i, x, y, c);
    OneStep(s, Deliver(i, c));
    steps := [Deliver(i, c)];
    LastReply(s.nodes[y], x, s.nodes[x].replica.counters, c);
  }

  lemma LastReply(n: NodeState, x: Addr, status: StatusMessage, c: Choice)
    requires Ahead(n.replica.counters, status)
    ensures var replies := StatusReplies(n, x, status, c);
            replies != [] && replies[|replies| - 1] == Direct(n, x, RumorsMessage(c.delta))
  {
  }

  /** x takes what was shipped. */
  lemma TakeIn(s: Network, x: Addr, y: Addr, status: StatusMessage, delta: seq<Rumor>) returns (steps: seq<Step>)
    requires Inv(s) && ShippedTo(s, x, y, status, delta)
    ensures |steps| == 1 && steps[0].Deliver? && SyncRun(s, steps) && x in Exec(s, steps).nodes
    ensures AtMost(s.nodes[y].replica.counters, Exec(s, steps).nodes[x].replica.counters)
  {
    var last := |s.net| - 1;
    CanDeliver(s, last);
    var d :| Enabled(s, Deliver(last, d)) && Quiet(s, Deliver(last, d));
    OneStep(s, Deliver(last, d));
    LaterSelf(s);
    ShipArrives(s, s, y, x, status, delta, last, d);
    steps := [Deliver(last, d)];
  }

  lemma Ship(s: Network, i: nat, x: Addr, y: Addr) returns (steps: seq<Step>)
    requires Live(s) && StatusAt(s, i, x, y) && Ahead(s.nodes[y].replica.counters, s.nodes[x].replica.counters)
    ensures SyncRun(s, steps) && x in Exec(s, steps).nodes
    ensures AtMost(s.nodes[y].replica.counters, Exec(s, steps).nodes[x].replica.counters)
  {
    var out, delta := ShipOut(s, i, x, y);
    var t := Exec(s, out);
    SyncFacts(s, out);
    var take := TakeIn(t, x, y, s.nodes[x].replica.counters, delta);
    MoreSteps(s, out, take);
    steps := out + take;
  }

  /** A node sends its status to a neighbour, to which routes are direct. */
  lemma SendStatus(s: Network, x: Addr, y: Addr)
    requires Live(s) && x in s.nodes && y in s.nodes && y in s.nodes[x].nbrs
    ensures Enabled(s, AntiEntropy(x, Some(y)))
    ensures var s' := Apply(s, AntiEntropy(x, Some(y)));
            s'.nodes == s.nodes && StatusAt(s', |s.net|, x, y)
  {
    assert NodeInv(s.nodes[x], x, s.created);
    assert Routed(s.nodes[x]);
  }

  lemma PullForward(s: Network, x: Addr, y: Addr) returns (steps: seq<Step>)
    requires Live(s) && x in s.nodes && y in s.nodes && y in s.nodes[x].nbrs
    requires Ahead(s.nodes[y].replica.counters, s.nodes[x].replica.counters)
    ensures SyncRun(s, steps) && x in Exec(s, steps).nodes
    ensures AtMost(s.nodes[y].replica.counters, Exec(s, steps).nodes[x].replica.counters)
  {
    var first := AntiEntropy(x, Some(y));
    SendStatus(s, x, y);
    OneStep(s, first);
    SyncStepLive(s, first);
    var rest := Ship(Apply(s, first), |s.net|, x, y);
    MoreSteps(s, [first], rest);
    steps := [first] + rest;
  }

  /** y's status is at x, which answers with its own. */
  lemma AnswerStatus(t: Network, i: nat, x: Addr, y: Addr) returns (step: Step)
    requires Live(t) && StatusAt(t, i, y, x) && |t.net| == i + 1
    requires Ahead(t.nodes[y].replica.counters, t.nodes[x].replica.counters)
    ensures Enabled(t, step) && Syncs(step) && Apply(t, step).nodes == t.nodes && StatusAt(Apply(t, step), i, x, y)
  {
    var c := StatusChoice(t, x, t.nodes[y].replica.counters);
    StatusHandled(t, i, y, x, c);
    step := Deliver(i, c);
    AnswersBack(t, i, x, y, c, Apply(t, step));
  }

  /** y sends its status, x answers with its own, which y answers with what x lacks. */
  lemma PullBack(s: Network, x: Addr, y: Addr) returns (steps: seq<Step>)
    requires Live(s) && x in s.nodes && y in s.nodes && x in s.nodes[y].nbrs
    requires Ahead(s.nodes[y].replica.counters, s.nodes[x].replica.counters)
    ensures SyncRun(s, steps) && x in Exec(s, steps).nodes
    ensures AtMost(s.nodes[y].replica.counters, Exec(s, steps).nodes[x].replica.counters)
  {
    var first := AntiEntropy(y, Some(x));
    SendStatus(s, y, x);
    OneStep(s, first);
    SyncStepLive(s, first);
    var t := Apply(s, first);
    var second := AnswerStatus(t, |s.net|, x, y);
    OneStep(t, second);
    SyncStepLive(t, second);
    MoreSteps(s, [first], [second]);
    var u := Apply(t, second);
    var rest := Ship(u, |s.net|, x, y);
    MoreSteps(s, [first] + [second], rest);
    steps := [first] + [second] + rest;
  }

  /** The first answer to a status that is ahead is the own status. */
  lemma AnswersBack(t: Network, i: nat, x: Addr, y: Addr, c: Choice, u: Network)
    requires Live(t) && StatusAt(t, i, y, x) && |t.net| == i + 1 && u.nodes == t.nodes
    requires Ahead(t.nodes[y].replica.counters, t.nodes[x].replica.counters)
    requires u.net == RemoveAt(t.net, i) + StatusReplies(t.nodes[x], y, t.nodes[y].replica.counters, c)
    ensures StatusAt(u, i, x, y)
  {
    var replies := StatusReplies(t.nodes[x], y, t.nodes[y].replica.counters, c);
    assert replies[0] == Direct(t.nodes[x], y, StatusUpdate(t.nodes[x].replica.counters));
    assert |RemoveAt(t.net, i)| == i;
  }

  /** Along a link, in either direction, x can come to know all that y knows. */
  lemma Pull(s: Network, x: Addr, y: Addr) returns (steps: seq<Step>)
    requires Live(s) && Linked(s, x, y)
    ensures SyncRun(s, steps) && x in Exec(s, steps).nodes
    ensures AtMost(s.nodes[y].replica.counters, Exec(s, steps).nodes[x].replica.counters)
  {
    if !Ahead(s.nodes[y].replica.counters, s.nodes[x].replica.counters) {
      steps := [];
      NotAhead(s.nodes[y].replica.counters, s.nodes[x].replica.counters);
    } else if y in s.nodes[x].nbrs {
      steps := PullForward(s, x, y);
    } else {
      steps := PullBack(s, x, y);
    }
  }

  lemma StillLinked(s: Network, steps: seq<Step>, x: Addr, y: Addr)
    requires Live(s) && SyncRun(s, steps) && Linked(s, y, x)
    ensures Live(Exec(s, steps)) && Linked(Exec(s, steps), x, y)
  {
    SyncFacts(s, steps);
    LinkedLater(s, Exec(s, steps), x, y);
  }

  /** What y has come to know, x can come to know next. */
  lemma PullOn(s: Network, xs: seq<Step>, x: Addr, y: Addr, known: StatusMessage) returns (steps: seq<Step>)
    requires Live(s) && SyncRun(s, xs) && Linked(s, y, x)
    requires y in Exec(s, xs).nodes && AtMost(known, Exec(s, xs).nodes[y].replica.counters)
    ensures SyncRun(s, steps) && x in Exec(s, steps).nodes
    ensures AtMost(known, Exec(s, steps).nodes[x].replica.counters)
  {
    var t := Exec(s, xs);
    StillLinked(s, xs, x, y);
    var ys := Pull(t, x, y);
    MoreSteps(s, xs, ys);
    AtMostTransitive(known, t.nodes[y].replica.counters, Exec(t, ys).nodes[x].replica.counters);
    steps := xs + ys;
  }

  /** Along a path, its last node can come to know all that its first knows. */
  lemma {:induction false} PullPath(s: Network, path: Path) returns (steps: seq<Step>)
    requires Live(s) && IsPath(s, path)
    ensures First(path) in s.nodes && SyncRun(s, steps) && Last(path) in Exec(s, steps).nodes
    ensures AtMost(s.nodes[First(path)].replica.counters, Exec(s, steps).nodes[Last(path)].replica.counters)
  {
    match path {
      case At(_) =>
        steps := [];
      case Via(rest, next) =>
        var xs := PullPath(s, rest);
        steps := PullOn(s, xs, next, Last(rest), s.nodes[First(path)].replica.counters);
    }
  }

  // ---- all nodes ----

  /** The node has all that the origin ever created. */
  ghost predicate Has(s: Network, a: Addr, o: Addr)
  {
    a in s.nodes && SeqOf(s.nodes[a].replica.counters, o) == |CreatedBy(s.created, o)|
  }

  ghost predicate HasAll(s: Network, a: Addr, os: seq<Addr>)
  {
    forall o :: o in os ==> Has(s, a, o)
  }

  ghost predicate AllHave(s: Network, xs: seq<Addr>, os: seq<Addr>)
  {
    forall a :: a in xs ==> HasAll(s, a, os)
  }

  lemma HasLater(s: Network, s': Network, a: Addr, os: seq<Addr>)
    requires HasAll(s, a, os) && Later(s, s') && Inv(s') && s'.created == s.created
    ensures HasAll(s', a, os)
  {
    forall o | o in os
      ensures Has(s', a, o)
    {
      assert Has(s, a, o);
      assert NodeGrows(s.nodes[a], s'.nodes[a]);
      LogFacts(s', a, o);
    }
  }

  lemma AllLater(s: Network, s': Network, xs: seq<Addr>, os: seq<Addr>)
    requires AllHave(s, xs, os) && Later(s, s') && Inv(s') && s'.created == s.created
    ensures AllHave(s', xs, os)
  {
    forall a | a in xs
      ensures HasAll(s', a, os)
    {
      HasLater(s, s', a, os);
    }
  }

  lemma HasOneMore(s: Network, a: Addr, os: seq<Addr>)
    requires os != [] && HasAll(s, a, os[..|os| - 1]) && Has(s, a, os[|os| - 1])
    ensures HasAll(s, a, os)
  {
  }

  lemma AllOneMore(s: Network, xs: seq<Addr>, os: seq<Addr>)
    requires xs != [] && AllHave(s, xs[..|xs| - 1], os) && HasAll(s, xs[|xs| - 1], os)
    ensures AllHave(s, xs, os)
  {
  }

  /** a comes to have all of o. */
  lemma Fetch(s: Network, a: Addr, o: Addr) returns (steps: seq<Step>)
    requires Live(s) && ConnectedNbrs(s) && a in s.nodes && o in s.nodes
    ensures SyncRun(s, steps) && Has(Exec(s, steps), a, o)
  {
    assert Joined(s, o, a);
    var path :| IsPath(s, path) && First(path) == o && Last(path) == a;
    steps := PullPath(s, path);
    SyncFacts(s, steps);
    LogFacts(s, o, o);
    LogFacts(Exec(s, steps), a, o);
  }

  lemma {:induction false} FetchAllOf(s: Network, a: Addr, os: seq<Addr>) returns (steps: seq<Step>)
    requires Live(s) && ConnectedNbrs(s) && a in s.nodes && forall o :: o in os ==> o in s.nodes
    ensures SyncRun(s, steps) && HasAll(Exec(s, steps), a, os)
  {
    if os == [] {
      steps := [];
    } else {
      var n := |os| - 1;
      assert os[n] in os;
      var xs := FetchAllOf(s, a, os[..n]);
      var t := Exec(s, xs);
      SyncFacts(s, xs);
      ConnectedLater(s, t);
      var ys := Fetch(t, a, os[n]);
      SyncFacts(t, ys);
      MoreSteps(s, xs, ys);
      steps := xs + ys;
      HasLater(t, Exec(t, ys), a, os[..n]);
      HasOneMore(Exec(t, ys), a, os);
    }
  }

  lemma {:induction false} FillAll(s: Network, xs: seq<Addr>) returns (steps: seq<Step>)
    requires Live(s) && ConnectedNbrs(s) && forall a :: a in xs ==> a in s.nodes
    ensures SyncRun(s, steps) && AllHave(Exec(s, steps), xs, s.peers)
  {
    if xs == [] {
      steps := [];
    } else {
      var n := |xs| - 1;
      assert xs[n] in xs;
      var first := FillAll(s, xs[..n]);
      var t := Exec(s, first);
      SyncFacts(s, first);
      ConnectedLater(s, t);
      var rest := FetchAllOf(t, xs[n], s.peers);
      SyncFacts(t, rest);
      MoreSteps(s, first, rest);
      steps := first + rest;
      AllLater(t, Exec(t, rest), xs[..n], s.peers);
      AllOneMore(Exec(t, rest), xs, s.peers);
    }
  }

  /** The counters that all nodes have in the end: everything that was ever created. */
  ghost predicate IsComplete(s: Network, status: StatusMessage)
  {
    forall o :: SeqOf(status, o) == |CreatedBy(s.created, o)|
  }

  lemma CompleteNode(s: Network, a: Addr)
    requires Inv(s) && a in s.nodes && HasAll(s, a, s.peers)
    ensures IsComplete(s, s.nodes[a].replica.counters)
  {
    forall o
      ensures SeqOf(s.nodes[a].replica.counters, o) == |CreatedBy(s.created, o)|
    {
      LogFacts(s, a, o);
      if o in s.peers {
        assert Has(s, a, o);
      }
    }
  }

  /** Nodes that have everything agree on everything. */
  lemma AllAgree(s: Network, b: Addr)
    requires Inv(s) && AllHave(s, s.peers, s.peers) && b in s.nodes
    ensures Agree(s, s.nodes[b].replica.counters) && IsComplete(s, s.nodes[b].replica.counters)
  {
    CompleteNode(s, b);
    forall a | a in s.nodes
      ensures SameCounters(s.nodes[a].replica.counters, s.nodes[b].replica.counters)
    {
      CompleteNode(s, a);
    }
  }

  ghost predicate EveryQuietRunEnds(s: Network, current: StatusMessage)
  {
    forall quiet :: ValidRun(s, quiet) && QuietRun(s, quiet) ==> |quiet| <= Work(s.net, current)
  }

  lemma QuietEnds(s: Network, current: StatusMessage)
    requires Inv(s) && Honest(s.net, s.nodes) && Agree(s, current)
    ensures EveryQuietRunEnds(s, current)
  {
    forall quiet | ValidRun(s, quiet) && QuietRun(s, quiet)
      ensures |quiet| <= Work(s.net, current)
    {
      Drains(s, current, quiet);
    }
  }

  /** From a live state, b among its nodes. */
  lemma AgreementFrom(s: Network, b: Addr) returns (steps: seq<Step>, current: StatusMessage)
    requires Live(s) && ConnectedNbrs(s) && b in s.nodes
    ensures SyncRun(s, steps) && Agree(Exec(s, steps), current) && IsComplete(s, current)
    ensures EveryQuietRunEnds(Exec(s, steps), current)
  {
    steps := FillAll(s, s.peers);
    var t := Exec(s, steps);
    SyncFacts(s, steps);
    AllAgree(t, b);
    current := t.nodes[b].replica.counters;
    QuietEnds(t, current);
  }

  /**
   * Agreement can be reached, and then the network drains. After every run without outside route
   * changes from an initial network with a node, if the neighbour graph is connected, there is a run of
   * timers and deliveries alone, with no new broadcast, after which all nodes hold all that was ever
   * created; from there every schedule of deliveries and losses without mongering is no longer than
   * the work in flight.
   */
  lemma AgreementReachable(s0: Network, before: seq<Step>, b: Addr) returns (steps: seq<Step>, current: StatusMessage)
    requires Init(s0) && ValidRun(s0, before) && forall step :: step in before ==> !step.SetRoute?
    requires ConnectedNbrs(Exec(s0, before)) && b in Exec(s0, before).nodes
    ensures var s := Exec(s0, before);
            SyncRun(s, steps) && Agree(Exec(s, steps), current) && IsComplete(s, current)
    ensures EveryQuietRunEnds(Exec(Exec(s0, before), steps), current)
  {
    ReachesLive(s0, before);
    steps, current := AgreementFrom(Exec(s0, before), b);
  }

  lemma ReachesLive(s0: Network, before: seq<Step>)
    requires Init(s0) && ValidRun(s0, before) && forall step :: step in before ==> !step.SetRoute?
    ensures Live(Exec(s0, before))
  {
    InitInv(s0);
    RoutingRun(s0, before);
    RunInv(s0, before);
    NoStatusOverstates(s0, before);
  }
}
