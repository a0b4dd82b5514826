/**
 * What a search costs the network: SearchAll and SearchFirst seen as floods of the search network
 * (peer/impl/dataSharing.go, peer/impl/searchFirst.go).
 */
module Searches {
  import opened Basics
  import opened Budgets
  import opened Geometric
  import opened SearchNode
  import opened SearchPeer
  import opened SearchNetwork
  import opened Targets

  // ---- the budgets of a list of requests ----

  function BudgetOf(p: SearchPacket): nat
  {
    if p.msg.SearchRequest? then p.msg.budget else 0
  }

  function BudgetSum(sends: seq<SearchPacket>): nat
  {
    if sends == [] then 0 else BudgetSum(sends[..|sends| - 1]) + BudgetOf(sends[|sends| - 1])
  }

  lemma BudgetOneMore(sends: seq<SearchPacket>, p: SearchPacket)
    ensures BudgetSum(sends + [p]) == BudgetSum(sends) + BudgetOf(p)
  {
    assert (sends + [p])[..|sends|] == sends;
  }

  lemma {:induction false} BudgetConcat(xs: seq<SearchPacket>, ys: seq<SearchPacket>)
    ensures BudgetSum(xs + ys) == BudgetSum(xs) + BudgetSum(ys)
  {
    if ys == [] {
      assert xs + ys == xs;
    } else {
      var n := |ys| - 1;
      assert (xs + ys)[..|xs + ys| - 1] == xs + ys[..n];
      BudgetConcat(xs, ys[..n]);
    }
  }

  /** The budgets of a round's requests sum to its shares. */
  lemma {:induction false} FreshTotal(at: Addr, ids: nat -> ReqId, first: nat, pattern: Bytes,
                                      shares: seq<int>, picks: seq<Option<Addr>>)
    requires |shares| == |picks| && NoDebt(shares)
    ensures BudgetSum(FreshRequests(at, ids, first, pattern, shares, picks)) == Total(shares)
  {
    if shares != [] {
      var k := |shares| - 1;
      assert NoDebt(shares[..k]);
      FreshTotal(at, ids, first, pattern, shares[..k], picks[..k]);
      var rest := FreshRequests(at, ids, first, pattern, shares[..k], picks[..k]);
      var nbr := if picks[k].Some? then picks[k].value else NoAddr;
      var p := Request(at, nbr, ids(first + |rest|), at, pattern, Max(shares[k], 0));
      BudgetOneMore(rest, p);
    }
  }

  lemma {:induction false} PrefixTotal(shares: seq<int>, n: nat)
    requires n <= |shares| && NoDebt(shares)
    ensures Total(shares[..n]) <= Total(shares)
  {
    if n == |shares| {
      assert shares[..n] == shares;
    } else {
      PrefixTotal(shares[..|shares| - 1], n);
      assert shares[..|shares| - 1][..n] == shares[..n];
    }
  }

  lemma DividedFair(shares: seq<int>, n: nat, budget: int)
    requires Divided(shares, n, budget) && budget >= 0
    ensures NoDebt(shares) && Total(shares) == if n == 0 then 0 else budget
  {
    forall i | 0 <= i < |shares|
      ensures shares[i] >= 0
    {
      FairShares(shares, budget, i, i);
    }
  }

  /** What a round sends out never exceeds its budget. */
  lemma RoundBudget(at: Addr, ids: nat -> ReqId, first: nat, pattern: Bytes,
                    nbrs: set<Addr>, budget: nat, answer: seq<FileInfo>, round: Round)
    requires IsRound(nbrs, budget, answer, round)
    ensures BudgetSum(SendsOf(at, ids, first, pattern, round)) <= budget
  {
    var n := |round.picks|;
    assert round.picks[..n] == round.picks;
    if ToInt(budget) >= 0 {
      DividedFair(round.shares, |nbrs|, ToInt(budget));
      PrefixTotal(round.shares, n);
      FreshTotal(at, ids, first, pattern, round.shares[..n], round.picks);
    } else {
      SilentSendsNothing(at, ids, first, pattern, round.shares[..n], round.picks);
    }
  }

  lemma MulMono(b: nat, t: nat, factor: nat)
    requires b <= t
    ensures b * factor % UINT <= t * factor
  {
    assert b * factor <= t * factor;
  }

  /** Wrapping only lowers a budget below its geometric term. */
  lemma {:induction false} BudgetWraps(initial: nat, factor: nat, r: nat)
    ensures BudgetAt(initial, factor, r) <= initial * Pow(factor, r)
  {
    if r == 0 {
      assert Pow(factor, 0) == 1;
    } else {
      BudgetWraps(initial, factor, r - 1);
      TermStep(initial, factor, r - 1);
      MulMono(BudgetAt(initial, factor, r - 1), initial * Pow(factor, r - 1), factor);
    }
  }

  /** Multiplying and wrapping, twice, is wrapping the product. */
  lemma WrapProduct(x: nat, factor: nat)
    ensures x % UINT * factor % UINT == x * factor % UINT
  {
    var q, rest := x / UINT, x % UINT;
    assert x == q * UINT + rest;
    assert (q * UINT + rest) * factor == q * factor * UINT + rest * factor;
    WrapMultiple(q * factor, rest * factor);
  }

  lemma WrapMultiple(k: nat, x: nat)
    ensures (k * UINT + x) % UINT == x % UINT
  {
    var q, rest := x / UINT, x % UINT;
    assert k * UINT + x == (k + q) * UINT + rest;
  }

  /** The budget of round r is the geometric term, wrapped. */
  lemma {:induction false} BudgetExact(initial: nat, factor: nat, r: nat)
    requires initial < UINT
    ensures BudgetAt(initial, factor, r) == initial * Pow(factor, r) % UINT
  {
    if r == 0 {
      assert Pow(factor, 0) == 1;
    } else {
      BudgetExact(initial, factor, r - 1);
      TermStep(initial, factor, r - 1);
      WrapProduct(initial * Pow(factor, r - 1), factor);
    }
  }

  lemma BudgetFits(initial: nat, factor: nat, r: nat, term: nat)
    requires initial < UINT && term == initial * Pow(factor, r) < UINT
    ensures BudgetAt(initial, factor, r) == term
  {
    BudgetExact(initial, factor, r);
  }

  lemma BudgetSmall(initial: nat, factor: nat, r: nat)
    requires initial < UINT
    ensures BudgetAt(initial, factor, r) < UINT
  {
  }

  /** The rounds up to r have exactly the geometric budgets if and only if the last of these fits 64 bits. */
  lemma RingExact(initial: nat, factor: nat, r: nat)
    requires initial < UINT
    ensures (forall k :: 0 <= k <= r ==> BudgetAt(initial, factor, k) == initial * Pow(factor, k))
            <==> initial * Pow(factor, r) < UINT
  {
    BudgetSmall(initial, factor, r);
    if initial * Pow(factor, r) < UINT {
      forall k: nat | k <= r
        ensures BudgetAt(initial, factor, k) == initial * Pow(factor, k)
      {
        TermsBounded(initial, factor, k, r);
        BudgetFits(initial, factor, k, initial * Pow(factor, k));
      }
    }
  }

  /** A round of a node with somebody to ask gives out its whole budget, and so asks unless that is 0. */
  lemma RoundSpends(at: Addr, ids: nat -> ReqId, first: nat, pattern: Bytes,
                    nbrs: set<Addr>, budget: nat, answer: seq<FileInfo>, round: Round)
    requires IsRound(nbrs, budget, answer, round) && !(nbrs <= {NoAddr}) && budget < UINT / 2
    ensures BudgetSum(SendsOf(at, ids, first, pattern, round)) == budget
    ensures budget > 0 ==> SendsOf(at, ids, first, pattern, round) != [] && round.heard == answer
  {
    var n := |round.picks|;
    assert n == |round.shares| && round.shares[..n] == round.shares && round.picks[..n] == round.picks;
    DividedFair(round.shares, |nbrs|, ToInt(budget));
    FreshTotal(at, ids, first, pattern, round.shares, round.picks);
    SilentSendsNothing(at, ids, first, pattern, round.shares, round.picks);
  }

  lemma {:induction false} RoundAt(nbrs: set<Addr>, budgets: seq<nat>, answers: seq<seq<FileInfo>>,
                                   rounds: seq<Round>, r: nat)
    requires r < |rounds| <= |budgets| && |rounds| <= |answers| && AreRounds(nbrs, budgets, answers, rounds)
    ensures IsRound(nbrs, budgets[r], answers[r], rounds[r])
  {
    var k := |rounds| - 1;
    if r < k {
      RoundAt(nbrs, budgets, answers, rounds[..k], r);
    }
  }

  /**
   * The ring expands. In a search from a node with a neighbour other than the empty address, the requests
   * of round r give out exactly initial * factor^r, as long as that fits a signed 64-bit integer; there is
   * at least one if it is positive, and then all that comes back during the round is looked at.
   */
  lemma RingExpands(at: Addr, ids: nat -> ReqId, first: nat, pattern: Bytes, nbrs: set<Addr>,
                    initial: nat, factor: nat, n: nat, answers: seq<seq<FileInfo>>, rounds: seq<Round>, r: nat,
                    term: nat)
    requires r < |rounds| <= n && |rounds| <= |answers| && !(nbrs <= {NoAddr})
    requires AreRounds(nbrs, RingBudgets(initial, factor, n), answers, rounds)
    requires initial < UINT && term == initial * Pow(factor, r) < UINT / 2
    ensures var sends := SendsOf(at, ids, first, pattern, rounds[r]);
            BudgetSum(sends) == term && (term > 0 ==> sends != [] && rounds[r].heard == answers[r])
  {
    BudgetFits(initial, factor, r, term);
    RoundAt(nbrs, RingBudgets(initial, factor, n), answers, rounds, r);
    RoundSpends(at, ids, first, pattern, nbrs, term, answers[r], rounds[r]);
  }

  /**
   * The search finds what comes back. Retry rounds, if that fits a signed 64-bit integer, are made before
   * it ends without a name; and a file without missing chunks that comes back in one of them whose budget
   * is positive and fits is found. So unless a nameless file is found too, it does not end without a name.
   */
  lemma RingFinds(nbrs: set<Addr>, initial: nat, factor: nat, retry: nat, answers: seq<seq<FileInfo>>,
                  rounds: seq<Round>, r: nat, term: nat, fi: FileInfo)
    requires |rounds| == Rounds(retry) <= |answers| && r < retry < UINT / 2 && !(nbrs <= {NoAddr})
    requires AreRounds(nbrs, RingBudgets(initial, factor, Rounds(retry)), answers, rounds)
    requires initial < UINT && 0 < term == initial * Pow(factor, r) < UINT / 2
    ensures |rounds| == retry
    ensures fi in answers[r] && InfoIsFull(fi) ==> Found(rounds, fi.name) && (!Found(rounds, []) ==> !Unnamed(rounds))
  {
    RingExpands(NoAddr, _ => [], 0, [], nbrs, initial, factor, retry, answers, rounds, r, term);
    if fi in answers[r] && InfoIsFull(fi) {
      HeardIt(rounds[r], fi);
    }
  }

  lemma HeardIt(round: Round, fi: FileInfo)
    requires fi in round.heard && InfoIsFull(fi)
    ensures Heard(round, fi.name)
  {
  }

  /** Round r sends out at most terms[r], whatever ids it uses. */
  ghost predicate WithinTerms(at: Addr, ids: nat -> ReqId, pattern: Bytes, terms: seq<nat>, rounds: seq<Round>)
    requires |terms| == |rounds|
  {
    forall r: nat, first: nat :: r < |rounds| ==> BudgetSum(SendsOf(at, ids, first, pattern, rounds[r])) <= terms[r]
  }

  lemma {:induction false} RoundsWithinTerms(at: Addr, ids: nat -> ReqId, pattern: Bytes, nbrs: set<Addr>,
                                             budgets: seq<nat>, answers: seq<seq<FileInfo>>, rounds: seq<Round>)
    requires |rounds| <= |answers| && |rounds| <= |budgets| && AreRounds(nbrs, budgets, answers, rounds)
    ensures WithinTerms(at, ids, pattern, budgets[..|rounds|], rounds)
  {
    if rounds != [] {
      var k := |rounds| - 1;
      RoundsWithinTerms(at, ids, pattern, nbrs, budgets, answers, rounds[..k]);
      forall r: nat, first: nat | r < |rounds|
        ensures BudgetSum(SendsOf(at, ids, first, pattern, rounds[r])) <= budgets[r]
      {
        if r == k {
          RoundBudget(at, ids, first, pattern, nbrs, budgets[k], answers[k], rounds[k]);
        } else {
          assert rounds[..k][r] == rounds[r] && budgets[..k][r] == budgets[r];
        }
      }
    }
  }

  /** The budgets of n rounds total at most the geometric sum. */
  lemma {:induction false} RingTotal(initial: nat, factor: nat, n: nat)
    ensures Total(RingBudgets(initial, factor, n)) <= GeomSum(initial, factor, n)
  {
    if n > 0 {
      RingTotal(initial, factor, n - 1);
      BudgetWraps(initial, factor, n - 1);
      assert RingBudgets(initial, factor, n)[..n - 1] == RingBudgets(initial, factor, n - 1);
    }
  }

  lemma WithinPrefix(at: Addr, ids: nat -> ReqId, pattern: Bytes, terms: seq<nat>, rounds: seq<Round>, k: nat,
                     first: nat)
    requires |terms| == |rounds| && k < |rounds| && WithinTerms(at, ids, pattern, terms, rounds)
    ensures WithinTerms(at, ids, pattern, terms[..k], rounds[..k])
    ensures BudgetSum(SendsOf(at, ids, first, pattern, rounds[k])) <= terms[k]
  {
  }

  lemma {:induction false} LastRoundAdds(at: Addr, ids: nat -> ReqId, first: nat, pattern: Bytes, rounds: seq<Round>)
    requires rounds != []
    ensures var k := |rounds| - 1;
            var rest := RoundSends(at, ids, first, pattern, rounds[..k]);
            BudgetSum(RoundSends(at, ids, first, pattern, rounds))
            == BudgetSum(rest) + BudgetSum(SendsOf(at, ids, first + |rest|, pattern, rounds[k]))
  {
    var k := |rounds| - 1;
    var rest := RoundSends(at, ids, first, pattern, rounds[..k]);
    BudgetConcat(rest, SendsOf(at, ids, first + |rest|, pattern, rounds[k]));
  }

  /** All budgets that rounds within their terms send out sum to at most the sum of the terms. */
  lemma {:induction false} RoundsBudget(at: Addr, ids: nat -> ReqId, first: nat, pattern: Bytes,
                                        terms: seq<nat>, rounds: seq<Round>)
    requires |terms| == |rounds| && WithinTerms(at, ids, pattern, terms, rounds)
    ensures BudgetSum(RoundSends(at, ids, first, pattern, rounds)) <= Total(terms)
  {
    if rounds != [] {
      var k := |rounds| - 1;
      var rest := RoundSends(at, ids, first, pattern, rounds[..k]);
      WithinPrefix(at, ids, pattern, terms, rounds, k, first + |rest|);
      RoundsBudget(at, ids, first, pattern, terms[..k], rounds[..k]);
      LastRoundAdds(at, ids, first, pattern, rounds);
    }
  }

  // ---- every request of SearchFirst starts a flood of its own ----

  /** The k-th request has the k-th id and is a valid start of a flood. */
  ghost predicate OwnIds(at: Addr, ids: nat -> ReqId, first: nat, sends: seq<SearchPacket>)
  {
    forall k :: 0 <= k < |sends| ==> ValidStart(at, ids(first + k), [sends[k]])
  }

  lemma OwnIdsConcat(at: Addr, ids: nat -> ReqId, first: nat, xs: seq<SearchPacket>, ys: seq<SearchPacket>)
    requires OwnIds(at, ids, first, xs) && OwnIds(at, ids, first + |xs|, ys)
    ensures OwnIds(at, ids, first, xs + ys)
  {
    forall k | 0 <= k < |xs + ys|
      ensures ValidStart(at, ids(first + k), [(xs + ys)[k]])
    {
      if k >= |xs| {
        assert ValidStart(at, ids(first + |xs| + (k - |xs|)), [ys[k - |xs|]]);
      }
    }
  }

  lemma {:induction false} FreshIds(at: Addr, ids: nat -> ReqId, first: nat, pattern: Bytes,
                                    shares: seq<int>, picks: seq<Option<Addr>>)
    requires |shares| == |picks|
    ensures OwnIds(at, ids, first, FreshRequests(at, ids, first, pattern, shares, picks))
  {
    if shares != [] {
      var k := |shares| - 1;
      FreshIds(at, ids, first, pattern, shares[..k], picks[..k]);
      var rest := FreshRequests(at, ids, first, pattern, shares[..k], picks[..k]);
      if shares[k] > 0 {
        var nbr := if picks[k].Some? then picks[k].value else NoAddr;
        OwnIdsConcat(at, ids, first, rest, [Request(at, nbr, ids(first + |rest|), at, pattern, shares[k])]);
      }
    }
  }

  ghost predicate Injective(ids: nat -> ReqId)
  {
    forall i, j :: ids(i) == ids(j) ==> i == j
  }

  /** Unique ids make the requests' ids pairwise different. */
  lemma OwnIdsDiffer(at: Addr, ids: nat -> ReqId, first: nat, sends: seq<SearchPacket>)
    requires OwnIds(at, ids, first, sends) && Injective(ids)
    ensures forall i, j :: 0 <= i < j < |sends| ==> sends[i].msg.id != sends[j].msg.id
  {
    forall k | 0 <= k < |sends|
      ensures sends[k].msg.id == ids(first + k)
    {
      assert ValidStart(at, ids(first + k), [sends[k]]) && sends[k] in [sends[k]];
    }
  }

  /** Over all rounds the requests have the ids in order, and each may start its flood. */
  lemma {:induction false} RoundIds(at: Addr, ids: nat -> ReqId, first: nat, pattern: Bytes, rounds: seq<Round>)
    ensures OwnIds(at, ids, first, RoundSends(at, ids, first, pattern, rounds))
  {
    if rounds != [] {
      var k := |rounds| - 1;
      RoundIds(at, ids, first, pattern, rounds[..k]);
      var rest := RoundSends(at, ids, first, pattern, rounds[..k]);
      var round := rounds[k];
      var n := Min(|round.picks|, |round.shares|);
      FreshIds(at, ids, first + |rest|, pattern, round.shares[..n], round.picks[..n]);
      OwnIdsConcat(at, ids, first, rest, SendsOf(at, ids, first + |rest|, pattern, round));
    }
  }

  /** If the ids are unique, no request id is used twice over all rounds. */
  lemma RoundIdsDiffer(at: Addr, ids: nat -> ReqId, first: nat, pattern: Bytes, rounds: seq<Round>)
    requires Injective(ids)
    ensures var sends := RoundSends(at, ids, first, pattern, rounds);
            forall i, j :: 0 <= i < j < |sends| ==> sends[i].msg.id != sends[j].msg.id
  {
    RoundIds(at, ids, first, pattern, rounds);
    OwnIdsDiffer(at, ids, first, RoundSends(at, ids, first, pattern, rounds));
  }

  // ---- a flood's initial budget is what it started with ----

  lemma InitialStep(matches: Matcher, s: Network, step: Step, id: ReqId)
    requires Enabled(matches, s, step) && id in s.floods
    ensures id in Apply(matches, s, step).floods
    ensures Apply(matches, s, step).floods[id].initial == s.floods[id].initial
  {
  }

  lemma {:induction false} StartedFlood(matches: Matcher, s: Network, steps: seq<Step>,
                                        at: Addr, id: ReqId, sends: seq<SearchPacket>)
    requires ValidRun(matches, s, steps) && Start(at, id, sends) in steps
    ensures var f := Exec(matches, s, steps).floods; id in f && f[id].initial == Total(InFlight(sends, id))
  {
    var k := |steps| - 1;
    var before := Exec(matches, s, steps[..k]);
    if Start(at, id, sends) in steps[..k] {
      StartedFlood(matches, s, steps[..k], at, id, sends);
      InitialStep(matches, before, steps[k], id);
    } else {
      assert steps[k] == Start(at, id, sends);
    }
  }

  /** The budget that SearchAll gives out: none without neighbours, or if int(budget) is negative. */
  function GivenOut(nbrs: set<Addr>, budget: nat): nat
  {
    if nbrs == {} then 0 else Max(ToInt(budget), 0)
  }

  /** The first requests of a search give out at most the budget, and all of them exactly that. */
  lemma RequestsGiveOut(at: Addr, id: ReqId, pattern: Bytes, nbrs: set<Addr>, budget: nat,
                        shares: seq<int>, picks: seq<Option<Addr>>)
    requires |picks| <= |shares| && Divided(shares, |nbrs|, ToInt(budget))
    ensures var given := Total(InFlight(Requests(at, id, at, pattern, shares[..|picks|], picks), id));
            given <= GivenOut(nbrs, budget) && (|picks| == |shares| ==> given == GivenOut(nbrs, budget))
  {
    var sent := shares[..|picks|];
    if ToInt(budget) >= 0 {
      DividedFair(shares, |nbrs|, ToInt(budget));
      PrefixTotal(shares, |picks|);
      RequestsTotal(at, id, at, pattern, sent, picks);
      assert |picks| == |shares| ==> sent == shares;
    } else {
      RequestsGood(at, id, at, pattern, sent, picks);
    }
  }

  /**
   * However far it gets, SearchAll contacts pairwise distinct neighbours, and on a network that does
   * not duplicate its flood never makes more requests than the budget; the budgets of its requests
   * total exactly the search budget when all are sent.
   */
  lemma SearchAllTraffic(matches: Matcher, s0: Network, steps: seq<Step>, at: Addr, id: ReqId, pattern: Bytes,
                         nbrs: set<Addr>, budget: nat, shares: seq<int>, picks: seq<Option<Addr>>)
    requires Init(s0) && ValidRun(matches, s0, steps) && forall step :: step in steps ==> !step.Duplicate?
    requires |picks| <= |shares| && Divided(shares, |nbrs|, ToInt(budget))
    requires DistinctTargets(shares, picks, nbrs - {NoAddr})
    requires Start(at, id, Requests(at, id, at, pattern, shares[..|picks|], picks)) in steps
    ensures var sends := Requests(at, id, at, pattern, shares[..|picks|], picks);
            var floods := Exec(matches, s0, steps).floods;
            && (|picks| == |shares| ==> Total(InFlight(sends, id)) == GivenOut(nbrs, budget))
            && (forall i, j :: 0 <= i < j < |sends| ==> sends[i].destination != sends[j].destination)
            && (forall p :: p in sends ==> p.destination in nbrs - {NoAddr})
            && id in floods && floods[id].sent <= GivenOut(nbrs, budget)
  {
    RequestsGiveOut(at, id, pattern, nbrs, budget, shares, picks);
    TargetsDiffer(at, id, pattern, shares[..|picks|], picks, nbrs - {NoAddr});
    StartedFlood(matches, s0, steps, at, id, Requests(at, id, at, pattern, shares[..|picks|], picks));
    FloodConservation(matches, s0, steps, id);
  }

  predicate IsTarget(shares: seq<int>, picks: seq<Option<Addr>>, nbr: Addr)
    requires |picks| == |shares|
  {
    exists k :: 0 <= k < |shares| && shares[k] > 0 && picks[k] == Some(nbr)
  }

  /** The destinations are the targets of positive shares, in order. */
  lemma {:induction false} TargetsDiffer(at: Addr, id: ReqId, pattern: Bytes,
                                         shares: seq<int>, picks: seq<Option<Addr>>, nbrs: set<Addr>)
    requires |picks| == |shares| && DistinctTargets(shares, picks, nbrs)
    ensures var sends := Requests(at, id, at, pattern, shares, picks);
            && (forall i, j :: 0 <= i < j < |sends| ==> sends[i].destination != sends[j].destination)
            && (forall p :: p in sends ==> p.destination in nbrs && IsTarget(shares, picks, p.destination))
  {
    if shares != [] {
      var k := |shares| - 1;
      TargetsDiffer(at, id, pattern, shares[..k], picks[..k], nbrs);
      var rest := Requests(at, id, at, pattern, shares[..k], picks[..k]);
      forall p | p in rest
        ensures IsTarget(shares, picks, p.destination)
        ensures shares[k] > 0 ==> picks[k] != Some(p.destination)
      {
        assert IsTarget(shares[..k], picks[..k], p.destination);
        var j :| 0 <= j < k && shares[..k][j] > 0 && picks[..k][j] == Some(p.destination);
        assert shares[j] > 0 && picks[j] == Some(p.destination);
      }
      if shares[k] > 0 {
        assert picks[k] == Some(picks[k].value);
      }
    }
  }

  /** The requests that the floods of these sends have made so far. */
  function SentOf(floods: map<ReqId, Flood>, sends: seq<SearchPacket>): nat
  {
    if sends == [] then 0
    else
      var p := sends[|sends| - 1];
      SentOf(floods, sends[..|sends| - 1])
      + if p.msg.id in floods then floods[p.msg.id].sent else 0
  }

  lemma {:induction false} SentAtMostBudgets(floods: map<ReqId, Flood>, sends: seq<SearchPacket>)
    requires forall k :: 0 <= k < |sends| ==>
               sends[k].msg.id in floods && floods[sends[k].msg.id].sent <= BudgetOf(sends[k])
    ensures SentOf(floods, sends) <= BudgetSum(sends)
  {
    if sends != [] {
      var k := |sends| - 1;
      SentAtMostBudgets(floods, sends[..k]);
    }
  }

  /** The flood of one request that started alone. */
  lemma OwnFlood(matches: Matcher, s0: Network, steps: seq<Step>, at: Addr, id: ReqId, p: SearchPacket)
    requires Init(s0) && ValidRun(matches, s0, steps) && forall step :: step in steps ==> !step.Duplicate?
    requires ValidStart(at, id, [p]) && Start(at, p.msg.id, [p]) in steps
    ensures var floods := Exec(matches, s0, steps).floods;
            p.msg.id in floods && floods[p.msg.id].sent <= BudgetOf(p)
  {
    assert p in [p];
    StartedFlood(matches, s0, steps, at, p.msg.id, [p]);
    InFlightOne(p, p.msg.id);
    TotalOneMore([], BudgetOf(p));
    FloodConservation(matches, s0, steps, p.msg.id);
  }

  /**
   * The cost of SearchFirst. On a network that does not duplicate, when every request of its rounds
   * has started a flood, all these floods together never make more requests than the geometric sum
   * of the rounds' budgets, whatever the order of delivery and loss.
   */
  lemma SearchFirstTraffic(matches: Matcher, s0: Network, steps: seq<Step>, at: Addr, ids: nat -> ReqId, first: nat,
                           pattern: Bytes, nbrs: set<Addr>, initial: nat, factor: nat, n: nat,
                           answers: seq<seq<FileInfo>>, rounds: seq<Round>)
    requires Init(s0) && ValidRun(matches, s0, steps) && forall step :: step in steps ==> !step.Duplicate?
    requires |rounds| <= n && |rounds| <= |answers|
    requires AreRounds(nbrs, RingBudgets(initial, factor, n), answers, rounds)
    requires forall p :: p in RoundSends(at, ids, first, pattern, rounds) ==> Start(at, p.msg.id, [p]) in steps
    ensures SentOf(Exec(matches, s0, steps).floods, RoundSends(at, ids, first, pattern, rounds))
            <= GeomSum(initial, factor, |rounds|)
  {
    var sends := RoundSends(at, ids, first, pattern, rounds);
    var floods := Exec(matches, s0, steps).floods;
    RoundIds(at, ids, first, pattern, rounds);
    forall k | 0 <= k < |sends|
      ensures sends[k].msg.id in floods && floods[sends[k].msg.id].sent <= BudgetOf(sends[k])
    {
      assert ValidStart(at, ids(first + k), [sends[k]]);
      OwnFlood(matches, s0, steps, at, ids(first + k), sends[k]);
    }
    SentAtMostBudgets(floods, sends);
    var budgets := RingBudgets(initial, factor, n);
    RoundsWithinTerms(at, ids, pattern, nbrs, budgets, answers, rounds);
    RoundsBudget(at, ids, first, pattern, budgets[..|rounds|], rounds);
    assert budgets[..|rounds|] == RingBudgets(initial, factor, |rounds|);
    RingTotal(initial, factor, |rounds|);
  }
}
