/**
 * Whether every positive share of a divided budget can go to a neighbour of its own
 * (peer/impl/dataSharing.go, the send loop of SearchAll).
 */
module Targets {
  import opened Basics
  import opened Budgets

  /** Every positive share has a target, no two of them the same one. */
  ghost predicate DistinctTargets(shares: seq<int>, picks: seq<Option<Addr>>, targets: set<Addr>)
    requires |picks| <= |shares|
  {
    && (forall i :: 0 <= i < |picks| && shares[i] > 0 ==> picks[i].Some? && picks[i].value in targets)
    && forall i, j :: 0 <= i < j < |picks| && shares[i] > 0 && shares[j] > 0 ==> picks[i] != picks[j]
  }

  lemma TargetsOneMore(shares: seq<int>, picks: seq<Option<Addr>>, targets: set<Addr>, nbr: Addr)
    requires |picks| < |shares| && DistinctTargets(shares, picks, targets) && nbr !in targets
    ensures DistinctTargets(shares, picks + [Some(nbr)], targets + {nbr})
  {
  }

  /** How many shares are positive. */
  function Positives(shares: seq<int>): nat
  {
    if shares == [] then 0
    else Positives(shares[..|shares| - 1]) + if shares[|shares| - 1] > 0 then 1 else 0
  }

  lemma {:induction false} PositivesPrefix(shares: seq<int>, i: nat)
    requires i <= |shares|
    ensures Positives(shares[..i]) <= Positives(shares)
  {
    if i == |shares| {
      assert shares[..i] == shares;
    } else {
      PositivesPrefix(shares[..|shares| - 1], i);
      assert shares[..|shares| - 1][..i] == shares[..i];
    }
  }

  lemma PositivesOneMore(shares: seq<int>, i: nat)
    requires i < |shares|
    ensures Positives(shares[..i + 1]) == Positives(shares[..i]) + if shares[i] > 0 then 1 else 0
  {
    assert shares[..i + 1][..i] == shares[..i];
  }

  // ---- how many shares of a divided budget are positive ----

  lemma {:induction false} NonePositive(shares: seq<int>)
    requires forall i :: 0 <= i < |shares| ==> shares[i] <= 0
    ensures Positives(shares) == 0
  {
    if shares != [] {
      NonePositive(shares[..|shares| - 1]);
    }
  }

  lemma {:induction false} AllPositive(shares: seq<int>)
    requires forall i :: 0 <= i < |shares| ==> shares[i] > 0
    ensures Positives(shares) == |shares|
  {
    if shares != [] {
      AllPositive(shares[..|shares| - 1]);
    }
  }

  lemma {:induction false} ZeroOrOne(shares: seq<int>)
    requires forall i :: 0 <= i < |shares| ==> shares[i] == 0 || shares[i] == 1
    ensures Positives(shares) == Total(shares)
  {
    if shares != [] {
      ZeroOrOne(shares[..|shares| - 1]);
    }
  }

  lemma ShareRange(budget: int, n: nat)
    requires n > 0 && budget >= 0
    ensures budget < n ==> budget / n == 0
    ensures budget >= n ==> budget / n >= 1
  {
  }

  /** A budget reaches as many neighbours as it has units, and at most all. */
  lemma PositivesDivided(shares: seq<int>, n: nat, budget: int)
    requires Divided(shares, n, budget)
    ensures Positives(shares) == Max(0, Min(budget, n))
  {
    if budget < 0 {
      NonePositive(shares);
    } else if n > 0 {
      var extra :| IsExtra(extra, shares, budget);
      ShareRange(budget, n);
      if budget < n {
        ZeroOrOne(shares);
      } else {
        AllPositive(shares);
      }
    }
  }

  // ---- pigeonholes ----

  lemma {:induction false} AtMostTargets(shares: seq<int>, picks: seq<Option<Addr>>, targets: set<Addr>)
    requires |picks| == |shares| && DistinctTargets(shares, picks, targets)
    ensures Positives(shares) <= |targets|
  {
    if shares != [] {
      var k := |shares| - 1;
      if shares[k] > 0 {
        AtMostTargets(shares[..k], picks[..k], targets - {picks[k].value});
      } else {
        AtMostTargets(shares[..k], picks[..k], targets);
      }
    }
  }

  lemma {:induction false} EnoughTargets(shares: seq<int>, targets: set<Addr>) returns (picks: seq<Option<Addr>>)
    requires Positives(shares) <= |targets|
    ensures |picks| == |shares| && DistinctTargets(shares, picks, targets)
  {
    if shares == [] {
      picks := [];
    } else {
      var k := |shares| - 1;
      if shares[k] > 0 {
        var nbr :| nbr in targets;
        var rest := EnoughTargets(shares[..k], targets - {nbr});
        assert DistinctTargets(shares, rest, targets - {nbr});
        TargetsOneMore(shares, rest, targets - {nbr}, nbr);
        assert targets - {nbr} + {nbr} == targets;
        picks := rest + [Some(nbr)];
      } else {
        var rest := EnoughTargets(shares[..k], targets);
        picks := rest + [None];
      }
    }
  }

  lemma Candidates(nbrs: set<Addr>)
    ensures |nbrs - {NoAddr}| == |nbrs| - if NoAddr in nbrs then 1 else 0
  {
    if NoAddr !in nbrs {
      assert nbrs - {NoAddr} == nbrs;
    }
  }

  /**
   * The division counts the empty address if it is a neighbour, but no draw returns it. The positive
   * shares can go to distinct neighbours that a draw returns if and only if the empty address is no
   * neighbour or the budget is below the number of neighbours.
   */
  lemma TargetsExist(shares: seq<int>, nbrs: set<Addr>, budget: int)
    requires nbrs != {} && budget >= 0 && Divided(shares, |nbrs|, budget)
    ensures (exists picks :: |picks| == |shares| && DistinctTargets(shares, picks, nbrs - {NoAddr}))
            <==> NoAddr !in nbrs || budget < |nbrs|
  {
    PositivesDivided(shares, |nbrs|, budget);
    Candidates(nbrs);
    if NoAddr !in nbrs || budget < |nbrs| {
      var picks := EnoughTargets(shares, nbrs - {NoAddr});
      assert |picks| == |shares| && DistinctTargets(shares, picks, nbrs - {NoAddr});
    }
    forall picks | |picks| == |shares| && DistinctTargets(shares, picks, nbrs - {NoAddr})
      ensures NoAddr !in nbrs || budget < |nbrs|
    {
      AtMostTargets(shares, picks, nbrs - {NoAddr});
    }
  }

  /** With the empty address and one other neighbour, a budget of 2 has no distinct targets. */
  lemma NoTargets(b: Addr, shares: seq<int>, picks: seq<Option<Addr>>)
    requires b != NoAddr && Divided(shares, |{NoAddr, b}|, 2) && |picks| == |shares|
    ensures !DistinctTargets(shares, picks, {NoAddr, b} - {NoAddr})
  {
    assert |{NoAddr, b}| == 2;
    TargetsExist(shares, {NoAddr, b}, 2);
  }
}
