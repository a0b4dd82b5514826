/** Dividing a search budget among the neighbours (peer/impl/dataSharing.go, divideBudget). */
module Budgets {
  import opened Basics

  /** Go's integer division truncates toward zero. */
  function GoDiv(a: int, n: int): int
    requires n > 0
  {
    if a >= 0 then a / n else -((-a) / n)
  }

  function GoMod(a: int, n: int): int
    requires n > 0
  {
    a - n * GoDiv(a, n)
  }

  /** n equal shares, one more for the indices in `extra`. */
  function Shares(n: nat, share: int, extra: set<nat>): seq<int>
  {
    seq(n, i requires 0 <= i < n => share + (if i in extra then 1 else 0))
  }

  /** The shares sum to the budget and differ by at most 1; exactly budget mod n of them get one more. */
  ghost predicate Fair(shares: seq<int>, budget: int)
  {
    && |shares| > 0 && Total(shares) == budget
    && exists extra :: IsExtra(extra, shares, budget)
  }

  ghost predicate IsExtra(extra: set<nat>, shares: seq<int>, budget: int)
    requires |shares| > 0
  {
    && (forall i :: i in extra ==> i < |shares|)
    && |extra| == budget % |shares|
    && shares == Shares(|shares|, budget / |shares|, extra)
  }

  ghost predicate NoDebt(shares: seq<int>)
  {
    forall i :: 0 <= i < |shares| ==> shares[i] >= 0
  }

  /** What divideBudget returns for n neighbours. */
  ghost predicate Divided(shares: seq<int>, n: nat, budget: int)
  {
    && |shares| == n
    && (budget >= 0 && n > 0 ==> Fair(shares, budget))
    && (budget < 0 ==> forall i :: 0 <= i < |shares| ==> shares[i] <= 0)
  }

  lemma {:induction false} SharesTotal(n: nat, share: int, extra: set<nat>)
    requires forall i :: i in extra ==> i < n
    ensures Total(Shares(n, share, extra)) == n * share + |extra|
  {
    if n == 0 {
      assert extra == {};
    } else {
      var rest := extra - {n - 1};
      assert Shares(n, share, extra)[..n - 1] == Shares(n - 1, share, rest);
      SharesTotal(n - 1, share, rest);
      MulSucc(n - 1, share);
      assert extra == if n - 1 in extra then rest + {n - 1} else rest;
    }
  }

  lemma FairFromExtra(n: nat, budget: int, extra: set<nat>)
    requires n > 0 && budget >= 0
    requires |extra| == budget % n && forall i :: i in extra ==> i < n
    ensures Fair(Shares(n, budget / n, extra), budget)
  {
    SharesTotal(n, budget / n, extra);
    assert IsExtra(extra, Shares(n, budget / n, extra), budget);
  }

  /** Fewer than n indices are taken, so one below n is free: the retry loop can always end. */
  lemma {:induction false} FreeIndex(n: nat, taken: set<nat>) returns (i: nat)
    requires |taken| < n
    ensures i < n && i !in taken
  {
    if n - 1 !in taken {
      i := n - 1;
    } else {
      i := FreeIndex(n - 1, taken - {n - 1});
    }
  }

  /** Any two of fair shares differ by at most 1. */
  lemma FairShares(shares: seq<int>, budget: int, i: nat, j: nat)
    requires Fair(shares, budget) && i < |shares| && j < |shares|
    ensures -1 <= shares[i] - shares[j] <= 1
    ensures budget >= 0 ==> shares[i] >= 0
  {
    var extra :| IsExtra(extra, shares, budget);
  }

  /** `count` distinct random indices below n. */
  method DrawIndices(n: nat, count: nat) returns (indices: set<nat>)
    requires count <= n
    ensures |indices| == count && forall k :: k in indices ==> k < n
  {
    indices := {};
    for i := 0 to count
      invariant |indices| == i && forall k :: k in indices ==> k < n
    {
      ghost var free := FreeIndex(n, indices);
      var index: nat :| index < n && index !in indices;
      indices := indices + {index};
    }
  }

  /** Adds 1 to the budgets at these indices, in any order. */
  method Increment(before: seq<int>, ghost share: int, indices: set<nat>) returns (budgets: seq<int>)
    requires before == Shares(|before|, share, {}) && forall k :: k in indices ==> k < |before|
    ensures budgets == Shares(|before|, share, indices)
  {
    budgets := before;
    var todo := indices;
    while todo != {}
      invariant todo <= indices
      invariant budgets == Shares(|before|, share, indices - todo)
      decreases todo
    {
      var k :| k in todo;
      budgets := budgets[k := budgets[k] + 1];
      todo := todo - {k};
    }
    assert indices - todo == indices;
  }

  method DivideBudget(budget: int, numNbrs: nat) returns (budgets: seq<int>)
    ensures Divided(budgets, numNbrs, budget)
  {
    budgets := [];
    if numNbrs == 0 {
      return;
    }
    var share := GoDiv(budget, numNbrs);
    for i := 0 to numNbrs
      invariant budgets == Shares(i, share, {})
    {
      budgets := budgets + [share];
    }
    var remaining := GoMod(budget, numNbrs);
    GoRemainder(budget, numNbrs);
    if remaining > 0 {
      var indices := DrawIndices(numNbrs, remaining);
      budgets := Increment(budgets, share, indices);
      FairFromExtra(numNbrs, budget, indices);
    } else if budget >= 0 {
      FairFromExtra(numNbrs, budget, {});
    }
  }

  lemma GoRemainder(budget: int, n: nat)
    requires n > 0
    ensures budget >= 0 ==> GoMod(budget, n) == budget % n < n
    ensures budget < 0 ==> GoMod(budget, n) <= 0 && GoDiv(budget, n) <= 0
  {
    if budget < 0 {
      assert (-budget) == n * ((-budget) / n) + (-budget) % n;
    }
  }
}
