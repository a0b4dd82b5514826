/** Shared vocabulary: options, addresses, byte strings, catalogs, finite sums, removal from a sequence. */
module Basics {

  datatype Option<+T> = None | Some(value: T)

  /** A socket address; `NoAddr` is the empty string. */
  datatype Addr = NoAddr | Host(name: string)

  type byte = x: int | 0 <= x < 256

  /** A Go string and a Go byte slice are both byte sequences; nil is `None` where it matters. */
  type Bytes = seq<byte>

  /** The catalog lists the peer under the key. */
  predicate Listed(catalog: map<Bytes, set<Addr>>, key: Bytes, peer: Addr)
  {
    key in catalog && peer in catalog[key]
  }

  function CatalogAdd(catalog: map<Bytes, set<Addr>>, key: Bytes, peer: Addr): map<Bytes, set<Addr>>
  {
    catalog[key := (if key in catalog then catalog[key] else {}) + {peer}]
  }

  function Max(a: int, b: int): int { if a < b then b else a }

  function Min(a: int, b: int): int { if a < b then a else b }

  predicate Distinct<T(==)>(xs: seq<T>)
  {
    forall i, j :: 0 <= i < j < |xs| ==> xs[i] != xs[j]
  }

  function RemoveAt<T>(xs: seq<T>, i: nat): (r: seq<T>)
    requires i < |xs|
  {
    xs[..i] + xs[i + 1..]
  }

  lemma RemoveAtMembers<T>(xs: seq<T>, i: nat)
    requires i < |xs|
    ensures forall x :: x in RemoveAt(xs, i) ==> x in xs
    ensures forall x :: x in xs && x != xs[i] ==> x in RemoveAt(xs, i)
  {
    forall x | x in xs && x != xs[i]
      ensures x in RemoveAt(xs, i)
    {
      var k :| 0 <= k < |xs| && xs[k] == x;
      assert RemoveAt(xs, i)[if k < i then k else k - 1] == x;
    }
  }

  lemma ConcatAssoc<T>(xs: seq<T>, ys: seq<T>, zs: seq<T>)
    ensures (xs + ys) + zs == xs + (ys + zs)
  {
  }

  lemma MemberLast<T>(xs: seq<T>, x: T)
    requires xs != []
    ensures x in xs <==> x in xs[..|xs| - 1] || x == xs[|xs| - 1]
  {
    assert xs == xs[..|xs| - 1] + [xs[|xs| - 1]];
  }

  lemma ConcatLast<T>(xs: seq<T>, ys: seq<T>)
    requires ys != []
    ensures xs + ys == (xs + ys[..|ys| - 1]) + [ys[|ys| - 1]]
  {
  }

  /** The sum of f over the listed addresses. */
  ghost function Sum<T(!new)>(xs: seq<T>, f: T -> nat): nat
  {
    if xs == [] then 0 else Sum(xs[..|xs| - 1], f) + f(xs[|xs| - 1])
  }

  lemma {:induction false} SumMonotone<T(!new)>(xs: seq<T>, f: T -> nat, g: T -> nat)
    requires forall x :: x in xs ==> f(x) <= g(x)
    ensures Sum(xs, f) <= Sum(xs, g)
  {
    if xs != [] {
      SumMonotone(xs[..|xs| - 1], f, g);
    }
  }

  /** Raising one summand by d raises the sum by at least d. */
  lemma {:induction false} SumRaise<T(!new)>(xs: seq<T>, f: T -> nat, g: T -> nat, a: T, d: nat)
    requires a in xs
    requires forall x :: x in xs ==> f(x) <= g(x)
    requires f(a) + d <= g(a)
    ensures Sum(xs, f) + d <= Sum(xs, g)
  {
    var n := |xs| - 1;
    if xs[n] == a {
      SumMonotone(xs[..n], f, g);
    } else {
      SumRaise(xs[..n], f, g, a, d);
    }
  }

  /** Changing the summand of one of several distinct addresses changes the sum by that much. */
  lemma {:induction false} SumUpdate<T(!new)>(xs: seq<T>, f: T -> nat, g: T -> nat, a: T)
    requires Distinct(xs) && a in xs
    requires forall x :: x in xs && x != a ==> f(x) == g(x)
    ensures Sum(xs, f) + g(a) == Sum(xs, g) + f(a)
  {
    var n := |xs| - 1;
    if xs[n] == a {
      SumEqual(xs[..n], f, g);
    } else {
      SumUpdate(xs[..n], f, g, a);
    }
  }

  lemma {:induction false} SumEqual<T(!new)>(xs: seq<T>, f: T -> nat, g: T -> nat)
    requires forall x :: x in xs ==> f(x) == g(x)
    ensures Sum(xs, f) == Sum(xs, g)
  {
    if xs != [] {
      SumEqual(xs[..|xs| - 1], f, g);
    }
  }

  /** The total of a list of numbers. */
  function Total(xs: seq<int>): int
  {
    if xs == [] then 0 else Total(xs[..|xs| - 1]) + xs[|xs| - 1]
  }

  lemma {:induction false} TotalConcat(xs: seq<int>, ys: seq<int>)
    ensures Total(xs + ys) == Total(xs) + Total(ys)
  {
    if ys == [] {
      assert xs + ys == xs;
    } else {
      var n := |ys| - 1;
      assert (xs + ys)[..|xs + ys| - 1] == xs + ys[..n];
      TotalConcat(xs, ys[..n]);
    }
  }

  lemma TotalOneMore(xs: seq<int>, x: int)
    ensures Total(xs + [x]) == Total(xs) + x
  {
    assert (xs + [x])[..|xs + [x]| - 1] == xs;
  }

  lemma MulSucc(n: int, w: int)
    ensures (n + 1) * w == n * w + w
  {
  }
}
