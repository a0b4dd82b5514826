/** The random topology generator (internal/graph/mod.go): its output is always connected. */
module Topology {
  import opened Basics

  /** One draw for a pair: no edge, or an edge in one of the two directions. */
  datatype Draw = Skip | Edge(inverse: bool)

  type Neighbours = map<Addr, seq<Addr>>

  /** How often b is listed as a neighbour of a. */
  ghost function Listed(adj: Neighbours, a: Addr, b: Addr): nat
  {
    if a in adj then multiset(adj[a])[b] else 0
  }

  /** The edges between two peers, in both directions. */
  ghost function Edges(adj: Neighbours, a: Addr, b: Addr): nat
  {
    Listed(adj, a, b) + Listed(adj, b, a)
  }

  function AddEdge(adj: Neighbours, a: Addr, b: Addr): Neighbours
  {
    adj[a := (if a in adj then adj[a] else []) + [b]]
  }

  /** The new edge is listed once more, in its direction. */
  lemma AddEdgeListed(adj: Neighbours, a: Addr, b: Addr, x: Addr, y: Addr)
    ensures Listed(AddEdge(adj, a, b), x, y) == Listed(adj, x, y) + if x == a && y == b then 1 else 0
  {
    var before := if a in adj then adj[a] else [];
    assert multiset(before + [b]) == multiset(before) + multiset{b};
  }

  lemma AddEdgeCounts(adj: Neighbours, a: Addr, b: Addr, x: Addr, y: Addr)
    requires a != b && x != y
    ensures Edges(AddEdge(adj, a, b), x, y)
            == Edges(adj, x, y) + (if (x == a && y == b) || (x == b && y == a) then 1 else 0)
  {
    AddEdgeListed(adj, a, b, x, y);
    AddEdgeListed(adj, a, b, y, x);
  }

  /** Peer y has an edge with an earlier peer. */
  ghost predicate HasParent(adj: Neighbours, peers: seq<Addr>, y: nat)
    requires y < |peers|
  {
    exists x :: 0 <= x < y && Edges(adj, peers[x], peers[y]) == 1
  }

  /** Every peer but the first has an edge with an earlier one. */
  ghost predicate Grown(adj: Neighbours, peers: seq<Addr>, n: nat)
    requires n <= |peers|
  {
    forall y :: 1 <= y < n ==> HasParent(adj, peers, y)
  }

  /** Each pair has at most one edge, in one direction; none yet from (i, j) on. */
  ghost predicate Single(adj: Neighbours, peers: seq<Addr>, i: nat, j: nat)
  {
    forall x, y :: 0 <= x < y < |peers| ==>
      && Edges(adj, peers[x], peers[y]) <= 1
      && (y > i || (y == i && x >= j) ==> Edges(adj, peers[x], peers[y]) == 0)
  }

  /** Only peers are listed, and none as its own neighbour. */
  ghost predicate AmongPeers(adj: Neighbours, peers: seq<Addr>)
  {
    forall a, b :: IsListed(adj, a, b) ==> a in peers && b in peers && a != b
  }

  ghost predicate IsListed(adj: Neighbours, a: Addr, b: Addr)
  {
    a in adj && b in adj[a]
  }

  lemma AddEdgeIsListed(adj: Neighbours, a: Addr, b: Addr, x: Addr, y: Addr)
    ensures IsListed(AddEdge(adj, a, b), x, y) ==> IsListed(adj, x, y) || (x == a && y == b)
  {
  }

  lemma AddEdgeStep(adj: Neighbours, peers: seq<Addr>, i: nat, j: nat, a: Addr, b: Addr)
    requires Distinct(peers) && j < i < |peers|
    requires Single(adj, peers, i, j) && Grown(adj, peers, i) && AmongPeers(adj, peers)
    requires (a == peers[j] && b == peers[i]) || (a == peers[i] && b == peers[j])
    ensures var adj' := AddEdge(adj, a, b);
            && Single(adj', peers, i, j + 1) && Grown(adj', peers, i) && AmongPeers(adj', peers)
            && HasParent(adj', peers, i)
  {
    var adj' := AddEdge(adj, a, b);
    forall x, y | 0 <= x < y < |peers|
      ensures Edges(adj', peers[x], peers[y]) == Edges(adj, peers[x], peers[y]) + (if x == j && y == i then 1 else 0)
    {
      AddEdgeCounts(adj, a, b, peers[x], peers[y]);
    }
    forall y | 1 <= y < i
      ensures HasParent(adj', peers, y)
    {
      assert HasParent(adj, peers, y);
      var x :| 0 <= x < y && Edges(adj, peers[x], peers[y]) == 1;
      assert Edges(adj', peers[x], peers[y]) == 1;
    }
    assert Edges(adj', peers[j], peers[i]) == 1;
    forall x, y | IsListed(adj', x, y)
      ensures x in peers && y in peers && x != y
    {
      AddEdgeIsListed(adj, a, b, x, y);
    }
  }

  /** The invariant of a pass for peer i that has reached pair (j, i). */
  ghost predicate Built(adj: Neighbours, peers: seq<Addr>, i: nat, j: nat)
    requires i < |peers|
  {
    Single(adj, peers, i, j) && Grown(adj, peers, i) && AmongPeers(adj, peers)
  }

  // ---- the edges are those drawn ----

  predicate Connects(pass: seq<Draw>)
  {
    exists j :: 0 <= j < |pass| && pass[j].Edge?
  }

  /** The draws of the passes for one peer; the code repeats passes until one draws an edge. */
  predicate Terminates(passes: seq<seq<Draw>>, i: nat)
  {
    (forall pass :: pass in passes ==> |pass| == i) && exists t :: 0 <= t < |passes| && Connects(passes[t])
  }

  /** The draws that count: those of the first pass with an edge. */
  function Final(passes: seq<seq<Draw>>): seq<Draw>
  {
    if passes == [] then [] else if Connects(passes[0]) then passes[0] else Final(passes[1..])
  }

  lemma {:induction false} FinalIs(passes: seq<seq<Draw>>, t: nat)
    requires t < |passes| && Connects(passes[t]) && forall k :: 0 <= k < t ==> !Connects(passes[k])
    ensures Final(passes) == passes[t]
  {
    if t > 0 {
      FinalIs(passes[1..], t - 1);
    }
  }

  /** Between an earlier peer a and b there is exactly the edge drawn: from a if inverse, else from b. */
  ghost predicate AsDrawn(adj: Neighbours, a: Addr, b: Addr, draw: Draw)
  {
    && Listed(adj, a, b) == (if draw == Edge(true) then 1 else 0)
    && Listed(adj, b, a) == (if draw == Edge(false) then 1 else 0)
  }

  /** So for peer i and the first j peers. */
  ghost predicate PassDrawn(adj: Neighbours, peers: seq<Addr>, i: nat, j: nat, pass: seq<Draw>)
    requires j <= |pass| <= i < |peers|
  {
    forall x :: 0 <= x < j ==> AsDrawn(adj, peers[x], peers[i], pass[x])
  }

  /** So for the first n peers. */
  ghost predicate AllDrawn(adj: Neighbours, peers: seq<Addr>, n: nat, draws: seq<seq<seq<Draw>>>)
    requires n <= |peers| == |draws|
  {
    forall y :: 1 <= y < n ==> |Final(draws[y])| == y && PassDrawn(adj, peers, y, y, Final(draws[y]))
  }

  /** The edges among the first n peers are the same. */
  ghost predicate SameBelow(before: Neighbours, adj: Neighbours, peers: seq<Addr>, n: nat)
    requires n <= |peers|
  {
    forall x, y :: 0 <= x < n && 0 <= y < n ==> Listed(adj, peers[x], peers[y]) == Listed(before, peers[x], peers[y])
  }

  /** Drawing one more pair. */
  lemma DrawOne(before: Neighbours, adj: Neighbours, adj': Neighbours, peers: seq<Addr>, i: nat, j: nat,
                pass: seq<Draw>, from: Addr, to: Addr)
    requires Distinct(peers) && j < i == |pass| < |peers| && Built(adj, peers, i, j)
    requires SameBelow(before, adj, peers, i) && PassDrawn(adj, peers, i, j, pass)
    requires match pass[j]
             case Skip => adj' == adj
             case Edge(inverse) =>
               && from == (if inverse then peers[j] else peers[i]) && to == (if inverse then peers[i] else peers[j])
               && adj' == AddEdge(adj, from, to)
    ensures SameBelow(before, adj', peers, i) && PassDrawn(adj', peers, i, j + 1, pass)
  {
    assert Edges(adj, peers[j], peers[i]) == 0;
    if pass[j].Edge? {
      forall x, y | 0 <= x < |peers| && 0 <= y < |peers|
        ensures Listed(adj', peers[x], peers[y])
                == Listed(adj, peers[x], peers[y]) + if peers[x] == from && peers[y] == to then 1 else 0
      {
        AddEdgeListed(adj, from, to, peers[x], peers[y]);
      }
    }
  }

  lemma DrawnMore(before: Neighbours, adj: Neighbours, peers: seq<Addr>, i: nat, draws: seq<seq<seq<Draw>>>)
    requires i < |peers| == |draws| && AllDrawn(before, peers, i, draws) && SameBelow(before, adj, peers, i)
    requires |Final(draws[i])| == i && PassDrawn(adj, peers, i, i, Final(draws[i]))
    ensures AllDrawn(adj, peers, i + 1, draws)
  {
    forall y | 1 <= y < i
      ensures PassDrawn(adj, peers, y, y, Final(draws[y]))
    {
      assert PassDrawn(before, peers, y, y, Final(draws[y]));
      forall x | 0 <= x < y
        ensures AsDrawn(adj, peers[x], peers[y], Final(draws[y])[x])
      {
        assert AsDrawn(before, peers[x], peers[y], Final(draws[y])[x]);
      }
    }
  }

  /**
   * The edge-building loops, for any draws on which they end: every peer but the first gets an edge
   * with an earlier one, each pair gets at most one edge in one direction, and the edges are exactly those
   * drawn in the first pass with an edge for each peer, in the direction drawn.
   */
  method Generate(peers: seq<Addr>, draws: seq<seq<seq<Draw>>>) returns (adj: Neighbours)
    requires Distinct(peers)
    requires |draws| == |peers| && forall i :: 1 <= i < |peers| ==> Terminates(draws[i], i)
    ensures Grown(adj, peers, |peers|)
    ensures Single(adj, peers, |peers|, 0)
    ensures AmongPeers(adj, peers)
    ensures AllDrawn(adj, peers, |peers|, draws)
  {
    adj := map[];
    var i := 1;
    while i < |peers|
      invariant 1 <= i && (i <= |peers| || |peers| == 0)
      invariant Single(adj, peers, i, 0) && AmongPeers(adj, peers)
      invariant i <= |peers| ==> Grown(adj, peers, i) && AllDrawn(adj, peers, i, draws)
    {
      ghost var before := adj;
      adj := ConnectPeer(adj, peers, i, draws[i]);
      DrawnMore(before, adj, peers, i, draws);
      i := i + 1;
    }
  }

  /** The passes for one peer: a pass that draws no edge leaves no trace and is repeated. */
  method ConnectPeer(before: Neighbours, peers: seq<Addr>, i: nat, passes: seq<seq<Draw>>) returns (adj: Neighbours)
    requires Distinct(peers) && 1 <= i < |peers| && Terminates(passes, i)
    requires Single(before, peers, i, 0) && Grown(before, peers, i) && AmongPeers(before, peers)
    ensures Single(adj, peers, i + 1, 0) && Grown(adj, peers, i + 1) && AmongPeers(adj, peers)
    ensures SameBelow(before, adj, peers, i) && |Final(passes)| == i && PassDrawn(adj, peers, i, i, Final(passes))
  {
    adj := before;
    var connected := false;
    var t := 0;
    while !connected
      invariant 0 <= t <= |passes|
      invariant if connected then Built(adj, peers, i, i) && HasParent(adj, peers, i)
                                  && SameBelow(before, adj, peers, i) && |Final(passes)| == i
                                  && PassDrawn(adj, peers, i, i, Final(passes))
                else adj == before && forall k :: 0 <= k < t ==> !Connects(passes[k])
      decreases |passes| - t
    {
      assert passes[t] in passes;
      adj, connected := OnePass(adj, peers, i, passes[t]);
      if connected {
        FinalIs(passes, t);
      }
      t := t + 1;
    }
  }

  lemma SkipOne(adj: Neighbours, peers: seq<Addr>, i: nat, j: nat)
    requires j < i < |peers| && Built(adj, peers, i, j)
    ensures Built(adj, peers, i, j + 1)
  {
  }

  /** One pass over the earlier peers. */
  method OnePass(before: Neighbours, peers: seq<Addr>, i: nat, pass: seq<Draw>)
    returns (adj: Neighbours, connected: bool)
    requires Distinct(peers) && 1 <= i == |pass| < |peers| && Built(before, peers, i, 0)
    ensures connected == Connects(pass)
    ensures !connected ==> adj == before
    ensures connected ==> Built(adj, peers, i, i) && HasParent(adj, peers, i)
    ensures SameBelow(before, adj, peers, i) && PassDrawn(adj, peers, i, i, pass)
  {
    adj, connected := before, false;
    for j := 0 to i
      invariant Built(adj, peers, i, j) && SameBelow(before, adj, peers, i) && PassDrawn(adj, peers, i, j, pass)
      invariant connected == Connects(pass[..j])
      invariant if connected then HasParent(adj, peers, i) else adj == before
    {
      assert pass[..j + 1] == pass[..j] + [pass[j]];
      ConnectsOneMore(pass, j);
      match pass[j] {
        case Skip =>
          SkipOne(adj, peers, i, j);
          DrawOne(before, adj, adj, peers, i, j, pass, peers[i], peers[j]);
        case Edge(inverse) =>
          connected := true;
          var from, to := if inverse then peers[j] else peers[i], if inverse then peers[i] else peers[j];
          AddEdgeStep(adj, peers, i, j, from, to);
          DrawOne(before, adj, AddEdge(adj, from, to), peers, i, j, pass, from, to);
          adj := adj[from := (if from in adj then adj[from] else []) + [to]];
      }
    }
    assert pass[..i] == pass;
  }

  lemma ConnectsOneMore(pass: seq<Draw>, j: nat)
    requires j < |pass|
    ensures Connects(pass[..j + 1]) <==> Connects(pass[..j]) || pass[j].Edge?
  {
    if pass[j].Edge? {
      assert pass[..j + 1][j].Edge?;
    }
    if Connects(pass[..j]) {
      var k :| 0 <= k < j && pass[..j][k].Edge?;
      assert pass[..j + 1][k].Edge?;
    }
  }

  // ---- connectivity ----

  ghost predicate Adjacent(adj: Neighbours, a: Addr, b: Addr)
  {
    Edges(adj, a, b) > 0
  }

  /** A walk along edges in either direction that stays among the first n peers. */
  ghost predicate IsWalk(adj: Neighbours, peers: seq<Addr>, n: nat, walk: seq<Addr>)
    requires n <= |peers|
  {
    && |walk| > 0 && (forall a :: a in walk ==> a in peers[..n])
    && forall k :: 0 <= k < |walk| - 1 ==> Adjacent(adj, walk[k], walk[k + 1])
  }

  ghost predicate Connected(adj: Neighbours, peers: seq<Addr>, n: nat, a: Addr, b: Addr)
    requires n <= |peers|
  {
    exists walk :: IsWalk(adj, peers, n, walk) && walk[0] == a && walk[|walk| - 1] == b
  }

  /** From any peer a walk leads down to the first. */
  lemma {:induction false} WalkDown(adj: Neighbours, peers: seq<Addr>, n: nat, i: nat) returns (walk: seq<Addr>)
    requires i < n <= |peers| && Grown(adj, peers, n)
    ensures IsWalk(adj, peers, n, walk) && walk[0] == peers[i] && walk[|walk| - 1] == peers[0]
  {
    assert peers[..n][i] == peers[i];
    if i == 0 {
      walk := [peers[0]];
    } else {
      assert HasParent(adj, peers, i);
      var x :| 0 <= x < i && Edges(adj, peers[x], peers[i]) == 1;
      var rest := WalkDown(adj, peers, n, x);
      walk := [peers[i]] + rest;
    }
  }

  lemma {:induction false} WalkBack(adj: Neighbours, peers: seq<Addr>, n: nat, walk: seq<Addr>)
    returns (back: seq<Addr>)
    requires n <= |peers| && IsWalk(adj, peers, n, walk)
    ensures IsWalk(adj, peers, n, back) && back[0] == walk[|walk| - 1] && back[|back| - 1] == walk[0]
  {
    if |walk| == 1 {
      back := walk;
    } else {
      assert walk[0] in walk && walk[1..][0] == walk[1];
      forall k | 0 <= k < |walk[1..]| - 1
        ensures Adjacent(adj, walk[1..][k], walk[1..][k + 1])
      {
        assert Adjacent(adj, walk[k + 1], walk[k + 2]);
      }
      var rest := WalkBack(adj, peers, n, walk[1..]);
      back := rest + [walk[0]];
      assert Adjacent(adj, walk[0], walk[1]);
    }
  }

  /**
   * Connected topology: after every outer iteration the undirected graph on the peers so far is
   * connected, by walks among those peers alone.
   */
  lemma GrownIsConnected(adj: Neighbours, peers: seq<Addr>, n: nat, i: nat, k: nat)
    requires n <= |peers| && Grown(adj, peers, n) && i < n && k < n
    ensures Connected(adj, peers, n, peers[i], peers[k])
  {
    var down := WalkDown(adj, peers, n, i);
    var other := WalkDown(adj, peers, n, k);
    var up := WalkBack(adj, peers, n, other);
    var walk := down + up[1..];
    forall j | 0 <= j < |walk| - 1
      ensures Adjacent(adj, walk[j], walk[j + 1])
    {
      if j < |down| - 1 {
        assert Adjacent(adj, down[j], down[j + 1]);
      } else {
        assert Adjacent(adj, up[j - (|down| - 1)], up[j - (|down| - 1) + 1]);
      }
    }
    assert IsWalk(adj, peers, n, walk);
  }
}
