/** What search replies teach: catalogs and full-file reports are sound in every run. */
module Catalogs {
  import opened Basics
  import opened SearchNode
  import opened SearchNetwork

  ghost predicate Holds(nodes: map<Addr, NodeState>, peer: Addr, key: Bytes)
  {
    peer in nodes && key in nodes[peer].blob
  }

  /** The source of a reply holds the metafile and every chunk it names. */
  ghost predicate InfoHeld(nodes: map<Addr, NodeState>, source: Addr, fi: FileInfo)
  {
    Holds(nodes, source, fi.metahash) && forall k :: Some(k) in fi.chunks ==> Holds(nodes, source, k)
  }

  ghost predicate ReplyHeld(nodes: map<Addr, NodeState>, p: SearchPacket)
  {
    p.msg.SearchReply? ==> forall fi :: fi in p.msg.responses ==> InfoHeld(nodes, p.source, fi)
  }

  ghost predicate RepliesHeld(nodes: map<Addr, NodeState>, net: seq<SearchPacket>)
  {
    forall p :: p in net ==> ReplyHeld(nodes, p)
  }

  ghost predicate CatalogHeld(nodes: map<Addr, NodeState>, catalog: map<Bytes, set<Addr>>)
  {
    forall k, peer :: Listed(catalog, k, peer) ==> Holds(nodes, peer, k)
  }

  ghost predicate CatalogsHeld(nodes: map<Addr, NodeState>)
  {
    forall a :: a in nodes ==> CatalogHeld(nodes, nodes[a].catalog)
  }

  ghost predicate CatInv(s: Network)
  {
    Named(s.nodes) && RepliesHeld(s.nodes, s.net) && CatalogsHeld(s.nodes)
  }

  /** Blob stores only grow. */
  ghost predicate BlobsGrow(nodes: map<Addr, NodeState>, later: map<Addr, NodeState>)
  {
    forall a :: a in nodes ==> a in later && forall k :: k in nodes[a].blob ==> k in later[a].blob
  }

  lemma HeldLater(nodes: map<Addr, NodeState>, later: map<Addr, NodeState>, net: seq<SearchPacket>)
    requires BlobsGrow(nodes, later) && RepliesHeld(nodes, net)
    ensures RepliesHeld(later, net)
  {
    forall p | p in net
      ensures ReplyHeld(later, p)
    {
      assert ReplyHeld(nodes, p);
    }
  }

  lemma {:induction false} CatalogChunksHeld(nodes: map<Addr, NodeState>, catalog: map<Bytes, set<Addr>>,
                                             chunks: seq<Option<Bytes>>, peer: Addr)
    requires CatalogHeld(nodes, catalog) && forall k :: Some(k) in chunks ==> Holds(nodes, peer, k)
    ensures CatalogHeld(nodes, CatalogChunks(catalog, chunks, peer))
  {
    if chunks != [] {
      CatalogChunksHeld(nodes, catalog, chunks[..|chunks| - 1], peer);
      assert chunks[|chunks| - 1] in chunks;
    }
  }

  lemma {:induction false} LearnHeld(nodes: map<Addr, NodeState>, n: NodeState, responses: seq<FileInfo>, source: Addr)
    requires CatalogHeld(nodes, n.catalog) && forall fi :: fi in responses ==> InfoHeld(nodes, source, fi)
    ensures CatalogHeld(nodes, HandleReply(n, responses, source).catalog)
  {
    if responses != [] {
      var k := |responses| - 1;
      LearnHeld(nodes, n, responses[..k], source);
      var fi := responses[k];
      assert fi in responses && InfoHeld(nodes, source, fi);
      var before := HandleReply(n, responses[..k], source).catalog;
      assert CatalogHeld(nodes, CatalogAdd(before, fi.metahash, source));
      CatalogChunksHeld(nodes, CatalogAdd(before, fi.metahash, source), fi.chunks, source);
    }
  }

  /** What a node reports of its own stores it holds. */
  lemma OwnInfosHeld(nodes: map<Addr, NodeState>, n: NodeState, matches: Matcher, pattern: Bytes, infos: seq<FileInfo>)
    requires Responses(n, matches, pattern, infos) && n.addr in nodes
    requires forall k :: k in n.blob ==> k in nodes[n.addr].blob
    ensures forall fi :: fi in infos ==> InfoHeld(nodes, n.addr, fi)
  {
    forall fi | fi in infos
      ensures InfoHeld(nodes, n.addr, fi)
    {
      assert Reported(n, matches, pattern, fi.name) && fi == InfoOf(n, fi.name);
      forall k | Some(k) in fi.chunks
        ensures k in n.blob
      {
        var i :| 0 <= i < |fi.chunks| && fi.chunks[i] == Some(k);
      }
    }
  }

  lemma {:induction false} RequestsAreRequests(at: Addr, id: ReqId, origin: Addr, pattern: Bytes,
                                               shares: seq<int>, picks: seq<Option<Addr>>)
    requires |shares| == |picks|
    ensures forall q :: q in Requests(at, id, origin, pattern, shares, picks) ==> q.msg.SearchRequest?
  {
    if shares != [] {
      var k := |shares| - 1;
      RequestsAreRequests(at, id, origin, pattern, shares[..k], picks[..k]);
    }
  }

  lemma HandleHeld(nodes: map<Addr, NodeState>, n: NodeState, matches: Matcher, p: SearchPacket, c: Choice)
    requires ValidChoice(n, matches, p, c) && ReplyHeld(nodes, p) && CatalogHeld(nodes, n.catalog)
    requires n.addr in nodes && forall k :: k in n.blob ==> k in nodes[n.addr].blob
    ensures RepliesHeld(nodes, HandlePacket(n, p, c).1)
    ensures CatalogHeld(nodes, HandlePacket(n, p, c).0.catalog)
  {
    if p.destination == n.addr {
      if p.msg.SearchReply? {
        LearnHeld(nodes, n, p.msg.responses, p.source);
      } else if p.msg.id !in n.seen {
        OwnInfosHeld(nodes, n, matches, p.msg.pattern, c.infos);
        RequestsAreRequests(n.addr, p.msg.id, p.msg.origin, p.msg.pattern, c.shares, c.picks);
      }
    }
  }

  lemma CatDeliver(matches: Matcher, s: Network, i: nat, c: Choice)
    requires CatInv(s) && Enabled(matches, s, Deliver(i, c))
    ensures CatInv(Apply(matches, s, Deliver(i, c)))
  {
    var p := s.net[i];
    var n := s.nodes[p.sentTo];
    var s' := Apply(matches, s, Deliver(i, c));
    HandleAddr(n, p, c);
    assert BlobsGrow(s.nodes, s'.nodes);
    HeldLater(s.nodes, s'.nodes, s.net);
    RemoveAtMembers(s.net, i);
    assert p in s.net && ReplyHeld(s'.nodes, p);
    CatalogsLater(s.nodes, s'.nodes);
    HandleHeld(s'.nodes, n, matches, p, c);
  }

  /** The catalogs as they were, read against later stores. */
  lemma CatalogsLater(nodes: map<Addr, NodeState>, later: map<Addr, NodeState>)
    requires BlobsGrow(nodes, later) && CatalogsHeld(nodes)
    ensures forall a :: a in nodes ==> CatalogHeld(later, nodes[a].catalog)
  {
    forall a | a in nodes
      ensures CatalogHeld(later, nodes[a].catalog)
    {
      assert CatalogHeld(nodes, nodes[a].catalog);
    }
  }

  lemma CatStep(matches: Matcher, s: Network, step: Step)
    requires CatInv(s) && Enabled(matches, s, step)
    ensures CatInv(Apply(matches, s, step))
    ensures BlobsGrow(s.nodes, Apply(matches, s, step).nodes)
  {
    var s' := Apply(matches, s, step);
    match step {
      case Deliver(i, c) =>
        HandleAddr(s.nodes[s.net[i].sentTo], s.net[i], c);
        CatDeliver(matches, s, i, c);
      case Start(_, id, sends) =>
        assert forall p :: p in sends ==> IsRequest(p, id);
      case Drop(i) =>
        RemoveAtMembers(s.net, i);
      case Duplicate(i) =>
        assert s.net[i] in s.net;
      case _ =>
        CatLocal(matches, s, step);
    }
  }

  lemma CatLocal(matches: Matcher, s: Network, step: Step)
    requires CatInv(s) && Enabled(matches, s, step) && (step.StoreBlob? || step.Tag? || step.AddNbr?)
    ensures CatInv(Apply(matches, s, step)) && BlobsGrow(s.nodes, Apply(matches, s, step).nodes)
  {
    var s' := Apply(matches, s, step);
    assert BlobsGrow(s.nodes, s'.nodes);
    HeldLater(s.nodes, s'.nodes, s.net);
    CatalogsLater(s.nodes, s'.nodes);
  }

  lemma {:induction false} CatRun(matches: Matcher, s: Network, steps: seq<Step>)
    requires CatInv(s) && ValidRun(matches, s, steps)
    ensures CatInv(Exec(matches, s, steps)) && BlobsGrow(s.nodes, Exec(matches, s, steps).nodes)
  {
    if steps != [] {
      var k := |steps| - 1;
      CatRun(matches, s, steps[..k]);
      CatStep(matches, Exec(matches, s, steps[..k]), steps[k]);
    }
  }

  /**
   * Catalog soundness. After any run, with loss and duplication, every peer that a node's catalog
   * lists under a key holds that key in its blob store, now and after any further steps.
   */
  lemma CatalogSound(matches: Matcher, s0: Network, steps: seq<Step>, more: seq<Step>, a: Addr, key: Bytes, peer: Addr)
    requires Init(s0) && ValidRun(matches, s0, steps) && ValidRun(matches, Exec(matches, s0, steps), more)
    requires a in Exec(matches, s0, steps).nodes
    requires Listed(Exec(matches, s0, steps).nodes[a].catalog, key, peer)
    ensures Holds(Exec(matches, s0, steps).nodes, peer, key)
    ensures Holds(Exec(matches, Exec(matches, s0, steps), more).nodes, peer, key)
  {
    CatRun(matches, s0, steps);
    CatRun(matches, Exec(matches, s0, steps), more);
    assert CatalogHeld(Exec(matches, s0, steps).nodes, Exec(matches, s0, steps).nodes[a].catalog);
  }

  /**
   * Whenever a reply in flight reports a file without missing chunks, its source holds the metafile's
   * key and every chunk key reported, now and ever after, even if keys are given other values. (That
   * these are all the chunks of the file then stored needs settled keys: see FullFiles.)
   */
  lemma FullFileHeld(matches: Matcher, s0: Network, steps: seq<Step>, more: seq<Step>, p: SearchPacket, fi: FileInfo)
    requires Init(s0) && ValidRun(matches, s0, steps) && ValidRun(matches, Exec(matches, s0, steps), more)
    requires p in Exec(matches, s0, steps).net && p.msg.SearchReply? && fi in p.msg.responses && InfoIsFull(fi)
    ensures var later := Exec(matches, Exec(matches, s0, steps), more).nodes;
            Holds(later, p.source, fi.metahash)
            && forall i :: 0 <= i < |fi.chunks| ==> fi.chunks[i].Some? && Holds(later, p.source, fi.chunks[i].value)
  {
    CatRun(matches, s0, steps);
    CatRun(matches, Exec(matches, s0, steps), more);
    assert ReplyHeld(Exec(matches, s0, steps).nodes, p);
    forall i | 0 <= i < |fi.chunks|
      ensures fi.chunks[i].Some?
      ensures Holds(Exec(matches, Exec(matches, s0, steps), more).nodes, p.source, fi.chunks[i].value)
    {
      assert fi.chunks[i] in fi.chunks;
    }
  }
}
