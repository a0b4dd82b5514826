/**
 * From searching to downloading: a catalog lists exactly what replies taught it, and a file that a reply
 * reported as full can then be downloaded from the node that reported it (peer/impl/handlers.go,
 * peer/impl/dataSharing.go).
 */
module FindAndFetch {
  import opened Basics
  import opened Codec
  import opened SearchNode
  import opened SearchNetwork
  import opened FullFiles
  import opened OwnCatalog
  import Sharing = SharingNetwork
  import Agreement
  import Availability

  // ---- what a catalog lists ----

  lemma {:induction false} ChunksListed(catalog: map<Bytes, set<Addr>>, chunks: seq<Option<Bytes>>, source: Addr,
                                        key: Bytes, peer: Addr)
    ensures Listed(CatalogChunks(catalog, chunks, source), key, peer)
            <==> Listed(catalog, key, peer) || (peer == source && Some(key) in chunks)
  {
    if chunks != [] {
      ChunksListed(catalog, chunks[..|chunks| - 1], source, key, peer);
      MemberLast(chunks, Some(key));
    }
  }

  /** A reply lists its source under exactly the keys it mentions. */
  lemma {:induction false} ReplyLists(n: NodeState, responses: seq<FileInfo>, source: Addr, key: Bytes, peer: Addr)
    ensures Listed(HandleReply(n, responses, source).catalog, key, peer)
            <==> Listed(n.catalog, key, peer) || (peer == source && Mentioned(responses, key))
  {
    if responses != [] {
      var k := |responses| - 1;
      ReplyLists(n, responses[..k], source, key, peer);
      MentionedOneMore(responses, key);
      var before := HandleReply(n, responses[..k], source).catalog;
      ChunksListed(CatalogAdd(before, responses[k].metahash, source), responses[k].chunks, source, key, peer);
    }
  }

  /** The step hands the reply p to its destination a. */
  ghost predicate Hands(s: Network, step: Step, a: Addr, p: SearchPacket)
  {
    && step.Deliver? && step.i < |s.net| && s.net[step.i] == p
    && p.sentTo == p.destination == a && p.msg.SearchReply?
  }

  /** Some step of the run did. */
  ghost predicate Handled(matches: Matcher, s: Network, steps: seq<Step>, a: Addr, p: SearchPacket)
    requires ValidRun(matches, s, steps)
  {
    steps != [] &&
    (var k := |steps| - 1;
     Handled(matches, s, steps[..k], a, p) || Hands(Exec(matches, s, steps[..k]), steps[k], a, p))
  }

  /** The reply teaches that the peer has the key. */
  predicate Teaches(p: SearchPacket, key: Bytes, peer: Addr)
  {
    p.msg.SearchReply? && p.source == peer && Mentioned(p.msg.responses, key)
  }

  lemma ListsStep(matches: Matcher, s: Network, step: Step, a: Addr, key: Bytes, peer: Addr)
    requires Named(s.nodes) && Enabled(matches, s, step) && a in s.nodes
    ensures a in Apply(matches, s, step).nodes
    ensures Listed(Apply(matches, s, step).nodes[a].catalog, key, peer)
            <==> Listed(s.nodes[a].catalog, key, peer) || (exists p :: Hands(s, step, a, p) && Teaches(p, key, peer))
  {
    if step.Deliver? && s.net[step.i].sentTo == a {
      var p := s.net[step.i];
      if p.destination == a && p.msg.SearchReply? {
        ReplyLists(s.nodes[a], p.msg.responses, p.source, key, peer);
        assert Hands(s, step, a, p);
      } else {
        assert HandlePacket(s.nodes[a], p, step.choice).0.catalog == s.nodes[a].catalog;
      }
    }
  }

  /**
   * Catalogs are exact. After every run, with loss and duplication, a's catalog lists a peer under a key
   * if and only if a handled some reply of that peer which mentions the key.
   */
  lemma {:induction false} CatalogExact(matches: Matcher, s0: Network, steps: seq<Step>,
                                        a: Addr, key: Bytes, peer: Addr)
    requires Init(s0) && ValidRun(matches, s0, steps) && a in s0.nodes
    ensures a in Exec(matches, s0, steps).nodes && Named(Exec(matches, s0, steps).nodes)
    ensures Listed(Exec(matches, s0, steps).nodes[a].catalog, key, peer)
            <==> exists p :: Handled(matches, s0, steps, a, p) && Teaches(p, key, peer)
  {
    if steps != [] {
      var k := |steps| - 1;
      CatalogExact(matches, s0, steps[..k], a, key, peer);
      var t := Exec(matches, s0, steps[..k]);
      NamedStep(matches, t, steps[k]);
      ListsStep(matches, t, steps[k], a, key, peer);
      forall p
        ensures Handled(matches, s0, steps, a, p)
                <==> Handled(matches, s0, steps[..k], a, p) || Hands(t, steps[k], a, p)
      {
      }
    }
  }

  /** What was handled had been in flight. */
  lemma {:induction false} HandledWasSeen(matches: Matcher, s0: Network, steps: seq<Step>, a: Addr, p: SearchPacket)
    returns (sighting: Sighting)
    requires ValidRun(matches, s0, steps) && Handled(matches, s0, steps, a, p)
    ensures sighting.reply == p && p.msg.SearchReply?
    ensures forall fi :: fi in p.msg.responses ==> Reports(matches, s0, steps, sighting, fi)
  {
    var k := |steps| - 1;
    if Handled(matches, s0, steps[..k], a, p) {
      sighting := HandledWasSeen(matches, s0, steps[..k], a, p);
      assert sighting.k <= k ==> steps[..k][..sighting.k] == steps[..sighting.k];
    } else {
      sighting := Sighting(k, p);
    }
  }

  // ---- what a full report makes possible ----

  /** Each node of the search network is in the data-sharing network, with at least what it stores and lists. */
  ghost predicate Covers(nodes: map<Addr, NodeState>, t: Sharing.Network)
  {
    forall b :: b in nodes ==> b in t.nodes && CoversNode(nodes[b], t.nodes[b])
  }

  ghost predicate CoversNode(n: NodeState, m: Sharing.ShareNode)
  {
    && (forall key :: key in n.blob ==> key in m.store)
    && (forall key, peer :: Listed(n.catalog, key, peer) ==> Listed(m.catalog, key, peer))
  }

  /** The source holds the whole file, as reported, and a's catalog lists it for every part of it. */
  ghost predicate Downloadable(nodes: map<Addr, NodeState>, a: Addr, source: Addr, fi: FileInfo)
  {
    && a in nodes && source in nodes && Exact(nodes[source].blob, fi) && WholeFile(nodes[source].blob, fi.metahash)
    && Listed(nodes[a].catalog, fi.metahash, source)
    && forall key :: key in Split(nodes[source].blob[fi.metahash]) ==> Listed(nodes[a].catalog, key, source)
  }

  /** What a report mentions is listed once it was handled. */
  lemma MentionedListed(matches: Matcher, s0: Network, steps: seq<Step>, a: Addr, p: SearchPacket, fi: FileInfo,
                        key: Bytes)
    requires Init(s0) && ValidRun(matches, s0, steps) && a in s0.nodes
    requires Handled(matches, s0, steps, a, p) && p.msg.SearchReply? && fi in p.msg.responses && Mentions(fi, key)
    ensures a in Exec(matches, s0, steps).nodes
    ensures Listed(Exec(matches, s0, steps).nodes[a].catalog, key, p.source)
  {
    var i :| 0 <= i < |p.msg.responses| && p.msg.responses[i] == fi;
    assert Mentions(p.msg.responses[i], key);
    assert Teaches(p, key, p.source);
    CatalogExact(matches, s0, steps, a, key, p.source);
  }

  /** An exact report of a full file mentions each of its chunks. */
  lemma FullMentions(blob: map<Bytes, Bytes>, fi: FileInfo, key: Bytes)
    requires Exact(blob, fi) && InfoIsFull(fi) && key in Split(blob[fi.metahash])
    ensures Mentions(fi, key)
  {
    var hashes := Split(blob[fi.metahash]);
    var i :| 0 <= i < |hashes| && hashes[i] == key;
    assert fi.chunks[i] in fi.chunks;
    assert fi.chunks[i] == Some(key);
  }

  /** Once a handled a report of a full file, its catalog leads to all of the file, however the run went on. */
  lemma FullReportLists(h: Hash, hist: Sharing.History, matches: Matcher, s0: Network, steps: seq<Step>,
                        a: Addr, p: SearchPacket, fi: FileInfo)
    requires Init(s0) && ValidRun(matches, s0, steps) && a in s0.nodes
    requires SoundUploads(h, hist) && UploadsOnly(h, hist, s0, steps)
    requires Handled(matches, s0, steps, a, p) && p.msg.SearchReply? && fi in p.msg.responses && InfoIsFull(fi)
    ensures Downloadable(Exec(matches, s0, steps).nodes, a, p.source, fi)
  {
    var sighting := HandledWasSeen(matches, s0, steps, a, p);
    ReportStaysExact(h, hist, matches, s0, steps, sighting, fi);
    var nodes := Exec(matches, s0, steps).nodes;
    var blob := nodes[p.source].blob;
    FullIsWhole(blob, fi);
    MentionedListed(matches, s0, steps, a, p, fi, fi.metahash);
    forall key | key in Split(blob[fi.metahash])
      ensures Listed(nodes[a].catalog, key, p.source)
    {
      FullMentions(blob, fi, key);
      MentionedListed(matches, s0, steps, a, p, fi, key);
    }
  }

  /** a and b have a route to each other. */
  ghost predicate Linked(t: Sharing.Network, a: Addr, b: Addr)
  {
    a in t.nodes && b in t.nodes && b in t.nodes[a].routes && a in t.nodes[b].routes
  }

  /** The download has not got anything yet. */
  ghost predicate Fresh(t: Sharing.Network, a: Addr, d: Sharing.Id, metahash: Bytes)
  {
    Sharing.Active(t, a, d) && t.nodes[a].downloads[d] == Sharing.Running(metahash, [], None)
  }

  /** All stores of both networks agree on a key. */
  lemma SameValue(h: Hash, hist: Sharing.History, x: map<Bytes, Bytes>, y: map<Bytes, Bytes>, key: Bytes)
    requires Agreement.ValuesAgree(h, hist) && Sharing.StoreInv(h, hist, x) && Sharing.StoreInv(h, hist, y)
    requires key in x && key in y
    ensures x[key] == y[key]
  {
  }

  lemma KeyFetchable(nodes: map<Addr, NodeState>, t: Sharing.Network, a: Addr, source: Addr, key: Bytes)
    requires a in nodes && source in nodes && Covers(nodes, t) && Linked(t, a, source)
    requires key in nodes[source].blob && Listed(nodes[a].catalog, key, source)
    ensures Availability.Askable(t, a, source, key) && Availability.Fetchable(t, a, key)
  {
    assert CoversNode(nodes[a], t.nodes[a]) && CoversNode(nodes[source], t.nodes[source]);
    assert Availability.Askable(t, a, source, key);
  }

  lemma PartsFetchable(nodes: map<Addr, NodeState>, t: Sharing.Network, a: Addr, source: Addr, fi: FileInfo,
                       r: Sharing.Running)
    requires Downloadable(nodes, a, source, fi) && Covers(nodes, t) && Linked(t, a, source)
    requires r.got == [nodes[source].blob[fi.metahash]]
    ensures Availability.RestFetchable(t, a, r, Some(fi.metahash))
  {
    var hashes := Split(r.got[0]);
    forall i: nat | 1 <= i <= |hashes|
      ensures Availability.Fetchable(t, a, Sharing.KeyAt(r, i))
    {
      assert hashes[i - 1] in hashes;
      KeyFetchable(nodes, t, a, source, hashes[i - 1]);
    }
  }

  /** A new download of such a file is available. */
  lemma FullIsAvailable(h: Hash, hist: Sharing.History, nodes: map<Addr, NodeState>, t: Sharing.Network,
                        a: Addr, source: Addr, fi: FileInfo, d: Sharing.Id)
    requires Downloadable(nodes, a, source, fi) && Covers(nodes, t) && Linked(t, a, source)
    requires Agreement.ValuesAgree(h, hist) && Sharing.StoreInv(h, hist, nodes[source].blob)
    requires Sharing.StoreInv(h, hist, t.nodes[a].store) && Sharing.StoreInv(h, hist, t.nodes[source].store)
    requires Fresh(t, a, d, fi.metahash)
    ensures Availability.Available(t, a, d)
  {
    var r := t.nodes[a].downloads[d];
    KeyFetchable(nodes, t, a, source, fi.metahash);
    var v := nodes[source].blob[fi.metahash];
    SameValue(h, hist, nodes[source].blob, t.nodes[source].store, fi.metahash);
    if fi.metahash in t.nodes[a].store {
      SameValue(h, hist, nodes[source].blob, t.nodes[a].store, fi.metahash);
    }
    assert Sharing.Wanted(r) == fi.metahash;
    assert Availability.Offers(t, a, d, v);
    PartsFetchable(nodes, t, a, source, fi, Sharing.Advance(r, v));
  }

  /**
   * What a search finds can be downloaded. Take any run of the search network whose blob stores hold what
   * the sound uploads of a run of the data-sharing network put there, and any reply handled at a in it
   * that reports a file as full. If each node then still stores and lists in the data-sharing network
   * what it does in the search network, and a and the source of the reply have routes to each other, a
   * new download of the file at a can finish, and then has the uploaded bytes.
   */
  lemma FoundCanBeDownloaded(h: Hash, t0: Sharing.Network, run: seq<Sharing.Step>, matches: Matcher, s0: Network,
                             steps: seq<Step>, a: Addr, p: SearchPacket, fi: FileInfo, d: Sharing.Id)
    requires Sharing.Init(t0) && Sharing.ValidRun(h, t0, run)
    requires Init(s0) && ValidRun(matches, s0, steps) && a in s0.nodes
    requires SoundUploads(h, Sharing.Exec(h, t0, run).hist)
    requires UploadsOnly(h, Sharing.Exec(h, t0, run).hist, s0, steps)
    requires Handled(matches, s0, steps, a, p) && p.msg.SearchReply? && fi in p.msg.responses && InfoIsFull(fi)
    requires Covers(Exec(matches, s0, steps).nodes, Sharing.Exec(h, t0, run))
    requires Linked(Sharing.Exec(h, t0, run), a, p.source) && Fresh(Sharing.Exec(h, t0, run), a, d, fi.metahash)
    ensures exists more :: Availability.Finishes(h, Sharing.Exec(h, t0, run), more, a, d)
    ensures var t := Sharing.Exec(h, t0, run);
            forall more, cs :: Availability.Finishes(h, t, more, a, d) && cs != [] && cs in t.hist.metas
                               && fi.metahash == Key(h, MetaEntry(cs)) ==>
              Sharing.Result(Sharing.Exec(h, t, more).nodes[a].downloads[d]) == Concat(cs)
  {
    var t := Sharing.Exec(h, t0, run);
    var nodes := Exec(matches, s0, steps).nodes;
    FullReportLists(h, t.hist, matches, s0, steps, a, p, fi);
    UploadsSettle(h, t.hist, matches, s0, steps);
    assert Sharing.StoreInv(h, t.hist, nodes[p.source].blob);
    Agreement.AgreementExact(h, t.hist);
    Sharing.RunInv(h, t0, run);
    assert Sharing.NodeInv(h, t.hist, t.asked, t.nodes[a]);
    assert Sharing.NodeInv(h, t.hist, t.asked, t.nodes[p.source]);
    FullIsAvailable(h, t.hist, nodes, t, a, p.source, fi, d);
    Availability.DownloadFinishesIff(h, t0, run, a, d);
  }
}
