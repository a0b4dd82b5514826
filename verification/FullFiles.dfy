/**
 * What SearchFirst returns is a whole file of one node, as long as blob stores hold only what uploads
 * and downloads put there (peer/impl/searchFirst.go, peer/impl/handlers.go).
 */
module FullFiles {
  import opened Basics
  import opened Codec
  import opened SearchNode
  import opened SearchPeer
  import opened SearchNetwork
  import Sharing = SharingNetwork
  import Agreement

  /** The step stores nothing else under a key that is in use. */
  ghost predicate Settled(s: Network, step: Step)
  {
    step.StoreBlob? && step.at in s.nodes && step.key in s.nodes[step.at].blob ==>
      s.nodes[step.at].blob[step.key] == step.value
  }

  ghost predicate SettledRun(matches: Matcher, s: Network, steps: seq<Step>)
    requires ValidRun(matches, s, steps)
  {
    steps == [] ||
    (SettledRun(matches, s, steps[..|steps| - 1])
     && Settled(Exec(matches, s, steps[..|steps| - 1]), steps[|steps| - 1]))
  }

  /** Blob stores grow and keep what they have. */
  ghost predicate Keeps(before: map<Bytes, Bytes>, after: map<Bytes, Bytes>)
  {
    forall k :: k in before ==> k in after && after[k] == before[k]
  }

  ghost predicate AllKeep(nodes: map<Addr, NodeState>, later: map<Addr, NodeState>)
  {
    forall a :: a in nodes ==> a in later && Keeps(nodes[a].blob, later[a].blob)
  }

  /** A file info lists the chunks of the metafile in this store, each present unless it is nil. */
  ghost predicate Exact(blob: map<Bytes, Bytes>, fi: FileInfo)
  {
    && fi.metahash in blob
    && var hashes := Split(blob[fi.metahash]);
       && |fi.chunks| == |hashes|
       && forall i :: 0 <= i < |hashes| && fi.chunks[i].Some? ==> fi.chunks[i].value == hashes[i] && hashes[i] in blob
  }

  ghost predicate ReplyExact(nodes: map<Addr, NodeState>, p: SearchPacket)
  {
    p.msg.SearchReply? ==>
      p.source in nodes && forall fi :: fi in p.msg.responses ==> Exact(nodes[p.source].blob, fi)
  }

  ghost predicate RepliesExact(nodes: map<Addr, NodeState>, net: seq<SearchPacket>)
  {
    forall p :: p in net ==> ReplyExact(nodes, p)
  }

  ghost predicate ExactInv(s: Network)
  {
    Named(s.nodes) && RepliesExact(s.nodes, s.net)
  }

  lemma ExactLater(before: map<Bytes, Bytes>, after: map<Bytes, Bytes>, fi: FileInfo)
    requires Keeps(before, after) && Exact(before, fi)
    ensures Exact(after, fi)
  {
  }

  lemma RepliesLater(nodes: map<Addr, NodeState>, later: map<Addr, NodeState>, net: seq<SearchPacket>)
    requires AllKeep(nodes, later) && RepliesExact(nodes, net)
    ensures RepliesExact(later, net)
  {
    forall p | p in net
      ensures ReplyExact(later, p)
    {
      assert ReplyExact(nodes, p);
      if p.msg.SearchReply? {
        forall fi | fi in p.msg.responses
          ensures Exact(later[p.source].blob, fi)
        {
          ExactLater(nodes[p.source].blob, later[p.source].blob, fi);
        }
      }
    }
  }

  /** What a node sends reports its own store exactly. */
  lemma HandleExact(n: NodeState, matches: Matcher, p: SearchPacket, c: Choice, nodes: map<Addr, NodeState>)
    requires ValidChoice(n, matches, p, c) && ReplyExact(nodes, p)
    requires n.addr in nodes && Keeps(n.blob, nodes[n.addr].blob)
    ensures RepliesExact(nodes, HandlePacket(n, p, c).1)
  {
    if Answers(n, p) {
      forall fi | fi in c.infos
        ensures Exact(nodes[n.addr].blob, fi)
      {
        assert fi == InfoOf(n, fi.name);
        assert Exact(n.blob, fi);
        ExactLater(n.blob, nodes[n.addr].blob, fi);
      }
      ForwardsAreRequests(n, p, c);
    }
  }

  lemma ForwardsAreRequests(n: NodeState, p: SearchPacket, c: Choice)
    requires p.msg.SearchRequest? && |c.shares| == |c.picks|
    ensures forall q :: q in Forwards(n, p, c) ==> q.msg.SearchRequest?
  {
    RequestsGood(n.addr, p.msg.id, p.msg.origin, p.msg.pattern, c.shares, c.picks);
  }

  lemma ExactDeliver(matches: Matcher, s: Network, i: nat, c: Choice)
    requires ExactInv(s) && Enabled(matches, s, Deliver(i, c))
    ensures var s' := Apply(matches, s, Deliver(i, c)); ExactInv(s') && AllKeep(s.nodes, s'.nodes)
  {
    var p := s.net[i];
    var n := s.nodes[p.sentTo];
    var s' := Apply(matches, s, Deliver(i, c));
    HandleAddr(n, p, c);
    RemoveAtMembers(s.net, i);
    assert p in s.net;
    RepliesLater(s.nodes, s'.nodes, s.net);
    HandleExact(n, matches, p, c, s'.nodes);
  }

  lemma ExactStep(matches: Matcher, s: Network, step: Step)
    requires ExactInv(s) && Enabled(matches, s, step) && Settled(s, step)
    ensures var s' := Apply(matches, s, step); ExactInv(s') && AllKeep(s.nodes, s'.nodes)
  {
    var s' := Apply(matches, s, step);
    match step {
      case Deliver(i, c) => ExactDeliver(matches, s, i, c);
      case Start(_, id, sends) => assert forall p :: p in sends ==> IsRequest(p, id);
      case Drop(i) => RemoveAtMembers(s.net, i);
      case Duplicate(i) => assert s.net[i] in s.net;
      case _ =>
        assert AllKeep(s.nodes, s'.nodes);
        RepliesLater(s.nodes, s'.nodes, s.net);
    }
  }

  lemma {:induction false} ExactRun(matches: Matcher, s: Network, steps: seq<Step>)
    requires ExactInv(s) && ValidRun(matches, s, steps) && SettledRun(matches, s, steps)
    ensures ExactInv(Exec(matches, s, steps)) && AllKeep(s.nodes, Exec(matches, s, steps).nodes)
  {
    if steps != [] {
      var k := |steps| - 1;
      ExactRun(matches, s, steps[..k]);
      ExactStep(matches, Exec(matches, s, steps[..k]), steps[k]);
    }
  }

  /** Every state of a run is exact, and the blob stores of a later state keep what it has. */
  lemma {:induction false} PrefixExact(matches: Matcher, s: Network, steps: seq<Step>, k: nat)
    requires ExactInv(s) && ValidRun(matches, s, steps) && SettledRun(matches, s, steps) && k <= |steps|
    ensures ValidRun(matches, s, steps[..k])
    ensures ExactInv(Exec(matches, s, steps[..k]))
    ensures AllKeep(Exec(matches, s, steps[..k]).nodes, Exec(matches, s, steps).nodes)
  {
    var n := |steps| - 1;
    if k == |steps| {
      assert steps[..k] == steps;
      ExactRun(matches, s, steps);
    } else {
      assert steps[..n][..k] == steps[..k];
      PrefixExact(matches, s, steps[..n], k);
      ExactRun(matches, s, steps[..n]);
      ExactStep(matches, Exec(matches, s, steps[..n]), steps[n]);
    }
  }

  // ---- uploads settle the blob stores ----

  /** All that blob stores hold at the start, or are given, uploads of this history put under its key. */
  ghost predicate UploadsOnly(h: Hash, hist: Sharing.History, s0: Network, steps: seq<Step>)
  {
    && UploadStores(h, hist, s0.nodes)
    && forall step :: step in steps && step.StoreBlob? ==> Sharing.Justified(h, hist, step.key, step.value)
  }

  ghost predicate UploadStores(h: Hash, hist: Sharing.History, nodes: map<Addr, NodeState>)
  {
    forall a :: a in nodes ==> Sharing.StoreInv(h, hist, nodes[a].blob)
  }

  /** The uploads neither collide nor clash. */
  ghost predicate SoundUploads(h: Hash, hist: Sharing.History)
  {
    Digest(h) && Agreement.NoCollisions(h, hist) && Agreement.NoClash(h, hist)
  }

  lemma UploadStep(h: Hash, hist: Sharing.History, matches: Matcher, s: Network, step: Step)
    requires Enabled(matches, s, step) && UploadStores(h, hist, s.nodes) && Agreement.ValuesAgree(h, hist)
    requires step.StoreBlob? ==> Sharing.Justified(h, hist, step.key, step.value)
    ensures Settled(s, step) && UploadStores(h, hist, Apply(matches, s, step).nodes)
  {
    if step.StoreBlob? {
      assert Sharing.StoreInv(h, hist, s.nodes[step.at].blob);
    } else if step.Deliver? {
      HandleAddr(s.nodes[s.net[step.i].sentTo], s.net[step.i], step.choice);
    }
  }

  /** A run that stores only what sound uploads store never gives a key another value. */
  lemma {:induction false} UploadsSettle(h: Hash, hist: Sharing.History, matches: Matcher,
                                         s0: Network, steps: seq<Step>)
    requires SoundUploads(h, hist) && UploadsOnly(h, hist, s0, steps) && ValidRun(matches, s0, steps)
    ensures SettledRun(matches, s0, steps)
    ensures UploadStores(h, hist, Exec(matches, s0, steps).nodes)
  {
    if steps != [] {
      var k := |steps| - 1;
      Agreement.AgreementExact(h, hist);
      UploadsSettle(h, hist, matches, s0, steps[..k]);
      UploadStep(h, hist, matches, Exec(matches, s0, steps[..k]), steps[k]);
    }
  }

  /**
   * Where such stores come from: whatever a node of the data-sharing network holds at any point of a
   * run, uploads of that run put under its key.
   */
  lemma {:induction false} StoredByUploads(h: Hash, t0: Sharing.Network, run: seq<Sharing.Step>, k: nat, a: Addr)
    requires Sharing.Init(t0) && Sharing.ValidRun(h, t0, run) && k <= |run|
    ensures Sharing.ValidRun(h, t0, run[..k])
    ensures var t := Sharing.Exec(h, t0, run[..k]);
            && Sharing.Extends(Sharing.Exec(h, t0, run).hist, t.hist)
            && (a in t.nodes ==> Sharing.StoreInv(h, Sharing.Exec(h, t0, run).hist, t.nodes[a].store))
  {
    var n := |run| - 1;
    if k == |run| {
      assert run[..k] == run;
      Sharing.RunInv(h, t0, run);
      var t := Sharing.Exec(h, t0, run);
      assert a in t.nodes ==> Sharing.NodeInv(h, t.hist, t.asked, t.nodes[a]);
    } else {
      assert run[..n][..k] == run[..k];
      StoredByUploads(h, t0, run[..n], k, a);
      var t, before := Sharing.Exec(h, t0, run[..k]), Sharing.Exec(h, t0, run[..n]);
      var later := Sharing.Exec(h, t0, run).hist;
      assert Sharing.Extends(later, before.hist);
      if a in t.nodes {
        StoreLater(h, before.hist, later, t.nodes[a].store);
      }
    }
  }

  lemma StoreLater(h: Hash, hist: Sharing.History, later: Sharing.History, store: map<Bytes, Bytes>)
    requires Sharing.Extends(later, hist) && Sharing.StoreInv(h, hist, store)
    ensures Sharing.StoreInv(h, later, store)
  {
    forall k | k in store
      ensures Sharing.Justified(h, later, k, store[k])
    {
      Sharing.JustifiedLater(h, hist, later, k, store[k]);
    }
  }

  // ---- full files ----

  /** The metafile under this key and every chunk it lists are in the store. */
  predicate WholeFile(blob: map<Bytes, Bytes>, metahash: Bytes)
  {
    metahash in blob && forall hash :: hash in Split(blob[metahash]) ==> hash in blob
  }

  /** After k steps a reply was in flight. */
  datatype Sighting = Sighting(k: nat, reply: SearchPacket)

  /** This file info was reported by a reply that was in flight at some point of the run. */
  ghost predicate Reports(matches: Matcher, s0: Network, steps: seq<Step>, sighting: Sighting, fi: FileInfo)
  {
    && sighting.k <= |steps| && ValidRun(matches, s0, steps[..sighting.k])
    && sighting.reply in Exec(matches, s0, steps[..sighting.k]).net
    && sighting.reply.msg.SearchReply? && fi in sighting.reply.msg.responses
  }

  /** Once reported, the file info stays an exact account of the file at the reporting node. */
  lemma ReportStaysExact(h: Hash, hist: Sharing.History, matches: Matcher, s0: Network, steps: seq<Step>,
                         sighting: Sighting, fi: FileInfo)
    requires Init(s0) && ValidRun(matches, s0, steps)
    requires SoundUploads(h, hist) && UploadsOnly(h, hist, s0, steps)
    requires Reports(matches, s0, steps, sighting, fi)
    ensures var nodes := Exec(matches, s0, steps).nodes;
            sighting.reply.source in nodes && Exact(nodes[sighting.reply.source].blob, fi)
  {
    UploadsSettle(h, hist, matches, s0, steps);
    PrefixExact(matches, s0, steps, sighting.k);
    var before, now := Exec(matches, s0, steps[..sighting.k]).nodes, Exec(matches, s0, steps).nodes;
    var source := sighting.reply.source;
    assert ReplyExact(before, sighting.reply);
    ExactLater(before[source].blob, now[source].blob, fi);
  }

  /** A file reported as full is held by the reporting node from then on. */
  lemma FullReplyIsWhole(h: Hash, hist: Sharing.History, matches: Matcher, s0: Network, steps: seq<Step>,
                         sighting: Sighting, fi: FileInfo)
    requires Init(s0) && ValidRun(matches, s0, steps)
    requires SoundUploads(h, hist) && UploadsOnly(h, hist, s0, steps)
    requires Reports(matches, s0, steps, sighting, fi) && InfoIsFull(fi)
    ensures var nodes := Exec(matches, s0, steps).nodes;
            var source := sighting.reply.source;
            source in nodes && WholeFile(nodes[source].blob, fi.metahash)
  {
    ReportStaysExact(h, hist, matches, s0, steps, sighting, fi);
    FullIsWhole(Exec(matches, s0, steps).nodes[sighting.reply.source].blob, fi);
  }

  /**
   * A remote answer of SearchFirst is a whole file. In a network whose blob stores hold what uploads
   * without collision or clash put there, if every file info that its rounds heard was
   * reported by some reply of the run, then the name they found comes with one whose reporter holds
   * the metafile and every chunk it lists, however the run went on.
   */
  lemma SearchFirstSound(h: Hash, hist: Sharing.History, matches: Matcher, s0: Network, steps: seq<Step>,
                         rounds: seq<Round>, name: Bytes, from: map<FileInfo, Sighting>)
    returns (fi: FileInfo)
    requires Init(s0) && ValidRun(matches, s0, steps)
    requires SoundUploads(h, hist) && UploadsOnly(h, hist, s0, steps)
    requires forall r, i :: 0 <= r < |rounds| && 0 <= i < |rounds[r].heard| ==>
               var fi := rounds[r].heard[i]; fi in from && Reports(matches, s0, steps, from[fi], fi)
    requires Found(rounds, name)
    ensures fi.name == name && fi in from
    ensures var nodes := Exec(matches, s0, steps).nodes;
            var source := from[fi].reply.source;
            source in nodes && WholeFile(nodes[source].blob, fi.metahash)
  {
    var r :| 0 <= r < |rounds| && Heard(rounds[r], name);
    var i :| 0 <= i < |rounds[r].heard| && InfoIsFull(rounds[r].heard[i]) && rounds[r].heard[i].name == name;
    fi := rounds[r].heard[i];
    FullReplyIsWhole(h, hist, matches, s0, steps, from[fi], fi);
  }

  lemma FullIsWhole(blob: map<Bytes, Bytes>, fi: FileInfo)
    requires Exact(blob, fi) && InfoIsFull(fi)
    ensures WholeFile(blob, fi.metahash)
  {
    var hashes := Split(blob[fi.metahash]);
    forall hash | hash in hashes
      ensures hash in blob
    {
      var i :| 0 <= i < |hashes| && hashes[i] == hash;
      assert fi.chunks[i] in fi.chunks;
    }
  }
}
