/**
 * The documentation says that elements stored by a peer must not appear in its own catalog
 * (peer/datasharing.go). When a search reply breaks this, and how a peer can even list itself.
 */
module OwnCatalog {
  import opened Basics
  import opened Budgets
  import opened SearchNode
  import opened SearchNetwork

  /** Something that the node stores appears in its catalog. */
  ghost predicate OwnListed(n: NodeState)
  {
    exists key :: key in n.blob && key in n.catalog
  }

  predicate Mentions(fi: FileInfo, key: Bytes)
  {
    key == fi.metahash || Some(key) in fi.chunks
  }

  predicate Mentioned(responses: seq<FileInfo>, key: Bytes)
  {
    exists i :: 0 <= i < |responses| && Mentions(responses[i], key)
  }

  lemma {:induction false} ChunkKeys(catalog: map<Bytes, set<Addr>>, chunks: seq<Option<Bytes>>, peer: Addr, key: Bytes)
    ensures key in CatalogChunks(catalog, chunks, peer) <==> key in catalog || Some(key) in chunks
  {
    if chunks != [] {
      var k := |chunks| - 1;
      ChunkKeys(catalog, chunks[..k], peer, key);
      assert Some(key) in chunks <==> Some(key) in chunks[..k] || Some(key) == chunks[k] by {
        assert chunks == chunks[..k] + [chunks[k]];
      }
    }
  }

  lemma MentionedOneMore(responses: seq<FileInfo>, key: Bytes)
    requires responses != []
    ensures var k := |responses| - 1;
            Mentioned(responses, key) <==> Mentioned(responses[..k], key) || Mentions(responses[k], key)
  {
    var k := |responses| - 1;
    if Mentioned(responses[..k], key) {
      var i :| 0 <= i < k && Mentions(responses[..k][i], key);
      assert Mentions(responses[i], key);
    }
    if Mentioned(responses, key) {
      var i :| 0 <= i < |responses| && Mentions(responses[i], key);
      assert i < k ==> Mentions(responses[..k][i], key);
    }
  }

  /** A reply adds exactly the keys it mentions. */
  lemma {:induction false} ReplyKeys(n: NodeState, responses: seq<FileInfo>, source: Addr, key: Bytes)
    ensures key in HandleReply(n, responses, source).catalog <==> key in n.catalog || Mentioned(responses, key)
  {
    if responses != [] {
      var k := |responses| - 1;
      ReplyKeys(n, responses[..k], source, key);
      MentionedOneMore(responses, key);
      var before := HandleReply(n, responses[..k], source).catalog;
      ChunkKeys(CatalogAdd(before, responses[k].metahash, source), responses[k].chunks, source, key);
    }
  }

  /**
   * A reply makes something stored here appear in the catalog if and only if it mentions something
   * stored here: the handler does not look at the blob store.
   */
  lemma OwnCatalogExact(n: NodeState, responses: seq<FileInfo>, source: Addr)
    requires !OwnListed(n)
    ensures OwnListed(HandleReply(n, responses, source)) <==> exists key :: key in n.blob && Mentioned(responses, key)
  {
    HandleReplyKeeps(n, responses, source);
    var n' := HandleReply(n, responses, source);
    if OwnListed(n') {
      var key :| key in n'.blob && key in n'.catalog;
      ReplyKeys(n, responses, source, key);
      assert key in n.blob && Mentioned(responses, key);
    }
    if key :| key in n.blob && Mentioned(responses, key) {
      ReplyKeys(n, responses, source, key);
      assert key in n'.blob && key in n'.catalog;
    }
  }

  /** A reply to a that mentions what a stores, or a storing at a of what its catalog lists. */
  ghost predicate Breaks(s: Network, step: Step, a: Addr)
    requires a in s.nodes
  {
    match step
    case Deliver(i, _) =>
      && i < |s.net| && s.net[i].sentTo == s.net[i].destination == a && s.net[i].msg.SearchReply?
      && exists key :: key in s.nodes[a].blob && Mentioned(s.net[i].msg.responses, key)
    case StoreBlob(at, key, _) => at == a && key in s.nodes[a].catalog
    case _ => false
  }

  lemma OwnCatalogDeliver(matches: Matcher, s: Network, i: nat, c: Choice, a: Addr)
    requires Named(s.nodes) && Enabled(matches, s, Deliver(i, c)) && a in s.nodes && !OwnListed(s.nodes[a])
    ensures a in Apply(matches, s, Deliver(i, c)).nodes
    ensures OwnListed(Apply(matches, s, Deliver(i, c)).nodes[a]) <==> Breaks(s, Deliver(i, c), a)
  {
    var p := s.net[i];
    if p.sentTo == a && p.destination == a && p.msg.SearchReply? {
      OwnCatalogExact(s.nodes[a], p.msg.responses, p.source);
    } else if p.sentTo == a {
      var n := s.nodes[a];
      assert HandlePacket(n, p, c).0.catalog == n.catalog && HandlePacket(n, p, c).0.blob == n.blob;
    }
  }

  /** In every step of the network, the promise is broken at a node exactly by one of these two. */
  lemma OwnCatalogStep(matches: Matcher, s: Network, step: Step, a: Addr)
    requires Named(s.nodes) && Enabled(matches, s, step) && a in s.nodes && !OwnListed(s.nodes[a])
    ensures a in Apply(matches, s, step).nodes
    ensures OwnListed(Apply(matches, s, step).nodes[a]) <==> Breaks(s, step, a)
  {
    match step {
      case Deliver(i, c) => OwnCatalogDeliver(matches, s, i, c, a);
      case StoreBlob(at, key, _) =>
        if at == a && key in s.nodes[a].catalog {
          assert key in Apply(matches, s, step).nodes[a].blob;
        }
      case _ =>
    }
  }

  /** What is listed and stored stays listed and stored. */
  lemma OwnListedStays(matches: Matcher, s: Network, step: Step, a: Addr)
    requires Named(s.nodes) && Enabled(matches, s, step) && a in s.nodes && OwnListed(s.nodes[a])
    ensures a in Apply(matches, s, step).nodes && OwnListed(Apply(matches, s, step).nodes[a])
  {
    var key :| key in s.nodes[a].blob && key in s.nodes[a].catalog;
    if step.Deliver? && s.net[step.i].sentTo == a {
      var p := s.net[step.i];
      HandleAddr(s.nodes[a], p, step.choice);
      if p.destination == a && p.msg.SearchReply? {
        ReplyKeys(s.nodes[a], p.msg.responses, p.source, key);
      }
    }
    assert key in Apply(matches, s, step).nodes[a].blob && key in Apply(matches, s, step).nodes[a].catalog;
  }

  /** Some step of the run broke the promise at a. */
  ghost predicate BrokenBy(matches: Matcher, s: Network, steps: seq<Step>, a: Addr)
    requires ValidRun(matches, s, steps)
    decreases |steps|
  {
    steps != [] &&
    (var k := |steps| - 1;
     var t := Exec(matches, s, steps[..k]);
     BrokenBy(matches, s, steps[..k], a) || (a in t.nodes && Breaks(t, steps[k], a)))
  }

  lemma NamedStep(matches: Matcher, s: Network, step: Step)
    requires Named(s.nodes) && Enabled(matches, s, step)
    ensures Named(Apply(matches, s, step).nodes)
  {
    if step.Deliver? {
      HandleAddr(s.nodes[s.net[step.i].sentTo], s.net[step.i], step.choice);
    }
  }

  /**
   * Over every run from a start with empty catalogs, something that a stores appears in its own catalog
   * if and only if some step of the run was a reply to a that mentions what a stores, or a storing at a
   * of what its catalog lists.
   */
  lemma {:induction false} OwnCatalogRun(matches: Matcher, s: Network, steps: seq<Step>, a: Addr)
    requires Init(s) && ValidRun(matches, s, steps) && a in s.nodes
    ensures a in Exec(matches, s, steps).nodes && Named(Exec(matches, s, steps).nodes)
    ensures OwnListed(Exec(matches, s, steps).nodes[a]) <==> BrokenBy(matches, s, steps, a)
  {
    if steps != [] {
      var k := |steps| - 1;
      OwnCatalogRun(matches, s, steps[..k], a);
      var t := Exec(matches, s, steps[..k]);
      NamedStep(matches, t, steps[k]);
      if OwnListed(t.nodes[a]) {
        OwnListedStays(matches, t, steps[k], a);
      } else {
        OwnCatalogStep(matches, t, steps[k], a);
      }
    }
  }

  /** A remote fetch succeeds exactly if some peer is listed under the key and a value comes back. */
  lemma FetchSucceeds(n: NodeState, hash: Bytes, answer: Option<Bytes>)
    ensures FetchRemote(n, hash, answer).1.Some? <==> answer.Some? && exists peer :: Listed(n.catalog, hash, peer)
  {
    if hash in n.catalog && n.catalog[hash] != {} {
      var peer :| peer in n.catalog[hash];
      assert Listed(n.catalog, hash, peer);
    }
  }

  /**
   * Every remote fetch that succeeds, which one does exactly if a peer is listed under the key and a value
   * comes back, returns and stores that value; and it breaks the promise, as the key stays listed.
   */
  lemma FetchBreaks(matches: Matcher, s: Network, a: Addr, hash: Bytes, answer: Option<Bytes>)
    requires a in s.nodes
    ensures FetchRemote(s.nodes[a], hash, answer).1.Some?
            <==> answer.Some? && exists peer :: Listed(s.nodes[a].catalog, hash, peer)
    ensures var (n, got) := FetchRemote(s.nodes[a], hash, answer);
            if got.None? then n == s.nodes[a]
            else
              var step := StoreBlob(a, hash, answer.value);
              && got == answer && OwnListed(n)
              && Enabled(matches, s, step) && Breaks(s, step, a) && Apply(matches, s, step).nodes[a] == n
  {
    FetchSucceeds(s.nodes[a], hash, answer);
    var (n, got) := FetchRemote(s.nodes[a], hash, answer);
    if got.Some? {
      assert hash in n.blob && hash in n.catalog;
    }
  }

  // ---- a run in which a peer lists itself ----

  /** Three nodes in a ring; the first has a file, and searches for it. */
  datatype Ring = Ring(a: Addr, b: Addr, c: Addr, id: ReqId, pattern: Bytes,
                       name: Bytes, metahash: Bytes, metafile: Bytes)

  ghost predicate ValidRing(matches: Matcher, r: Ring)
  {
    r.a != r.b && r.b != r.c && r.a != r.c && matches(r.pattern, r.name)
  }

  function Holder(r: Ring, seen: set<ReqId>): NodeState
  {
    NodeState(r.a, {r.b}, seen, map[r.metahash := r.metafile], map[r.name := r.metahash], map[])
  }

  function Empty(at: Addr, nbr: Addr, seen: set<ReqId>): NodeState
  {
    NodeState(at, {nbr}, seen, map[], map[], map[])
  }

  function Nodes(r: Ring, seenA: set<ReqId>, seenB: set<ReqId>, seenC: set<ReqId>): map<Addr, NodeState>
  {
    map[r.a := Holder(r, seenA), r.b := Empty(r.b, r.c, seenB), r.c := Empty(r.c, r.a, seenC)]
  }

  function RingStart(r: Ring): Network
  {
    Network(Nodes(r, {}, {}, {}), [], map[], [])
  }

  function Info(r: Ring): FileInfo
  {
    InfoOf(Holder(r, {}), r.name)
  }

  /** The reply of a node without matching files, or with the file, on its way to a. */
  function Reply(r: Ring, from: Addr, relay: Addr, to: Addr, infos: seq<FileInfo>): SearchPacket
  {
    SearchPacket(from, relay, r.a, to, SearchReply(r.id, infos))
  }

  function Ask(r: Ring, from: Addr, to: Addr, budget: nat): SearchPacket
  {
    Request(from, to, r.id, r.a, r.pattern, budget)
  }

  /** The whole budget goes to the only neighbour. */
  lemma OneShare(budget: nat)
    ensures Divided([budget], 1, budget)
  {
    assert [budget][..0] == [];
    assert IsExtra({}, [budget], budget);
  }

  lemma OneRequest(at: Addr, nbr: Addr, id: ReqId, origin: Addr, pattern: Bytes, budget: nat)
    requires budget > 0
    ensures Requests(at, id, origin, pattern, [budget], [Some(nbr)]) == [Request(at, nbr, id, origin, pattern, budget)]
  {
    assert [budget][..0] == [] && [Some(nbr)][..0] == [];
  }

  /** A node without files passes on a request to its only neighbour and answers with nothing. */
  lemma PassesOn(matches: Matcher, r: Ring, at: Addr, nbr: Addr, from: Addr, budget: nat)
    requires nbr != from && 2 <= budget < UINT / 2
    ensures var n, p := Empty(at, nbr, {}), Ask(r, from, at, budget);
            var c := Choice([budget - 1], [Some(nbr)], []);
            && ValidChoice(n, matches, p, c)
            && HandlePacket(n, p, c)
               == (Empty(at, nbr, {r.id}), [Ask(r, at, nbr, budget - 1), Reply(r, at, at, from, [])])
  {
    assert |{nbr}| == 1;
    OneShare(budget - 1);
    OneRequest(at, nbr, r.id, r.a, r.pattern, budget - 1);
    assert [Ask(r, at, nbr, budget - 1)] + [Reply(r, at, at, from, [])]
        == [Ask(r, at, nbr, budget - 1), Reply(r, at, at, from, [])];
    assert {} + {r.id} == {r.id};
  }

  /** The holder has not marked its own request as seen, so it answers it. */
  lemma AnswersItself(matches: Matcher, r: Ring)
    requires ValidRing(matches, r)
    ensures var n, p := Holder(r, {}), Ask(r, r.c, r.a, 1);
            var c := Choice([], [], [Info(r)]);
            && ValidChoice(n, matches, p, c)
            && HandlePacket(n, p, c) == (Holder(r, {r.id}), [Reply(r, r.a, r.a, r.c, [Info(r)])])
  {
    var n := Holder(r, {});
    assert Reported(n, matches, r.pattern, r.name);
    assert [Info(r)][0] == Info(r);
    assert [] + [Reply(r, r.a, r.a, r.c, [Info(r)])] == [Reply(r, r.a, r.a, r.c, [Info(r)])];
    assert {} + {r.id} == {r.id};
  }

  lemma ListsItself(r: Ring)
    ensures var n := HandleReply(Holder(r, {r.id}), [Info(r)], r.a);
            r.metahash in n.blob && r.metahash in n.catalog && r.a in n.catalog[r.metahash]
  {
    var n, fi := Holder(r, {r.id}), Info(r);
    assert [fi][..0] == [];
    assert HandleReply(n, [fi], r.a) == LearnFile(n, fi, r.a);
    Stays(CatalogAdd(n.catalog, r.metahash, r.a), fi.chunks, r.a, r.metahash, r.a);
  }

  lemma {:induction false} Stays(catalog: map<Bytes, set<Addr>>, chunks: seq<Option<Bytes>>, peer: Addr,
                                 key: Bytes, x: Addr)
    requires key in catalog && x in catalog[key]
    ensures var c := CatalogChunks(catalog, chunks, peer); key in c && x in c[key]
  {
    if chunks != [] {
      Stays(catalog, chunks[..|chunks| - 1], peer, key, x);
    }
  }

  /** The run: the request goes from a to b to c to a, and a's answer by c back to a. */
  function StepAt(r: Ring, k: nat): Step
  {
    match k
    case 0 => Start(r.a, r.id, [Ask(r, r.a, r.b, 3)])
    case 1 => Deliver(0, Choice([2], [Some(r.c)], []))
    case 2 => Deliver(0, Choice([1], [Some(r.a)], []))
    case 3 => Deliver(1, Choice([], [], [Info(r)]))
    case _ => Deliver(2, Choice([], [], []))
  }

  function NodesAt(r: Ring, k: nat): map<Addr, NodeState>
  {
    match k
    case 0 => Nodes(r, {}, {}, {})
    case 1 => Nodes(r, {}, {}, {})
    case 2 => Nodes(r, {}, {r.id}, {})
    case 3 => Nodes(r, {}, {r.id}, {r.id})
    case 4 => Nodes(r, {r.id}, {r.id}, {r.id})
    case 5 => Nodes(r, {r.id}, {r.id}, {r.id})
    case _ => Nodes(r, {r.id}, {r.id}, {r.id})[r.a := HandleReply(Holder(r, {r.id}), [Info(r)], r.a)]
  }

  function NetAt(r: Ring, k: nat): seq<SearchPacket>
  {
    var fromB, fromC := Reply(r, r.b, r.b, r.a, []), Reply(r, r.c, r.c, r.b, []);
    match k
    case 0 => []
    case 1 => [Ask(r, r.a, r.b, 3)]
    case 2 => [Ask(r, r.b, r.c, 2), fromB]
    case 3 => [fromB, Ask(r, r.c, r.a, 1), fromC]
    case 4 => [fromB, fromC, Reply(r, r.a, r.a, r.c, [Info(r)])]
    case 5 => [fromB, fromC, Reply(r, r.a, r.c, r.a, [Info(r)])]
    case _ => [fromB, fromC]
  }

  ghost predicate Looks(s: Network, r: Ring, k: nat)
  {
    s.nodes == NodesAt(r, k) && s.net == NetAt(r, k) && (k == 0 ==> s.floods == map[])
  }

  lemma DeliverLooks(matches: Matcher, s: Network, r: Ring, k: nat, n: NodeState, out: seq<SearchPacket>)
    requires 1 <= k <= 5 && Looks(s, r, k)
    requires var p, c := NetAt(r, k)[StepAt(r, k).i], StepAt(r, k).choice;
             && p.sentTo in NodesAt(r, k) && ValidChoice(NodesAt(r, k)[p.sentTo], matches, p, c)
             && HandlePacket(NodesAt(r, k)[p.sentTo], p, c) == (n, out)
             && NodesAt(r, k + 1) == NodesAt(r, k)[p.sentTo := n]
             && NetAt(r, k + 1) == RemoveAt(NetAt(r, k), StepAt(r, k).i) + out
    ensures Enabled(matches, s, StepAt(r, k)) && Looks(Apply(matches, s, StepAt(r, k)), r, k + 1)
  {
  }

  lemma StartLooks(matches: Matcher, s: Network, r: Ring)
    requires ValidRing(matches, r) && Looks(s, r, 0)
    ensures Enabled(matches, s, StepAt(r, 0)) && Looks(Apply(matches, s, StepAt(r, 0)), r, 1)
  {
    assert [] + [Ask(r, r.a, r.b, 3)] == [Ask(r, r.a, r.b, 3)];
  }

  /** b passes the request on to c. */
  lemma RequestAtB(matches: Matcher, s: Network, r: Ring)
    requires ValidRing(matches, r) && Looks(s, r, 1)
    ensures Enabled(matches, s, StepAt(r, 1)) && Looks(Apply(matches, s, StepAt(r, 1)), r, 2)
  {
    PassesOn(matches, r, r.b, r.c, r.a, 3);
    DeliverLooks(matches, s, r, 1, Empty(r.b, r.c, {r.id}), NetAt(r, 2));
  }

  /** c passes it on to a. */
  lemma RequestAtC(matches: Matcher, s: Network, r: Ring)
    requires ValidRing(matches, r) && Looks(s, r, 2)
    ensures Enabled(matches, s, StepAt(r, 2)) && Looks(Apply(matches, s, StepAt(r, 2)), r, 3)
  {
    PassesOn(matches, r, r.c, r.a, r.b, 2);
    DeliverLooks(matches, s, r, 2, Empty(r.c, r.a, {r.id}), NetAt(r, 3)[1..]);
  }

  /** a answers it, by way of c. */
  lemma RequestAtA(matches: Matcher, s: Network, r: Ring)
    requires ValidRing(matches, r) && Looks(s, r, 3)
    ensures Enabled(matches, s, StepAt(r, 3)) && Looks(Apply(matches, s, StepAt(r, 3)), r, 4)
  {
    AnswersItself(matches, r);
    DeliverLooks(matches, s, r, 3, Holder(r, {r.id}), [Reply(r, r.a, r.a, r.c, [Info(r)])]);
  }

  /** c hands the answer to a. */
  lemma AnswerAtC(matches: Matcher, s: Network, r: Ring)
    requires ValidRing(matches, r) && Looks(s, r, 4)
    ensures Enabled(matches, s, StepAt(r, 4)) && Looks(Apply(matches, s, StepAt(r, 4)), r, 5)
  {
    DeliverLooks(matches, s, r, 4, Empty(r.c, r.a, {r.id}), NetAt(r, 5)[2..]);
  }

  /** a learns from its own answer. */
  lemma AnswerAtA(matches: Matcher, s: Network, r: Ring)
    requires ValidRing(matches, r) && Looks(s, r, 5)
    ensures Enabled(matches, s, StepAt(r, 5)) && Looks(Apply(matches, s, StepAt(r, 5)), r, 6)
  {
    DeliverLooks(matches, s, r, 5, HandleReply(Holder(r, {r.id}), [Info(r)], r.a), []);
  }

  lemma NextLooks(matches: Matcher, s: Network, r: Ring, k: nat)
    requires ValidRing(matches, r) && k <= 5 && Looks(s, r, k)
    ensures Enabled(matches, s, StepAt(r, k)) && Looks(Apply(matches, s, StepAt(r, k)), r, k + 1)
  {
    match k {
      case 0 => StartLooks(matches, s, r);
      case 1 => RequestAtB(matches, s, r);
      case 2 => RequestAtC(matches, s, r);
      case 3 => RequestAtA(matches, s, r);
      case 4 => AnswerAtC(matches, s, r);
      case _ => AnswerAtA(matches, s, r);
    }
  }

  function StepsTo(r: Ring, k: nat): seq<Step>
  {
    if k == 0 then [] else StepsTo(r, k - 1) + [StepAt(r, k - 1)]
  }

  lemma RunOneMore(matches: Matcher, s: Network, steps: seq<Step>, step: Step)
    requires ValidRun(matches, s, steps) && Enabled(matches, Exec(matches, s, steps), step)
    ensures ValidRun(matches, s, steps + [step])
    ensures Exec(matches, s, steps + [step]) == Apply(matches, Exec(matches, s, steps), step)
  {
    assert (steps + [step])[..|steps|] == steps;
  }

  lemma RunOn(matches: Matcher, r: Ring, s: Network, steps: seq<Step>, k: nat)
    requires ValidRing(matches, r) && k <= 5 && ValidRun(matches, s, steps) && Looks(Exec(matches, s, steps), r, k)
    ensures ValidRun(matches, s, steps + [StepAt(r, k)])
    ensures Looks(Exec(matches, s, steps + [StepAt(r, k)]), r, k + 1)
  {
    NextLooks(matches, Exec(matches, s, steps), r, k);
    RunOneMore(matches, s, steps, StepAt(r, k));
  }

  lemma {:induction false} RunTo(matches: Matcher, r: Ring, k: nat)
    requires ValidRing(matches, r) && k <= 6
    ensures ValidRun(matches, RingStart(r), StepsTo(r, k))
    ensures Looks(Exec(matches, RingStart(r), StepsTo(r, k)), r, k)
  {
    if k > 0 {
      RunTo(matches, r, k - 1);
      RunOn(matches, r, RingStart(r), StepsTo(r, k - 1), k - 1);
    }
  }

  /**
   * A peer can list itself. SearchAll does not mark its own request as seen: in a ring of three the
   * request comes back, the peer answers it, and its catalog then names itself for a file it stores,
   * without any duplication or loss.
   */
  lemma PeerListsItself(matches: Matcher, r: Ring)
    requires ValidRing(matches, r)
    ensures Init(RingStart(r)) && ValidRun(matches, RingStart(r), StepsTo(r, 6))
    ensures forall a :: a in RingStart(r).nodes ==> !OwnListed(RingStart(r).nodes[a])
    ensures var s := Exec(matches, RingStart(r), StepsTo(r, 6));
            && r.a in s.nodes && OwnListed(s.nodes[r.a])
            && Listed(s.nodes[r.a].catalog, r.metahash, r.a)
  {
    RingClean(r);
    AfterRing(matches, r, 6);
  }

  lemma RingClean(r: Ring)
    requires r.a != r.b && r.b != r.c && r.a != r.c
    ensures Init(RingStart(r)) && forall a :: a in RingStart(r).nodes ==> !OwnListed(RingStart(r).nodes[a])
  {
  }

  lemma AfterRing(matches: Matcher, r: Ring, k: nat)
    requires ValidRing(matches, r) && k == 6
    ensures ValidRun(matches, RingStart(r), StepsTo(r, k))
    ensures var s := Exec(matches, RingStart(r), StepsTo(r, k));
            && r.a in s.nodes && OwnListed(s.nodes[r.a])
            && Listed(s.nodes[r.a].catalog, r.metahash, r.a)
  {
    RunTo(matches, r, k);
    ListsItself(r);
  }
}
