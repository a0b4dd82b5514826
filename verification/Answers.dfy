/**
 * Searches are answered: what a request makes a node send, that a flood carries its question unchanged,
 * and that the answer finds its way to the origin, which learns from it (peer/impl/handlers.go).
 */
module Answers {
  import opened Basics
  import opened Codec
  import opened SearchNode
  import opened SearchNetwork
  import opened SearchPeer
  import opened FullFiles
  import opened OwnCatalog
  import opened FindAndFetch
  import opened Naming
  import Sharing = SharingNetwork

  // ---- the question ----

  /** A request sent by `at` with this id asks this pattern for this origin. */
  predicate Asks(q: SearchPacket, at: Addr, id: ReqId, origin: Addr, pattern: Bytes)
  {
    && q.source == q.relayedBy == at && q.destination == q.sentTo
    && q.msg.SearchRequest? && q.msg.id == id && q.msg.origin == origin && q.msg.pattern == pattern
  }

  lemma {:induction false} RequestsAsk(at: Addr, id: ReqId, origin: Addr, pattern: Bytes,
                                       shares: seq<int>, picks: seq<Option<Addr>>)
    requires |shares| == |picks|
    ensures forall q :: q in Requests(at, id, origin, pattern, shares, picks) ==> Asks(q, at, id, origin, pattern)
  {
    if shares != [] {
      var k := |shares| - 1;
      RequestsAsk(at, id, origin, pattern, shares[..k], picks[..k]);
    }
  }

  /** Each of the requests asks the pattern for the node that searches, under the next id. */
  ghost predicate AllAsk(at: Addr, ids: nat -> ReqId, first: nat, pattern: Bytes, sends: seq<SearchPacket>)
  {
    forall k :: 0 <= k < |sends| ==> Asks(sends[k], at, ids(first + k), at, pattern)
  }

  lemma AskMore(at: Addr, ids: nat -> ReqId, first: nat, pattern: Bytes, xs: seq<SearchPacket>, ys: seq<SearchPacket>)
    requires AllAsk(at, ids, first, pattern, xs) && AllAsk(at, ids, first + |xs|, pattern, ys)
    ensures AllAsk(at, ids, first, pattern, xs + ys)
  {
    forall k | 0 <= k < |xs + ys|
      ensures Asks((xs + ys)[k], at, ids(first + k), at, pattern)
    {
      if k >= |xs| {
        assert Asks(ys[k - |xs|], at, ids(first + |xs| + (k - |xs|)), at, pattern);
      }
    }
  }

  lemma {:induction false} FreshAsk(at: Addr, ids: nat -> ReqId, first: nat, pattern: Bytes,
                                    shares: seq<int>, picks: seq<Option<Addr>>)
    requires |shares| == |picks|
    ensures AllAsk(at, ids, first, pattern, FreshRequests(at, ids, first, pattern, shares, picks))
  {
    if shares != [] {
      var k := |shares| - 1;
      FreshAsk(at, ids, first, pattern, shares[..k], picks[..k]);
      var rest := FreshRequests(at, ids, first, pattern, shares[..k], picks[..k]);
      if shares[k] > 0 {
        var nbr := if picks[k].Some? then picks[k].value else NoAddr;
        AskMore(at, ids, first, pattern, rest, [Request(at, nbr, ids(first + |rest|), at, pattern, shares[k])]);
      }
    }
  }

  /** All requests of the rounds of a search ask the same question, each under an id of its own. */
  lemma {:induction false} RoundsAsk(at: Addr, ids: nat -> ReqId, first: nat, pattern: Bytes, rounds: seq<Round>)
    ensures AllAsk(at, ids, first, pattern, RoundSends(at, ids, first, pattern, rounds))
  {
    if rounds != [] {
      var k := |rounds| - 1;
      var round := rounds[k];
      var n := Min(|round.picks|, |round.shares|);
      RoundsAsk(at, ids, first, pattern, rounds[..k]);
      var rest := RoundSends(at, ids, first, pattern, rounds[..k]);
      FreshAsk(at, ids, first + |rest|, pattern, round.shares[..n], round.picks[..n]);
      AskMore(at, ids, first, pattern, rest, SendsOf(at, ids, first + |rest|, pattern, round));
    }
  }

  /** A request with this id asks this pattern for this origin. */
  predicate SameQuestion(p: SearchPacket, id: ReqId, origin: Addr, pattern: Bytes)
  {
    IsRequest(p, id) ==> p.msg.origin == origin && p.msg.pattern == pattern
  }

  ghost predicate OneQuestion(net: seq<SearchPacket>, id: ReqId, origin: Addr, pattern: Bytes)
  {
    forall p :: p in net ==> SameQuestion(p, id, origin, pattern)
  }

  lemma HandleAsksOn(n: NodeState, matches: Matcher, p: SearchPacket, c: Choice,
                     id: ReqId, origin: Addr, pattern: Bytes)
    requires ValidChoice(n, matches, p, c) && SameQuestion(p, id, origin, pattern)
    ensures OneQuestion(HandlePacket(n, p, c).1, id, origin, pattern)
  {
    if Answers(n, p) {
      RequestsAsk(n.addr, p.msg.id, p.msg.origin, p.msg.pattern, c.shares, c.picks);
    }
  }

  lemma QuestionStep(matches: Matcher, s: Network, step: Step, id: ReqId, origin: Addr, pattern: Bytes)
    requires Enabled(matches, s, step) && OneQuestion(s.net, id, origin, pattern)
    requires step.Start? && step.id == id ==> OneQuestion(step.sends, id, origin, pattern)
    ensures OneQuestion(Apply(matches, s, step).net, id, origin, pattern)
  {
    match step {
      case Start(at, x, sends) =>
        assert forall p :: p in sends ==> IsRequest(p, x);
      case Deliver(i, c) =>
        assert s.net[i] in s.net;
        RemoveAtMembers(s.net, i);
        HandleAsksOn(s.nodes[s.net[i].sentTo], matches, s.net[i], c, id, origin, pattern);
      case Drop(i) => RemoveAtMembers(s.net, i);
      case Duplicate(i) => assert s.net[i] in s.net;
      case _ =>
    }
  }

  /**
   * A flood carries its question. Over every run, with loss and duplication, every request in flight has
   * the origin and the pattern with which the flood of its id was started.
   */
  lemma {:induction false} FloodAsksOneQuestion(matches: Matcher, s0: Network, steps: seq<Step>,
                                                id: ReqId, origin: Addr, pattern: Bytes)
    requires Init(s0) && ValidRun(matches, s0, steps)
    requires forall step :: step in steps && step.Start? && step.id == id ==>
               OneQuestion(step.sends, id, origin, pattern)
    ensures OneQuestion(Exec(matches, s0, steps).net, id, origin, pattern)
  {
    if steps != [] {
      var k := |steps| - 1;
      assert steps[k] in steps;
      FloodAsksOneQuestion(matches, s0, steps[..k], id, origin, pattern);
      QuestionStep(matches, Exec(matches, s0, steps[..k]), steps[k], id, origin, pattern);
    }
  }

  // ---- the answer ----

  /** The packet reaches its destination b. */
  ghost predicate Arrives(s: Network, i: nat, b: Addr)
  {
    i < |s.net| && b in s.nodes && s.net[i].sentTo == s.net[i].destination == b
  }

  /** b's answer to p: to the origin of the request, by way of the neighbour that p came from. */
  function AnswerTo(b: Addr, p: SearchPacket, infos: seq<FileInfo>): SearchPacket
    requires p.msg.SearchRequest?
  {
    SearchPacket(b, b, p.msg.origin, p.source, SearchReply(p.msg.id, infos))
  }

  /** The infos report a name as full exactly if it matches and its file is full at n. */
  ghost predicate ReportsFull(n: NodeState, matches: Matcher, pattern: Bytes, infos: seq<FileInfo>)
  {
    forall name :: (exists fi :: fi in infos && fi.name == name && InfoIsFull(fi))
                   <==> name in n.naming && matches(pattern, name) && FullLocally(n, name)
  }

  /**
   * A request delivered at its destination b. If b has seen its id nothing happens. Otherwise b marks the
   * id, sends on only requests with the same question, and after them exactly one answer to the origin,
   * which reports as full exactly the matching names whose files are full at b.
   */
  lemma RequestDelivered(matches: Matcher, s: Network, i: nat, c: Choice, b: Addr)
    requires Named(s.nodes) && Arrives(s, i, b) && s.net[i].msg.SearchRequest? && Enabled(matches, s, Deliver(i, c))
    ensures var s' := Apply(matches, s, Deliver(i, c));
            var p, n := s.net[i], s.nodes[b];
            if p.msg.id in n.seen then s'.nodes == s.nodes && s'.net == RemoveAt(s.net, i)
            else
              && s'.nodes == s.nodes[b := n.(seen := n.seen + {p.msg.id})]
              && ReportsFull(n, matches, p.msg.pattern, c.infos)
              && exists forwards :: s'.net == RemoveAt(s.net, i) + forwards + [AnswerTo(b, p, c.infos)]
                   && forall q :: q in forwards ==> Asks(q, b, p.msg.id, p.msg.origin, p.msg.pattern)
  {
    var p, n := s.net[i], s.nodes[b];
    if p.msg.id !in n.seen {
      var forwards := Forwards(n, p, c);
      RequestsAsk(b, p.msg.id, p.msg.origin, p.msg.pattern, c.shares, c.picks);
      forall name
        ensures (exists fi :: fi in c.infos && fi.name == name && InfoIsFull(fi))
                <==> name in n.naming && matches(p.msg.pattern, name) && FullLocally(n, name)
      {
        RemoteTestAgrees(n, matches, p.msg.pattern, c.infos, name);
      }
      ConcatAssoc(RemoveAt(s.net, i), forwards, [AnswerTo(b, p, c.infos)]);
      assert Apply(matches, s, Deliver(i, c)).net == RemoveAt(s.net, i) + forwards + [AnswerTo(b, p, c.infos)];
    } else {
      assert s.nodes[b := n] == s.nodes;
      assert RemoveAt(s.net, i) + [] == RemoveAt(s.net, i);
    }
  }

  /** A packet at a hop on its way goes on to its destination as it is; no node changes. */
  lemma Forwarded(matches: Matcher, s: Network, i: nat, c: Choice, hop: Addr)
    requires Named(s.nodes) && i < |s.net| && s.net[i].sentTo == hop != s.net[i].destination
    requires Enabled(matches, s, Deliver(i, c))
    ensures var s' := Apply(matches, s, Deliver(i, c));
            var p := s.net[i];
            && s'.nodes == s.nodes
            && s'.net == RemoveAt(s.net, i) + [SearchPacket(p.source, hop, p.destination, p.destination, p.msg)]
  {
    assert s.nodes[hop := s.nodes[hop]] == s.nodes;
  }

  // ---- the origin learns ----

  ghost predicate DeliverRun(matches: Matcher, s: Network, steps: seq<Step>)
  {
    ValidRun(matches, s, steps) && forall step :: step in steps ==> step.Deliver?
  }

  /** a lists the source of these file infos under all that they mention, and names what they name. */
  ghost predicate Learnt(s: Network, a: Addr, source: Addr, infos: seq<FileInfo>)
  {
    && a in s.nodes
    && (forall key :: Mentioned(infos, key) ==> Listed(s.nodes[a].catalog, key, source))
    && (forall name :: LastInfo(infos, name).Some? ==>
          NameAt(s, a, name) == Some(LastInfo(infos, name).value.metahash))
  }

  lemma ReplyTaken(matches: Matcher, s: Network, i: nat, a: Addr) returns (step: Step)
    requires Named(s.nodes) && Arrives(s, i, a) && s.net[i].msg.SearchReply?
    ensures step.Deliver? && Enabled(matches, s, step)
    ensures Learnt(Apply(matches, s, step), a, s.net[i].source, s.net[i].msg.responses)
  {
    var p, n := s.net[i], s.nodes[a];
    step := Deliver(i, Choice([], [], []));
    forall key | Mentioned(p.msg.responses, key)
      ensures Listed(HandleReply(n, p.msg.responses, p.source).catalog, key, p.source)
    {
      ReplyLists(n, p.msg.responses, p.source, key, p.source);
    }
    forall name | LastInfo(p.msg.responses, name).Some?
      ensures Lookup(HandleReply(n, p.msg.responses, p.source).naming, name)
              == Some(LastInfo(p.msg.responses, name).value.metahash)
    {
      ReplyNames(n, p.msg.responses, p.source, name);
    }
    assert Apply(matches, s, step).nodes[a] == HandleReply(n, p.msg.responses, p.source);
  }

  /** The answer comes home: at most two deliveries bring a reply to the origin, which then has learnt from it. */
  lemma AnswerComesHome(matches: Matcher, s: Network, i: nat, a: Addr) returns (steps: seq<Step>)
    requires Named(s.nodes) && i < |s.net| && s.net[i].msg.SearchReply?
    requires s.net[i].sentTo in s.nodes && s.net[i].destination == a && a in s.nodes
    ensures |steps| <= 2 && DeliverRun(matches, s, steps)
    ensures Learnt(Exec(matches, s, steps), a, s.net[i].source, s.net[i].msg.responses)
  {
    var p := s.net[i];
    if p.sentTo == a {
      var step := ReplyTaken(matches, s, i, a);
      RunOneMore(matches, s, [], step);
      steps := [] + [step];
    } else {
      var c := Choice([], [], []);
      Forwarded(matches, s, i, c, p.sentTo);
      var t := Apply(matches, s, Deliver(i, c));
      var step := ReplyTaken(matches, t, |t.net| - 1, a);
      RunOneMore(matches, s, [], Deliver(i, c));
      RunOneMore(matches, s, [] + [Deliver(i, c)], step);
      steps := [] + [Deliver(i, c)] + [step];
    }
  }

  /**
   * Whoever has the file is found. When a request of a reaches a node b that has not seen it, and b has a
   * matching file in full, then its delivery and at most two more bring a a file info without missing
   * chunks of that name: a then lists b for everything that b reported.
   */
  lemma HolderIsFound(matches: Matcher, s: Network, i: nat, c: Choice, a: Addr, b: Addr, name: Bytes)
    returns (steps: seq<Step>, fi: FileInfo)
    requires Named(s.nodes) && Arrives(s, i, b) && s.net[i].msg.SearchRequest? && Enabled(matches, s, Deliver(i, c))
    requires s.net[i].msg.id !in s.nodes[b].seen
    requires s.net[i].msg.origin == a && a in s.nodes && s.net[i].source in s.nodes
    requires name in s.nodes[b].naming && matches(s.net[i].msg.pattern, name) && FullLocally(s.nodes[b], name)
    ensures |steps| <= 2 && Named(Apply(matches, s, Deliver(i, c)).nodes)
    ensures DeliverRun(matches, Apply(matches, s, Deliver(i, c)), steps)
    ensures fi in c.infos && fi.name == name && InfoIsFull(fi)
    ensures Learnt(Exec(matches, Apply(matches, s, Deliver(i, c)), steps), a, b, c.infos)
  {
    RequestDelivered(matches, s, i, c, b);
    NamedStep(matches, s, Deliver(i, c));
    fi :| fi in c.infos && fi.name == name && InfoIsFull(fi);
    var t := Apply(matches, s, Deliver(i, c));
    steps := AnswerComesHome(matches, t, |t.net| - 1, a);
  }

  /**
   * A file that was found is offered on. In every run whose blob stores hold what sound uploads put there:
   * if a handled a report of a full file, which was the last to name it, and has since stored its parts,
   * then whatever a answers to a new request that matches the name reports the file as full.
   */
  lemma FoundIsOffered(h: Hash, hist: Sharing.History, matches: Matcher, s0: Network, steps: seq<Step>,
                       a: Addr, p: SearchPacket, fi: FileInfo, i: nat, c: Choice)
    requires Init(s0) && ValidRun(matches, s0, steps) && a in s0.nodes
    requires SoundUploads(h, hist) && UploadsOnly(h, hist, s0, steps)
    requires NamedBy(matches, s0, steps, a, p, fi) && InfoIsFull(fi)
    requires a in Exec(matches, s0, steps).nodes && PartsStored(Exec(matches, s0, steps).nodes[a].blob, fi)
    requires Arrives(Exec(matches, s0, steps), i, a) && Enabled(matches, Exec(matches, s0, steps), Deliver(i, c))
    requires var q := Exec(matches, s0, steps).net[i];
             && q.msg.SearchRequest? && matches(q.msg.pattern, fi.name)
             && q.msg.id !in Exec(matches, s0, steps).nodes[a].seen
    ensures exists x :: x in c.infos && x.name == fi.name && InfoIsFull(x)
    ensures var t := Apply(matches, Exec(matches, s0, steps), Deliver(i, c));
            t.net != [] && t.net[|t.net| - 1] == AnswerTo(a, Exec(matches, s0, steps).net[i], c.infos)
  {
    var s := Exec(matches, s0, steps);
    ReportedBecomesFull(h, hist, matches, s0, steps, a, p, fi);
    NamingExact(matches, s0, steps, a, fi.name, Some(fi.metahash));
    RequestDelivered(matches, s, i, c, a);
  }
}
