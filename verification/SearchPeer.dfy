/**
 * The node object of the file search: the methods that carry out the handlers of SearchNode, and the
 * ones that start a search (peer/impl/handlers.go, peer/impl/dataSharing.go, peer/impl/searchFirst.go).
 */
module SearchPeer {
  import opened Basics
  import opened Codec
  import opened NbrSets
  import opened Budgets
  import opened SearchNode
  import opened Targets

  // ---- what starting a search sends ----

  /** What the send loop of SearchAll has done after |picks| shares. */
  ghost predicate Targeting(at: Addr, id: ReqId, pattern: Bytes, shares: seq<int>, picks: seq<Option<Addr>>,
                            targets: set<Addr>, sends: seq<SearchPacket>)
  {
    && |picks| <= |shares| && DistinctTargets(shares, picks, targets)
    && |targets| == Positives(shares[..|picks|])
    && sends == Requests(at, id, at, pattern, shares[..|picks|], picks)
  }

  /** One more share: what is sent, and how many shares so far are positive. */
  lemma {:induction false} OneMoreShare(at: Addr, id: ReqId, pattern: Bytes, shares: seq<int>,
                         picks: seq<Option<Addr>>, pick: Option<Addr>, picks': seq<Option<Addr>>)
    requires |picks| < |shares| && picks' == picks + [pick]
    ensures Positives(shares[..|picks'|]) == Positives(shares[..|picks|]) + if shares[|picks|] > 0 then 1 else 0
    ensures var before := Requests(at, id, at, pattern, shares[..|picks|], picks);
            var nbr := if pick.Some? then pick.value else NoAddr;
            Requests(at, id, at, pattern, shares[..|picks'|], picks')
            == if shares[|picks|] > 0 then before + [Request(at, nbr, id, at, pattern, shares[|picks|])] else before
  {
    RequestsOneMore(at, id, at, pattern, shares, picks, pick, |picks|);
    PositivesOneMore(shares, |picks|);
  }

  lemma {:induction false} TargetingSkips(at: Addr, id: ReqId, pattern: Bytes, shares: seq<int>,
                         picks: seq<Option<Addr>>, targets: set<Addr>, sends: seq<SearchPacket>,
                         picks': seq<Option<Addr>>)
    requires Targeting(at, id, pattern, shares, picks, targets, sends) && |picks| < |shares| && shares[|picks|] <= 0
    requires picks' == picks + [None]
    ensures Targeting(at, id, pattern, shares, picks', targets, sends)
  {
    OneMoreShare(at, id, pattern, shares, picks, None, picks');
  }

  lemma {:induction false} TargetingSends(at: Addr, id: ReqId, pattern: Bytes, shares: seq<int>,
                         picks: seq<Option<Addr>>, targets: set<Addr>, sends: seq<SearchPacket>, nbr: Addr,
                         picks': seq<Option<Addr>>, sends': seq<SearchPacket>)
    requires Targeting(at, id, pattern, shares, picks, targets, sends) && |picks| < |shares| && shares[|picks|] > 0
    requires nbr !in targets && picks' == picks + [Some(nbr)]
    requires sends' == sends + [Request(at, nbr, id, at, pattern, shares[|picks|])]
    ensures Targeting(at, id, pattern, shares, picks', targets + {nbr}, sends')
  {
    OneMoreShare(at, id, pattern, shares, picks, Some(nbr), picks');
    TargetsOneMore(shares, picks, targets, nbr);
  }

  /** Requests of an expanding-ring round: each positive share gets a request id of its own. */
  function FreshRequests(at: Addr, ids: nat -> ReqId, first: nat, pattern: Bytes,
                         shares: seq<int>, picks: seq<Option<Addr>>): seq<SearchPacket>
    requires |shares| == |picks|
  {
    if shares == [] then []
    else
      var k := |shares| - 1;
      var rest := FreshRequests(at, ids, first, pattern, shares[..k], picks[..k]);
      var nbr := if picks[k].Some? then picks[k].value else NoAddr;
      if shares[k] > 0 then rest + [Request(at, nbr, ids(first + |rest|), at, pattern, shares[k])] else rest
  }

  lemma {:induction false} FreshOneMore(at: Addr, ids: nat -> ReqId, first: nat, pattern: Bytes,
                     shares: seq<int>, picks: seq<Option<Addr>>, pick: Option<Addr>, i: nat)
    requires |picks| == i < |shares|
    ensures var nbr := if pick.Some? then pick.value else NoAddr;
            var before := FreshRequests(at, ids, first, pattern, shares[..i], picks);
            FreshRequests(at, ids, first, pattern, shares[..i + 1], picks + [pick])
            == if shares[i] > 0
               then before + [Request(at, nbr, ids(first + |before|), at, pattern, shares[i])] else before
  {
    assert shares[..i + 1][..i] == shares[..i] && (picks + [pick])[..i] == picks;
  }

  /** The shares so far: every positive one has a neighbour. */
  ghost predicate PickedSoFar(nbrs: set<Addr>, shares: seq<int>, picks: seq<Option<Addr>>)
  {
    && |picks| <= |shares|
    && forall i :: 0 <= i < |picks| && shares[i] > 0 ==> picks[i].Some? && Picked(picks[i], nbrs, NoAddr)
  }

  lemma PickedOneMore(nbrs: set<Addr>, shares: seq<int>, picks: seq<Option<Addr>>, pick: Option<Addr>)
    requires PickedSoFar(nbrs, shares, picks) && |picks| < |shares|
    requires shares[|picks|] > 0 ==> pick.Some? && Picked(pick, nbrs, NoAddr)
    ensures PickedSoFar(nbrs, shares, picks + [pick])
  {
  }

  /** What the send loop of a round has done after |picks| shares. */
  ghost predicate Sending(nbrs: set<Addr>, at: Addr, ids: nat -> ReqId, first: nat, pattern: Bytes,
                          shares: seq<int>, picks: seq<Option<Addr>>, sends: seq<SearchPacket>)
  {
    && PickedSoFar(nbrs, shares, picks)
    && sends == FreshRequests(at, ids, first, pattern, shares[..|picks|], picks)
    && (nbrs <= {NoAddr} ==> sends == [])
  }

  /** What one share sends under the next id: nothing if no neighbour was picked for it. */
  function ShareSends(at: Addr, id: ReqId, pattern: Bytes, share: int, pick: Option<Addr>): seq<SearchPacket>
  {
    if pick.Some? && share > 0 then [Request(at, pick.value, id, at, pattern, share)] else []
  }

  /** What the forwarding loop has done after |picks| shares of a request. */
  ghost predicate Forwarding(nbrs: set<Addr>, except: Addr, at: Addr, req: SearchMessage,
                             shares: seq<int>, picks: seq<Option<Addr>>, sends: seq<SearchPacket>)
    requires req.SearchRequest?
  {
    && |picks| <= |shares|
    && (forall i :: 0 <= i < |picks| && shares[i] > 0 ==> Picked(picks[i], nbrs, except))
    && sends == Requests(at, req.id, req.origin, req.pattern, shares[..|picks|], picks)
  }

  /** One share is sent on to its pick, the empty address if there is none, and no other share is. */
  function ForwardSends(at: Addr, req: SearchMessage, share: int, pick: Option<Addr>): seq<SearchPacket>
    requires req.SearchRequest?
  {
    var to := if pick.Some? then pick.value else NoAddr;
    if share > 0 then [Request(at, to, req.id, req.origin, req.pattern, share)] else []
  }

  lemma {:induction false} ForwardingOneMore(nbrs: set<Addr>, except: Addr, at: Addr, req: SearchMessage,
                          shares: seq<int>, picks: seq<Option<Addr>>, sends: seq<SearchPacket>, pick: Option<Addr>)
    requires req.SearchRequest? && Forwarding(nbrs, except, at, req, shares, picks, sends) && |picks| < |shares|
    requires shares[|picks|] > 0 ==> Picked(pick, nbrs, except)
    ensures Forwarding(nbrs, except, at, req, shares, picks + [pick],
                       sends + ForwardSends(at, req, shares[|picks|], pick))
  {
    ForwardNext(at, req, shares, picks, sends, pick);
    assert |picks + [pick]| == |picks| + 1;
  }

  lemma {:induction false} ForwardNext(at: Addr, req: SearchMessage, shares: seq<int>, picks: seq<Option<Addr>>,
                    sends: seq<SearchPacket>, pick: Option<Addr>)
    requires req.SearchRequest? && |picks| < |shares|
    requires sends == Requests(at, req.id, req.origin, req.pattern, shares[..|picks|], picks)
    ensures Requests(at, req.id, req.origin, req.pattern, shares[..|picks| + 1], picks + [pick])
            == sends + ForwardSends(at, req, shares[|picks|], pick)
  {
    RequestsOneMore(at, req.id, req.origin, req.pattern, shares, picks, pick, |picks|);
    assert sends + [] == sends;
  }

  lemma {:induction false} SendingOneMore(nbrs: set<Addr>, at: Addr, ids: nat -> ReqId, first: nat, pattern: Bytes,
                       shares: seq<int>, picks: seq<Option<Addr>>, sends: seq<SearchPacket>, pick: Option<Addr>)
    requires Sending(nbrs, at, ids, first, pattern, shares, picks, sends) && |picks| < |shares|
    requires if shares[|picks|] > 0 then pick.Some? && Picked(pick, nbrs, NoAddr) else pick.None?
    ensures Sending(nbrs, at, ids, first, pattern, shares, picks + [pick],
                    sends + ShareSends(at, ids(first + |sends|), pattern, shares[|picks|], pick))
  {
    PickedOneMore(nbrs, shares, picks, pick);
    FreshSends(at, ids, first, pattern, shares, picks, sends, pick);
  }

  lemma {:induction false} FreshSends(at: Addr, ids: nat -> ReqId, first: nat, pattern: Bytes,
                   shares: seq<int>, picks: seq<Option<Addr>>, sends: seq<SearchPacket>, pick: Option<Addr>)
    requires |picks| < |shares| && sends == FreshRequests(at, ids, first, pattern, shares[..|picks|], picks)
    requires shares[|picks|] > 0 ==> pick.Some?
    ensures FreshRequests(at, ids, first, pattern, shares[..|picks| + 1], picks + [pick])
            == sends + ShareSends(at, ids(first + |sends|), pattern, shares[|picks|], pick)
  {
    FreshOneMore(at, ids, first, pattern, shares, picks, pick, |picks|);
    assert sends + [] == sends;
  }

  /**
   * The retry loop can end with a fresh neighbour if and only if fewer were taken than a draw can
   * return; no draw returns the empty address.
   */
  lemma FreshNbr(nbrs: set<Addr>, taken: set<Addr>)
    requires taken <= nbrs - {NoAddr}
    ensures (exists nbr :: nbr in nbrs - {NoAddr} && nbr !in taken) <==> |taken| < |nbrs - {NoAddr}|
    ensures |taken| <= |nbrs - {NoAddr}|
  {
    var free := nbrs - {NoAddr} - taken;
    assert nbrs - {NoAddr} == taken + free && |taken + free| == |taken| + |free|;
    if free != {} {
      var nbr :| nbr in free;
      assert nbr in nbrs - {NoAddr} && nbr !in taken;
    }
  }

  /** What a draw that is repeated until its result is new comes to. */
  datatype Draw = Drawn(nbr: Addr) | NoCandidate | Forever

  /** How the send loop of SearchAll ends; `Spins` means that it does not. */
  datatype SendOutcome = AllSent | NoNeighbour | Spins

  // ---- expanding rings ----

  /** The budget of round r: `budget *= factor` on an unsigned 64-bit integer. */
  function BudgetAt(initial: nat, factor: nat, r: nat): nat
  {
    if r == 0 then initial else BudgetAt(initial, factor, r - 1) * factor % UINT
  }

  /** How many rounds Retry allows: the guard compares with int(Retry). */
  function Rounds(retry: nat): nat
  {
    Max(0, ToInt(retry))
  }

  /** The budgets of n rounds. */
  function RingBudgets(initial: nat, factor: nat, n: nat): seq<nat>
  {
    seq(n, r requires 0 <= r < n => BudgetAt(initial, factor, r))
  }

  /** One round: the shares, the neighbours picked for them, the file infos that came back in time. */
  datatype Round = Round(shares: seq<int>, picks: seq<Option<Addr>>, heard: seq<FileInfo>)

  function SendsOf(at: Addr, ids: nat -> ReqId, first: nat, pattern: Bytes, round: Round): seq<SearchPacket>
  {
    var n := Min(|round.picks|, |round.shares|);
    FreshRequests(at, ids, first, pattern, round.shares[..n], round.picks[..n])
  }

  /** Every positive share up to where sending stopped has a neighbour; it stops only if there is none. */
  ghost predicate AllPicked(nbrs: set<Addr>, shares: seq<int>, picks: seq<Option<Addr>>)
  {
    && PickedSoFar(nbrs, shares, picks)
    && (|picks| < |shares| ==> nbrs <= {NoAddr})
  }

  /** `answer` is what comes back during the round; nobody listens if no request was sent. */
  ghost predicate IsRound(nbrs: set<Addr>, budget: nat, answer: seq<FileInfo>, round: Round)
  {
    && Divided(round.shares, |nbrs|, ToInt(budget)) && AllPicked(nbrs, round.shares, round.picks)
    && round.heard == if Silent(round.shares[..|round.picks|]) then [] else answer
  }

  /** No share is positive, so nothing is sent. */
  predicate Silent(shares: seq<int>)
  {
    forall i :: 0 <= i < |shares| ==> shares[i] <= 0
  }

  lemma {:induction false} SilentSendsNothing(at: Addr, ids: nat -> ReqId, first: nat, pattern: Bytes,
                                              shares: seq<int>, picks: seq<Option<Addr>>)
    requires |shares| == |picks|
    ensures Silent(shares) <==> FreshRequests(at, ids, first, pattern, shares, picks) == []
  {
    if shares != [] {
      var k := |shares| - 1;
      SilentSendsNothing(at, ids, first, pattern, shares[..k], picks[..k]);
      assert Silent(shares) ==> Silent(shares[..k]);
      if shares[k] <= 0 && Silent(shares[..k]) {
        assert forall i :: 0 <= i < k ==> shares[i] == shares[..k][i];
      }
    }
  }

  ghost predicate AreRounds(nbrs: set<Addr>, budgets: seq<nat>, answers: seq<seq<FileInfo>>, rounds: seq<Round>)
    requires |rounds| <= |budgets| && |rounds| <= |answers|
  {
    rounds == [] ||
    (var k := |rounds| - 1;
     AreRounds(nbrs, budgets, answers, rounds[..k]) && IsRound(nbrs, budgets[k], answers[k], rounds[k]))
  }

  /** What all rounds send, each going on with the ids where the one before stopped. */
  function RoundSends(at: Addr, ids: nat -> ReqId, first: nat, pattern: Bytes, rounds: seq<Round>): seq<SearchPacket>
  {
    if rounds == [] then []
    else
      var k := |rounds| - 1;
      var rest := RoundSends(at, ids, first, pattern, rounds[..k]);
      rest + SendsOf(at, ids, first + |rest|, pattern, rounds[k])
  }

  /** What SearchFirst has done after these rounds. */
  ghost predicate Searching(nbrs: set<Addr>, at: Addr, ids: nat -> ReqId, first: nat, pattern: Bytes,
                            budgets: seq<nat>, answers: seq<seq<FileInfo>>,
                            rounds: seq<Round>, sends: seq<SearchPacket>)
  {
    && |rounds| <= |budgets| && |rounds| <= |answers| && AreRounds(nbrs, budgets, answers, rounds)
    && sends == RoundSends(at, ids, first, pattern, rounds)
  }

  lemma {:induction false} SendsOneMore(at: Addr, ids: nat -> ReqId, first: nat, pattern: Bytes, rounds: seq<Round>,
                     sends: seq<SearchPacket>, round: Round)
    requires sends == RoundSends(at, ids, first, pattern, rounds)
    ensures RoundSends(at, ids, first, pattern, rounds + [round])
            == sends + SendsOf(at, ids, first + |sends|, pattern, round)
  {
    assert (rounds + [round])[..|rounds|] == rounds;
  }

  lemma {:induction false} SearchingOneMore(nbrs: set<Addr>, at: Addr, ids: nat -> ReqId, first: nat, next: nat,
                         pattern: Bytes, budgets: seq<nat>, answers: seq<seq<FileInfo>>,
                         rounds: seq<Round>, sends: seq<SearchPacket>, round: Round, more: seq<SearchPacket>,
                         rounds': seq<Round>, sends': seq<SearchPacket>)
    requires Searching(nbrs, at, ids, first, pattern, budgets, answers, rounds, sends)
    requires |rounds| < |answers| && |rounds| < |budgets|
    requires IsRound(nbrs, budgets[|rounds|], answers[|rounds|], round)
    requires next == first + |sends| && more == SendsOf(at, ids, next, pattern, round)
    requires rounds' == rounds + [round] && sends' == sends + more
    ensures Searching(nbrs, at, ids, first, pattern, budgets, answers, rounds', sends')
  {
    SendsOneMore(at, ids, first, pattern, rounds, sends, round);
    RoundsOneMore(nbrs, budgets, answers, rounds, round);
  }

  lemma {:induction false} RoundsOneMore(nbrs: set<Addr>, budgets: seq<nat>, answers: seq<seq<FileInfo>>,
                                         rounds: seq<Round>, round: Round)
    requires |rounds| < |answers| && |rounds| < |budgets| && AreRounds(nbrs, budgets, answers, rounds)
    requires IsRound(nbrs, budgets[|rounds|], answers[|rounds|], round)
    ensures AreRounds(nbrs, budgets, answers, rounds + [round])
  {
    assert (rounds + [round])[..|rounds|] == rounds;
  }

  /** Some file info without missing chunks that came back in these rounds has this name. */
  predicate Heard(round: Round, name: Bytes)
  {
    exists i :: 0 <= i < |round.heard| && InfoIsFull(round.heard[i]) && round.heard[i].name == name
  }

  predicate Found(rounds: seq<Round>, name: Bytes)
  {
    exists r :: 0 <= r < |rounds| && Heard(rounds[r], name)
  }

  ghost predicate AllFound(rounds: seq<Round>, names: set<Bytes>)
  {
    forall name :: name in names <==> Found(rounds, name)
  }

  lemma FoundOneMore'(rounds: seq<Round>, round: Round, name: Bytes)
    ensures Found(rounds + [round], name) <==> Found(rounds, name) || Heard(round, name)
  {
    if Heard(round, name) {
      assert Heard((rounds + [round])[|rounds|], name);
    }
    if Found(rounds, name) {
      var r :| 0 <= r < |rounds| && Heard(rounds[r], name);
      assert Heard((rounds + [round])[r], name);
    }
  }

  lemma FoundOneMore(rounds: seq<Round>, round: Round, names: set<Bytes>)
    requires forall name :: name in names <==> Found(rounds, name) || Heard(round, name)
    ensures AllFound(rounds + [round], names)
  {
    forall name
      ensures name in names <==> Found(rounds + [round], name)
    {
      FoundOneMore'(rounds, round, name);
    }
  }

  /** The rounds found nothing, or a file with the empty name, which the code cannot tell from nothing. */
  ghost predicate Unnamed(rounds: seq<Round>)
  {
    forall name :: Found(rounds, name) ==> Found(rounds, [])
  }

  ghost predicate LocalMatch(n: NodeState, matches: Matcher, pattern: Bytes, name: Bytes)
  {
    name in n.naming && matches(pattern, name) && FullLocally(n, name)
  }

  // ---- the node object ----

  class Node {
    const addr: Addr
    const matches: Matcher
    const nbrSet: NbrSet
    const searchRequestsReceived: ConcurrentStrSet
    var blob: map<Bytes, Bytes>
    var naming: map<Bytes, Bytes>
    var catalog: map<Bytes, set<Addr>>
    var outs: seq<SearchPacket>
    const xid: nat -> ReqId   // the unique ids, in the order in which they are taken
    var idsUsed: nat

    ghost function State(): NodeState
      reads this, nbrSet, searchRequestsReceived
    {
      NodeState(addr, nbrSet.nbrs, searchRequestsReceived.strings, blob, naming, catalog)
    }

    constructor (addr: Addr, matches: Matcher, xid: nat -> ReqId)
      ensures State() == NodeState(addr, {}, {}, map[], map[], map[]) && outs == []
      ensures this.matches == matches && this.xid == xid && idsUsed == 0
      ensures fresh(nbrSet) && fresh(searchRequestsReceived)
    {
      this.addr, this.matches, this.xid, idsUsed := addr, matches, xid, 0;
      var nbrs := new NbrSet();
      var received := new ConcurrentStrSet();
      nbrSet, searchRequestsReceived := nbrs, received;
      blob, naming, catalog, outs := map[], map[], map[], [];
    }

    method SendRequest(nbr: Addr, id: ReqId, origin: Addr, pattern: Bytes, budget: nat)
      modifies this`outs
      ensures outs == old(outs) + [Request(addr, nbr, id, origin, pattern, budget)]
    {
      outs := outs + [SearchPacket(addr, addr, nbr, nbr, SearchRequest(id, origin, pattern, budget))];
    }

    /** Forwards one share, if it is positive, to a neighbour other than the packet's source. */
    method ForwardShare(share: int, pkt: SearchPacket) returns (pick: Option<Addr>)
      requires pkt.msg.SearchRequest?
      modifies this`outs
      ensures share > 0 ==> Picked(pick, nbrSet.nbrs, pkt.source)
      ensures outs == old(outs) + ForwardSends(addr, pkt.msg, share, pick)
    {
      if share <= 0 {
        return None;
      }
      pick := nbrSet.SelectARandomNbrExcept(pkt.source);
      var to := if pick.Some? then pick.value else NoAddr;
      SendRequest(to, pkt.msg.id, pkt.msg.origin, pkt.msg.pattern, share);
    }

    /** The forwarding loop: a neighbour may be chosen twice; a share without a candidate is lost. */
    method ForwardSearchRequest(budget: nat, pkt: SearchPacket) returns (ghost c: Choice)
      requires pkt.msg.SearchRequest?
      modifies this`outs
      ensures ValidForward(State(), ToInt(budget), pkt.source, c)
      ensures outs == old(outs) + Requests(addr, pkt.msg.id, pkt.msg.origin, pkt.msg.pattern, c.shares, c.picks)
    {
      var numNbrs := nbrSet.GetSize();
      var budgets := DivideBudget(ToInt(budget), numNbrs);
      ghost var picks: seq<Option<Addr>>, sends: seq<SearchPacket> := [], [];
      var i := 0;
      while i < |budgets|
        invariant 0 <= i <= |budgets| && |picks| == i
        invariant Forwarding(nbrSet.nbrs, pkt.source, addr, pkt.msg, budgets, picks, sends)
        invariant outs == old(outs) + sends
      {
        var pick := ForwardShare(budgets[i], pkt);
        ghost var sent := ForwardSends(addr, pkt.msg, budgets[i], pick);
        ForwardingOneMore(nbrSet.nbrs, pkt.source, addr, pkt.msg, budgets, picks, sends, pick);
        ConcatAssoc(old(outs), sends, sent);
        picks, sends := picks + [pick], sends + sent;
        i := i + 1;
      }
      assert budgets[..i] == budgets;
      c := Choice(budgets, picks, []);
    }

    /** The chunk hashes of a metafile, each replaced by nil unless the chunk is here. */
    method ListChunks(chunkHashes: seq<Bytes>) returns (allChunks: seq<Option<Bytes>>)
      ensures allChunks == ChunkList(blob, chunkHashes)
    {
      allChunks := [];
      for i := 0 to |chunkHashes|
        invariant allChunks == ChunkList(blob, chunkHashes[..i])
      {
        allChunks := allChunks + [if chunkHashes[i] in blob then Some(chunkHashes[i]) else None];
      }
      assert chunkHashes[..|chunkHashes|] == chunkHashes;
    }

    /** Goes through the naming store in any order and reports matching names with a local metafile. */
    method MatchingFiles(pattern: Bytes) returns (infos: seq<FileInfo>)
      ensures Responses(State(), matches, pattern, infos)
    {
      infos := [];
      var todo := naming.Keys;
      while todo != {}
        invariant todo <= naming.Keys && Distinct(infos)
        invariant forall fi :: fi in infos ==>
                    fi.name in naming.Keys - todo && Reported(State(), matches, pattern, fi.name)
                    && fi == InfoOf(State(), fi.name)
        invariant forall name :: name in naming.Keys - todo && Reported(State(), matches, pattern, name) ==>
                    InfoOf(State(), name) in infos
        decreases todo
      {
        var name :| name in todo;
        if matches(pattern, name) {
          var metahash := naming[name];
          if metahash in blob {
            var allChunks := ListChunks(Split(blob[metahash]));
            var info := FileInfo(name, metahash, allChunks);
            assert info !in infos;
            infos := infos + [info];
          }
        }
        todo := todo - {name};
      }
    }

    method ExecSearchRequestMessage(pkt: SearchPacket) returns (ghost c: Choice)
      requires pkt.msg.SearchRequest? && pkt.destination == addr
      modifies this`outs, searchRequestsReceived
      ensures ValidChoice(old(State()), matches, pkt, c)
      ensures State() == HandleRequest(old(State()), pkt, c).0
      ensures outs == old(outs) + HandleRequest(old(State()), pkt, c).1
    {
      c := Choice([], [], []);
      var known := searchRequestsReceived.Contains(pkt.msg.id);
      if known {
        return;
      }
      searchRequestsReceived.AddStr(pkt.msg.id);
      var budget := if pkt.msg.budget == 0 then UINT - 1 else pkt.msg.budget - 1;
      if budget > 0 {
        c := ForwardSearchRequest(budget, pkt);
      }
      var fileInfos := MatchingFiles(pkt.msg.pattern);
      SameResponses(State(), old(State()), matches, pkt.msg.pattern, fileInfos);
      outs := outs + [SearchPacket(addr, addr, pkt.msg.origin, pkt.source, SearchReply(pkt.msg.id, fileInfos))];
      c := Choice(c.shares, c.picks, fileInfos);
    }

    method UpdateCatalog(key: Bytes, peer: Addr)
      modifies this`catalog
      ensures catalog == CatalogAdd(old(catalog), key, peer)
    {
      if key !in catalog {
        catalog := catalog[key := {peer}];
      } else {
        catalog := catalog[key := catalog[key] + {peer}];
      }
      assert {} + {peer} == {peer};
    }

    method ExecSearchReplyMessage(pkt: SearchPacket)
      requires pkt.msg.SearchReply? && pkt.destination == addr
      modifies this`naming, this`catalog
      ensures State() == HandleReply(old(State()), pkt.msg.responses, pkt.source)
    {
      var responses := pkt.msg.responses;
      ghost var n := State();
      var i := 0;
      while i < |responses|
        invariant 0 <= i <= |responses| && State() == HandleReply(n, responses[..i], pkt.source)
      {
        var fi := responses[i];
        ghost var before := State();
        naming := naming[fi.name := fi.metahash];
        UpdateCatalog(fi.metahash, pkt.source);
        ghost var start := catalog;
        var k := 0;
        while k < |fi.chunks|
          invariant 0 <= k <= |fi.chunks|
          invariant naming == before.naming[fi.name := fi.metahash]
          invariant catalog == CatalogChunks(start, fi.chunks[..k], pkt.source)
        {
          assert fi.chunks[..k + 1][..k] == fi.chunks[..k];
          if fi.chunks[k].Some? {
            UpdateCatalog(fi.chunks[k].value, pkt.source);
          }
          k := k + 1;
        }
        assert fi.chunks[..k] == fi.chunks;
        assert responses[..i + 1][..i] == responses[..i];
        i := i + 1;
      }
      assert responses[..i] == responses;
    }

    /** A random one of the peers listed under the hash; fails if there is none. */
    method GetRandomPeerWhoHasHash(hash: Bytes) returns (peer: Option<Addr>)
      ensures peer.Some? <==> hash in catalog && catalog[hash] != {}
      ensures peer.Some? ==> peer.value in catalog[hash]
    {
      if hash !in catalog || catalog[hash] == {} {
        return None;
      }
      var randPeer :| randPeer in catalog[hash];
      return Some(randPeer);
    }

    /** `answer` is the value that the peer asked replies, if any. */
    method GetRemoteChunkAndUpdateBlob(hash: Bytes, answer: Option<Bytes>) returns (got: Option<Bytes>)
      modifies this`blob
      ensures (State(), got) == FetchRemote(old(State()), hash, answer)
    {
      var randPeer := GetRandomPeerWhoHasHash(hash);
      if randPeer.None? || answer.None? {
        return None;
      }
      blob := blob[hash := answer.value];
      return answer;
    }

    method CheckFilenameIsFullFileLocal(name: Bytes) returns (full: bool)
      ensures full == FullLocally(State(), name)
    {
      if name !in naming {
        return false;
      }
      if naming[name] !in blob {
        return false;
      }
      var chunkHashes := Split(blob[naming[name]]);
      for i := 0 to |chunkHashes|
        invariant forall k :: 0 <= k < i ==> chunkHashes[k] in blob
      {
        if chunkHashes[i] !in blob {
          assert chunkHashes[i] in chunkHashes;
          return false;
        }
      }
      return true;
    }

    /** The names in the naming store that match, in any order. */
    method MatchedNames(pattern: Bytes) returns (names: seq<Bytes>)
      ensures Distinct(names)
      ensures forall name :: name in names <==> name in naming && matches(pattern, name)
    {
      names := [];
      var todo := naming.Keys;
      while todo != {}
        invariant todo <= naming.Keys && Distinct(names)
        invariant forall name :: name in names <==> name in naming.Keys - todo && matches(pattern, name)
        decreases todo
      {
        var name :| name in todo;
        assert name !in names;
        if matches(pattern, name) {
          names := names + [name];
        }
        todo := todo - {name};
      }
    }

    /** Random neighbours are drawn until one is new; a draw fails if only the empty address is one. */
    method SelectUnsentNbr(nbrsSent: set<Addr>) returns (draw: Draw)
      requires nbrsSent <= nbrSet.nbrs - {NoAddr}
      ensures match draw {
                case Drawn(nbr) => nbr in nbrSet.nbrs - {NoAddr} && nbr !in nbrsSent
                case NoCandidate => nbrSet.nbrs <= {NoAddr}
                case Forever => !(nbrSet.nbrs <= {NoAddr}) && nbrSet.nbrs - {NoAddr} <= nbrsSent
              }
    {
      var candidates := nbrSet.nbrs - {NoAddr};
      if candidates == {} {
        return NoCandidate;
      }
      FreshNbr(nbrSet.nbrs, nbrsSent);
      if |nbrsSent| == |candidates| {
        return Forever;
      }
      var nbr :| nbr in candidates && nbr !in nbrsSent;
      return Drawn(nbr);
    }

    /**
     * The send loop of SearchAll: a neighbour not yet sent to for every positive share. With no
     * neighbour to draw, a request goes to the empty address and the search fails.
     */
    method SendToDistinctNbrs(pattern: Bytes, budgets: seq<int>, id: ReqId)
      returns (outcome: SendOutcome, ghost picks: seq<Option<Addr>>)
      modifies this`outs
      ensures |picks| <= |budgets|
      ensures outs == old(outs) + Requests(addr, id, addr, pattern, budgets[..|picks|], picks)
      ensures outcome == Spins <==> 0 < |nbrSet.nbrs - {NoAddr}| < Positives(budgets)
      ensures outcome == NoNeighbour <==> 0 == |nbrSet.nbrs - {NoAddr}| < Positives(budgets)
      ensures outcome != NoNeighbour ==> DistinctTargets(budgets, picks, nbrSet.nbrs - {NoAddr})
      ensures match outcome {
                case AllSent => |picks| == |budgets|
                case NoNeighbour => 0 < |picks| && picks[|picks| - 1] == None && budgets[|picks| - 1] > 0
                                    && Positives(budgets[..|picks|]) == 1
                case Spins => Positives(budgets[..|picks|]) == |nbrSet.nbrs - {NoAddr}|
              }
    {
      picks := [];
      ghost var sends: seq<SearchPacket> := [];
      ghost var candidates := nbrSet.nbrs - {NoAddr};
      var nbrsSent: set<Addr> := {};
      var i := 0;
      while i < |budgets|
        invariant 0 <= i <= |budgets| && |picks| == i && nbrsSent <= candidates
        invariant Targeting(addr, id, pattern, budgets, picks, nbrsSent, sends)
        invariant outs == old(outs) + sends
      {
        ghost var pick: Option<Addr> := None;
        if budgets[i] > 0 {
          var draw := SelectUnsentNbr(nbrsSent);
          if !draw.Drawn? {
            MorePositives(budgets, picks, nbrsSent, candidates);
            if draw.NoCandidate? {
              ghost var req := Request(addr, NoAddr, id, addr, pattern, budgets[i]);
              ConcatAssoc(old(outs), sends, [req]);
              RequestsOneMore(addr, id, addr, pattern, budgets, picks, None, i);
              SendRequest(NoAddr, id, addr, pattern, budgets[i]);
              return NoNeighbour, picks + [None];
            }
            assert nbrsSent == candidates;
            return Spins, picks;
          }
          pick := Some(draw.nbr);
          ghost var req := Request(addr, draw.nbr, id, addr, pattern, budgets[i]);
          TargetingSends(addr, id, pattern, budgets, picks, nbrsSent, sends, draw.nbr, picks + [pick], sends + [req]);
          nbrsSent := nbrsSent + {draw.nbr};
          ConcatAssoc(old(outs), sends, [req]);
          SendRequest(draw.nbr, id, addr, pattern, budgets[i]);
          sends := sends + [req];
        } else {
          TargetingSkips(addr, id, pattern, budgets, picks, nbrsSent, sends, picks + [pick]);
        }
        picks := picks + [pick];
        i := i + 1;
      }
      assert budgets[..i] == budgets;
      AtMostTargets(budgets, picks, candidates);
      outcome := AllSent;
    }

    /**
     * `replies` are the file infos that come back before the timeout. With the empty address as a
     * neighbour the search fails if it is the only one, and never returns if the budget reaches all.
     */
    method SearchAll(pattern: Bytes, budget: nat, id: ReqId, replies: seq<FileInfo>)
      returns (outcome: SendOutcome, names: seq<Bytes>, ghost shares: seq<int>, ghost picks: seq<Option<Addr>>)
      modifies this`outs
      ensures |picks| <= |shares| && Divided(shares, |nbrSet.nbrs|, ToInt(budget))
      ensures outs == old(outs) + Requests(addr, id, addr, pattern, shares[..|picks|], picks)
      ensures outcome == Spins <==>
                NoAddr in nbrSet.nbrs && nbrSet.nbrs != {NoAddr} && ToInt(budget) >= |nbrSet.nbrs|
      ensures outcome == NoNeighbour <==> nbrSet.nbrs == {NoAddr} && ToInt(budget) > 0
      ensures outcome == NoNeighbour ==> shares == [ToInt(budget)] && picks == [None] && names == []
      ensures outcome != NoNeighbour ==> DistinctTargets(shares, picks, nbrSet.nbrs - {NoAddr})
      ensures outcome == AllSent ==> |picks| == |shares| && Distinct(names)
      ensures outcome == AllSent ==> forall name :: name in names <==>
                (name in naming && matches(pattern, name)) || exists k :: 0 <= k < |replies| && replies[k].name == name
    {
      var local := MatchedNames(pattern);
      var numNbrs := nbrSet.GetSize();
      var budgets := DivideBudget(ToInt(budget), numNbrs);
      PositivesDivided(budgets, numNbrs, ToInt(budget));
      Candidates(nbrSet.nbrs);
      outcome, picks := SendToDistinctNbrs(pattern, budgets, id);
      shares, names := budgets, [];
      if outcome == NoNeighbour {
        OnlyNoAddr(nbrSet.nbrs);
        assert shares[..0] == [];
        assert Total(shares) == shares[0];
      } else if outcome == AllSent {
        names := CollectNames(local, replies);
      }
    }

    /** Sends one share of a round, if it is positive, to a neighbour under the next id. */
    method SendShare(pattern: Bytes, share: int) returns (pick: Option<Addr>)
      modifies this`outs, this`idsUsed
      ensures if share > 0 then Picked(pick, nbrSet.nbrs, NoAddr) else pick.None?
      ensures var sent := ShareSends(addr, xid(old(idsUsed)), pattern, share, pick);
              outs == old(outs) + sent && idsUsed == old(idsUsed) + |sent|
    {
      if share <= 0 {
        return None;
      }
      pick := nbrSet.SelectARandomNbrExcept(NoAddr);
      if pick.Some? {
        SendRequest(pick.value, xid(idsUsed), addr, pattern, share);
        idsUsed := idsUsed + 1;
      }
    }

    /** One round of requests: a neighbour may be chosen twice; the round stops if there is none. */
    method SendSearchRequests(pattern: Bytes, budgets: seq<int>)
      returns (err: bool, ghost picks: seq<Option<Addr>>, ghost sends: seq<SearchPacket>)
      modifies this`outs, this`idsUsed
      ensures Sending(nbrSet.nbrs, addr, xid, old(idsUsed), pattern, budgets, picks, sends)
      ensures outs == old(outs) + sends && idsUsed == old(idsUsed) + |sends|
      ensures if err then |picks| < |budgets| && nbrSet.nbrs <= {NoAddr} else |picks| == |budgets|
    {
      picks, sends := [], [];
      ghost var nbrs, before, first := nbrSet.nbrs, outs, idsUsed;
      var i := 0;
      while i < |budgets|
        invariant 0 <= i <= |budgets| && |picks| == i
        invariant Sending(nbrs, addr, xid, first, pattern, budgets, picks, sends)
        invariant outs == before + sends && idsUsed == first + |sends|
      {
        var pick := SendShare(pattern, budgets[i]);
        ghost var sent := ShareSends(addr, xid(first + |sends|), pattern, budgets[i], pick);
        if budgets[i] > 0 && pick.None? {
          assert outs == before + sends;
          return true, picks, sends;
        }
        SendingOneMore(nbrs, addr, xid, first, pattern, budgets, picks, sends, pick);
        ConcatAssoc(before, sends, sent);
        sends, picks, i := sends + sent, picks + [pick], i + 1;
      }
      err := false;
    }

    /** Sends a round and collects the names of the full files reported while it lasts. */
    method SendSearchReqToNbrs(pattern: Bytes, budget: nat, answer: seq<FileInfo>, names: ConcurrentStrSet)
      returns (name: Bytes, ghost round: Round, ghost sends: seq<SearchPacket>)
      modifies this`outs, this`idsUsed, names
      ensures IsRound(nbrSet.nbrs, budget, answer, round)
      ensures sends == SendsOf(addr, xid, old(idsUsed), pattern, round)
      ensures outs == old(outs) + sends && idsUsed == old(idsUsed) + |sends|
      ensures forall x :: x in names.strings <==> x in old(names.strings) || Heard(round, x)
      ensures name != [] ==> name in names.strings
      ensures name == [] && names.strings != old(names.strings) ==> [] in names.strings
    {
      var start := idsUsed;
      var numNbrs := nbrSet.GetSize();
      var budgets := DivideBudget(ToInt(budget), numNbrs);
      var err;
      ghost var picks;
      err, picks, sends := SendSearchRequests(pattern, budgets);
      var heard := if idsUsed > start then answer else [];
      round := Round(budgets, picks, heard);
      SilentSendsNothing(addr, xid, start, pattern, budgets[..|picks|], picks);
      assert picks[..|picks|] == picks;
      if err {
        return [], round, sends;
      }
      CollectFull(names, heard, round);
      var namesFound := names.GetStrSlice();
      if |namesFound| > 0 {
        assert namesFound[0] in namesFound;
        return namesFound[0], round, sends;
      }
      return [], round, sends;
    }

    /** The rounds of SearchFirst. */
    method SearchRounds(pattern: Bytes, initial: nat, factor: nat, retry: nat, answers: seq<seq<FileInfo>>)
      returns (name: Bytes, ghost rounds: seq<Round>, ghost sends: seq<SearchPacket>)
      requires |answers| >= Rounds(retry)
      modifies this`outs, this`idsUsed
      ensures |rounds| <= Rounds(retry)
      ensures AreRounds(nbrSet.nbrs, RingBudgets(initial, factor, Rounds(retry)), answers, rounds)
      ensures sends == RoundSends(addr, xid, old(idsUsed), pattern, rounds) && outs == old(outs) + sends
      ensures if name == [] then |rounds| == Rounds(retry) && Unnamed(rounds)
              else Found(rounds, name) && Unnamed(rounds[..|rounds| - 1])
    {
      ghost var nbrs, before, first := nbrSet.nbrs, outs, idsUsed;
      ghost var budgets := RingBudgets(initial, factor, Rounds(retry));
      var names := new ConcurrentStrSet();
      rounds, sends := [], [];
      var round, budget := 0, initial;
      while round < ToInt(retry)
        invariant fresh(names) && |rounds| == round <= Rounds(retry) && budget == BudgetAt(initial, factor, round)
        invariant Searching(nbrs, addr, xid, first, pattern, budgets, answers, rounds, sends)
        invariant outs == before + sends && idsUsed == first + |sends|
        invariant AllFound(rounds, names.strings) && Unnamed(rounds)
      {
        ghost var latest, more, next := Round([], [], []), [], idsUsed;
        name, latest, more := SendSearchReqToNbrs(pattern, budget, answers[round], names);
        ghost var rounds', sends' := rounds + [latest], sends + more;
        SearchingOneMore(nbrs, addr, xid, first, next, pattern, budgets, answers, rounds, sends, latest, more,
                         rounds', sends');
        ConcatAssoc(before, sends, more);
        FoundOneMore(rounds, latest, names.strings);
        assert rounds'[..|rounds|] == rounds;
        rounds, sends := rounds', sends';
        if name != [] {
          return;
        }
        round, budget := round + 1, budget * factor % UINT;
      }
      name := [];
    }

    /**
     * First the local files; then rounds of requests with a growing budget until one finds a name.
     * `answers` are the file infos that come back during each round.
     */
    method SearchFirst(pattern: Bytes, initial: nat, factor: nat, retry: nat, answers: seq<seq<FileInfo>>)
      returns (name: Bytes, ghost rounds: seq<Round>, ghost sends: seq<SearchPacket>)
      requires |answers| >= Rounds(retry)
      modifies this`outs, this`idsUsed
      ensures |rounds| <= Rounds(retry)
      ensures AreRounds(nbrSet.nbrs, RingBudgets(initial, factor, Rounds(retry)), answers, rounds)
      ensures sends == RoundSends(addr, xid, old(idsUsed), pattern, rounds) && outs == old(outs) + sends
      ensures (exists x :: LocalMatch(State(), matches, pattern, x)) ==>
                LocalMatch(State(), matches, pattern, name) && rounds == []
      ensures !(exists x :: LocalMatch(State(), matches, pattern, x)) ==>
                if name == [] then |rounds| == Rounds(retry) && Unnamed(rounds)
                else Found(rounds, name) && Unnamed(rounds[..|rounds| - 1])
    {
      var matchedNames := MatchedNames(pattern);
      for i := 0 to |matchedNames|
        invariant forall k :: 0 <= k < i ==> !FullLocally(State(), matchedNames[k])
        invariant unchanged(this)
      {
        var full := CheckFilenameIsFullFileLocal(matchedNames[i]);
        assert matchedNames[i] in matchedNames;
        if full {
          assert LocalMatch(State(), matches, pattern, matchedNames[i]);
          return matchedNames[i], [], [];
        }
      }
      assert forall x :: !LocalMatch(State(), matches, pattern, x);
      name, rounds, sends := SearchRounds(pattern, initial, factor, retry, answers);
    }
  }

  // ---- helpers of the handlers and the searches ----

  /** A positive share beyond as many as there are candidates. */
  lemma MorePositives(shares: seq<int>, picks: seq<Option<Addr>>, taken: set<Addr>, candidates: set<Addr>)
    requires |picks| < |shares| && shares[|picks|] > 0
    requires taken <= candidates <= taken && |taken| == Positives(shares[..|picks|])
    ensures |candidates| == |taken|
    ensures Positives(shares[..|picks| + 1]) == |candidates| + 1 <= Positives(shares)
  {
    assert taken == candidates;
    PositivesOneMore(shares, |picks|);
    PositivesPrefix(shares, |picks| + 1);
  }

  lemma OnlyNoAddr(nbrs: set<Addr>)
    requires |nbrs - {NoAddr}| == 0 && nbrs != {}
    ensures nbrs == {NoAddr} && |nbrs| == 1
  {
    assert nbrs - {NoAddr} == {};
    assert nbrs == {NoAddr};
  }

  lemma SameResponses(n: NodeState, n': NodeState, matches: Matcher, pattern: Bytes, infos: seq<FileInfo>)
    requires n.blob == n'.blob && n.naming == n'.naming && Responses(n, matches, pattern, infos)
    ensures Responses(n', matches, pattern, infos)
  {
    forall name | Reported(n', matches, pattern, name)
      ensures InfoOf(n', name) in infos
    {
      assert Reported(n, matches, pattern, name);
      assert InfoOf(n', name) == InfoOf(n, name);
    }
  }

  method CheckFileInfoFullFile(fi: FileInfo) returns (full: bool)
    ensures full == InfoIsFull(fi)
  {
    for i := 0 to |fi.chunks|
      invariant forall k :: 0 <= k < i ==> fi.chunks[k].Some?
    {
      if fi.chunks[i].None? {
        return false;
      }
    }
    return true;
  }

  /** The local names and the names that come back, each once, in any order. */
  method CollectNames(local: seq<Bytes>, replies: seq<FileInfo>) returns (names: seq<Bytes>)
    ensures Distinct(names)
    ensures forall x :: x in names <==> x in local || exists k :: 0 <= k < |replies| && replies[k].name == x
  {
    var threadSafeNames := new ConcurrentStrSet();
    for i := 0 to |local|
      invariant fresh(threadSafeNames)
      invariant forall x :: x in threadSafeNames.strings <==> x in local[..i]
    {
      threadSafeNames.AddStr(local[i]);
      assert local[..i + 1] == local[..i] + [local[i]];
    }
    assert local[..|local|] == local;
    for i := 0 to |replies|
      invariant fresh(threadSafeNames)
      invariant forall x :: x in threadSafeNames.strings <==>
                  x in local || exists k :: 0 <= k < i && replies[k].name == x
    {
      threadSafeNames.AddStr(replies[i].name);
    }
    names := threadSafeNames.GetStrSlice();
  }

  /** Adds the names of the files reported without missing chunks. */
  method CollectFull(names: ConcurrentStrSet, heard: seq<FileInfo>, ghost round: Round)
    requires round.heard == heard
    modifies names
    ensures forall x :: x in names.strings <==> x in old(names.strings) || Heard(round, x)
  {
    for i := 0 to |heard|
      invariant forall x :: x in names.strings <==>
                  x in old(names.strings) || exists k :: 0 <= k < i && InfoIsFull(heard[k]) && heard[k].name == x
    {
      var full := CheckFileInfoFullFile(heard[i]);
      if full {
        names.AddStr(heard[i].name);
      }
    }
  }
}
