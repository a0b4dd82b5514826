/**
 * One node of the file search: its handlers as functions on a node state
 * (peer/impl/handlers.go, peer/impl/searchFirst.go).
 */
module SearchNode {
  import opened Basics
  import opened Codec
  import opened NbrSets
  import opened Budgets

  type ReqId = Bytes

  /** A missing chunk is nil. */
  datatype FileInfo = FileInfo(name: Bytes, metahash: Bytes, chunks: seq<Option<Bytes>>)

  datatype SearchMessage =
    | SearchRequest(id: ReqId, origin: Addr, pattern: Bytes, budget: nat)
    | SearchReply(id: ReqId, responses: seq<FileInfo>)

  datatype SearchPacket = SearchPacket(source: Addr, relayedBy: Addr, destination: Addr, sentTo: Addr,
                                       msg: SearchMessage)

  /** Whether a name matches a pattern; the regular expressions themselves are not modelled. */
  type Matcher = (Bytes, Bytes) -> bool

  datatype NodeState = NodeState(
    addr: Addr,
    nbrs: set<Addr>,
    seen: set<ReqId>,
    blob: map<Bytes, Bytes>,
    naming: map<Bytes, Bytes>,
    catalog: map<Bytes, set<Addr>>)

  // ---- machine integers ----

  const UINT: nat := 0x1_0000_0000_0000_0000

  /** Budget - 1 on an unsigned 64-bit integer. */
  function Decrement(budget: nat): nat
  {
    if budget == 0 then UINT - 1 else budget - 1
  }

  /** int(budget) on a 64-bit machine. */
  function ToInt(budget: nat): int
  {
    if budget < UINT / 2 then budget else budget - UINT
  }

  // ---- requests ----

  function Request(at: Addr, nbr: Addr, id: ReqId, origin: Addr, pattern: Bytes, budget: nat): SearchPacket
  {
    SearchPacket(at, at, nbr, nbr, SearchRequest(id, origin, pattern, budget))
  }

  /** One request per positive share, to the neighbour picked for it ("" when there was none). */
  function Requests(at: Addr, id: ReqId, origin: Addr, pattern: Bytes,
                    shares: seq<int>, picks: seq<Option<Addr>>): seq<SearchPacket>
    requires |shares| == |picks|
  {
    if shares == [] then []
    else
      var k := |shares| - 1;
      var rest := Requests(at, id, origin, pattern, shares[..k], picks[..k]);
      var nbr := if picks[k].Some? then picks[k].value else NoAddr;
      if shares[k] > 0 then rest + [Request(at, nbr, id, origin, pattern, shares[k])] else rest
  }

  lemma RequestsOneMore(at: Addr, id: ReqId, origin: Addr, pattern: Bytes,
                        shares: seq<int>, picks: seq<Option<Addr>>, pick: Option<Addr>, i: nat)
    requires |picks| == i < |shares|
    ensures var nbr := if pick.Some? then pick.value else NoAddr;
            var before := Requests(at, id, origin, pattern, shares[..i], picks);
            Requests(at, id, origin, pattern, shares[..i + 1], picks + [pick])
            == if shares[i] > 0 then before + [Request(at, nbr, id, origin, pattern, shares[i])] else before
  {
    assert shares[..i + 1][..i] == shares[..i] && (picks + [pick])[..i] == picks;
  }

  /** What chance decides in one handler. */
  datatype Choice = Choice(shares: seq<int>, picks: seq<Option<Addr>>, infos: seq<FileInfo>)

  // ---- matching files ----

  /** A name is reported if it matches and the node has the metafile it stands for. */
  predicate Reported(n: NodeState, matches: Matcher, pattern: Bytes, name: Bytes)
  {
    name in n.naming && matches(pattern, name) && n.naming[name] in n.blob
  }

  function ChunkList(blob: map<Bytes, Bytes>, hashes: seq<Bytes>): seq<Option<Bytes>>
  {
    seq(|hashes|, i requires 0 <= i < |hashes| => if hashes[i] in blob then Some(hashes[i]) else None)
  }

  function InfoOf(n: NodeState, name: Bytes): FileInfo
    requires name in n.naming && n.naming[name] in n.blob
  {
    FileInfo(name, n.naming[name], ChunkList(n.blob, Split(n.blob[n.naming[name]])))
  }

  /** Each reported name once, in any order. */
  ghost predicate Responses(n: NodeState, matches: Matcher, pattern: Bytes, infos: seq<FileInfo>)
  {
    && (forall fi :: fi in infos ==> Reported(n, matches, pattern, fi.name) && fi == InfoOf(n, fi.name))
    && (forall name :: Reported(n, matches, pattern, name) ==> InfoOf(n, name) in infos)
    && Distinct(infos)
  }

  // ---- handlers ----

  ghost predicate ValidForward(n: NodeState, budget: int, except: Addr, c: Choice)
  {
    && Divided(c.shares, |n.nbrs|, budget) && |c.picks| == |c.shares|
    && forall i :: 0 <= i < |c.shares| && c.shares[i] > 0 ==> Picked(c.picks[i], n.nbrs, except)
  }

  function Forwards(n: NodeState, p: SearchPacket, c: Choice): seq<SearchPacket>
    requires p.msg.SearchRequest? && |c.shares| == |c.picks|
  {
    if Decrement(p.msg.budget) > 0
    then Requests(n.addr, p.msg.id, p.msg.origin, p.msg.pattern, c.shares, c.picks) else []
  }

  /** A request already seen is ignored; a new one is forwarded and answered toward its origin. */
  function HandleRequest(n: NodeState, p: SearchPacket, c: Choice): (NodeState, seq<SearchPacket>)
    requires p.msg.SearchRequest? && |c.shares| == |c.picks|
  {
    if p.msg.id in n.seen then (n, [])
    else (n.(seen := n.seen + {p.msg.id}),
          Forwards(n, p, c)
          + [SearchPacket(n.addr, n.addr, p.msg.origin, p.source, SearchReply(p.msg.id, c.infos))])
  }

  function CatalogChunks(catalog: map<Bytes, set<Addr>>, chunks: seq<Option<Bytes>>, peer: Addr): map<Bytes, set<Addr>>
  {
    if chunks == [] then catalog
    else
      var rest := CatalogChunks(catalog, chunks[..|chunks| - 1], peer);
      match chunks[|chunks| - 1]
      case Some(key) => CatalogAdd(rest, key, peer)
      case None => rest
  }

  function LearnFile(n: NodeState, fi: FileInfo, source: Addr): NodeState
  {
    n.(naming := n.naming[fi.name := fi.metahash],
       catalog := CatalogChunks(CatalogAdd(n.catalog, fi.metahash, source), fi.chunks, source))
  }

  function HandleReply(n: NodeState, responses: seq<FileInfo>, source: Addr): NodeState
  {
    if responses == [] then n
    else LearnFile(HandleReply(n, responses[..|responses| - 1], source), responses[|responses| - 1], source)
  }

  /** A chunk is asked of a peer that the catalog lists; a value that comes back is stored, and stays listed. */
  function FetchRemote(n: NodeState, hash: Bytes, answer: Option<Bytes>): (NodeState, Option<Bytes>)
  {
    if hash in n.catalog && n.catalog[hash] != {} && answer.Some?
    then (n.(blob := n.blob[hash := answer.value]), answer)
    else (n, None)
  }

  function HandlePacket(n: NodeState, p: SearchPacket, c: Choice): (NodeState, seq<SearchPacket>)
    requires |c.shares| == |c.picks|
  {
    if p.destination != n.addr then (n, [p.(relayedBy := n.addr, sentTo := p.destination)])
    else if p.msg.SearchRequest? then HandleRequest(n, p, c)
    else (HandleReply(n, p.msg.responses, p.source), [])
  }

  ghost predicate ValidChoice(n: NodeState, matches: Matcher, p: SearchPacket, c: Choice)
  {
    && |c.shares| == |c.picks|
    && (p.destination == n.addr && p.msg.SearchRequest? && p.msg.id !in n.seen ==>
          && Responses(n, matches, p.msg.pattern, c.infos)
          && (Decrement(p.msg.budget) > 0 ==> ValidForward(n, ToInt(Decrement(p.msg.budget)), p.source, c)))
  }

  // ---- full files ----

  /** The remote test: no chunk is missing. */
  predicate InfoIsFull(fi: FileInfo)
  {
    None !in fi.chunks
  }

  /** The local test: the metafile and every chunk it lists are in the blob store. */
  predicate FullLocally(n: NodeState, name: Bytes)
  {
    name in n.naming && n.naming[name] in n.blob &&
    forall hash :: hash in Split(n.blob[n.naming[name]]) ==> hash in n.blob
  }

  /** The remote test on what a responder reports agrees with the local test on its own stores. */
  lemma RemoteTestAgrees(n: NodeState, matches: Matcher, pattern: Bytes, infos: seq<FileInfo>, name: Bytes)
    requires Responses(n, matches, pattern, infos)
    ensures (exists fi :: fi in infos && fi.name == name && InfoIsFull(fi))
            <==> name in n.naming && matches(pattern, name) && FullLocally(n, name)
  {
    if name in n.naming && n.naming[name] in n.blob {
      var hashes := Split(n.blob[n.naming[name]]);
      var fi := InfoOf(n, name);
      if None in fi.chunks {
        var i :| 0 <= i < |hashes| && fi.chunks[i] == None;
        assert hashes[i] in hashes;
      } else {
        forall hash | hash in hashes
          ensures hash in n.blob
        {
          var i :| 0 <= i < |hashes| && hashes[i] == hash;
          assert fi.chunks[i] in fi.chunks;
        }
      }
      if matches(pattern, name) {
        assert Reported(n, matches, pattern, name);
      }
    }
  }
}
