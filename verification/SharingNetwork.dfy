/**
 * Data sharing as a network: nodes upload and download at any time, requests and replies may be lost,
 * duplicated and reordered. What is stored under a key, and what a download returns, in every run.
 */
module SharingNetwork {
  import opened Basics
  import opened Codec

  type Id = nat

  datatype DataMessage = DataRequest(id: Id, key: Bytes) | DataReply(id: Id, key: Bytes, value: Option<Bytes>)

  datatype DataPacket = DataPacket(source: Addr, destination: Addr, msg: DataMessage)

  /** A request without a reply so far: its id, the peer that was asked, and how often it was sent again. */
  datatype Waiting = Waiting(id: Id, peer: Addr, resends: nat)

  /**
   * A running download: what it has so far, first the metafile and then the chunks in order, and the
   * request it waits for.
   */
  datatype Running = Running(metahash: Bytes, got: seq<Bytes>, waiting: Option<Waiting>)

  /**
   * `catalog` lists the peers known to hold a key, `routes` are the destinations with an entry in the
   * routing table, and `retry` bounds the resends of a request.
   */
  datatype ShareNode = ShareNode(
    store: map<Bytes, Bytes>,
    downloads: map<Id, Running>,
    catalog: map<Bytes, set<Addr>>,
    routes: set<Addr>,
    retry: nat)

  /** History: the chunks and the metafiles (as lists of chunks) that uploads have stored. */
  datatype History = History(chunks: set<Bytes>, metas: set<seq<Bytes>>)

  /** `asked` is history: the request packet that each request id, used once, was made for. */
  datatype Network = Network(
    nodes: map<Addr, ShareNode>,
    net: seq<DataPacket>,
    hist: History,
    asked: map<Id, DataPacket>)

  // ---- a download's progress ----

  predicate Complete(d: Running)
  {
    d.got != [] && |d.got| == 1 + |Split(d.got[0])|
  }

  /** The key of the i-th thing a download needs. */
  predicate HasKeyAt(d: Running, i: nat)
  {
    i == 0 || (d.got != [] && i <= |Split(d.got[0])|)
  }

  function KeyAt(d: Running, i: nat): Bytes
    requires HasKeyAt(d, i)
  {
    if i == 0 then d.metahash else Split(d.got[0])[i - 1]
  }

  predicate NeedsMore(d: Running)
  {
    HasKeyAt(d, |d.got|)
  }

  function Wanted(d: Running): Bytes
    requires NeedsMore(d)
  {
    KeyAt(d, |d.got|)
  }

  /** The bytes that Download returns. */
  function Result(d: Running): Bytes
    requires Complete(d)
  {
    Concat(d.got[1..])
  }

  function Advance(d: Running, v: Bytes): Running
  {
    d.(got := d.got + [v], waiting := None)
  }

  // ---- steps ----

  datatype Step =
    | PutChunk(at: Addr, chunk: Bytes)
    | PutMetafile(at: Addr, chunks: seq<Bytes>)
    | StartDownload(at: Addr, d: Id, metahash: Bytes)
    | ReadLocal(at: Addr, d: Id)
    | Learn(at: Addr, key: Bytes, peer: Addr)
    | Reroute(at: Addr, routes: set<Addr>)
    | Request(at: Addr, d: Id, peer: Addr, id: Id)
    | Resend(at: Addr, d: Id)
    | GiveUp(at: Addr, d: Id)
    | Answer(i: nat)
    | Receive(i: nat, d: Id)
    | Drop(i: nat)
    | Duplicate(i: nat)

  ghost predicate Active(s: Network, at: Addr, d: Id)
  {
    at in s.nodes && d in s.nodes[at].downloads
  }

  /**
   * A key that is not stored is asked of a peer that the catalog lists under it and that has a route, and
   * of the same peer again while resends are left. Without such a peer the download can only fail: it
   * gives up, as it also may at any other time.
   */
  ghost predicate Enabled(s: Network, step: Step)
  {
    match step
    case PutChunk(at, _) => at in s.nodes
    case PutMetafile(at, chunks) => at in s.nodes && forall c :: c in chunks ==> c in s.hist.chunks
    case StartDownload(at, d, _) => at in s.nodes && d !in s.nodes[at].downloads
    case ReadLocal(at, d) =>
      Active(s, at, d) &&
      var r := s.nodes[at].downloads[d];
      r.waiting.None? && NeedsMore(r) && Wanted(r) in s.nodes[at].store
    case Learn(at, _, _) => at in s.nodes
    case Reroute(at, _) => at in s.nodes
    case Request(at, d, peer, id) =>
      Active(s, at, d) && id !in s.asked &&
      var n := s.nodes[at];
      var r := n.downloads[d];
      r.waiting.None? && NeedsMore(r) && Wanted(r) !in n.store && Listed(n.catalog, Wanted(r), peer) && peer in n.routes
    case Resend(at, d) => Active(s, at, d) && MayResend(s.nodes[at], s.nodes[at].downloads[d])
    case GiveUp(at, d) => Active(s, at, d)
    case Answer(i) => i < |s.net| && s.net[i].msg.DataRequest? && s.net[i].destination in s.nodes
    case Receive(i, d) =>
      i < |s.net| && s.net[i].msg.DataReply? && Active(s, s.net[i].destination, d) &&
      var w := s.nodes[s.net[i].destination].downloads[d].waiting;
      w.Some? && w.value.id == s.net[i].msg.id
    case Drop(i) => i < |s.net|
    case Duplicate(i) => i < |s.net|
  }

  predicate MayResend(n: ShareNode, r: Running)
  {
    r.waiting.Some? && NeedsMore(r) && r.waiting.value.resends < n.retry && r.waiting.value.peer in n.routes
  }

  function Put(n: ShareNode, key: Bytes, value: Bytes): ShareNode
  {
    n.(store := n.store[key := value])
  }

  /** The reply reaches the waiter: a nil value ends the download, any other is stored and used. */
  function ReceiveAt(n: ShareNode, d: Id, key: Bytes, value: Option<Bytes>): ShareNode
    requires d in n.downloads
  {
    match value
    case None => n.(downloads := n.downloads - {d})
    case Some(v) => Put(n, key, v).(downloads := n.downloads[d := Advance(n.downloads[d], v)])
  }

  /** The responder looks the key up at the moment the request arrives. */
  function AnswerOf(n: ShareNode, p: DataPacket): DataPacket
    requires p.msg.DataRequest?
  {
    DataPacket(p.destination, p.source,
               DataReply(p.msg.id, p.msg.key, if p.msg.key in n.store then Some(n.store[p.msg.key]) else None))
  }

  /** Without a route to the source of the request nothing is sent. */
  function Answers(n: ShareNode, p: DataPacket): seq<DataPacket>
    requires p.msg.DataRequest?
  {
    if p.source in n.routes then [AnswerOf(n, p)] else []
  }

  function Awaiting(n: ShareNode, d: Id, w: Waiting): ShareNode
    requires d in n.downloads
  {
    n.(downloads := n.downloads[d := n.downloads[d].(waiting := Some(w))])
  }

  /** The request packet of a download for what it wants next. */
  function RequestOf(at: Addr, r: Running, peer: Addr, id: Id): DataPacket
    requires NeedsMore(r)
  {
    DataPacket(at, peer, DataRequest(id, Wanted(r)))
  }

  ghost function Apply(h: Hash, s: Network, step: Step): Network
    requires Enabled(s, step)
  {
    match step
    case PutChunk(at, c) =>
      var e := ChunkEntry(c);
      s.(nodes := s.nodes[at := Put(s.nodes[at], Key(h, e), Value(h, e))],
         hist := s.hist.(chunks := s.hist.chunks + {c}))
    case PutMetafile(at, cs) =>
      var e := MetaEntry(cs);
      s.(nodes := s.nodes[at := Put(s.nodes[at], Key(h, e), Value(h, e))],
         hist := s.hist.(metas := s.hist.metas + {cs}))
    case StartDownload(at, d, metahash) =>
      var n := s.nodes[at];
      s.(nodes := s.nodes[at := n.(downloads := n.downloads[d := Running(metahash, [], None)])])
    case ReadLocal(at, d) =>
      var n := s.nodes[at];
      var r := n.downloads[d];
      s.(nodes := s.nodes[at := n.(downloads := n.downloads[d := Advance(r, n.store[Wanted(r)])])])
    case Learn(at, key, peer) =>
      var n := s.nodes[at];
      s.(nodes := s.nodes[at := n.(catalog := CatalogAdd(n.catalog, key, peer))])
    case Reroute(at, routes) =>
      s.(nodes := s.nodes[at := s.nodes[at].(routes := routes)])
    case Request(at, d, peer, id) =>
      var n := s.nodes[at];
      var r := n.downloads[d];
      s.(nodes := s.nodes[at := Awaiting(n, d, Waiting(id, peer, 0))],
         net := s.net + [RequestOf(at, r, peer, id)],
         asked := s.asked[id := RequestOf(at, r, peer, id)])
    case Resend(at, d) =>
      var n := s.nodes[at];
      var r := n.downloads[d];
      var w := r.waiting.value;
      s.(nodes := s.nodes[at := Awaiting(n, d, w.(resends := w.resends + 1))],
         net := s.net + [RequestOf(at, r, w.peer, w.id)])
    case GiveUp(at, d) =>
      var n := s.nodes[at];
      s.(nodes := s.nodes[at := n.(downloads := n.downloads - {d})])
    case Answer(i) =>
      s.(net := RemoveAt(s.net, i) + Answers(s.nodes[s.net[i].destination], s.net[i]))
    case Receive(i, d) =>
      var p := s.net[i];
      s.(nodes := s.nodes[p.destination := ReceiveAt(s.nodes[p.destination], d, p.msg.key, p.msg.value)],
         net := RemoveAt(s.net, i))
    case Drop(i) => s.(net := RemoveAt(s.net, i))
    case Duplicate(i) => s.(net := s.net + [s.net[i]])
  }

  ghost predicate ValidRun(h: Hash, s: Network, steps: seq<Step>)
    decreases |steps|, 0
  {
    steps == [] ||
    (ValidRun(h, s, steps[..|steps| - 1]) && Enabled(Exec(h, s, steps[..|steps| - 1]), steps[|steps| - 1]))
  }

  ghost function Exec(h: Hash, s: Network, steps: seq<Step>): Network
    requires ValidRun(h, s, steps)
    decreases |steps|, 1
  {
    if steps == [] then s else Apply(h, Exec(h, s, steps[..|steps| - 1]), steps[|steps| - 1])
  }

  ghost predicate Init(s: Network)
  {
    && (forall a :: a in s.nodes ==>
          s.nodes[a].store == map[] && s.nodes[a].downloads == map[] && s.nodes[a].catalog == map[])
    && s.net == [] && s.hist == History({}, {}) && s.asked == map[]
  }

  // ---- the invariant: every stored or travelling value comes from an upload ----

  ghost predicate Known(hist: History, e: Entry)
  {
    match e
    case ChunkEntry(data) => data in hist.chunks
    case MetaEntry(chunks) => chunks in hist.metas
  }

  ghost predicate Justified(h: Hash, hist: History, key: Bytes, value: Bytes)
  {
    exists e :: Known(hist, e) && Key(h, e) == key && Value(h, e) == value
  }

  ghost predicate StoreInv(h: Hash, hist: History, m: map<Bytes, Bytes>)
  {
    forall k :: k in m ==> Justified(h, hist, k, m[k])
  }

  ghost predicate RunningInv(h: Hash, hist: History, asked: map<Id, DataPacket>, d: Running)
  {
    && (d.got != [] ==> |d.got| <= 1 + |Split(d.got[0])|)
    && (forall i: nat :: i < |d.got| ==> HasKeyAt(d, i) && Justified(h, hist, KeyAt(d, i), d.got[i]))
    && (d.waiting.Some? ==>
          && NeedsMore(d) && d.waiting.value.id in asked
          && asked[d.waiting.value.id].destination == d.waiting.value.peer
          && asked[d.waiting.value.id].msg == DataRequest(d.waiting.value.id, Wanted(d)))
  }

  ghost predicate NodeInv(h: Hash, hist: History, asked: map<Id, DataPacket>, n: ShareNode)
  {
    && StoreInv(h, hist, n.store)
    && (forall d :: d in n.downloads ==> RunningInv(h, hist, asked, n.downloads[d]))
  }

  ghost predicate PacketInv(h: Hash, hist: History, asked: map<Id, DataPacket>, p: DataPacket)
  {
    && p.msg.id in asked && asked[p.msg.id].msg.key == p.msg.key
    && (p.msg.DataRequest? ==> asked[p.msg.id].destination == p.destination)
    && (p.msg.DataReply? && p.msg.value.Some? ==> Justified(h, hist, p.msg.key, p.msg.value.value))
  }

  ghost predicate NodesInv(h: Hash, hist: History, asked: map<Id, DataPacket>, nodes: map<Addr, ShareNode>)
  {
    forall a :: a in nodes ==> NodeInv(h, hist, asked, nodes[a])
  }

  ghost predicate PacketsInv(h: Hash, hist: History, asked: map<Id, DataPacket>, net: seq<DataPacket>)
  {
    forall p :: p in net ==> PacketInv(h, hist, asked, p)
  }

  ghost predicate Inv(h: Hash, s: Network)
  {
    NodesInv(h, s.hist, s.asked, s.nodes) && PacketsInv(h, s.hist, s.asked, s.net)
  }

  // ---- the invariant is kept ----

  ghost predicate Extends(later: History, hist: History)
  {
    hist.chunks <= later.chunks && hist.metas <= later.metas
  }

  lemma JustifiedLater(h: Hash, hist: History, later: History, key: Bytes, value: Bytes)
    requires Extends(later, hist) && Justified(h, hist, key, value)
    ensures Justified(h, later, key, value)
  {
    var e :| Known(hist, e) && Key(h, e) == key && Value(h, e) == value;
    assert Known(later, e);
  }

  ghost predicate AskedMore(later: map<Id, DataPacket>, asked: map<Id, DataPacket>)
  {
    forall id :: id in asked ==> id in later && later[id] == asked[id]
  }

  lemma NodeLater(h: Hash, hist: History, asked: map<Id, DataPacket>, n: ShareNode,
                  hist': History, asked': map<Id, DataPacket>)
    requires NodeInv(h, hist, asked, n) && Extends(hist', hist) && AskedMore(asked', asked)
    ensures NodeInv(h, hist', asked', n)
  {
    forall k | k in n.store
      ensures Justified(h, hist', k, n.store[k])
    {
      JustifiedLater(h, hist, hist', k, n.store[k]);
    }
    forall d | d in n.downloads
      ensures RunningInv(h, hist', asked', n.downloads[d])
    {
      RunningLater(h, hist, asked, n.downloads[d], hist', asked');
    }
  }

  lemma RunningLater(h: Hash, hist: History, asked: map<Id, DataPacket>, d: Running,
                     hist': History, asked': map<Id, DataPacket>)
    requires RunningInv(h, hist, asked, d) && Extends(hist', hist) && AskedMore(asked', asked)
    ensures RunningInv(h, hist', asked', d)
  {
    forall i: nat | i < |d.got|
      ensures HasKeyAt(d, i) && Justified(h, hist', KeyAt(d, i), d.got[i])
    {
      JustifiedLater(h, hist, hist', KeyAt(d, i), d.got[i]);
    }
  }

  lemma AllLater(h: Hash, s: Network, hist': History, asked': map<Id, DataPacket>)
    requires Inv(h, s) && Extends(hist', s.hist) && AskedMore(asked', s.asked)
    ensures NodesInv(h, hist', asked', s.nodes) && PacketsInv(h, hist', asked', s.net)
  {
    forall a | a in s.nodes
      ensures NodeInv(h, hist', asked', s.nodes[a])
    {
      NodeLater(h, s.hist, s.asked, s.nodes[a], hist', asked');
    }
    forall p | p in s.net
      ensures PacketInv(h, hist', asked', p)
    {
      assert PacketInv(h, s.hist, s.asked, p);
      if p.msg.DataReply? && p.msg.value.Some? {
        JustifiedLater(h, s.hist, hist', p.msg.key, p.msg.value.value);
      }
    }
  }

  lemma AdvanceInv(h: Hash, hist: History, asked: map<Id, DataPacket>, d: Running, v: Bytes)
    requires RunningInv(h, hist, asked, d) && NeedsMore(d) && Justified(h, hist, Wanted(d), v)
    ensures RunningInv(h, hist, asked, Advance(d, v))
  {
    var d' := Advance(d, v);
    assert d'.got[0] == if d.got == [] then v else d.got[0];
    forall i: nat | i < |d'.got|
      ensures HasKeyAt(d', i) && Justified(h, hist, KeyAt(d', i), d'.got[i])
    {
      if i < |d.got| {
        assert HasKeyAt(d, i) && KeyAt(d', i) == KeyAt(d, i);
      } else {
        assert KeyAt(d', i) == Wanted(d);
      }
    }
  }

  lemma PutInv(h: Hash, hist: History, asked: map<Id, DataPacket>, n: ShareNode, key: Bytes, v: Bytes)
    requires NodeInv(h, hist, asked, n) && Justified(h, hist, key, v)
    ensures NodeInv(h, hist, asked, Put(n, key, v))
  {
  }

  lemma PutStep(h: Hash, s: Network, at: Addr, e: Entry, hist': History)
    requires Inv(h, s) && at in s.nodes && Extends(hist', s.hist) && Known(hist', e)
    ensures Inv(h, s.(nodes := s.nodes[at := Put(s.nodes[at], Key(h, e), Value(h, e))], hist := hist'))
  {
    AllLater(h, s, hist', s.asked);
    assert Justified(h, hist', Key(h, e), Value(h, e));
    PutInv(h, hist', s.asked, s.nodes[at], Key(h, e), Value(h, e));
  }

  /** One node's downloads change, nothing else. */
  lemma DownloadStep(h: Hash, s: Network, at: Addr, downloads: map<Id, Running>)
    requires Inv(h, s) && at in s.nodes
    requires forall d :: d in downloads ==> RunningInv(h, s.hist, s.asked, downloads[d])
    ensures Inv(h, s.(nodes := s.nodes[at := s.nodes[at].(downloads := downloads)]))
  {
    assert NodeInv(h, s.hist, s.asked, s.nodes[at]);
  }

  lemma ReadLocalStep(h: Hash, s: Network, at: Addr, d: Id)
    requires Inv(h, s) && Enabled(s, ReadLocal(at, d))
    ensures Inv(h, Apply(h, s, ReadLocal(at, d)))
  {
    var n := s.nodes[at];
    var r := n.downloads[d];
    assert NodeInv(h, s.hist, s.asked, n);
    AdvanceInv(h, s.hist, s.asked, r, n.store[Wanted(r)]);
    DownloadStep(h, s, at, n.downloads[d := Advance(r, n.store[Wanted(r)])]);
  }

  /** A request of a download goes out and is waited for. */
  lemma SendInv(h: Hash, s: Network, s': Network, at: Addr, d: Id, p: DataPacket, w: Waiting)
    requires Inv(h, s) && AskedMore(s'.asked, s.asked) && Active(s, at, d) && NeedsMore(s.nodes[at].downloads[d])
    requires p == RequestOf(at, s.nodes[at].downloads[d], w.peer, w.id)
    requires w.id in s'.asked && s'.asked[w.id].destination == w.peer && s'.asked[w.id].msg == p.msg
    requires s'.nodes == s.nodes[at := Awaiting(s.nodes[at], d, w)] && s'.net == s.net + [p] && s'.hist == s.hist
    ensures Inv(h, s')
  {
    var n := s.nodes[at];
    var r := n.downloads[d];
    AllLater(h, s, s.hist, s'.asked);
    assert PacketInv(h, s.hist, s'.asked, p);
    assert NodeInv(h, s.hist, s'.asked, n);
    WaitingInv(h, s.hist, s'.asked, r, w);
    DownloadStep(h, s.(net := s.net + [p], asked := s'.asked), at, n.downloads[d := r.(waiting := Some(w))]);
  }

  lemma RequestStep(h: Hash, s: Network, at: Addr, d: Id, peer: Addr, id: Id)
    requires Inv(h, s) && Enabled(s, Request(at, d, peer, id))
    ensures Inv(h, Apply(h, s, Request(at, d, peer, id)))
  {
    var p := RequestOf(at, s.nodes[at].downloads[d], peer, id);
    SendInv(h, s, Apply(h, s, Request(at, d, peer, id)), at, d, p, Waiting(id, peer, 0));
  }

  lemma WaitingInv(h: Hash, hist: History, asked: map<Id, DataPacket>, r: Running, w: Waiting)
    requires RunningInv(h, hist, asked, r) && NeedsMore(r) && w.id in asked
    requires asked[w.id].destination == w.peer && asked[w.id].msg == DataRequest(w.id, Wanted(r))
    ensures RunningInv(h, hist, asked, r.(waiting := Some(w)))
  {
    var r' := r.(waiting := Some(w));
    forall i: nat | i < |r'.got|
      ensures HasKeyAt(r', i) && Justified(h, hist, KeyAt(r', i), r'.got[i])
    {
      assert HasKeyAt(r, i) && KeyAt(r', i) == KeyAt(r, i);
    }
    assert Wanted(r') == Wanted(r);
  }

  lemma AnswerStep(h: Hash, s: Network, i: nat)
    requires Inv(h, s) && Enabled(s, Answer(i))
    ensures Inv(h, Apply(h, s, Answer(i)))
  {
    var p := s.net[i];
    assert PacketInv(h, s.hist, s.asked, p);
    assert NodeInv(h, s.hist, s.asked, s.nodes[p.destination]);
    RemoveAtMembers(s.net, i);
    assert PacketInv(h, s.hist, s.asked, AnswerOf(s.nodes[p.destination], p));
    assert forall q :: q in Answers(s.nodes[p.destination], p) ==> PacketInv(h, s.hist, s.asked, q);
  }

  lemma ReceiveStep(h: Hash, s: Network, i: nat, d: Id)
    requires Inv(h, s) && Enabled(s, Receive(i, d))
    ensures Inv(h, Apply(h, s, Receive(i, d)))
  {
    var p := s.net[i];
    var at := p.destination;
    var n := s.nodes[at];
    assert PacketInv(h, s.hist, s.asked, p) && NodeInv(h, s.hist, s.asked, n);
    RemoveAtMembers(s.net, i);
    var r := n.downloads[d];
    assert RunningInv(h, s.hist, s.asked, r);
    var n' := ReceiveAt(n, d, p.msg.key, p.msg.value);
    assert NodeInv(h, s.hist, s.asked, n') by {
      if p.msg.value.Some? {
        AdvanceInv(h, s.hist, s.asked, r, p.msg.value.value);
        PutInv(h, s.hist, s.asked, n, p.msg.key, p.msg.value.value);
      }
    }
  }

  /** The request that the download waits for went out once more. */
  ghost predicate SentAgain(s: Network, s': Network, at: Addr, d: Id)
  {
    && Active(s, at, d) && s.nodes[at].downloads[d].waiting.Some? && NeedsMore(s.nodes[at].downloads[d])
    && var r := s.nodes[at].downloads[d];
       var w := r.waiting.value;
       && s'.nodes == s.nodes[at := Awaiting(s.nodes[at], d, w.(resends := w.resends + 1))]
       && s'.net == s.net + [RequestOf(at, r, w.peer, w.id)] && s'.hist == s.hist && s'.asked == s.asked
  }

  lemma ResendSends(h: Hash, s: Network, at: Addr, d: Id)
    requires Enabled(s, Resend(at, d))
    ensures SentAgain(s, Apply(h, s, Resend(at, d)), at, d)
  {
  }

  lemma SentAgainInv(h: Hash, s: Network, s': Network, at: Addr, d: Id)
    requires Inv(h, s) && SentAgain(s, s', at, d)
    ensures Inv(h, s')
  {
    var r := s.nodes[at].downloads[d];
    var w := r.waiting.value;
    WaitsForWanted(h, s, at, d);
    SendInv(h, s, s', at, d, RequestOf(at, r, w.peer, w.id), w.(resends := w.resends + 1));
  }

  /** The request that a download waits for was made for what it wants. */
  lemma WaitsForWanted(h: Hash, s: Network, at: Addr, d: Id)
    requires Inv(h, s) && Active(s, at, d) && s.nodes[at].downloads[d].waiting.Some?
    ensures var r := s.nodes[at].downloads[d];
            var w := r.waiting.value;
            && NeedsMore(r) && w.id in s.asked && s.asked[w.id].destination == w.peer
            && s.asked[w.id].msg == DataRequest(w.id, Wanted(r))
  {
    assert NodeInv(h, s.hist, s.asked, s.nodes[at]);
    assert RunningInv(h, s.hist, s.asked, s.nodes[at].downloads[d]);
  }

  lemma NetStep(h: Hash, s: Network, step: Step)
    requires Inv(h, s) && Enabled(s, step) && (step.Drop? || step.Duplicate?)
    ensures Inv(h, Apply(h, s, step))
  {
    if step.Drop? {
      RemoveAtMembers(s.net, step.i);
    } else {
      assert s.net[step.i] in s.net;
    }
  }

  lemma StartOrGiveUp(h: Hash, s: Network, step: Step)
    requires Inv(h, s) && Enabled(s, step) && (step.StartDownload? || step.GiveUp?)
    ensures Inv(h, Apply(h, s, step))
  {
    var n := s.nodes[step.at];
    assert NodeInv(h, s.hist, s.asked, n);
    if step.StartDownload? {
      assert RunningInv(h, s.hist, s.asked, Running(step.metahash, [], None));
      DownloadStep(h, s, step.at, n.downloads[step.d := Running(step.metahash, [], None)]);
    } else {
      DownloadStep(h, s, step.at, n.downloads - {step.d});
    }
  }

  lemma AboutPeersStep(h: Hash, s: Network, step: Step, at: Addr)
    requires Inv(h, s) && Enabled(s, step) && (step.Learn? || step.Reroute?) && step.at == at
    ensures Inv(h, Apply(h, s, step))
  {
    assert NodeInv(h, s.hist, s.asked, s.nodes[at]);
  }

  lemma InvStep(h: Hash, s: Network, step: Step)
    requires Inv(h, s) && Enabled(s, step)
    ensures Inv(h, Apply(h, s, step))
  {
    match step {
      case PutChunk(at, c) =>
        PutStep(h, s, at, ChunkEntry(c), s.hist.(chunks := s.hist.chunks + {c}));
      case PutMetafile(at, cs) =>
        PutStep(h, s, at, MetaEntry(cs), s.hist.(metas := s.hist.metas + {cs}));
      case ReadLocal(at, d) =>
        ReadLocalStep(h, s, at, d);
      case Request(at, d, peer, id) =>
        RequestStep(h, s, at, d, peer, id);
      case Resend(at, d) =>
        ResendSends(h, s, at, d);
        SentAgainInv(h, s, Apply(h, s, step), at, d);
      case Answer(i) =>
        AnswerStep(h, s, i);
      case Receive(i, d) =>
        ReceiveStep(h, s, i, d);
      case Learn(at, _, _) =>
        AboutPeersStep(h, s, step, at);
      case Reroute(at, _) =>
        AboutPeersStep(h, s, step, at);
      case StartDownload(_, _, _) =>
        StartOrGiveUp(h, s, step);
      case GiveUp(_, _) =>
        StartOrGiveUp(h, s, step);
      case _ =>
        NetStep(h, s, step);
    }
  }

  lemma {:induction false} InvRun(h: Hash, s: Network, steps: seq<Step>)
    requires Inv(h, s) && ValidRun(h, s, steps)
    ensures Inv(h, Exec(h, s, steps))
  {
    if steps != [] {
      InvRun(h, s, steps[..|steps| - 1]);
      InvStep(h, Exec(h, s, steps[..|steps| - 1]), steps[|steps| - 1]);
    }
  }

  lemma RunInv(h: Hash, s: Network, steps: seq<Step>)
    requires Init(s) && ValidRun(h, s, steps)
    ensures Inv(h, Exec(h, s, steps))
  {
    InvRun(h, s, steps);
  }
}
