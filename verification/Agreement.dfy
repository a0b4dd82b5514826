/**
 * Store agreement: when all nodes agree on what a key stands for, when not, and what that makes of
 * downloads (peer/impl/dataSharing.go, peer/impl/handlers.go).
 */
module Agreement {
  import opened Basics
  import opened Codec
  import opened BlobStore
  import opened RoundTrip
  import opened SharingNetwork

  /** The strings hashed for the uploads so far do not collide. */
  ghost predicate NoCollisions(h: Hash, hist: History)
  {
    forall e, f :: Known(hist, e) && Known(hist, f) && h(Preimage(h, e)) == h(Preimage(h, f))
                   ==> Preimage(h, e) == Preimage(h, f)
  }

  /** No uploaded chunk is itself the raw concatenation of a non-empty metafile's chunk hashes. */
  ghost predicate NoClash(h: Hash, hist: History)
  {
    forall d, cs :: d in hist.chunks && cs in hist.metas && cs != [] ==> d != HashConcat(h, cs)
  }

  ghost predicate ValuesAgree(h: Hash, hist: History)
  {
    forall k, v, w :: Justified(h, hist, k, v) && Justified(h, hist, k, w) ==> v == w
  }

  lemma SameKeyAgrees(h: Hash, hist: History, e: Entry, f: Entry)
    requires Digest(h) && NoCollisions(h, hist) && NoClash(h, hist)
    requires Known(hist, e) && Known(hist, f) && Key(h, e) == Key(h, f)
    ensures Value(h, e) == Value(h, f)
  {
    HexInjective(h(Preimage(h, e)), h(Preimage(h, f)));
    SameKey(h, e, f);
  }

  /**
   * Without hash collisions, all values that uploads can have put under one key agree if and only if
   * no uploaded chunk is itself the raw concatenation of a non-empty metafile's chunk hashes.
   */
  lemma AgreementExact(h: Hash, hist: History)
    requires Digest(h) && NoCollisions(h, hist)
    ensures ValuesAgree(h, hist) <==> NoClash(h, hist)
  {
    if NoClash(h, hist) {
      forall k, v, w | Justified(h, hist, k, v) && Justified(h, hist, k, w)
        ensures v == w
      {
        var e :| Known(hist, e) && Key(h, e) == k && Value(h, e) == v;
        var f :| Known(hist, f) && Key(h, f) == k && Value(h, f) == w;
        SameKeyAgrees(h, hist, e, f);
      }
    } else {
      var d, cs :| d in hist.chunks && cs in hist.metas && cs != [] && d == HashConcat(h, cs);
      var e, f := ChunkEntry(d), MetaEntry(cs);
      SameKey(h, e, f);
      assert Known(hist, e) && Known(hist, f);
      assert Justified(h, hist, Key(h, e), Value(h, e)) && Justified(h, hist, Key(h, e), Value(h, f));
    }
  }

  /**
   * Store agreement. After any run whose uploads neither collide nor clash, any two nodes that hold a
   * key hold the same bytes under it, and so does every non-nil data reply in flight.
   */
  lemma StoreAgreement(h: Hash, s0: Network, steps: seq<Step>, a: Addr, b: Addr, key: Bytes)
    requires Init(s0) && ValidRun(h, s0, steps) && Digest(h)
    requires NoCollisions(h, Exec(h, s0, steps).hist) && NoClash(h, Exec(h, s0, steps).hist)
    requires var s := Exec(h, s0, steps); a in s.nodes && b in s.nodes
    requires var s := Exec(h, s0, steps); key in s.nodes[a].store && key in s.nodes[b].store
    ensures var s := Exec(h, s0, steps);
            && s.nodes[a].store[key] == s.nodes[b].store[key]
            && forall p :: p in s.net && p.msg.DataReply? && p.msg.value.Some? && p.msg.key == key
                           ==> p.msg.value.value == s.nodes[a].store[key]
  {
    var s := Exec(h, s0, steps);
    RunInv(h, s0, steps);
    AgreementExact(h, s.hist);
    assert NodeInv(h, s.hist, s.asked, s.nodes[a]) && NodeInv(h, s.hist, s.asked, s.nodes[b]);
    assert Justified(h, s.hist, key, s.nodes[a].store[key]);
    forall p | p in s.net && p.msg.DataReply? && p.msg.value.Some? && p.msg.key == key
      ensures p.msg.value.value == s.nodes[a].store[key]
    {
      assert PacketInv(h, s.hist, s.asked, p);
    }
  }

  lemma OneStep(h: Hash, s: Network, steps: seq<Step>, step: Step)
    requires ValidRun(h, s, steps) && Enabled(Exec(h, s, steps), step)
    ensures ValidRun(h, s, steps + [step]) && Exec(h, s, steps + [step]) == Apply(h, Exec(h, s, steps), step)
  {
    assert (steps + [step])[..|steps + [step]| - 1] == steps;
  }

  /** The assumption is needed: two one-chunk uploads at two nodes, the second of the first's hash. */
  lemma ClashBreaksAgreement(h: Hash, s0: Network, a: Addr, b: Addr, c: Bytes)
    requires Init(s0) && Digest(h) && a in s0.nodes && b in s0.nodes && a != b
    ensures var steps := [PutChunk(a, c), PutMetafile(a, [c]), PutChunk(b, h(c))];
            var key := Key(h, MetaEntry([c]));
            && ValidRun(h, s0, steps) && a in Exec(h, s0, steps).nodes && b in Exec(h, s0, steps).nodes
            && key in Exec(h, s0, steps).nodes[a].store && key in Exec(h, s0, steps).nodes[b].store
            && Exec(h, s0, steps).nodes[a].store[key] != Exec(h, s0, steps).nodes[b].store[key]
  {
    var x, y, z := PutChunk(a, c), PutMetafile(a, [c]), PutChunk(b, h(c));
    OneStep(h, s0, [], x);
    assert [] + [x] == [x];
    var s1 := Apply(h, s0, x);
    assert c in s1.hist.chunks;
    OneStep(h, s0, [x], y);
    assert [x] + [y] == [x, y];
    OneStep(h, s0, [x, y], z);
    assert [x, y] + [z] == [x, y, z];
    OneChunk(h, c);
    MetafileLonger(h, [c]);
  }

  lemma OneChunk(h: Hash, c: Bytes)
    ensures HashConcat(h, [c]) == h(c)
  {
    assert Hashes(h, [c]) == [h(c)] && [h(c)][..0] == [];
    assert Concat([h(c)]) == [] + h(c) == h(c);
  }

  // ---- downloads ----

  /** The parts of a finished download of an upload's metahash are the upload's chunks. */
  lemma PartsAreChunks(h: Hash, hist: History, asked: map<Id, DataPacket>, d: Running, cs: seq<Bytes>)
    requires Digest(h) && ValuesAgree(h, hist) && RunningInv(h, hist, asked, d) && Complete(d)
    requires cs != [] && cs in hist.metas && (forall c :: c in cs ==> c in hist.chunks)
    requires d.metahash == Key(h, MetaEntry(cs))
    ensures d.got[1..] == cs
  {
    var e := MetaEntry(cs);
    assert HasKeyAt(d, 0) && Justified(h, hist, KeyAt(d, 0), d.got[0]);
    assert Known(hist, e) && Justified(h, hist, Key(h, e), Value(h, e));
    MetafileSplits(h, cs);
    assert |d.got| == 1 + |cs|;
    assert Split(d.got[0]) == HexHashes(h, cs);
    forall i | 0 <= i < |cs|
      ensures d.got[i + 1] == cs[i]
    {
      PartIsChunk(h, hist, asked, d, cs, i);
    }
  }

  lemma PartIsChunk(h: Hash, hist: History, asked: map<Id, DataPacket>, d: Running, cs: seq<Bytes>, i: nat)
    requires ValuesAgree(h, hist) && RunningInv(h, hist, asked, d)
    requires |d.got| == 1 + |cs| && Split(d.got[0]) == HexHashes(h, cs) && i < |cs| && cs[i] in hist.chunks
    ensures d.got[i + 1] == cs[i]
  {
    var c := ChunkEntry(cs[i]);
    assert Known(hist, c);
    assert HasKeyAt(d, i + 1) && Justified(h, hist, KeyAt(d, i + 1), d.got[i + 1]);
    assert KeyAt(d, i + 1) == Key(h, c);
    assert Justified(h, hist, Key(h, c), Value(h, c));
  }

  /** Every uploaded metafile's chunks were uploaded before it. */
  ghost predicate MetasKnown(hist: History)
  {
    forall cs, c :: cs in hist.metas && c in cs ==> c in hist.chunks
  }

  lemma {:induction false} MetasKnownRun(h: Hash, s0: Network, steps: seq<Step>)
    requires Init(s0) && ValidRun(h, s0, steps)
    ensures MetasKnown(Exec(h, s0, steps).hist)
  {
    if steps != [] {
      var k := |steps| - 1;
      MetasKnownRun(h, s0, steps[..k]);
      MetasKnownStep(h, Exec(h, s0, steps[..k]), steps[k]);
    }
  }

  lemma MetasKnownStep(h: Hash, s: Network, step: Step)
    requires MetasKnown(s.hist) && Enabled(s, step)
    ensures MetasKnown(Apply(h, s, step).hist)
  {
  }

  /**
   * A download that ends, at any node, with any mix of local and fetched parts and any interleaving
   * with other uploads and downloads, returns exactly the bytes uploaded under its metahash.
   */
  lemma DownloadReturnsUpload(h: Hash, s0: Network, steps: seq<Step>, a: Addr, d: Id, cs: seq<Bytes>)
    requires Init(s0) && ValidRun(h, s0, steps) && Digest(h)
    requires NoCollisions(h, Exec(h, s0, steps).hist) && NoClash(h, Exec(h, s0, steps).hist)
    requires Active(Exec(h, s0, steps), a, d) && Complete(Exec(h, s0, steps).nodes[a].downloads[d])
    requires cs != [] && cs in Exec(h, s0, steps).hist.metas
    requires Exec(h, s0, steps).nodes[a].downloads[d].metahash == Key(h, MetaEntry(cs))
    ensures Result(Exec(h, s0, steps).nodes[a].downloads[d]) == Concat(cs)
  {
    var s := Exec(h, s0, steps);
    RunInv(h, s0, steps);
    MetasKnownRun(h, s0, steps);
    AgreementExact(h, s.hist);
    assert NodeInv(h, s.hist, s.asked, s.nodes[a]);
    PartsAreChunks(h, s.hist, s.asked, s.nodes[a].downloads[d], cs);
  }

  /** A value becomes the next part and is stored under the key wanted; a nil reply ends the download. */
  ghost predicate Received(s: Network, s': Network, at: Addr, d: Id, key: Bytes, value: Option<Bytes>)
    requires Active(s, at, d)
  {
    var n := s.nodes[at];
    && at in s'.nodes && s'.nodes == s.nodes[at := s'.nodes[at]]
    && match value {
         case None => d !in s'.nodes[at].downloads && s'.nodes[at].store == n.store
         case Some(v) =>
           && d in s'.nodes[at].downloads && s'.nodes[at].store == n.store[key := v]
           && s'.nodes[at].downloads[d] == Running(n.downloads[d].metahash, n.downloads[d].got + [v], None)
       }
  }

  /**
   * In every run the reply that reaches a waiting download names the key that the download wants, and
   * a value in it comes from an upload, which becomes the next part; a reply without a value ends it.
   */
  lemma ReplyAnswersWaiter(h: Hash, s0: Network, steps: seq<Step>, i: nat, d: Id)
    requires Init(s0) && ValidRun(h, s0, steps) && Enabled(Exec(h, s0, steps), Receive(i, d))
    ensures var s := Exec(h, s0, steps);
            var p := s.net[i];
            var r := s.nodes[p.destination].downloads[d];
            && NeedsMore(r) && p.msg.key == Wanted(r)
            && (p.msg.value.Some? ==> Justified(h, s.hist, p.msg.key, p.msg.value.value))
            && Received(s, Apply(h, s, Receive(i, d)), p.destination, d, Wanted(r), p.msg.value)
  {
    RunInv(h, s0, steps);
    var s := Exec(h, s0, steps);
    assert PacketInv(h, s.hist, s.asked, s.net[i]);
    assert NodeInv(h, s.hist, s.asked, s.nodes[s.net[i].destination]);
  }

  // ---- the same for the Download operation of one peer ----

  ghost predicate RepliesInv(h: Hash, hist: History, replies: seq<Fetched>)
  {
    forall r :: r in replies && r.Replied? && r.value.Some? ==> Justified(h, hist, r.key, r.value.value)
  }

  lemma FetchInv(h: Hash, hist: History, m: map<Bytes, Bytes>, key: Bytes, replies: seq<Fetched>)
    requires StoreInv(h, hist, m) && RepliesInv(h, hist, replies) && Keyed(m, key, replies)
    ensures var p := Fetch(m, key, replies);
            && StoreInv(h, hist, p.store) && RepliesInv(h, hist, p.replies)
            && (p.got.Some? ==> Justified(h, hist, key, p.got.value))
  {
    if replies != [] {
      assert replies[0] in replies;
      assert forall r :: r in replies[1..] ==> r in replies;
    }
  }

  lemma {:induction false} FetchAllInv(h: Hash, hist: History, m: map<Bytes, Bytes>, cs: seq<Bytes>,
                                       replies: seq<Fetched>)
    requires StoreInv(h, hist, m) && RepliesInv(h, hist, replies) && AllKeyed(m, HexHashes(h, cs), replies)
    requires ValuesAgree(h, hist) && forall c :: c in cs ==> c in hist.chunks
    ensures var p := FetchAll(m, HexHashes(h, cs), replies);
            && StoreInv(h, hist, p.store) && RepliesInv(h, hist, p.replies)
            && (p.got.Some? ==> p.got.value == Concat(cs))
  {
    if cs != [] {
      var n := |cs| - 1;
      assert HexHashes(h, cs)[..n] == HexHashes(h, cs[..n]);
      FetchAllInv(h, hist, m, cs[..n], replies);
      var p := FetchAll(m, HexHashes(h, cs[..n]), replies);
      if p.got.Some? {
        var e := ChunkEntry(cs[n]);
        assert cs[n] in cs && Known(hist, e);
        assert Justified(h, hist, Key(h, e), Value(h, e));
        FetchInv(h, hist, p.store, Key(h, e), p.replies);
      }
    }
  }

  /**
   * Download returns exactly the uploaded bytes or fails, whatever mix of stored and remote parts it
   * finds, as long as stores and replies hold what uploads put there; and it keeps the store so.
   */
  lemma DownloadExactOrError(h: Hash, hist: History, m: map<Bytes, Bytes>, cs: seq<Bytes>, replies: seq<Fetched>)
    requires Digest(h) && NoCollisions(h, hist) && NoClash(h, hist)
    requires cs != [] && cs in hist.metas && MetasKnown(hist)
    requires StoreInv(h, hist, m) && RepliesInv(h, hist, replies)
    requires DownloadKeyed(m, Key(h, MetaEntry(cs)), replies)
    ensures var d := Downloaded(m, Key(h, MetaEntry(cs)), replies);
            StoreInv(h, hist, d.store) && (d.got.Some? ==> d.got.value == Concat(cs))
  {
    AgreementExact(h, hist);
    var e := MetaEntry(cs);
    FetchInv(h, hist, m, Key(h, e), replies);
    var p := Fetch(m, Key(h, e), replies);
    if p.got.Some? {
      assert Known(hist, e) && Justified(h, hist, Key(h, e), Value(h, e));
      MetafileSplits(h, cs);
      FetchAllInv(h, hist, p.store, cs, p.replies);
    }
  }

  // ---- the Upload operation is a run of put steps ----

  function UploadSteps(at: Addr, cs: seq<Bytes>): seq<Step>
  {
    seq(|cs|, i requires 0 <= i < |cs| => PutChunk(at, cs[i]))
  }

  lemma {:induction false} ChunkRun(h: Hash, s: Network, at: Addr, cs: seq<Bytes>)
    requires at in s.nodes
    ensures ValidRun(h, s, UploadSteps(at, cs))
    ensures var s' := Exec(h, s, UploadSteps(at, cs));
            && at in s'.nodes && s'.nodes[at].store == PutChunks(h, s.nodes[at].store, cs)
            && forall c :: c in cs ==> c in s'.hist.chunks
  {
    var steps := UploadSteps(at, cs);
    if cs != [] {
      var n := |cs| - 1;
      ChunkRun(h, s, at, cs[..n]);
      OneStep(h, s, UploadSteps(at, cs[..n]), PutChunk(at, cs[n]));
      assert steps == UploadSteps(at, cs[..n]) + [PutChunk(at, cs[n])];
      forall c | c in cs
        ensures c == cs[n] || c in cs[..n]
      {
        MemberLast(cs, c);
      }
    }
  }

  /** What Upload does to a store is what its puts, chunk by chunk and then the metafile, do to it. */
  lemma UploadIsRun(h: Hash, s: Network, at: Addr, cs: seq<Bytes>)
    requires at in s.nodes
    ensures var steps := UploadSteps(at, cs) + [PutMetafile(at, cs)];
            && ValidRun(h, s, steps) && at in Exec(h, s, steps).nodes
            && Exec(h, s, steps).nodes[at].store == Uploaded(h, s.nodes[at].store, cs)
            && cs in Exec(h, s, steps).hist.metas
  {
    ChunkRun(h, s, at, cs);
    var steps := UploadSteps(at, cs) + [PutMetafile(at, cs)];
    assert steps[..|steps| - 1] == UploadSteps(at, cs);
  }
}
