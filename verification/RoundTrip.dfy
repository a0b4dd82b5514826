/** Uploading and then downloading at one node: when it gives back the data, and when not. */
module RoundTrip {
  import opened Basics
  import opened Codec
  import opened BlobStore

  /** The hash does not collide on the given strings. */
  ghost predicate NoCollision(h: Hash, strings: set<Bytes>)
  {
    forall x, y :: x in strings && y in strings && h(x) == h(y) ==> x == y
  }

  /** The strings one upload hashes: its chunks, and the concatenation of their hashes. */
  ghost function Hashed(h: Hash, chunks: seq<Bytes>): set<Bytes>
  {
    (set c | c in chunks) + {HashConcat(h, chunks)}
  }

  function Lookups(m: map<Bytes, Bytes>, keys: seq<Bytes>): seq<Bytes>
    requires forall k :: k in keys ==> k in m
  {
    seq(|keys|, i requires 0 <= i < |keys| => assert keys[i] in keys; m[keys[i]])
  }

  /** With every key in the store, nothing is asked of other peers and the store stays as it is. */
  lemma {:induction false} FetchAllLocal(m: map<Bytes, Bytes>, keys: seq<Bytes>, replies: seq<Fetched>)
    requires forall k :: k in keys ==> k in m
    ensures FetchAll(m, keys, replies) == Download(m, Some(Concat(Lookups(m, keys))), replies)
  {
    if keys != [] {
      var n := |keys| - 1;
      FetchAllLocal(m, keys[..n], replies);
      assert keys[n] in keys;
      assert Lookups(m, keys)[..n] == Lookups(m, keys[..n]);
    }
  }

  /** A stored chunk is found again unless a different chunk of the upload has the same hash. */
  lemma {:induction false} PutChunksLookup(h: Hash, m: map<Bytes, Bytes>, chunks: seq<Bytes>, i: nat)
    requires i < |chunks|
    requires forall c :: c in chunks && h(c) == h(chunks[i]) ==> c == chunks[i]
    ensures Hex(h(chunks[i])) in PutChunks(h, m, chunks)
    ensures PutChunks(h, m, chunks)[Hex(h(chunks[i]))] == chunks[i]
  {
    var n := |chunks| - 1;
    assert chunks[n] in chunks;
    if Hex(h(chunks[n])) == Hex(h(chunks[i])) {
      HexInjective(h(chunks[n]), h(chunks[i]));
    } else {
      PutChunksLookup(h, m, chunks[..n], i);
    }
  }

  /** After an upload, a chunk's key holds the chunk, or the metafile if the chunk is its preimage. */
  lemma UploadedLookup(h: Hash, m: map<Bytes, Bytes>, chunks: seq<Bytes>, i: nat)
    requires i < |chunks| && NoCollision(h, Hashed(h, chunks))
    ensures Hex(h(chunks[i])) in Uploaded(h, m, chunks)
    ensures Uploaded(h, m, chunks)[Hex(h(chunks[i]))]
            == if chunks[i] == HashConcat(h, chunks) then Value(h, MetaEntry(chunks)) else chunks[i]
  {
    assert chunks[i] in Hashed(h, chunks) && HashConcat(h, chunks) in Hashed(h, chunks);
    forall c | c in chunks && h(c) == h(chunks[i])
      ensures c == chunks[i]
    {
      assert c in Hashed(h, chunks);
    }
    PutChunksLookup(h, m, chunks, i);
    if Hex(h(chunks[i])) == Key(h, MetaEntry(chunks)) {
      HexInjective(h(chunks[i]), h(HashConcat(h, chunks)));
    }
  }

  /** A local download of an upload with chunks reads them all from the store. */
  lemma LocalDownload(h: Hash, m: map<Bytes, Bytes>, chunks: seq<Bytes>, replies: seq<Fetched>)
    requires chunks != [] && NoCollision(h, Hashed(h, chunks))
    ensures var m' := Uploaded(h, m, chunks);
            && (forall k :: k in HexHashes(h, chunks) ==> k in m')
            && Downloaded(m', Key(h, MetaEntry(chunks)), replies)
               == Download(m', Some(Concat(Lookups(m', HexHashes(h, chunks)))), replies)
  {
    var m' := Uploaded(h, m, chunks);
    forall k | k in HexHashes(h, chunks)
      ensures k in m'
    {
      var i :| 0 <= i < |chunks| && HexHashes(h, chunks)[i] == k;
      UploadedLookup(h, m, chunks, i);
    }
    MetafileSplits(h, chunks);
    FetchAllLocal(m', HexHashes(h, chunks), replies);
  }

  lemma {:induction false} ConcatLonger(xs: seq<Bytes>, ys: seq<Bytes>, i: nat)
    requires |xs| == |ys| && i < |xs| && |xs[i]| < |ys[i]|
    requires forall j :: 0 <= j < |xs| ==> |xs[j]| <= |ys[j]|
    ensures |Concat(xs)| < |Concat(ys)|
  {
    var n := |xs| - 1;
    if i == n {
      ConcatNoShorter(xs[..n], ys[..n]);
    } else {
      ConcatLonger(xs[..n], ys[..n], i);
    }
  }

  lemma {:induction false} ConcatNoShorter(xs: seq<Bytes>, ys: seq<Bytes>)
    requires |xs| == |ys|
    requires forall j :: 0 <= j < |xs| ==> |xs[j]| <= |ys[j]|
    ensures |Concat(xs)| <= |Concat(ys)|
  {
    if xs != [] {
      ConcatNoShorter(xs[..|xs| - 1], ys[..|ys| - 1]);
    }
  }

  /**
   * Upload/Download round trip. For every prior store and every list of pieces that the reader
   * returns, if the hash does not collide on the strings hashed, a local download of the returned
   * metahash gives back the concatenated pieces, without asking anybody, exactly when there is at
   * least one piece and no piece is itself the raw concatenation of the pieces' hashes.
   */
  lemma LocalRoundTrip(h: Hash, m: map<Bytes, Bytes>, chunks: seq<Bytes>, replies: seq<Fetched>)
    requires Digest(h) && NoCollision(h, Hashed(h, chunks)) && chunks != []
    ensures var m' := Uploaded(h, m, chunks);
            Downloaded(m', Key(h, MetaEntry(chunks)), replies) == Download(m', Some(Concat(chunks)), replies)
            <==> HashConcat(h, chunks) !in chunks
  {
    LocalDownload(h, m, chunks, replies);
    var found := Lookups(Uploaded(h, m, chunks), HexHashes(h, chunks));
    forall i | 0 <= i < |chunks|
      ensures found[i] == if chunks[i] == HashConcat(h, chunks) then Value(h, MetaEntry(chunks)) else chunks[i]
    {
      UploadedLookup(h, m, chunks, i);
    }
    FoundIsUploaded(h, chunks, found);
  }

  lemma FoundIsUploaded(h: Hash, chunks: seq<Bytes>, found: seq<Bytes>)
    requires Digest(h) && chunks != [] && |found| == |chunks|
    requires forall i :: 0 <= i < |chunks| ==>
               found[i] == if chunks[i] == HashConcat(h, chunks) then Value(h, MetaEntry(chunks)) else chunks[i]
    ensures Concat(found) == Concat(chunks) <==> HashConcat(h, chunks) !in chunks
  {
    if HashConcat(h, chunks) in chunks {
      var i :| 0 <= i < |chunks| && chunks[i] == HashConcat(h, chunks);
      MetafileLonger(h, chunks);
      ConcatLonger(chunks, found, i);
    } else {
      assert found == chunks;
    }
  }

  /**
   * An upload of zero pieces stores an empty metafile, which splits into one empty chunk key: its
   * download gives what the store held under the empty key before, or else what a peer replies to a
   * request for it. Without a reply it succeeds exactly if the store held something there.
   */
  lemma EmptyUpload(h: Hash, m: map<Bytes, Bytes>, replies: seq<Fetched>)
    requires Digest(h)
    ensures var got := Downloaded(Uploaded(h, m, []), Key(h, MetaEntry([])), replies).got;
            && got == Fetch(m, [], replies).got
            && ([] in m ==> got == Some(m[[]]))
            && (replies == [] && [] !in m ==> got == None)
  {
    var m' := Uploaded(h, m, []);
    var key := Key(h, MetaEntry([]));
    HexShape(h(HashConcat(h, [])));
    assert key != [];
    assert m'[key] == [] && Split([]) == [[]];
    assert ([] in m') == ([] in m);
    var keys: seq<Bytes> := [[]];
    assert keys[..0] == [];
    assert FetchAll(m', keys[..0], replies) == Download(m', Some([]), replies);
    assert Downloaded(m', key, replies) == FetchAll(m', keys, replies);
    var got := Fetch(m', [], replies).got;
    assert got.Some? ==> [] + got.value == got.value;
  }

  /** The data a reader holds: what its reads return, and the bytes that come along with EOF. */
  function DataOf(pieces: seq<Bytes>, tail: Bytes): Bytes
  {
    Concat(pieces) + tail
  }

  /**
   * The round trip for a reader whose pieces do not clash: the download gives back the reader's data
   * exactly when EOF brings no bytes along, which Upload loses. A reader that returns everything along
   * with EOF uploads nothing: its data comes back only if it happens to be under the empty key.
   */
  lemma ReaderRoundTrip(h: Hash, m: map<Bytes, Bytes>, pieces: seq<Bytes>, tail: Bytes, replies: seq<Fetched>)
    requires Digest(h) && NoCollision(h, Hashed(h, pieces)) && HashConcat(h, pieces) !in pieces
    ensures Downloaded(Uploaded(h, m, pieces), Key(h, MetaEntry(pieces)), replies).got == Some(DataOf(pieces, tail))
            <==> if pieces == [] then Fetch(m, [], replies).got == Some(tail) else tail == []
  {
    if pieces == [] {
      EmptyUpload(h, m, replies);
      assert DataOf(pieces, tail) == tail;
    } else {
      LocalRoundTrip(h, m, pieces, replies);
      assert |DataOf(pieces, tail)| == |Concat(pieces)| + |tail|;
      assert tail == [] ==> DataOf(pieces, tail) == Concat(pieces);
    }
  }

  // ---- a repeat after success is purely local ----

  ghost predicate Includes(big: map<Bytes, Bytes>, small: map<Bytes, Bytes>)
  {
    forall k :: k in small ==> k in big && big[k] == small[k]
  }

  /** The reply that Fetch would consume names the key that was asked for, as every responder's does. */
  predicate Keyed(m: map<Bytes, Bytes>, key: Bytes, replies: seq<Fetched>)
  {
    key !in m && replies != [] && replies[0].Replied? ==> replies[0].key == key
  }

  predicate AllKeyed(m: map<Bytes, Bytes>, keys: seq<Bytes>, replies: seq<Fetched>)
  {
    keys == [] ||
    var p := FetchAll(m, keys[..|keys| - 1], replies);
    AllKeyed(m, keys[..|keys| - 1], replies) && (p.got.Some? ==> Keyed(p.store, keys[|keys| - 1], p.replies))
  }

  predicate DownloadKeyed(m: map<Bytes, Bytes>, metahash: Bytes, replies: seq<Fetched>)
  {
    var p := Fetch(m, metahash, replies);
    Keyed(m, metahash, replies) && (p.got.Some? ==> AllKeyed(p.store, Split(p.got.value), p.replies))
  }

  /** What one download fetched, a larger store gives without asking. */
  lemma {:induction false} FetchAllAgain(m: map<Bytes, Bytes>, keys: seq<Bytes>, replies: seq<Fetched>,
                                         big: map<Bytes, Bytes>)
    requires AllKeyed(m, keys, replies) && FetchAll(m, keys, replies).got.Some?
    requires Includes(big, FetchAll(m, keys, replies).store)
    ensures Includes(FetchAll(m, keys, replies).store, m)
    ensures FetchAll(big, keys, []) == Download(big, FetchAll(m, keys, replies).got, [])
  {
    if keys != [] {
      var n := |keys| - 1;
      var p := FetchAll(m, keys[..n], replies);
      assert p.got.Some?;
      assert Includes(FetchAll(m, keys, replies).store, p.store);
      FetchAllAgain(m, keys[..n], replies, big);
    }
  }

  /** A successful download stores all it needed: repeating it asks nobody and gives the same bytes. */
  lemma RepeatIsLocal(m: map<Bytes, Bytes>, metahash: Bytes, replies: seq<Fetched>)
    requires DownloadKeyed(m, metahash, replies)
    requires Downloaded(m, metahash, replies).got.Some?
    ensures var d := Downloaded(m, metahash, replies);
            Downloaded(d.store, metahash, []) == Download(d.store, d.got, []) && Includes(d.store, m)
  {
    var p := Fetch(m, metahash, replies);
    var d := Downloaded(m, metahash, replies);
    assert p.got.Some?;
    FetchAllAgain(p.store, Split(p.got.value), p.replies, d.store);
  }

  /**
   * A reply is stored under the key that it names. If that is not the key asked for, its value is returned
   * all the same, but is not found under the key asked for when the download is repeated.
   */
  lemma MisnamedReply(m: map<Bytes, Bytes>, key: Bytes, named: Bytes, value: Bytes)
    requires key !in m
    ensures var d := Fetch(m, key, [Replied(named, Some(value))]);
            && d.got == Some(value) && d.store == m[named := value]
            && (Fetch(d.store, key, []) == Download(d.store, d.got, []) <==> named == key)
  {
  }

  // ---- downloading from a peer that has everything ----

  /** The stores agree on the keys that both have. */
  ghost predicate Agrees(m: map<Bytes, Bytes>, full: map<Bytes, Bytes>)
  {
    forall k :: k in m && k in full ==> m[k] == full[k]
  }

  predicate HasKeys(full: map<Bytes, Bytes>, keys: seq<Bytes>)
  {
    forall k :: k in keys ==> k in full
  }

  /** The store once the missing keys have been taken over, and the replies that bring them, in order. */
  function Served(m: map<Bytes, Bytes>, full: map<Bytes, Bytes>, keys: seq<Bytes>): (map<Bytes, Bytes>, seq<Fetched>)
    requires HasKeys(full, keys)
  {
    if keys == [] then (m, [])
    else
      var n := |keys| - 1;
      var (store, replies) := Served(m, full, keys[..n]);
      assert keys[n] in keys;
      if keys[n] in store then (store, replies)
      else (store[keys[n] := full[keys[n]]], replies + [Replied(keys[n], Some(full[keys[n]]))])
  }

  lemma {:induction false} ServeAll(m: map<Bytes, Bytes>, full: map<Bytes, Bytes>, keys: seq<Bytes>,
                                    more: seq<Fetched>)
    requires HasKeys(full, keys) && Agrees(m, full)
    ensures var (store, replies) := Served(m, full, keys);
            && FetchAll(m, keys, replies + more) == Download(store, Some(Concat(Lookups(full, keys))), more)
            && Agrees(store, full) && Includes(store, m)
  {
    if keys == [] {
      assert [] + more == more;
    } else {
      var n := |keys| - 1;
      var key := keys[n];
      assert key in keys;
      var (store, replies) := Served(m, full, keys[..n]);
      assert Lookups(full, keys)[..n] == Lookups(full, keys[..n]);
      if key in store {
        ServeAll(m, full, keys[..n], more);
      } else {
        var reply := Replied(key, Some(full[key]));
        ServeAll(m, full, keys[..n], [reply] + more);
        ConcatAssoc(replies, [reply], more);
      }
    }
  }

  /** The replies that a download of this metahash needs of a peer with this store. */
  function ServedBy(m: map<Bytes, Bytes>, full: map<Bytes, Bytes>, metahash: Bytes): seq<Fetched>
    requires metahash in full && HasKeys(full, Split(full[metahash]))
  {
    var first := if metahash in m then [] else [Replied(metahash, Some(full[metahash]))];
    first + Served(m[metahash := full[metahash]], full, Split(full[metahash])).1
  }

  /**
   * A remote download gives what the peer has. If a peer stores a metafile and every chunk that it lists,
   * and the own store agrees with it, then its replies to the keys missing here make the download succeed:
   * it uses exactly these replies, returns the peer's chunks in order, and loses nothing stored before.
   */
  lemma {:induction false} RemoteDownload(m: map<Bytes, Bytes>, full: map<Bytes, Bytes>, metahash: Bytes)
    requires metahash in full && HasKeys(full, Split(full[metahash])) && Agrees(m, full)
    ensures var d := Downloaded(m, metahash, ServedBy(m, full, metahash));
            && d.got == Some(Concat(Lookups(full, Split(full[metahash])))) && d.replies == []
            && Includes(d.store, m)
  {
    var keys := Split(full[metahash]);
    var m' := m[metahash := full[metahash]];
    var (store, replies) := Served(m', full, keys);
    ServeAll(m', full, keys, []);
    assert replies + [] == replies;
    if metahash in m {
      assert m' == m;
      assert [] + replies == replies;
    } else {
      var reply := Replied(metahash, Some(full[metahash]));
      assert ([reply] + replies)[1..] == replies;
    }
  }
}
