/**
 * The in-memory store (storage/inmemory/mod.go), and uploading to and downloading from it
 * (peer/impl/dataSharing.go). Stored values are slices of buffers, as in the original, so that
 * overwriting a buffer would change what is stored.
 */
module BlobStore {
  import opened Basics
  import opened Codec

  /** A Go slice: the first `len` bytes of a buffer. */
  datatype Slice = Slice(buf: array<byte>, len: nat)

  class Store {
    var data: map<Bytes, Slice>

    ghost function Bufs(): set<array<byte>>
      reads this
    {
      set k | k in data :: data[k].buf
    }

    ghost predicate Valid()
      reads this
    {
      forall k :: k in data ==> data[k].len <= data[k].buf.Length
    }

    /** The bytes stored under each key. */
    ghost function Contents(): map<Bytes, Bytes>
      requires Valid()
      reads this, Bufs()
    {
      map k | k in data :: data[k].buf[..data[k].len]
    }

    constructor ()
      ensures Valid() && Contents() == map[]
    {
      data := map[];
    }

    /** None stands for the nil slice of a missing key. */
    method Get(key: Bytes) returns (val: Option<Slice>)
      requires Valid()
      ensures val == if key in Contents() then Some(data[key]) else None
      ensures val.Some? ==> val.value.buf in Bufs() && val.value.len <= val.value.buf.Length
      ensures val.Some? ==> val.value.buf[..val.value.len] == Contents()[key]
    {
      val := if key in data then Some(data[key]) else None;
    }

    method Set(key: Bytes, val: Slice)
      requires Valid() && val.len <= val.buf.Length
      modifies this
      ensures Valid() && Contents() == old(Contents())[key := val.buf[..val.len]]
      ensures data == old(data)[key := val]
      ensures Bufs() <= old(Bufs()) + {val.buf}
    {
      data := data[key := val];
    }

    method Delete(key: Bytes)
      requires Valid()
      modifies this
      ensures Valid() && Contents() == old(Contents()) - {key}
    {
      data := data - {key};
    }
  }

  /** An io.Reader: the pieces its successive reads return, then bytes that come along with EOF. */
  class Reader {
    var pending: seq<Bytes>
    var tail: Bytes

    ghost predicate Fits(size: nat)
      reads this
    {
      (forall piece :: piece in pending ==> |piece| <= size) && |tail| <= size
    }

    method Read(buf: array<byte>) returns (n: nat, eof: bool)
      requires Fits(buf.Length)
      modifies this, buf
      ensures n <= buf.Length && Fits(buf.Length) && tail == old(tail)
      ensures eof == (old(pending) == [])
      ensures eof ==> pending == old(pending) && buf[..n] == tail
      ensures !eof ==> pending == old(pending)[1..] && buf[..n] == old(pending)[0]
    {
      if pending == [] {
        n := Fill(buf, tail);
        return n, true;
      }
      assert pending[0] in pending;
      n := Fill(buf, pending[0]);
      pending := pending[1..];
      return n, false;
    }
  }

  method Fill(buf: array<byte>, bytes: Bytes) returns (n: nat)
    requires |bytes| <= buf.Length
    modifies buf
    ensures n == |bytes| && buf[..n] == bytes
  {
    n := 0;
    while n < |bytes|
      invariant n <= |bytes| && buf[..n] == bytes[..n]
    {
      buf[n] := bytes[n];
      n := n + 1;
    }
  }

  // ---- what an upload does to a store ----

  function PutChunks(h: Hash, m: map<Bytes, Bytes>, chunks: seq<Bytes>): map<Bytes, Bytes>
  {
    if chunks == [] then m
    else PutChunks(h, m, chunks[..|chunks| - 1])[Hex(h(chunks[|chunks| - 1])) := chunks[|chunks| - 1]]
  }

  function Uploaded(h: Hash, m: map<Bytes, Bytes>, chunks: seq<Bytes>): map<Bytes, Bytes>
  {
    PutChunks(h, m, chunks)[Key(h, MetaEntry(chunks)) := Value(h, MetaEntry(chunks))]
  }

  lemma HashesOneMore(h: Hash, pieces: seq<Bytes>, i: nat)
    requires i < |pieces|
    ensures Hashes(h, pieces[..i + 1]) == Hashes(h, pieces[..i]) + [h(pieces[i])]
    ensures HexHashes(h, pieces[..i + 1]) == HexHashes(h, pieces[..i]) + [Hex(h(pieces[i]))]
  {
  }

  lemma PutOneMore(h: Hash, m: map<Bytes, Bytes>, pieces: seq<Bytes>, i: nat)
    requires i < |pieces|
    ensures PutChunks(h, m, pieces[..i + 1]) == PutChunks(h, m, pieces[..i])[Hex(h(pieces[i])) := pieces[i]]
  {
    assert pieces[..i + 1][..i] == pieces[..i];
  }

  lemma ListsOneMore(h: Hash, pieces: seq<Bytes>, i: nat)
    requires i < |pieces|
    ensures Join(HexHashes(h, pieces[..i + 1]))
            == if i == 0 then Hex(h(pieces[i])) else Join(HexHashes(h, pieces[..i])) + ([SEP] + Hex(h(pieces[i])))
    ensures HashConcat(h, pieces[..i + 1]) == HashConcat(h, pieces[..i]) + h(pieces[i])
  {
    HashesOneMore(h, pieces, i);
    ConcatOneMore(Hashes(h, pieces[..i]), h(pieces[i]));
    JoinOneMore(HexHashes(h, pieces[..i]), Hex(h(pieces[i])));
    ConcatAssoc(Join(HexHashes(h, pieces[..i])), [SEP], Hex(h(pieces[i])));
  }

  /** The metafile and the string it is keyed by, after i pieces. */
  ghost predicate Lists(h: Hash, pieces: seq<Bytes>, i: nat, metafile: Bytes, keyBytes: Bytes)
  {
    i <= |pieces| && metafile == Join(HexHashes(h, pieces[..i])) && keyBytes == HashConcat(h, pieces[..i])
  }

  lemma ListsNext(h: Hash, pieces: seq<Bytes>, i: nat, metafile: Bytes, keyBytes: Bytes)
    requires Lists(h, pieces, i, metafile, keyBytes) && i < |pieces|
    ensures var hex := Hex(h(pieces[i]));
            Lists(h, pieces, i + 1, metafile + (if i == 0 then hex else [SEP] + hex), keyBytes + h(pieces[i]))
  {
    ListsOneMore(h, pieces, i);
    assert i == 0 ==> metafile + Hex(h(pieces[i])) == Hex(h(pieces[i]));
  }

  // ---- what a download does ----

  /** The outcome of asking another peer: any failure, or the reply that came back. */
  datatype Fetched = Failed | Replied(key: Bytes, value: Option<Bytes>)

  datatype Download = Download(store: map<Bytes, Bytes>, got: Option<Bytes>, replies: seq<Fetched>)

  /** One key: from the store if it is there, else from the next reply, which is then stored. */
  function Fetch(m: map<Bytes, Bytes>, key: Bytes, replies: seq<Fetched>): Download
  {
    if key in m then Download(m, Some(m[key]), replies)
    else if replies == [] then Download(m, None, [])
    else
      match replies[0]
      case Replied(k, Some(v)) => Download(m[k := v], Some(v), replies[1..])
      case _ => Download(m, None, replies[1..])
  }

  function FetchAll(m: map<Bytes, Bytes>, keys: seq<Bytes>, replies: seq<Fetched>): Download
  {
    if keys == [] then Download(m, Some([]), replies)
    else
      var p := FetchAll(m, keys[..|keys| - 1], replies);
      if p.got.None? then p
      else
        var q := Fetch(p.store, keys[|keys| - 1], p.replies);
        if q.got.None? then q else q.(got := Some(p.got.value + q.got.value))
  }

  function Downloaded(m: map<Bytes, Bytes>, metahash: Bytes, replies: seq<Fetched>): Download
  {
    var p := Fetch(m, metahash, replies);
    if p.got.None? then p else FetchAll(p.store, Split(p.got.value), p.replies)
  }

  lemma FetchAllOneMore(m: map<Bytes, Bytes>, keys: seq<Bytes>, i: nat, replies: seq<Fetched>)
    requires i < |keys| && FetchAll(m, keys[..i], replies).got.Some?
    ensures var p := FetchAll(m, keys[..i], replies);
            var q := Fetch(p.store, keys[i], p.replies);
            FetchAll(m, keys[..i + 1], replies)
            == if q.got.None? then q else q.(got := Some(p.got.value + q.got.value))
  {
    assert keys[..i + 1][..i] == keys[..i];
  }

  /** A failed key ends the whole download. */
  lemma {:induction false} FailureStays(m: map<Bytes, Bytes>, keys: seq<Bytes>, i: nat, replies: seq<Fetched>)
    requires i <= |keys| && FetchAll(m, keys[..i], replies).got.None?
    ensures FetchAll(m, keys, replies) == FetchAll(m, keys[..i], replies)
    decreases |keys|
  {
    if i == |keys| {
      assert keys[..i] == keys;
    } else {
      assert keys[..|keys| - 1][..i] == keys[..i];
      FailureStays(m, keys[..|keys| - 1], i, replies);
    }
  }

  // ---- the peer's operations ----

  class Peer {
    const hash: Hash
    const chunkSize: nat
    const store: Store
    var replies: seq<Fetched>   // what asking other peers will bring, in order

    constructor (hash: Hash, chunkSize: nat, store: Store)
      ensures this.hash == hash && this.chunkSize == chunkSize && this.store == store && replies == []
    {
      this.hash, this.chunkSize, this.store := hash, chunkSize, store;
      replies := [];
    }

    /** One round of the read loop: a fresh buffer, one read, and the chunk stored as a slice of it. */
    method ReadChunk(reader: Reader) returns (chunk: Bytes, eof: bool)
      requires store.Valid() && reader.Fits(chunkSize)
      modifies store, reader
      ensures store.Valid() && reader.Fits(chunkSize)
      ensures eof == (old(reader.pending) == [])
      ensures eof ==> store.Contents() == old(store.Contents())
      ensures !eof ==> chunk == old(reader.pending)[0] && reader.pending == old(reader.pending)[1..]
                       && store.Contents() == old(store.Contents())[Hex(hash(chunk)) := chunk]
    {
      var buf := new byte[chunkSize];
      var n, atEnd := reader.Read(buf);
      chunk, eof := buf[..n], atEnd;
      assert store.Contents() == old(store.Contents());
      if !eof {
        store.Set(Hex(hash(chunk)), Slice(buf, n));
      }
    }

    method PutBytes(key: Bytes, bytes: Bytes)
      requires store.Valid()
      modifies store
      ensures store.Valid() && store.Contents() == old(store.Contents())[key := bytes]
    {
      var buf := new byte[|bytes|];
      var n := Fill(buf, bytes);
      assert store.Contents() == old(store.Contents());
      store.Set(key, Slice(buf, n));
    }

    /** Uploads what the reader returns before EOF; bytes that come along with EOF are not read. */
    method Upload(reader: Reader) returns (metahash: Bytes)
      requires store.Valid() && reader.Fits(chunkSize)
      modifies store, reader
      ensures metahash == Key(hash, MetaEntry(old(reader.pending)))
      ensures store.Valid() && store.Contents() == Uploaded(hash, old(store.Contents()), old(reader.pending))
    {
      ghost var m, pieces := store.Contents(), reader.pending;
      ghost var i := 0;
      var isFirstChunk := true;
      var metafileValue: Bytes, metafileKeyBytes: Bytes := [], [];
      while true
        invariant 0 <= i <= |pieces| && reader.pending == pieces[i..] && reader.Fits(chunkSize)
        invariant store.Valid() && store.Contents() == PutChunks(hash, m, pieces[..i])
        invariant isFirstChunk == (i == 0) && Lists(hash, pieces, i, metafileValue, metafileKeyBytes)
        decreases |pieces| - i
      {
        var chunk, eof := ReadChunk(reader);
        if eof {
          break;
        }
        PutOneMore(hash, m, pieces, i);
        ListsNext(hash, pieces, i, metafileValue, metafileKeyBytes);
        if isFirstChunk {
          metafileValue := metafileValue + Hex(hash(chunk));
          isFirstChunk := false;
        } else {
          metafileValue := metafileValue + ([SEP] + Hex(hash(chunk)));
        }
        metafileKeyBytes := metafileKeyBytes + hash(chunk);
        i := i + 1;
      }
      assert pieces[..i] == pieces;
      metahash := Hex(hash(metafileKeyBytes));
      PutBytes(metahash, metafileValue);
    }

    /** Asks a peer for a key and stores what it replies under the key the reply names. */
    method GetRemote(ghost key: Bytes) returns (got: Option<Bytes>)
      requires store.Valid() && key !in store.Contents()
      modifies this`replies, store
      ensures store.Valid()
      ensures Download(store.Contents(), got, replies) == Fetch(old(store.Contents()), key, old(replies))
    {
      if replies == [] {
        return None;
      }
      var reply := replies[0];
      replies := replies[1..];
      if reply.Replied? && reply.value.Some? {
        PutBytes(reply.key, reply.value.value);
        return reply.value;
      }
      return None;
    }

    /** The local value if there is one, else a remote one. */
    method GetOrFetch(key: Bytes) returns (got: Option<Bytes>)
      requires store.Valid()
      modifies this`replies, store
      ensures store.Valid()
      ensures Download(store.Contents(), got, replies) == Fetch(old(store.Contents()), key, old(replies))
    {
      ghost var m := store.Contents();
      var local := store.Get(key);
      if local.Some? {
        got := Some(local.value.buf[..local.value.len]);
        assert got == Some(m[key]);
        return;
      }
      got := GetRemote(key);
    }

    method DownloadBlob(metahash: Bytes) returns (got: Option<Bytes>)
      requires store.Valid()
      modifies this`replies, store
      ensures store.Valid()
      ensures Download(store.Contents(), got, replies) == Downloaded(old(store.Contents()), metahash, old(replies))
    {
      var metafile := GetOrFetch(metahash);
      if metafile.None? {
        return None;
      }
      ghost var m, rs := store.Contents(), replies;
      var chunkHashes := Split(metafile.value);
      var allChunks: Bytes := [];
      var i := 0;
      while i < |chunkHashes|
        invariant 0 <= i <= |chunkHashes| && store.Valid()
        invariant FetchAll(m, chunkHashes[..i], rs) == Download(store.Contents(), Some(allChunks), replies)
      {
        FetchAllOneMore(m, chunkHashes, i, rs);
        var chunk := GetOrFetch(chunkHashes[i]);
        if chunk.None? {
          FailureStays(m, chunkHashes, i + 1, rs);
          return None;
        }
        allChunks := allChunks + chunk.value;
        i := i + 1;
      }
      assert chunkHashes[..i] == chunkHashes;
      return Some(allChunks);
    }
  }
}
