/**
 * The byte-level formats of data sharing: hex encoding, the separator of a metafile, joining and
 * splitting, and the key and value under which a chunk or a metafile is stored
 * (peer/impl/dataSharing.go, peer/datasharing.go).
 */
module Codec {
  import opened Basics

  /** The metafile separator, a line feed. */
  const SEP: byte := 10

  // ---- hex ----

  function HexDigit(v: nat): byte
    requires v < 16
  {
    if v < 10 then 48 + v else 87 + v
  }

  function Hex(b: Bytes): Bytes
  {
    if b == [] then []
    else Hex(b[..|b| - 1]) + [HexDigit(b[|b| - 1] / 16), HexDigit(b[|b| - 1] % 16)]
  }

  lemma {:induction false} HexShape(b: Bytes)
    ensures |Hex(b)| == 2 * |b|
    ensures SEP !in Hex(b)
  {
    if b != [] {
      HexShape(b[..|b| - 1]);
    }
  }

  lemma DigitsInjective(u: byte, v: byte)
    requires HexDigit(u / 16) == HexDigit(v / 16) && HexDigit(u % 16) == HexDigit(v % 16)
    ensures u == v
  {
  }

  lemma {:induction false} HexInjective(a: Bytes, b: Bytes)
    requires Hex(a) == Hex(b)
    ensures a == b
  {
    HexShape(a);
    HexShape(b);
    if a != [] {
      var n := |a| - 1;
      HexShape(a[..n]);
      HexShape(b[..n]);
      var h := Hex(a);
      assert h[..2 * n] == Hex(a[..n]) && h[..2 * n] == Hex(b[..n]);
      assert h[2 * n] == HexDigit(a[n] / 16) == HexDigit(b[n] / 16);
      assert h[2 * n + 1] == HexDigit(a[n] % 16) == HexDigit(b[n] % 16);
      DigitsInjective(a[n], b[n]);
      HexInjective(a[..n], b[..n]);
      assert a == a[..n] + [a[n]] && b == b[..n] + [b[n]];
    }
  }

  // ---- lists of byte strings ----

  function Concat(xs: seq<Bytes>): Bytes
  {
    if xs == [] then [] else Concat(xs[..|xs| - 1]) + xs[|xs| - 1]
  }

  function Join(xs: seq<Bytes>): Bytes
  {
    if xs == [] then []
    else if |xs| == 1 then xs[0]
    else Join(xs[..|xs| - 1]) + [SEP] + xs[|xs| - 1]
  }

  /** Split of the empty string is one empty piece. */
  function Split(s: Bytes): (r: seq<Bytes>)
    ensures |r| > 0
  {
    if s == [] then [[]]
    else
      var r := Split(s[..|s| - 1]);
      var c := s[|s| - 1];
      if c == SEP then r + [[]] else r[|r| - 1 := r[|r| - 1] + [c]]
  }

  lemma {:induction false} SplitAppend(s: Bytes, t: Bytes)
    requires SEP !in t
    ensures Split(s + t) == var r := Split(s); r[|r| - 1 := r[|r| - 1] + t]
  {
    var r := Split(s);
    if t == [] {
      assert s + t == s && r[|r| - 1] + t == r[|r| - 1];
    } else {
      var n := |t| - 1;
      assert (s + t)[..|s + t| - 1] == s + t[..n];
      SplitAppend(s, t[..n]);
      assert (r[|r| - 1] + t[..n]) + [t[n]] == r[|r| - 1] + t;
    }
  }

  /** A separator starts one more piece. */
  lemma SplitSep(s: Bytes, t: Bytes)
    requires SEP !in t
    ensures Split(s + [SEP] + t) == Split(s) + [t]
  {
    assert (s + [SEP])[..|s|] == s;
    SplitAppend(s + [SEP], t);
    assert [] + t == t;
  }

  /** Split undoes Join for any non-empty list of separator-free strings. */
  lemma {:induction false} SplitJoin(xs: seq<Bytes>)
    requires xs != [] && forall x :: x in xs ==> SEP !in x
    ensures Split(Join(xs)) == xs
  {
    var n := |xs| - 1;
    assert xs[n] in xs && xs == xs[..n] + [xs[n]];
    if n == 0 {
      SplitAppend([], xs[0]);
      assert [] + xs[0] == xs[0];
    } else {
      SplitJoin(xs[..n]);
      SplitSep(Join(xs[..n]), xs[n]);
    }
  }

  /** Join undoes Split on every string. */
  lemma {:induction false} JoinSplit(s: Bytes)
    ensures Join(Split(s)) == s
  {
    if s != [] {
      var n := |s| - 1;
      JoinSplit(s[..n]);
      var r := Split(s[..n]);
      assert s == s[..n] + [s[n]];
      if s[n] == SEP {
        assert (r + [[]])[..|r|] == r;
        assert Join(r) + [SEP] + [] == Join(r) + [SEP];
      } else {
        var k := |r| - 1;
        var r' := r[k := r[k] + [s[n]]];
        assert r'[..k] == r[..k];
        if k > 0 {
          assert Join(r') == Join(r[..k]) + [SEP] + (r[k] + [s[n]]);
          assert Join(r') == Join(r) + [s[n]];
        }
      }
    }
  }

  lemma ConcatOneMore(xs: seq<Bytes>, x: Bytes)
    ensures Concat(xs + [x]) == Concat(xs) + x
  {
    assert (xs + [x])[..|xs + [x]| - 1] == xs;
  }

  lemma JoinOneMore(xs: seq<Bytes>, x: Bytes)
    ensures Join(xs + [x]) == if xs == [] then x else Join(xs) + [SEP] + x
  {
    assert (xs + [x])[..|xs + [x]| - 1] == xs;
  }

  /** Strings of one width can be told apart in their concatenation. */
  lemma {:induction false} ConcatInjective(xs: seq<Bytes>, ys: seq<Bytes>, width: nat)
    requires width > 0 && Concat(xs) == Concat(ys)
    requires (forall x :: x in xs ==> |x| == width) && (forall y :: y in ys ==> |y| == width)
    ensures xs == ys
  {
    if xs == [] || ys == [] {
      ConcatLength(xs, width);
      ConcatLength(ys, width);
    } else {
      var n, m := |xs| - 1, |ys| - 1;
      SameTail(Concat(xs[..n]), xs[n], Concat(ys[..m]), ys[m]);
      ConcatInjective(xs[..n], ys[..m], width);
      assert xs == xs[..n] + [xs[n]] && ys == ys[..m] + [ys[m]];
    }
  }

  lemma SameTail(a: Bytes, x: Bytes, b: Bytes, y: Bytes)
    requires |x| == |y| && a + x == b + y
    ensures a == b && x == y
  {
    assert a == (a + x)[..|a|] && b == (b + y)[..|b|];
    assert x == (a + x)[|a|..] && y == (b + y)[|b|..];
  }

  lemma {:induction false} ConcatLength(xs: seq<Bytes>, width: nat)
    requires forall x :: x in xs ==> |x| == width
    ensures |Concat(xs)| == |xs| * width
    ensures xs != [] && width > 0 ==> |Concat(xs)| > 0
  {
    if xs != [] {
      var n := |xs| - 1;
      ConcatLength(xs[..n], width);
      assert xs[n] in xs;
      MulSucc(n, width);
    }
  }

  lemma {:induction false} JoinLength(xs: seq<Bytes>, width: nat)
    requires xs != [] && forall x :: x in xs ==> |x| == width
    ensures |Join(xs)| == |xs| * (width + 1) - 1
  {
    var n := |xs| - 1;
    assert xs[n] in xs;
    if n > 0 {
      JoinLength(xs[..n], width);
      MulSucc(n, width + 1);
    }
  }

  // ---- keys and values ----

  type Hash = Bytes -> Bytes

  /** SHA-256 digests are 32 bytes wide. */
  const WIDTH: nat := 32

  ghost predicate Digest(h: Hash)
  {
    forall b :: |h(b)| == WIDTH
  }

  function Hashes(h: Hash, chunks: seq<Bytes>): seq<Bytes>
  {
    seq(|chunks|, i requires 0 <= i < |chunks| => h(chunks[i]))
  }

  function HexHashes(h: Hash, chunks: seq<Bytes>): seq<Bytes>
  {
    seq(|chunks|, i requires 0 <= i < |chunks| => Hex(h(chunks[i])))
  }

  /** The string whose hash is the metafile's key. */
  function HashConcat(h: Hash, chunks: seq<Bytes>): Bytes
  {
    Concat(Hashes(h, chunks))
  }

  /** What an upload stores: its chunks, and a metafile that lists them. */
  datatype Entry = ChunkEntry(data: Bytes) | MetaEntry(chunks: seq<Bytes>)

  function Preimage(h: Hash, e: Entry): Bytes
  {
    match e
    case ChunkEntry(data) => data
    case MetaEntry(chunks) => HashConcat(h, chunks)
  }

  function Key(h: Hash, e: Entry): Bytes
  {
    Hex(h(Preimage(h, e)))
  }

  function Value(h: Hash, e: Entry): Bytes
  {
    match e
    case ChunkEntry(data) => data
    case MetaEntry(chunks) => Join(HexHashes(h, chunks))
  }

  lemma MetafileSplits(h: Hash, chunks: seq<Bytes>)
    requires chunks != []
    ensures Split(Join(HexHashes(h, chunks))) == HexHashes(h, chunks)
  {
    forall x | x in HexHashes(h, chunks)
      ensures SEP !in x
    {
      var i :| 0 <= i < |chunks| && HexHashes(h, chunks)[i] == x;
      HexShape(h(chunks[i]));
    }
    SplitJoin(HexHashes(h, chunks));
  }

  /** A non-empty metafile is longer than the string it is keyed by. */
  lemma MetafileLonger(h: Hash, chunks: seq<Bytes>)
    requires Digest(h)
    ensures |HashConcat(h, chunks)| < |Join(HexHashes(h, chunks))| || chunks == []
    ensures chunks == [] ==> HashConcat(h, chunks) == [] == Join(HexHashes(h, chunks))
  {
    if chunks != [] {
      MetafileLength(h, chunks);
      ConcatLength(Hashes(h, chunks), WIDTH);
    }
  }

  lemma MetafileLength(h: Hash, chunks: seq<Bytes>)
    requires Digest(h) && chunks != []
    ensures |Join(HexHashes(h, chunks))| == |chunks| * 65 - 1
  {
    forall x | x in HexHashes(h, chunks)
      ensures |x| == 64
    {
      var i :| 0 <= i < |chunks| && HexHashes(h, chunks)[i] == x;
      HexShape(h(chunks[i]));
    }
    JoinLength(HexHashes(h, chunks), 64);
  }

  /**
   * Chunks and metafiles share one key space. If the two hashed strings do not collide, two entries
   * under one key have different values exactly when one is a chunk that is itself the raw
   * concatenation of the other, non-empty, metafile's chunk hashes.
   */
  lemma SameKey(h: Hash, e: Entry, f: Entry)
    requires Digest(h) && Key(h, e) == Key(h, f)
    requires h(Preimage(h, e)) == h(Preimage(h, f)) ==> Preimage(h, e) == Preimage(h, f)
    ensures Value(h, e) != Value(h, f)
            <==> (e.ChunkEntry? && f.MetaEntry? && f.chunks != []) || (e.MetaEntry? && f.ChunkEntry? && e.chunks != [])
  {
    HexInjective(h(Preimage(h, e)), h(Preimage(h, f)));
    match (e, f) {
      case (MetaEntry(cs), MetaEntry(ds)) =>
        ConcatInjective(Hashes(h, cs), Hashes(h, ds), WIDTH);
        assert |cs| == |Hashes(h, cs)| == |ds|;
        forall i | 0 <= i < |cs|
          ensures HexHashes(h, cs)[i] == HexHashes(h, ds)[i]
        {
          assert Hashes(h, cs)[i] == Hashes(h, ds)[i];
        }
        assert HexHashes(h, cs) == HexHashes(h, ds);
      case (ChunkEntry(_), MetaEntry(cs)) =>
        MetafileLonger(h, cs);
      case (MetaEntry(cs), ChunkEntry(_)) =>
        MetafileLonger(h, cs);
      case (ChunkEntry(_), ChunkEntry(_)) =>
    }
  }
}
