/** The gossip messages and packets (types/messaging_def.go, transport/mod.go). */
module Messages {
  import opened Basics

  /** An application message carried by a rumor. */
  type Payload = string

  datatype Rumor = Rumor(origin: Addr, sequence: nat, msg: Payload)

  /** The last known sequence per origin; an absent key counts as 0. */
  type StatusMessage = map<Addr, nat>

  datatype Message =
    | RumorsMessage(rumors: seq<Rumor>)
    | AckMessage(status: StatusMessage)
    | StatusUpdate(status: StatusMessage)

  /**
   * A packet on the wire: `sentTo` is the socket it was handed to, which differs from the
   * header's destination when the packet takes a next hop of the routing table.
   */
  datatype Packet = Packet(source: Addr, relayedBy: Addr, destination: Addr, sentTo: Addr, msg: Message)

  function SeqOf(status: StatusMessage, node: Addr): nat
  {
    if node in status then status[node] else 0
  }

  /** Some origin is further in a than in b. */
  ghost predicate Ahead(a: StatusMessage, b: StatusMessage)
  {
    exists o :: SeqOf(b, o) < SeqOf(a, o)
  }

  ghost predicate SameCounters(a: StatusMessage, b: StatusMessage)
  {
    forall o :: SeqOf(a, o) == SeqOf(b, o)
  }

  /** The rumors of one origin, in the order in which they appear. */
  function PerOrigin(rs: seq<Rumor>, o: Addr): (r: seq<Rumor>)
  {
    if rs == [] then []
    else
      var rest := PerOrigin(rs[..|rs| - 1], o);
      if rs[|rs| - 1].origin == o then rest + [rs[|rs| - 1]] else rest
  }

  lemma {:induction false} PerOriginConcat(xs: seq<Rumor>, ys: seq<Rumor>, o: Addr)
    ensures PerOrigin(xs + ys, o) == PerOrigin(xs, o) + PerOrigin(ys, o)
  {
    if ys == [] {
      assert xs + ys == xs;
    } else {
      var n := |ys| - 1;
      assert (xs + ys)[..|xs + ys| - 1] == xs + ys[..n];
      PerOriginConcat(xs, ys[..n], o);
    }
  }

  lemma PerOriginOneMore(rs: seq<Rumor>, x: Rumor, o: Addr)
    ensures PerOrigin(rs + [x], o) == if x.origin == o then PerOrigin(rs, o) + [x] else PerOrigin(rs, o)
  {
    assert (rs + [x])[..|rs + [x]| - 1] == rs;
  }

  /** A list of rumors of one origin is its own part of that origin and has no other part. */
  lemma {:induction false} PerOriginUniform(xs: seq<Rumor>, origin: Addr, o: Addr)
    requires forall k :: 0 <= k < |xs| ==> xs[k].origin == origin
    ensures PerOrigin(xs, o) == if o == origin then xs else []
  {
    if xs != [] {
      var n := |xs| - 1;
      PerOriginUniform(xs[..n], origin, o);
      assert xs == xs[..n] + [xs[n]];
    }
  }

  lemma {:induction false} PerOriginMember(rs: seq<Rumor>, k: nat)
    requires k < |rs|
    ensures rs[k] in PerOrigin(rs, rs[k].origin)
  {
    var n := |rs| - 1;
    if k < n {
      PerOriginMember(rs[..n], k);
      assert rs[..n][k] == rs[k];
    }
  }

  lemma {:induction false} PerOriginOnlyThat(rs: seq<Rumor>, o: Addr)
    ensures forall r :: r in PerOrigin(rs, o) ==> r in rs && r.origin == o
  {
    if rs != [] {
      PerOriginOnlyThat(rs[..|rs| - 1], o);
    }
  }
}
