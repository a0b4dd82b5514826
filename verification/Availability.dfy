/**
 * When a download can finish: exactly if what it still needs can be asked of peers that the catalog lists
 * and that hold it (peer/impl/dataSharing.go, peer/impl/handlers.go).
 */
module Availability {
  import opened Basics
  import opened Codec
  import opened SharingNetwork
  import opened Agreement

  // ---- runs of one download ----

  /** A step of the download d at a, or some peer's answer to a request. */
  ghost predicate Fetches(s: Network, step: Step, a: Addr, d: Id)
  {
    match step
    case ReadLocal(at, e) => at == a && e == d
    case Request(at, e, _, _) => at == a && e == d
    case Resend(at, e) => at == a && e == d
    case Answer(_) => true
    case Receive(i, e) => i < |s.net| && s.net[i].destination == a && e == d
    case _ => false
  }

  ghost predicate FetchRun(h: Hash, s: Network, steps: seq<Step>, a: Addr, d: Id)
  {
    && ValidRun(h, s, steps)
    && (steps == [] ||
        var k := |steps| - 1;
        FetchRun(h, s, steps[..k], a, d) && Fetches(Exec(h, s, steps[..k]), steps[k], a, d))
  }

  /** The run finishes the download. */
  ghost predicate Finishes(h: Hash, s: Network, steps: seq<Step>, a: Addr, d: Id)
  {
    && FetchRun(h, s, steps, a, d) && Active(Exec(h, s, steps), a, d)
    && Complete(Exec(h, s, steps).nodes[a].downloads[d])
  }

  lemma FetchOneMore(h: Hash, s: Network, steps: seq<Step>, step: Step, a: Addr, d: Id)
    requires FetchRun(h, s, steps, a, d) && Enabled(Exec(h, s, steps), step) && Fetches(Exec(h, s, steps), step, a, d)
    ensures FetchRun(h, s, steps + [step], a, d)
    ensures Exec(h, s, steps + [step]) == Apply(h, Exec(h, s, steps), step)
  {
    OneStep(h, s, steps, step);
    assert (steps + [step])[..|steps|] == steps;
  }

  lemma FetchOne(h: Hash, s: Network, step: Step, a: Addr, d: Id)
    requires Enabled(s, step) && Fetches(s, step, a, d)
    ensures FetchRun(h, s, [step], a, d) && Exec(h, s, [step]) == Apply(h, s, step)
  {
    FetchOneMore(h, s, [], step, a, d);
    assert [] + [step] == [step];
  }

  lemma {:induction false} FetchMore(h: Hash, s: Network, xs: seq<Step>, ys: seq<Step>, a: Addr, d: Id)
    requires FetchRun(h, s, xs, a, d) && FetchRun(h, Exec(h, s, xs), ys, a, d)
    ensures FetchRun(h, s, xs + ys, a, d) && Exec(h, s, xs + ys) == Exec(h, Exec(h, s, xs), ys)
  {
    if ys == [] {
      assert xs + ys == xs;
    } else {
      var n := |ys| - 1;
      FetchMore(h, s, xs, ys[..n], a, d);
      FetchOneMore(h, s, xs + ys[..n], ys[n], a, d);
      ConcatLast(xs, ys);
    }
  }

  lemma {:induction false} RunsJoin(h: Hash, s: Network, xs: seq<Step>, ys: seq<Step>)
    requires ValidRun(h, s, xs) && ValidRun(h, Exec(h, s, xs), ys)
    ensures ValidRun(h, s, xs + ys) && Exec(h, s, xs + ys) == Exec(h, Exec(h, s, xs), ys)
  {
    if ys == [] {
      assert xs + ys == xs;
    } else {
      var n := |ys| - 1;
      RunsJoin(h, s, xs, ys[..n]);
      OneStep(h, s, xs + ys[..n], ys[n]);
      ConcatLast(xs, ys);
    }
  }

  // ---- who can be asked ----

  /** a's catalog lists b under the key, b holds it, and both have a route to the other. */
  ghost predicate Askable(s: Network, a: Addr, b: Addr, key: Bytes)
    requires a in s.nodes
  {
    && b in s.nodes && Listed(s.nodes[a].catalog, key, b) && key in s.nodes[b].store
    && b in s.nodes[a].routes && a in s.nodes[b].routes
  }

  ghost predicate Fetchable(s: Network, a: Addr, key: Bytes)
    requires a in s.nodes
  {
    key in s.nodes[a].store || exists b :: Askable(s, a, b, key)
  }

  ghost predicate Needs(s: Network, a: Addr, d: Id)
  {
    Active(s, a, d) && NeedsMore(s.nodes[a].downloads[d])
  }

  /** The reply with the value v is in flight. */
  ghost predicate Arriving(s: Network, a: Addr, r: Running, w: Waiting, v: Bytes)
    requires NeedsMore(r)
  {
    exists i :: 0 <= i < |s.net| && s.net[i].destination == a && s.net[i].msg == DataReply(w.id, Wanted(r), Some(v))
  }

  /** The peer that was asked can still reply v: the request is in flight or may be sent again. */
  ghost predicate Answering(s: Network, a: Addr, r: Running, w: Waiting, v: Bytes)
    requires a in s.nodes && NeedsMore(r)
  {
    && w.peer in s.nodes && Wanted(r) in s.nodes[w.peer].store && v == s.nodes[w.peer].store[Wanted(r)]
    && a in s.nodes[w.peer].routes
    && (MayResend(s.nodes[a], r) || RequestOf(a, r, w.peer, w.id) in s.net)
  }

  /** The next part can be v. */
  ghost predicate Offers(s: Network, a: Addr, d: Id, v: Bytes)
    requires Needs(s, a, d)
  {
    var n := s.nodes[a];
    var r := n.downloads[d];
    var key := Wanted(r);
    match r.waiting
    case Some(w) => Arriving(s, a, r, w, v) || Answering(s, a, r, w, v)
    case None =>
      if key in n.store then v == n.store[key]
      else exists b :: Askable(s, a, b, key) && v == s.nodes[b].store[key]
  }

  /** Each chunk that a download with a metafile still needs can be had, but for one key. */
  ghost predicate RestFetchable(s: Network, a: Addr, r: Running, key: Option<Bytes>)
    requires a in s.nodes
  {
    && r.got != []
    && forall i: nat :: |r.got| <= i <= |Split(r.got[0])| ==>
         Some(KeyAt(r, i)) == key || Fetchable(s, a, KeyAt(r, i))
  }

  /** The next part can be some v, and then each other part can be had. */
  ghost predicate Available(s: Network, a: Addr, d: Id)
  {
    && Active(s, a, d)
    && var r := s.nodes[a].downloads[d];
       || Complete(r)
       || (NeedsMore(r) && exists v :: Offers(s, a, d, v) && RestFetchable(s, a, Advance(r, v), Some(Wanted(r))))
  }

  ghost predicate InBounds(r: Running)
  {
    r.got != [] ==> |r.got| <= 1 + |Split(r.got[0])|
  }

  /** With a metafile and no request under way, this means that every chunk missing can be had. */
  lemma AvailableIdle(s: Network, a: Addr, d: Id)
    requires Active(s, a, d) && InBounds(s.nodes[a].downloads[d])
    requires s.nodes[a].downloads[d].waiting.None? && s.nodes[a].downloads[d].got != []
    ensures Available(s, a, d) <==> RestFetchable(s, a, s.nodes[a].downloads[d], None)
  {
    var r := s.nodes[a].downloads[d];
    if NeedsMore(r) {
      assert KeyAt(r, |r.got|) == Wanted(r);
      if RestFetchable(s, a, r, None) {
        assert Fetchable(s, a, Wanted(r));
        var v := NextPart(s, a, d);
        RestAdvanced(s, a, r, v);
      } else if v :| Offers(s, a, d, v) && RestFetchable(s, a, Advance(r, v), Some(Wanted(r))) {
        RestAdvanced(s, a, r, v);
      }
    }
  }

  lemma NextPart(s: Network, a: Addr, d: Id) returns (v: Bytes)
    requires Needs(s, a, d) && s.nodes[a].downloads[d].waiting.None?
    requires Fetchable(s, a, Wanted(s.nodes[a].downloads[d]))
    ensures Offers(s, a, d, v)
  {
    var key := Wanted(s.nodes[a].downloads[d]);
    if key in s.nodes[a].store {
      v := s.nodes[a].store[key];
    } else {
      var b :| Askable(s, a, b, key);
      v := s.nodes[b].store[key];
    }
  }

  lemma RestAdvanced(s: Network, a: Addr, r: Running, v: Bytes)
    requires a in s.nodes && NeedsMore(r) && r.got != []
    ensures RestFetchable(s, a, r, None) <==>
              Fetchable(s, a, Wanted(r)) && RestFetchable(s, a, Advance(r, v), Some(Wanted(r)))
  {
    var r' := Advance(r, v);
    assert r'.got[0] == r.got[0] && KeyAt(r, |r.got|) == Wanted(r);
    assert forall i: nat :: i <= |Split(r.got[0])| ==> KeyAt(r', i) == KeyAt(r, i);
  }

  // ---- what the steps of a download keep ----

  /** Everything that Fetchable looks at is the same, but a may have got the key. */
  ghost predicate SameBut(s: Network, s': Network, a: Addr, key: Option<Bytes>)
  {
    && s'.nodes.Keys == s.nodes.Keys
    && (forall b :: b in s.nodes ==> SameNode(s.nodes[b], s'.nodes[b], if b == a then key else None))
  }

  predicate SameNode(n: ShareNode, n': ShareNode, key: Option<Bytes>)
  {
    && n'.catalog == n.catalog && n'.routes == n.routes
    && n'.store.Keys == n.store.Keys + (if key.Some? then {key.value} else {})
  }

  lemma FetchableSame(s: Network, s': Network, a: Addr, key: Option<Bytes>, k: Bytes)
    requires a in s.nodes && SameBut(s, s', a, key)
    ensures Fetchable(s', a, k) <==> Fetchable(s, a, k) || Some(k) == key
  {
    assert SameNode(s.nodes[a], s'.nodes[a], key);
    forall b | b in s.nodes && b != a
      ensures Askable(s', a, b, k) <==> Askable(s, a, b, k)
    {
      assert SameNode(s.nodes[b], s'.nodes[b], None);
    }
  }

  lemma RestSame(s: Network, s': Network, a: Addr, key: Option<Bytes>, r: Running)
    requires a in s.nodes && SameBut(s, s', a, key)
    ensures RestFetchable(s', a, r, None) <==> RestFetchable(s, a, r, key)
  {
    if r.got != [] {
      forall i: nat | |r.got| <= i <= |Split(r.got[0])|
        ensures Fetchable(s', a, KeyAt(r, i)) <==> Fetchable(s, a, KeyAt(r, i)) || Some(KeyAt(r, i)) == key
      {
        FetchableSame(s, s', a, key, KeyAt(r, i));
      }
    }
  }

  lemma RestStays(s: Network, s': Network, a: Addr, key: Option<Bytes>, r: Running)
    requires a in s.nodes && SameBut(s, s', a, None)
    ensures RestFetchable(s', a, r, key) <==> RestFetchable(s, a, r, key)
  {
    if r.got != [] {
      forall i: nat | |r.got| <= i <= |Split(r.got[0])|
        ensures Fetchable(s', a, KeyAt(r, i)) <==> Fetchable(s, a, KeyAt(r, i))
      {
        FetchableSame(s, s', a, None, KeyAt(r, i));
      }
    }
  }

  /** One part more: v, which a now stores too. */
  ghost predicate Got(s: Network, s': Network, a: Addr, d: Id, v: Bytes)
    requires Needs(s, a, d)
  {
    && Active(s', a, d) && s'.nodes[a].downloads[d] == Advance(s.nodes[a].downloads[d], v)
    && SameBut(s, s', a, Some(Wanted(s.nodes[a].downloads[d])))
  }

  /**
   * A part that was offered and got: the download was available before exactly if it is so after.
   */
  lemma AcrossPart(s: Network, s': Network, a: Addr, d: Id, v: Bytes)
    requires Needs(s, a, d) && Offers(s, a, d, v) && Got(s, s', a, d, v) && InBounds(s'.nodes[a].downloads[d])
    ensures var r := s.nodes[a].downloads[d];
            Available(s', a, d) <==> RestFetchable(s, a, Advance(r, v), Some(Wanted(r)))
  {
    var r := s.nodes[a].downloads[d];
    AvailableIdle(s', a, d);
    RestSame(s, s', a, Some(Wanted(r)), Advance(r, v));
  }

  // ---- getting one part ----

  /** The reply is received. */
  lemma ReceiveIt(h: Hash, s: Network, a: Addr, d: Id, i: nat, v: Bytes)
    requires Needs(s, a, d) && s.nodes[a].downloads[d].waiting.Some? && i < |s.net| && s.net[i].destination == a
    requires var r := s.nodes[a].downloads[d];
             s.net[i].msg == DataReply(r.waiting.value.id, Wanted(r), Some(v))
    ensures Enabled(s, Receive(i, d)) && Fetches(s, Receive(i, d), a, d)
    ensures Got(s, Apply(h, s, Receive(i, d)), a, d, v)
  {
  }

  /** The request in flight is answered. */
  lemma AnswerIt(h: Hash, s: Network, a: Addr, d: Id, i: nat, v: Bytes)
    requires Needs(s, a, d) && s.nodes[a].downloads[d].waiting.Some? && i < |s.net|
    requires var r := s.nodes[a].downloads[d];
             var w := r.waiting.value;
             Answering(s, a, r, w, v) && s.net[i] == RequestOf(a, r, w.peer, w.id)
    ensures Enabled(s, Answer(i))
    ensures var s' := Apply(h, s, Answer(i));
            var r := s.nodes[a].downloads[d];
            && s'.nodes == s.nodes && s'.net != [] && s'.net[|s'.net| - 1].destination == a
            && s'.net[|s'.net| - 1].msg == DataReply(r.waiting.value.id, Wanted(r), Some(v))
  {
  }

  lemma AnswerAndReceive(h: Hash, s: Network, a: Addr, d: Id, i: nat, v: Bytes) returns (steps: seq<Step>)
    requires Needs(s, a, d) && s.nodes[a].downloads[d].waiting.Some? && i < |s.net|
    requires var r := s.nodes[a].downloads[d];
             var w := r.waiting.value;
             Answering(s, a, r, w, v) && s.net[i] == RequestOf(a, r, w.peer, w.id)
    ensures FetchRun(h, s, steps, a, d) && Got(s, Exec(h, s, steps), a, d, v)
  {
    AnswerIt(h, s, a, d, i, v);
    FetchOne(h, s, Answer(i), a, d);
    var t := Apply(h, s, Answer(i));
    ReceiveIt(h, t, a, d, |t.net| - 1, v);
    FetchOneMore(h, s, [Answer(i)], Receive(|t.net| - 1, d), a, d);
    steps := [Answer(i)] + [Receive(|t.net| - 1, d)];
  }

  /** The request was sent, for the first time or again, and can now be answered. */
  ghost predicate Asked(s: Network, s': Network, a: Addr, d: Id, v: Bytes)
    requires Needs(s, a, d)
  {
    && Needs(s', a, d) && SameBut(s, s', a, None) && s'.net != []
    && var r := s'.nodes[a].downloads[d];
       && r.waiting.Some? && s.nodes[a].downloads[d] == r.(waiting := s.nodes[a].downloads[d].waiting)
       && Answering(s', a, r, r.waiting.value, v)
       && s'.net[|s'.net| - 1] == RequestOf(a, r, r.waiting.value.peer, r.waiting.value.id)
  }

  lemma AskFirst(h: Hash, s: Network, a: Addr, d: Id, b: Addr, v: Bytes) returns (step: Step)
    requires Needs(s, a, d) && s.nodes[a].downloads[d].waiting.None?
    requires var key := Wanted(s.nodes[a].downloads[d]);
             key !in s.nodes[a].store && Askable(s, a, b, key) && v == s.nodes[b].store[key]
    ensures Enabled(s, step) && Fetches(s, step, a, d) && Asked(s, Apply(h, s, step), a, d, v)
  {
    var id := AboveAll(s.asked.Keys);
    step := Request(a, d, b, id);
    var r' := Apply(h, s, step).nodes[a].downloads[d];
    assert Wanted(r') == Wanted(s.nodes[a].downloads[d]);
  }

  lemma AskAgain(h: Hash, s: Network, a: Addr, d: Id, v: Bytes)
    requires Needs(s, a, d) && MayResend(s.nodes[a], s.nodes[a].downloads[d])
    requires var r := s.nodes[a].downloads[d]; Answering(s, a, r, r.waiting.value, v)
    ensures Enabled(s, Resend(a, d)) && Fetches(s, Resend(a, d), a, d)
    ensures Asked(s, Apply(h, s, Resend(a, d)), a, d, v)
  {
    var r' := Apply(h, s, Resend(a, d)).nodes[a].downloads[d];
    assert Wanted(r') == Wanted(s.nodes[a].downloads[d]);
  }

  /** A request id that was never used. */
  lemma {:induction false} AboveAll(used: set<Id>) returns (id: Id)
    ensures forall x :: x in used ==> x < id
  {
    if used == {} {
      id := 0;
    } else {
      var x :| x in used;
      var rest := AboveAll(used - {x});
      id := if rest > x then rest else x + 1;
      forall y | y in used
        ensures y < id
      {
        assert y == x || y in used - {x};
      }
    }
  }

  lemma AskThenReceive(h: Hash, s: Network, a: Addr, d: Id, step: Step, v: Bytes) returns (steps: seq<Step>)
    requires Needs(s, a, d) && Enabled(s, step) && Fetches(s, step, a, d) && Asked(s, Apply(h, s, step), a, d, v)
    ensures FetchRun(h, s, steps, a, d) && Got(s, Exec(h, s, steps), a, d, v)
  {
    FetchOne(h, s, step, a, d);
    var t := Apply(h, s, step);
    var rest := AnswerAndReceive(h, t, a, d, |t.net| - 1, v);
    FetchMore(h, s, [step], rest, a, d);
    steps := [step] + rest;
    GotAfterAsking(s, t, Exec(h, t, rest), a, d, v);
  }

  lemma GotAfterAsking(s: Network, t: Network, u: Network, a: Addr, d: Id, v: Bytes)
    requires Needs(s, a, d) && Asked(s, t, a, d, v) && Got(t, u, a, d, v)
    ensures Got(s, u, a, d, v)
  {
    assert Wanted(t.nodes[a].downloads[d]) == Wanted(s.nodes[a].downloads[d]);
    var key := Some(Wanted(s.nodes[a].downloads[d]));
    SameButTransitive(s, t, u, a, key);
  }

  lemma SameButTransitive(s: Network, t: Network, u: Network, a: Addr, key: Option<Bytes>)
    requires SameBut(s, t, a, None) && SameBut(t, u, a, key)
    ensures SameBut(s, u, a, key)
  {
    forall b | b in s.nodes
      ensures SameNode(s.nodes[b], u.nodes[b], if b == a then key else None)
    {
      assert SameNode(s.nodes[b], t.nodes[b], None);
      assert SameNode(t.nodes[b], u.nodes[b], if b == a then key else None);
    }
  }

  lemma ReadIt(h: Hash, s: Network, a: Addr, d: Id)
    requires Needs(s, a, d) && s.nodes[a].downloads[d].waiting.None?
    requires Wanted(s.nodes[a].downloads[d]) in s.nodes[a].store
    ensures FetchRun(h, s, [ReadLocal(a, d)], a, d)
    ensures Got(s, Exec(h, s, [ReadLocal(a, d)]), a, d, s.nodes[a].store[Wanted(s.nodes[a].downloads[d])])
  {
    FetchOne(h, s, ReadLocal(a, d), a, d);
  }

  /** Whatever the next part can be, the download can get. */
  lemma GetPart(h: Hash, s: Network, a: Addr, d: Id, v: Bytes) returns (steps: seq<Step>)
    requires Needs(s, a, d) && Offers(s, a, d, v)
    ensures FetchRun(h, s, steps, a, d) && Got(s, Exec(h, s, steps), a, d, v)
  {
    var r := s.nodes[a].downloads[d];
    var key := Wanted(r);
    match r.waiting {
      case None =>
        if key in s.nodes[a].store {
          ReadIt(h, s, a, d);
          steps := [ReadLocal(a, d)];
        } else {
          var b :| Askable(s, a, b, key) && v == s.nodes[b].store[key];
          var step := AskFirst(h, s, a, d, b, v);
          steps := AskThenReceive(h, s, a, d, step, v);
        }
      case Some(w) =>
        if Arriving(s, a, r, w, v) {
          var i :| 0 <= i < |s.net| && s.net[i].destination == a && s.net[i].msg == DataReply(w.id, key, Some(v));
          ReceiveIt(h, s, a, d, i, v);
          FetchOne(h, s, Receive(i, d), a, d);
          steps := [Receive(i, d)];
        } else if RequestOf(a, r, w.peer, w.id) in s.net {
          var i :| 0 <= i < |s.net| && s.net[i] == RequestOf(a, r, w.peer, w.id);
          steps := AnswerAndReceive(h, s, a, d, i, v);
        } else {
          AskAgain(h, s, a, d, v);
          steps := AskThenReceive(h, s, a, d, Resend(a, d), v);
        }
    }
  }

  // ---- an available download can finish ----

  ghost predicate RunningInBounds(s: Network, a: Addr, d: Id)
  {
    Active(s, a, d) && InBounds(s.nodes[a].downloads[d])
  }

  function PartsMissing(r: Running): nat
    requires r.got != [] && InBounds(r)
  {
    1 + |Split(r.got[0])| - |r.got|
  }

  lemma {:induction false} GetChunks(h: Hash, s: Network, a: Addr, d: Id) returns (steps: seq<Step>)
    requires RunningInBounds(s, a, d) && Available(s, a, d) && s.nodes[a].downloads[d].got != []
    ensures Finishes(h, s, steps, a, d)
    decreases PartsMissing(s.nodes[a].downloads[d])
  {
    var r := s.nodes[a].downloads[d];
    if Complete(r) {
      steps := [];
    } else {
      var v :| Offers(s, a, d, v) && RestFetchable(s, a, Advance(r, v), Some(Wanted(r)));
      var first := GetPart(h, s, a, d, v);
      var t := Exec(h, s, first);
      assert t.nodes[a].downloads[d].got[0] == r.got[0];
      AcrossPart(s, t, a, d, v);
      var rest := GetChunks(h, t, a, d);
      FetchMore(h, s, first, rest, a, d);
      steps := first + rest;
    }
  }

  /** From any state in which it is available, the download's own steps and answers can finish it. */
  lemma CanFinish(h: Hash, s: Network, a: Addr, d: Id) returns (steps: seq<Step>)
    requires RunningInBounds(s, a, d) && Available(s, a, d)
    ensures Finishes(h, s, steps, a, d)
  {
    var r := s.nodes[a].downloads[d];
    if r.got != [] {
      steps := GetChunks(h, s, a, d);
    } else {
      var v :| Offers(s, a, d, v) && RestFetchable(s, a, Advance(r, v), Some(Wanted(r)));
      var first := GetPart(h, s, a, d, v);
      var t := Exec(h, s, first);
      assert t.nodes[a].downloads[d].got == [v];
      AcrossPart(s, t, a, d, v);
      var rest := GetChunks(h, t, a, d);
      FetchMore(h, s, first, rest, a, d);
      steps := first + rest;
    }
  }

  // ---- a download that can finish is available ----

  lemma BackRead(h: Hash, s: Network, a: Addr, d: Id)
    requires Inv(h, s) && Enabled(s, ReadLocal(a, d)) && Available(Apply(h, s, ReadLocal(a, d)), a, d)
    requires RunningInBounds(Apply(h, s, ReadLocal(a, d)), a, d)
    ensures Available(s, a, d)
  {
    var v := s.nodes[a].store[Wanted(s.nodes[a].downloads[d])];
    AcrossPart(s, Apply(h, s, ReadLocal(a, d)), a, d, v);
  }

  lemma BackReceive(h: Hash, s: Network, a: Addr, d: Id, i: nat)
    requires Inv(h, s) && Enabled(s, Receive(i, d)) && Fetches(s, Receive(i, d), a, d)
    requires Available(Apply(h, s, Receive(i, d)), a, d)
    requires RunningInBounds(Apply(h, s, Receive(i, d)), a, d)
    ensures Available(s, a, d)
  {
    var p := s.net[i];
    var r := s.nodes[a].downloads[d];
    assert NodeInv(h, s.hist, s.asked, s.nodes[a]) && PacketInv(h, s.hist, s.asked, p);
    assert RunningInv(h, s.hist, s.asked, r);
    var v := p.msg.value.value;
    assert Arriving(s, a, r, r.waiting.value, v);
    ReceiveIt(h, s, a, d, i, v);
    AcrossPart(s, Apply(h, s, Receive(i, d)), a, d, v);
  }

  /** The download waits for a reply after the step, and has got nothing more by it. */
  lemma BackAsked(s: Network, s': Network, a: Addr, d: Id)
    requires Needs(s, a, d) && Needs(s', a, d) && SameBut(s, s', a, None) && Available(s', a, d)
    requires s.nodes[a].downloads[d] == s'.nodes[a].downloads[d].(waiting := s.nodes[a].downloads[d].waiting)
    requires forall v :: Offers(s', a, d, v) ==> Offers(s, a, d, v)
    ensures Available(s, a, d)
  {
    var r, r' := s.nodes[a].downloads[d], s'.nodes[a].downloads[d];
    assert Wanted(r) == Wanted(r');
    var v :| Offers(s', a, d, v) && RestFetchable(s', a, Advance(r', v), Some(Wanted(r')));
    assert Advance(r', v) == Advance(r, v);
    RestStays(s, s', a, Some(Wanted(r)), Advance(r, v));
  }

  lemma BackRequest(h: Hash, s: Network, a: Addr, d: Id, b: Addr, id: Id)
    requires Inv(h, s) && Enabled(s, Request(a, d, b, id)) && Available(Apply(h, s, Request(a, d, b, id)), a, d)
    ensures Available(s, a, d)
  {
    var s' := Apply(h, s, Request(a, d, b, id));
    RequestLooks(h, s, a, d, b, id);
    forall v | Offers(s', a, d, v)
      ensures Offers(s, a, d, v)
    {
      RequestOffers(h, s, a, d, b, id, v);
    }
    BackAsked(s, s', a, d);
  }

  lemma RequestLooks(h: Hash, s: Network, a: Addr, d: Id, b: Addr, id: Id)
    requires Enabled(s, Request(a, d, b, id))
    ensures var s' := Apply(h, s, Request(a, d, b, id));
            && Needs(s, a, d) && Needs(s', a, d) && SameBut(s, s', a, None)
            && s'.nodes[a].downloads[d] == s.nodes[a].downloads[d].(waiting := Some(Waiting(id, b, 0)))
            && s.nodes[a].downloads[d].waiting.None?
            && Wanted(s'.nodes[a].downloads[d]) == Wanted(s.nodes[a].downloads[d])
  {
  }

  /** The stores, routes and catalogs are the same, and no reply with this id is in flight. */
  ghost predicate NoReplyYet(s: Network, s': Network, id: Id)
  {
    && s'.nodes.Keys == s.nodes.Keys
    && (forall x :: x in s.nodes ==> s'.nodes[x].store == s.nodes[x].store && s'.nodes[x].routes == s.nodes[x].routes)
    && forall i :: 0 <= i < |s'.net| && s'.net[i].msg.DataReply? ==> s'.net[i].msg.id != id
  }

  lemma RequestNotAnswered(h: Hash, s: Network, a: Addr, d: Id, b: Addr, id: Id)
    requires Inv(h, s) && Enabled(s, Request(a, d, b, id))
    ensures NoReplyYet(s, Apply(h, s, Request(a, d, b, id)), id)
  {
    var s' := Apply(h, s, Request(a, d, b, id));
    forall i | 0 <= i < |s'.net| && s'.net[i].msg.DataReply?
      ensures s'.net[i].msg.id != id
    {
      NoPackets(h, s, id, i, s'.net[i]);
    }
  }

  /** What a request can bring to which nothing was replied, its peer holds. */
  lemma AskedOffers(s: Network, s': Network, a: Addr, d: Id, b: Addr, id: Id, v: Bytes)
    requires Needs(s, a, d) && Needs(s', a, d) && NoReplyYet(s, s', id)
    requires Wanted(s'.nodes[a].downloads[d]) == Wanted(s.nodes[a].downloads[d])
    requires Wanted(s.nodes[a].downloads[d]) !in s.nodes[a].store
    requires s.nodes[a].downloads[d].waiting.None? && s'.nodes[a].downloads[d].waiting == Some(Waiting(id, b, 0))
    requires Listed(s.nodes[a].catalog, Wanted(s.nodes[a].downloads[d]), b) && b in s.nodes[a].routes
    requires Offers(s', a, d, v)
    ensures Offers(s, a, d, v)
  {
    assert Askable(s, a, b, Wanted(s.nodes[a].downloads[d]));
  }

  /** Nothing can have been replied to a new request, so what it can bring its peer holds. */
  lemma RequestOffers(h: Hash, s: Network, a: Addr, d: Id, b: Addr, id: Id, v: Bytes)
    requires Inv(h, s) && Enabled(s, Request(a, d, b, id))
    requires Offers(Apply(h, s, Request(a, d, b, id)), a, d, v)
    ensures Offers(s, a, d, v)
  {
    RequestLooks(h, s, a, d, b, id);
    RequestNotAnswered(h, s, a, d, b, id);
    AskedOffers(s, Apply(h, s, Request(a, d, b, id)), a, d, b, id, v);
  }

  /** A new request id is in no packet in flight. */
  lemma NoPackets(h: Hash, s: Network, id: Id, i: nat, p: DataPacket)
    requires Inv(h, s) && id !in s.asked
    ensures i < |s.net| && p == s.net[i] ==> p.msg.id != id
  {
    assert p in s.net ==> PacketInv(h, s.hist, s.asked, p);
  }

  lemma BackResend(h: Hash, s: Network, a: Addr, d: Id)
    requires Enabled(s, Resend(a, d)) && Available(Apply(h, s, Resend(a, d)), a, d)
    ensures Available(s, a, d)
  {
    var s' := Apply(h, s, Resend(a, d));
    var r, r' := s.nodes[a].downloads[d], s'.nodes[a].downloads[d];
    assert Wanted(r) == Wanted(r');
    forall v | Offers(s', a, d, v)
      ensures Offers(s, a, d, v)
    {
      var w, w' := r.waiting.value, r'.waiting.value;
      if Arriving(s', a, r', w', v) {
        assert Arriving(s, a, r, w, v);
      } else {
        assert Answering(s, a, r, w, v);
      }
    }
    BackAsked(s, s', a, d);
  }

  /** A reply that a node sends is in flight afterwards; before, it was, or its request was. */
  lemma BackAnswer(h: Hash, s: Network, a: Addr, d: Id, i: nat)
    requires Inv(h, s) && Enabled(s, Answer(i)) && Available(Apply(h, s, Answer(i)), a, d)
    ensures Available(s, a, d)
  {
    var s' := Apply(h, s, Answer(i));
    if Needs(s, a, d) {
      forall v | Offers(s', a, d, v)
        ensures Offers(s, a, d, v)
      {
        AnswerOffers(h, s, a, d, i, v);
      }
      BackAsked(s, s', a, d);
    }
  }

  lemma AnswerOffers(h: Hash, s: Network, a: Addr, d: Id, i: nat, v: Bytes)
    requires Inv(h, s) && Enabled(s, Answer(i)) && Needs(s, a, d) && Offers(Apply(h, s, Answer(i)), a, d, v)
    ensures Offers(s, a, d, v)
  {
    var s', r, p := Apply(h, s, Answer(i)), s.nodes[a].downloads[d], s.net[i];
    if r.waiting.Some? {
      var w := r.waiting.value;
      RemoveAtMembers(s.net, i);
      if Arriving(s', a, r, w, v) {
        var j :| && 0 <= j < |s'.net| && s'.net[j].destination == a
                 && s'.net[j].msg == DataReply(w.id, Wanted(r), Some(v));
        var q := s'.net[j];
        if q in s.net {
          assert Arriving(s, a, r, w, v);
        } else {
          assert q == AnswerOf(s.nodes[p.destination], p);
          AskedOnce(h, s, a, d, p);
          assert Answering(s, a, r, w, v);
        }
      } else {
        assert Answering(s, a, r, w, v);
      }
    } else {
      assert forall b, key :: Askable(s', a, b, key) <==> Askable(s, a, b, key);
    }
  }

  /** A request in flight under the id that a download waits for went to the peer it asked. */
  lemma AskedOnce(h: Hash, s: Network, a: Addr, d: Id, p: DataPacket)
    requires Inv(h, s) && Needs(s, a, d) && s.nodes[a].downloads[d].waiting.Some?
    requires p in s.net && p.msg.DataRequest? && p.source == a
    requires p.msg.id == s.nodes[a].downloads[d].waiting.value.id
    ensures var r := s.nodes[a].downloads[d]; p == RequestOf(a, r, r.waiting.value.peer, r.waiting.value.id)
  {
    assert NodeInv(h, s.hist, s.asked, s.nodes[a]) && PacketInv(h, s.hist, s.asked, p);
    assert RunningInv(h, s.hist, s.asked, s.nodes[a].downloads[d]);
  }

  lemma BackStep(h: Hash, s: Network, step: Step, a: Addr, d: Id)
    requires Inv(h, s) && Enabled(s, step) && Fetches(s, step, a, d) && Available(Apply(h, s, step), a, d)
    ensures Available(s, a, d)
  {
    InvStep(h, s, step);
    InBoundsInv(h, Apply(h, s, step), a, d);
    match step {
      case ReadLocal(_, _) => BackRead(h, s, a, d);
      case Request(_, _, b, id) => BackRequest(h, s, a, d, b, id);
      case Resend(_, _) => BackResend(h, s, a, d);
      case Answer(i) => BackAnswer(h, s, a, d, i);
      case Receive(i, _) => BackReceive(h, s, a, d, i);
    }
  }

  lemma InBoundsInv(h: Hash, s: Network, a: Addr, d: Id)
    requires Inv(h, s) && Active(s, a, d)
    ensures RunningInBounds(s, a, d)
  {
    assert NodeInv(h, s.hist, s.asked, s.nodes[a]);
    assert RunningInv(h, s.hist, s.asked, s.nodes[a].downloads[d]);
  }

  lemma {:induction false} BackRun(h: Hash, s: Network, steps: seq<Step>, a: Addr, d: Id)
    requires Inv(h, s) && FetchRun(h, s, steps, a, d) && Available(Exec(h, s, steps), a, d)
    ensures Available(s, a, d)
  {
    if steps != [] {
      var k := |steps| - 1;
      InvRun(h, s, steps[..k]);
      BackStep(h, Exec(h, s, steps[..k]), steps[k], a, d);
      BackRun(h, s, steps[..k], a, d);
    }
  }

  /**
   * In a state with the invariant, the steps of the download and the answers of its peers can finish it
   * if and only if it is available.
   */
  lemma FinishesExactly(h: Hash, s: Network, a: Addr, d: Id)
    requires Inv(h, s) && Active(s, a, d)
    ensures (exists steps :: Finishes(h, s, steps, a, d)) <==> Available(s, a, d)
  {
    if Available(s, a, d) {
      InBoundsInv(h, s, a, d);
      var steps := CanFinish(h, s, a, d);
    }
    if steps :| Finishes(h, s, steps, a, d) {
      BackRun(h, s, steps, a, d);
    }
  }

  lemma {:induction false} SameMetahash(h: Hash, s: Network, steps: seq<Step>, a: Addr, d: Id)
    requires FetchRun(h, s, steps, a, d) && Active(s, a, d) && Active(Exec(h, s, steps), a, d)
    ensures Exec(h, s, steps).nodes[a].downloads[d].metahash == s.nodes[a].downloads[d].metahash
    ensures Exec(h, s, steps).hist == s.hist
  {
    if steps != [] {
      var k := |steps| - 1;
      var t := Exec(h, s, steps[..k]);
      MetahashStep(h, t, steps[k], a, d);
      SameMetahash(h, s, steps[..k], a, d);
    }
  }

  lemma MetahashStep(h: Hash, s: Network, step: Step, a: Addr, d: Id)
    requires Enabled(s, step) && Fetches(s, step, a, d) && Active(Apply(h, s, step), a, d)
    ensures Active(s, a, d) && Apply(h, s, step).hist == s.hist
    ensures Apply(h, s, step).nodes[a].downloads[d].metahash == s.nodes[a].downloads[d].metahash
  {
  }

  /**
   * In every reachable state a download can be finished by its own steps and the answers of peers if and
   * only if it is available; and if its metahash is that of an upload, and the uploads neither collide
   * nor clash, every such run ends with exactly the uploaded bytes.
   */
  lemma DownloadFinishesIff(h: Hash, s0: Network, before: seq<Step>, a: Addr, d: Id)
    requires Init(s0) && ValidRun(h, s0, before) && Active(Exec(h, s0, before), a, d)
    ensures var s := Exec(h, s0, before);
            (exists steps :: Finishes(h, s, steps, a, d)) <==> Available(s, a, d)
    ensures var s := Exec(h, s0, before);
            Digest(h) && NoCollisions(h, s.hist) && NoClash(h, s.hist) ==>
              forall steps, cs :: Finishes(h, s, steps, a, d) && cs != [] && cs in s.hist.metas
                                  && s.nodes[a].downloads[d].metahash == Key(h, MetaEntry(cs)) ==>
                Result(Exec(h, s, steps).nodes[a].downloads[d]) == Concat(cs)
  {
    var s := Exec(h, s0, before);
    RunInv(h, s0, before);
    FinishesExactly(h, s, a, d);
    if Digest(h) && NoCollisions(h, s.hist) && NoClash(h, s.hist) {
      forall steps, cs | Finishes(h, s, steps, a, d) && cs != [] && cs in s.hist.metas
                         && s.nodes[a].downloads[d].metahash == Key(h, MetaEntry(cs))
        ensures Result(Exec(h, s, steps).nodes[a].downloads[d]) == Concat(cs)
      {
        RunsJoin(h, s0, before, steps);
        SameMetahash(h, s, steps, a, d);
        DownloadReturnsUpload(h, s0, before + steps, a, d, cs);
      }
    }
  }

  // ---- a download from its start ----

  /** What a can get as the value of the key: its own, or else that of a peer that it can ask. */
  ghost predicate CanBe(s: Network, a: Addr, key: Bytes, v: Bytes)
    requires a in s.nodes
  {
    if key in s.nodes[a].store then v == s.nodes[a].store[key]
    else exists b :: Askable(s, a, b, key) && v == s.nodes[b].store[key]
  }

  /** Some metafile that a can get, and each chunk that it lists, can be had. */
  ghost predicate FileFetchable(s: Network, a: Addr, metahash: Bytes)
    requires a in s.nodes
  {
    exists v :: CanBe(s, a, metahash, v) && ChunksFetchable(s, a, metahash, v)
  }

  ghost predicate ChunksFetchable(s: Network, a: Addr, metahash: Bytes, v: Bytes)
    requires a in s.nodes
  {
    forall i :: 0 <= i < |Split(v)| ==> Split(v)[i] == metahash || Fetchable(s, a, Split(v)[i])
  }

  lemma RestOfMetafile(s: Network, a: Addr, metahash: Bytes, v: Bytes)
    requires a in s.nodes
    ensures RestFetchable(s, a, Running(metahash, [v], None), Some(metahash)) <==> ChunksFetchable(s, a, metahash, v)
  {
    var r := Running(metahash, [v], None);
    if RestFetchable(s, a, r, Some(metahash)) {
      forall i | 0 <= i < |Split(v)|
        ensures Split(v)[i] == metahash || Fetchable(s, a, Split(v)[i])
      {
        assert KeyAt(r, i + 1) == Split(v)[i];
      }
    }
  }

  lemma FreshIsAvailable(s: Network, a: Addr, d: Id, metahash: Bytes)
    requires Active(s, a, d) && s.nodes[a].downloads[d] == Running(metahash, [], None)
    ensures Available(s, a, d) <==> FileFetchable(s, a, metahash)
  {
    var r := s.nodes[a].downloads[d];
    forall v
      ensures Offers(s, a, d, v) <==> CanBe(s, a, metahash, v)
      ensures RestFetchable(s, a, Advance(r, v), Some(Wanted(r))) <==> ChunksFetchable(s, a, metahash, v)
    {
      assert Advance(r, v) == Running(metahash, [v], None);
      RestOfMetafile(s, a, metahash, v);
    }
  }

  lemma StartKeeps(h: Hash, s: Network, a: Addr, d: Id, metahash: Bytes)
    requires Enabled(s, StartDownload(a, d, metahash))
    ensures var s' := Apply(h, s, StartDownload(a, d, metahash));
            && SameBut(s, s', a, None) && Active(s', a, d) && s'.hist == s.hist
            && s'.nodes[a].downloads[d] == Running(metahash, [], None)
            && forall b :: b in s.nodes ==> s'.nodes[b].store == s.nodes[b].store
  {
  }

  lemma FileStays(s: Network, s': Network, a: Addr, metahash: Bytes)
    requires a in s.nodes && SameBut(s, s', a, None)
    requires forall b :: b in s.nodes ==> s'.nodes[b].store == s.nodes[b].store
    ensures FileFetchable(s', a, metahash) <==> FileFetchable(s, a, metahash)
  {
    forall v
      ensures CanBe(s', a, metahash, v) <==> CanBe(s, a, metahash, v)
      ensures ChunksFetchable(s', a, metahash, v) <==> ChunksFetchable(s, a, metahash, v)
    {
      ValueStays(s, s', a, metahash, v);
      forall i | 0 <= i < |Split(v)|
        ensures Fetchable(s', a, Split(v)[i]) <==> Fetchable(s, a, Split(v)[i])
      {
        FetchableSame(s, s', a, None, Split(v)[i]);
      }
    }
  }

  lemma ValueStays(s: Network, s': Network, a: Addr, key: Bytes, v: Bytes)
    requires a in s.nodes && SameBut(s, s', a, None)
    requires forall b :: b in s.nodes ==> s'.nodes[b].store == s.nodes[b].store
    ensures CanBe(s', a, key, v) <==> CanBe(s, a, key, v)
  {
    assert SameNode(s.nodes[a], s'.nodes[a], None);
    forall b | b in s.nodes
      ensures Askable(s', a, b, key) <==> Askable(s, a, b, key)
    {
      assert SameNode(s.nodes[b], s'.nodes[b], None);
    }
  }

  /**
   * A download from its start. Started in any reachable state, it can be finished if and only if a
   * metafile for its metahash and then every chunk that it lists is stored at a or held by a peer that a
   * can ask; and a finished one of an upload's metahash has exactly the uploaded bytes, if the uploads
   * neither collide nor clash.
   */
  lemma StartedFinishesIff(h: Hash, s0: Network, before: seq<Step>, a: Addr, d: Id, metahash: Bytes)
    requires Init(s0) && ValidRun(h, s0, before) && Enabled(Exec(h, s0, before), StartDownload(a, d, metahash))
    ensures var s := Exec(h, s0, before);
            var t := Apply(h, s, StartDownload(a, d, metahash));
            (exists steps :: Finishes(h, t, steps, a, d)) <==> FileFetchable(s, a, metahash)
    ensures var s := Exec(h, s0, before);
            var t := Apply(h, s, StartDownload(a, d, metahash));
            Digest(h) && NoCollisions(h, s.hist) && NoClash(h, s.hist) ==>
              forall steps, cs :: Finishes(h, t, steps, a, d) && cs != [] && cs in s.hist.metas
                                  && metahash == Key(h, MetaEntry(cs)) ==>
                Result(Exec(h, t, steps).nodes[a].downloads[d]) == Concat(cs)
  {
    var s, step := Exec(h, s0, before), StartDownload(a, d, metahash);
    OneStep(h, s0, before, step);
    StartKeeps(h, s, a, d, metahash);
    DownloadFinishesIff(h, s0, before + [step], a, d);
    FreshIsAvailable(Apply(h, s, step), a, d, metahash);
    FileStays(s, Apply(h, s, step), a, metahash);
  }
}
