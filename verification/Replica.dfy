/**
 * A node's replica of every origin's rumors (peer/impl/status.go): a counter and a log per origin,
 * how a rumor extends it, and what a peer with another status is missing.
 */
module Replicas {
  import opened Basics
  import opened Messages

  datatype Replica = Replica(counters: StatusMessage, logs: map<Addr, seq<Rumor>>)

  function LogOf(r: Replica, o: Addr): seq<Rumor>
  {
    if o in r.logs then r.logs[o] else []
  }

  /** Entry k of an origin's log is that origin's rumor number k + 1. */
  ghost predicate Numbered(log: seq<Rumor>, o: Addr)
  {
    forall k :: 0 <= k < |log| ==> log[k].origin == o && log[k].sequence == k + 1
  }

  /** Counters and logs have the same keys; a counter is the length of a non-empty, numbered log. */
  ghost predicate Wf(r: Replica)
  {
    forall o :: WfAt(r, o)
  }

  ghost predicate WfAt(r: Replica, o: Addr)
  {
    && (o in r.counters <==> o in r.logs)
    && (o in r.counters ==> r.counters[o] > 0)
    && SeqOf(r.counters, o) == |LogOf(r, o)|
    && Numbered(LogOf(r, o), o)
  }

  function Update(r: Replica, node: Addr, rumor: Rumor): Replica
  {
    Replica(r.counters[node := SeqOf(r.counters, node) + 1], r.logs[node := LogOf(r, node) + [rumor]])
  }

  predicate Expected(r: Replica, rumor: Rumor)
  {
    SeqOf(r.counters, rumor.origin) + 1 == rumor.sequence
  }

  function Accept(r: Replica, rumor: Rumor): Replica
  {
    if Expected(r, rumor) then Update(r, rumor.origin, rumor) else r
  }

  function AcceptAll(r: Replica, rs: seq<Rumor>): Replica
  {
    if rs == [] then r else Accept(AcceptAll(r, rs[..|rs| - 1]), rs[|rs| - 1])
  }

  /** The part of o's log that a peer with status `others` does not have. */
  ghost function Missing(r: Replica, others: StatusMessage, o: Addr): seq<Rumor>
  {
    if SeqOf(others, o) < |LogOf(r, o)| then LogOf(r, o)[SeqOf(others, o)..] else []
  }

  /** rs holds, for every origin, exactly the missing segment in order; how origins interleave is free. */
  ghost predicate IsDelta(r: Replica, others: StatusMessage, rs: seq<Rumor>)
  {
    forall o :: PerOrigin(rs, o) == Missing(r, others, o)
  }

  lemma UpdateWf(r: Replica, rumor: Rumor)
    requires Wf(r) && Expected(r, rumor)
    ensures Wf(Update(r, rumor.origin, rumor))
  {
    forall o
      ensures WfAt(Update(r, rumor.origin, rumor), o)
    {
      assert WfAt(r, o);
    }
  }

  lemma {:induction false} AcceptAllWf(r: Replica, rs: seq<Rumor>)
    requires Wf(r)
    ensures Wf(AcceptAll(r, rs))
  {
    if rs != [] {
      var r' := AcceptAll(r, rs[..|rs| - 1]);
      AcceptAllWf(r, rs[..|rs| - 1]);
      if Expected(r', rs[|rs| - 1]) {
        UpdateWf(r', rs[|rs| - 1]);
      }
    }
  }

  /** Counters only grow. */
  lemma {:induction false} AcceptAllGrows(r: Replica, rs: seq<Rumor>, o: Addr)
    ensures SeqOf(r.counters, o) <= SeqOf(AcceptAll(r, rs).counters, o)
  {
    if rs != [] {
      AcceptAllGrows(r, rs[..|rs| - 1], o);
    }
  }

  // ---- what a list of rumors does to one origin's log ----

  function Append(log: seq<Rumor>, r: Rumor): seq<Rumor>
  {
    if |log| + 1 == r.sequence then log + [r] else log
  }

  /** The effect of a list of rumors of one origin on that origin's log. */
  function Extend(log: seq<Rumor>, rs: seq<Rumor>): seq<Rumor>
  {
    if rs == [] then log else Append(Extend(log, rs[..|rs| - 1]), rs[|rs| - 1])
  }

  lemma AcceptAt(r: Replica, x: Rumor, o: Addr)
    requires Wf(r)
    ensures LogOf(Accept(r, x), o) == if x.origin == o then Append(LogOf(r, o), x) else LogOf(r, o)
  {
    assert WfAt(r, x.origin);
  }

  lemma ExtendOneMore(log: seq<Rumor>, rs: seq<Rumor>, r: Rumor)
    ensures Extend(log, rs + [r]) == Append(Extend(log, rs), r)
  {
    assert (rs + [r])[..|rs + [r]| - 1] == rs;
  }

  /** Origins do not interfere: an origin's log depends only on that origin's rumors, in order. */
  lemma {:induction false} AcceptAllPerOrigin(r: Replica, rs: seq<Rumor>, o: Addr)
    requires Wf(r)
    ensures LogOf(AcceptAll(r, rs), o) == Extend(LogOf(r, o), PerOrigin(rs, o))
  {
    if rs != [] {
      var n := |rs| - 1;
      AcceptAllPerOrigin(r, rs[..n], o);
      AcceptAllWf(r, rs[..n]);
      AcceptAt(AcceptAll(r, rs[..n]), rs[n], o);
      var part := PerOrigin(rs[..n], o);
      ExtendOneMore(LogOf(r, o), part, rs[n]);
    }
  }

  /** A contiguous segment that starts after position `from`, offered to a log of any length. */
  lemma {:induction false} ExtendSegment(log: seq<Rumor>, seg: seq<Rumor>, from: nat)
    requires forall k :: 0 <= k < |seg| ==> seg[k].sequence == from + k + 1
    ensures Extend(log, seg) ==
            if |log| < from || |log| > from + |seg| then log else log + seg[|log| - from..]
  {
    if seg != [] {
      var n := |seg| - 1;
      ExtendSegment(log, seg[..n], from);
      if from <= |log| <= from + n {
        assert seg[|log| - from..] == seg[..n][|log| - from..] + [seg[n]];
      }
    }
  }

  /** The longer of two logs. */
  function Longer(a: seq<Rumor>, b: seq<Rumor>): seq<Rumor>
  {
    if |a| < |b| then b else a
  }

  /**
   * Stale deltas are safe: a delta computed by a sender for an old status, applied at a receiver
   * whose counters have since reached at least that status, leaves exactly the longer of the two
   * logs for every origin, whatever the interleaving of origins in the message.
   */
  lemma StaleDelta(sender: Replica, old_: StatusMessage, receiver: Replica, rs: seq<Rumor>)
    requires Wf(sender) && Wf(receiver)
    requires IsDelta(sender, old_, rs)
    requires forall o :: SeqOf(old_, o) <= SeqOf(receiver.counters, o)
    requires forall o :: LogOf(sender, o) <= LogOf(receiver, o) || LogOf(receiver, o) <= LogOf(sender, o)
    ensures forall o :: LogOf(AcceptAll(receiver, rs), o) == Longer(LogOf(receiver, o), LogOf(sender, o))
    ensures forall o :: SeqOf(AcceptAll(receiver, rs).counters, o)
                        == Max(SeqOf(receiver.counters, o), SeqOf(sender.counters, o))
  {
    AcceptAllWf(receiver, rs);
    forall o
      ensures LogOf(AcceptAll(receiver, rs), o) == Longer(LogOf(receiver, o), LogOf(sender, o))
      ensures SeqOf(AcceptAll(receiver, rs).counters, o)
              == Max(SeqOf(receiver.counters, o), SeqOf(sender.counters, o))
    {
      StaleDeltaAt(sender, old_, receiver, rs, o);
    }
  }

  /** The same for one origin's logs. */
  lemma ExtendMissing(log: seq<Rumor>, full: seq<Rumor>, o: Addr, from: nat)
    requires Numbered(full, o) && from <= |log|
    requires full <= log || log <= full
    ensures Extend(log, if from < |full| then full[from..] else []) == Longer(log, full)
  {
    var seg := if from < |full| then full[from..] else [];
    ExtendSegment(log, seg, from);
    if from < |full| && |log| <= |full| {
      assert seg[|log| - from..] == full[|log|..];
      assert log + full[|log|..] == full;
    }
  }

  lemma StaleDeltaAt(sender: Replica, old_: StatusMessage, receiver: Replica, rs: seq<Rumor>, o: Addr)
    requires Wf(sender) && Wf(receiver)
    requires PerOrigin(rs, o) == Missing(sender, old_, o)
    requires SeqOf(old_, o) <= SeqOf(receiver.counters, o)
    requires LogOf(sender, o) <= LogOf(receiver, o) || LogOf(receiver, o) <= LogOf(sender, o)
    ensures LogOf(AcceptAll(receiver, rs), o) == Longer(LogOf(receiver, o), LogOf(sender, o))
    ensures SeqOf(AcceptAll(receiver, rs).counters, o)
            == Max(SeqOf(receiver.counters, o), SeqOf(sender.counters, o))
  {
    assert WfAt(sender, o);
    assert WfAt(receiver, o);
    AcceptAllPerOrigin(receiver, rs, o);
    ExtendMissing(LogOf(receiver, o), LogOf(sender, o), o, SeqOf(old_, o));
    AcceptAllWf(receiver, rs);
    assert WfAt(AcceptAll(receiver, rs), o);
  }

  /** A segment that starts beyond the receiver's log is refused: nothing is accepted out of order. */
  lemma GapIsRefused(r: Replica, rs: seq<Rumor>, o: Addr, from: nat)
    requires Wf(r) && SeqOf(r.counters, o) < from
    requires forall k :: 0 <= k < |PerOrigin(rs, o)| ==> PerOrigin(rs, o)[k].sequence == from + k + 1
    ensures LogOf(AcceptAll(r, rs), o) == LogOf(r, o)
  {
    AcceptAllPerOrigin(r, rs, o);
    assert WfAt(r, o);
    ExtendSegment(LogOf(r, o), PerOrigin(rs, o), from);
  }

  // ---- comparing two statuses, origin by origin ----

  /** What the comparison loops have established once the origins in `seen` were visited. */
  ghost predicate Visited(r: Replica, others: StatusMessage, seen: set<Addr>,
                          iHaveNew: bool, otherHasNew: bool, rs: seq<Rumor>)
  {
    && (iHaveNew <==> AheadWithin(seen, r.counters, others))
    && (otherHasNew <==> AheadWithin(seen, others, r.counters))
    && DeltaWithin(seen, r, others, rs)
  }

  ghost predicate AheadWithin(seen: set<Addr>, a: StatusMessage, b: StatusMessage)
  {
    exists o :: o in seen && SeqOf(b, o) < SeqOf(a, o)
  }

  ghost predicate DeltaWithin(seen: set<Addr>, r: Replica, others: StatusMessage, rs: seq<Rumor>)
  {
    forall o :: PerOrigin(rs, o) == if o in seen then Missing(r, others, o) else []
  }

  lemma AheadOneMore(seen: set<Addr>, a: StatusMessage, b: StatusMessage, node: Addr)
    ensures AheadWithin(seen + {node}, a, b) <==> AheadWithin(seen, a, b) || SeqOf(b, node) < SeqOf(a, node)
  {
    if AheadWithin(seen, a, b) {
      var o :| o in seen && SeqOf(b, o) < SeqOf(a, o);
      assert o in seen + {node};
    }
    assert node in seen + {node};
  }

  lemma DeltaOneMore(seen: set<Addr>, r: Replica, others: StatusMessage, rs: seq<Rumor>, node: Addr)
    requires Wf(r) && DeltaWithin(seen, r, others, rs) && node !in seen
    ensures DeltaWithin(seen + {node}, r, others, rs + Missing(r, others, node))
  {
    assert WfAt(r, node);
    var segment := Missing(r, others, node);
    forall o
      ensures PerOrigin(rs + segment, o) == if o in seen + {node} then Missing(r, others, o) else []
    {
      PerOriginConcat(rs, segment, o);
      PerOriginUniform(segment, node, o);
    }
  }

  lemma VisitOne(r: Replica, others: StatusMessage, seen: set<Addr>,
                 iHaveNew: bool, otherHasNew: bool, rs: seq<Rumor>, node: Addr,
                 seen': set<Addr>, iHaveNew': bool, otherHasNew': bool, rs': seq<Rumor>)
    requires Wf(r) && Visited(r, others, seen, iHaveNew, otherHasNew, rs) && node !in seen
    requires seen' == seen + {node}
    requires iHaveNew' == (iHaveNew || SeqOf(others, node) < SeqOf(r.counters, node))
    requires otherHasNew' == (otherHasNew || SeqOf(r.counters, node) < SeqOf(others, node))
    requires rs' == rs + Missing(r, others, node)
    ensures Visited(r, others, seen', iHaveNew', otherHasNew', rs')
  {
    AheadOneMore(seen, r.counters, others, node);
    AheadOneMore(seen, others, r.counters, node);
    DeltaOneMore(seen, r, others, rs, node);
  }

  lemma WholeLog(r: Replica, node: Addr)
    requires Wf(r) && node in r.counters
    ensures node in r.logs && |r.logs[node]| == r.counters[node]
    ensures r.logs[node][..r.counters[node]] == LogOf(r, node)
  {
    assert WfAt(r, node);
  }

  lemma VisitUnmentioned(r: Replica, others: StatusMessage, seen: set<Addr>,
                         iHaveNew: bool, otherHasNew: bool, rs: seq<Rumor>, node: Addr)
    requires Wf(r) && Visited(r, others, seen, iHaveNew, otherHasNew, rs)
    requires node in r.counters && node !in others && node !in seen
    ensures Visited(r, others, seen + {node}, true, otherHasNew, rs + LogOf(r, node))
  {
    assert WfAt(r, node);
    assert LogOf(r, node) == Missing(r, others, node);
    VisitOne(r, others, seen, iHaveNew, otherHasNew, rs, node, seen + {node}, true, otherHasNew,
             rs + Missing(r, others, node));
  }

  lemma VisitedAll(r: Replica, others: StatusMessage, iHaveNew: bool, otherHasNew: bool, rs: seq<Rumor>)
    requires Wf(r) && Visited(r, others, others.Keys + r.counters.Keys, iHaveNew, otherHasNew, rs)
    ensures iHaveNew <==> Ahead(r.counters, others)
    ensures otherHasNew <==> Ahead(others, r.counters)
    ensures IsDelta(r, others, rs)
  {
    var seen := others.Keys + r.counters.Keys;
    assert forall o :: o !in seen ==> SeqOf(others, o) == SeqOf(r.counters, o) == 0;
    forall o
      ensures PerOrigin(rs, o) == Missing(r, others, o)
    {
      assert WfAt(r, o);
    }
  }

  lemma {:induction false} DeltaUpTo(r: Replica, others: StatusMessage, keys: set<Addr>) returns (rs: seq<Rumor>)
    requires Wf(r)
    ensures DeltaWithin(keys, r, others, rs)
  {
    rs := [];
    if keys != {} {
      var node :| node in keys;
      rs := DeltaUpTo(r, others, keys - {node});
      DeltaOneMore(keys - {node}, r, others, rs, node);
      assert keys - {node} + {node} == keys;
      rs := rs + Missing(r, others, node);
    }
  }

  /** There always is a message with exactly the missing segments. */
  lemma DeltaExists(r: Replica, others: StatusMessage) returns (rs: seq<Rumor>)
    requires Wf(r)
    ensures IsDelta(r, others, rs)
  {
    rs := DeltaUpTo(r, others, r.counters.Keys);
    forall o
      ensures PerOrigin(rs, o) == Missing(r, others, o)
    {
      assert WfAt(r, o);
    }
  }

  // ---- the status object ----

  class Status {
    var statusMsg: StatusMessage
    var rumorsReceived: map<Addr, seq<Rumor>>

    ghost function State(): Replica
      reads this
    {
      Replica(statusMsg, rumorsReceived)
    }

    constructor ()
      ensures State() == Replica(map[], map[])
    {
      statusMsg, rumorsReceived := map[], map[];
    }

    method GetSeqForNode(node: Addr) returns (n: nat)
      ensures n == SeqOf(statusMsg, node)
    {
      n := if node in statusMsg then statusMsg[node] else 0;
    }

    /** A copy of the counters: later updates do not change it. */
    method GetStatusMsg() returns (copy: StatusMessage)
      ensures copy == statusMsg
    {
      copy := map[];
      var todo := statusMsg.Keys;
      while todo != {}
        invariant todo <= statusMsg.Keys
        invariant copy.Keys == statusMsg.Keys - todo
        invariant forall k :: k in copy ==> copy[k] == statusMsg[k]
        decreases todo
      {
        var k :| k in todo;
        copy := copy[k := statusMsg[k]];
        todo := todo - {k};
      }
    }

    /**
     * Compares with a peer's status, visiting both maps in any order. The two flags say exactly
     * who is ahead somewhere, and the rumors are exactly the peer's missing segments.
     */
    method CompareWithOthersStatus(others: StatusMessage)
      returns (iHaveNew: bool, otherHasNew: bool, rumorsNeedToSend: seq<Rumor>)
      requires Wf(State())
      ensures iHaveNew <==> Ahead(statusMsg, others)
      ensures otherHasNew <==> Ahead(others, statusMsg)
      ensures IsDelta(State(), others, rumorsNeedToSend)
    {
      iHaveNew, otherHasNew, rumorsNeedToSend := false, false, [];
      ghost var r, seen: set<Addr> := State(), {};
      var todo := others.Keys;
      while todo != {}
        invariant todo <= others.Keys && seen == others.Keys - todo
        invariant Visited(r, others, seen, iHaveNew, otherHasNew, rumorsNeedToSend)
        decreases todo
      {
        var node :| node in todo;
        ghost var i, o, rs := iHaveNew, otherHasNew, rumorsNeedToSend;
        var mySeq := if node in statusMsg then statusMsg[node] else 0;
        assert WfAt(State(), node);
        if mySeq < others[node] {
          otherHasNew := true;
        } else if mySeq > others[node] {
          iHaveNew := true;
          rumorsNeedToSend := rumorsNeedToSend + rumorsReceived[node][others[node]..mySeq];
        }
        assert Visited(r, others, seen + {node}, iHaveNew, otherHasNew, rumorsNeedToSend) by {
          assert rumorsNeedToSend == rs + Missing(r, others, node);
          VisitOne(r, others, seen, i, o, rs, node, seen + {node}, iHaveNew, otherHasNew, rumorsNeedToSend);
        }
        seen := seen + {node};
        todo := todo - {node};
      }
      iHaveNew, rumorsNeedToSend := CompareUnmentioned(others, iHaveNew, otherHasNew, rumorsNeedToSend);
      VisitedAll(r, others, iHaveNew, otherHasNew, rumorsNeedToSend);
    }

    /** The second loop: origins the peer's status does not mention. */
    method CompareUnmentioned(others: StatusMessage, iHaveNew0: bool, ghost otherHasNew: bool, rs0: seq<Rumor>)
      returns (iHaveNew: bool, rumorsNeedToSend: seq<Rumor>)
      requires Wf(State()) && Visited(State(), others, others.Keys, iHaveNew0, otherHasNew, rs0)
      ensures Visited(State(), others, others.Keys + statusMsg.Keys, iHaveNew, otherHasNew, rumorsNeedToSend)
    {
      iHaveNew, rumorsNeedToSend := iHaveNew0, rs0;
      ghost var r, seen := State(), others.Keys;
      var mine := statusMsg.Keys - others.Keys;
      while mine != {}
        invariant mine <= statusMsg.Keys - others.Keys && seen == others.Keys + statusMsg.Keys - mine
        invariant Visited(r, others, seen, iHaveNew, otherHasNew, rumorsNeedToSend)
        decreases mine
      {
        var node :| node in mine;
        WholeLog(State(), node);
        VisitUnmentioned(r, others, seen, iHaveNew, otherHasNew, rumorsNeedToSend, node);
        iHaveNew := true;
        rumorsNeedToSend := rumorsNeedToSend + rumorsReceived[node][..statusMsg[node]];
        seen := seen + {node};
        mine := mine - {node};
      }
      assert seen == others.Keys + statusMsg.Keys;
    }

    method UpdateForNewRumorFromNode(node: Addr, rumor: Rumor)
      modifies this
      ensures State() == Update(old(State()), node, rumor)
    {
      statusMsg := statusMsg[node := (if node in statusMsg then statusMsg[node] else 0) + 1];
      rumorsReceived := rumorsReceived[node := (if node in rumorsReceived then rumorsReceived[node] else []) + [rumor]];
    }
  }
}
