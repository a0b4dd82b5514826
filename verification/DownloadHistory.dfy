/**
 * What a run makes of a peer's downloads: whom the peer knows, which downloads run and for what, and that
 * a peer that knows nobody gets nothing (peer/impl/dataSharing.go).
 */
module DownloadHistory {
  import opened Basics
  import opened Codec
  import opened SharingNetwork
  import opened Availability

  // ---- whom a peer knows ----

  lemma ListedStep(h: Hash, s: Network, step: Step, a: Addr, key: Bytes, peer: Addr)
    requires Enabled(s, step) && a in s.nodes
    ensures a in Apply(h, s, step).nodes
    ensures Listed(Apply(h, s, step).nodes[a].catalog, key, peer)
            <==> Listed(s.nodes[a].catalog, key, peer) || step == Learn(a, key, peer)
    ensures Apply(h, s, step).nodes[a].routes
            == if step.Reroute? && step.at == a then step.routes else s.nodes[a].routes
  {
  }

  /** The routes that a was given last, or had at the start. */
  ghost function LastRoutes(s: Network, steps: seq<Step>, a: Addr): set<Addr>
    requires a in s.nodes
  {
    if steps == [] then s.nodes[a].routes
    else
      var k := |steps| - 1;
      if steps[k].Reroute? && steps[k].at == a then steps[k].routes else LastRoutes(s, steps[..k], a)
  }

  /**
   * Over every run a peer's catalog lists exactly what the peer learnt in it, whatever is stored, asked,
   * answered or given up, and its routes are those it was given last.
   */
  lemma {:induction false} KnownByHistory(h: Hash, s0: Network, steps: seq<Step>, a: Addr, key: Bytes, peer: Addr)
    requires Init(s0) && ValidRun(h, s0, steps) && a in s0.nodes
    ensures a in Exec(h, s0, steps).nodes
    ensures Listed(Exec(h, s0, steps).nodes[a].catalog, key, peer) <==> Learn(a, key, peer) in steps
    ensures Exec(h, s0, steps).nodes[a].routes == LastRoutes(s0, steps, a)
  {
    if steps != [] {
      var k := |steps| - 1;
      KnownByHistory(h, s0, steps[..k], a, key, peer);
      ListedStep(h, Exec(h, s0, steps[..k]), steps[k], a, key, peer);
      MemberLast(steps, Learn(a, key, peer));
    }
  }

  /** The metahash that the download d at a is for, if it runs. */
  ghost function Target(s: Network, a: Addr, d: Id): Option<Bytes>
  {
    if Active(s, a, d) then Some(s.nodes[a].downloads[d].metahash) else None
  }

  /** The step ends the download: it gives up, or receives a reply without a value. */
  ghost predicate Ends(s: Network, step: Step, a: Addr, d: Id)
  {
    match step
    case GiveUp(at, e) => at == a && e == d
    case Receive(i, e) =>
      && i < |s.net| && s.net[i].destination == a && e == d
      && s.net[i].msg.DataReply? && s.net[i].msg.value.None?
    case _ => false
  }

  lemma TargetStep(h: Hash, s: Network, step: Step, a: Addr, d: Id)
    requires Enabled(s, step)
    ensures Target(Apply(h, s, step), a, d)
            == if step.StartDownload? && step.at == a && step.d == d then Some(step.metahash)
               else if Ends(s, step, a, d) then None else Target(s, a, d)
  {
  }

  /** The metahash given to the last start of d at a that has not ended since, if any. */
  ghost predicate LastStarted(h: Hash, s: Network, steps: seq<Step>, a: Addr, d: Id, target: Option<Bytes>)
    requires ValidRun(h, s, steps)
  {
    if steps == [] then target == None
    else
      var k := |steps| - 1;
      if steps[k].StartDownload? && steps[k].at == a && steps[k].d == d then target == Some(steps[k].metahash)
      else if Ends(Exec(h, s, steps[..k]), steps[k], a, d) then target == None
      else LastStarted(h, s, steps[..k], a, d, target)
  }

  /**
   * Over every run a download runs, and is for the metahash that it was started with, exactly if it was
   * started and has neither given up nor received a reply without a value since.
   */
  lemma {:induction false} RunsByHistory(h: Hash, s0: Network, steps: seq<Step>, a: Addr, d: Id, target: Option<Bytes>)
    requires Init(s0) && ValidRun(h, s0, steps)
    ensures Target(Exec(h, s0, steps), a, d) == target <==> LastStarted(h, s0, steps, a, d, target)
  {
    if steps != [] {
      var k := |steps| - 1;
      RunsByHistory(h, s0, steps[..k], a, d, target);
      TargetStep(h, Exec(h, s0, steps[..k]), steps[k], a, d);
    }
  }

  // ---- a peer that knows nobody ----

  /** The step tells a of a peer for some key, or uploads at a. */
  predicate Informs(step: Step, a: Addr)
  {
    (step.Learn? || step.PutChunk? || step.PutMetafile?) && step.at == a
  }

  /** Nothing stored, nothing listed, nothing asked and nothing got. */
  ghost predicate Clueless(n: ShareNode)
  {
    && n.store == map[] && n.catalog == map[]
    && forall d :: d in n.downloads ==> n.downloads[d].got == [] && n.downloads[d].waiting.None?
  }

  lemma CluelessStep(h: Hash, s: Network, step: Step, a: Addr)
    requires a in s.nodes && Clueless(s.nodes[a]) && Enabled(s, step) && !Informs(step, a)
    ensures a in Apply(h, s, step).nodes && Clueless(Apply(h, s, step).nodes[a])
  {
  }

  /**
   * Downloads alone find nobody. Over every run in which a uploads nothing and learns of no peer, each
   * download at a has no part and waits for nobody, however much the others hold.
   */
  lemma {:induction false} NobodyToAsk(h: Hash, s0: Network, steps: seq<Step>, a: Addr)
    requires Init(s0) && ValidRun(h, s0, steps) && a in s0.nodes && forall step :: step in steps ==> !Informs(step, a)
    ensures a in Exec(h, s0, steps).nodes && Clueless(Exec(h, s0, steps).nodes[a])
    ensures forall d :: d in Exec(h, s0, steps).nodes[a].downloads ==> !Available(Exec(h, s0, steps), a, d)
  {
    if steps != [] {
      var k := |steps| - 1;
      assert steps[k] in steps;
      NobodyToAsk(h, s0, steps[..k], a);
      CluelessStep(h, Exec(h, s0, steps[..k]), steps[k], a);
    }
  }
}
