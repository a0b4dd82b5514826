/**
 * The naming store in every run: what a name stands for is what last named it, and a file that a reply
 * reported as full can be reported as full in turn once its parts are here (peer/impl/handlers.go,
 * peer/impl/searchFirst.go).
 */
module Naming {
  import opened Basics
  import opened Codec
  import opened SearchNode
  import opened SearchNetwork
  import opened FullFiles
  import opened OwnCatalog
  import opened FindAndFetch
  import Sharing = SharingNetwork
  import Agreement

  // ---- what a name stands for ----

  function Lookup(naming: map<Bytes, Bytes>, name: Bytes): Option<Bytes>
  {
    if name in naming then Some(naming[name]) else None
  }

  /** The last file info with this name, if any. */
  function LastInfo(responses: seq<FileInfo>, name: Bytes): Option<FileInfo>
  {
    if responses == [] then None
    else if responses[|responses| - 1].name == name then Some(responses[|responses| - 1])
    else LastInfo(responses[..|responses| - 1], name)
  }

  /** A handled reply gives a name the metahash of the last file info of that name, and names nothing else. */
  lemma {:induction false} ReplyNames(n: NodeState, responses: seq<FileInfo>, source: Addr, name: Bytes)
    ensures var last := LastInfo(responses, name);
            Lookup(HandleReply(n, responses, source).naming, name)
            == if last.Some? then Some(last.value.metahash) else Lookup(n.naming, name)
  {
    if responses != [] {
      ReplyNames(n, responses[..|responses| - 1], source, name);
    }
  }

  /** What the step names at a, if it is a tag there or a reply that a handles: the name's new metahash. */
  function Given(s: Network, step: Step, a: Addr, name: Bytes): Option<Bytes>
  {
    match step
    case Tag(at, x, metahash) => if at == a && x == name then Some(metahash) else None
    case Deliver(i, _) =>
      if i < |s.net| && s.net[i].sentTo == s.net[i].destination == a && s.net[i].msg.SearchReply? then
        var last := LastInfo(s.net[i].msg.responses, name);
        if last.Some? then Some(last.value.metahash) else None
      else None
    case _ => None
  }

  ghost function NameAt(s: Network, a: Addr, name: Bytes): Option<Bytes>
  {
    if a in s.nodes then Lookup(s.nodes[a].naming, name) else None
  }

  lemma NamesDeliver(matches: Matcher, s: Network, i: nat, c: Choice, a: Addr, name: Bytes)
    requires Named(s.nodes) && Enabled(matches, s, Deliver(i, c)) && a in s.nodes
    ensures a in Apply(matches, s, Deliver(i, c)).nodes
    ensures var given := Given(s, Deliver(i, c), a, name);
            NameAt(Apply(matches, s, Deliver(i, c)), a, name) == if given.Some? then given else NameAt(s, a, name)
  {
    var n, p := s.nodes[s.net[i].sentTo], s.net[i];
    if p.sentTo == a == p.destination && p.msg.SearchReply? {
      ReplyNames(n, p.msg.responses, p.source, name);
    } else if p.sentTo == a {
      assert HandlePacket(n, p, c).0.naming == n.naming;
    }
  }

  lemma NamesStep(matches: Matcher, s: Network, step: Step, a: Addr, name: Bytes)
    requires Named(s.nodes) && Enabled(matches, s, step) && a in s.nodes
    ensures a in Apply(matches, s, step).nodes
    ensures var given := Given(s, step, a, name);
            NameAt(Apply(matches, s, step), a, name) == if given.Some? then given else NameAt(s, a, name)
  {
    if step.Deliver? {
      NamesDeliver(matches, s, step.i, step.choice, a, name);
    }
  }

  /** What the name stands for at a by history: what the last step that named it gave it, or as at the start. */
  ghost predicate LastNamed(matches: Matcher, s: Network, steps: seq<Step>, a: Addr, name: Bytes, v: Option<Bytes>)
    requires ValidRun(matches, s, steps)
  {
    if steps == [] then v == NameAt(s, a, name)
    else
      var k := |steps| - 1;
      var given := Given(Exec(matches, s, steps[..k]), steps[k], a, name);
      if given.Some? then v == given else LastNamed(matches, s, steps[..k], a, name, v)
  }

  /**
   * Naming is exact. After every run, with loss and duplication, a name stands at a for what the last tag
   * there, or the last reply handled there that has a file info of this name, gave it: a reply gives it
   * the metahash of its last file info of this name.
   */
  lemma {:induction false} NamingExact(matches: Matcher, s0: Network, steps: seq<Step>,
                                       a: Addr, name: Bytes, v: Option<Bytes>)
    requires Init(s0) && ValidRun(matches, s0, steps) && a in s0.nodes
    ensures a in Exec(matches, s0, steps).nodes && Named(Exec(matches, s0, steps).nodes)
    ensures NameAt(Exec(matches, s0, steps), a, name) == v <==> LastNamed(matches, s0, steps, a, name, v)
  {
    if steps != [] {
      var k := |steps| - 1;
      NamingExact(matches, s0, steps[..k], a, name, v);
      var t := Exec(matches, s0, steps[..k]);
      NamedStep(matches, t, steps[k]);
      NamesStep(matches, t, steps[k], a, name);
    }
  }

  // ---- from a full report to a full file ----

  /** Each key that the file info mentions is stored. */
  ghost predicate PartsStored(blob: map<Bytes, Bytes>, fi: FileInfo)
  {
    forall key :: Mentions(fi, key) ==> key in blob
  }

  /** The parts that an exact report of a full file mentions make it whole wherever values agree. */
  lemma PartsMakeWhole(h: Hash, hist: Sharing.History, theirs: map<Bytes, Bytes>, mine: map<Bytes, Bytes>,
                       fi: FileInfo)
    requires Agreement.ValuesAgree(h, hist) && Sharing.StoreInv(h, hist, theirs) && Sharing.StoreInv(h, hist, mine)
    requires Exact(theirs, fi) && InfoIsFull(fi) && PartsStored(mine, fi)
    ensures WholeFile(mine, fi.metahash)
  {
    assert Mentions(fi, fi.metahash);
    SameValue(h, hist, theirs, mine, fi.metahash);
    forall key | key in Split(mine[fi.metahash])
      ensures key in mine
    {
      FullMentions(theirs, fi, key);
    }
  }

  /** The last reply handled at a with a file info of this name: the metahash it gave is fi's. */
  ghost predicate NamedBy(matches: Matcher, s0: Network, steps: seq<Step>, a: Addr, p: SearchPacket, fi: FileInfo)
    requires ValidRun(matches, s0, steps)
  {
    && Handled(matches, s0, steps, a, p) && p.msg.SearchReply? && fi in p.msg.responses
    && LastNamed(matches, s0, steps, a, fi.name, Some(fi.metahash))
  }

  /**
   * A file reported as full can be reported as full in turn. Take any run whose blob stores hold what
   * sound uploads put there, in which a handled a reply with a file info without missing chunks, and the
   * last step that named its name gave it this metahash. Once a stores each part that the file info
   * mentions, the file is full at a by the local test.
   */
  lemma ReportedBecomesFull(h: Hash, hist: Sharing.History, matches: Matcher, s0: Network, steps: seq<Step>,
                            a: Addr, p: SearchPacket, fi: FileInfo)
    requires Init(s0) && ValidRun(matches, s0, steps) && a in s0.nodes
    requires SoundUploads(h, hist) && UploadsOnly(h, hist, s0, steps)
    requires NamedBy(matches, s0, steps, a, p, fi) && InfoIsFull(fi)
    requires a in Exec(matches, s0, steps).nodes && PartsStored(Exec(matches, s0, steps).nodes[a].blob, fi)
    ensures FullLocally(Exec(matches, s0, steps).nodes[a], fi.name)
  {
    var nodes := Exec(matches, s0, steps).nodes;
    NamingExact(matches, s0, steps, a, fi.name, Some(fi.metahash));
    var sighting := HandledWasSeen(matches, s0, steps, a, p);
    ReportStaysExact(h, hist, matches, s0, steps, sighting, fi);
    UploadsSettle(h, hist, matches, s0, steps);
    Agreement.AgreementExact(h, hist);
    assert Sharing.StoreInv(h, hist, nodes[p.source].blob) && Sharing.StoreInv(h, hist, nodes[a].blob);
    PartsMakeWhole(h, hist, nodes[p.source].blob, nodes[a].blob, fi);
  }
}
