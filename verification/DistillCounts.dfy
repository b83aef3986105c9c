/** What a whole run conserves: nothing is deleted, and the report's counts are the changes of the
    graph. */
module DistillCounts {
  import opened Common
  import opened GraphStore
  import opened Distill
  import opened DistillSafety
  import opened DistillHistory

  // ---- the report counts what changed ------------------------------------------------

  function SupersededKeys(g: Graph): set<Key>
  {
    set k | k in g.nodes && g.nodes[k].props.state == Superseded
  }

  lemma LosersApart(cfg: Config, winner: Item, hits: seq<Item>)
    requires forall i, j :: 0 <= i < j < |hits| ==> hits[i].id != hits[j].id
    ensures var ls := Losers(cfg, winner, Candidates(cfg, winner, hits));
      forall i, j :: 0 <= i < j < |ls| ==> ls[i].id != ls[j].id
  {
    FilterKeepsIdsApart((c: Item) => c.id != winner.id, hits);
    var others := Filter((c: Item) => c.id != winner.id, hits);
    var candidates := SliceTo(others, cfg.candidateK);
    assert candidates == others[..|candidates|];
    FilterKeepsIdsApart((c: Item) => Contradicts(cfg, winner, c), candidates);
  }

  lemma {:induction false} KeysOfSize(ns: string, items: seq<Item>)
    requires forall i, j :: 0 <= i < j < |items| ==> items[i].id != items[j].id
    ensures |KeysOf(ns, items)| == |items|
  {
    if items != [] {
      var last := |items| - 1;
      KeysOfSize(ns, items[..last]);
    }
  }

  /** Nothing leaves the graph, no assertion or start changes, and no superseded fact revives. */
  ghost predicate Kept(g: Graph, g': Graph)
  {
    forall k :: k in g.nodes ==> k in g'.nodes && KeptNode(g.nodes[k].props, g'.nodes[k].props)
  }

  predicate KeptNode(p: Props, p': Props)
  {
    p'.subj == p.subj && p'.pred == p.pred && p'.obj == p.obj && p'.polarity == p.polarity &&
    p'.validAt == p.validAt && (p.state == Superseded ==> p'.state == Superseded)
  }

  ghost predicate Incoming(g: Graph, g': Graph, st: Step, d: Decision)
  {
    Took(g, g', st, d) && NamesConflicts(g, st, d) &&
    st.winner.ns == st.ns && st.winner.state == Active && KeyOf(st.winner) !in g.nodes
  }

  lemma StepNodes(g: Graph, g': Graph, st: Step, d: Decision)
    requires Incoming(g, g', st, d)
    ensures g'.nodes.Keys == g.nodes.Keys + (if d.Reinforce? then {} else {KeyOf(st.winner)})
  {
    forall k
      ensures k in g'.nodes <==> k in g.nodes || (k == KeyOf(st.winner) && !d.Reinforce?)
    {
      assert PropsOf(g', k) == NextProps(g, st, d, k);
    }
  }

  /** The nodes a step retires. */
  function RetiredBy(st: Step, d: Decision): set<Key>
  {
    match d
    case Reinforce(_) => {}
    case Insert(_) => {}
    case Expire(_) => {KeyOf(st.winner)}
    case Replace(losers) => KeysOf(st.ns, losers)
  }

  lemma StepSuperseded(g: Graph, g': Graph, st: Step, d: Decision)
    requires Incoming(g, g', st, d)
    ensures SupersededKeys(g') == SupersededKeys(g) + RetiredBy(st, d)
    ensures SupersededKeys(g) !! RetiredBy(st, d)
  {
    forall k
      ensures k in SupersededKeys(g') <==> k in SupersededKeys(g) || k in RetiredBy(st, d)
      ensures k in RetiredBy(st, d) ==> k !in SupersededKeys(g)
    {
      assert PropsOf(g', k) == NextProps(g, st, d, k);
    }
  }

  predicate LosersDiffer(d: Decision)
  {
    d.Replace? ==> forall i, j :: 0 <= i < j < |d.losers| ==> d.losers[i].id != d.losers[j].id
  }

  lemma DecidedLosersDiffer(cfg: Config, winner: Item, hits: seq<Item>)
    requires forall i, j :: 0 <= i < j < |hits| ==> hits[i].id != hits[j].id
    ensures LosersDiffer(Decide(cfg, winner, hits))
  {
    LosersApart(cfg, winner, hits);
  }

  lemma RetiredCount(st: Step, d: Decision)
    requires LosersDiffer(d)
    ensures |RetiredBy(st, d)| == |ActionFor(st.winner, d).losers|
  {
    if d.Replace? {
      KeysOfSize(st.ns, d.losers);
    }
  }

  lemma ReportGrows(cfg: Config, steps: seq<Step>)
    requires steps != []
    ensures var last := |steps| - 1;
      var a, a0, d := Actions(cfg, steps), Actions(cfg, steps[..last]), DecideStep(cfg, steps[last]);
      NoopCount(a) == NoopCount(a0) + (if d.Reinforce? then 1 else 0) &&
      SupersededCount(a) == SupersededCount(a0) + |ActionFor(steps[last].winner, d).losers|
  {
    var last := |steps| - 1;
    var a := Actions(cfg, steps);
    assert a[..last] == Actions(cfg, steps[..last]);
    assert a[last] == ActionFor(steps[last].winner, DecideStep(cfg, steps[last]));
  }

  lemma StepKept(g: Graph, g': Graph, st: Step, d: Decision)
    requires Incoming(g, g', st, d)
    ensures Kept(g, g')
  {
    forall k | k in g.nodes
      ensures k in g'.nodes && KeptNode(g.nodes[k].props, g'.nodes[k].props)
    {
      assert PropsOf(g', k) == NextProps(g, st, d, k);
    }
  }

  lemma StepConserves(g: Graph, g': Graph, st: Step, d: Decision)
    requires Incoming(g, g', st, d)
    ensures |g'.nodes| == |g.nodes| + if d.Reinforce? then 0 else 1
    ensures |SupersededKeys(g')| == |SupersededKeys(g)| + |RetiredBy(st, d)|
    ensures Kept(g, g')
  {
    StepNodes(g, g', st, d);
    StepSuperseded(g, g', st, d);
    StepKept(g, g', st, d);
    assert |g.nodes| == |g.nodes.Keys| && |g'.nodes| == |g'.nodes.Keys|;
  }

  /** From `g` to `g'`: `facts` arrived, `noops` of them were already held, `retired` were superseded, and
      nothing stored was lost or rewritten. */
  ghost predicate Conserved(g: Graph, g': Graph, facts: nat, noops: nat, retired: nat)
  {
    |g'.nodes| == |g.nodes| + facts - noops &&
    |SupersededKeys(g')| == |SupersededKeys(g)| + retired &&
    Kept(g, g')
  }

  lemma ConservedTwice(g: Graph, g': Graph, g'': Graph, f: nat, n: nat, r: nat, f': nat, n': nat, r': nat)
    requires Conserved(g, g', f, n, r) && Conserved(g', g'', f', n', r')
    ensures Conserved(g, g'', f + f', n + n', r + r')
  {
    KeptTrans(g, g', g'');
  }

  /** One reconcile changes the graph by what its action reports. */
  lemma StepReported(cfg: Config, w: World, st: Step)
    requires Coherent(w.graph) && st.winner.ns == st.ns && st.winner.state == Active &&
      KeyOf(st.winner) !in w.graph.nodes
    requires IsConflictList(w.graph, StepSlot(st), st.storeNow, st.hits)
    ensures var d := DecideStep(cfg, st);
      Conserved(w.graph, Advance(cfg, w, st).graph, 1, if d.Reinforce? then 1 else 0, |ActionFor(st.winner, d).losers|)
  {
    var d := DecideStep(cfg, st);
    StepTook(cfg, w, st);
    StepConserves(w.graph, Advance(cfg, w, st).graph, st, d);
    DecidedLosersDiffer(cfg, st.winner, st.hits);
    RetiredCount(st, d);
  }

  /** A run of active facts under new ids. */
  ghost predicate NewFacts(cfg: Config, w: World, steps: seq<Step>)
  {
    Coherent(w.graph) && ValidRun(cfg, w, steps) && FreshIds(w.graph, steps) &&
    forall i :: 0 <= i < |steps| ==> steps[i].winner.state == Active
  }

  lemma LastNewFact(cfg: Config, w: World, steps: seq<Step>)
    requires NewFacts(cfg, w, steps) && steps != []
    ensures var last := |steps| - 1;
      NewFacts(cfg, w, steps[..last]) &&
      Conserved(Run(cfg, w, steps[..last]).graph, Run(cfg, w, steps).graph, 1,
                if DecideStep(cfg, steps[last]).Reinforce? then 1 else 0,
                |ActionFor(steps[last].winner, DecideStep(cfg, steps[last])).losers|)
  {
    var last := |steps| - 1;
    assert FreshIds(w.graph, steps[..last]);
    RunCoherent(cfg, w, steps[..last]);
    RunFresh(cfg, w, steps[..last], steps[last]);
    StepReported(cfg, Run(cfg, w, steps[..last]), steps[last]);
  }

  /** A window of facts under new ids: the graph grows by the facts that were not already held, the
      superseded facts grow by exactly the report's count, and nothing stored is lost or rewritten. */
  lemma {:induction false} RunConserves(cfg: Config, w: World, steps: seq<Step>)
    requires NewFacts(cfg, w, steps)
    ensures var report := Actions(cfg, steps);
      Conserved(w.graph, Run(cfg, w, steps).graph, |steps|, NoopCount(report), SupersededCount(report))
  {
    if steps != [] {
      var last := |steps| - 1;
      LastNewFact(cfg, w, steps);
      RunConserves(cfg, w, steps[..last]);
      ReportGrows(cfg, steps);
      var report, d := Actions(cfg, steps[..last]), DecideStep(cfg, steps[last]);
      ConservedTwice(w.graph, Run(cfg, w, steps[..last]).graph, Run(cfg, w, steps).graph,
                     last, NoopCount(report), SupersededCount(report),
                     1, if d.Reinforce? then 1 else 0, |ActionFor(steps[last].winner, d).losers|);
    }
  }

  lemma KeptTrans(g: Graph, g': Graph, g'': Graph)
    requires Kept(g, g') && Kept(g', g'')
    ensures Kept(g, g'')
  {
    forall k | k in g.nodes
      ensures k in g''.nodes && KeptNode(g.nodes[k].props, g''.nodes[k].props)
    {
      assert KeptNode(g.nodes[k].props, g'.nodes[k].props) && KeptNode(g'.nodes[k].props, g''.nodes[k].props);
    }
  }
}
