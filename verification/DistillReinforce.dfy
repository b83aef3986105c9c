/** Reinforcement: what a NOOP writes, and that access counts tell how often each record was
    named by one. */
module DistillReinforce {
  import opened Common
  import opened GraphStore
  import opened Distill
  import opened DistillSafety
  import opened DistillHistory
  import opened DistillChains
  import opened DistillCounts
  import opened DistillStale

  // ---- one NOOP ----------------------------------------------------------------------

  /** The fact a step's action names. */
  function Named(cfg: Config, st: Step): Key { Key(st.ns, ActionFor(st.winner, DecideStep(cfg, st)).winner) }

  predicate IsNoop(cfg: Config, st: Step) { ActionFor(st.winner, DecideStep(cfg, st)).kind == Noop }

  /** A NOOP names a stored visible fact with the incoming value. It leaves that fact's record with one access
      more and the pipeline's time of update, and nothing else: no other field, node, property or edge. */
  lemma NoopReinforces(cfg: Config, w: World, st: Step)
    requires Coherent(w.graph) && IsConflictList(w.graph, StepSlot(st), st.storeNow, st.hits) && IsNoop(cfg, st)
    ensures var g, g', k := w.graph, Advance(cfg, w, st).graph, Named(cfg, st);
      Conflicts(g, StepSlot(st), st.storeNow, k) && SameValue(g.nodes[k].blob, st.winner) && k != KeyOf(st.winner) &&
      g'.nodes.Keys == g.nodes.Keys && g'.supersededBy == g.supersededBy &&
      (forall j :: j in g.nodes && j != k ==> g'.nodes[j] == g.nodes[j]) &&
      g'.nodes[k].props == g.nodes[k].props &&
      g'.nodes[k].blob ==
        g.nodes[k].blob.(accessCount := g.nodes[k].blob.accessCount + 1, updatedAt := st.pipeNow)
  {
    DecisionSound(cfg, w, st);
    var c := DecideStep(cfg, st).identical;
    assert Conflicts(w.graph, StepSlot(st), st.storeNow, Key(st.ns, c.id));
    assert NodeCoherent(Key(st.ns, c.id), w.graph.nodes[Key(st.ns, c.id)]);
  }

  // ---- counts over a run -------------------------------------------------------------

  /** How many NOOPs of the run name the fact. */
  function NoopsNaming(cfg: Config, steps: seq<Step>, k: Key): nat
  {
    if steps == [] then 0
    else
      var last := steps[|steps| - 1];
      NoopsNaming(cfg, steps[..|steps| - 1], k) + if IsNoop(cfg, last) && Named(cfg, last) == k then 1 else 0
  }

  /** The access count a fact came with: what was stored before the run, or what the run's item carried. */
  function CameWith(g: Graph, steps: seq<Step>, k: Key): nat
  {
    if k in g.nodes then g.nodes[k].blob.accessCount
    else if steps == [] then 0
    else if KeyOf(steps[|steps| - 1].winner) == k then steps[|steps| - 1].winner.accessCount
    else CameWith(g, steps[..|steps| - 1], k)
  }

  /** Any other decision leaves the records that are stored as they are, and stores the new one as it came. */
  lemma OthersKeepCounts(cfg: Config, w: World, st: Step, k: Key)
    requires KeyOf(st.winner) !in w.graph.nodes && st.winner.ns == st.ns
    requires !IsNoop(cfg, st) && k in Advance(cfg, w, st).graph.nodes
    ensures var count := Advance(cfg, w, st).graph.nodes[k].blob.accessCount;
      if k in w.graph.nodes then count == w.graph.nodes[k].blob.accessCount
      else k == KeyOf(st.winner) && count == st.winner.accessCount
  {
    match DecideStep(cfg, st) {
      case Reinforce(_) =>
      case Insert(_) =>
      case Expire(n) => ExpireKeepsCounts(w.graph, st, n, k);
      case Replace(losers) =>
        SupersedeAllEffect(cfg, Write(w, st.winner), st.ns, st.winner, losers);
        RetiredKeepsCounts(w.graph, Advance(cfg, w, st).graph, st.winner, KeysOf(st.ns, losers), ValidAt(st.winner), k);
    }
  }

  lemma ExpireKeepsCounts(g: Graph, st: Step, n: Item, k: Key)
    requires KeyOf(st.winner) !in g.nodes
    requires k in Invalidate(Upsert(g, Expired(st.winner, n)), st.ns, st.winner.id, n.id, ValidAt(n),
      BY_MORE_RECENT).nodes
    ensures var written := Upsert(g, Expired(st.winner, n));
      var g' := Invalidate(written, st.ns, st.winner.id, n.id, ValidAt(n), BY_MORE_RECENT);
      if k in g.nodes then g'.nodes[k].blob.accessCount == g.nodes[k].blob.accessCount
      else k == KeyOf(st.winner) && g'.nodes[k].blob.accessCount == st.winner.accessCount
  {
  }

  lemma RetiredKeepsCounts(g: Graph, g': Graph, winner: Item, gone: set<Key>, at: Time, k: Key)
    requires Retired(Upsert(g, winner), g', gone, KeyOf(winner), at) && KeyOf(winner) !in g.nodes && k in g'.nodes
    ensures if k in g.nodes then g'.nodes[k].blob.accessCount == g.nodes[k].blob.accessCount
            else k == KeyOf(winner) && g'.nodes[k].blob.accessCount == winner.accessCount
  {
  }

  lemma {:induction false} NoneNamed(cfg: Config, w: World, steps: seq<Step>, k: Key)
    requires NewFacts(cfg, w, steps) && k !in Run(cfg, w, steps).graph.nodes
    ensures NoopsNaming(cfg, steps, k) == 0
  {
    if steps != [] {
      var last := |steps| - 1;
      var before, st := Run(cfg, w, steps[..last]), steps[last];
      LastArriving(cfg, w, steps);
      StepTook(cfg, before, st);
      StepNodes(before.graph, Run(cfg, w, steps).graph, st, DecideStep(cfg, st));
      NoneNamed(cfg, w, steps[..last], k);
      if IsNoop(cfg, st) {
        NoopReinforces(cfg, before, st);
      }
    }
  }

  lemma StepCounts(cfg: Config, w: World, st: Step, k: Key)
    requires Arriving(w, st) && k in Advance(cfg, w, st).graph.nodes
    ensures var count := Advance(cfg, w, st).graph.nodes[k].blob.accessCount;
      if k in w.graph.nodes then
        count == w.graph.nodes[k].blob.accessCount + (if IsNoop(cfg, st) && Named(cfg, st) == k then 1 else 0)
      else k == KeyOf(st.winner) && count == st.winner.accessCount && !IsNoop(cfg, st)
  {
    if IsNoop(cfg, st) {
      NoopReinforces(cfg, w, st);
    } else {
      OthersKeepCounts(cfg, w, st, k);
    }
  }

  /** Over a run of new ids, the access count of every stored record is what it came with plus the number of
      NOOPs that name it. */
  lemma {:induction false} RunCountsNoops(cfg: Config, w: World, steps: seq<Step>, k: Key)
    requires NewFacts(cfg, w, steps) && k in Run(cfg, w, steps).graph.nodes
    ensures Run(cfg, w, steps).graph.nodes[k].blob.accessCount ==
      CameWith(w.graph, steps, k) + NoopsNaming(cfg, steps, k)
  {
    if steps != [] {
      var last := |steps| - 1;
      var before, st := Run(cfg, w, steps[..last]), steps[last];
      LastArriving(cfg, w, steps);
      StepCounts(cfg, before, st, k);
      if k in before.graph.nodes {
        RunCountsNoops(cfg, w, steps[..last], k);
        assert k != KeyOf(st.winner);
      } else {
        NoneNamed(cfg, w, steps[..last], k);
      }
    }
  }
}
