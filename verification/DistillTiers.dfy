/** The two tiers together: which facts that a run supersedes in the graph keep an active
    mid-term point. */
module DistillTiers {
  import opened Common
  import opened GraphStore
  import opened Distill
  import opened DistillSafety
  import opened DistillHistory
  import opened DistillCounts
  import opened DistillStale
  import opened DistillMidTerm

  /** The mid-term point a stored fact traces back to. */
  function PointOf(g: Graph, k: Key): Key
    requires k in g.nodes
  {
    Key(k.ns, PointId(g.nodes[k].blob))
  }

  /** The facts that expired on arrival. */
  function RunExpired(cfg: Config, steps: seq<Step>): set<Key>
  {
    if steps == [] then {}
    else
      var last := steps[|steps| - 1];
      RunExpired(cfg, steps[..|steps| - 1]) + if DecideStep(cfg, last).Expire? then {KeyOf(last.winner)} else {}
  }

  /** A run supersedes what it replaces and what expires on arrival. */
  lemma {:induction false} RunSupersedes(cfg: Config, w: World, steps: seq<Step>)
    requires NewFacts(cfg, w, steps)
    ensures SupersededKeys(Run(cfg, w, steps).graph) ==
      SupersededKeys(w.graph) + RunReplaced(cfg, steps) + RunExpired(cfg, steps)
  {
    if steps != [] {
      var last := |steps| - 1;
      var before, st := Run(cfg, w, steps[..last]), steps[last];
      LastArriving(cfg, w, steps);
      RunSupersedes(cfg, w, steps[..last]);
      StepTook(cfg, before, st);
      StepSuperseded(before.graph, Run(cfg, w, steps).graph, st, DecideStep(cfg, st));
      ReplacedKeys(st.ns, st.winner, DecideStep(cfg, st));
    }
  }

  // ---- points are stable -------------------------------------------------------------

  /** A stored fact keeps the source it was extracted from. */
  lemma StepKeepsPoint(cfg: Config, w: World, st: Step, k: Key)
    requires Arriving(w, st) && k in w.graph.nodes
    ensures k in Advance(cfg, w, st).graph.nodes
    ensures PointOf(Advance(cfg, w, st).graph, k) == PointOf(w.graph, k)
  {
    DecisionSound(cfg, w, st);
    match DecideStep(cfg, st) {
      case Reinforce(c) =>
        assert Conflicts(w.graph, StepSlot(st), st.storeNow, Key(st.ns, c.id));
        assert NodeCoherent(Key(st.ns, c.id), w.graph.nodes[Key(st.ns, c.id)]);
      case Insert(_) =>
      case Expire(_) =>
      case Replace(losers) =>
        SupersedeAllEffect(cfg, Write(w, st.winner), st.ns, st.winner, losers);
    }
  }

  lemma {:induction false} LoserPoint(ns: string, losers: seq<Item>, l: Item)
    requires l in losers
    ensures Key(ns, PointId(l)) in PointKeys(ns, losers)
  {
    var last := losers[|losers| - 1];
    assert losers == losers[..|losers| - 1] + [last];
    if l != last {
      LoserPoint(ns, losers[..|losers| - 1], l);
    }
  }

  lemma StepNamesPoint(cfg: Config, w: World, st: Step, k: Key)
    requires Arriving(w, st) && k in Replaced(st.ns, ActionFor(st.winner, DecideStep(cfg, st)))
    ensures k in w.graph.nodes && PointOf(w.graph, k) in StepPoints(st.ns, DecideStep(cfg, st))
  {
    var d := DecideStep(cfg, st);
    ReplacedKeys(st.ns, st.winner, d);
    DecisionSound(cfg, w, st);
    var l :| l in d.losers && l.id == k.id;
    assert Conflicts(w.graph, StepSlot(st), st.storeNow, Key(st.ns, l.id));
    LoserPoint(st.ns, d.losers, l);
  }

  /** The point of every replaced fact is named. */
  lemma {:induction false} ReplacedPointNamed(cfg: Config, w: World, steps: seq<Step>, k: Key)
    requires NewFacts(cfg, w, steps) && k in RunReplaced(cfg, steps)
    ensures k in Run(cfg, w, steps).graph.nodes && PointOf(Run(cfg, w, steps).graph, k) in RunPoints(cfg, steps)
  {
    var last := |steps| - 1;
    var before, st := Run(cfg, w, steps[..last]), steps[last];
    LastArriving(cfg, w, steps);
    if k in RunReplaced(cfg, steps[..last]) {
      ReplacedPointNamed(cfg, w, steps[..last], k);
    } else {
      StepNamesPoint(cfg, before, st, k);
    }
    StepKeepsPoint(cfg, before, st, k);
  }

  // ---- superseded facts with an active point -----------------------------------------

  /** Of the facts a run supersedes, one whose mid-term point was active keeps it active if and only if it
      expired on arrival and no supersession of the run names that point. */
  lemma ActivePointExactly(cfg: Config, w: World, steps: seq<Step>, k: Key)
    requires NewFacts(cfg, w, steps) && cfg.mtmWired
    requires k in SupersededKeys(Run(cfg, w, steps).graph) && k !in SupersededKeys(w.graph)
    requires PointOf(Run(cfg, w, steps).graph, k) in w.mtm
    requires w.mtm[PointOf(Run(cfg, w, steps).graph, k)].state == Active
    ensures var p := PointOf(Run(cfg, w, steps).graph, k);
      p in Run(cfg, w, steps).mtm &&
      (Run(cfg, w, steps).mtm[p].state == Active <==> k in RunExpired(cfg, steps) && p !in RunPoints(cfg, steps))
  {
    RunSupersedes(cfg, w, steps);
    RunAgrees(cfg, w, steps);
    if k in RunReplaced(cfg, steps) {
      ReplacedPointNamed(cfg, w, steps, k);
    }
  }

  /** A fact starting at 0 that meets one starting at 10 is stored superseded; its point stays active. */
  lemma ExpiredKeepsPoint(cfg: Config, pred: string) returns (w: World, steps: seq<Step>, k: Key)
    requires cfg.candidateK >= 1 && cfg.mtmWired && Functional(cfg, pred)
    ensures NewFacts(cfg, w, steps) && k in SupersededKeys(Run(cfg, w, steps).graph) && k !in w.graph.nodes
    ensures k in Run(cfg, w, steps).mtm && Run(cfg, w, steps).mtm[k].state == Active
  {
    var a, b := Plain("a", pred, "x", 10), Plain("b", pred, "y", 0);
    k := KeyOf(b);
    w, steps := World(EMPTY.graph, map[k := Point(Active, None, "", "")]), Pair(a, b, 0);
    PairRunFrom(cfg, w, a, b, 0);
    DecideAgainstOne(cfg, b, a);
    assert FreshIds(w.graph, steps);
    assert steps[1].winner == b;
  }
}
