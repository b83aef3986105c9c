/** Stale records: which stored records stop agreeing with their node, and that a run's report
    names exactly them. */
module DistillStale {
  import opened Common
  import opened GraphStore
  import opened Distill
  import opened DistillSafety
  import opened DistillHistory
  import opened DistillAsOf
  import opened DistillCounts

  /** The nodes whose properties are not those of the record a read returns. */
  function Stale(g: Graph): set<Key>
  {
    set k | k in g.nodes && g.nodes[k].props != ToStore(g.nodes[k].blob)
  }

  /** The facts that a reported SUPERSEDE lists as losers. */
  function Replaced(ns: string, a: Action): set<Key>
  {
    if a.kind == Kind.Supersede then set id | id in a.losers :: Key(ns, id) else {}
  }

  function RunReplaced(cfg: Config, steps: seq<Step>): set<Key>
  {
    if steps == [] then {}
    else
      var last := steps[|steps| - 1];
      RunReplaced(cfg, steps[..|steps| - 1]) + Replaced(last.ns, ActionFor(last.winner, DecideStep(cfg, last)))
  }

  lemma LoserKeys(ns: string, losers: seq<Item>)
    ensures (set id | id in Ids(losers) :: Key(ns, id)) == KeysOf(ns, losers)
  {
    forall k
      ensures k in KeysOf(ns, losers) ==> k in (set id | id in Ids(losers) :: Key(ns, id))
    {
      if k in KeysOf(ns, losers) {
        var c :| c in losers && c.id == k.id;
        var i :| 0 <= i < |losers| && losers[i] == c;
        assert Ids(losers)[i] in Ids(losers);
      }
    }
  }

  lemma ReplacedKeys(ns: string, winner: Item, d: Decision)
    ensures Replaced(ns, ActionFor(winner, d)) == if d.Replace? then KeysOf(ns, d.losers) else {}
  {
    if d.Replace? {
      LoserKeys(ns, d.losers);
    }
  }

  // ---- one step ----------------------------------------------------------------------

  /** A fact under a new id, against the list the store returned. */
  ghost predicate Arriving(w: World, st: Step)
  {
    Coherent(w.graph) && IsConflictList(w.graph, StepSlot(st), st.storeNow, st.hits) &&
    st.winner.ns == st.ns && st.winner.state == Active && KeyOf(st.winner) !in w.graph.nodes
  }

  /** The node is superseded while its record says active. */
  predicate ReadsActive(g: Graph, k: Key)
  {
    k in g.nodes && g.nodes[k].props.state == Superseded && g.nodes[k].blob.state == Active
  }

  /** A retired node keeps its record, which still says active. */
  lemma RetiredStale(g: Graph, g': Graph, winner: Item, gone: set<Key>, at: Time, k: Key)
    requires Retired(Upsert(g, winner), g', gone, KeyOf(winner), at)
    requires KeyOf(winner) !in g.nodes && KeyOf(winner) !in gone
    requires k in gone ==> k in g.nodes && g.nodes[k].props.state == Active && NodeCoherent(k, g.nodes[k])
    ensures k in Stale(g') <==> k in Stale(g) || k in gone
    ensures k in gone ==> ReadsActive(g', k)
    ensures k in g.nodes && k !in gone ==> k in g'.nodes && g'.nodes[k] == g.nodes[k]
  {
  }

  lemma LosersGoStale(cfg: Config, w: World, st: Step, losers: seq<Item>, k: Key)
    requires Arriving(w, st) && DecideStep(cfg, st) == Replace(losers)
    ensures var g' := Advance(cfg, w, st).graph;
      (k in Stale(g') <==> k in Stale(w.graph) || k in KeysOf(st.ns, losers)) &&
      (k in KeysOf(st.ns, losers) ==> ReadsActive(g', k)) &&
      (k in w.graph.nodes && k !in KeysOf(st.ns, losers) ==> k in g'.nodes && g'.nodes[k] == w.graph.nodes[k])
  {
    StepTook(cfg, w, st);
    SupersedeAllEffect(cfg, Write(w, st.winner), st.ns, st.winner, losers);
    assert k in KeysOf(st.ns, losers) ==> Conflicts(w.graph, StepSlot(st), st.storeNow, k);
    RetiredStale(w.graph, Advance(cfg, w, st).graph, st.winner, KeysOf(st.ns, losers), ValidAt(st.winner), k);
  }

  lemma OthersStayFresh(cfg: Config, w: World, st: Step, k: Key)
    requires Arriving(w, st) && !DecideStep(cfg, st).Replace?
    ensures k in Stale(Advance(cfg, w, st).graph) <==> k in Stale(w.graph)
    ensures k in Stale(w.graph) ==>
      k in Advance(cfg, w, st).graph.nodes && Advance(cfg, w, st).graph.nodes[k] == w.graph.nodes[k]
  {
    DecisionSound(cfg, w, st);
    match DecideStep(cfg, st) {
      case Reinforce(c) =>
        assert Conflicts(w.graph, StepSlot(st), st.storeNow, Key(st.ns, c.id));
        assert NodeCoherent(Key(st.ns, c.id), w.graph.nodes[Key(st.ns, c.id)]);
      case Insert(_) =>
      case Expire(_) =>
      case Replace(_) =>
    }
  }

  /** Every stale node is superseded and still reads active. */
  ghost predicate StaleReadsActive(g: Graph) { forall k :: k in Stale(g) ==> ReadsActive(g, k) }

  /** A reconcile makes stale exactly what its action reports as replaced. */
  lemma StepStale(cfg: Config, w: World, st: Step)
    requires Arriving(w, st)
    ensures Stale(Advance(cfg, w, st).graph) ==
      Stale(w.graph) + Replaced(st.ns, ActionFor(st.winner, DecideStep(cfg, st)))
    ensures StaleReadsActive(w.graph) ==> StaleReadsActive(Advance(cfg, w, st).graph)
  {
    var g', d := Advance(cfg, w, st).graph, DecideStep(cfg, st);
    ReplacedKeys(st.ns, st.winner, d);
    forall k
      ensures k in Stale(g') <==> k in Stale(w.graph) || k in Replaced(st.ns, ActionFor(st.winner, d))
      ensures StaleReadsActive(w.graph) && k in Stale(g') ==> ReadsActive(g', k)
    {
      if d.Replace? {
        LosersGoStale(cfg, w, st, d.losers, k);
      } else {
        OthersStayFresh(cfg, w, st, k);
      }
    }
  }

  // ---- a run -------------------------------------------------------------------------

  lemma LastArriving(cfg: Config, w: World, steps: seq<Step>)
    requires NewFacts(cfg, w, steps) && steps != []
    ensures NewFacts(cfg, w, steps[..|steps| - 1]) && Arriving(Run(cfg, w, steps[..|steps| - 1]), steps[|steps| - 1])
  {
    var last := |steps| - 1;
    assert FreshIds(w.graph, steps[..last]);
    RunCoherent(cfg, w, steps[..last]);
    RunFresh(cfg, w, steps[..last], steps[last]);
  }

  lemma {:induction false} RunStale(cfg: Config, w: World, steps: seq<Step>)
    requires NewFacts(cfg, w, steps) && StaleReadsActive(w.graph)
    ensures Stale(Run(cfg, w, steps).graph) == Stale(w.graph) + RunReplaced(cfg, steps)
    ensures StaleReadsActive(Run(cfg, w, steps).graph)
  {
    if steps != [] {
      var last := |steps| - 1;
      LastArriving(cfg, w, steps);
      RunStale(cfg, w, steps[..last]);
      StepStale(cfg, Run(cfg, w, steps[..last]), steps[last]);
    }
  }

  /** Over a run of facts under new ids, the record of a stored node disagrees with the node if and only
      if a SUPERSEDE of the run's report lists it as a loser; the node is then superseded while its
      record says active. A fact that expired on arrival, or was reinforced, agrees. */
  lemma StaleExactly(cfg: Config, w: World, steps: seq<Step>, k: Key)
    requires NewFacts(cfg, w, steps) && Stale(w.graph) == {} && k in Run(cfg, w, steps).graph.nodes
    ensures var n := Run(cfg, w, steps).graph.nodes[k];
      (n.props != ToStore(n.blob) <==> k in RunReplaced(cfg, steps)) &&
      (k in RunReplaced(cfg, steps) ==> n.props.state == Superseded && n.blob.state == Active)
  {
    RunStale(cfg, w, steps);
    assert k in Stale(Run(cfg, w, steps).graph) <==> k in RunReplaced(cfg, steps);
  }

  /** A fact starting at 0, replaced by one starting at 10: the read as of 5 answers with a record that
      is active and has no end. */
  lemma StaleAnswer(cfg: Config, pred: string) returns (steps: seq<Step>, k: Key)
    requires cfg.candidateK >= 1 && Functional(cfg, pred)
    ensures NewFacts(cfg, EMPTY, steps)
    ensures var g := Run(cfg, EMPTY, steps).graph;
      k in AsOf(g, Slot("n", "s", pred), 5) && g.nodes[k].props.invalidAt == Some(10) &&
      g.nodes[k].blob.state == Active && g.nodes[k].blob.invalidAt == None
  {
    var a, b := Plain("a", pred, "x", 0), Plain("b", pred, "y", 10);
    steps, k := Pair(a, b, 0), KeyOf(a);
    PairHistory(cfg, a, b, 0);
    TwoFactsStored(cfg, a, b, 0);
  }
}
