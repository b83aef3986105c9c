/** What the edges of the graph tell: when, and why, each superseded fact ended. */
module DistillEdges {
  import opened Common
  import opened GraphStore
  import opened Distill
  import opened DistillSafety
  import opened DistillCounts
  import opened DistillStale

  /** The edge carries the instant at which its loser ended, and says why: a loser stored already superseded
      gave way to a more recent fact, a loser stored active was replaced. */
  predicate EdgeTells(g: Graph, e: (Key, Key))
    requires e in g.supersededBy
  {
    e.0 in g.nodes && g.nodes[e.0].props.state == Superseded &&
    g.nodes[e.0].props.invalidAt == Some(g.supersededBy[e].createdAt) &&
    g.supersededBy[e].reason ==
      if g.nodes[e.0].blob.state == Superseded then "superseded_by_more_recent" else "functional_supersede"
  }

  ghost predicate EdgesTell(g: Graph) { forall e :: e in g.supersededBy ==> EdgeTells(g, e) }

  /** One invalidation writes one edge. */
  lemma InvalidateEdge(g: Graph, ns: string, loser: Id, winner: Id, at: Time, reason: string, e: (Key, Key))
    requires e in Invalidate(g, ns, loser, winner, at, reason).supersededBy
    ensures var edge := Invalidate(g, ns, loser, winner, at, reason).supersededBy[e];
      if e == (Key(ns, loser), Key(ns, winner)) && e.0 in g.nodes && e.1 in g.nodes then edge == Edge(at, reason)
      else e in g.supersededBy && edge == g.supersededBy[e]
  {
  }

  /** Superseding a list of losers writes one kind of edge and leaves the others as they were. */
  lemma {:induction false} SupersedeAllEdges(cfg: Config, w: World, ns: string, winner: Item, losers: seq<Item>,
                                             e: (Key, Key))
    requires e in SupersedeAll(cfg, w, ns, winner, losers).graph.supersededBy
    ensures var edge := SupersedeAll(cfg, w, ns, winner, losers).graph.supersededBy[e];
      if e.0 in KeysOf(ns, losers) && e.0 in w.graph.nodes && e.1 == Key(ns, winner.id) && e.1 in w.graph.nodes
      then edge == Edge(ValidAt(winner), "functional_supersede")
      else e in w.graph.supersededBy && edge == w.graph.supersededBy[e]
  {
    if losers != [] {
      var init, loser := losers[..|losers| - 1], losers[|losers| - 1];
      var prev := SupersedeAll(cfg, w, ns, winner, init);
      SupersedeAllEffect(cfg, w, ns, winner, init);
      InvalidateEdge(prev.graph, ns, loser.id, winner.id, ValidAt(winner), FUNCTIONAL_SUPERSEDE, e);
      if e != (Key(ns, loser.id), Key(ns, winner.id)) || e.0 !in prev.graph.nodes || e.1 !in prev.graph.nodes {
        SupersedeAllEdges(cfg, w, ns, winner, init, e);
      }
    }
  }

  /** One more fact that gives way on arrival. */
  lemma ExpireTells(g: Graph, st: Step, n: Item)
    requires EdgesTell(g) && KeyOf(st.winner) !in g.nodes && st.winner.ns == st.ns
    ensures EdgesTell(Invalidate(Upsert(g, Expired(st.winner, n)), st.ns, st.winner.id, n.id, ValidAt(n),
      BY_MORE_RECENT))
  {
    var g' := Invalidate(Upsert(g, Expired(st.winner, n)), st.ns, st.winner.id, n.id, ValidAt(n), BY_MORE_RECENT);
    forall e | e in g'.supersededBy
      ensures EdgeTells(g', e)
    {
      if e in g.supersededBy {
        assert EdgeTells(g, e);
      }
    }
  }

  /** A listed loser was active, and no edge told of its end. */
  lemma LoserWasOpen(w: World, st: Step, losers: seq<Item>, k: Key)
    requires EdgesTell(w.graph) && Arriving(w, st)
    requires (forall l :: l in losers ==> l in st.hits && l.id != st.winner.id) && k in KeysOf(st.ns, losers)
    ensures k in w.graph.nodes && k != KeyOf(st.winner) && w.graph.nodes[k].blob.state == Active
    ensures forall e :: e in w.graph.supersededBy ==> e.0 != k
  {
    var l :| l in losers && l.id == k.id;
    assert Conflicts(w.graph, StepSlot(st), st.storeNow, k) && NodeCoherent(k, w.graph.nodes[k]);
    assert forall e :: e in w.graph.supersededBy ==> EdgeTells(w.graph, e);
  }

  lemma ReplaceTells(cfg: Config, w: World, st: Step, losers: seq<Item>)
    requires EdgesTell(w.graph) && Arriving(w, st)
    requires forall l :: l in losers ==> l in st.hits && l.id != st.winner.id
    ensures EdgesTell(SupersedeAll(cfg, Write(w, st.winner), st.ns, st.winner, losers).graph)
  {
    var written := Write(w, st.winner);
    var g' := SupersedeAll(cfg, written, st.ns, st.winner, losers).graph;
    SupersedeAllEffect(cfg, written, st.ns, st.winner, losers);
    forall e | e in g'.supersededBy
      ensures EdgeTells(g', e)
    {
      SupersedeAllEdges(cfg, written, st.ns, st.winner, losers, e);
      if e.0 in KeysOf(st.ns, losers) {
        LoserWasOpen(w, st, losers, e.0);
      } else {
        assert EdgeTells(w.graph, e);
      }
    }
  }

  lemma StepTells(cfg: Config, w: World, st: Step)
    requires EdgesTell(w.graph) && Arriving(w, st)
    ensures EdgesTell(Advance(cfg, w, st).graph)
  {
    DecisionSound(cfg, w, st);
    match DecideStep(cfg, st) {
      case Reinforce(c) =>
        assert Conflicts(w.graph, StepSlot(st), st.storeNow, Key(st.ns, c.id));
        assert NodeCoherent(Key(st.ns, c.id), w.graph.nodes[Key(st.ns, c.id)]);
        ReinforceTells(w.graph, Reinforced(c, st.pipeNow));
      case Insert(_) => ReinforceTells(w.graph, st.winner);
      case Expire(n) => ExpireTells(w.graph, st, n);
      case Replace(losers) => ReplaceTells(cfg, w, st, losers);
    }
  }

  /** Writing an active record over nothing or over an active node touches no edge's loser. */
  lemma ReinforceTells(g: Graph, item: Item)
    requires EdgesTell(g) && (KeyOf(item) in g.nodes ==> g.nodes[KeyOf(item)].props.state == Active)
    ensures EdgesTell(Upsert(g, item))
  {
    forall e | e in g.supersededBy
      ensures EdgeTells(Upsert(g, item), e)
    {
      assert EdgeTells(g, e);
    }
  }

  /** Over any run of new ids the edges tell when and why every fact they leave ended. */
  lemma {:induction false} RunTells(cfg: Config, w: World, steps: seq<Step>)
    requires NewFacts(cfg, w, steps) && EdgesTell(w.graph)
    ensures EdgesTell(Run(cfg, w, steps).graph)
  {
    if steps != [] {
      var last := |steps| - 1;
      LastArriving(cfg, w, steps);
      RunTells(cfg, w, steps[..last]);
      StepTells(cfg, Run(cfg, w, steps[..last]), steps[last]);
    }
  }
}
