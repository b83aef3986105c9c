/** Supersession edges of a functional slot: every closed fact points at exactly one
    successor, and following the edges ends at the live head. */
module DistillChains {
  import opened Common
  import opened GraphStore
  import opened Distill
  import opened DistillSafety
  import opened DistillHistory

  predicate Linked(g: Graph, k: Key, to: Key) { (k, to) in g.supersededBy }

  /** Edges join stored facts. */
  ghost predicate EdgesStored(g: Graph)
  {
    forall k, to :: Linked(g, k, to) ==> k in g.nodes && to in g.nodes
  }

  // ---- the edges a step adds ---------------------------------------------------------

  predicate NewEdge(cfg: Config, st: Step, k: Key, to: Key)
  {
    match DecideStep(cfg, st)
    case Reinforce(_) => false
    case Insert(_) => false
    case Expire(n) => k == KeyOf(st.winner) && to == Key(st.ns, n.id)
    case Replace(losers) => k in KeysOf(st.ns, losers) && to == KeyOf(st.winner)
  }

  lemma EdgesAfter(cfg: Config, w: World, st: Step, k: Key, to: Key)
    requires IsConflictList(w.graph, StepSlot(st), st.storeNow, st.hits) && st.winner.ns == st.ns
    ensures Linked(Advance(cfg, w, st).graph, k, to) <==> Linked(w.graph, k, to) || NewEdge(cfg, st, k, to)
  {
    DecisionSound(cfg, w, st);
    match DecideStep(cfg, st) {
      case Reinforce(_) =>
      case Insert(_) =>
      case Expire(_) =>
      case Replace(losers) =>
        if k in KeysOf(st.ns, losers) {
          var l :| l in losers && l.id == k.id;
          assert Conflicts(w.graph, StepSlot(st), st.storeNow, Key(st.ns, l.id));
        }
        ReplaceEdges(cfg, w, st.winner, losers, k, to);
    }
  }

  lemma ReplaceEdges(cfg: Config, w: World, winner: Item, losers: seq<Item>, k: Key, to: Key)
    requires k in KeysOf(winner.ns, losers) ==> k in w.graph.nodes
    ensures Linked(SupersedeAll(cfg, Write(w, winner), winner.ns, winner, losers).graph, k, to) <==>
      Linked(w.graph, k, to) || (k in KeysOf(winner.ns, losers) && to == KeyOf(winner))
  {
    SupersedeAllEffect(cfg, Write(w, winner), winner.ns, winner, losers);
    var g := SupersedeAll(cfg, Write(w, winner), winner.ns, winner, losers).graph;
    var e := (k, to);
    assert e in g.supersededBy <==>
      e in w.graph.supersededBy || (k in KeysOf(winner.ns, losers) && to == KeyOf(winner));
  }

  /** The edges of a slot after it took `winner` against `head`. */
  predicate MovedEdge(g: Graph, winner: Item, head: Key, k: Key, to: Key)
    requires head in g.nodes
  {
    var h := g.nodes[head].blob;
    Linked(g, k, to) ||
    (!SameValue(h, winner) &&
      if ValidAt(h) > ValidAt(winner) then k == KeyOf(winner) && to == head else k == head && to == KeyOf(winner))
  }

  lemma MovedEdges(cfg: Config, w: World, st: Step, head: Key, k: Key, to: Key)
    requires Setting(cfg, w, st) && Timeline(w.graph, StepSlot(st), head) && Functional(cfg, st.winner.pred)
    ensures Linked(Advance(cfg, w, st).graph, k, to) <==> MovedEdge(w.graph, st.winner, head, k, to)
  {
    EdgesAfter(cfg, w, st, k, to);
    DecisionOnHead(cfg, w, st, head);
    KeysOfOne(st.ns, w.graph.nodes[head].blob);
  }

  // ---- chains ------------------------------------------------------------------------

  /** `to` is the only successor of `k`, and starts when `k` ends. */
  ghost predicate Successor(g: Graph, slot: Slot, k: Key, to: Key)
  {
    Linked(g, k, to) && (forall c :: Linked(g, k, c) ==> c == to) &&
    Member(g, slot, k) && Member(g, slot, to) &&
    g.nodes[k].props.invalidAt.Some? && g.nodes[to].props.validAt == g.nodes[k].props.invalidAt
  }

  ghost predicate Chain(g: Graph, path: seq<Key>, from: Key, to: Key)
  {
    path != [] && path[0] == from && path[|path| - 1] == to &&
    forall i :: 0 <= i < |path| - 1 ==> Linked(g, path[i], path[i + 1])
  }

  ghost predicate LeadsTo(g: Graph, from: Key, to: Key) { exists path :: Chain(g, path, from, to) }

  /** Every closed fact of the slot has one successor and leads to the head, where the edges end. */
  ghost predicate Chained(g: Graph, slot: Slot, head: Key)
  {
    (forall c :: !Linked(g, head, c)) &&
    (forall k :: Member(g, slot, k) && k != head ==> (exists to :: Successor(g, slot, k, to)) && LeadsTo(g, k, head))
  }

  ghost predicate AllChained(g: Graph, slot: Slot)
  {
    EdgesStored(g) && forall head :: Timeline(g, slot, head) ==> Chained(g, slot, head)
  }

  lemma ChainGrows(g: Graph, g': Graph, from: Key, mid: Key, to: Key)
    requires LeadsTo(g, from, mid) && Linked(g', mid, to)
    requires forall k, c :: Linked(g, k, c) ==> Linked(g', k, c)
    ensures LeadsTo(g', from, mid) && LeadsTo(g', from, to)
  {
    var path :| Chain(g, path, from, mid);
    assert Chain(g', path, from, mid);
    assert Chain(g', path + [to], from, to);
  }

  lemma ChainKept(g: Graph, g': Graph, from: Key, to: Key)
    requires LeadsTo(g, from, to)
    requires forall k, c :: Linked(g, k, c) ==> Linked(g', k, c)
    ensures LeadsTo(g', from, to)
  {
    var path :| Chain(g, path, from, to);
    assert Chain(g', path, from, to);
  }

  lemma ChainedMoved(g: Graph, g': Graph, winner: Item, head: Key)
    requires Moved(g, g', winner, head) && EdgesStored(g) && Chained(g, SlotOf(winner), head)
    requires forall k, to :: Linked(g', k, to) <==> MovedEdge(g, winner, head, k, to)
    ensures Chained(g', SlotOf(winner), NextHead(g, winner, head))
  {
    var slot, mine, h := SlotOf(winner), KeyOf(winner), g.nodes[head].blob;
    var next := NextHead(g, winner, head);
    assert PropsOf(g', mine) == MovedProps(g, winner, head, mine);
    assert PropsOf(g', head) == MovedProps(g, winner, head, head);
    forall k | Member(g', slot, k) && k != next
      ensures (exists to :: Successor(g', slot, k, to)) && LeadsTo(g', k, next)
    {
      assert PropsOf(g', k) == MovedProps(g, winner, head, k);
      if k == mine {
        assert Successor(g', slot, k, head);
        assert Chain(g', [mine, head], mine, head);
      } else if k == head {
        assert Successor(g', slot, k, mine);
        assert Chain(g', [head, mine], head, mine);
      } else {
        assert Member(g, slot, k);
        var to :| Successor(g, slot, k, to);
        assert PropsOf(g', to) == MovedProps(g, winner, head, to);
        assert Successor(g', slot, k, to);
        ChainKept(g, g', k, head);
        if next == mine {
          ChainGrows(g, g', k, head, mine);
        }
      }
    }
  }

  lemma ChainedElsewhere(g: Graph, g': Graph, slot: Slot)
    requires SameSlot(g, g', slot) && AllChained(g, slot) && EdgesStored(g')
    requires Settled(g, slot)
    requires forall k, to :: Linked(g, k, to) ==> Linked(g', k, to)
    requires forall k, to :: Member(g, slot, k) ==> (Linked(g', k, to) <==> Linked(g, k, to))
    ensures AllChained(g', slot)
  {
    if !Empty(g, slot) {
      var h0 :| Timeline(g, slot, h0);
      SameTimeline(g, g', slot);
      forall head | Timeline(g', slot, head)
        ensures Chained(g', slot, head)
      {
        assert head == h0;
        forall k | Member(g', slot, k) && k != head
          ensures (exists to :: Successor(g', slot, k, to)) && LeadsTo(g', k, head)
        {
          assert Member(g, slot, k) && PropsOf(g', k) == PropsOf(g, k);
          var to :| Successor(g, slot, k, to);
          assert PropsOf(g', to) == PropsOf(g, to);
          assert Successor(g', slot, k, to);
          ChainKept(g, g', k, head);
        }
      }
    }
  }

  lemma EdgesStoredStep(cfg: Config, w: World, st: Step)
    requires Setting(cfg, w, st) && EdgesStored(w.graph)
    ensures EdgesStored(Advance(cfg, w, st).graph)
  {
    var g' := Advance(cfg, w, st).graph;
    DecisionSound(cfg, w, st);
    forall k, to | Linked(g', k, to)
      ensures k in g'.nodes && to in g'.nodes
    {
      EdgesAfter(cfg, w, st, k, to);
      PropsAfter(cfg, w, st, k);
      PropsAfter(cfg, w, st, to);
    }
  }

  lemma ChainedStep(cfg: Config, w: World, st: Step, slot: Slot)
    requires Setting(cfg, w, st) && Settled(w.graph, slot) && Functional(cfg, slot.pred) && AllChained(w.graph, slot)
    ensures AllChained(Advance(cfg, w, st).graph, slot)
  {
    var g, g' := w.graph, Advance(cfg, w, st).graph;
    EdgesStoredStep(cfg, w, st);
    StepCases(cfg, w, st, slot);
    forall k, to
      ensures Linked(g', k, to) <==> Linked(g, k, to) || NewEdge(cfg, st, k, to)
    {
      EdgesAfter(cfg, w, st, k, to);
    }
    if slot != StepSlot(st) {
      DecisionSound(cfg, w, st);
      assert forall k, to :: NewEdge(cfg, st, k, to) ==> !Member(g, slot, k);
      ChainedElsewhere(g, g', slot);
    } else if Empty(g, slot) {
      DecisionOnEmpty(cfg, w, st);
      OpenedTimeline(g, g', st.winner);
    } else {
      var head :| Timeline(g, slot, head);
      ChainedOnHead(cfg, w, st, head);
    }
  }

  lemma ChainedOnHead(cfg: Config, w: World, st: Step, head: Key)
    requires Setting(cfg, w, st) && Functional(cfg, st.winner.pred)
    requires Timeline(w.graph, StepSlot(st), head) && AllChained(w.graph, StepSlot(st))
    requires EdgesStored(Advance(cfg, w, st).graph)
    ensures AllChained(Advance(cfg, w, st).graph, StepSlot(st))
  {
    var g, g' := w.graph, Advance(cfg, w, st).graph;
    StepMoves(cfg, w, st, head);
    forall k, to
      ensures Linked(g', k, to) <==> MovedEdge(g, st.winner, head, k, to)
    {
      MovedEdges(cfg, w, st, head, k, to);
    }
    ChainedMoved(g, g', st.winner, head);
    TimelineMoves(g, g', st.winner, head);
  }

  lemma {:induction false} RunChained(cfg: Config, w: World, steps: seq<Step>, slot: Slot)
    requires History(cfg, w, steps) && Functional(cfg, slot.pred)
    requires Settled(w.graph, slot) && AllChained(w.graph, slot)
    ensures AllChained(Run(cfg, w, steps).graph, slot)
  {
    if steps != [] {
      var last := |steps| - 1;
      LastSetting(cfg, w, steps);
      RunSettled(cfg, w, steps[..last], slot);
      RunChained(cfg, w, steps[..last], slot);
      ChainedStep(cfg, Run(cfg, w, steps[..last]), steps[last], slot);
    }
  }

  /** `head` is the slot's one active fact and the end of its edges; `k` leads to it, and unless `k` is
      the head it is superseded with exactly one successor. */
  ghost predicate EndsAtHead(g: Graph, slot: Slot, k: Key, head: Key)
  {
    Timeline(g, slot, head) && (forall c :: !Linked(g, head, c)) && LeadsTo(g, k, head) && k in g.nodes &&
    (k != head ==> g.nodes[k].props.state == Superseded && exists to :: Successor(g, slot, k, to))
  }

  lemma ChainedEnds(g: Graph, slot: Slot, k: Key, head: Key)
    requires Timeline(g, slot, head) && AllChained(g, slot) && Member(g, slot, k)
    ensures EndsAtHead(g, slot, k, head)
  {
    if k == head {
      assert Chain(g, [k], k, head);
    }
  }

  /** In any arrival order, every superseded fact of a functional slot has exactly one successor, whose
      start is its end, and its chain of successors arrives at the slot's only active fact. */
  lemma ChainsEndAtHead(cfg: Config, w: World, steps: seq<Step>, slot: Slot, k: Key)
    requires History(cfg, w, steps) && Functional(cfg, slot.pred) && Empty(w.graph, slot) && EdgesStored(w.graph)
    requires Member(Run(cfg, w, steps).graph, slot, k)
    ensures exists head :: EndsAtHead(Run(cfg, w, steps).graph, slot, k, head)
  {
    RunSettled(cfg, w, steps, slot);
    RunChained(cfg, w, steps, slot);
    var head :| Timeline(Run(cfg, w, steps).graph, slot, head);
    ChainedEnds(Run(cfg, w, steps).graph, slot, k, head);
  }
}
