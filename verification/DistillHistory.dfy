/** The history of one functional slot when facts arrive with fresh ids and no end of
    their own: one live head, closed intervals behind it, chains of supersession edges. */
module DistillHistory {
  import opened Common
  import opened GraphStore
  import opened Distill
  import opened DistillSafety

  function Start(g: Graph, k: Key): Time
    requires k in g.nodes && g.nodes[k].props.validAt.Some?
  {
    g.nodes[k].props.validAt.value
  }

  ghost predicate Empty(g: Graph, slot: Slot) { forall k :: !Member(g, slot, k) }

  /** `head` is the slot's one active fact; every other fact is closed, no later than the head starts. */
  ghost predicate Timeline(g: Graph, slot: Slot, head: Key)
  {
    Member(g, slot, head) && g.nodes[head].props.state == Active &&
    g.nodes[head].props.validAt.Some? && g.nodes[head].props.invalidAt == None &&
    forall k :: Member(g, slot, k) && k != head ==> Closed(g.nodes[k].props, Start(g, head))
  }

  predicate Closed(p: Props, limit: Time)
  {
    p.state == Superseded && p.validAt.Some? && p.invalidAt.Some? &&
    p.validAt.value <= p.invalidAt.value <= limit
  }

  ghost predicate Settled(g: Graph, slot: Slot)
  {
    Empty(g, slot) || exists head :: Timeline(g, slot, head)
  }

  /** A fact as the pipeline mints it: active, dated, with no end, under an id not stored yet. */
  predicate FreshFact(st: Step)
  {
    st.winner.ns == st.ns && st.winner.state == Active && st.winner.validAt.Some? && st.winner.invalidAt == None
  }

  /** The setting of this module: a coherent graph, a list the store could return, a fresh fact. */
  ghost predicate Setting(cfg: Config, w: World, st: Step)
  {
    Coherent(w.graph) && cfg.candidateK >= 1 &&
    IsConflictList(w.graph, StepSlot(st), st.storeNow, st.hits) &&
    FreshFact(st) && KeyOf(st.winner) !in w.graph.nodes
  }

  // ---- what one step does to a slot --------------------------------------------------

  /** Facts of other slots, and their outgoing edges, are untouched. */
  lemma OtherSlot(cfg: Config, w: World, st: Step, slot: Slot, k: Key)
    requires Setting(cfg, w, st) && slot != StepSlot(st)
    ensures Member(Advance(cfg, w, st).graph, slot, k) <==> Member(w.graph, slot, k)
    ensures Member(w.graph, slot, k) ==> PropsOf(Advance(cfg, w, st).graph, k) == PropsOf(w.graph, k)
  {
    StepTook(cfg, w, st);
    TookOtherSlot(w.graph, Advance(cfg, w, st).graph, st, DecideStep(cfg, st), slot, k);
  }

  lemma TookOtherSlot(g: Graph, g': Graph, st: Step, d: Decision, slot: Slot, k: Key)
    requires Took(g, g', st, d) && NamesConflicts(g, st, d)
    requires st.winner.ns == st.ns && KeyOf(st.winner) !in g.nodes && slot != StepSlot(st)
    ensures Member(g', slot, k) <==> Member(g, slot, k)
    ensures Member(g, slot, k) ==> PropsOf(g', k) == PropsOf(g, k)
  {
    assert PropsOf(g', k) == NextProps(g, st, d, k);
  }

  lemma DecisionOnEmpty(cfg: Config, w: World, st: Step)
    requires Setting(cfg, w, st) && Empty(w.graph, StepSlot(st))
    ensures DecideStep(cfg, st) == Insert(true)
  {
    assert forall h :: h in st.hits ==> Member(w.graph, StepSlot(st), Key(st.ns, h.id));
  }

  /** With a head in place the decision is made against the head alone. */
  lemma DecisionOnHead(cfg: Config, w: World, st: Step, head: Key)
    requires Setting(cfg, w, st) && Timeline(w.graph, StepSlot(st), head) && Functional(cfg, st.winner.pred)
    ensures var h := w.graph.nodes[head].blob;
      ToStore(h) == w.graph.nodes[head].props && KeyOf(h) == head &&
      DecideStep(cfg, st) ==
        if SameValue(h, st.winner) then Reinforce(h)
        else if ValidAt(h) > ValidAt(st.winner) then Expire(h)
        else Replace([h])
  {
    var h := w.graph.nodes[head].blob;
    assert NodeCoherent(head, w.graph.nodes[head]);
    SoleCandidate(cfg, w, st, head);
    DecideAgainstOne(cfg, st.winner, h);
  }

  /** The properties of one fact after its slot took `winner` against `head`: the head absorbs an
      equal value, an older fact is stored closed at the head's start, and any other fact takes over. */
  function MovedProps(g: Graph, winner: Item, head: Key, k: Key): Option<Props>
    requires head in g.nodes
  {
    var h, mine := g.nodes[head].blob, k == KeyOf(winner);
    if SameValue(h, winner) then PropsOf(g, k)
    else if ValidAt(h) > ValidAt(winner) then
      if mine then Some(ToStore(Expired(winner, h))) else PropsOf(g, k)
    else
      if mine then Some(ToStore(winner))
      else if k == head then Some(Retire(g.nodes[head], ValidAt(winner)).props)
      else PropsOf(g, k)
  }

  /** `g'` is `g` after its slot took `winner` against `head`. */
  ghost predicate Moved(g: Graph, g': Graph, winner: Item, head: Key)
  {
    Timeline(g, SlotOf(winner), head) &&
    ToStore(g.nodes[head].blob) == g.nodes[head].props &&
    winner.state == Active && winner.validAt.Some? && winner.invalidAt == None && KeyOf(winner) !in g.nodes &&
    forall k :: PropsOf(g', k) == MovedProps(g, winner, head, k)
  }

  lemma StepMovesAt(cfg: Config, w: World, st: Step, head: Key, k: Key)
    requires Setting(cfg, w, st) && Timeline(w.graph, StepSlot(st), head) && Functional(cfg, st.winner.pred)
    ensures PropsOf(Advance(cfg, w, st).graph, k) == MovedProps(w.graph, st.winner, head, k)
  {
    DecisionOnHead(cfg, w, st, head);
    StepTook(cfg, w, st);
    assert PropsOf(Advance(cfg, w, st).graph, k) == NextProps(w.graph, st, DecideStep(cfg, st), k);
    KeysOfOne(st.ns, w.graph.nodes[head].blob);
  }

  lemma KeysOfOne(ns: string, item: Item)
    ensures KeysOf(ns, [item]) == {Key(ns, item.id)}
  {
    assert [item][..0] == [];
    assert KeysOf(ns, [item]) == KeysOf(ns, []) + {Key(ns, item.id)};
  }

  lemma StepMoves(cfg: Config, w: World, st: Step, head: Key)
    requires Setting(cfg, w, st) && Timeline(w.graph, StepSlot(st), head) && Functional(cfg, st.winner.pred)
    ensures Moved(w.graph, Advance(cfg, w, st).graph, st.winner, head)
  {
    var g' := Advance(cfg, w, st).graph;
    assert ToStore(w.graph.nodes[head].blob) == w.graph.nodes[head].props by {
      DecisionOnHead(cfg, w, st, head);
    }
    forall k
      ensures PropsOf(g', k) == MovedProps(w.graph, st.winner, head, k)
    {
      StepMovesAt(cfg, w, st, head, k);
    }
  }

  /** The head after a move. */
  function NextHead(g: Graph, winner: Item, head: Key): Key
    requires head in g.nodes
  {
    var h := g.nodes[head].blob;
    if SameValue(h, winner) || ValidAt(h) > ValidAt(winner) then head else KeyOf(winner)
  }

  lemma TimelineMoves(g: Graph, g': Graph, winner: Item, head: Key)
    requires Moved(g, g', winner, head)
    ensures Timeline(g', SlotOf(winner), NextHead(g, winner, head))
  {
    var next := NextHead(g, winner, head);
    assert PropsOf(g', next) == MovedProps(g, winner, head, next);
    forall k | Member(g', SlotOf(winner), k) && k != next
      ensures Closed(g'.nodes[k].props, Start(g', next))
    {
      assert PropsOf(g', k) == MovedProps(g, winner, head, k);
      assert k != KeyOf(winner) ==> Member(g, SlotOf(winner), k);
    }
  }

  /** `g'` is `g` after its empty slot took `winner`. */
  ghost predicate Opened(g: Graph, g': Graph, winner: Item)
  {
    Empty(g, SlotOf(winner)) &&
    winner.state == Active && winner.validAt.Some? && winner.invalidAt == None &&
    forall k :: PropsOf(g', k) == if k == KeyOf(winner) then Some(ToStore(winner)) else PropsOf(g, k)
  }

  ghost predicate SameSlot(g: Graph, g': Graph, slot: Slot)
  {
    forall k :: (Member(g', slot, k) <==> Member(g, slot, k)) &&
                (Member(g, slot, k) ==> PropsOf(g', k) == PropsOf(g, k))
  }

  /** The three things a step can mean for a slot. */
  ghost predicate SlotStep(g: Graph, g': Graph, winner: Item, slot: Slot)
  {
    if slot != SlotOf(winner) then SameSlot(g, g', slot)
    else Opened(g, g', winner) || exists head :: Moved(g, g', winner, head)
  }

  lemma StepCases(cfg: Config, w: World, st: Step, slot: Slot)
    requires Setting(cfg, w, st) && Settled(w.graph, slot) && Functional(cfg, slot.pred)
    ensures SlotStep(w.graph, Advance(cfg, w, st).graph, st.winner, slot)
  {
    var g' := Advance(cfg, w, st).graph;
    if slot != StepSlot(st) {
      forall k
        ensures Member(g', slot, k) <==> Member(w.graph, slot, k)
        ensures Member(w.graph, slot, k) ==> PropsOf(g', k) == PropsOf(w.graph, k)
      {
        OtherSlot(cfg, w, st, slot, k);
      }
    } else if Empty(w.graph, slot) {
      DecisionOnEmpty(cfg, w, st);
    } else {
      var head :| Timeline(w.graph, slot, head);
      StepMoves(cfg, w, st, head);
    }
  }

  lemma OpenedTimeline(g: Graph, g': Graph, winner: Item)
    requires Opened(g, g', winner)
    ensures Timeline(g', SlotOf(winner), KeyOf(winner))
    ensures forall k :: Member(g', SlotOf(winner), k) ==> k == KeyOf(winner)
  {
    var slot := SlotOf(winner);
    assert PropsOf(g', KeyOf(winner)) == Some(ToStore(winner));
    forall k | Member(g', slot, k)
      ensures k == KeyOf(winner)
    {
      assert PropsOf(g', k) == if k == KeyOf(winner) then Some(ToStore(winner)) else PropsOf(g, k);
      assert !Member(g, slot, k);
    }
  }

  lemma SameTimeline(g: Graph, g': Graph, slot: Slot)
    requires SameSlot(g, g', slot)
    ensures Empty(g, slot) ==> Empty(g', slot)
    ensures forall head :: Timeline(g, slot, head) ==> Timeline(g', slot, head)
  {
    forall head | Timeline(g, slot, head)
      ensures Timeline(g', slot, head)
    {
      assert Member(g', slot, head) && PropsOf(g', head) == PropsOf(g, head);
    }
  }

  lemma SettledStep(g: Graph, g': Graph, winner: Item, slot: Slot)
    requires SlotStep(g, g', winner, slot) && Settled(g, slot)
    ensures Settled(g', slot)
  {
    if slot != SlotOf(winner) {
      SameTimeline(g, g', slot);
    } else if Opened(g, g', winner) {
      OpenedTimeline(g, g', winner);
    } else {
      var head :| Moved(g, g', winner, head);
      TimelineMoves(g, g', winner, head);
    }
  }

  // ---- runs of fresh facts -----------------------------------------------------------

  /** The ids are new to the graph and to each other. */
  ghost predicate FreshIds(g: Graph, steps: seq<Step>)
  {
    (forall i :: 0 <= i < |steps| ==> steps[i].winner.ns == steps[i].ns && KeyOf(steps[i].winner) !in g.nodes) &&
    (forall i, j :: 0 <= i < j < |steps| ==> KeyOf(steps[i].winner) != KeyOf(steps[j].winner))
  }

  ghost predicate FreshRun(g: Graph, steps: seq<Step>)
  {
    FreshIds(g, steps) && forall i :: 0 <= i < |steps| ==> FreshFact(steps[i])
  }

  ghost predicate History(cfg: Config, w: World, steps: seq<Step>)
  {
    Coherent(w.graph) && cfg.candidateK >= 1 && ValidRun(cfg, w, steps) && FreshRun(w.graph, steps)
  }

  lemma {:induction false} RunAddsOnlyWinners(cfg: Config, w: World, steps: seq<Step>, k: Key)
    requires Coherent(w.graph) && ValidRun(cfg, w, steps) && FreshIds(w.graph, steps)
    requires k in Run(cfg, w, steps).graph.nodes
    ensures k in w.graph.nodes || exists i :: 0 <= i < |steps| && k == KeyOf(steps[i].winner)
  {
    if steps != [] {
      var last := |steps| - 1;
      var before := Run(cfg, w, steps[..last]);
      RunCoherent(cfg, w, steps[..last]);
      PropsAfter(cfg, before, steps[last], k);
      if k in before.graph.nodes {
        RunAddsOnlyWinners(cfg, w, steps[..last], k);
      } else {
        assert k == KeyOf(steps[last].winner);
      }
    }
  }

  lemma RunFresh(cfg: Config, w: World, steps: seq<Step>, st: Step)
    requires Coherent(w.graph) && ValidRun(cfg, w, steps) && FreshIds(w.graph, steps)
    requires KeyOf(st.winner) !in w.graph.nodes
    requires forall i :: 0 <= i < |steps| ==> KeyOf(steps[i].winner) != KeyOf(st.winner)
    ensures KeyOf(st.winner) !in Run(cfg, w, steps).graph.nodes
  {
    if KeyOf(st.winner) in Run(cfg, w, steps).graph.nodes {
      RunAddsOnlyWinners(cfg, w, steps, KeyOf(st.winner));
    }
  }

  /** The last step of a history finds the setting of this module. */
  lemma LastSetting(cfg: Config, w: World, steps: seq<Step>)
    requires History(cfg, w, steps) && steps != []
    ensures History(cfg, w, steps[..|steps| - 1])
    ensures Setting(cfg, Run(cfg, w, steps[..|steps| - 1]), steps[|steps| - 1])
  {
    var last := |steps| - 1;
    assert FreshRun(w.graph, steps[..last]);
    RunCoherent(cfg, w, steps[..last]);
    RunFresh(cfg, w, steps[..last], steps[last]);
  }

  lemma LastStep(cfg: Config, w: World, steps: seq<Step>, slot: Slot)
    requires History(cfg, w, steps) && steps != [] && Functional(cfg, slot.pred)
    requires Settled(Run(cfg, w, steps[..|steps| - 1]).graph, slot)
    ensures SlotStep(Run(cfg, w, steps[..|steps| - 1]).graph, Run(cfg, w, steps).graph, steps[|steps| - 1].winner, slot)
  {
    LastSetting(cfg, w, steps);
    StepCases(cfg, Run(cfg, w, steps[..|steps| - 1]), steps[|steps| - 1], slot);
  }

  /** Every functional slot stays settled: empty, or one active fact of greatest validity start with
      every other fact closed behind it. */
  lemma {:induction false} RunSettled(cfg: Config, w: World, steps: seq<Step>, slot: Slot)
    requires History(cfg, w, steps) && Settled(w.graph, slot) && Functional(cfg, slot.pred)
    ensures Settled(Run(cfg, w, steps).graph, slot)
  {
    if steps != [] {
      var last := |steps| - 1;
      LastSetting(cfg, w, steps);
      RunSettled(cfg, w, steps[..last], slot);
      LastStep(cfg, w, steps, slot);
      SettledStep(Run(cfg, w, steps[..last]).graph, Run(cfg, w, steps).graph, steps[last].winner, slot);
    }
  }

  // ---- two facts ---------------------------------------------------------------------

  /** Two different facts in order of start: the second is the head, the first its past. */
  lemma TwoFactsStored(cfg: Config, a: Item, b: Item, now: Time)
    requires SlotOf(a) == SlotOf(b) && a.id != b.id && Visible(ToStore(a), now) && cfg.candidateK >= 1
    requires History(cfg, EMPTY, Pair(a, b, now)) && Contradicts(cfg, b, a) && !SameValue(a, b)
    requires ValidAt(a) <= ValidAt(b)
    ensures var g := Run(cfg, EMPTY, Pair(a, b, now)).graph;
      PropsOf(g, KeyOf(a)) == Some(ToStore(a).(state := Superseded, invalidAt := Some(ValidAt(b)))) &&
      g.nodes.Keys == {KeyOf(a), KeyOf(b)} && g.nodes[KeyOf(a)].blob == a && g.nodes[KeyOf(b)] == Node(ToStore(b), b)
  {
    PairRun(cfg, a, b, now);
    DecideAgainstOne(cfg, b, a);
    SupersedeAllEffect(cfg, Write(Write(EMPTY, a), b), b.ns, b, [a]);
    KeysOfOne(b.ns, a);
  }

  lemma PairHistory(cfg: Config, a: Item, b: Item, now: Time)
    requires SlotOf(a) == SlotOf(b) && a.id != b.id && cfg.candidateK >= 1
    requires forall f :: f in [a, b] ==> FreshFact(Step(f.ns, f, [], now, now))
    ensures History(cfg, EMPTY, Pair(a, b, now))
  {
    assert a in [a, b] && b in [a, b];
    PairRun(cfg, a, b, now);
  }

  lemma FreshAppend(g: Graph, steps: seq<Step>, st: Step)
    requires FreshRun(g, steps) && FreshFact(st) && KeyOf(st.winner) !in g.nodes
    requires forall i :: 0 <= i < |steps| ==> KeyOf(steps[i].winner) != KeyOf(st.winner)
    ensures FreshRun(g, steps + [st])
  {
  }

  lemma HistoryAppend(cfg: Config, steps: seq<Step>, st: Step)
    requires History(cfg, EMPTY, steps) && FreshFact(st)
    requires forall i :: 0 <= i < |steps| ==> KeyOf(steps[i].winner) != KeyOf(st.winner)
    requires IsConflictList(Run(cfg, EMPTY, steps).graph, StepSlot(st), st.storeNow, st.hits)
    ensures History(cfg, EMPTY, steps + [st])
  {
    RunAppend(cfg, EMPTY, steps, st);
    FreshAppend(EMPTY.graph, steps, st);
  }
}
