/** Predicates with many values: at most one visible fact per object, unless a rival lies
    beyond the candidates the pipeline looks at. */
module DistillPlural {
  import opened Common
  import opened CommonLaws
  import opened GraphStore
  import opened Distill
  import opened DistillSafety

  /** No two visible facts of the slot speak about the same object. */
  ghost predicate ObjectsApart(g: Graph, slot: Slot, now: Time)
  {
    forall k, k' :: Conflicts(g, slot, now, k) && Conflicts(g, slot, now, k') ==>
      (g.nodes[k].props.obj == g.nodes[k'].props.obj ==> k == k')
  }

  /** A conflicting fact about the incoming object that the candidate limit cuts off. */
  ghost predicate Overlooked(cfg: Config, st: Step, c: Item)
  {
    c in st.hits && c.id != st.winner.id && c.obj == st.winner.obj && c !in Candidates(cfg, st.winner, st.hits)
  }

  ghost predicate Arrives(cfg: Config, w: World, st: Step)
  {
    Coherent(w.graph) && IsConflictList(w.graph, StepSlot(st), st.storeNow, st.hits) &&
    st.winner.ns == st.ns && !Functional(cfg, st.winner.pred) &&
    ObjectsApart(w.graph, StepSlot(st), st.storeNow)
  }

  /** A hit is the stored fact of its key. */
  lemma HitStored(cfg: Config, w: World, st: Step, c: Item)
    requires Arrives(cfg, w, st) && c in st.hits
    ensures Conflicts(w.graph, StepSlot(st), st.storeNow, Key(st.ns, c.id))
    ensures w.graph.nodes[Key(st.ns, c.id)].props == ToStore(c)
  {
    assert NodeCoherent(Key(st.ns, c.id), w.graph.nodes[Key(st.ns, c.id)]);
  }

  /** With the one rival overlooked, the incoming fact is stored beside it. */
  lemma OverlookedDecision(cfg: Config, w: World, st: Step, c: Item)
    requires Arrives(cfg, w, st) && Overlooked(cfg, st, c)
    ensures DecideStep(cfg, st).Insert?
  {
    var candidates := Candidates(cfg, st.winner, st.hits);
    CandidateMembers(cfg, st.winner, st.hits);
    SelectionMembers(cfg, st.winner, candidates);
    HitStored(cfg, w, st, c);
    forall d | d in candidates
      ensures d.obj != st.winner.obj
    {
      HitStored(cfg, w, st, d);
    }
    SomeElement(Identical(st.winner, candidates));
    SomeElement(Losers(cfg, st.winner, candidates));
  }

  lemma OverlookedClash(cfg: Config, w: World, st: Step, c: Item)
    requires Arrives(cfg, w, st) && Overlooked(cfg, st, c) && Visible(ToStore(st.winner), st.storeNow)
    ensures !ObjectsApart(Advance(cfg, w, st).graph, StepSlot(st), st.storeNow)
  {
    var g', k, mine := Advance(cfg, w, st).graph, Key(st.ns, c.id), KeyOf(st.winner);
    OverlookedDecision(cfg, w, st, c);
    HitStored(cfg, w, st, c);
    PropsAfter(cfg, w, st, k);
    PropsAfter(cfg, w, st, mine);
    assert Conflicts(g', StepSlot(st), st.storeNow, k) && Conflicts(g', StepSlot(st), st.storeNow, mine);
  }

  /** A rival among the candidates never stays visible beside the incoming fact. */
  lemma RivalSettled(cfg: Config, w: World, st: Step, k: Key)
    requires Arrives(cfg, w, st)
    requires Conflicts(w.graph, StepSlot(st), st.storeNow, k) && k != KeyOf(st.winner)
    requires w.graph.nodes[k].props.obj == st.winner.obj
    requires w.graph.nodes[k].blob in Candidates(cfg, st.winner, st.hits)
    ensures !DecideStep(cfg, st).Insert?
    ensures DecideStep(cfg, st).Replace? ==> k in KeysOf(st.ns, DecideStep(cfg, st).losers)
  {
    var c, candidates := w.graph.nodes[k].blob, Candidates(cfg, st.winner, st.hits);
    assert NodeCoherent(k, w.graph.nodes[k]);
    SelectionMembers(cfg, st.winner, candidates);
    if SameValue(c, st.winner) {
      assert c in Identical(st.winner, candidates);
    } else {
      assert c in Losers(cfg, st.winner, candidates);
    }
  }

  lemma NothingOverlooked(cfg: Config, w: World, st: Step, k: Key, k': Key)
    requires Arrives(cfg, w, st)
    requires !Visible(ToStore(st.winner), st.storeNow) || forall c :: !Overlooked(cfg, st, c)
    requires var g' := Advance(cfg, w, st).graph;
      Conflicts(g', StepSlot(st), st.storeNow, k) && Conflicts(g', StepSlot(st), st.storeNow, k') &&
      g'.nodes[k].props.obj == g'.nodes[k'].props.obj
    ensures k == k' || (k != KeyOf(st.winner) && k' != KeyOf(st.winner)) || DecideStep(cfg, st).Reinforce?
  {
    PropsAfter(cfg, w, st, k);
    PropsAfter(cfg, w, st, k');
    var mine := KeyOf(st.winner);
    if k != k' && (k == mine || k' == mine) && !DecideStep(cfg, st).Reinforce? {
      var other := if k == mine then k' else k;
      VisibleAfter(cfg, w, st, StepSlot(st), other);
      assert !Overlooked(cfg, st, w.graph.nodes[other].blob);
      assert NodeCoherent(other, w.graph.nodes[other]);
      RivalSettled(cfg, w, st, other);
    }
  }

  /** A many-valued predicate keeps one visible fact per object exactly when no rival of the incoming
      object lies beyond the candidate limit, or the incoming fact is not visible anyway. */
  lemma ObjectsApartExactly(cfg: Config, w: World, st: Step)
    requires Arrives(cfg, w, st)
    ensures ObjectsApart(Advance(cfg, w, st).graph, StepSlot(st), st.storeNow) <==>
      (!Visible(ToStore(st.winner), st.storeNow) || forall c :: !Overlooked(cfg, st, c))
  {
    var g', slot, now := Advance(cfg, w, st).graph, StepSlot(st), st.storeNow;
    if c :| Overlooked(cfg, st, c) && Visible(ToStore(st.winner), now) {
      OverlookedClash(cfg, w, st, c);
    } else {
      forall k, k' | Conflicts(g', slot, now, k) && Conflicts(g', slot, now, k') &&
        g'.nodes[k].props.obj == g'.nodes[k'].props.obj
        ensures k == k'
      {
        StillApart(cfg, w, st, k, k');
      }
    }
  }

  lemma StillApart(cfg: Config, w: World, st: Step, k: Key, k': Key)
    requires Arrives(cfg, w, st)
    requires !Visible(ToStore(st.winner), st.storeNow) || forall c :: !Overlooked(cfg, st, c)
    requires var g' := Advance(cfg, w, st).graph;
      Conflicts(g', StepSlot(st), st.storeNow, k) && Conflicts(g', StepSlot(st), st.storeNow, k') &&
      g'.nodes[k].props.obj == g'.nodes[k'].props.obj
    ensures k == k'
  {
    NothingOverlooked(cfg, w, st, k, k');
    StepTook(cfg, w, st);
    KeptApart(w.graph, Advance(cfg, w, st).graph, st, DecideStep(cfg, st), k, k');
  }

  /** Facts that were stored before are still apart. */
  lemma KeptApart(g: Graph, g': Graph, st: Step, d: Decision, k: Key, k': Key)
    requires Took(g, g', st, d) && ObjectsApart(g, StepSlot(st), st.storeNow)
    requires k == k' || (k != KeyOf(st.winner) && k' != KeyOf(st.winner)) || d.Reinforce?
    requires Conflicts(g', StepSlot(st), st.storeNow, k) && Conflicts(g', StepSlot(st), st.storeNow, k') &&
      g'.nodes[k].props.obj == g'.nodes[k'].props.obj
    ensures k == k'
  {
    assert PropsOf(g', k) == NextProps(g, st, d, k);
    assert PropsOf(g', k') == NextProps(g, st, d, k');
  }

  // ---- a run -------------------------------------------------------------------------

  /** The step stores its fact, visibly, beside a visible one about the same object: one beyond the
      candidate limit, or any one when the item belongs to another namespace and nothing is compared. */
  ghost predicate MissesRival(cfg: Config, w: World, st: Step, slot: Slot)
  {
    SlotOf(st.winner) == slot && Visible(ToStore(st.winner), st.storeNow) &&
    if st.winner.ns == st.ns then exists c :: Overlooked(cfg, st, c)
    else (DecideStep(cfg, st).Insert? || DecideStep(cfg, st).Replace?) && exists k :: Rival(w, st, slot, k)
  }

  ghost predicate Rival(w: World, st: Step, slot: Slot, k: Key)
  {
    k != KeyOf(st.winner) && Conflicts(w.graph, slot, st.storeNow, k) && w.graph.nodes[k].props.obj == st.winner.obj
  }

  lemma ApartLater(g: Graph, slot: Slot, before: Time, now: Time)
    requires ObjectsApart(g, slot, before) && before <= now
    ensures ObjectsApart(g, slot, now)
  {
    forall k, k' | Conflicts(g, slot, now, k) && Conflicts(g, slot, now, k')
      ensures g.nodes[k].props.obj == g.nodes[k'].props.obj ==> k == k'
    {
      assert Conflicts(g, slot, before, k) && Conflicts(g, slot, before, k');
    }
  }

  /** A fact of the slot that the step did not bring was there before, about the same object. */
  lemma OldStays(cfg: Config, w: World, st: Step, slot: Slot, k: Key)
    requires Coherent(w.graph) && IsConflictList(w.graph, StepSlot(st), st.storeNow, st.hits)
    requires Conflicts(Advance(cfg, w, st).graph, slot, st.storeNow, k)
    requires k != KeyOf(st.winner) || SlotOf(st.winner) != slot || DecideStep(cfg, st).Reinforce?
    ensures Conflicts(w.graph, slot, st.storeNow, k)
    ensures Advance(cfg, w, st).graph.nodes[k].props.obj == w.graph.nodes[k].props.obj
  {
    VisibleAfter(cfg, w, st, slot, k);
    PropsAfter(cfg, w, st, k);
  }

  /** An item of another namespace meets the slot of its own only when it is stored. */
  lemma StrayMisses(cfg: Config, w: World, st: Step, slot: Slot)
    requires Coherent(w.graph) && IsConflictList(w.graph, StepSlot(st), st.storeNow, st.hits)
    requires st.winner.ns != st.ns && SlotOf(st.winner) == slot && ObjectsApart(w.graph, slot, st.storeNow)
    ensures ObjectsApart(Advance(cfg, w, st).graph, slot, st.storeNow) <==> !MissesRival(cfg, w, st, slot)
  {
    var g', mine, now := Advance(cfg, w, st).graph, KeyOf(st.winner), st.storeNow;
    PropsAfter(cfg, w, st, mine);
    if MissesRival(cfg, w, st, slot) {
      var k :| Rival(w, st, slot, k);
      StrayLeaves(cfg, w, st, k);
      assert Conflicts(g', slot, now, k) && Conflicts(g', slot, now, mine);
    } else {
      forall k, k' | Conflicts(g', slot, now, k) && Conflicts(g', slot, now, k') && k != mine && k' != mine
        ensures g'.nodes[k].props.obj == g'.nodes[k'].props.obj ==> k == k'
      {
        OldStays(cfg, w, st, slot, k);
        OldStays(cfg, w, st, slot, k');
      }
      forall k | Conflicts(g', slot, now, k) && Conflicts(g', slot, now, mine) && k != mine
        ensures g'.nodes[k].props.obj != g'.nodes[mine].props.obj
      {
        OldStays(cfg, w, st, slot, k);
        if DecideStep(cfg, st).Reinforce? {
          OldStays(cfg, w, st, slot, mine);
        } else {
          assert DecideStep(cfg, st).Insert? || DecideStep(cfg, st).Replace?;
          assert !Rival(w, st, slot, k);
        }
      }
    }
  }

  lemma OtherSlotApart(cfg: Config, w: World, st: Step, slot: Slot)
    requires Coherent(w.graph) && IsConflictList(w.graph, StepSlot(st), st.storeNow, st.hits)
    requires SlotOf(st.winner) != slot && ObjectsApart(w.graph, slot, st.storeNow)
    ensures ObjectsApart(Advance(cfg, w, st).graph, slot, st.storeNow)
  {
    var g', now := Advance(cfg, w, st).graph, st.storeNow;
    forall k, k' | Conflicts(g', slot, now, k) && Conflicts(g', slot, now, k')
      ensures g'.nodes[k].props.obj == g'.nodes[k'].props.obj ==> k == k'
    {
      OldStays(cfg, w, st, slot, k);
      OldStays(cfg, w, st, slot, k');
    }
  }

  /** A reconcile of any fact keeps one visible fact per object of the slot exactly when it misses no rival. */
  lemma StepApart(cfg: Config, w: World, st: Step, slot: Slot, before: Time)
    requires Coherent(w.graph) && IsConflictList(w.graph, StepSlot(st), st.storeNow, st.hits)
    requires !Functional(cfg, slot.pred) && ObjectsApart(w.graph, slot, before) && before <= st.storeNow
    ensures ObjectsApart(Advance(cfg, w, st).graph, slot, st.storeNow) <==> !MissesRival(cfg, w, st, slot)
  {
    ApartLater(w.graph, slot, before, st.storeNow);
    if SlotOf(st.winner) != slot {
      OtherSlotApart(cfg, w, st, slot);
    } else if st.winner.ns != st.ns {
      StrayMisses(cfg, w, st, slot);
    } else {
      ObjectsApartExactly(cfg, w, st);
    }
  }

  ghost predicate ApartAfter(cfg: Config, w: World, steps: seq<Step>, slot: Slot, from: Time, n: int)
  {
    0 <= n <= |steps| ==> ObjectsApart(Run(cfg, w, steps[..n]).graph, slot, EndTime(steps[..n], from))
  }

  ghost predicate MissesAt(cfg: Config, w: World, steps: seq<Step>, slot: Slot, n: int)
  {
    0 <= n < |steps| && MissesRival(cfg, Run(cfg, w, steps[..n]), steps[n], slot)
  }

  lemma ApartNext(cfg: Config, w: World, steps: seq<Step>, slot: Slot, from: Time, n: nat)
    requires Coherent(w.graph) && ValidRun(cfg, w, steps) && Orderly(steps, from) && !Functional(cfg, slot.pred)
    requires n < |steps| && ApartAfter(cfg, w, steps, slot, from, n)
    ensures ApartAfter(cfg, w, steps, slot, from, n + 1) <==> !MissesAt(cfg, w, steps, slot, n)
  {
    RunAt(cfg, w, steps, n);
    RunCoherent(cfg, w, steps[..n]);
    StepApart(cfg, Run(cfg, w, steps[..n]), steps[n], slot, EndTime(steps[..n], from));
  }

  /** Over any run, a many-valued predicate keeps one visible fact per object after every reconcile if and
      only if no step misses a rival. */
  lemma RunApartExactly(cfg: Config, w: World, steps: seq<Step>, slot: Slot, from: Time)
    requires Coherent(w.graph) && ObjectsApart(w.graph, slot, from) && !Functional(cfg, slot.pred)
    requires ValidRun(cfg, w, steps) && Orderly(steps, from)
    ensures (forall n :: 0 <= n <= |steps| ==> ApartAfter(cfg, w, steps, slot, from, n)) <==>
      (forall n :: 0 <= n < |steps| ==> !MissesAt(cfg, w, steps, slot, n))
  {
    var holds := n => ApartAfter(cfg, w, steps, slot, from, n);
    var breaks := n => MissesAt(cfg, w, steps, slot, n);
    assert holds(0);
    forall n | 0 <= n < |steps| && holds(n)
      ensures holds(n + 1) <==> !breaks(n)
    {
      ApartNext(cfg, w, steps, slot, from, n);
    }
    LastsExactly(holds, breaks, |steps|);
    assert forall n :: holds(n) <==> ApartAfter(cfg, w, steps, slot, from, n);
    assert forall n :: breaks(n) <==> MissesAt(cfg, w, steps, slot, n);
  }

  // ---- a rival overlooked ------------------------------------------------------------

  /** Two facts with different objects of a many-valued predicate are stored side by side. */
  lemma TwoObjects(cfg: Config, x: Item, y: Item, now: Time)
    requires SlotOf(x) == SlotOf(y) && x.id != y.id && x.obj != y.obj && !Functional(cfg, y.pred) && cfg.candidateK >= 1
    requires Visible(ToStore(x), now)
    ensures ValidRun(cfg, EMPTY, Pair(x, y, now))
    ensures Run(cfg, EMPTY, Pair(x, y, now)).graph == Upsert(Upsert(EMPTY.graph, x), y)
  {
    PairRun(cfg, x, y, now);
    DecideAgainstOne(cfg, y, x);
  }

  lemma TwoNodes(x: Item, y: Item, now: Time)
    requires SlotOf(x) == SlotOf(y) && x.id != y.id && x.obj != y.obj
    requires Visible(ToStore(x), now) && Visible(ToStore(y), now)
    ensures var g := Upsert(Upsert(EMPTY.graph, x), y);
      Coherent(g) && IsConflictList(g, SlotOf(y), now, [x, y]) && ObjectsApart(g, SlotOf(y), now)
  {
    UpsertCoherent(EMPTY.graph, x);
    UpsertCoherent(Upsert(EMPTY.graph, x), y);
    var g := Upsert(Upsert(EMPTY.graph, x), y);
    assert g.nodes[KeyOf(x)].blob == x && g.nodes[KeyOf(y)].blob == y;
    forall k | Conflicts(g, SlotOf(y), now, k)
      ensures k == KeyOf(x) || k == KeyOf(y)
    {
    }
  }

  lemma FirstOnly(cfg: Config, winner: Item, x: Item, y: Item)
    requires cfg.candidateK == 1 && winner.id != x.id && winner.id != y.id
    ensures Candidates(cfg, winner, [x, y]) == [x]
  {
    FilterUniform((c: Item) => c.id != winner.id, [x, y]);
  }

  /** With one candidate, a second fact about an object listed second is stored beside the first. */
  lemma RivalOverlooked(cfg: Config, pred: string) returns (steps: seq<Step>)
    requires cfg.candidateK == 1 && !Functional(cfg, pred)
    ensures ValidRun(cfg, EMPTY, steps) && |steps| == 3
    ensures ObjectsApart(Run(cfg, EMPTY, steps[..2]).graph, Slot("n", "s", pred), 0)
    ensures !ObjectsApart(Run(cfg, EMPTY, steps).graph, Slot("n", "s", pred), 0)
  {
    var x, y, z := Plain("a", pred, "x", 0), Plain("b", pred, "y", 0), Plain("c", pred, "y", 0);
    var two, third := Pair(x, y, 0), Step("n", z, [x, y], 0, 0);
    steps := two + [third];
    assert steps[..2] == two;
    TwoObjects(cfg, x, y, 0);
    TwoNodes(x, y, 0);
    FirstOnly(cfg, z, x, y);
    RunAppend(cfg, EMPTY, two, third);
    assert Overlooked(cfg, third, y);
    OverlookedClash(cfg, Run(cfg, EMPTY, two), third, y);
  }
}
