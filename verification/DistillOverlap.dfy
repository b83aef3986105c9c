/** Overlaps: exactly when two facts of a functional slot come to hold at once, by one arrival
    and over a whole run. */
module DistillOverlap {
  import opened Common
  import opened GraphStore
  import opened Distill
  import opened DistillSafety
  import opened DistillHistory
  import opened DistillAsOf

  // ---- one arrival -------------------------------------------------------------------

  ghost predicate SingleValued(g: Graph, slot: Slot)
  {
    forall at, k, k' :: Held(g, slot, at, k) && Held(g, slot, at, k') ==> k == k'
  }

  /** Some stored fact started before the head did. */
  ghost predicate HasPast(g: Graph, slot: Slot, head: Key)
    requires Timeline(g, slot, head)
  {
    exists k :: Member(g, slot, k) && k != head && Start(g, k) < Start(g, head)
  }

  /** A fact that arrives late, older than the head and different from it, overlaps the history if and
      only if the slot already has a past; no other arrival ever does. */
  lemma OverlapExactly(g: Graph, g': Graph, winner: Item, head: Key)
    requires Moved(g, g', winner, head) && NoGaps(g, SlotOf(winner)) && SingleValued(g, SlotOf(winner))
    ensures var h := g.nodes[head].blob;
      SingleValued(g', SlotOf(winner)) <==>
        (SameValue(h, winner) || Start(g, head) <= ValidAt(winner) || !HasPast(g, SlotOf(winner), head))
  {
    var slot, h, mine := SlotOf(winner), g.nodes[head].blob, KeyOf(winner);
    if !SameValue(h, winner) && ValidAt(winner) < Start(g, head) && HasPast(g, slot, head) {
      var m :| Member(g, slot, m) && m != head && Start(g, m) < Start(g, head);
      var at := if Start(g, m) < ValidAt(winner) then ValidAt(winner) else Start(g, m);
      assert Begun(g, slot, at, m);
      var j :| HeldSince(g, slot, at, j, Start(g, m));
      assert PropsOf(g', j) == MovedProps(g, winner, head, j);
      assert PropsOf(g', mine) == MovedProps(g, winner, head, mine);
      assert Held(g', slot, at, j) && Held(g', slot, at, mine) && j != mine;
    } else {
      forall at, k, k' | Held(g', slot, at, k) && Held(g', slot, at, k')
        ensures k == k'
      {
        assert PropsOf(g', k) == MovedProps(g, winner, head, k);
        assert PropsOf(g', k') == MovedProps(g, winner, head, k');
        assert k != mine ==> Held(g, slot, at, k) || k == head;
        assert k' != mine ==> Held(g, slot, at, k') || k' == head;
      }
    }
  }

  // ---- a run -------------------------------------------------------------------------

  /** The arrival is older than the slot's head, different from it, and finds a slot with a past. */
  ghost predicate Late(g: Graph, winner: Item)
  {
    exists head :: LateFor(g, winner, head)
  }

  ghost predicate LateFor(g: Graph, winner: Item, head: Key)
  {
    Timeline(g, SlotOf(winner), head) && !SameValue(g.nodes[head].blob, winner) &&
    ValidAt(winner) < Start(g, head) && HasPast(g, SlotOf(winner), head)
  }

  lemma OneHead(g: Graph, slot: Slot, head: Key, other: Key)
    requires Timeline(g, slot, head) && Timeline(g, slot, other)
    ensures head == other
  {
  }

  /** Facts that hold at once are both closed, so no later arrival parts them. */
  lemma OverlapStays(g: Graph, g': Graph, winner: Item, head: Key)
    requires Moved(g, g', winner, head) && !SingleValued(g, SlotOf(winner))
    ensures !SingleValued(g', SlotOf(winner))
  {
    var slot := SlotOf(winner);
    var at, k, k' :| Held(g, slot, at, k) && Held(g, slot, at, k') && k != k';
    assert k != head && k' != head;
    assert PropsOf(g', k) == MovedProps(g, winner, head, k);
    assert PropsOf(g', k') == MovedProps(g, winner, head, k');
    assert Held(g', slot, at, k) && Held(g', slot, at, k');
  }

  lemma OverlapElsewhere(g: Graph, g': Graph, slot: Slot)
    requires SameSlot(g, g', slot)
    ensures SingleValued(g', slot) <==> SingleValued(g, slot)
  {
    forall at, k
      ensures Held(g', slot, at, k) <==> Held(g, slot, at, k)
    {
      assert Member(g', slot, k) <==> Member(g, slot, k);
      assert Member(g, slot, k) ==> PropsOf(g', k) == PropsOf(g, k);
    }
  }

  lemma OverlapStep(g: Graph, g': Graph, winner: Item, slot: Slot)
    requires SlotStep(g, g', winner, slot) && NoGaps(g, slot)
    ensures SingleValued(g', slot) <==> SingleValued(g, slot) && (slot == SlotOf(winner) ==> !Late(g, winner))
  {
    if slot != SlotOf(winner) {
      OverlapElsewhere(g, g', slot);
    } else if Opened(g, g', winner) {
      OpenedTimeline(g, g', winner);
    } else {
      var head :| Moved(g, g', winner, head);
      forall other | Timeline(g, slot, other)
        ensures other == head
      {
        OneHead(g, slot, head, other);
      }
      assert Late(g, winner) <==> LateFor(g, winner, head);
      if SingleValued(g, slot) {
        OverlapExactly(g, g', winner, head);
      } else {
        OverlapStays(g, g', winner, head);
      }
    }
  }

  /** Some arrival of the run was late for the slot. */
  ghost predicate SomeLateArrival(cfg: Config, w: World, steps: seq<Step>, slot: Slot)
  {
    exists i :: LateArrival(cfg, w, steps, slot, i)
  }

  ghost predicate LateArrival(cfg: Config, w: World, steps: seq<Step>, slot: Slot, i: int)
  {
    0 <= i < |steps| && SlotOf(steps[i].winner) == slot && Late(Run(cfg, w, steps[..i]).graph, steps[i].winner)
  }

  lemma LateArrivalNext(cfg: Config, w: World, steps: seq<Step>, slot: Slot)
    requires steps != []
    ensures SomeLateArrival(cfg, w, steps, slot) <==>
      SomeLateArrival(cfg, w, steps[..|steps| - 1], slot) || LateArrival(cfg, w, steps, slot, |steps| - 1)
  {
    var last := |steps| - 1;
    forall i
      ensures LateArrival(cfg, w, steps, slot, i) <==>
        LateArrival(cfg, w, steps[..last], slot, i) || (i == last && LateArrival(cfg, w, steps, slot, last))
    {
      if 0 <= i < last {
        assert steps[..last][..i] == steps[..i];
      }
    }
  }

  /** The history a run builds from an empty slot holds one fact at a time if and only if no arrival was
      late: older than the head, different from it, and met by a slot with a past. */
  lemma {:induction false} RunOverlapsExactly(cfg: Config, w: World, steps: seq<Step>, slot: Slot)
    requires History(cfg, w, steps) && Functional(cfg, slot.pred) && Empty(w.graph, slot)
    ensures SingleValued(Run(cfg, w, steps).graph, slot) <==> !SomeLateArrival(cfg, w, steps, slot)
  {
    if steps != [] {
      var last := |steps| - 1;
      LastSetting(cfg, w, steps);
      RunOverlapsExactly(cfg, w, steps[..last], slot);
      RunSettled(cfg, w, steps[..last], slot);
      RunNoGaps(cfg, w, steps[..last], slot);
      LastStep(cfg, w, steps, slot);
      OverlapStep(Run(cfg, w, steps[..last]).graph, Run(cfg, w, steps).graph, steps[last].winner, slot);
      LateArrivalNext(cfg, w, steps, slot);
    }
  }

  // ---- a run that overlaps -----------------------------------------------------------

  /** A third fact that starts between the first two is late. */
  lemma ThirdIsLate(cfg: Config, a: Item, b: Item, c: Item, now: Time)
    requires SlotOf(a) == SlotOf(b) == SlotOf(c) && a.id != b.id && cfg.candidateK >= 1
    requires forall f :: f in [a, b] ==> FreshFact(Step(f.ns, f, [], now, now))
    requires Contradicts(cfg, b, a) && !SameValue(a, b) && !SameValue(b, c) && ValidAt(a) < ValidAt(b) &&
      ValidAt(c) < ValidAt(b)
    ensures Late(Run(cfg, EMPTY, Pair(a, b, now)).graph, c)
  {
    var g, slot := Run(cfg, EMPTY, Pair(a, b, now)).graph, SlotOf(c);
    assert a in [a, b] && b in [a, b];
    PairHistory(cfg, a, b, now);
    TwoFactsStored(cfg, a, b, now);
    assert KeyOf(a) in g.nodes && KeyOf(a) != KeyOf(b);
    assert Timeline(g, slot, KeyOf(b));
    assert Member(g, slot, KeyOf(a)) && Start(g, KeyOf(a)) < Start(g, KeyOf(b));
    assert LateFor(g, c, KeyOf(b));
  }

  lemma ThirdOverlaps(cfg: Config, a: Item, b: Item, c: Item, now: Time) returns (steps: seq<Step>)
    requires SlotOf(a) == SlotOf(b) == SlotOf(c) && a.id != b.id && c.id != a.id && c.id != b.id
    requires forall f :: f in [a, b, c] ==> FreshFact(Step(f.ns, f, [], now, now))
    requires cfg.candidateK >= 1 && Functional(cfg, c.pred) && Late(Run(cfg, EMPTY, Pair(a, b, now)).graph, c)
    ensures History(cfg, EMPTY, steps) && !SingleValued(Run(cfg, EMPTY, steps).graph, SlotOf(c))
  {
    var two := Pair(a, b, now);
    assert a in [a, b, c] && b in [a, b, c] && c in [a, b, c];
    PairHistory(cfg, a, b, now);
    RunCoherent(cfg, EMPTY, two);
    var hits := SomeConflictList(Run(cfg, EMPTY, two).graph, SlotOf(c), now);
    steps := two + [Step(c.ns, c, hits, now, now)];
    HistoryAppend(cfg, two, steps[2]);
    assert steps[..2] == two;
    assert LateArrival(cfg, EMPTY, steps, SlotOf(c), 2);
    RunOverlapsExactly(cfg, EMPTY, steps, SlotOf(c));
  }

  /** Facts starting at 1, 5 and then 3 hold at once. */
  lemma OverlappingRun(cfg: Config, pred: string) returns (steps: seq<Step>)
    requires cfg.candidateK >= 1 && Functional(cfg, pred)
    ensures History(cfg, EMPTY, steps) && !SingleValued(Run(cfg, EMPTY, steps).graph, Slot("n", "s", pred))
  {
    var a, b, c := Plain("a", pred, "x", 1), Plain("b", pred, "y", 5), Plain("c", pred, "z", 3);
    ThirdIsLate(cfg, a, b, c, 0);
    steps := ThirdOverlaps(cfg, a, b, c, 0);
  }
}
