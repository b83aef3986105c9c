/** As-of reads of a functional slot: they never leave a gap, and for facts arriving in order
    they replay the log of assertions. */
module DistillAsOf {
  import opened Common
  import opened GraphStore
  import opened Distill
  import opened DistillSafety
  import opened DistillHistory

  predicate Held(g: Graph, slot: Slot, at: Time, k: Key)
  {
    Member(g, slot, k) && HeldAt(g.nodes[k].props, at)
  }

  // ---- no gaps, in any arrival order -------------------------------------------------

  ghost predicate Answered(g: Graph, slot: Slot, at: Time) { exists k :: Held(g, slot, at, k) }

  /** `k` started at or before `at`. */
  predicate Begun(g: Graph, slot: Slot, at: Time, k: Key)
  {
    Member(g, slot, k) && g.nodes[k].props.validAt.Some? && g.nodes[k].props.validAt.value <= at
  }

  /** `k` is an answer at `at` that started no earlier than `from`. */
  predicate HeldSince(g: Graph, slot: Slot, at: Time, k: Key, from: Time)
  {
    Held(g, slot, at, k) && from <= Start(g, k)
  }

  ghost predicate AnsweredSince(g: Graph, slot: Slot, at: Time, from: Time)
  {
    exists k :: HeldSince(g, slot, at, k, from)
  }

  /** From the start of any stored fact on, every instant has an answer that started no earlier: the
      read never falls back behind a fact begun. */
  ghost predicate NoGaps(g: Graph, slot: Slot)
  {
    forall at, k :: Begun(g, slot, at, k) ==> AnsweredSince(g, slot, at, Start(g, k))
  }

  lemma NoGapsMoved(g: Graph, g': Graph, winner: Item, head: Key)
    requires Moved(g, g', winner, head) && NoGaps(g, SlotOf(winner))
    ensures NoGaps(g', SlotOf(winner))
  {
    var slot, mine := SlotOf(winner), KeyOf(winner);
    forall at, k | Begun(g', slot, at, k)
      ensures AnsweredSince(g', slot, at, Start(g', k))
    {
      assert PropsOf(g', k) == MovedProps(g, winner, head, k);
      assert PropsOf(g', mine) == MovedProps(g, winner, head, mine);
      assert PropsOf(g', head) == MovedProps(g, winner, head, head);
      if k == mine {
        assert HeldSince(g', slot, at, mine, Start(g', k)) || HeldSince(g', slot, at, head, Start(g', k));
      } else {
        assert Begun(g, slot, at, k) && Start(g', k) == Start(g, k);
        var j :| HeldSince(g, slot, at, j, Start(g, k));
        assert PropsOf(g', j) == MovedProps(g, winner, head, j);
        assert HeldSince(g', slot, at, j, Start(g', k)) || HeldSince(g', slot, at, mine, Start(g', k));
      }
    }
  }

  lemma NoGapsStep(g: Graph, g': Graph, winner: Item, slot: Slot)
    requires SlotStep(g, g', winner, slot) && NoGaps(g, slot)
    ensures NoGaps(g', slot)
  {
    if slot != SlotOf(winner) {
      forall at, k | Begun(g', slot, at, k)
        ensures AnsweredSince(g', slot, at, Start(g', k))
      {
        assert Member(g, slot, k) && PropsOf(g', k) == PropsOf(g, k);
        assert Begun(g, slot, at, k);
        var j :| HeldSince(g, slot, at, j, Start(g, k));
        assert PropsOf(g', j) == PropsOf(g, j);
        assert HeldSince(g', slot, at, j, Start(g', k));
      }
    } else if Opened(g, g', winner) {
      OpenedTimeline(g, g', winner);
      forall at, k | Begun(g', slot, at, k)
        ensures AnsweredSince(g', slot, at, Start(g', k))
      {
        assert PropsOf(g', KeyOf(winner)) == Some(ToStore(winner));
        assert HeldSince(g', slot, at, k, Start(g', k));
      }
    } else {
      var head :| Moved(g, g', winner, head);
      NoGapsMoved(g, g', winner, head);
    }
  }

  lemma {:induction false} RunNoGaps(cfg: Config, w: World, steps: seq<Step>, slot: Slot)
    requires History(cfg, w, steps) && Settled(w.graph, slot) && Functional(cfg, slot.pred) && NoGaps(w.graph, slot)
    ensures NoGaps(Run(cfg, w, steps).graph, slot)
  {
    if steps != [] {
      var last := |steps| - 1;
      LastSetting(cfg, w, steps);
      RunSettled(cfg, w, steps[..last], slot);
      RunNoGaps(cfg, w, steps[..last], slot);
      LastStep(cfg, w, steps, slot);
      NoGapsStep(Run(cfg, w, steps[..last]).graph, Run(cfg, w, steps).graph, steps[last].winner, slot);
    }
  }

  /** The interval is dated and does not end before it starts. */
  predicate Forward(p: Props)
  {
    p.validAt.Some? && (p.invalidAt == None || p.validAt.value <= p.invalidAt.value)
  }

  /** In any arrival order the intervals of a functional slot cover everything from its least stored
      start onward, at each instant with a fact as recent as any begun by then, and run forward. */
  lemma HistoryCovers(cfg: Config, w: World, steps: seq<Step>, slot: Slot)
    requires History(cfg, w, steps) && Functional(cfg, slot.pred) && Empty(w.graph, slot)
    ensures var g := Run(cfg, w, steps).graph;
      NoGaps(g, slot) && forall k :: Member(g, slot, k) ==> Forward(g.nodes[k].props)
  {
    RunNoGaps(cfg, w, steps, slot);
    RunSettled(cfg, w, steps, slot);
  }

  // ---- the as-of read replays the log, for facts arriving in order -------------------

  /** The facts of a slot in arrival order. */
  function LogOf(steps: seq<Step>, slot: Slot): seq<Item>
  {
    if steps == [] then []
    else
      var last := steps[|steps| - 1];
      LogOf(steps[..|steps| - 1], slot) + (if StepSlot(last) == slot then [last.winner] else [])
  }

  predicate InOrder(log: seq<Item>)
  {
    forall i, j :: 0 <= i < j < |log| ==> ValidAt(log[i]) <= ValidAt(log[j])
  }

  /** The last assertion that had started by `at`. */
  function LastAt(log: seq<Item>, at: Time): Option<Item>
  {
    if log == [] then None
    else if ValidAt(log[|log| - 1]) <= at then Some(log[|log| - 1])
    else LastAt(log[..|log| - 1], at)
  }

  /** `k` is the one answer at `at`, and it says what `a` asserted. */
  ghost predicate Answers(g: Graph, slot: Slot, at: Time, k: Key, a: Item)
  {
    Held(g, slot, at, k) && (forall j :: Held(g, slot, at, j) ==> j == k) &&
    g.nodes[k].props.obj == a.obj && g.nodes[k].props.polarity == a.polarity
  }

  ghost predicate AsAsserted(g: Graph, slot: Slot, log: seq<Item>, at: Time)
  {
    match LastAt(log, at)
    case None => !Answered(g, slot, at)
    case Some(a) => exists k :: Answers(g, slot, at, k, a)
  }

  /** Every stored fact started no later than the last assertion of the log. */
  ghost predicate Behind(g: Graph, slot: Slot, log: seq<Item>)
  {
    if log == [] then Empty(g, slot)
    else
      !Empty(g, slot) &&
      forall k :: Member(g, slot, k) ==>
        (g.nodes[k].props.validAt.Some? && Start(g, k) <= ValidAt(log[|log| - 1]))
  }

  ghost predicate Replays(g: Graph, slot: Slot, log: seq<Item>)
  {
    Behind(g, slot, log) && forall at :: AsAsserted(g, slot, log, at)
  }

  lemma ReplaysMoved(g: Graph, g': Graph, winner: Item, head: Key, log: seq<Item>, at: Time)
    requires Moved(g, g', winner, head) && Replays(g, SlotOf(winner), log) && InOrder(log + [winner])
    ensures AsAsserted(g', SlotOf(winner), log + [winner], at)
  {
    var slot, mine := SlotOf(winner), KeyOf(winner);
    assert log != [];
    assert (log + [winner])[|log| - 1] == log[|log| - 1] && (log + [winner])[|log|] == winner;
    assert Start(g, head) <= ValidAt(log[|log| - 1]) <= ValidAt(winner);
    assert (log + [winner])[..|log|] == log;
    assert AsAsserted(g, slot, log, at);
    assert PropsOf(g', mine) == MovedProps(g, winner, head, mine);
    assert PropsOf(g', head) == MovedProps(g, winner, head, head);
    forall j
      ensures Held(g', slot, at, j) <==>
        if SameValue(g.nodes[head].blob, winner) then Held(g, slot, at, j)
        else if j == mine then ValidAt(winner) <= at
        else Held(g, slot, at, j) && (j == head ==> at < ValidAt(winner))
    {
      assert PropsOf(g', j) == MovedProps(g, winner, head, j);
    }
    if ValidAt(winner) <= at {
      assert LastAt(log, at) == Some(log[|log| - 1]);
      assert Held(g, slot, at, head);
      var k :| Answers(g, slot, at, k, log[|log| - 1]);
      assert k == head;
      assert Answers(g', slot, at, if SameValue(g.nodes[head].blob, winner) then head else mine, winner);
    } else if LastAt(log, at).Some? {
      var a := LastAt(log, at).value;
      var k :| Answers(g, slot, at, k, a);
      assert PropsOf(g', k) == MovedProps(g, winner, head, k);
      assert Answers(g', slot, at, k, a);
    }
  }

  lemma BehindStep(g: Graph, g': Graph, winner: Item, slot: Slot, log: seq<Item>)
    requires SlotStep(g, g', winner, slot) && slot == SlotOf(winner)
    requires Behind(g, slot, log) && InOrder(log + [winner])
    ensures Behind(g', slot, log + [winner])
  {
    var newer := log + [winner];
    assert newer[|newer| - 1] == winner;
    assert log != [] ==> newer[|log| - 1] == log[|log| - 1];
    if Opened(g, g', winner) {
      OpenedTimeline(g, g', winner);
      assert PropsOf(g', KeyOf(winner)) == Some(ToStore(winner));
    } else {
      var head :| Moved(g, g', winner, head);
      TimelineMoves(g, g', winner, head);
      forall k | Member(g', slot, k)
        ensures g'.nodes[k].props.validAt.Some? && Start(g', k) <= ValidAt(winner)
      {
        assert PropsOf(g', k) == MovedProps(g, winner, head, k);
        assert k != KeyOf(winner) ==> Member(g, slot, k);
      }
    }
  }

  lemma ReplaysStep(g: Graph, g': Graph, winner: Item, slot: Slot, log: seq<Item>)
    requires SlotStep(g, g', winner, slot) && slot == SlotOf(winner)
    requires Replays(g, slot, log) && InOrder(log + [winner])
    ensures Replays(g', slot, log + [winner])
  {
    BehindStep(g, g', winner, slot, log);
    forall at
      ensures AsAsserted(g', slot, log + [winner], at)
    {
      if Opened(g, g', winner) {
        OpenedTimeline(g, g', winner);
        var mine := KeyOf(winner);
        assert PropsOf(g', mine) == Some(ToStore(winner));
        assert log == [] && log + [winner] == [winner] && [winner][..0] == [];
        assert Held(g', slot, at, mine) <==> ValidAt(winner) <= at;
        assert LastAt(log + [winner], at) == if ValidAt(winner) <= at then Some(winner) else None;
        if ValidAt(winner) <= at {
          assert Answers(g', slot, at, mine, winner);
        }
      } else {
        var head :| Moved(g, g', winner, head);
        ReplaysMoved(g, g', winner, head, log, at);
      }
    }
  }

  lemma ReplaysElsewhere(g: Graph, g': Graph, slot: Slot, log: seq<Item>)
    requires SameSlot(g, g', slot) && Replays(g, slot, log)
    ensures Replays(g', slot, log)
  {
    SameTimeline(g, g', slot);
    assert Behind(g', slot, log) by {
      forall k | Member(g', slot, k)
        ensures Member(g, slot, k) && PropsOf(g', k) == PropsOf(g, k)
      {
      }
      assert forall k :: Member(g, slot, k) ==> Member(g', slot, k);
    }
    forall at
      ensures AsAsserted(g', slot, log, at)
    {
      assert forall j :: Held(g', slot, at, j) <==> Held(g, slot, at, j) by {
        forall j
          ensures Held(g', slot, at, j) <==> Held(g, slot, at, j)
        {
          assert Member(g', slot, j) <==> Member(g, slot, j);
          assert Member(g, slot, j) ==> PropsOf(g', j) == PropsOf(g, j);
        }
      }
      assert AsAsserted(g, slot, log, at);
      if LastAt(log, at).Some? {
        var k :| Answers(g, slot, at, k, LastAt(log, at).value);
        assert PropsOf(g', k) == PropsOf(g, k);
        assert Answers(g', slot, at, k, LastAt(log, at).value);
      }
    }
  }

  lemma {:induction false} RunReplays(cfg: Config, w: World, steps: seq<Step>, slot: Slot)
    requires History(cfg, w, steps) && Functional(cfg, slot.pred) && Empty(w.graph, slot)
    requires InOrder(LogOf(steps, slot))
    ensures Replays(Run(cfg, w, steps).graph, slot, LogOf(steps, slot))
  {
    if steps != [] {
      var last := |steps| - 1;
      var log := LogOf(steps[..last], slot);
      assert LogOf(steps, slot)[..|log|] == log;
      assert forall i :: 0 <= i < |log| ==> log[i] == LogOf(steps, slot)[i];
      LastSetting(cfg, w, steps);
      RunReplays(cfg, w, steps[..last], slot);
      RunSettled(cfg, w, steps[..last], slot);
      LastStep(cfg, w, steps, slot);
      var g, g' := Run(cfg, w, steps[..last]).graph, Run(cfg, w, steps).graph;
      if StepSlot(steps[last]) == slot {
        ReplaysStep(g, g', steps[last].winner, slot, log);
      } else {
        assert LogOf(steps, slot) == log;
        ReplaysElsewhere(g, g', slot, log);
      }
    }
  }

  /** As-of reads refine the assertion log: at every instant the slot holds exactly one fact, the
      value of the last assertion begun by then, and none before the first. */
  lemma AsOfRefinesLog(cfg: Config, w: World, steps: seq<Step>, slot: Slot, at: Time)
    requires History(cfg, w, steps) && Functional(cfg, slot.pred) && Empty(w.graph, slot)
    requires InOrder(LogOf(steps, slot))
    ensures var g := Run(cfg, w, steps).graph;
      match LastAt(LogOf(steps, slot), at)
      case None => AsOf(g, slot, at) == {}
      case Some(a) => exists k ::
        (AsOf(g, slot, at) == {k} && g.nodes[k].props.obj == a.obj && g.nodes[k].props.polarity == a.polarity)
  {
    RunReplays(cfg, w, steps, slot);
    var g, log := Run(cfg, w, steps).graph, LogOf(steps, slot);
    assert AsAsserted(g, slot, log, at);
    if LastAt(log, at).Some? {
      var k :| Answers(g, slot, at, k, LastAt(log, at).value);
      forall j
        ensures j in AsOf(g, slot, at) <==> j == k
      {
        assert j in AsOf(g, slot, at) <==> Held(g, slot, at, j);
      }
      assert AsOf(g, slot, at) == {k};
    } else {
      forall j
        ensures j !in AsOf(g, slot, at)
      {
        assert !Held(g, slot, at, j);
      }
    }
  }
}
