/** Arrival order does not decide which fact is live: for facts of one functional slot that
    differ in value and start, every order stores the same facts and ends at the same head. */
module DistillOrder {
  import opened Common
  import opened GraphStore
  import opened Distill
  import opened DistillSafety
  import opened DistillHistory
  import opened DistillAsOf

  /** Different facts of the log differ in value and in start. */
  ghost predicate AllDiffer(log: seq<Item>)
  {
    forall a, b :: a in log && b in log && a != b ==> !SameValue(a, b) && ValidAt(a) != ValidAt(b)
  }

  predicate StoredAs(g: Graph, slot: Slot, a: Item)
  {
    Member(g, slot, KeyOf(a)) &&
    var p := g.nodes[KeyOf(a)].props;
    p.obj == a.obj && p.polarity == a.polarity && p.validAt == Some(ValidAt(a))
  }

  /** The slot stores exactly the facts of the log, with their value and start. */
  ghost predicate StoresLog(g: Graph, slot: Slot, log: seq<Item>)
  {
    (forall a :: a in log ==> StoredAs(g, slot, a)) &&
    (forall k :: Member(g, slot, k) ==> exists a :: a in log && k == KeyOf(a))
  }

  lemma StoresOpened(g: Graph, g': Graph, winner: Item, log: seq<Item>)
    requires Opened(g, g', winner) && StoresLog(g, SlotOf(winner), log)
    ensures StoresLog(g', SlotOf(winner), log + [winner])
  {
    OpenedTimeline(g, g', winner);
    assert PropsOf(g', KeyOf(winner)) == Some(ToStore(winner));
    assert forall a :: a in log ==> Member(g, SlotOf(winner), KeyOf(a));
    SomeElement(log);
    assert winner in log + [winner];
  }

  lemma StoresMoved(g: Graph, g': Graph, winner: Item, head: Key, log: seq<Item>)
    requires Moved(g, g', winner, head) && StoresLog(g, SlotOf(winner), log)
    requires !SameValue(g.nodes[head].blob, winner)
    ensures StoresLog(g', SlotOf(winner), log + [winner])
  {
    var slot, newer := SlotOf(winner), log + [winner];
    forall a | a in newer
      ensures StoredAs(g', slot, a)
    {
      assert PropsOf(g', KeyOf(a)) == MovedProps(g, winner, head, KeyOf(a));
      assert a != winner ==> StoredAs(g, slot, a);
    }
    forall k | Member(g', slot, k)
      ensures exists a :: a in newer && k == KeyOf(a)
    {
      assert PropsOf(g', k) == MovedProps(g, winner, head, k);
      if k == KeyOf(winner) {
        assert winner in newer;
      } else {
        assert Member(g, slot, k);
        var a :| a in log && k == KeyOf(a);
        assert a in newer;
      }
    }
  }

  lemma HeadDiffers(g: Graph, g': Graph, winner: Item, head: Key, log: seq<Item>)
    requires Moved(g, g', winner, head) && StoresLog(g, SlotOf(winner), log) && AllDiffer(log + [winner])
    ensures !SameValue(g.nodes[head].blob, winner)
  {
    var h :| h in log && head == KeyOf(h);
    assert StoredAs(g, SlotOf(winner), h) && h != winner;
    assert h in log + [winner] && winner in log + [winner];
  }

  lemma StoresStep(g: Graph, g': Graph, winner: Item, slot: Slot, log: seq<Item>)
    requires SlotStep(g, g', winner, slot) && slot == SlotOf(winner)
    requires StoresLog(g, slot, log) && AllDiffer(log + [winner])
    ensures StoresLog(g', slot, log + [winner])
  {
    if Opened(g, g', winner) {
      StoresOpened(g, g', winner, log);
    } else {
      var head :| Moved(g, g', winner, head);
      HeadDiffers(g, g', winner, head, log);
      StoresMoved(g, g', winner, head, log);
    }
  }

  lemma {:induction false} RunStoresLog(cfg: Config, w: World, steps: seq<Step>, slot: Slot)
    requires History(cfg, w, steps) && Functional(cfg, slot.pred) && Empty(w.graph, slot)
    requires AllDiffer(LogOf(steps, slot))
    ensures StoresLog(Run(cfg, w, steps).graph, slot, LogOf(steps, slot))
  {
    if steps != [] {
      var last := |steps| - 1;
      var log := LogOf(steps[..last], slot);
      assert forall a :: a in log ==> a in LogOf(steps, slot);
      LastSetting(cfg, w, steps);
      RunStoresLog(cfg, w, steps[..last], slot);
      RunSettled(cfg, w, steps[..last], slot);
      LastStep(cfg, w, steps, slot);
      var g, g' := Run(cfg, w, steps[..last]).graph, Run(cfg, w, steps).graph;
      if StepSlot(steps[last]) == slot {
        StoresStep(g, g', steps[last].winner, slot, log);
      } else {
        assert LogOf(steps, slot) == log;
        forall a | a in log
          ensures StoredAs(g', slot, a)
        {
          assert StoredAs(g, slot, a);
          assert PropsOf(g', KeyOf(a)) == PropsOf(g, KeyOf(a));
        }
      }
    }
  }

  /** `a` is the live fact of the slot. */
  ghost predicate Live(g: Graph, slot: Slot, a: Item) { Timeline(g, slot, KeyOf(a)) && StoredAs(g, slot, a) }

  lemma LatestIsLive(g: Graph, slot: Slot, log: seq<Item>) returns (a: Item)
    requires StoresLog(g, slot, log) && Settled(g, slot) && log != []
    ensures a in log && Live(g, slot, a) && forall b :: b in log ==> ValidAt(b) <= ValidAt(a)
  {
    assert StoredAs(g, slot, log[0]);
    var head :| Timeline(g, slot, head);
    a :| a in log && head == KeyOf(a);
    assert StoredAs(g, slot, a);
    forall b | b in log
      ensures ValidAt(b) <= ValidAt(a)
    {
      assert StoredAs(g, slot, b);
    }
  }

  ghost predicate SameMembers(g: Graph, g': Graph, slot: Slot)
  {
    forall k :: Member(g, slot, k) <==> Member(g', slot, k)
  }

  /** Both graphs have the same live fact, one of the log. */
  ghost predicate SameLive(g: Graph, g': Graph, slot: Slot, log: seq<Item>)
  {
    exists a :: a in log && Live(g, slot, a) && Live(g', slot, a)
  }

  lemma SameStores(g: Graph, g': Graph, slot: Slot, log: seq<Item>)
    requires StoresLog(g, slot, log) && StoresLog(g', slot, log)
    ensures SameMembers(g, g', slot)
  {
    forall k
      ensures Member(g, slot, k) <==> Member(g', slot, k)
    {
      if Member(g, slot, k) {
        var a :| a in log && k == KeyOf(a);
        assert StoredAs(g', slot, a);
      }
      if Member(g', slot, k) {
        var a :| a in log && k == KeyOf(a);
        assert StoredAs(g, slot, a);
      }
    }
  }

  lemma SameLatest(g: Graph, g': Graph, slot: Slot, log: seq<Item>)
    requires StoresLog(g, slot, log) && StoresLog(g', slot, log)
    requires AllDiffer(log) && log != [] && Settled(g, slot) && Settled(g', slot)
    ensures SameLive(g, g', slot, log)
  {
    var a := LatestIsLive(g, slot, log);
    var a' := LatestIsLive(g', slot, log);
    assert a == a';
  }

  lemma StoresSameSet(g: Graph, slot: Slot, log: seq<Item>, log': seq<Item>)
    requires StoresLog(g, slot, log') && multiset(log) == multiset(log')
    ensures StoresLog(g, slot, log)
  {
    forall a
      ensures a in log <==> a in log'
    {
      assert a in log <==> a in multiset(log);
    }
  }

  /** Two arrival orders of the same facts store the same ids and leave the same fact live: the one of
      greatest start. */
  lemma {:induction false} ArrivalOrderIrrelevant(cfg: Config, w: World, steps: seq<Step>, steps': seq<Step>,
                                                  slot: Slot)
    requires History(cfg, w, steps) && History(cfg, w, steps') && Functional(cfg, slot.pred) && Empty(w.graph, slot)
    requires multiset(LogOf(steps, slot)) == multiset(LogOf(steps', slot)) && AllDiffer(LogOf(steps, slot))
    ensures SameMembers(Run(cfg, w, steps).graph, Run(cfg, w, steps').graph, slot)
    ensures LogOf(steps, slot) != [] ==>
      SameLive(Run(cfg, w, steps).graph, Run(cfg, w, steps').graph, slot, LogOf(steps, slot))
  {
    var log, log' := LogOf(steps, slot), LogOf(steps', slot);
    assert AllDiffer(log') by {
      forall a
        ensures a in log <==> a in log'
      {
        assert a in log <==> a in multiset(log);
      }
    }
    RunStoresLog(cfg, w, steps, slot);
    RunStoresLog(cfg, w, steps', slot);
    StoresSameSet(Run(cfg, w, steps').graph, slot, log, log');
    SameStores(Run(cfg, w, steps).graph, Run(cfg, w, steps').graph, slot, log);
    RunSettled(cfg, w, steps, slot);
    RunSettled(cfg, w, steps', slot);
    if log != [] {
      SameLatest(Run(cfg, w, steps).graph, Run(cfg, w, steps').graph, slot, log);
    }
  }
}
