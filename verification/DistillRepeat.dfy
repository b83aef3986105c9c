/** A stored fact distilled again under its own id: exactly when the history of its slot stays
    as it was. */
module DistillRepeat {
  import opened Common
  import opened GraphStore
  import opened Distill
  import opened DistillSafety
  import opened DistillHistory
  import opened DistillChains

  /** `winner` is the fact stored under its key, as it was first promoted: active and without an end. */
  predicate Again(g: Graph, winner: Item)
  {
    KeyOf(winner) in g.nodes && winner.state == Active && winner.invalidAt == None && winner.validAt.Some? &&
    var p := g.nodes[KeyOf(winner)].props;
    p.subj == winner.subj && p.pred == winner.pred && p.obj == winner.obj && p.polarity == winner.polarity &&
    p.validAt == winner.validAt
  }

  /** A settled functional slot meets one of its facts again. */
  ghost predicate Repeats(cfg: Config, w: World, st: Step, head: Key)
  {
    Coherent(w.graph) && cfg.candidateK >= 1 && Functional(cfg, st.winner.pred) &&
    IsConflictList(w.graph, StepSlot(st), st.storeNow, st.hits) && st.winner.ns == st.ns &&
    Timeline(w.graph, StepSlot(st), head) && Again(w.graph, st.winner)
  }

  /** Every node and every supersession edge is as it was. */
  ghost predicate HistorySame(g: Graph, g': Graph)
  {
    (forall k :: PropsOf(g', k) == PropsOf(g, k)) && (forall k, to :: Linked(g', k, to) <==> Linked(g, k, to))
  }

  /** The head alone is visible; met again it has no rival. */
  lemma HeadAgain(cfg: Config, w: World, st: Step, head: Key)
    requires Repeats(cfg, w, st, head) && KeyOf(st.winner) == head
    ensures DecideStep(cfg, st) == Insert(true)
  {
    var h := w.graph.nodes[head].blob;
    assert NodeCoherent(head, w.graph.nodes[head]);
    forall x | x in st.hits
      ensures x == h
    {
      assert Conflicts(w.graph, StepSlot(st), st.storeNow, Key(st.ns, x.id));
    }
    assert Conflicts(w.graph, StepSlot(st), st.storeNow, head);
    OnlyHit(st.hits, h);
    FilterOne((c: Item) => c.id != st.winner.id, h);
  }

  lemma PastAgain(cfg: Config, w: World, st: Step, head: Key)
    requires Repeats(cfg, w, st, head) && KeyOf(st.winner) != head
    ensures var h := w.graph.nodes[head].blob;
      ToStore(h) == w.graph.nodes[head].props && KeyOf(h) == head &&
      DecideStep(cfg, st) ==
        if SameValue(h, st.winner) then Reinforce(h)
        else if ValidAt(h) > ValidAt(st.winner) then Expire(h)
        else Replace([h])
  {
    assert NodeCoherent(head, w.graph.nodes[head]);
    SoleCandidate(cfg, w, st, head);
    DecideAgainstOne(cfg, st.winner, w.graph.nodes[head].blob);
  }

  /** Nothing is rewritten: the fact is the head; or the head has its value; or the fact already ends
      where the head starts, and points at it. */
  predicate Unmoved(g: Graph, winner: Item, head: Key)
    requires head in g.nodes && KeyOf(winner) in g.nodes
  {
    var h, p := g.nodes[head].blob, g.nodes[KeyOf(winner)].props;
    KeyOf(winner) == head || SameValue(h, winner) ||
    (ValidAt(winner) < ValidAt(h) && p.invalidAt == Some(ValidAt(h)) && Linked(g, KeyOf(winner), head))
  }

  lemma PropsRepeat(g: Graph, g': Graph, st: Step, d: Decision, head: Key)
    requires Took(g, g', st, d) && Timeline(g, StepSlot(st), head) && Again(g, st.winner) && st.winner.ns == st.ns
    requires ToStore(g.nodes[head].blob) == g.nodes[head].props
    requires if KeyOf(st.winner) == head then d == Insert(true)
             else d == (var h := g.nodes[head].blob;
               if SameValue(h, st.winner) then Reinforce(h)
               else if ValidAt(h) > ValidAt(st.winner) then Expire(h)
               else Replace([h]))
    ensures (forall k :: PropsOf(g', k) == PropsOf(g, k)) <==>
      (KeyOf(st.winner) == head || SameValue(g.nodes[head].blob, st.winner) ||
       (ValidAt(st.winner) < ValidAt(g.nodes[head].blob) &&
        g.nodes[KeyOf(st.winner)].props.invalidAt == Some(ValidAt(g.nodes[head].blob))))
  {
    var mine := KeyOf(st.winner);
    assert PropsOf(g', mine) == NextProps(g, st, d, mine);
    assert mine != head ==> Closed(g.nodes[mine].props, Start(g, head));
    if !d.Replace? {
      forall k | k != mine
        ensures PropsOf(g', k) == PropsOf(g, k)
      {
        assert PropsOf(g', k) == NextProps(g, st, d, k);
      }
    }
  }

  /** A fact of a functional slot distilled again under its own id leaves the slot's history as it was if
      and only if it is the live fact, or the live fact has its value, or it already ended at the live
      fact's start with an edge to it. */
  lemma RepeatKeepsHistoryExactly(cfg: Config, w: World, st: Step, head: Key)
    requires Repeats(cfg, w, st, head)
    ensures HistorySame(w.graph, Advance(cfg, w, st).graph) <==> Unmoved(w.graph, st.winner, head)
  {
    var g, g', mine := w.graph, Advance(cfg, w, st).graph, KeyOf(st.winner);
    assert NodeCoherent(head, g.nodes[head]);
    StepTook(cfg, w, st);
    if mine == head {
      HeadAgain(cfg, w, st, head);
    } else {
      PastAgain(cfg, w, st, head);
    }
    PropsRepeat(g, g', st, DecideStep(cfg, st), head);
    if !DecideStep(cfg, st).Replace? {
      EdgesRepeat(cfg, w, st, head);
    }
  }

  lemma EdgesRepeat(cfg: Config, w: World, st: Step, head: Key)
    requires IsConflictList(w.graph, StepSlot(st), st.storeNow, st.hits) && st.winner.ns == st.ns
    requires DecideStep(cfg, st).Expire? ==> Key(st.ns, DecideStep(cfg, st).newest.id) == head
    requires !DecideStep(cfg, st).Replace?
    ensures (forall k, to :: Linked(Advance(cfg, w, st).graph, k, to) <==> Linked(w.graph, k, to)) <==>
      (DecideStep(cfg, st).Expire? ==> Linked(w.graph, KeyOf(st.winner), head))
  {
    forall k, to
      ensures Linked(Advance(cfg, w, st).graph, k, to) <==> Linked(w.graph, k, to) || NewEdge(cfg, st, k, to)
    {
      EdgesAfter(cfg, w, st, k, to);
    }
    assert DecideStep(cfg, st).Expire? ==> NewEdge(cfg, st, KeyOf(st.winner), head);
  }

  // ---- a past fact that is rewritten -------------------------------------------------

  /** After two facts in order of start the second is the head. */
  lemma PairTimeline(cfg: Config, a: Item, b: Item, now: Time)
    requires cfg.candidateK >= 1 && History(cfg, EMPTY, Pair(a, b, now)) && SlotOf(a) == SlotOf(b) && a.id != b.id
    requires Contradicts(cfg, b, a) && !SameValue(a, b) && ValidAt(a) <= ValidAt(b)
    ensures var g := Run(cfg, EMPTY, Pair(a, b, now)).graph;
      Coherent(g) && Timeline(g, SlotOf(b), KeyOf(b)) && g.nodes.Keys == {KeyOf(a), KeyOf(b)} &&
      g.nodes[KeyOf(b)].blob == b &&
      PropsOf(g, KeyOf(a)) == Some(ToStore(a).(state := Superseded, invalidAt := Some(ValidAt(b))))
  {
    RunCoherent(cfg, EMPTY, Pair(a, b, now));
    PairFresh(cfg, a, b, now);
    TwoFactsStored(cfg, a, b, now);
    assert KeyOf(a) in Run(cfg, EMPTY, Pair(a, b, now)).graph.nodes && KeyOf(a) != KeyOf(b);
  }

  /** A fresh fact no older than the head takes over and leaves the rest. */
  lemma ThirdTakesOver(cfg: Config, w: World, st: Step, head: Key, k: Key)
    requires Setting(cfg, w, st) && Timeline(w.graph, StepSlot(st), head) && Functional(cfg, st.winner.pred)
    requires !SameValue(w.graph.nodes[head].blob, st.winner) && ValidAt(w.graph.nodes[head].blob) <= ValidAt(st.winner)
    requires k in w.graph.nodes && k != head
    ensures var g' := Advance(cfg, w, st).graph;
      Timeline(g', StepSlot(st), KeyOf(st.winner)) && PropsOf(g', k) == PropsOf(w.graph, k) &&
      PropsOf(g', KeyOf(st.winner)) == Some(ToStore(st.winner))
  {
    var g' := Advance(cfg, w, st).graph;
    StepMoves(cfg, w, st, head);
    TimelineMoves(w.graph, g', st.winner, head);
    assert PropsOf(g', k) == MovedProps(w.graph, st.winner, head, k);
    assert PropsOf(g', KeyOf(st.winner)) == MovedProps(w.graph, st.winner, head, KeyOf(st.winner));
  }

  /** Three facts of one slot, each different from the one before and no older. */
  predicate Successive(cfg: Config, a: Item, b: Item, c: Item)
  {
    SlotOf(a) == SlotOf(b) == SlotOf(c) && a.id != b.id && c.id != a.id && c.id != b.id &&
    cfg.candidateK >= 1 && Functional(cfg, c.pred) &&
    Contradicts(cfg, b, a) && !SameValue(a, b) && !SameValue(b, c) && !SameValue(c, a) &&
    ValidAt(a) < ValidAt(b) < ValidAt(c) &&
    FreshFact(Step(a.ns, a, [], 0, 0)) && FreshFact(Step(b.ns, b, [], 0, 0)) && FreshFact(Step(c.ns, c, [], 0, 0))
  }

  lemma ThreeFacts(cfg: Config, a: Item, b: Item, c: Item) returns (steps: seq<Step>)
    requires Successive(cfg, a, b, c)
    ensures ValidRun(cfg, EMPTY, steps) && |steps| == 3 && steps[0].winner == a
    ensures var g := Run(cfg, EMPTY, steps).graph;
      Coherent(g) && Timeline(g, SlotOf(c), KeyOf(c)) && PropsOf(g, KeyOf(c)) == Some(ToStore(c)) &&
      PropsOf(g, KeyOf(a)) == Some(ToStore(a).(state := Superseded, invalidAt := Some(ValidAt(b))))
  {
    var two := Pair(a, b, 0);
    PairHistory(cfg, a, b, 0);
    PairTimeline(cfg, a, b, 0);
    var hits := SomeConflictList(Run(cfg, EMPTY, two).graph, SlotOf(c), 0);
    var third := Step(c.ns, c, hits, 0, 0);
    steps := two + [third];
    RunAppend(cfg, EMPTY, two, third);
    ThirdAfterPair(cfg, Run(cfg, EMPTY, two), a, b, c, third);
  }

  lemma ThirdAfterPair(cfg: Config, w: World, a: Item, b: Item, c: Item, st: Step)
    requires Successive(cfg, a, b, c) && st.ns == c.ns && st.winner == c
    requires Coherent(w.graph) && IsConflictList(w.graph, SlotOf(c), st.storeNow, st.hits)
    requires Timeline(w.graph, SlotOf(b), KeyOf(b)) && w.graph.nodes.Keys == {KeyOf(a), KeyOf(b)}
    requires w.graph.nodes[KeyOf(b)].blob == b
    ensures var g := Advance(cfg, w, st).graph;
      Coherent(g) && Timeline(g, SlotOf(c), KeyOf(c)) && PropsOf(g, KeyOf(c)) == Some(ToStore(c)) &&
      PropsOf(g, KeyOf(a)) == PropsOf(w.graph, KeyOf(a))
  {
    assert KeyOf(a) in w.graph.nodes && KeyOf(c) !in w.graph.nodes;
    ThirdTakesOver(cfg, w, st, KeyOf(b), KeyOf(a));
    ReconcileCoherent(cfg, w, st);
  }

  /** Facts at 0, 5 and 10, then the first again: its end moves from 5 to 10. */
  lemma RepeatedRun(cfg: Config, pred: string) returns (steps: seq<Step>)
    requires cfg.candidateK >= 1 && Functional(cfg, pred)
    ensures ValidRun(cfg, EMPTY, steps) && |steps| == 4 && steps[3].winner == steps[0].winner
    ensures !HistorySame(Run(cfg, EMPTY, steps[..3]).graph, Run(cfg, EMPTY, steps).graph)
  {
    var a, b, c := Plain("a", pred, "x", 0), Plain("b", pred, "y", 5), Plain("c", pred, "z", 10);
    var three := ThreeFacts(cfg, a, b, c);
    var hits := SomeConflictList(Run(cfg, EMPTY, three).graph, SlotOf(a), 0);
    var fourth := Step("n", a, hits, 0, 0);
    steps := three + [fourth];
    assert steps[..3] == three;
    RunAppend(cfg, EMPTY, three, fourth);
    PastIsRewritten(cfg, Run(cfg, EMPTY, three), fourth, KeyOf(c));
  }

  lemma PastIsRewritten(cfg: Config, w: World, st: Step, head: Key)
    requires Repeats(cfg, w, st, head) && KeyOf(st.winner) != head
    requires w.graph.nodes[head].props.obj != st.winner.obj
    requires w.graph.nodes[KeyOf(st.winner)].props.invalidAt != Some(Start(w.graph, head))
    ensures !HistorySame(w.graph, Advance(cfg, w, st).graph)
  {
    assert NodeCoherent(head, w.graph.nodes[head]);
    RepeatKeepsHistoryExactly(cfg, w, st, head);
  }

  lemma PairFresh(cfg: Config, a: Item, b: Item, now: Time)
    requires History(cfg, EMPTY, Pair(a, b, now))
    ensures FreshFact(Step(a.ns, a, [], now, now)) && FreshFact(Step(b.ns, b, [a], now, now))
  {
    assert FreshFact(Pair(a, b, now)[0]) && FreshFact(Pair(a, b, now)[1]);
  }
}
