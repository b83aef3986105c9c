/** What a supersession does to the past: exactly when as-of reads before it stay as they
    were, and that they do over every run of fresh facts. */
module DistillPast {
  import opened Common
  import opened GraphStore
  import opened Distill
  import opened DistillSafety
  import opened DistillHistory
  import opened DistillAsOf

  // ---- one supersession, for any facts -----------------------------------------------

  /** Started before `at`, ended before `at`, and so stretched by an end at `at`. */
  predicate EndedBefore(l: Item, at: Time)
  {
    l.validAt.Some? && l.invalidAt.Some? && l.invalidAt.value < at && l.validAt.value < at
  }

  /** The fact answers some as-of read before `limit`. */
  predicate HeldBefore(p: Props, limit: Time)
  {
    p.validAt.Some? && p.validAt.value < limit && (p.invalidAt == None || p.invalidAt.value > p.validAt.value)
  }

  lemma RetiredHeld(g: Graph, g': Graph, slot: Slot, k: Key, limit: Time, at: Time)
    requires k in g.nodes && PropsOf(g', k) == Some(Retire(g.nodes[k], limit).props) && at < limit
    requires !EndedBefore(g.nodes[k].blob, limit) && ToStore(g.nodes[k].blob) == g.nodes[k].props
    ensures Held(g', slot, at, k) <==> Held(g, slot, at, k)
  {
  }

  lemma EndedComesBack(g: Graph, g': Graph, slot: Slot, k: Key, limit: Time) returns (at: Time)
    requires Member(g, slot, k) && PropsOf(g', k) == Some(Retire(g.nodes[k], limit).props)
    requires EndedBefore(g.nodes[k].blob, limit) && ToStore(g.nodes[k].blob) == g.nodes[k].props
    ensures at < limit && Held(g', slot, at, k) && !Held(g, slot, at, k)
  {
    var p := g.nodes[k].props;
    at := if p.invalidAt.value < p.validAt.value then p.validAt.value else p.invalidAt.value;
  }

  ghost predicate SamePast(g: Graph, g': Graph, limit: Time)
  {
    forall slot, at, k :: at < limit ==> (Held(g', slot, at, k) <==> Held(g, slot, at, k))
  }

  ghost predicate Superseding(cfg: Config, w: World, st: Step, losers: seq<Item>)
  {
    Coherent(w.graph) && IsConflictList(w.graph, StepSlot(st), st.storeNow, st.hits) &&
    DecideStep(cfg, st) == Replace(losers)
  }

  /** The incoming id is stored already, and what is stored under it answers some read before the
      incoming fact starts. */
  predicate OverwritesPast(w: World, st: Step)
  {
    KeyOf(st.winner) in w.graph.nodes && HeldBefore(w.graph.nodes[KeyOf(st.winner)].props, ValidAt(st.winner))
  }

  lemma LoserBlob(cfg: Config, w: World, st: Step, losers: seq<Item>, k: Key)
    requires Superseding(cfg, w, st, losers) && k in KeysOf(st.ns, losers)
    ensures Member(w.graph, StepSlot(st), k) && w.graph.nodes[k].blob in losers && k != KeyOf(st.winner)
    ensures ToStore(w.graph.nodes[k].blob) == w.graph.nodes[k].props
  {
    DecisionSound(cfg, w, st);
    var l :| l in losers && l.id == k.id;
    assert Conflicts(w.graph, StepSlot(st), st.storeNow, Key(st.ns, l.id));
    assert NodeCoherent(k, w.graph.nodes[k]);
  }

  lemma WinnerPast(w: World, g': Graph, st: Step, slot: Slot, at: Time)
    requires PropsOf(g', KeyOf(st.winner)) == Some(ToStore(st.winner)) && at < ValidAt(st.winner)
    requires !OverwritesPast(w, st)
    ensures !Held(g', slot, at, KeyOf(st.winner)) && !Held(w.graph, slot, at, KeyOf(st.winner))
  {
  }

  lemma PastKeptAt(cfg: Config, w: World, st: Step, losers: seq<Item>, slot: Slot, at: Time, k: Key)
    requires Superseding(cfg, w, st, losers) && at < ValidAt(st.winner) && !OverwritesPast(w, st)
    requires forall l :: l in losers ==> !EndedBefore(l, ValidAt(st.winner))
    ensures Held(Advance(cfg, w, st).graph, slot, at, k) <==> Held(w.graph, slot, at, k)
  {
    var g' := Advance(cfg, w, st).graph;
    StepTook(cfg, w, st);
    assert PropsOf(g', k) == NextProps(w.graph, st, DecideStep(cfg, st), k);
    if k == KeyOf(st.winner) {
      WinnerPast(w, g', st, slot, at);
    } else if k in KeysOf(st.ns, losers) {
      LoserBlob(cfg, w, st, losers, k);
      RetiredHeld(w.graph, g', slot, k, ValidAt(st.winner), at);
    }
  }

  lemma PastLost(cfg: Config, w: World, st: Step, losers: seq<Item>, l: Item)
    requires Superseding(cfg, w, st, losers) && l in losers && EndedBefore(l, ValidAt(st.winner))
    ensures !SamePast(w.graph, Advance(cfg, w, st).graph, ValidAt(st.winner))
  {
    var k, g' := Key(st.ns, l.id), Advance(cfg, w, st).graph;
    DecisionSound(cfg, w, st);
    LoserBlob(cfg, w, st, losers, k);
    StepTook(cfg, w, st);
    assert PropsOf(g', k) == NextProps(w.graph, st, DecideStep(cfg, st), k);
    assert w.graph.nodes[k].blob == l;
    var at := EndedComesBack(w.graph, g', StepSlot(st), k, ValidAt(st.winner));
  }

  lemma PastOverwritten(cfg: Config, w: World, st: Step, losers: seq<Item>)
    requires Superseding(cfg, w, st, losers) && OverwritesPast(w, st)
    ensures !SamePast(w.graph, Advance(cfg, w, st).graph, ValidAt(st.winner))
  {
    var mine, g' := KeyOf(st.winner), Advance(cfg, w, st).graph;
    StepTook(cfg, w, st);
    assert PropsOf(g', mine) == NextProps(w.graph, st, DecideStep(cfg, st), mine);
    var p := w.graph.nodes[mine].props;
    assert Held(w.graph, Slot(mine.ns, p.subj, p.pred), p.validAt.value, mine);
    assert !Held(g', Slot(mine.ns, p.subj, p.pred), p.validAt.value, mine);
  }

  /** A supersession by a fact starting at T leaves every as-of read before T as it was, for every slot,
      exactly when no loser had already ended before T, and the incoming id is new or what it named
      answered no read before T. */
  lemma SupersedeKeepsPastExactly(cfg: Config, w: World, st: Step, losers: seq<Item>)
    requires Superseding(cfg, w, st, losers)
    ensures SamePast(w.graph, Advance(cfg, w, st).graph, ValidAt(st.winner)) <==>
      !OverwritesPast(w, st) && forall l :: l in losers ==> !EndedBefore(l, ValidAt(st.winner))
  {
    if l :| l in losers && EndedBefore(l, ValidAt(st.winner)) {
      PastLost(cfg, w, st, losers, l);
    } else if OverwritesPast(w, st) {
      PastOverwritten(cfg, w, st, losers);
    } else {
      forall slot, at, k | at < ValidAt(st.winner)
        ensures Held(Advance(cfg, w, st).graph, slot, at, k) <==> Held(w.graph, slot, at, k)
      {
        PastKeptAt(cfg, w, st, losers, slot, at, k);
      }
    }
  }

  /** A fact that holds from 0 to 10, superseded at store time 5 by one that starts at 20, is read back
      for the instants between 10 and 20. */
  lemma EndIsStretched(cfg: Config, pred: string) returns (steps: seq<Step>)
    requires cfg.candidateK >= 1 && Functional(cfg, pred)
    ensures ValidRun(cfg, EMPTY, steps) && |steps| == 2 && DecideStep(cfg, steps[1]).Replace?
    ensures !SamePast(Run(cfg, EMPTY, steps[..1]).graph, Run(cfg, EMPTY, steps).graph, ValidAt(steps[1].winner))
  {
    var a, b := Plain("a", pred, "x", 0).(invalidAt := Some(10)), Plain("b", pred, "y", 20);
    steps := Pair(a, b, 5);
    PairRun(cfg, a, b, 5);
    DecideAgainstOne(cfg, b, a);
    UpsertCoherent(EMPTY.graph, a);
    PastLost(cfg, Write(EMPTY, a), steps[1], [a], a);
  }

  /** The third fact reuses the id of the first, which is closed by then: what the first answered is gone. */
  lemma ReuseErases(cfg: Config, a: Item, b: Item, c: Item, st: Step, now: Time)
    requires cfg.candidateK >= 1 && History(cfg, EMPTY, Pair(a, b, now))
    requires SlotOf(a) == SlotOf(b) == SlotOf(c) && c.id == a.id != b.id && Visible(ToStore(a), now)
    requires Contradicts(cfg, b, a) && !SameValue(a, b) && ValidAt(a) < ValidAt(b) && a.validAt.Some?
    requires Contradicts(cfg, c, b) && !SameValue(b, c) && ValidAt(b) <= ValidAt(c) && ToStore(b).invalidAt == None
    requires st.ns == c.ns && st.winner == c && b.state == Active
    requires IsConflictList(Run(cfg, EMPTY, Pair(a, b, now)).graph, SlotOf(c), st.storeNow, st.hits)
    ensures var w := Run(cfg, EMPTY, Pair(a, b, now));
      DecideStep(cfg, st).Replace? && !SamePast(w.graph, Advance(cfg, w, st).graph, ValidAt(c))
  {
    var w := Run(cfg, EMPTY, Pair(a, b, now));
    RunCoherent(cfg, EMPTY, Pair(a, b, now));
    TwoFactsStored(cfg, a, b, now);
    assert KeyOf(a) in w.graph.nodes && KeyOf(b) in w.graph.nodes && KeyOf(a) != KeyOf(b);
    assert Conflicts(w.graph, SlotOf(c), st.storeNow, KeyOf(b));
    SoleCandidate(cfg, w, st, KeyOf(b));
    DecideAgainstOne(cfg, c, b);
    PastOverwritten(cfg, w, st, [b]);
  }

  /** Facts at 0 and 5, then the first id again with another value at 10. */
  lemma ReusedRun(cfg: Config, pred: string) returns (steps: seq<Step>)
    requires cfg.candidateK >= 1 && Functional(cfg, pred)
    ensures ValidRun(cfg, EMPTY, steps) && |steps| == 3 && DecideStep(cfg, steps[2]).Replace?
    ensures !SamePast(Run(cfg, EMPTY, steps[..2]).graph, Run(cfg, EMPTY, steps).graph, ValidAt(steps[2].winner))
  {
    var a, b, c := Plain("a", pred, "x", 0), Plain("b", pred, "y", 5), Plain("a", pred, "z", 10);
    var two := Pair(a, b, 0);
    PairHistory(cfg, a, b, 0);
    RunCoherent(cfg, EMPTY, two);
    var hits := SomeConflictList(Run(cfg, EMPTY, two).graph, SlotOf(c), 0);
    var third := Step("n", c, hits, 0, 0);
    steps := two + [third];
    assert steps[..2] == two;
    RunAppend(cfg, EMPTY, two, third);
    ReuseErases(cfg, a, b, c, third, 0);
  }

  // ---- runs of fresh facts -----------------------------------------------------------

  /** Active facts have no end. */
  ghost predicate ActiveOpen(g: Graph)
  {
    forall k :: k in g.nodes && g.nodes[k].props.state == Active ==> g.nodes[k].props.invalidAt == None
  }

  lemma OpenStep(g: Graph, g': Graph, st: Step, d: Decision)
    requires Took(g, g', st, d) && ActiveOpen(g) && FreshFact(st)
    ensures ActiveOpen(g')
  {
    forall k | k in g'.nodes && g'.nodes[k].props.state == Active
      ensures g'.nodes[k].props.invalidAt == None
    {
      assert PropsOf(g', k) == NextProps(g, st, d, k);
    }
  }

  lemma {:induction false} RunOpen(cfg: Config, w: World, steps: seq<Step>)
    requires History(cfg, w, steps) && ActiveOpen(w.graph)
    ensures ActiveOpen(Run(cfg, w, steps).graph)
  {
    if steps != [] {
      var last := |steps| - 1;
      LastSetting(cfg, w, steps);
      RunOpen(cfg, w, steps[..last]);
      StepTook(cfg, Run(cfg, w, steps[..last]), steps[last]);
      OpenStep(Run(cfg, w, steps[..last]).graph, Run(cfg, w, steps).graph, steps[last], DecideStep(cfg, steps[last]));
    }
  }

  lemma {:induction false} HistoryPrefix(cfg: Config, w: World, steps: seq<Step>, i: nat)
    requires History(cfg, w, steps) && i <= |steps|
    ensures History(cfg, w, steps[..i])
  {
    if i == |steps| {
      assert steps[..i] == steps;
    } else {
      LastSetting(cfg, w, steps);
      HistoryPrefix(cfg, w, steps[..|steps| - 1], i);
      assert steps[..|steps| - 1][..i] == steps[..i];
    }
  }

  /** Losers among open facts never ended before. */
  lemma OpenLosers(cfg: Config, w: World, st: Step, losers: seq<Item>, l: Item)
    requires Superseding(cfg, w, st, losers) && ActiveOpen(w.graph) && l in losers
    ensures l.invalidAt == None
  {
    DecisionSound(cfg, w, st);
    assert Conflicts(w.graph, StepSlot(st), st.storeNow, Key(st.ns, l.id));
    LoserBlob(cfg, w, st, losers, Key(st.ns, l.id));
  }

  /** In any arrival order of fresh facts, for every predicate: each supersession of a run leaves every
      as-of read before its start as it was. */
  lemma RunKeepsPast(cfg: Config, w: World, steps: seq<Step>, i: nat)
    requires History(cfg, w, steps) && ActiveOpen(w.graph) && i < |steps| && DecideStep(cfg, steps[i]).Replace?
    ensures SamePast(Run(cfg, w, steps[..i]).graph, Run(cfg, w, steps[..i + 1]).graph, ValidAt(steps[i].winner))
  {
    var before, st, upTo := Run(cfg, w, steps[..i]), steps[i], steps[..i + 1];
    var losers := DecideStep(cfg, st).losers;
    HistoryPrefix(cfg, w, steps, i + 1);
    assert upTo[..i] == steps[..i];
    LastSetting(cfg, w, upTo);
    RunOpen(cfg, w, steps[..i]);
    forall l | l in losers
      ensures !EndedBefore(l, ValidAt(st.winner))
    {
      OpenLosers(cfg, before, st, losers, l);
    }
    SupersedeKeepsPastExactly(cfg, before, st, losers);
  }
}
