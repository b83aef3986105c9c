/** The pipeline as it runs: stores changed in place, one fact after another. */
module DistillPipeline {
  import opened Common
  import opened GraphStore
  import opened Distill
  import opened DistillSafety

  class MidTermIndex {
    var points: map<Key, Point>

    method InvalidatePointOf(ns: string, loser: Id, winner: Id, at: Time, reason: string)
      modifies this
      ensures points == InvalidatePoint(old(points), ns, loser, winner, at, reason)
    {
      var k := Key(ns, loser);
      if k in points {
        points := points[k := Point(Superseded, Some(at), winner, reason)];
      }
    }
  }

  /** The clocks of the store and of the pipeline, as read at each step. */
  datatype Clocks = Clocks(store: nat -> Time, pipe: nat -> Time)

  /** The steps are a valid run from `w` over exactly these facts, at the given times. */
  ghost predicate Reconciles(cfg: Config, w: World, steps: seq<Step>, ns: string, winners: seq<Item>,
                             clocks: Clocks)
  {
    StepsFor(steps, ns, winners) && ValidRun(cfg, w, steps) &&
    forall i :: 0 <= i < |steps| ==> steps[i].storeNow == clocks.store(i) && steps[i].pipeNow == clocks.pipe(i)
  }

  lemma ActionsAppend(cfg: Config, steps: seq<Step>, st: Step)
    ensures Actions(cfg, steps + [st]) == Actions(cfg, steps) + [ActionFor(st.winner, DecideStep(cfg, st))]
  {
  }

  lemma ReconcilesNext(cfg: Config, w: World, steps: seq<Step>, ns: string, winners: seq<Item>, clocks: Clocks,
                       st: Step)
    requires Reconciles(cfg, w, steps, ns, winners, clocks)
    requires st.ns == ns && st.storeNow == clocks.store(|steps|) && st.pipeNow == clocks.pipe(|steps|)
    requires ValidRun(cfg, w, steps + [st])
    ensures Reconciles(cfg, w, steps + [st], ns, winners + [st.winner], clocks)
  {
  }

  /** The steps reconciled `winners` and took `w` to `w'`, with these actions. */
  ghost predicate Progress(cfg: Config, w: World, w': World, steps: seq<Step>, ns: string, winners: seq<Item>,
                           clocks: Clocks, actions: seq<Action>)
  {
    Reconciles(cfg, w, steps, ns, winners, clocks) && w' == Run(cfg, w, steps) && actions == Actions(cfg, steps)
  }

  lemma ProgressNext(cfg: Config, w: World, w': World, steps: seq<Step>, ns: string, winners: seq<Item>,
                     clocks: Clocks, actions: seq<Action>, st: Step)
    requires Progress(cfg, w, w', steps, ns, winners, clocks, actions)
    requires st.ns == ns && st.storeNow == clocks.store(|steps|) && st.pipeNow == clocks.pipe(|steps|) &&
      IsConflictList(w'.graph, StepSlot(st), st.storeNow, st.hits)
    ensures Progress(cfg, w, Advance(cfg, w', st), steps + [st], ns, winners + [st.winner], clocks,
                     actions + [ActionFor(st.winner, DecideStep(cfg, st))])
  {
    RunAppend(cfg, w, steps, st);
    ActionsAppend(cfg, steps, st);
    ReconcilesNext(cfg, w, steps, ns, winners, clocks, st);
  }

  datatype Report = Report(factsExtracted: nat, actions: seq<Action>)

  class Pipeline {
    const cfg: Config
    const extraction: Extraction
    const ltm: FalkorLtm
    const mtm: MidTermIndex
    var minted: nat

    constructor (cfg: Config, extraction: Extraction, ltm: FalkorLtm, mtm: MidTermIndex)
      ensures this.cfg == cfg && this.extraction == extraction && this.ltm == ltm && this.mtm == mtm && minted == 0
    {
      this.cfg, this.extraction, this.ltm, this.mtm, minted := cfg, extraction, ltm, mtm, 0;
    }

    ghost function Value(): World
      reads ltm, mtm
    {
      World(ltm.Value(), mtm.points)
    }

    /** Retire the losers one after another in both stores. */
    method SupersedeLosers(ns: string, winner: Item, losers: seq<Item>)
      requires ltm.Valid()
      modifies ltm, mtm
      ensures ltm.Valid() && Value() == SupersedeAll(cfg, old(Value()), ns, winner, losers)
    {
      for i := 0 to |losers|
        invariant ltm.Valid() && Value() == SupersedeAll(cfg, old(Value()), ns, winner, losers[..i])
      {
        assert losers[..i + 1][..i] == losers[..i];
        var at := ValidAt(winner);
        ltm.InvalidateFact(ns, losers[i].id, winner.id, at, FUNCTIONAL_SUPERSEDE);
        if cfg.mtmWired {
          mtm.InvalidatePointOf(ns, PointId(losers[i]), PointId(winner), at, FUNCTIONAL_SUPERSEDE);
        }
      }
      assert losers[..|losers|] == losers;
    }

    /** Reconcile one fact: the stores take the decision on the list the graph returned. */
    method ReconcileAndApply(ns: string, winner: Item, storeNow: Time, pipeNow: Time)
      returns (action: Action, ghost step: Step)
      requires ltm.Valid()
      modifies ltm, mtm
      ensures step.ns == ns && step.winner == winner && step.storeNow == storeNow && step.pipeNow == pipeNow
      ensures IsConflictList(old(ltm.Value()), StepSlot(step), storeNow, step.hits)
      ensures Value() == Advance(cfg, old(Value()), step)
      ensures action == ActionFor(winner, DecideStep(cfg, step))
      ensures ltm.Valid()
    {
      var hits := ltm.FindConflicts(Slot(ns, winner.subj, winner.pred), storeNow);
      step := Step(ns, winner, hits, storeNow, pipeNow);
      var candidates := Candidates(cfg, winner, hits);
      var identical := Identical(winner, candidates);
      if identical != [] {
        assert DecideStep(cfg, step) == Reinforce(identical[0]);
        var reinforced := Reinforced(identical[0], pipeNow);
        ltm.UpsertFact(reinforced);
        action := MakeAction(Noop, reinforced, [], "identical_active_fact");
        return;
      }
      var losers := Losers(cfg, winner, candidates);
      if losers == [] {
        assert DecideStep(cfg, step) == Insert(candidates == []);
        ltm.UpsertFact(winner);
        action := if candidates == [] then MakeAction(Add, winner, [], "new_subject_predicate")
                  else MakeAction(Coexist, winner, [], "non_functional_coexist");
        return;
      }
      var recent := MoreRecent(winner, losers);
      if recent != [] {
        var newest := Newest(recent);
        assert DecideStep(cfg, step) == Expire(newest);
        ltm.UpsertFact(Expired(winner, newest));
        ltm.InvalidateFact(ns, winner.id, newest.id, ValidAt(newest), BY_MORE_RECENT);
        action := MakeAction(SelfExpire, newest, [winner.id], "incoming_older_than_candidate");
        return;
      }
      assert DecideStep(cfg, step) == Replace(losers);
      ltm.UpsertFact(winner);
      SupersedeLosers(ns, winner, losers);
      action := MakeAction(Supersede, winner, Ids(losers), "functional_or_polarity_conflict");
    }

    /** The candidate facts of a window: structured items promoted, the others extracted. */
    method CollectWindow(ns: string, window: seq<Item>, now: Time) returns (out: seq<Item>)
      modifies this`minted
      ensures (out, minted) == CollectFacts(extraction, ns, window, old(minted), now)
    {
      out := [];
      for i := 0 to |window|
        invariant (out, minted) == CollectFacts(extraction, ns, window[..i], old(minted), now)
      {
        assert window[..i + 1][..i] == window[..i];
        var item := window[i];
        if Structured(item) {
          out := out + [PromoteStructured(item, now)];
        } else {
          var facts := extraction.extract(item.content, now);
          out := out + FactsToItems(extraction, ns, item, facts, minted, now);
          minted := minted + |facts|;
        }
      }
      assert window[..|window|] == window;
    }

    /** Consolidate a window: its facts are reconciled in order, and the report lists what each did. */
    method DistillWindow(ns: string, window: seq<Item>, now: Time, clocks: Clocks)
      returns (report: Report, ghost steps: seq<Step>)
      requires ltm.Valid()
      modifies this`minted, ltm, mtm
      ensures Reconciles(cfg, old(Value()), steps, ns, CollectFacts(extraction, ns, window, old(minted), now).0,
        clocks)
      ensures Value() == Run(cfg, old(Value()), steps)
      ensures report == Report(|steps|, Actions(cfg, steps))
      ensures ltm.Valid()
    {
      ghost var w := Value();
      var candidates := CollectWindow(ns, window, now);
      var actions := [];
      steps := [];
      for i := 0 to |candidates|
        invariant |steps| == i && ltm.Valid() &&
          Progress(cfg, w, Value(), steps, ns, candidates[..i], clocks, actions)
      {
        ghost var before := Value();
        var action, step := ReconcileAndApply(ns, candidates[i], clocks.store(i), clocks.pipe(i));
        ProgressNext(cfg, w, before, steps, ns, candidates[..i], clocks, actions, step);
        TakeNext(candidates, i);
        steps := steps + [step];
        actions := actions + [action];
      }
      assert candidates[..|candidates|] == candidates;
      report := Report(|candidates|, actions);
    }
  }
}
