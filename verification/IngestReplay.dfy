/** Replay, retry and deduplication of ingest attempts: completed activities replay unchanged, and
    exactly when a retry completes. */
module IngestReplay {
  import opened Common
  import opened Namespaces
  import opened Ingest
  import opened IngestLaws

  // ---- an uninterrupted attempt in closed form ---------------------------------------

  function KeyOne(a: Activity): Key { CaptureKey(ActivityIdFor(a)) }
  function KeyTwo(a: Activity): Key { PromoteKey(HashOf(a)) }
  function KeyThree(a: Activity): Key { CompleteKey(ActivityIdFor(a)) }

  predicate Promotes(cfg: Config, a: Activity) { PromotionReason(cfg, a).Some? }

  /** Whether the attempt can get past the promotion stage: it captures the activity itself, does not
      promote, or finds the promotion of the same content already recorded. */
  predicate CanComplete(cfg: Config, w: World, a: Activity)
  {
    KeyOne(a) !in w.ledger || !Promotes(cfg, a) || KeyTwo(a) in w.ledger
  }

  function EventsOne(w: World, a: Activity, minted: Id): seq<Event>
  {
    if KeyOne(a) in w.ledger then w.ledger[KeyOne(a)] else [MemoryCaptured(a.ns, [minted])]
  }

  function EventsTwo(cfg: Config, w: World, a: Activity, minted: Id): seq<Event>
  {
    if !Promotes(cfg, a) then []
    else if KeyTwo(a) in w.ledger then w.ledger[KeyTwo(a)]
    else [MemoryPromoted(a.ns, minted, PromotionReason(cfg, a).value)]
  }

  /** The completion names the memory only if this attempt captured it. */
  function EventsThree(w: World, a: Activity, minted: Id): seq<Event>
  {
    if KeyThree(a) in w.ledger then w.ledger[KeyThree(a)]
    else [IngestCompleted(a.ns, if KeyOne(a) in w.ledger then [] else [minted])]
  }

  function WorldOne(w: World, a: Activity, minted: Id): World
  {
    World(w.ledger[KeyOne(a) := EventsOne(w, a, minted)],
          if KeyOne(a) in w.ledger then w.stm else w.stm + {Record(minted, a.ns, HashOf(a))},
          w.mtm, w.published + EventsOne(w, a, minted))
  }

  function WorldTwo(cfg: Config, w: World, a: Activity, minted: Id): World
  {
    var w1 := WorldOne(w, a, minted);
    if !Promotes(cfg, a) then w1
    else
      World(w1.ledger[KeyTwo(a) := EventsTwo(cfg, w, a, minted)], w1.stm,
            if KeyTwo(a) in w.ledger then w1.mtm else w1.mtm + {Record(minted, a.ns, HashOf(a))},
            w1.published + EventsTwo(cfg, w, a, minted))
  }

  function WorldThree(cfg: Config, w: World, a: Activity, minted: Id): World
  {
    var w2 := WorldTwo(cfg, w, a, minted);
    var e3 := EventsThree(w, a, minted);
    w2.(ledger := w2.ledger[KeyThree(a) := e3], published := w2.published + e3)
  }

  function Handed(w: World, a: Activity, minted: Id): Option<Record>
  {
    if KeyOne(a) in w.ledger then None else Some(Record(minted, a.ns, HashOf(a)))
  }

  lemma StageOne(cfg: Config, w: World, a: Activity, minted: Id)
    ensures var s := RunStage(cfg, w, WriteStm, a, None, minted);
      !s.raised && s.events == EventsOne(w, a, minted) && s.handed == Handed(w, a, minted) &&
      ApplyAll(w, s.effects) == WorldOne(w, a, minted)
  {
    StageLeaves(cfg, w, WriteStm, a, None, minted);
    assert KeyOne(a) in w.ledger ==> w.ledger[KeyOne(a) := w.ledger[KeyOne(a)]] == w.ledger;
  }

  lemma StageTwo(cfg: Config, w: World, a: Activity, minted: Id)
    ensures var s := RunStage(cfg, WorldOne(w, a, minted), DeterministicPromote, a, Handed(w, a, minted), minted);
      s.raised == !CanComplete(cfg, w, a) && (s.raised ==> s.effects == []) &&
      (!s.raised ==> s.events == EventsTwo(cfg, w, a, minted) && s.handed == Handed(w, a, minted) &&
                     ApplyAll(WorldOne(w, a, minted), s.effects) == WorldTwo(cfg, w, a, minted))
  {
    var w1, k := WorldOne(w, a, minted), KeyTwo(a);
    assert k in w1.ledger <==> k in w.ledger;
    if CanComplete(cfg, w, a) {
      StageLeaves(cfg, w1, DeterministicPromote, a, Handed(w, a, minted), minted);
      assert k in w1.ledger ==> w1.ledger[k := w1.ledger[k]] == w1.ledger;
      assert w1.published + [] == w1.published;
    }
  }

  lemma StageThree(cfg: Config, w: World, a: Activity, minted: Id)
    ensures var s := RunStage(cfg, WorldTwo(cfg, w, a, minted), EmitIngestCompleted, a, Handed(w, a, minted), minted);
      !s.raised && s.events == EventsThree(w, a, minted) &&
      ApplyAll(WorldTwo(cfg, w, a, minted), s.effects) == WorldThree(cfg, w, a, minted)
  {
    var w2, k := WorldTwo(cfg, w, a, minted), KeyThree(a);
    assert k in w2.ledger <==> k in w.ledger;
    StageLeaves(cfg, w2, EmitIngestCompleted, a, Handed(w, a, minted), minted);
    assert k in w2.ledger ==> w2.ledger[k := w2.ledger[k]] == w2.ledger;
  }

  function Emitted(cfg: Config, w: World, a: Activity, minted: Id): seq<Event>
  {
    EventsOne(w, a, minted) + EventsTwo(cfg, w, a, minted) + EventsThree(w, a, minted)
  }

  /** The receipt and the world after the stages in order. */
  lemma RememberClosed(cfg: Config, w: World, a: Activity, minted: Id)
    ensures Remember(cfg, w, a, minted).receipt ==
      if CanComplete(cfg, w, a) then ReceiptFor(a, Emitted(cfg, w, a, minted)) else None
    ensures ApplyAll(w, Remember(cfg, w, a, minted).effects) ==
      if CanComplete(cfg, w, a) then WorldThree(cfg, w, a, minted) else WorldOne(w, a, minted)
  {
    var s1 := RunStage(cfg, w, WriteStm, a, None, minted);
    StageOne(cfg, w, a, minted);
    var w1 := WorldOne(w, a, minted);
    var s2 := RunStage(cfg, w1, DeterministicPromote, a, s1.handed, minted);
    StageTwo(cfg, w, a, minted);
    ApplyAllAppend(w, s1.effects, s2.effects);
    if CanComplete(cfg, w, a) {
      var w2 := WorldTwo(cfg, w, a, minted);
      var s3 := RunStage(cfg, w2, EmitIngestCompleted, a, s2.handed, minted);
      StageThree(cfg, w, a, minted);
      ApplyAllAppend(w, s1.effects + s2.effects, s3.effects);
    } else {
      assert s1.effects + [] == s1.effects;
    }
  }

  // ---- replay ------------------------------------------------------------------------

  /** The ledger holds every completion of the activity, with these records. */
  ghost predicate Completion(cfg: Config, w: World, a: Activity, events: seq<Event>)
  {
    KeyOne(a) in w.ledger && KeyThree(a) in w.ledger && (Promotes(cfg, a) ==> KeyTwo(a) in w.ledger) &&
    events == w.ledger[KeyOne(a)] + (if Promotes(cfg, a) then w.ledger[KeyTwo(a)] else []) + w.ledger[KeyThree(a)]
  }

  lemma CompletedWorld(cfg: Config, w: World, a: Activity, minted: Id)
    ensures Completion(cfg, WorldThree(cfg, w, a, minted), a, Emitted(cfg, w, a, minted))
  {
  }

  /** The events published from `w` to `w'`. */
  function NewlyPublished(w: World, w': World): seq<Event>
  {
    if |w.published| <= |w'.published| then w'.published[|w.published|..] else []
  }

  lemma DropPrefix<T>(p: seq<T>, a: seq<T>, b: seq<T>, c: seq<T>)
    ensures (p + a + b + c)[|p|..] == a + b + c
  {
    assert p + a + b + c == p + (a + b + c);
  }

  lemma CompletedPublishes(cfg: Config, w: World, a: Activity, minted: Id)
    ensures NewlyPublished(w, WorldThree(cfg, w, a, minted)) == Emitted(cfg, w, a, minted)
  {
    var e1, e2, e3 := EventsOne(w, a, minted), EventsTwo(cfg, w, a, minted), EventsThree(w, a, minted);
    assert WorldTwo(cfg, w, a, minted).published == w.published + e1 + e2;
    DropPrefix(w.published, e1, e2, e3);
  }

  /** An attempt that returned a receipt completed the activity, and published what is recorded. */
  lemma ReceiptMeansCompletion(cfg: Config, w: World, a: Activity, minted: Id)
    requires Remember(cfg, w, a, minted).receipt.Some?
    ensures var r := Remember(cfg, w, a, minted);
      Completion(cfg, ApplyAll(w, r.effects), a, Emitted(cfg, w, a, minted)) &&
      r.receipt == ReceiptFor(a, Emitted(cfg, w, a, minted)) &&
      NewlyPublished(w, ApplyAll(w, r.effects)) == Emitted(cfg, w, a, minted)
  {
    RememberClosed(cfg, w, a, minted);
    CompletedWorld(cfg, w, a, minted);
    CompletedPublishes(cfg, w, a, minted);
  }

  lemma CompletionStays(cfg: Config, w: World, w': World, a: Activity, events: seq<Event>)
    requires Completion(cfg, w, a, events) && LedgerKept(w, w')
    ensures Completion(cfg, w', a, events)
  {
  }

  lemma CompletedReplays(cfg: Config, w: World, a: Activity, minted: Id, events: seq<Event>)
    requires Completion(cfg, w, a, events)
    ensures CanComplete(cfg, w, a) && Emitted(cfg, w, a, minted) == events
    ensures WorldThree(cfg, w, a, minted) == w.(published := w.published + events)
  {
    var w1, w2 := WorldOne(w, a, minted), WorldTwo(cfg, w, a, minted);
    assert w1.ledger == w.ledger && w2.ledger == w.ledger;
    var e1, e2, e3 := EventsOne(w, a, minted), EventsTwo(cfg, w, a, minted), EventsThree(w, a, minted);
    assert w2.published == w.published + e1 + e2;
    assert w.published + e1 + e2 + e3 == w.published + (e1 + e2 + e3);
  }

  /** Replaying a completed activity only republishes its recorded events. */
  lemma ReplayPublishes(cfg: Config, w: World, a: Activity, minted: Id, events: seq<Event>)
    requires Completion(cfg, w, a, events)
    ensures var r := Remember(cfg, w, a, minted);
      r.receipt == ReceiptFor(a, events) && ApplyAll(w, r.effects) == w.(published := w.published + events)
  {
    RememberClosed(cfg, w, a, minted);
    CompletedReplays(cfg, w, a, minted, events);
  }

  /** Replay is stable: once remembered to completion, an activity replayed after any other attempts,
      crashed or not, changes neither tier nor ledger, republishes the same events and returns an
      equal receipt. */
  lemma ReplayStable(cfg: Config, w: World, a: Activity, minted: Id, others: seq<Try>, reminted: Id)
    requires Announced(w) && Remember(cfg, w, a, minted).receipt.Some?
    ensures var first := Remember(cfg, w, a, minted);
      var later := RunTries(cfg, ApplyAll(w, first.effects), others);
      var again := Remember(cfg, later, a, reminted);
      var events := NewlyPublished(w, ApplyAll(w, first.effects));
      again.receipt == first.receipt &&
      ApplyAll(later, again.effects) == later.(published := later.published + events)
  {
    var first := Remember(cfg, w, a, minted);
    var w1 := ApplyAll(w, first.effects);
    ReceiptMeansCompletion(cfg, w, a, minted);
    AttemptDisciplined(cfg, w, a, minted);
    DisciplineKeeps(w, first.effects);
    WriteMarkPublish(cfg, w1, others);
    var events := Emitted(cfg, w, a, minted);
    CompletionStays(cfg, w1, RunTries(cfg, w1, others), a, events);
    ReplayPublishes(cfg, RunTries(cfg, w1, others), a, reminted, events);
  }

  // ---- exactly when an attempt completes ---------------------------------------------

  /** Records have the shape their stage gives them. */
  ghost predicate Shaped(w: World)
  {
    forall k :: k in w.ledger ==> ShapedRecord(k, w.ledger[k])
  }

  predicate ShapedRecord(k: Key, events: seq<Event>)
  {
    |events| == 1 &&
    match k
    case CaptureKey(_) => events[0].MemoryCaptured? && |events[0].ids| == 1
    case PromoteKey(_) => events[0].MemoryPromoted?
    case CompleteKey(_) => events[0].IngestCompleted?
  }

  lemma {:induction false} ShapedEffects(w: World, effects: seq<Effect>)
    requires Shaped(w)
    requires forall i :: 0 <= i < |effects| && effects[i].Mark? ==> ShapedRecord(effects[i].key, effects[i].events)
    ensures Shaped(ApplyAll(w, effects))
  {
    if effects != [] {
      ShapedEffects(w, effects[..|effects| - 1]);
    }
  }

  lemma {:induction false} RunShaped(cfg: Config, w: World, tries: seq<Try>)
    requires Shaped(w)
    ensures Shaped(RunTries(cfg, w, tries))
  {
    if tries != [] {
      var before, last := RunTries(cfg, w, tries[..|tries| - 1]), tries[|tries| - 1];
      RunShaped(cfg, w, tries[..|tries| - 1]);
      MarksShaped(cfg, before, last.a, last.minted);
      ShapedEffects(before, Survived(Remember(cfg, before, last.a, last.minted).effects, last.crash));
    }
  }

  lemma MarksShaped(cfg: Config, w: World, a: Activity, minted: Id)
    ensures var effects := Remember(cfg, w, a, minted).effects;
      forall i :: 0 <= i < |effects| && effects[i].Mark? ==> ShapedRecord(effects[i].key, effects[i].events)
  {
    var s1 := RunStage(cfg, w, WriteStm, a, None, minted);
    var w1 := ApplyAll(w, s1.effects);
    var s2 := RunStage(cfg, w1, DeterministicPromote, a, s1.handed, minted);
    StageMarksShaped(cfg, w, WriteStm, a, None, minted);
    StageMarksShaped(cfg, w1, DeterministicPromote, a, s1.handed, minted);
    if !s2.raised {
      StageMarksShaped(cfg, ApplyAll(w1, s2.effects), EmitIngestCompleted, a, s2.handed, minted);
    }
  }

  lemma StageMarksShaped(cfg: Config, w: World, st: Stage, a: Activity, handed: Option<Record>, minted: Id)
    ensures var effects := RunStage(cfg, w, st, a, handed, minted).effects;
      forall i :: 0 <= i < |effects| && effects[i].Mark? ==> ShapedRecord(effects[i].key, effects[i].events)
  {
  }

  lemma ShapedReceipt(cfg: Config, w: World, a: Activity, minted: Id)
    requires Shaped(w)
    ensures ReceiptFor(a, Emitted(cfg, w, a, minted)).Some?
  {
    var e1, e2, e3 := EventsOne(w, a, minted), EventsTwo(cfg, w, a, minted), EventsThree(w, a, minted);
    assert KeyOne(a) in w.ledger ==> ShapedRecord(KeyOne(a), w.ledger[KeyOne(a)]);
    CapturedFirst(e1, e2 + e3);
    assert e1 + (e2 + e3) == e1 + e2 + e3;
  }

  /** In every reachable state an uninterrupted attempt returns a receipt exactly when `CanComplete`:
      after a crash between the capture mark and the promotion mark, retries of a promoting activity
      fail until some other activity promotes the same content. */
  lemma CompletesExactly(cfg: Config, tries: seq<Try>, a: Activity, minted: Id)
    ensures Remember(cfg, RunTries(cfg, EMPTY, tries), a, minted).receipt.Some? <==>
      CanComplete(cfg, RunTries(cfg, EMPTY, tries), a)
  {
    RunShaped(cfg, EMPTY, tries);
    RememberClosed(cfg, RunTries(cfg, EMPTY, tries), a, minted);
    ShapedReceipt(cfg, RunTries(cfg, EMPTY, tries), a, minted);
  }

  lemma {:induction false} CapturedFirst(s: seq<Event>, t: seq<Event>)
    requires |s| == 1 && s[0].MemoryCaptured? && |s[0].ids| == 1
    ensures CapturedIds(s + t) != []
  {
    if t == [] {
      assert s + t == s && s[..0] == [];
    } else {
      assert (s + t)[..|s + t| - 1] == s + t[..|t| - 1];
      CapturedFirst(s, t[..|t| - 1]);
    }
  }

  /** The ids an activity's capture and completion records name. */
  function NamedIds(w: World, k: Key): seq<Id>
  {
    if k in w.ledger && w.ledger[k] != [] && !w.ledger[k][0].MemoryPromoted? then w.ledger[k][0].ids else []
  }

  lemma NamesExactly(cfg: Config, w: World, a: Activity, minted: Id)
    requires Shaped(w) && KeyThree(a) !in w.ledger
    ensures var w' := WorldThree(cfg, w, a, minted);
      NamedIds(w', KeyOne(a)) != [] &&
      (NamedIds(w', KeyThree(a)) == NamedIds(w', KeyOne(a)) <==> KeyOne(a) !in w.ledger)
  {
    assert KeyOne(a) in w.ledger ==> ShapedRecord(KeyOne(a), w.ledger[KeyOne(a)]);
  }

  /** The completion event that triggers consolidation names the captured memory exactly when the same
      attempt captured it: a retry whose capture was already recorded announces no memory at all. */
  lemma CompletionNamesMemoryExactly(cfg: Config, tries: seq<Try>, a: Activity, minted: Id)
    requires CanComplete(cfg, RunTries(cfg, EMPTY, tries), a) && KeyThree(a) !in RunTries(cfg, EMPTY, tries).ledger
    ensures var w := RunTries(cfg, EMPTY, tries);
      var w' := ApplyAll(w, Remember(cfg, w, a, minted).effects);
      NamedIds(w', KeyOne(a)) != [] &&
      (NamedIds(w', KeyThree(a)) == NamedIds(w', KeyOne(a)) <==> KeyOne(a) !in w.ledger)
  {
    RunShaped(cfg, EMPTY, tries);
    RememberClosed(cfg, RunTries(cfg, EMPTY, tries), a, minted);
    NamesExactly(cfg, RunTries(cfg, EMPTY, tries), a, minted);
  }

  // ---- one mid-term point per content ------------------------------------------------

  /** Every mid-term point has its promotion recorded, and no two points share a content hash. */
  ghost predicate OnePoint(w: World)
  {
    (forall r :: r in w.mtm ==> PromoteKey(r.hash) in w.ledger) &&
    forall r, r' :: r in w.mtm && r' in w.mtm && r.hash == r'.hash ==> r == r'
  }

  lemma OnePointStays(cfg: Config, w: World, a: Activity, minted: Id)
    requires OnePoint(w)
    ensures OnePoint(WorldOne(w, a, minted)) && (CanComplete(cfg, w, a) ==> OnePoint(WorldThree(cfg, w, a, minted)))
  {
  }

  lemma AttemptOnePoint(cfg: Config, w: World, a: Activity, minted: Id)
    requires OnePoint(w)
    ensures OnePoint(ApplyAll(w, Remember(cfg, w, a, minted).effects))
  {
    RememberClosed(cfg, w, a, minted);
    OnePointStays(cfg, w, a, minted);
  }

  /** In crash-free runs the mid-term tier receives at most one point per content hash. */
  lemma {:induction false} OnePointPerContent(cfg: Config, tries: seq<Try>)
    requires forall i :: 0 <= i < |tries| ==> tries[i].crash.None?
    ensures OnePoint(RunTries(cfg, EMPTY, tries))
  {
    if tries != [] {
      var last := tries[|tries| - 1];
      OnePointPerContent(cfg, tries[..|tries| - 1]);
      AttemptOnePoint(cfg, RunTries(cfg, EMPTY, tries[..|tries| - 1]), last.a, last.minted);
    }
  }
}
