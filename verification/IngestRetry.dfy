/** Retries after a crash, and what the promoted flag of a receipt is worth. */
module IngestRetry {
  import opened Common
  import opened Namespaces
  import opened Ingest
  import opened IngestLaws
  import opened IngestReplay

  // ---- the marks of an attempt -------------------------------------------------------

  predicate MarksAt(effects: seq<Effect>, i: int, k: Key)
  {
    0 <= i < |effects| && effects[i].Mark? && effects[i].key == k
  }

  ghost predicate Marks(effects: seq<Effect>, k: Key) { exists i :: MarksAt(effects, i, k) }

  lemma MarksNext(effects: seq<Effect>, k: Key)
    requires effects != []
    ensures Marks(effects, k) <==> Marks(effects[..|effects| - 1], k) || MarksAt(effects, |effects| - 1, k)
  {
    var last := |effects| - 1;
    if i :| MarksAt(effects, i, k) && i < last {
      assert MarksAt(effects[..last], i, k);
    }
    if i :| MarksAt(effects[..last], i, k) {
      assert MarksAt(effects, i, k);
    }
  }

  /** A key is recorded exactly when it was, or an effect marks it. */
  lemma {:induction false} MarkedKeys(w: World, effects: seq<Effect>, k: Key)
    ensures k in ApplyAll(w, effects).ledger <==> k in w.ledger || Marks(effects, k)
  {
    if effects != [] {
      MarkedKeys(w, effects[..|effects| - 1], k);
      MarksNext(effects, k);
    }
  }

  /** A stage marks once, after its writes, and only when it misses its gate and does not raise. */
  lemma StageMarks(cfg: Config, w: World, st: Stage, a: Activity, handed: Option<Record>, minted: Id, i: int, k: Key)
    ensures var key, x := KeyFor(cfg, st, a), Execute(cfg, st, a, handed, minted);
      MarksAt(RunStage(cfg, w, st, a, handed, minted).effects, i, k) <==>
        x.Executed? && key == Some(k) && k !in w.ledger && i == |x.writes|
  {
  }

  lemma MarksAppend(s: seq<Effect>, t: seq<Effect>, i: int, k: Key)
    ensures MarksAt(s + t, i, k) <==> MarksAt(s, i, k) || MarksAt(t, i - |s|, k)
  {
  }

  lemma MarksOfThree(s: seq<Effect>, t: seq<Effect>, u: seq<Effect>, i: int, k: Key)
    ensures MarksAt(s + t + u, i, k) <==> MarksAt(s, i, k) || MarksAt(t, i - |s|, k) || MarksAt(u, i - |s| - |t|, k)
  {
    MarksAppend(s, t, i, k);
    MarksAppend(s + t, u, i, k);
  }

  function FirstRun(cfg: Config, w: World, a: Activity, minted: Id): StageRun
  {
    RunStage(cfg, w, WriteStm, a, None, minted)
  }

  function SecondRun(cfg: Config, w: World, a: Activity, minted: Id): StageRun
  {
    var s1 := FirstRun(cfg, w, a, minted);
    RunStage(cfg, ApplyAll(w, s1.effects), DeterministicPromote, a, s1.handed, minted)
  }

  function ThirdRun(cfg: Config, w: World, a: Activity, minted: Id): StageRun
  {
    var s1, s2 := FirstRun(cfg, w, a, minted), SecondRun(cfg, w, a, minted);
    RunStage(cfg, ApplyAll(ApplyAll(w, s1.effects), s2.effects), EmitIngestCompleted, a, s2.handed, minted)
  }

  lemma AttemptEffects(cfg: Config, w: World, a: Activity, minted: Id)
    ensures var s2 := SecondRun(cfg, w, a, minted);
      Remember(cfg, w, a, minted).effects ==
        FirstRun(cfg, w, a, minted).effects + s2.effects + if s2.raised then [] else ThirdRun(cfg, w, a, minted).effects
  {
    var first, s2 := FirstRun(cfg, w, a, minted).effects, SecondRun(cfg, w, a, minted);
    assert first + s2.effects + [] == first + s2.effects;
  }

  lemma MarkOfAnother(cfg: Config, w: World, a: Activity, minted: Id, i: int, k: Key)
    ensures !k.CaptureKey? ==> !MarksAt(FirstRun(cfg, w, a, minted).effects, i, k)
    ensures !k.PromoteKey? ==> !MarksAt(SecondRun(cfg, w, a, minted).effects, i, k)
    ensures !k.CompleteKey? ==> !MarksAt(ThirdRun(cfg, w, a, minted).effects, i, k)
  {
    var s1, s2 := FirstRun(cfg, w, a, minted), SecondRun(cfg, w, a, minted);
    var w1 := ApplyAll(w, s1.effects);
    StageMarks(cfg, w, WriteStm, a, None, minted, i, k);
    StageMarks(cfg, w1, DeterministicPromote, a, s1.handed, minted, i, k);
    StageMarks(cfg, ApplyAll(w1, s2.effects), EmitIngestCompleted, a, s2.handed, minted, i, k);
  }

  /** By the keys the stages are gated with: a capture mark can come from the first only, a promotion
      mark from the second only. */
  lemma StageOfMark(cfg: Config, w: World, a: Activity, minted: Id, i: int, k: Key)
    requires !k.CompleteKey?
    ensures var s1, s2 := FirstRun(cfg, w, a, minted), SecondRun(cfg, w, a, minted);
      MarksAt(Remember(cfg, w, a, minted).effects, i, k) <==>
        if k.CaptureKey? then MarksAt(s1.effects, i, k) else MarksAt(s2.effects, i - |s1.effects|, k)
  {
    var s1, s2 := FirstRun(cfg, w, a, minted).effects, SecondRun(cfg, w, a, minted).effects;
    var s3 := if SecondRun(cfg, w, a, minted).raised then [] else ThirdRun(cfg, w, a, minted).effects;
    AttemptEffects(cfg, w, a, minted);
    MarksOfThree(s1, s2, s3, i, k);
    MarkOfAnother(cfg, w, a, minted, i, k);
    MarkOfAnother(cfg, w, a, minted, i - |s1|, k);
    MarkOfAnother(cfg, w, a, minted, i - |s1| - |s2|, k);
  }

  /** The capture mark is the second effect of an attempt that captures. */
  lemma CaptureMark(cfg: Config, w: World, a: Activity, minted: Id, i: int)
    ensures MarksAt(Remember(cfg, w, a, minted).effects, i, KeyOne(a)) <==> i == 1 && KeyOne(a) !in w.ledger
  {
    StageOfMark(cfg, w, a, minted, i, KeyOne(a));
    StageMarks(cfg, w, WriteStm, a, None, minted, i, KeyOne(a));
  }

  /** The promotion mark is the fifth effect of an attempt that captures and is the first to promote
      its content; no other effect of any attempt is one. */
  lemma PromotionMark(cfg: Config, w: World, a: Activity, minted: Id, i: int, h: ContentHash)
    ensures MarksAt(Remember(cfg, w, a, minted).effects, i, PromoteKey(h)) <==>
      i == 4 && h == HashOf(a) && Promotes(cfg, a) && KeyOne(a) !in w.ledger && KeyTwo(a) !in w.ledger
  {
    var s1, w1 := FirstRun(cfg, w, a, minted), WorldOne(w, a, minted);
    StageOfMark(cfg, w, a, minted, i, PromoteKey(h));
    StageOne(cfg, w, a, minted);
    StageMarks(cfg, w1, DeterministicPromote, a, s1.handed, minted, i - |s1.effects|, PromoteKey(h));
    CaptureEffects(cfg, w, a, minted);
  }

  lemma CaptureEffects(cfg: Config, w: World, a: Activity, minted: Id)
    ensures KeyOne(a) !in w.ledger ==> |FirstRun(cfg, w, a, minted).effects| == 3
  {
  }

  lemma SurvivedMarks(effects: seq<Effect>, crash: Option<nat>, i: int, k: Key)
    ensures MarksAt(Survived(effects, crash), i, k) <==> MarksAt(effects, i, k) && (crash.None? || i < crash.value)
  {
  }

  // ---- a retry completes exactly when another activity promoted the content ----------

  /** The attempt captures an activity of the same content, promotes it first, and lives to mark it. */
  predicate Rescues(cfg: Config, w: World, t: Try, a: Activity)
  {
    HashOf(t.a) == HashOf(a) && Promotes(cfg, t.a) && KeyOne(t.a) !in w.ledger && (t.crash.None? || t.crash.value >= 5)
  }

  predicate RescuedAt(cfg: Config, w: World, tries: seq<Try>, a: Activity, i: int)
  {
    0 <= i < |tries| && Rescues(cfg, RunTries(cfg, w, tries[..i]), tries[i], a)
  }

  function AfterTry(cfg: Config, w: World, t: Try): World
  {
    ApplyAll(w, Survived(Remember(cfg, w, t.a, t.minted).effects, t.crash))
  }

  lemma TryRescues(cfg: Config, w: World, t: Try, a: Activity)
    requires KeyTwo(a) !in w.ledger
    ensures KeyTwo(a) in AfterTry(cfg, w, t).ledger <==> Rescues(cfg, w, t, a)
  {
    var effects := Remember(cfg, w, t.a, t.minted).effects;
    MarkedKeys(w, Survived(effects, t.crash), KeyTwo(a));
    forall i
      ensures MarksAt(Survived(effects, t.crash), i, KeyTwo(a)) <==> i == 4 && Rescues(cfg, w, t, a)
    {
      SurvivedMarks(effects, t.crash, i, KeyTwo(a));
      PromotionMark(cfg, w, t.a, t.minted, i, HashOf(a));
    }
    if Rescues(cfg, w, t, a) {
      assert MarksAt(Survived(effects, t.crash), 4, KeyTwo(a));
    }
  }

  lemma TryKeepsKey(cfg: Config, w: World, t: Try, k: Key)
    requires k in w.ledger
    ensures k in AfterTry(cfg, w, t).ledger
  {
    MarkedKeys(w, Survived(Remember(cfg, w, t.a, t.minted).effects, t.crash), k);
  }

  /** From a state where an attempt of `a` cannot complete, it can after more attempts if and only if one
      of them rescued it: captured another activity of the same content and marked its promotion. */
  lemma {:induction false} RetryCompletesExactly(cfg: Config, w: World, tries: seq<Try>, a: Activity)
    requires !CanComplete(cfg, w, a)
    ensures KeyOne(a) in RunTries(cfg, w, tries).ledger
    ensures CanComplete(cfg, RunTries(cfg, w, tries), a) <==> exists i :: RescuedAt(cfg, w, tries, a, i)
  {
    if tries != [] {
      var last := |tries| - 1;
      var before := RunTries(cfg, w, tries[..last]);
      RetryCompletesExactly(cfg, w, tries[..last], a);
      TryKeepsKey(cfg, before, tries[last], KeyOne(a));
      if KeyTwo(a) in before.ledger {
        TryKeepsKey(cfg, before, tries[last], KeyTwo(a));
      } else {
        TryRescues(cfg, before, tries[last], a);
      }
      forall i
        ensures RescuedAt(cfg, w, tries, a, i) <==>
          RescuedAt(cfg, w, tries[..last], a, i) || (i == last && Rescues(cfg, before, tries[last], a))
      {
        if 0 <= i < last {
          assert tries[..last][..i] == tries[..i];
        }
      }
      if KeyTwo(a) !in before.ledger && Rescues(cfg, before, tries[last], a) {
        assert RescuedAt(cfg, w, tries, a, last);
      }
    }
  }

  /** Retries of the activity itself, and attempts of other contents, never help. */
  lemma RetriesFail(cfg: Config, w: World, tries: seq<Try>, a: Activity, minted: Id)
    requires !CanComplete(cfg, w, a)
    requires forall i :: 0 <= i < |tries| ==>
      ActivityIdFor(tries[i].a) == ActivityIdFor(a) || HashOf(tries[i].a) != HashOf(a) || !Promotes(cfg, tries[i].a)
    ensures Remember(cfg, RunTries(cfg, w, tries), a, minted).receipt == None
  {
    RetryCompletesExactly(cfg, w, tries, a);
    RememberClosed(cfg, RunTries(cfg, w, tries), a, minted);
    forall i
      ensures !RescuedAt(cfg, w, tries, a, i)
    {
      if 0 <= i < |tries| {
        RetryCompletesExactly(cfg, w, tries[..i], a);
      }
    }
  }

  lemma OneTry(cfg: Config, w: World, t: Try)
    ensures RunTries(cfg, w, [t]) == AfterTry(cfg, w, t)
  {
    assert [t][..0] == [];
  }

  /** From any state without its capture or the promotion of its content, an attempt of a promoting
      activity leaves it stuck exactly when the crash falls between the two marks. */
  lemma StuckExactly(cfg: Config, w: World, a: Activity, minted: Id, crash: nat)
    requires Promotes(cfg, a) && KeyOne(a) !in w.ledger && KeyTwo(a) !in w.ledger
    ensures CanComplete(cfg, RunTries(cfg, w, [Try(a, minted, Some(crash))]), a) <==> !(2 <= crash <= 4)
  {
    var t := Try(a, minted, Some(crash));
    OneTry(cfg, w, t);
    TryRescues(cfg, w, t, a);
    TryCaptures(cfg, w, t);
  }

  lemma TryCaptures(cfg: Config, w: World, t: Try)
    requires KeyOne(t.a) !in w.ledger
    ensures KeyOne(t.a) in AfterTry(cfg, w, t).ledger <==> t.crash.None? || t.crash.value >= 2
  {
    var effects := Remember(cfg, w, t.a, t.minted).effects;
    MarkedKeys(w, Survived(effects, t.crash), KeyOne(t.a));
    forall i
      ensures MarksAt(Survived(effects, t.crash), i, KeyOne(t.a)) <==> i == 1 && (t.crash.None? || t.crash.value >= 2)
    {
      SurvivedMarks(effects, t.crash, i, KeyOne(t.a));
      CaptureMark(cfg, w, t.a, t.minted, i);
    }
    if t.crash.None? || t.crash.value >= 2 {
      assert MarksAt(Survived(effects, t.crash), 1, KeyOne(t.a));
    }
  }

  // ---- a completion that names nothing -----------------------------------------------

  lemma FirstEffects(cfg: Config, a: Activity, minted: Id)
    ensures var effects := Remember(cfg, EMPTY, a, minted).effects;
      |effects| > 2 &&
      effects[..2] == [PutStm(Record(minted, a.ns, HashOf(a))), Mark(KeyOne(a), [MemoryCaptured(a.ns, [minted])])]
  {
    var s1 := RunStage(cfg, EMPTY, WriteStm, a, None, minted);
    assert |s1.effects| == 3 && s1.effects <= Remember(cfg, EMPTY, a, minted).effects;
  }

  /** What a crash right after the capture mark leaves. */
  lemma CutAfterCapture(cfg: Config, a: Activity, minted: Id)
    ensures RunTries(cfg, EMPTY, [Try(a, minted, Some(2))]) ==
      World(map[KeyOne(a) := [MemoryCaptured(a.ns, [minted])]], {Record(minted, a.ns, HashOf(a))}, {}, [])
  {
    OneTry(cfg, EMPTY, Try(a, minted, Some(2)));
    FirstEffects(cfg, a, minted);
    var put, mark := PutStm(Record(minted, a.ns, HashOf(a))), Mark(KeyOne(a), [MemoryCaptured(a.ns, [minted])]);
    ApplyTwo(EMPTY, put, mark);
  }

  lemma ApplyTwo(w: World, x: Effect, y: Effect)
    ensures ApplyAll(w, [x, y]) == Apply(Apply(w, x), y)
  {
    assert [x, y] == [x] + [y];
    ApplyAllAppend(w, [x], [y]);
    ApplyOne(w, x);
    ApplyOne(Apply(w, x), y);
  }

  /** A non-promoting activity cut right after its capture mark: the retry succeeds and announces the
      completion of no memory. */
  lemma CompletionOfNothing(cfg: Config, a: Activity, minted: Id, reminted: Id)
    requires !Promotes(cfg, a)
    ensures var w := RunTries(cfg, EMPTY, [Try(a, minted, Some(2))]);
      var r := Remember(cfg, w, a, reminted);
      r.receipt.Some? && NamedIds(ApplyAll(w, r.effects), KeyOne(a)) == [minted] &&
      NamedIds(ApplyAll(w, r.effects), KeyThree(a)) == []
  {
    var tries := [Try(a, minted, Some(2))];
    CutAfterCapture(cfg, a, minted);
    CompletesExactly(cfg, tries, a, reminted);
    RetryNamesNothing(cfg, RunTries(cfg, EMPTY, tries), a, minted, reminted);
  }

  lemma RetryNamesNothing(cfg: Config, w: World, a: Activity, minted: Id, reminted: Id)
    requires !Promotes(cfg, a) && w.ledger == map[KeyOne(a) := [MemoryCaptured(a.ns, [minted])]]
    ensures var w' := ApplyAll(w, Remember(cfg, w, a, reminted).effects);
      NamedIds(w', KeyOne(a)) == [minted] && NamedIds(w', KeyThree(a)) == []
  {
    RememberClosed(cfg, w, a, reminted);
  }

  // ---- what the promoted flag of a receipt is worth ----------------------------------

  /** The ledger records the promotion of content `h` as that of memory `id`. */
  predicate RecordsPromotion(w: World, h: ContentHash, ns: Namespace, id: Id)
  {
    PromoteKey(h) in w.ledger && |w.ledger[PromoteKey(h)]| == 1 &&
    w.ledger[PromoteKey(h)][0].MemoryPromoted? &&
    w.ledger[PromoteKey(h)][0].ns == ns && w.ledger[PromoteKey(h)][0].id == id
  }

  /** The mid-term tier holds exactly the promotions recorded. */
  ghost predicate PointsRecorded(w: World)
  {
    forall r :: r in w.mtm <==> RecordsPromotion(w, r.hash, r.ns, r.id)
  }

  lemma PointsRecordedStay(cfg: Config, w: World, a: Activity, minted: Id)
    requires PointsRecorded(w)
    ensures PointsRecorded(WorldOne(w, a, minted))
    ensures CanComplete(cfg, w, a) ==> PointsRecorded(WorldThree(cfg, w, a, minted))
  {
    forall r
      ensures r in WorldOne(w, a, minted).mtm <==> RecordsPromotion(WorldOne(w, a, minted), r.hash, r.ns, r.id)
      ensures CanComplete(cfg, w, a) ==>
        (r in WorldThree(cfg, w, a, minted).mtm <==>
          RecordsPromotion(WorldThree(cfg, w, a, minted), r.hash, r.ns, r.id))
    {
      assert r in w.mtm <==> RecordsPromotion(w, r.hash, r.ns, r.id);
    }
  }

  lemma {:induction false} RunPointsRecorded(cfg: Config, tries: seq<Try>)
    requires forall i :: 0 <= i < |tries| ==> tries[i].crash.None?
    ensures PointsRecorded(RunTries(cfg, EMPTY, tries))
  {
    if tries != [] {
      var before, last := RunTries(cfg, EMPTY, tries[..|tries| - 1]), tries[|tries| - 1];
      RunPointsRecorded(cfg, tries[..|tries| - 1]);
      RememberClosed(cfg, before, last.a, last.minted);
      PointsRecordedStay(cfg, before, last.a, last.minted);
    }
  }

  /** The memory an attempt answers with: the one its capture record names, or the one it mints. */
  function CapturedId(w: World, a: Activity, minted: Id): Id
  {
    if NamedIds(w, KeyOne(a)) != [] then NamedIds(w, KeyOne(a))[0] else minted
  }

  /** The receipt of an attempt that can complete: its memory, and promoted exactly when it promotes. */
  lemma ReceiptOfCompletion(cfg: Config, w: World, a: Activity, minted: Id)
    requires Shaped(w) && CanComplete(cfg, w, a)
    ensures var r := Remember(cfg, w, a, minted).receipt;
      r.Some? && (r.value.promoted <==> Promotes(cfg, a)) && r.value.memoryId == CapturedId(w, a, minted)
  {
    RememberClosed(cfg, w, a, minted);
    ShapedReceipt(cfg, w, a, minted);
    EventsShaped(cfg, w, a, minted);
    PromotedInTheMiddle(EventsOne(w, a, minted), EventsTwo(cfg, w, a, minted), EventsThree(w, a, minted));
    FirstCaptured(Emitted(cfg, w, a, minted));
  }

  lemma EventsShaped(cfg: Config, w: World, a: Activity, minted: Id)
    requires Shaped(w)
    ensures var e1, e2, e3 := EventsOne(w, a, minted), EventsTwo(cfg, w, a, minted), EventsThree(w, a, minted);
      |e1| == 1 && e1[0].MemoryCaptured? && |e1[0].ids| == 1 && |e3| == 1 && e3[0].IngestCompleted? &&
      if Promotes(cfg, a) then
        |e2| == 1 && e2[0].MemoryPromoted? && WorldThree(cfg, w, a, minted).ledger[KeyTwo(a)] == e2
      else e2 == []
  {
    assert KeyOne(a) in w.ledger ==> ShapedRecord(KeyOne(a), w.ledger[KeyOne(a)]);
    assert KeyTwo(a) in w.ledger ==> ShapedRecord(KeyTwo(a), w.ledger[KeyTwo(a)]);
    assert KeyThree(a) in w.ledger ==> ShapedRecord(KeyThree(a), w.ledger[KeyThree(a)]);
  }

  lemma PromotedInTheMiddle(e1: seq<Event>, e2: seq<Event>, e3: seq<Event>)
    requires |e1| == 1 && e1[0].MemoryCaptured? && |e3| == 1 && e3[0].IngestCompleted?
    requires e2 == [] || (|e2| == 1 && e2[0].MemoryPromoted?)
    ensures AnyPromoted(e1 + e2 + e3) <==> e2 != []
  {
    assert e2 != [] ==> (e1 + e2 + e3)[1] == e2[0];
  }

  /** After any crash-free attempts, for an attempt that can complete: the receipt says promoted exactly
      when the activity promotes, and its memory is then in the mid-term tier if and only if the ledger
      before the call has no promotion of the content, or has it as that of this very memory. */
  lemma PromotedReceiptExactly(cfg: Config, tries: seq<Try>, a: Activity, minted: Id)
    requires forall i :: 0 <= i < |tries| ==> tries[i].crash.None?
    requires CanComplete(cfg, RunTries(cfg, EMPTY, tries), a)
    ensures var w := RunTries(cfg, EMPTY, tries);
      var r, m := Remember(cfg, w, a, minted), CapturedId(w, a, minted);
      r.receipt.Some? && r.receipt.value.memoryId == m && (r.receipt.value.promoted <==> Promotes(cfg, a)) &&
      (Promotes(cfg, a) ==>
        (Record(m, a.ns, HashOf(a)) in ApplyAll(w, r.effects).mtm <==>
          KeyTwo(a) !in w.ledger || RecordsPromotion(w, HashOf(a), a.ns, m)))
  {
    var w := RunTries(cfg, EMPTY, tries);
    RunShaped(cfg, EMPTY, tries);
    RunPointsRecorded(cfg, tries);
    RememberClosed(cfg, w, a, minted);
    PointsRecordedStay(cfg, w, a, minted);
    ReceiptOfCompletion(cfg, w, a, minted);
    if Promotes(cfg, a) {
      PromotionAfter(cfg, w, a, minted);
    }
  }

  /** The promotion record after the attempt, from the ledger before it. */
  lemma PromotionAfter(cfg: Config, w: World, a: Activity, minted: Id)
    requires Shaped(w) && CanComplete(cfg, w, a) && Promotes(cfg, a)
    ensures var m := CapturedId(w, a, minted);
      RecordsPromotion(WorldThree(cfg, w, a, minted), HashOf(a), a.ns, m) <==>
        KeyTwo(a) !in w.ledger || RecordsPromotion(w, HashOf(a), a.ns, m)
  {
    EventsShaped(cfg, w, a, minted);
  }

  /** Crashes anywhere, a memory whose promotion was published is in the mid-term tier. */
  lemma PublishedPromotionIsWritten(cfg: Config, tries: seq<Try>, e: Event)
    requires e in RunTries(cfg, EMPTY, tries).published && e.MemoryPromoted?
    ensures Written(RunTries(cfg, EMPTY, tries).mtm, e.ns, e.id)
  {
    var w := RunTries(cfg, EMPTY, tries);
    WriteMarkPublish(cfg, EMPTY, tries);
    assert Recorded(w, e);
    assert Backed(w, e);
  }

  /** An attempt that captures content promoted before is told of that promotion. */
  lemma SecondReceipt(cfg: Config, w: World, b: Activity, minted: Id)
    requires Shaped(w) && Promotes(cfg, b) && KeyOne(b) !in w.ledger && KeyTwo(b) in w.ledger
    ensures var r := Remember(cfg, w, b, minted);
      r.receipt.Some? && r.receipt.value.promoted && r.receipt.value.memoryId == minted &&
        ApplyAll(w, r.effects).mtm == w.mtm
  {
    ReceiptOfCompletion(cfg, w, b, minted);
    RememberClosed(cfg, w, b, minted);
  }

  /** The flag alone promises nothing: of two activities with the same content the second is told that
      it was promoted, and its memory is not in the mid-term tier. */
  lemma SecondIsNotPromoted(cfg: Config, a: Activity, b: Activity, m: Id, m': Id)
    requires Promotes(cfg, a) && Promotes(cfg, b) && HashOf(a) == HashOf(b) &&
      ActivityIdFor(a) != ActivityIdFor(b) && m != m'
    ensures var w := RunTries(cfg, EMPTY, [Try(a, m, None)]);
      var r := Remember(cfg, w, b, m');
      r.receipt.Some? && r.receipt.value.promoted && r.receipt.value.memoryId == m' &&
      forall x :: x in ApplyAll(w, r.effects).mtm ==> x.id != m'
  {
    FirstPromotes(cfg, a, m);
    RunShaped(cfg, EMPTY, [Try(a, m, None)]);
    SecondIsElsewhere(cfg, RunTries(cfg, EMPTY, [Try(a, m, None)]), a, b, m, m');
  }

  lemma SecondIsElsewhere(cfg: Config, w: World, a: Activity, b: Activity, m: Id, m': Id)
    requires Shaped(w) && w.ledger.Keys == {KeyOne(a), KeyTwo(a), KeyThree(a)} && w.mtm == {Record(m, a.ns, HashOf(a))}
    requires Promotes(cfg, b) && HashOf(a) == HashOf(b) && ActivityIdFor(a) != ActivityIdFor(b) && m != m'
    ensures var r := Remember(cfg, w, b, m');
      r.receipt.Some? && r.receipt.value.promoted && r.receipt.value.memoryId == m' &&
      forall x :: x in ApplyAll(w, r.effects).mtm ==> x.id != m'
  {
    SecondReceipt(cfg, w, b, m');
  }

  lemma FirstPromotes(cfg: Config, a: Activity, m: Id)
    requires Promotes(cfg, a)
    ensures var w := RunTries(cfg, EMPTY, [Try(a, m, None)]);
      w.ledger.Keys == {KeyOne(a), KeyTwo(a), KeyThree(a)} && w.mtm == {Record(m, a.ns, HashOf(a))}
  {
    OneTry(cfg, EMPTY, Try(a, m, None));
    RememberClosed(cfg, EMPTY, a, m);
  }

  lemma {:induction false} FirstCaptured(events: seq<Event>)
    requires events != [] && events[0].MemoryCaptured? && events[0].ids != []
    ensures CapturedIds(events) != [] && CapturedIds(events)[0] == events[0].ids[0]
  {
    if |events| == 1 {
      assert events[..0] == [];
    } else {
      FirstCaptured(events[..|events| - 1]);
    }
  }
}
