/** What an attempt does, by the fields of the activities alone: which make an occurrence new,
    which make a content new, and which ask for a promotion. */
module IngestIdentity {
  import opened Common
  import opened Namespaces
  import opened Ingest
  import opened IngestLaws
  import opened IngestReplay
  import opened IngestRetry

  /** The same occurrence: host, session, source offset and kind agree. */
  predicate SameOccurrence(a: Activity, b: Activity)
  {
    a.host == b.host && a.ns.session == b.ns.session && a.offset == b.offset && a.kind == b.kind
  }

  /** The same content: text, triple and polarity agree. */
  predicate SameContent(a: Activity, b: Activity)
  {
    a.text == b.text && a.subj == b.subj && a.pred == b.pred && a.obj == b.obj && a.negated == b.negated
  }

  /** The activity asks for promotion, or is important enough. */
  predicate Wants(cfg: Config, a: Activity) { a.promote || a.importance >= cfg.importancePromote }

  /** The try is of the same occurrence and lives past its capture mark. */
  predicate Captures(t: Try, a: Activity)
  {
    SameOccurrence(t.a, a) && (t.crash.None? || t.crash.value >= 2)
  }

  predicate CapturedAt(tries: seq<Try>, a: Activity, i: int) { 0 <= i < |tries| && Captures(tries[i], a) }

  ghost predicate Seen(tries: seq<Try>, a: Activity) { exists i :: CapturedAt(tries, a, i) }

  /** The try brings the same content as a new occurrence, wants it promoted, and lives past that mark. */
  ghost predicate PromotesAt(cfg: Config, tries: seq<Try>, a: Activity, i: int)
  {
    0 <= i < |tries| && SameContent(tries[i].a, a) && Wants(cfg, tries[i].a) &&
    (tries[i].crash.None? || tries[i].crash.value >= 5) && !Seen(tries[..i], tries[i].a)
  }

  ghost predicate ContentSeen(cfg: Config, tries: seq<Try>, a: Activity) { exists i :: PromotesAt(cfg, tries, a, i) }

  // ---- the keys, by fields -----------------------------------------------------------

  lemma KeysByFields(cfg: Config, a: Activity, b: Activity)
    ensures KeyOne(a) == KeyOne(b) <==> SameOccurrence(a, b)
    ensures KeyTwo(a) == KeyTwo(b) <==> SameContent(a, b)
    ensures Promotes(cfg, a) <==> Wants(cfg, a)
  {
  }

  /** An attempt of another occurrence never records this one. */
  lemma ForeignCapture(cfg: Config, w: World, t: Try, a: Activity)
    requires KeyOne(a) !in w.ledger
    ensures KeyOne(a) in AfterTry(cfg, w, t).ledger <==> Captures(t, a)
  {
    KeysByFields(cfg, t.a, a);
    if SameOccurrence(t.a, a) {
      TryCaptures(cfg, w, t);
    } else {
      var effects := Remember(cfg, w, t.a, t.minted).effects;
      MarkedKeys(w, Survived(effects, t.crash), KeyOne(a));
      forall i
        ensures !MarksAt(Survived(effects, t.crash), i, KeyOne(a))
      {
        SurvivedMarks(effects, t.crash, i, KeyOne(a));
        StageOfMark(cfg, w, t.a, t.minted, i, KeyOne(a));
        StageMarks(cfg, w, WriteStm, t.a, None, t.minted, i, KeyOne(a));
      }
    }
  }

  lemma SeenNext(tries: seq<Try>, a: Activity)
    requires tries != []
    ensures Seen(tries, a) <==> Seen(tries[..|tries| - 1], a) || Captures(tries[|tries| - 1], a)
  {
    var last := |tries| - 1;
    if i :| CapturedAt(tries, a, i) && i < last {
      assert CapturedAt(tries[..last], a, i);
    }
    if i :| CapturedAt(tries[..last], a, i) {
      assert CapturedAt(tries, a, i);
    }
    assert Captures(tries[last], a) ==> CapturedAt(tries, a, last);
  }

  /** An occurrence is recorded exactly when some try of it lived past its capture mark. */
  lemma {:induction false} RecordedExactly(cfg: Config, tries: seq<Try>, a: Activity)
    ensures KeyOne(a) in RunTries(cfg, EMPTY, tries).ledger <==> Seen(tries, a)
  {
    if tries != [] {
      var last := |tries| - 1;
      var before := RunTries(cfg, EMPTY, tries[..last]);
      RecordedExactly(cfg, tries[..last], a);
      SeenNext(tries, a);
      if KeyOne(a) in before.ledger {
        TryKeepsKey(cfg, before, tries[last], KeyOne(a));
      } else {
        ForeignCapture(cfg, before, tries[last], a);
      }
    }
  }

  lemma ContentNext(cfg: Config, tries: seq<Try>, a: Activity)
    requires tries != []
    ensures ContentSeen(cfg, tries, a) <==>
      ContentSeen(cfg, tries[..|tries| - 1], a) || PromotesAt(cfg, tries, a, |tries| - 1)
  {
    var last := |tries| - 1;
    forall i | 0 <= i < last
      ensures PromotesAt(cfg, tries[..last], a, i) <==> PromotesAt(cfg, tries, a, i)
    {
      assert tries[..last][..i] == tries[..i];
    }
    if i :| PromotesAt(cfg, tries, a, i) && i < last {
      assert PromotesAt(cfg, tries[..last], a, i);
    }
    if i :| PromotesAt(cfg, tries[..last], a, i) {
      assert PromotesAt(cfg, tries, a, i);
    }
  }

  /** A content is recorded as promoted exactly when some try of it promoted it as a new occurrence. */
  lemma {:induction false} PromotionRecordedExactly(cfg: Config, tries: seq<Try>, a: Activity)
    ensures KeyTwo(a) in RunTries(cfg, EMPTY, tries).ledger <==> ContentSeen(cfg, tries, a)
  {
    if tries != [] {
      var last := |tries| - 1;
      var before := RunTries(cfg, EMPTY, tries[..last]);
      PromotionRecordedExactly(cfg, tries[..last], a);
      ContentNext(cfg, tries, a);
      if KeyTwo(a) in before.ledger {
        TryKeepsKey(cfg, before, tries[last], KeyTwo(a));
      } else {
        TryRescues(cfg, before, tries[last], a);
        KeysByFields(cfg, tries[last].a, a);
        RecordedExactly(cfg, tries[..last], tries[last].a);
      }
    }
  }

  // ---- what an attempt leaves --------------------------------------------------------

  /** `tier'` is `tier`, with one record under `id` in the activity's namespace if `more`. */
  ghost predicate Gains(tier: set<Record>, tier': set<Record>, more: bool, id: Id, a: Activity)
  {
    if more then exists r: Record :: r.id == id && r.ns == a.ns && tier' == tier + {r} else tier' == tier
  }

  /** After any tries, crashed or not, an uninterrupted attempt captures its activity in the short-term
      tier if and only if it is a new occurrence, promotes it if and only if it is one, wants promotion and
      its content was not promoted, and returns a receipt if and only if it is new, wants no promotion or
      its content was promoted. */
  lemma AttemptExactly(cfg: Config, tries: seq<Try>, a: Activity, minted: Id)
    ensures var w := RunTries(cfg, EMPTY, tries);
      var r := Remember(cfg, w, a, minted);
      var w', isNew, wants, known := ApplyAll(w, r.effects), !Seen(tries, a), Wants(cfg, a), ContentSeen(cfg, tries, a);
      Gains(w.stm, w'.stm, isNew, minted, a) &&
      Gains(w.mtm, w'.mtm, isNew && wants && !known, minted, a) &&
      (r.receipt.Some? <==> isNew || !wants || known)
  {
    var w := RunTries(cfg, EMPTY, tries);
    RecordedExactly(cfg, tries, a);
    PromotionRecordedExactly(cfg, tries, a);
    KeysByFields(cfg, a, a);
    CompletesExactly(cfg, tries, a, minted);
    RememberClosed(cfg, w, a, minted);
    AttemptTiers(cfg, w, a, minted);
  }

  lemma AttemptTiers(cfg: Config, w: World, a: Activity, minted: Id)
    ensures Gains(w.stm, WorldOne(w, a, minted).stm, KeyOne(a) !in w.ledger, minted, a)
    ensures WorldOne(w, a, minted).mtm == w.mtm && WorldThree(cfg, w, a, minted).stm == WorldOne(w, a, minted).stm
    ensures Gains(w.mtm, WorldThree(cfg, w, a, minted).mtm, Promotes(cfg, a) && KeyTwo(a) !in w.ledger, minted, a)
  {
    var r := Record(minted, a.ns, HashOf(a));
    assert r.id == minted && r.ns == a.ns;
  }

  // ---- what the receipt says ---------------------------------------------------------

  lemma {:induction false} LedgerGrows(w: World, effects: seq<Effect>)
    ensures LedgerKept(w, ApplyAll(w, effects))
  {
    if effects != [] {
      LedgerGrows(w, effects[..|effects| - 1]);
    }
  }

  /** The capture record of a try names what it minted. */
  lemma CaptureNames(cfg: Config, w: World, t: Try)
    requires KeyOne(t.a) !in w.ledger && (t.crash.None? || t.crash.value >= 2)
    ensures KeyOne(t.a) in AfterTry(cfg, w, t).ledger
    ensures AfterTry(cfg, w, t).ledger[KeyOne(t.a)] == [MemoryCaptured(t.a.ns, [t.minted])]
  {
    var effects := Survived(Remember(cfg, w, t.a, t.minted).effects, t.crash);
    var put := PutStm(Record(t.minted, t.a.ns, HashOf(t.a)));
    var mark := Mark(KeyOne(t.a), [MemoryCaptured(t.a.ns, [t.minted])]);
    CaptureStart(cfg, w, t.a, t.minted);
    assert effects[..2] == [put, mark] && effects == effects[..2] + effects[2..];
    ApplyAllAppend(w, effects[..2], effects[2..]);
    ApplyTwo(w, put, mark);
    LedgerGrows(Apply(Apply(w, put), mark), effects[2..]);
  }

  lemma CaptureStart(cfg: Config, w: World, a: Activity, minted: Id)
    requires KeyOne(a) !in w.ledger
    ensures var effects := Remember(cfg, w, a, minted).effects;
      |effects| > 2 &&
      effects[..2] == [PutStm(Record(minted, a.ns, HashOf(a))), Mark(KeyOne(a), [MemoryCaptured(a.ns, [minted])])]
  {
    AttemptEffects(cfg, w, a, minted);
    CaptureEffects(cfg, w, a, minted);
  }

  /** The first try to capture the occurrence. */
  ghost predicate FirstCapture(tries: seq<Try>, a: Activity, i: int)
  {
    CapturedAt(tries, a, i) && !Seen(tries[..i], a)
  }

  lemma LastTryKeeps(cfg: Config, w: World, tries: seq<Try>)
    requires tries != []
    ensures LedgerKept(RunTries(cfg, w, tries[..|tries| - 1]), RunTries(cfg, w, tries))
  {
    var before, t := RunTries(cfg, w, tries[..|tries| - 1]), tries[|tries| - 1];
    LedgerGrows(before, Survived(Remember(cfg, before, t.a, t.minted).effects, t.crash));
  }

  lemma KeptThrough(w: World, w': World, w'': World)
    requires LedgerKept(w, w') && LedgerKept(w', w'')
    ensures LedgerKept(w, w'')
  {
  }

  lemma {:induction false} LedgerKeptRun(cfg: Config, w: World, tries: seq<Try>, i: nat)
    requires i <= |tries|
    ensures LedgerKept(RunTries(cfg, w, tries[..i]), RunTries(cfg, w, tries))
    decreases |tries|
  {
    if i == |tries| {
      assert tries[..i] == tries;
    } else {
      var init := tries[..|tries| - 1];
      assert init[..i] == tries[..i];
      LedgerKeptRun(cfg, w, init, i);
      LastTryKeeps(cfg, w, tries);
      KeptThrough(RunTries(cfg, w, tries[..i]), RunTries(cfg, w, init), RunTries(cfg, w, tries));
    }
  }

  lemma FirstCaptureNames(cfg: Config, tries: seq<Try>, a: Activity, i: int)
    requires FirstCapture(tries, a, i)
    ensures NamedIds(RunTries(cfg, EMPTY, tries), KeyOne(a)) == [tries[i].minted]
  {
    var before, t := RunTries(cfg, EMPTY, tries[..i]), tries[i];
    KeysByFields(cfg, t.a, a);
    RecordedExactly(cfg, tries[..i], a);
    CaptureNames(cfg, before, t);
    assert tries[..i + 1][..i] == tries[..i];
    assert RunTries(cfg, EMPTY, tries[..i + 1]) == AfterTry(cfg, before, t);
    LedgerKeptRun(cfg, EMPTY, tries, i + 1);
  }

  /** A receipt names the memory minted by the first try that captured the occurrence, or this attempt's
      own when there was none; it says promoted exactly when the activity wants promotion; and it lists a
      capture, a promotion if there is one, and a completion. */
  lemma ReceiptExactly(cfg: Config, tries: seq<Try>, a: Activity, minted: Id)
    requires Remember(cfg, RunTries(cfg, EMPTY, tries), a, minted).receipt.Some?
    ensures var receipt := Remember(cfg, RunTries(cfg, EMPTY, tries), a, minted).receipt.value;
      (!Seen(tries, a) ==> receipt.memoryId == minted) &&
      (forall i :: FirstCapture(tries, a, i) ==> receipt.memoryId == tries[i].minted) &&
      (receipt.promoted <==> Wants(cfg, a)) &&
      receipt.emitted == [CapturedName] + (if Wants(cfg, a) then [PromotedName] else []) + [CompletedName]
  {
    var w := RunTries(cfg, EMPTY, tries);
    RunShaped(cfg, EMPTY, tries);
    RecordedExactly(cfg, tries, a);
    KeysByFields(cfg, a, a);
    CompletesExactly(cfg, tries, a, minted);
    ReceiptOfCompletion(cfg, w, a, minted);
    ReceiptNames(cfg, w, a, minted);
    forall i | FirstCapture(tries, a, i)
      ensures CapturedId(w, a, minted) == tries[i].minted
    {
      FirstCaptureNames(cfg, tries, a, i);
    }
  }

  lemma ReceiptNames(cfg: Config, w: World, a: Activity, minted: Id)
    requires Shaped(w) && CanComplete(cfg, w, a) && Remember(cfg, w, a, minted).receipt.Some?
    ensures Remember(cfg, w, a, minted).receipt.value.emitted ==
      [CapturedName] + (if Promotes(cfg, a) then [PromotedName] else []) + [CompletedName]
  {
    RememberClosed(cfg, w, a, minted);
    EventsShaped(cfg, w, a, minted);
    var e1, e2, e3 := EventsOne(w, a, minted), EventsTwo(cfg, w, a, minted), EventsThree(w, a, minted);
    NamesAppend(e1, e2);
    NamesAppend(e1 + e2, e3);
  }

  lemma NamesAppend(s: seq<Event>, t: seq<Event>)
    ensures NamesOf(s + t) == NamesOf(s) + NamesOf(t)
  {
  }

  /** The first promotion of a content announces the capture and, with its reason, the promotion. */
  lemma FirstPromotionAnnounced(cfg: Config, tries: seq<Try>, a: Activity, minted: Id)
    requires !Seen(tries, a) && Wants(cfg, a) && !ContentSeen(cfg, tries, a)
    ensures var w := RunTries(cfg, EMPTY, tries);
      var events := NewlyPublished(w, ApplyAll(w, Remember(cfg, w, a, minted).effects));
      MemoryCaptured(a.ns, [minted]) in events &&
      MemoryPromoted(a.ns, minted, if a.promote then "explicit" else "importance") in events
  {
    var w := RunTries(cfg, EMPTY, tries);
    RecordedExactly(cfg, tries, a);
    PromotionRecordedExactly(cfg, tries, a);
    KeysByFields(cfg, a, a);
    RememberClosed(cfg, w, a, minted);
    CompletedPublishes(cfg, w, a, minted);
    var events := Emitted(cfg, w, a, minted);
    assert events[0] == MemoryCaptured(a.ns, [minted]);
    assert events[1] == MemoryPromoted(a.ns, minted, if a.promote then "explicit" else "importance");
  }
}
