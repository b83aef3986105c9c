/** What the ledger discipline guarantees: nothing is announced that is not recorded and written,
    whatever crashes. */
module IngestLaws {
  import opened Common
  import opened Namespaces
  import opened Ingest

  lemma {:induction false} ApplyAllAppend(w: World, a: seq<Effect>, b: seq<Effect>)
    ensures ApplyAll(w, a + b) == ApplyAll(ApplyAll(w, a), b)
  {
    if b == [] {
      assert a + b == a;
    } else {
      assert (a + b)[..|a + b| - 1] == a + b[..|b| - 1];
      ApplyAllAppend(w, a, b[..|b| - 1]);
    }
  }

  lemma ApplyOne(w: World, e: Effect)
    ensures ApplyAll(w, [e]) == Apply(w, e)
  {
    assert [e][..0] == [];
    assert ApplyAll(w, []) == w;
  }

  lemma {:induction false} PublishAll(w: World, events: seq<Event>)
    ensures ApplyAll(w, Publishes(events)) == w.(published := w.published + events)
  {
    if events != [] {
      var last := |events| - 1;
      assert Publishes(events)[..last] == Publishes(events[..last]);
      PublishAll(w, events[..last]);
      assert events == events[..last] + [events[last]];
    } else {
      assert w.published + [] == w.published;
    }
  }

  // ---- write, then mark, then publish ------------------------------------------------

  /** The memory an event speaks of has been written to its tier. */
  ghost predicate Backed(w: World, e: Event)
  {
    match e
    case MemoryCaptured(ns, ids) => forall id :: id in ids ==> Written(w.stm, ns, id)
    case MemoryPromoted(ns, id, _) => Written(w.mtm, ns, id)
    case IngestCompleted(_, _) => true
  }

  ghost predicate Written(tier: set<Record>, ns: Namespace, id: Id)
  {
    exists r :: r in tier && r.ns == ns && r.id == id
  }

  ghost predicate Recorded(w: World, e: Event) { exists k :: k in w.ledger && e in w.ledger[k] }

  /** Every published event is recorded, and every recorded event is backed by its write. */
  ghost predicate Announced(w: World)
  {
    (forall e :: e in w.published ==> Recorded(w, e)) &&
    (forall k, e :: k in w.ledger && e in w.ledger[k] ==> Backed(w, e))
  }

  /** An effect that keeps the discipline. */
  ghost predicate Permitted(w: World, e: Effect)
  {
    match e
    case PutStm(_) => true
    case UpsertMtm(_) => true
    case Mark(_, events) => forall x :: x in events ==> Backed(w, x)
    case Publish(x) => Recorded(w, x)
  }

  /** No record of the ledger changes or disappears. */
  ghost predicate LedgerKept(w: World, w': World)
  {
    forall k :: k in w.ledger ==> k in w'.ledger && w'.ledger[k] == w.ledger[k]
  }

  lemma BackedStays(w: World, w': World, e: Event)
    requires Backed(w, e) && w.stm <= w'.stm && w.mtm <= w'.mtm
    ensures Backed(w', e)
  {
    if e.MemoryCaptured? {
      forall id | id in e.ids
        ensures Written(w'.stm, e.ns, id)
      {
        assert Written(w.stm, e.ns, id);
      }
    } else if e.MemoryPromoted? {
      assert Written(w.mtm, e.ns, e.id);
    }
  }

  lemma ApplyKeeps(w: World, e: Effect)
    requires Announced(w) && Permitted(w, e)
    ensures Announced(Apply(w, e)) && LedgerKept(w, Apply(w, e))
  {
    var w' := Apply(w, e);
    forall x | x in w'.published
      ensures Recorded(w', x)
    {
      assert Recorded(w, x);
      var k :| k in w.ledger && x in w.ledger[k];
      assert k in w'.ledger && x in w'.ledger[k];
    }
    forall k, x | k in w'.ledger && x in w'.ledger[k]
      ensures Backed(w', x)
    {
      assert Backed(w, x);
      BackedStays(w, w', x);
    }
  }

  /** Each effect is permitted in the state the earlier ones left. */
  ghost predicate Disciplined(w: World, effects: seq<Effect>)
  {
    forall i :: 0 <= i < |effects| ==> Permitted(ApplyAll(w, effects[..i]), effects[i])
  }

  lemma DisciplinedAppend(w: World, a: seq<Effect>, b: seq<Effect>)
    requires Disciplined(w, a) && Disciplined(ApplyAll(w, a), b)
    ensures Disciplined(w, a + b)
  {
    forall i | 0 <= i < |a + b|
      ensures Permitted(ApplyAll(w, (a + b)[..i]), (a + b)[i])
    {
      if i < |a| {
        assert (a + b)[..i] == a[..i];
      } else {
        assert (a + b)[..i] == a + b[..i - |a|];
        ApplyAllAppend(w, a, b[..i - |a|]);
      }
    }
  }

  lemma DisciplinedOne(w: World, e: Effect)
    requires Permitted(w, e)
    ensures Disciplined(w, [e])
  {
    assert [e][..0] == [] && ApplyAll(w, []) == w;
  }

  lemma {:induction false} DisciplineKeeps(w: World, effects: seq<Effect>)
    requires Announced(w) && Disciplined(w, effects)
    ensures Announced(ApplyAll(w, effects)) && LedgerKept(w, ApplyAll(w, effects))
  {
    if effects != [] {
      var init := effects[..|effects| - 1];
      assert Disciplined(w, init) by {
        assert forall i :: 0 <= i < |init| ==> init[..i] == effects[..i];
      }
      DisciplineKeeps(w, init);
      ApplyKeeps(ApplyAll(w, init), effects[|effects| - 1]);
    }
  }

  lemma PublishesDisciplined(w: World, events: seq<Event>)
    requires forall e :: e in events ==> Recorded(w, e)
    ensures Disciplined(w, Publishes(events))
  {
    var effects := Publishes(events);
    forall i | 0 <= i < |effects|
      ensures Permitted(ApplyAll(w, effects[..i]), effects[i])
    {
      assert effects[..i] == Publishes(events[..i]);
      PublishAll(w, events[..i]);
      assert events[i] in events;
    }
  }

  lemma WritesDisciplined(cfg: Config, w: World, st: Stage, a: Activity, handed: Option<Record>, minted: Id)
    requires handed.Some? ==> handed.value.ns == a.ns
    ensures var x := Execute(cfg, st, a, handed, minted);
      x.Raised? || (Disciplined(w, x.writes) &&
        (forall e :: e in x.events ==> Backed(ApplyAll(w, x.writes), e)) && ApplyAll(w, x.writes).ledger == w.ledger)
  {
    var x := Execute(cfg, st, a, handed, minted);
    if x.Executed? && x.writes != [] {
      var r := x.writes[0];
      ApplyOne(w, r);
      DisciplinedOne(w, r);
    }
  }

  lemma StageDisciplined(cfg: Config, w: World, st: Stage, a: Activity, handed: Option<Record>, minted: Id)
    requires handed.Some? ==> handed.value.ns == a.ns
    ensures Disciplined(w, RunStage(cfg, w, st, a, handed, minted).effects)
  {
    var key, x := KeyFor(cfg, st, a), Execute(cfg, st, a, handed, minted);
    if key.Some? && key.value in w.ledger {
      PublishesDisciplined(w, w.ledger[key.value]);
    } else if x.Executed? {
      WritesDisciplined(cfg, w, st, a, handed, minted);
      var w1 := ApplyAll(w, x.writes);
      if key.Some? {
        var mark := Mark(key.value, x.events);
        ApplyOne(w1, mark);
        DisciplinedOne(w1, mark);
        DisciplinedAppend(w, x.writes, [mark]);
        ApplyAllAppend(w, x.writes, [mark]);
        assert Apply(w1, mark).ledger[key.value] == x.events;
        PublishesDisciplined(Apply(w1, mark), x.events);
        DisciplinedAppend(w, x.writes + [mark], Publishes(x.events));
      } else {
        assert x.writes + [] + Publishes(x.events) == [];
      }
    }
  }

  lemma AttemptDisciplined(cfg: Config, w: World, a: Activity, minted: Id)
    ensures Disciplined(w, Remember(cfg, w, a, minted).effects)
  {
    var s1 := RunStage(cfg, w, WriteStm, a, None, minted);
    var w1 := ApplyAll(w, s1.effects);
    var s2 := RunStage(cfg, w1, DeterministicPromote, a, s1.handed, minted);
    StageDisciplined(cfg, w, WriteStm, a, None, minted);
    StageDisciplined(cfg, w1, DeterministicPromote, a, s1.handed, minted);
    DisciplinedAppend(w, s1.effects, s2.effects);
    if !s2.raised {
      ApplyAllAppend(w, s1.effects, s2.effects);
      var w2 := ApplyAll(w1, s2.effects);
      var s3 := RunStage(cfg, w2, EmitIngestCompleted, a, s2.handed, minted);
      StageDisciplined(cfg, w2, EmitIngestCompleted, a, s2.handed, minted);
      DisciplinedAppend(w, s1.effects + s2.effects, s3.effects);
    }
  }

  lemma SurvivedDisciplined(w: World, effects: seq<Effect>, crash: Option<nat>)
    requires Disciplined(w, effects)
    ensures Disciplined(w, Survived(effects, crash))
  {
    var cut := Survived(effects, crash);
    assert forall i :: 0 <= i < |cut| ==> cut[..i] == effects[..i];
  }

  /** In every state reached by attempts with a crash at any point, every published event is in a
      ledger record and every recorded capture or promotion was written; and no record ever changes. */
  lemma {:induction false} WriteMarkPublish(cfg: Config, w: World, tries: seq<Try>)
    requires Announced(w)
    ensures Announced(RunTries(cfg, w, tries)) && LedgerKept(w, RunTries(cfg, w, tries))
  {
    if tries != [] {
      var before, last := RunTries(cfg, w, tries[..|tries| - 1]), tries[|tries| - 1];
      WriteMarkPublish(cfg, w, tries[..|tries| - 1]);
      AttemptDisciplined(cfg, before, last.a, last.minted);
      SurvivedDisciplined(before, Remember(cfg, before, last.a, last.minted).effects, last.crash);
      DisciplineKeeps(before, Survived(Remember(cfg, before, last.a, last.minted).effects, last.crash));
    }
  }

  // ---- what a stage leaves -----------------------------------------------------------

  /** The world after a stage that did not raise. */
  function AfterStage(cfg: Config, w: World, st: Stage, a: Activity, handed: Option<Record>, minted: Id): World
    requires !RunStage(cfg, w, st, a, handed, minted).raised
  {
    var key := KeyFor(cfg, st, a);
    if key.Some? && key.value in w.ledger then w.(published := w.published + w.ledger[key.value])
    else
      var x := Execute(cfg, st, a, handed, minted);
      World(
        if key.Some? then w.ledger[key.value := x.events] else w.ledger,
        if st.WriteStm? then w.stm + {x.handed.value} else w.stm,
        if st.DeterministicPromote? && key.Some? then w.mtm + {handed.value} else w.mtm,
        w.published + x.events)
  }

  lemma StageLeaves(cfg: Config, w: World, st: Stage, a: Activity, handed: Option<Record>, minted: Id)
    requires !RunStage(cfg, w, st, a, handed, minted).raised
    ensures ApplyAll(w, RunStage(cfg, w, st, a, handed, minted).effects) == AfterStage(cfg, w, st, a, handed, minted)
  {
    var key, x := KeyFor(cfg, st, a), Execute(cfg, st, a, handed, minted);
    if key.Some? && key.value in w.ledger {
      PublishAll(w, w.ledger[key.value]);
    } else {
      var marks := if key.Some? then [Mark(key.value, x.events)] else [];
      ApplyAllAppend(w, x.writes + marks, Publishes(x.events));
      ApplyAllAppend(w, x.writes, marks);
      PublishAll(ApplyAll(w, x.writes + marks), x.events);
      if x.writes != [] {
        ApplyOne(w, x.writes[0]);
        assert x.writes == [x.writes[0]];
      }
      if key.Some? {
        ApplyOne(ApplyAll(w, x.writes), marks[0]);
      }
    }
  }
}
