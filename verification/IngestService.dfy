/** The ingest service over stores changed in place. An attempt may stop before any of its
    effects, as a crash would stop it. */
module IngestService {
  import opened Common
  import opened Namespaces
  import opened Ingest
  import opened IngestLaws

  lemma SurvivedAppend(w: World, a: seq<Effect>, b: seq<Effect>, n: nat)
    ensures ApplyAll(w, Survived(a + b, Some(n))) ==
      if n < |a| then ApplyAll(w, Survived(a, Some(n))) else ApplyAll(ApplyAll(w, a), Survived(b, Some(n - |a|)))
  {
    if n < |a| {
      assert (a + b)[..n] == a[..n];
    } else {
      var rest := Survived(b, Some(n - |a|));
      assert Survived(a + b, Some(n)) == a + rest;
      ApplyAllAppend(w, a, rest);
    }
  }

  datatype Outcome = Crashed | RaisedError | Returned(receipt: Receipt)

  class Service {
    const cfg: Config
    var ledger: map<Key, seq<Event>>
    var stm: set<Record>
    var mtm: set<Record>
    var published: seq<Event>

    constructor (cfg: Config)
      ensures this.cfg == cfg && Value() == EMPTY
    {
      this.cfg, ledger, stm, mtm, published := cfg, map[], {}, {}, [];
    }

    ghost function Value(): World
      reads this
    {
      World(ledger, stm, mtm, published)
    }

    /** One store call. */
    method Perform(e: Effect)
      modifies this
      ensures Value() == Apply(old(Value()), e)
    {
      match e {
        case PutStm(r) => stm := stm + {r};
        case UpsertMtm(r) => mtm := mtm + {r};
        case Mark(k, events) =>
          if k !in ledger {
            ledger := ledger[k := events];
          }
        case Publish(x) => published := published + [x];
      }
    }

    /** Store calls in order, as many as `left` allows. */
    method PerformAll(effects: seq<Effect>, left: nat) returns (alive: bool, left': nat)
      modifies this
      ensures Value() == ApplyAll(old(Value()), Survived(effects, Some(left)))
      ensures alive == (|effects| <= left) && (alive ==> left' == left - |effects|)
    {
      left' := left;
      for i := 0 to |effects|
        invariant i + left' == left && Value() == ApplyAll(old(Value()), effects[..i])
      {
        if left' == 0 {
          return false, 0;
        }
        TakeNext(effects, i);
        ApplyAllAppend(old(Value()), effects[..i], [effects[i]]);
        ApplyOne(Value(), effects[i]);
        Perform(effects[i]);
        left' := left' - 1;
      }
      assert effects[..|effects|] == effects;
      alive := true;
    }

    /** Writes, then the mark, then the publications. */
    method WriteMarkThenPublish(writes: seq<Effect>, marks: seq<Effect>, publishes: seq<Effect>, left: nat)
      returns (alive: bool, left': nat)
      modifies this
      ensures Value() == ApplyAll(old(Value()), Survived(writes + marks + publishes, Some(left)))
      ensures alive == (|writes + marks + publishes| <= left) &&
        (alive ==> left' == left - |writes + marks + publishes|)
    {
      ghost var w := Value();
      SurvivedAppend(w, writes + marks, publishes, left);
      SurvivedAppend(w, writes, marks, left);
      ApplyAllAppend(w, writes, marks);
      alive, left' := PerformAll(writes, left);
      if alive {
        alive, left' := PerformAll(marks, left');
      }
      if alive {
        alive, left' := PerformAll(publishes, left');
      }
    }

    /** A stage under its ledger gate: republish on a hit; otherwise execute, mark, publish. */
    method RunOne(st: Stage, a: Activity, handed: Option<Record>, minted: Id, left: nat)
      returns (alive: bool, left': nat, run: StageRun)
      modifies this
      ensures run == RunStage(cfg, old(Value()), st, a, handed, minted)
      ensures Value() == ApplyAll(old(Value()), Survived(run.effects, Some(left)))
      ensures alive == (|run.effects| <= left) && (alive ==> left' == left - |run.effects|)
    {
      var key := KeyFor(cfg, st, a);
      if key.Some? && key.value in ledger {
        run := StageRun(Publishes(ledger[key.value]), ledger[key.value], handed, false);
        alive, left' := PerformAll(run.effects, left);
        return;
      }
      var x := Execute(cfg, st, a, handed, minted);
      if x.Raised? {
        run := StageRun([], [], handed, true);
        return true, left, run;
      }
      var marks := if key.Some? then [Mark(key.value, x.events)] else [];
      run := StageRun(x.writes + marks + Publishes(x.events), x.events, x.handed, false);
      alive, left' := WriteMarkThenPublish(x.writes, marks, Publishes(x.events), left);
    }

    /** One attempt, cut after `left` effects: what survives is a prefix of the attempt's effects, and an
        attempt that is not cut answers as specified. */
    method RememberActivity(a: Activity, minted: Id, left: nat) returns (outcome: Outcome)
      modifies this
      ensures var r := Remember(cfg, old(Value()), a, minted);
        Value() == ApplyAll(old(Value()), Survived(r.effects, Some(left))) &&
        outcome ==
          if left < |r.effects| then Crashed
          else if r.receipt.Some? then Returned(r.receipt.value)
          else RaisedError
    {
      ghost var w := Value();
      var alive, l1, s1 := RunOne(WriteStm, a, None, minted, left);
      ghost var t2 := RunStage(cfg, ApplyAll(w, s1.effects), DeterministicPromote, a, s1.handed, minted);
      AttemptCut(cfg, w, a, minted, left, s1, t2);
      if !alive {
        return Crashed;
      }
      var alive2, l2, s2 := RunOne(DeterministicPromote, a, s1.handed, minted, l1);
      if !alive2 {
        return Crashed;
      }
      if s2.raised {
        return RaisedError;
      }
      var alive3, l3, s3 := RunOne(EmitIngestCompleted, a, s2.handed, minted, l2);
      if !alive3 {
        return Crashed;
      }
      var receipt := ReceiptFor(a, s1.events + s2.events + s3.events);
      outcome := if receipt.Some? then Returned(receipt.value) else RaisedError;
    }
  }

  /** Where a cut after `n` effects falls: in the first stage, the second, or the third. */
  lemma AttemptCut(cfg: Config, w: World, a: Activity, minted: Id, n: nat, s1: StageRun, s2: StageRun)
    requires s1 == RunStage(cfg, w, WriteStm, a, None, minted)
    requires s2 == RunStage(cfg, ApplyAll(w, s1.effects), DeterministicPromote, a, s1.handed, minted)
    ensures var w1 := ApplyAll(w, s1.effects);
      var w2 := ApplyAll(w1, s2.effects);
      var s3 := RunStage(cfg, w2, EmitIngestCompleted, a, s2.handed, minted);
      var r := Remember(cfg, w, a, minted);
      |r.effects| == |s1.effects| + |s2.effects| + (if s2.raised then 0 else |s3.effects|) &&
      ApplyAll(w, Survived(r.effects, Some(n))) ==
        if n < |s1.effects| then ApplyAll(w, Survived(s1.effects, Some(n)))
        else if n < |s1.effects| + |s2.effects| || s2.raised then
          ApplyAll(w1, Survived(s2.effects, Some(n - |s1.effects|)))
        else ApplyAll(w2, Survived(s3.effects, Some(n - |s1.effects| - |s2.effects|)))
  {
    var s3 := RunStage(cfg, ApplyAll(ApplyAll(w, s1.effects), s2.effects), EmitIngestCompleted, a, s2.handed, minted);
    SurvivedAppend(w, s1.effects, s2.effects, n);
    SurvivedAppend(w, s1.effects + s2.effects, s3.effects, n);
    ApplyAllAppend(w, s1.effects, s2.effects);
  }
}
