/** Starting the components in dependency order, rolling back on failure, and closing in
    reverse order. */
module Lifecycle {
  import opened Common
  import opened TopoOrder

  /** How one component behaves in one attempt. `Fails`: start or health check raised an ordinary
      error. `Cancelled`: the attempt was cancelled there. */
  datatype Behaviour = Fails | Cancelled | Unhealthy | Healthy(degraded: bool)

  datatype Event = Started(name: Name) | Closed(name: Name)

  datatype Report = Report(started: seq<Name>, degraded: seq<Name>)

  // ---- an attempt, on values ---------------------------------------------------------

  /** `called`: components whose start was called; `recorded`: those that came up healthy. */
  datatype Attempt = Attempt(called: seq<Name>, recorded: seq<Name>, degraded: seq<Name>, failed: bool)

  predicate Aborts(spec: Spec, b: Behaviour)
  {
    b.Cancelled? || (spec.required && !b.Healthy?)
  }

  /** The attempt after one more component: abort, record it, or leave it degraded. */
  function Extend(a: Attempt, n: Name, spec: Spec, b: Behaviour): Attempt
  {
    if Aborts(spec, b) then a.(called := a.called + [n], failed := true)
    else if b.Healthy? then
      Attempt(a.called + [n], a.recorded + [n], if b.degraded then a.degraded + [n] else a.degraded, false)
    else a.(called := a.called + [n], degraded := a.degraded + [n])
  }

  function AttemptAll(specs: map<Name, Spec>, behave: Name -> Behaviour, order: seq<Name>): Attempt
    requires forall n :: n in order ==> n in specs
  {
    if order == [] then Attempt([], [], [], false)
    else
      var n, a := order[|order| - 1], AttemptAll(specs, behave, order[..|order| - 1]);
      if a.failed then a else Extend(a, n, specs[n], behave(n))
  }

  /** Closing pops from the end; a close that raises stops the loop with the rest still recorded. */
  function CloseFrom(started: seq<Name>, raises: set<Name>): (r: (seq<Name>, seq<Name>))
  {
    if started == [] then ([], [])
    else
      var n, rest := started[|started| - 1], started[..|started| - 1];
      if n in raises then ([n], rest)
      else
        var (closed, left) := CloseFrom(rest, raises);
        ([n] + closed, left)
  }

  function Starts(names: seq<Name>): seq<Event> { seq(|names|, i requires 0 <= i < |names| => Started(names[i])) }
  function Closes(names: seq<Name>): seq<Event> { seq(|names|, i requires 0 <= i < |names| => Closed(names[i])) }

  function Reverse<T>(s: seq<T>): (r: seq<T>)
    ensures |r| == |s| && forall i :: 0 <= i < |s| ==> r[i] == s[|s| - 1 - i]
  {
    seq(|s|, i requires 0 <= i < |s| => s[|s| - 1 - i])
  }

  lemma ReverseMembers<T>(s: seq<T>)
    ensures forall x :: x in Reverse(s) <==> x in s
  {
    forall i | 0 <= i < |s|
      ensures s[i] in Reverse(s)
    {
      assert Reverse(s)[|s| - 1 - i] == s[i];
    }
  }

  // ---- the manager -------------------------------------------------------------------

  class Manager {
    const specs: map<Name, Spec>
    const order: seq<Name>
    var started: seq<Name>
    var log: seq<Event>

    constructor (specs: map<Name, Spec>, order: seq<Name>)
      ensures this.specs == specs && this.order == order && started == [] && log == []
    {
      this.specs, this.order, started, log := specs, order, [], [];
    }

    /** Start in order. On failure everything recorded is closed in reverse order. */
    method Start(behave: Name -> Behaviour, raises: set<Name>) returns (r: Option<Report>)
      requires Topological(specs, order)
      modifies this
      ensures forall n :: n in order ==> n in specs
      ensures var a := AttemptAll(specs, behave, order);
        if a.failed then
          var (closed, left) := CloseFrom(old(started) + a.recorded, raises);
          r == None && started == left && log == old(log) + Starts(a.called) + Closes(closed)
        else
          r == Some(Report(started, a.degraded)) && started == old(started) + a.recorded &&
          log == old(log) + Starts(a.called)
    {
      OrderIsKnown(specs, order);
      var degraded, i := [], 0;
      ghost var a := Attempt([], [], [], false);
      while i < |order|
        invariant 0 <= i <= |order| && a == AttemptAll(specs, behave, order[..i]) && !a.failed
        invariant started == old(started) + a.recorded && degraded == a.degraded
        invariant log == old(log) + Starts(a.called)
      {
        AttemptNext(specs, behave, order, i);
        var n := order[i];
        var ok: bool;
        ok, degraded := StartOne(n, specs[n], behave(n), degraded, a, old(started), old(log));
        a := Extend(a, n, specs[n], behave(n));
        i := i + 1;
        if !ok {
          AttemptStopped(specs, behave, order, i);
          CloseStarted(raises);
          return None;
        }
      }
      assert order[..|order|] == order;
      r := Some(Report(started, degraded));
    }

    /** Start one component and record, degrade or refuse it. */
    method StartOne(n: Name, spec: Spec, b: Behaviour, degraded: seq<Name>, ghost a: Attempt,
                    ghost started0: seq<Name>, ghost log0: seq<Event>)
      returns (ok: bool, degraded': seq<Name>)
      requires started == started0 + a.recorded && degraded == a.degraded && log == log0 + Starts(a.called) && !a.failed
      modifies this
      ensures var a' := Extend(a, n, spec, b);
        started == started0 + a'.recorded && degraded' == a'.degraded && log == log0 + Starts(a'.called) &&
          ok == !a'.failed
    {
      StartsAppend(a.called, n);
      log := log + [Started(n)];
      degraded' := degraded;
      ok := !Aborts(spec, b);
      if ok {
        if b.Healthy? {
          started := started + [n];
        }
        if !b.Healthy? || b.degraded {
          degraded' := degraded + [n];
        }
      }
    }

    method CloseStarted(raises: set<Name>)
      modifies this
      ensures var (closed, left) := CloseFrom(old(started), raises);
        started == left && log == old(log) + Closes(closed)
    {
      ghost var closed: seq<Name> := [];
      while started != []
        invariant var (c, l) := CloseFrom(old(started), raises);
          var (c', l') := CloseFrom(started, raises); c == closed + c' && l == l'
        invariant log == old(log) + Closes(closed)
        decreases |started|
      {
        var n := started[|started| - 1];
        started := started[..|started| - 1];
        ClosesAppend(closed, n);
        closed := closed + [n];
        log := log + [Closed(n)];
        if n in raises {
          return;
        }
      }
    }
  }

  function Names(entries: seq<(Name, Spec)>): seq<Name>
  {
    seq(|entries|, i requires 0 <= i < |entries| => entries[i].0)
  }

  function SpecsOf(entries: seq<(Name, Spec)>): map<Name, Spec>
  {
    if entries == [] then map[]
    else SpecsOf(entries[..|entries| - 1])[entries[|entries| - 1].0 := entries[|entries| - 1].1]
  }

  lemma SpecsNext(entries: seq<(Name, Spec)>, i: nat)
    requires i < |entries|
    ensures SpecsOf(entries[..i + 1]) == SpecsOf(entries[..i])[entries[i].0 := entries[i].1]
    ensures Names(entries)[..i + 1] == Names(entries)[..i] + [entries[i].0]
    ensures Elements(Names(entries)[..i + 1]) == Elements(Names(entries)[..i]) + {entries[i].0}
  {
    TakeNext(entries, i);
    assert entries[..i + 1][..i] == entries[..i];
    TakeNext(Names(entries), i);
  }

  ghost predicate Orderable(specs: map<Name, Spec>) { Registered(specs) && NoRepeats(specs) && Acyclic(specs) }

  /** A manager exists exactly when names are distinct, dependencies are registered and listed once,
      and there is no dependency cycle; it starts with nothing recorded. */
  method Build(entries: seq<(Name, Spec)>) returns (r: Result<Manager, TopoError>)
    ensures r.Ok? <==> Distinct(Names(entries)) && Orderable(SpecsOf(entries))
    ensures r.Ok? ==> r.value.specs == SpecsOf(entries) && Topological(r.value.specs, r.value.order)
    ensures r.Ok? ==> r.value.started == []
    ensures r.Err? && r.error.Duplicate? <==> !Distinct(Names(entries))
  {
    var specs: map<Name, Spec> := map[];
    var names := Names(entries);
    for i := 0 to |entries|
      invariant specs == SpecsOf(entries[..i]) && specs.Keys == Elements(names[..i]) && Distinct(names[..i])
    {
      SpecsNext(entries, i);
      var (name, spec) := entries[i];
      if name in specs {
        assert name in Elements(names[..i]);
        var j :| 0 <= j < i && names[..i][j] == name;
        assert names[j] == names[i];
        return Err(Duplicate(name));
      }
      assert name !in Elements(names[..i]);
      specs := specs[name := spec];
    }
    assert entries[..|entries|] == entries && names[..|entries|] == names;
    var order := Order(specs, names);
    if order.Err? {
      return Err(order.error);
    }
    var m := new Manager(specs, order.value);
    r := Ok(m);
  }

  lemma OrderIsKnown(specs: map<Name, Spec>, order: seq<Name>)
    requires Topological(specs, order)
    ensures forall n :: n in order ==> n in specs
  {
    assert forall n :: n in order ==> n in Elements(order);
  }

  lemma StartsAppend(names: seq<Name>, n: Name)
    ensures Starts(names + [n]) == Starts(names) + [Started(n)]
  {
  }

  lemma ClosesAppend(names: seq<Name>, n: Name)
    ensures Closes(names + [n]) == Closes(names) + [Closed(n)]
  {
  }

  lemma AttemptNext(specs: map<Name, Spec>, behave: Name -> Behaviour, order: seq<Name>, i: nat)
    requires (forall n :: n in order ==> n in specs) && i < |order|
    requires !AttemptAll(specs, behave, order[..i]).failed
    ensures AttemptAll(specs, behave, order[..i + 1]) ==
      Extend(AttemptAll(specs, behave, order[..i]), order[i], specs[order[i]], behave(order[i]))
  {
    TakeNext(order, i);
    assert order[..i + 1][..i] == order[..i];
  }

  lemma {:induction false} AttemptStopped(specs: map<Name, Spec>, behave: Name -> Behaviour, order: seq<Name>, i: nat)
    requires (forall n :: n in order ==> n in specs) && i <= |order| && AttemptAll(specs, behave, order[..i]).failed
    ensures AttemptAll(specs, behave, order) == AttemptAll(specs, behave, order[..i])
  {
    if i == |order| {
      assert order[..i] == order;
    } else {
      assert order[..|order| - 1][..i] == order[..i];
      AttemptStopped(specs, behave, order[..|order| - 1], i);
    }
  }

  // ---- what an attempt guarantees ----------------------------------------------------

  predicate AbortsAt(specs: map<Name, Spec>, behave: Name -> Behaviour, n: Name)
  {
    n in specs && Aborts(specs[n], behave(n))
  }

  /** The components called that did not abort the attempt. */
  function Attended(a: Attempt): seq<Name>
  {
    if a.failed && a.called != [] then a.called[..|a.called| - 1] else a.called
  }

  /** Of these names, in order, those that report healthy. */
  function HealthyOf(behave: Name -> Behaviour, names: seq<Name>): seq<Name>
  {
    Filter((n: Name) => behave(n).Healthy?, names)
  }

  /** Of these names, in order, those that raise, are unhealthy, or are healthy but degraded. */
  function TroubledOf(behave: Name -> Behaviour, names: seq<Name>): seq<Name>
  {
    Filter((n: Name) => behave(n) != Healthy(false), names)
  }

  lemma ListsAppend(behave: Name -> Behaviour, names: seq<Name>, n: Name)
    ensures HealthyOf(behave, names + [n]) ==
      if behave(n).Healthy? then HealthyOf(behave, names) + [n] else HealthyOf(behave, names)
    ensures TroubledOf(behave, names + [n]) ==
      if behave(n) == Healthy(false) then TroubledOf(behave, names) else TroubledOf(behave, names) + [n]
  {
    assert (names + [n])[..|names|] == names;
  }

  /** An attempt calls a prefix of the order, up to and including the first component that aborts it. */
  ghost predicate CallsPrefix(specs: map<Name, Spec>, behave: Name -> Behaviour, order: seq<Name>, a: Attempt)
  {
    a.called <= order &&
    (a.failed <==> exists n :: n in order && AbortsAt(specs, behave, n)) &&
    (forall i :: 0 <= i < |a.called| ==>
      (AbortsAt(specs, behave, a.called[i]) <==> a.failed && i == |a.called| - 1)) &&
    (!a.failed ==> a.called == order) && (a.failed ==> a.called != []) &&
    (forall n :: n in a.recorded <==> n in a.called && behave(n).Healthy? && !AbortsAt(specs, behave, n))
  }

  /** Of the components called before one that aborted, the attempt records the healthy ones and lists the
      troubled ones as degraded, each in the order called. */
  predicate Lists(behave: Name -> Behaviour, a: Attempt)
  {
    a.recorded == HealthyOf(behave, Attended(a)) && a.degraded == TroubledOf(behave, Attended(a))
  }

  ghost predicate Faithful(specs: map<Name, Spec>, behave: Name -> Behaviour, order: seq<Name>, a: Attempt)
  {
    CallsPrefix(specs, behave, order, a) && Lists(behave, a)
  }

  lemma {:induction false} AttemptIsFaithful(specs: map<Name, Spec>, behave: Name -> Behaviour, order: seq<Name>)
    requires forall n :: n in order ==> n in specs
    ensures Faithful(specs, behave, order, AttemptAll(specs, behave, order))
  {
    if order != [] {
      var last := |order| - 1;
      var a := AttemptAll(specs, behave, order[..last]);
      AttemptIsFaithful(specs, behave, order[..last]);
      assert order == order[..last] + [order[last]];
      PrefixNext(specs, behave, order[..last], order[last], a);
      ListsNext(behave, a, order[last], specs[order[last]]);
    }
  }

  lemma PrefixNext(specs: map<Name, Spec>, behave: Name -> Behaviour, order: seq<Name>, n: Name, a: Attempt)
    requires n in specs && CallsPrefix(specs, behave, order, a)
    ensures CallsPrefix(specs, behave, order + [n], if a.failed then a else Extend(a, n, specs[n], behave(n)))
  {
    assert n in order + [n];
    assert forall m :: m in order ==> m in order + [n];
  }

  lemma ListsNext(behave: Name -> Behaviour, a: Attempt, n: Name, spec: Spec)
    requires Lists(behave, a)
    ensures Lists(behave, if a.failed then a else Extend(a, n, spec, behave(n)))
  {
    ListsAppend(behave, a.called, n);
    assert (a.called + [n])[..|a.called|] == a.called;
  }

  /** A start fails if and only if some component is cancelled, or is required and does not come up healthy. */
  lemma StartFailsExactly(specs: map<Name, Spec>, behave: Name -> Behaviour, order: seq<Name>)
    requires forall n :: n in order ==> n in specs
    ensures AttemptAll(specs, behave, order).failed <==>
      exists n :: n in order && (behave(n).Cancelled? || (specs[n].required && !behave(n).Healthy?))
  {
    AttemptIsFaithful(specs, behave, order);
    if n :| n in order && AbortsAt(specs, behave, n) {
      assert n in order && (behave(n).Cancelled? || (specs[n].required && !behave(n).Healthy?));
    }
    if n :| n in order && (behave(n).Cancelled? || (specs[n].required && !behave(n).Healthy?)) {
      assert AbortsAt(specs, behave, n);
    }
  }

  /** On success everything was called; started and degraded list, in start order and each once, exactly the
      healthy components, and those that raised, were unhealthy, or were healthy but degraded. */
  lemma ReadinessExactly(specs: map<Name, Spec>, behave: Name -> Behaviour, order: seq<Name>)
    requires Topological(specs, order) && (forall n :: n in order ==> n in specs)
    requires !AttemptAll(specs, behave, order).failed
    ensures var a := AttemptAll(specs, behave, order);
      a.called == order &&
      a.recorded == HealthyOf(behave, order) && a.degraded == TroubledOf(behave, order) &&
      Distinct(a.recorded) && Distinct(a.degraded) &&
      (forall n :: n in a.recorded <==> n in order && behave(n).Healthy?) &&
      (forall n :: n in a.degraded <==> n in order && !(behave(n).Healthy? && !behave(n).degraded))
  {
    AttemptIsFaithful(specs, behave, order);
    FilterDistinct((n: Name) => behave(n).Healthy?, order);
    FilterDistinct((n: Name) => behave(n) != Healthy(false), order);
    FilterMembers((n: Name) => behave(n).Healthy?, order);
    FilterMembers((n: Name) => behave(n) != Healthy(false), order);
  }

  /** A component is started only when everything it depends on has been started before it, and every
      required dependency came up healthy. */
  lemma StartedAfterDependencies(specs: map<Name, Spec>, behave: Name -> Behaviour, order: seq<Name>, i: nat, dep: Name)
    requires Topological(specs, order) && forall n :: n in order ==> n in specs
    requires i < |AttemptAll(specs, behave, order).called|
    requires dep in Deps(specs, AttemptAll(specs, behave, order).called[i])
    ensures dep in AttemptAll(specs, behave, order).called[..i]
    ensures specs[dep].required ==> behave(dep).Healthy? && dep in AttemptAll(specs, behave, order).recorded
  {
    var a := AttemptAll(specs, behave, order);
    AttemptIsFaithful(specs, behave, order);
    assert a.called[i] == order[i];
    assert dep in Elements(order[..i]);
    var j :| 0 <= j < i && order[..i][j] == dep;
    assert a.called[j] == dep && !AbortsAt(specs, behave, a.called[j]);
    assert a.called[..i][j] == dep;
  }

  // ---- closing -----------------------------------------------------------------------

  /** Closing goes backwards through the started list and stops only after a close that raised. */
  lemma {:induction false} ClosesBackwards(started: seq<Name>, raises: set<Name>)
    ensures var (closed, left) := CloseFrom(started, raises);
      closed + Reverse(left) == Reverse(started) &&
      (left != [] ==> closed != [] && closed[|closed| - 1] in raises) &&
      forall i :: 0 <= i < |closed| - 1 ==> closed[i] !in raises
  {
    if started != [] {
      var n, rest := started[|started| - 1], started[..|started| - 1];
      ClosesBackwards(rest, raises);
      assert Reverse(started) == [n] + Reverse(rest);
      var (closed, left) := CloseFrom(started, raises);
      assert closed == [n] + closed[1..];
    }
  }

  /** When no close raises, everything recorded is closed once, in reverse order, and nothing stays. */
  lemma CloseLeavesNothing(started: seq<Name>)
    ensures CloseFrom(started, {}) == (Reverse(started), [])
  {
    ClosesBackwards(started, {});
    var (closed, left) := CloseFrom(started, {});
    assert left == [] && closed + Reverse(left) == closed;
  }

  /** `r` lists components of `full` in the order of `full`, all before place `limit`. */
  ghost predicate Ascending(full: seq<Name>, r: seq<Name>, limit: nat)
  {
    (forall i :: 0 <= i < |r| ==> r[i] in full && Position(full, r[i]) < limit) &&
    forall i, j :: 0 <= i < j < |r| ==> r[i] in full && r[j] in full && Position(full, r[i]) < Position(full, r[j])
  }

  lemma AscendingNext(full: seq<Name>, r: seq<Name>, limit: nat)
    requires Distinct(full) && limit < |full| && Ascending(full, r, limit)
    ensures Ascending(full, r, limit + 1) && Ascending(full, r + [full[limit]], limit + 1)
  {
    assert full[limit] in full;
    assert full[Position(full, full[limit])] == full[limit];
    assert Position(full, full[limit]) == limit;
  }

  lemma {:induction false} RecordedInOrder(specs: map<Name, Spec>, behave: Name -> Behaviour, order: seq<Name>,
                                           full: seq<Name>)
    requires order <= full && Distinct(full) && forall n :: n in order ==> n in specs
    ensures Ascending(full, AttemptAll(specs, behave, order).recorded, |order|)
  {
    if order != [] {
      var last := |order| - 1;
      RecordedInOrder(specs, behave, order[..last], full);
      assert full[last] == order[last];
      AscendingNext(full, AttemptAll(specs, behave, order[..last]).recorded, last);
    }
  }

  /** A rollback from an empty manager closes, once and in reverse order, exactly the components that
      were started and reported healthy: one that started but was unhealthy is never closed. */
  lemma {:induction false} RollbackIsComplete(specs: map<Name, Spec>, behave: Name -> Behaviour, order: seq<Name>)
    requires Topological(specs, order) && forall n :: n in order ==> n in specs
    ensures var r := AttemptAll(specs, behave, order).recorded;
      CloseFrom(r, {}) == (Reverse(r), []) && Distinct(Reverse(r)) &&
      forall n :: n in Reverse(r) <==> n in AttemptAll(specs, behave, order).called && behave(n).Healthy?
  {
    RecordedInOrder(specs, behave, order, order);
    AttemptIsFaithful(specs, behave, order);
    ReverseMembers(AttemptAll(specs, behave, order).recorded);
    CloseLeavesNothing(AttemptAll(specs, behave, order).recorded);
  }

  /** A required component that started and reported itself unhealthy fails the start and is not closed. */
  lemma UnhealthyStaysOpen() returns (specs: map<Name, Spec>, order: seq<Name>, behave: Name -> Behaviour)
    ensures Topological(specs, order) && AttemptAll(specs, behave, order).failed
    ensures "a" in AttemptAll(specs, behave, order).called
    ensures "a" !in CloseFrom(AttemptAll(specs, behave, order).recorded, {}).0
  {
    specs, order, behave := map["a" := Spec(true, [])], ["a"], (n: Name) => Unhealthy;
    assert order[..0] == [];
    assert Deps(specs, "a") == {};
  }

  /** No component is closed before a recorded one that depends on it, directly or through others. */
  lemma ClosedAfterDependents(specs: map<Name, Spec>, behave: Name -> Behaviour, order: seq<Name>, i: nat, j: nat,
                              path: seq<Name>)
    requires Topological(specs, order) && forall n :: n in order ==> n in specs
    requires i < j < |AttemptAll(specs, behave, order).recorded|
    requires DependencyPath(specs, path) && |path| >= 2
    ensures var closed := Reverse(AttemptAll(specs, behave, order).recorded);
      !(path[0] == closed[j] && path[|path| - 1] == closed[i])
  {
    var r := AttemptAll(specs, behave, order).recorded;
    RecordedInOrder(specs, behave, order, order);
    if path[0] == Reverse(r)[j] {
      PathDescends(specs, order, path);
      assert Position(order, r[|r| - 1 - j]) < Position(order, r[|r| - 1 - i]);
    }
  }
}
