/** Dependency order of lifecycle components: Kahn's algorithm with a sorted tie-break. */
module TopoOrder {
  import opened Common

  type Name = string

  datatype Spec = Spec(required: bool, dependsOn: seq<Name>)

  datatype TopoError = Duplicate(name: Name) | Unregistered(name: Name, dep: Name) | Cyclic

  function Deps(specs: map<Name, Spec>, n: Name): set<Name>
  {
    if n in specs then Elements(specs[n].dependsOn) else {}
  }

  // ---- what the order is for ---------------------------------------------------------

  ghost predicate Registered(specs: map<Name, Spec>)
  {
    forall n :: n in specs ==> Deps(specs, n) <= specs.Keys
  }

  ghost predicate NoRepeats(specs: map<Name, Spec>)
  {
    forall n :: n in specs ==> Distinct(specs[n].dependsOn)
  }

  /** Each element of the path depends directly on the next one. */
  ghost predicate DependencyPath(specs: map<Name, Spec>, path: seq<Name>)
  {
    path != [] && forall i :: 0 <= i < |path| - 1 ==> path[i + 1] in Deps(specs, path[i])
  }

  ghost predicate Cycle(specs: map<Name, Spec>, path: seq<Name>)
  {
    DependencyPath(specs, path) && path[0] in Deps(specs, path[|path| - 1])
  }

  ghost predicate Acyclic(specs: map<Name, Spec>) { forall path :: !Cycle(specs, path) }

  /** Every component once, each after everything it depends on. */
  ghost predicate Topological(specs: map<Name, Spec>, order: seq<Name>)
  {
    Distinct(order) && Elements(order) == specs.Keys &&
    forall i :: 0 <= i < |order| ==> Deps(specs, order[i]) <= Elements(order[..i])
  }

  /** `a` is `b`, or smaller at the first place they differ. */
  ghost predicate LexLeq(a: seq<Name>, b: seq<Name>)
  {
    a == b || exists i :: 0 <= i < |a| && i < |b| && a[..i] == b[..i] && Before(a[i], b[i])
  }

  // ---- the greedy rule ---------------------------------------------------------------

  /** Components not placed whose dependencies all are. A dependency listed twice is never released. */
  function ReadySet(specs: map<Name, Spec>, placed: seq<Name>): set<Name>
  {
    set n | n in specs && n !in placed && Releasable(specs, placed, n)
  }

  predicate Releasable(specs: map<Name, Spec>, placed: seq<Name>, n: Name)
    requires n in specs
  {
    |Deps(specs, n)| == |specs[n].dependsOn| && Deps(specs, n) <= Elements(placed)
  }

  predicate SmallestReady(specs: map<Name, Spec>, placed: seq<Name>, n: Name)
  {
    n in ReadySet(specs, placed) && forall m :: m in ReadySet(specs, placed) ==> m == n || Before(n, m)
  }

  /** Every element was the smallest ready one when it was placed. */
  ghost predicate Greedy(specs: map<Name, Spec>, order: seq<Name>)
  {
    forall i :: 0 <= i < |order| ==> SmallestReady(specs, order[..i], order[i])
  }

  // ---- paths go down the order -------------------------------------------------------

  function Position(order: seq<Name>, n: Name): (i: nat)
    requires n in order
    ensures i < |order| && order[i] == n
  {
    if order[0] == n then 0 else 1 + Position(order[1..], n)
  }

  lemma DependencyBefore(specs: map<Name, Spec>, order: seq<Name>, n: Name, dep: Name)
    requires Topological(specs, order) && dep in Deps(specs, n)
    ensures n in order && dep in order && Position(order, dep) < Position(order, n)
  {
    assert n in Elements(order);
    var i := Position(order, n);
    assert dep in Elements(order[..i]);
    var j :| 0 <= j < i && order[..i][j] == dep;
    assert order[j] == dep;
  }

  lemma {:induction false} PathDescends(specs: map<Name, Spec>, order: seq<Name>, path: seq<Name>)
    requires Topological(specs, order) && DependencyPath(specs, path) && path[0] in order
    ensures path[|path| - 1] in order && Position(order, path[|path| - 1]) <= Position(order, path[0]) - (|path| - 1)
  {
    if |path| > 1 {
      var last := |path| - 1;
      PathDescends(specs, order, path[..last]);
      assert path[..last][last - 1] == path[last - 1];
      DependencyBefore(specs, order, path[last - 1], path[last]);
    }
  }

  lemma TopologicalIsAcyclic(specs: map<Name, Spec>, order: seq<Name>)
    requires Topological(specs, order)
    ensures Acyclic(specs)
  {
    forall path
      ensures !Cycle(specs, path)
    {
      if Cycle(specs, path) {
        DependencyBefore(specs, order, path[|path| - 1], path[0]);
        PathDescends(specs, order, path);
      }
    }
  }

  // ---- a stuck state contains a cycle ------------------------------------------------

  lemma PathClosed(specs: map<Name, Spec>, path: seq<Name>, i: nat)
    requires DependencyPath(specs, path) && i < |path| && path[i] in Deps(specs, path[|path| - 1])
    ensures Cycle(specs, path[i..])
  {
    var cycle := path[i..];
    forall j | 0 <= j < |cycle| - 1
      ensures cycle[j + 1] in Deps(specs, cycle[j])
    {
      assert path[i + j + 1] in Deps(specs, path[i + j]);
    }
  }

  lemma PathGrows(specs: map<Name, Spec>, path: seq<Name>, dep: Name)
    requires DependencyPath(specs, path) && dep in Deps(specs, path[|path| - 1])
    ensures DependencyPath(specs, path + [dep]) && Elements(path + [dep]) == Elements(path) + {dep}
  {
  }

  /** Extend a path inside `stuck` until it meets itself. */
  lemma {:induction false} FindCycle(specs: map<Name, Spec>, stuck: set<Name>, path: seq<Name>)
    returns (cycle: seq<Name>)
    requires forall n :: n in stuck ==> Deps(specs, n) * stuck != {}
    requires DependencyPath(specs, path) && Elements(path) <= stuck
    ensures Cycle(specs, cycle)
    decreases |stuck - Elements(path)|
  {
    var tip := path[|path| - 1];
    assert tip in Elements(path);
    var dep :| dep in Deps(specs, tip) * stuck;
    if dep in path {
      var i :| 0 <= i < |path| && path[i] == dep;
      PathClosed(specs, path, i);
      cycle := path[i..];
    } else {
      PathGrows(specs, path, dep);
      assert dep in stuck - Elements(path) && dep !in stuck - Elements(path + [dep]);
      ProperSubsetSize(stuck - Elements(path + [dep]), stuck - Elements(path));
      cycle := FindCycle(specs, stuck, path + [dep]);
    }
  }

  /** `|Elements(s)|` equals `|s|` exactly when nothing repeats. */
  lemma {:induction false} ElementsSize<T>(s: seq<T>)
    ensures |Elements(s)| <= |s|
    ensures |Elements(s)| == |s| <==> Distinct(s)
  {
    if s != [] {
      var init, x := s[..|s| - 1], s[|s| - 1];
      ElementsSize(init);
      assert s == init + [x];
      assert Elements(s) == Elements(init) + {x};
      if x in init {
        var i :| 0 <= i < |init| && init[i] == x;
        assert s[i] == s[|s| - 1];
        assert Elements(s) == Elements(init);
      } else {
        assert Distinct(s) <==> Distinct(init);
      }
    }
  }

  /** With nothing ready and something unplaced, an acyclic graph must repeat a dependency. */
  lemma StuckHasCycle(specs: map<Name, Spec>, order: seq<Name>)
    requires Registered(specs) && NoRepeats(specs)
    requires ReadySet(specs, order) == {} && Elements(order) < specs.Keys
    ensures !Acyclic(specs)
  {
    var stuck := specs.Keys - Elements(order);
    forall n | n in stuck
      ensures Deps(specs, n) * stuck != {}
    {
      ElementsSize(specs[n].dependsOn);
      assert n !in ReadySet(specs, order);
      var dep :| dep in Deps(specs, n) && dep !in Elements(order);
      assert dep in Deps(specs, n) * stuck;
    }
    var start :| start in stuck;
    var cycle := FindCycle(specs, stuck, [start]);
  }

  // ---- a complete greedy order -------------------------------------------------------

  lemma GreedyIsDistinct(specs: map<Name, Spec>, order: seq<Name>)
    requires Greedy(specs, order)
    ensures Distinct(order)
  {
    forall i, j | 0 <= i < j < |order|
      ensures order[i] != order[j]
    {
      assert SmallestReady(specs, order[..j], order[j]);
      assert order[..j][i] == order[i];
    }
  }

  lemma GreedyIsTopological(specs: map<Name, Spec>, order: seq<Name>)
    requires Greedy(specs, order) && Elements(order) == specs.Keys
    ensures Topological(specs, order) && NoRepeats(specs)
  {
    GreedyIsDistinct(specs, order);
    forall i | 0 <= i < |order|
      ensures Deps(specs, order[i]) <= Elements(order[..i])
    {
      assert SmallestReady(specs, order[..i], order[i]);
    }
    forall n | n in specs
      ensures Distinct(specs[n].dependsOn)
    {
      assert n in Elements(order);
      var i :| 0 <= i < |order| && order[i] == n;
      assert SmallestReady(specs, order[..i], order[i]);
      ElementsSize(specs[n].dependsOn);
    }
  }

  /** Any topological order continues a prefix with a ready component. */
  lemma NextIsReady(specs: map<Name, Spec>, other: seq<Name>, i: nat)
    requires Topological(specs, other) && NoRepeats(specs) && i < |other|
    ensures other[i] in ReadySet(specs, other[..i])
  {
    assert other[i] in Elements(other);
    ElementsSize(specs[other[i]].dependsOn);
  }

  /** From a common prefix of length `i` on, the greedy order is never larger. */
  lemma {:induction false} GreedyIsLeast(specs: map<Name, Spec>, order: seq<Name>, other: seq<Name>, i: nat)
    requires Greedy(specs, order) && Topological(specs, other) && NoRepeats(specs) && |order| == |other|
    requires i <= |order| && order[..i] == other[..i]
    ensures LexLeq(order, other)
    decreases |order| - i
  {
    if i == |order| {
      assert order == order[..i] && other == other[..i];
    } else if order[i] == other[i] {
      TakeNext(order, i);
      TakeNext(other, i);
      GreedyIsLeast(specs, order, other, i + 1);
    } else {
      NextIsReady(specs, other, i);
      assert SmallestReady(specs, order[..i], order[i]);
    }
  }

  /** A complete greedy order is the least topological order. */
  lemma GreedyIsLeastTopological(specs: map<Name, Spec>, order: seq<Name>)
    requires Greedy(specs, order) && Elements(order) == specs.Keys
    ensures Topological(specs, order)
    ensures forall other :: Topological(specs, other) ==> LexLeq(order, other)
  {
    GreedyIsTopological(specs, order);
    forall other | Topological(specs, other)
      ensures LexLeq(order, other)
    {
      DistinctCardinality(order);
      DistinctCardinality(other);
      GreedyIsLeast(specs, order, other, 0);
    }
  }

  // ---- the algorithm -----------------------------------------------------------------

  ghost predicate Sorted(s: seq<Name>)
  {
    forall i, j :: 0 <= i < j < |s| ==> Before(s[i], s[j])
  }

  function Insert(x: Name, s: seq<Name>): seq<Name>
  {
    if s == [] then [x] else if Before(x, s[0]) then [x] + s else [s[0]] + Insert(x, s[1..])
  }

  function Sort(s: seq<Name>): seq<Name>
  {
    if s == [] then [] else Insert(s[0], Sort(s[1..]))
  }

  lemma {:induction false} InsertSorts(x: Name, s: seq<Name>)
    requires Sorted(s) && x !in s
    ensures Sorted(Insert(x, s)) && Elements(Insert(x, s)) == Elements(s) + {x}
  {
    if s != [] {
      BeforeTotal(x, s[0]);
      assert s == [s[0]] + s[1..];
      if Before(x, s[0]) {
        forall j | 0 < j < |s|
          ensures Before(x, s[j])
        {
          BeforeTransitive(x, s[0], s[j]);
        }
      } else {
        InsertSorts(x, s[1..]);
        var r := Insert(x, s[1..]);
        forall j | 0 <= j < |r|
          ensures Before(s[0], r[j])
        {
          assert r[j] in Elements(r);
        }
      }
    }
  }

  lemma {:induction false} SortSorts(s: seq<Name>)
    requires Distinct(s)
    ensures Sorted(Sort(s)) && Elements(Sort(s)) == Elements(s)
  {
    if s != [] {
      assert s == [s[0]] + s[1..];
      SortSorts(s[1..]);
      assert s[0] !in Elements(Sort(s[1..]));
      InsertSorts(s[0], Sort(s[1..]));
    }
  }

  /** The in-degree still open: every listed dependency counts, every placed one is taken off once. */
  function OpenDegree(specs: map<Name, Spec>, placed: seq<Name>, n: Name): int
    requires n in specs
  {
    |specs[n].dependsOn| - |Deps(specs, n) * Elements(placed)|
  }

  lemma OpenDegreeZero(specs: map<Name, Spec>, placed: seq<Name>, n: Name)
    requires n in specs
    ensures OpenDegree(specs, placed, n) == 0 <==> Releasable(specs, placed, n)
  {
    var deps, done := Deps(specs, n), Deps(specs, n) * Elements(placed);
    ElementsSize(specs[n].dependsOn);
    SubsetSize(done, deps);
    if done < deps {
      ProperSubsetSize(done, deps);
    } else {
      assert done == deps;
    }
  }

  lemma OpenDegreePlaced(specs: map<Name, Spec>, placed: seq<Name>, x: Name, n: Name)
    requires n in specs && x !in placed
    ensures OpenDegree(specs, placed + [x], n) == OpenDegree(specs, placed, n) - (if x in Deps(specs, n) then 1 else 0)
  {
    var done := Deps(specs, n) * Elements(placed);
    assert Elements(placed + [x]) == Elements(placed) + {x};
    if x in Deps(specs, n) {
      assert Deps(specs, n) * Elements(placed + [x]) == done + {x};
    } else {
      assert Deps(specs, n) * Elements(placed + [x]) == done;
    }
  }

  /** What becomes ready when the smallest ready component is placed. */
  lemma ReadyAfter(specs: map<Name, Spec>, placed: seq<Name>, x: Name, n: Name)
    requires x in ReadySet(specs, placed)
    ensures n in ReadySet(specs, placed + [x]) <==>
      (n in ReadySet(specs, placed) && n != x) ||
      (n in specs && x in Deps(specs, n) && Releasable(specs, placed + [x], n) && n !in placed && n != x)
  {
    assert Elements(placed + [x]) == Elements(placed) + {x};
  }

  ghost predicate DegreesFor(specs: map<Name, Spec>, placed: seq<Name>, indeg: map<Name, int>)
  {
    indeg.Keys == specs.Keys && forall n :: n in specs ==> indeg[n] == OpenDegree(specs, placed, n)
  }

  /** A dependent of an unplaced component is neither placed nor ready. */
  lemma NotYetReady(specs: map<Name, Spec>, placed: seq<Name>, x: Name, n: Name)
    requires Greedy(specs, placed) && x in ReadySet(specs, placed)
    ensures x in Deps(specs, n) ==> n !in placed && n !in ReadySet(specs, placed) && n != x
  {
    if n in placed {
      var i :| 0 <= i < |placed| && placed[i] == n;
      assert SmallestReady(specs, placed[..i], placed[i]);
      assert Elements(placed[..i]) <= Elements(placed);
    }
  }

  /** Placing `x` releases `n`. */
  predicate Frees(specs: map<Name, Spec>, placed: seq<Name>, x: Name, n: Name)
  {
    n in specs && x in Deps(specs, n) && Releasable(specs, placed + [x], n)
  }

  /** The degrees with the dependents among `done` already handled. */
  ghost predicate DegreesHalf(specs: map<Name, Spec>, placed: seq<Name>, x: Name, done: seq<Name>,
                              indeg: map<Name, int>)
  {
    indeg.Keys == specs.Keys &&
    forall n :: n in specs ==> indeg[n] == OpenDegree(specs, if n in done then placed + [x] else placed, n)
  }

  /** The ready list with the dependents among `done` already handled. */
  ghost predicate ReadyHalf(specs: map<Name, Spec>, placed: seq<Name>, x: Name, done: seq<Name>, ready: seq<Name>)
  {
    Distinct(ready) &&
    forall n :: n in ready <==> (n in ReadySet(specs, placed) && n != x) || (n in done && Frees(specs, placed, x, n))
  }

  ghost predicate HalfWay(specs: map<Name, Spec>, placed: seq<Name>, x: Name, done: seq<Name>,
                          indeg: map<Name, int>, ready: seq<Name>)
  {
    DegreesHalf(specs, placed, x, done, indeg) && ReadyHalf(specs, placed, x, done, ready)
  }

  lemma DegreesHalfStep(specs: map<Name, Spec>, placed: seq<Name>, x: Name, done: seq<Name>, other: Name,
                        indeg: map<Name, int>)
    requires x !in placed && other in specs && other !in done && DegreesHalf(specs, placed, x, done, indeg)
    ensures DegreesHalf(specs, placed, x, done + [other],
      if x in Deps(specs, other) then indeg[other := indeg[other] - 1] else indeg)
  {
    OpenDegreePlaced(specs, placed, x, other);
    assert forall n :: n in done + [other] <==> n in done || n == other;
  }

  lemma ReadyHalfStep(specs: map<Name, Spec>, placed: seq<Name>, x: Name, done: seq<Name>, other: Name,
                      ready: seq<Name>)
    requires Greedy(specs, placed) && x in ReadySet(specs, placed) && other !in done
    requires ReadyHalf(specs, placed, x, done, ready)
    ensures ReadyHalf(specs, placed, x, done + [other],
      if Frees(specs, placed, x, other) then ready + [other] else ready)
  {
    NotYetReady(specs, placed, x, other);
    var ready' := if Frees(specs, placed, x, other) then ready + [other] else ready;
    assert other !in ready || !Frees(specs, placed, x, other);
    assert Distinct(ready');
    forall n
      ensures n in ready' <==>
        (n in ReadySet(specs, placed) && n != x) || (n in done + [other] && Frees(specs, placed, x, n))
    {
      assert n in done + [other] <==> n in done || n == other;
    }
  }

  lemma FreesAtZero(specs: map<Name, Spec>, placed: seq<Name>, x: Name, done: seq<Name>, other: Name,
                    indeg: map<Name, int>)
    requires x !in placed && other in specs && other !in done && DegreesHalf(specs, placed, x, done, indeg)
    ensures Frees(specs, placed, x, other) <==> x in Deps(specs, other) && indeg[other] - 1 == 0
  {
    OpenDegreePlaced(specs, placed, x, other);
    OpenDegreeZero(specs, placed + [x], other);
  }

  lemma HalfWayEnd(specs: map<Name, Spec>, placed: seq<Name>, x: Name, names: seq<Name>,
                   indeg: map<Name, int>, ready: seq<Name>)
    requires Greedy(specs, placed) && x in ReadySet(specs, placed) && Elements(names) == specs.Keys
    requires HalfWay(specs, placed, x, names, indeg, ready)
    ensures DegreesFor(specs, placed + [x], indeg) && Elements(ready) == ReadySet(specs, placed + [x])
  {
    assert forall n :: n in specs ==> n in Elements(names);
    forall n
      ensures n in ready <==> n in ReadySet(specs, placed + [x])
    {
      ReadyAfter(specs, placed, x, n);
      NotYetReady(specs, placed, x, n);
    }
  }

  /** Handle one component that may depend on the placed `x`. */
  method ReleaseOne(specs: map<Name, Spec>, ghost placed: seq<Name>, x: Name, ghost done: seq<Name>, other: Name,
                    indeg: map<Name, int>, ready: seq<Name>)
    returns (indeg': map<Name, int>, ready': seq<Name>)
    requires Greedy(specs, placed) && x in ReadySet(specs, placed) && other in specs && other !in done
    requires HalfWay(specs, placed, x, done, indeg, ready)
    ensures HalfWay(specs, placed, x, done + [other], indeg', ready')
  {
    indeg', ready' := indeg, ready;
    DegreesHalfStep(specs, placed, x, done, other, indeg);
    ReadyHalfStep(specs, placed, x, done, other, ready);
    FreesAtZero(specs, placed, x, done, other, indeg);
    if x in specs[other].dependsOn {
      indeg' := indeg[other := indeg[other] - 1];
      if indeg'[other] == 0 {
        ready' := ready + [other];
      }
    }
  }

  /** Take a placed component off the degrees of its dependents and collect those that reach zero. */
  method Release(specs: map<Name, Spec>, names: seq<Name>, ghost placed: seq<Name>, x: Name,
                 indeg: map<Name, int>, ready: seq<Name>)
    returns (indeg': map<Name, int>, ready': seq<Name>)
    requires Elements(names) == specs.Keys && Distinct(names) && Greedy(specs, placed)
    requires DegreesFor(specs, placed, indeg) && x in ReadySet(specs, placed)
    requires Distinct(ready) && Elements(ready) == ReadySet(specs, placed) - {x}
    ensures DegreesFor(specs, placed + [x], indeg')
    ensures Distinct(ready') && Elements(ready') == ReadySet(specs, placed + [x])
  {
    indeg', ready' := indeg, ready;
    HalfWayStart(specs, placed, x, indeg, ready);
    for i := 0 to |names|
      invariant HalfWay(specs, placed, x, names[..i], indeg', ready')
    {
      NextName(specs, names, i);
      TakeNext(names, i);
      indeg', ready' := ReleaseOne(specs, placed, x, names[..i], names[i], indeg', ready');
    }
    assert names[..|names|] == names;
    HalfWayEnd(specs, placed, x, names, indeg', ready');
  }

  lemma NextName(specs: map<Name, Spec>, names: seq<Name>, i: nat)
    requires Elements(names) == specs.Keys && Distinct(names) && i < |names|
    ensures names[i] in specs && names[i] !in names[..i]
  {
    assert names[i] in Elements(names);
  }

  lemma HalfWayStart(specs: map<Name, Spec>, placed: seq<Name>, x: Name, indeg: map<Name, int>, ready: seq<Name>)
    requires DegreesFor(specs, placed, indeg)
    requires Distinct(ready) && Elements(ready) == ReadySet(specs, placed) - {x}
    ensures HalfWay(specs, placed, x, [], indeg, ready)
  {
    assert forall n :: n in ready <==> n in Elements(ready);
  }

  /** Count every listed dependency, or report the first that is not registered. */
  method CountDependencies(specs: map<Name, Spec>, names: seq<Name>) returns (r: Result<map<Name, int>, TopoError>)
    requires Elements(names) == specs.Keys && Distinct(names)
    ensures r.Ok? <==> Registered(specs)
    ensures r.Ok? ==> DegreesFor(specs, [], r.value)
    ensures r.Err? ==> r.error.Unregistered? && r.error.dep in Deps(specs, r.error.name) && r.error.dep !in specs
  {
    var indeg: map<Name, int> := map n | n in specs :: 0;
    for i := 0 to |names|
      invariant indeg.Keys == specs.Keys
      invariant forall n :: n in specs ==> indeg[n] == if n in names[..i] then |specs[n].dependsOn| else 0
      invariant forall n :: n in names[..i] && n in specs ==> Deps(specs, n) <= specs.Keys
    {
      NextName(specs, names, i);
      TakeNext(names, i);
      var unknown;
      indeg, unknown := CountOne(specs, names[i], indeg);
      if unknown.Some? {
        return Err(Unregistered(names[i], unknown.value));
      }
    }
    assert names[..|names|] == names;
    assert forall n :: n in specs ==> n in Elements(names);
    assert forall n :: n in specs ==> Deps(specs, n) * Elements([]) == {};
    r := Ok(indeg);
  }

  /** Count the dependencies of one component, up to the first that is not registered. */
  method CountOne(specs: map<Name, Spec>, n: Name, indeg: map<Name, int>)
    returns (indeg': map<Name, int>, unknown: Option<Name>)
    requires n in specs && indeg.Keys == specs.Keys && indeg[n] == 0
    ensures unknown.None? <==> Deps(specs, n) <= specs.Keys
    ensures unknown.Some? ==> unknown.value in Deps(specs, n) && unknown.value !in specs
    ensures unknown.None? ==> indeg' == indeg[n := |specs[n].dependsOn|]
  {
    var deps := specs[n].dependsOn;
    indeg' := indeg;
    for j := 0 to |deps|
      invariant indeg' == indeg[n := j]
      invariant forall k :: 0 <= k < j ==> deps[k] in specs
    {
      if deps[j] !in specs {
        assert deps[j] in Deps(specs, n);
        return indeg', Some(deps[j]);
      }
      indeg' := indeg'[n := indeg'[n] + 1];
    }
    return indeg', None;
  }

  lemma PlacedIsRegistered(specs: map<Name, Spec>, order: seq<Name>)
    requires Greedy(specs, order)
    ensures Elements(order) <= specs.Keys && |order| <= |specs|
    ensures |order| == |specs| ==> Elements(order) == specs.Keys
    ensures |order| < |specs| ==> Elements(order) < specs.Keys
  {
    forall n | n in Elements(order)
      ensures n in specs
    {
      var i :| 0 <= i < |order| && order[i] == n;
      assert SmallestReady(specs, order[..i], order[i]);
    }
    GreedyIsDistinct(specs, order);
    DistinctCardinality(order);
    SubsetSize(Elements(order), specs.Keys);
    assert |specs.Keys| == |specs|;
    if Elements(order) < specs.Keys {
      ProperSubsetSize(Elements(order), specs.Keys);
    } else {
      assert Elements(order) == specs.Keys;
    }
  }

  /** The order exists exactly when every dependency is registered, none is listed twice, and the
      dependencies have no cycle; it is then the least topological order of all components. */
  method Order(specs: map<Name, Spec>, names: seq<Name>) returns (r: Result<seq<Name>, TopoError>)
    requires Elements(names) == specs.Keys && Distinct(names)
    ensures r.Ok? <==> Registered(specs) && NoRepeats(specs) && Acyclic(specs)
    ensures r.Ok? ==> Topological(specs, r.value)
    ensures r.Ok? ==> forall other :: Topological(specs, other) ==> LexLeq(r.value, other)
    ensures r.Err? ==> if Registered(specs) then r.error == Cyclic
                       else r.error.Unregistered? && r.error.dep in Deps(specs, r.error.name) && r.error.dep !in specs
  {
    var counted := CountDependencies(specs, names);
    if counted.Err? {
      return Err(counted.error);
    }
    var indeg := counted.value;
    var zero := Filter((n: Name) => n in indeg && indeg[n] == 0, names);
    InitiallyReady(specs, names, indeg);
    var ready := Sort(zero);
    SortSorts(zero);
    var order: seq<Name> := [];
    var sorted := Sort(names);
    SortSorts(names);
    SortedIsDistinct(sorted);
    while ready != []
      invariant Greedy(specs, order) && DegreesFor(specs, order, indeg)
      invariant Sorted(ready) && Elements(ready) == ReadySet(specs, order)
      decreases |specs| - |order|
    {
      var name := ready[0];
      SortedIsDistinct(ready);
      HeadIsSmallest(specs, order, ready);
      GreedyGrows(specs, order, name);
      PlacedIsRegistered(specs, order + [name]);
      var rest: seq<Name>;
      indeg, rest := Release(specs, sorted, order, name, indeg, ready[1..]);
      ready := Sort(rest);
      SortSorts(rest);
      order := order + [name];
    }
    PlacedIsRegistered(specs, order);
    if |order| != |specs| {
      if NoRepeats(specs) {
        StuckHasCycle(specs, order);
      }
      return Err(Cyclic);
    }
    GreedyIsLeastTopological(specs, order);
    GreedyIsTopological(specs, order);
    TopologicalIsAcyclic(specs, order);
    r := Ok(order);
  }

  /** A component that lists its one dependency twice has no order, though there is no cycle. */
  lemma RepeatIsNoCycle() returns (specs: map<Name, Spec>)
    ensures Registered(specs) && Acyclic(specs) && !NoRepeats(specs)
  {
    var deps: seq<Name> := ["b", "b"];
    specs := map["a" := Spec(true, deps), "b" := Spec(true, [])];
    var order: seq<Name> := ["b", "a"];
    assert deps[0] == deps[1] == "b" && order[0] == "b" && order[1] == "a";
    assert Deps(specs, "a") == {"b"} && Deps(specs, "b") == {};
    assert order[..1] == ["b"] && Elements(order) == {"a", "b"};
    TopologicalIsAcyclic(specs, order);
    assert specs["a"].dependsOn == deps && !Distinct(deps);
  }

  lemma SortedIsDistinct(s: seq<Name>)
    requires Sorted(s)
    ensures Distinct(s)
  {
    forall i, j | 0 <= i < j < |s|
      ensures s[i] != s[j]
    {
      BeforeTotal(s[i], s[j]);
    }
  }

  lemma HeadIsSmallest(specs: map<Name, Spec>, order: seq<Name>, ready: seq<Name>)
    requires ready != [] && Sorted(ready) && Distinct(ready) && Elements(ready) == ReadySet(specs, order)
    ensures SmallestReady(specs, order, ready[0])
    ensures Distinct(ready[1..]) && Elements(ready[1..]) == ReadySet(specs, order) - {ready[0]}
  {
    assert ready == [ready[0]] + ready[1..];
    assert ready[0] in Elements(ready);
    forall m | m in ReadySet(specs, order)
      ensures m == ready[0] || Before(ready[0], m)
    {
      assert m in Elements(ready);
      var i :| 0 <= i < |ready| && ready[i] == m;
    }
  }

  lemma GreedyGrows(specs: map<Name, Spec>, order: seq<Name>, n: Name)
    requires Greedy(specs, order) && SmallestReady(specs, order, n)
    ensures Greedy(specs, order + [n])
  {
    var longer := order + [n];
    forall i | 0 <= i < |longer|
      ensures SmallestReady(specs, longer[..i], longer[i])
    {
      if i < |order| {
        assert longer[..i] == order[..i];
      } else {
        assert longer[..i] == order;
      }
    }
  }

  lemma {:induction false} FilterDistinct(f: Name -> bool, s: seq<Name>)
    requires Distinct(s)
    ensures Distinct(Filter(f, s))
  {
    if s != [] {
      var last := |s| - 1;
      FilterDistinct(f, s[..last]);
      FilterMembers(f, s[..last]);
      assert forall i :: 0 <= i < |Filter(f, s[..last])| ==> Filter(f, s[..last])[i] in s[..last];
    }
  }

  lemma InitiallyReady(specs: map<Name, Spec>, names: seq<Name>, indeg: map<Name, int>)
    requires Elements(names) == specs.Keys && Distinct(names) && DegreesFor(specs, [], indeg)
    ensures var zero := Filter((n: Name) => n in indeg && indeg[n] == 0, names);
      Distinct(zero) && Elements(zero) == ReadySet(specs, [])
  {
    FilterDistinct((n: Name) => n in indeg && indeg[n] == 0, names);
    FilterMembers((n: Name) => n in indeg && indeg[n] == 0, names);
    forall n
      ensures n in Filter((n: Name) => n in indeg && indeg[n] == 0, names) <==> n in ReadySet(specs, [])
    {
      assert n in names <==> n in Elements(names);
      if n in specs {
        OpenDegreeZero(specs, [], n);
      }
    }
  }
}
