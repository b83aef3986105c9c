/** What the pipeline collects from a window and what it reports about each fact, field by field. */
module DistillCollect {
  import opened Common
  import opened CommonLaws
  import opened GraphStore
  import opened Distill
  import opened DistillSafety

  // ---- collecting --------------------------------------------------------------------

  /** A structured item promoted: active, touched now, and dated by its creation when it had no date;
      everything else, its id first of all, as it was. */
  predicate PromotedFrom(f: Item, source: Item, now: Time)
  {
    f.id == source.id && f.ns == source.ns && f.content == source.content &&
    f.subj == source.subj && f.pred == source.pred && f.obj == source.obj && f.polarity == source.polarity &&
    f.invalidAt == source.invalidAt && f.createdAt == source.createdAt &&
    f.accessCount == source.accessCount && f.derivedFrom == source.derivedFrom &&
    f.state == Active && f.updatedAt == now &&
    f.validAt == Some(if source.validAt.Some? then source.validAt.value else source.createdAt) &&
    f.inferred == (source.validAt.None? || source.inferred)
  }

  /** A fact extracted from `source`: its own text, triple and date, no end, a fresh record in the namespace
      distilled that traces back to the source. */
  predicate ExtractedFrom(ns: string, f: Item, fact: ExtractedFact, source: Item, now: Time)
  {
    f.ns == ns && f.content == fact.content &&
    f.subj == fact.subj && f.pred == fact.pred && f.obj == fact.obj && f.polarity == fact.polarity &&
    f.state == Active && f.validAt == Some(if fact.validAt.Some? then fact.validAt.value else now) &&
    f.invalidAt == None && f.inferred == fact.inferred && f.accessCount == 0 && f.updatedAt == f.createdAt &&
    f.derivedFrom == source.id && (source.id != "" ==> PointId(f) == source.id) &&
    (source.id == "" ==> PointId(f) == f.id)
  }

  /** What one item of the window contributes: itself when its triple is complete, or else every fact
      extracted from its text, in order, each with the next minted id. */
  lemma {:induction false} CollectedFromOne(ex: Extraction, ns: string, source: Item, minted: nat, now: Time)
    ensures var (out, minted') := CollectFacts(ex, ns, [source], minted, now);
      if source.subj != "" && source.pred != "" && source.obj != "" then
        |out| == 1 && PromotedFrom(out[0], source, now) && minted' == minted
      else
        |out| == |ex.extract(source.content, now)| && minted' == minted + |out| &&
        forall i :: 0 <= i < |out| ==>
          ExtractedFrom(ns, out[i], ex.extract(source.content, now)[i], source, now) &&
          out[i].id == ex.mint(minted + i) && out[i].createdAt == ex.created(minted + i)
  {
    assert [source][..0] == [];
    assert CollectFacts(ex, ns, [], minted, now) == ([], minted);
  }

  lemma {:induction false} CollectNext(ex: Extraction, ns: string, window: seq<Item>, item: Item, minted: nat,
                                       now: Time)
    ensures var (out, m) := CollectFacts(ex, ns, window, minted, now);
      var (one, m') := CollectFacts(ex, ns, [item], m, now);
      CollectFacts(ex, ns, window + [item], minted, now) == (out + one, m')
  {
    var (out, m) := CollectFacts(ex, ns, window, minted, now);
    assert [item][..0] == [];
    assert CollectFacts(ex, ns, [], m, now) == ([], m);
    if Structured(item) {
      assert CollectFacts(ex, ns, [item], m, now).0 == [PromoteStructured(item, now)];
    } else {
      var facts := ex.extract(item.content, now);
      assert CollectFacts(ex, ns, [item], m, now).0 == FactsToItems(ex, ns, item, facts, m, now);
    }
    assert (window + [item])[..|window|] == window && (window + [item])[|window|] == item;
  }

  /** A window is collected item after item: what a window and its continuation give, joined. */
  lemma {:induction false} CollectedInOrder(ex: Extraction, ns: string, a: seq<Item>, b: seq<Item>, minted: nat,
                                            now: Time)
    ensures var (first, m) := CollectFacts(ex, ns, a, minted, now);
      var (second, m') := CollectFacts(ex, ns, b, m, now);
      CollectFacts(ex, ns, a + b, minted, now) == (first + second, m')
  {
    var (first, m) := CollectFacts(ex, ns, a, minted, now);
    if b == [] {
      assert a + b == a && first + [] == first;
    } else {
      var prior, item := b[..|b| - 1], b[|b| - 1];
      assert b == prior + [item] && a + b == (a + prior) + [item];
      CollectedInOrder(ex, ns, a, prior, minted, now);
      var (second, m') := CollectFacts(ex, ns, prior, m, now);
      var one := CollectFacts(ex, ns, [item], m', now).0;
      CollectNext(ex, ns, a + prior, item, minted, now);
      CollectNext(ex, ns, prior, item, m, now);
      assert first + second + one == first + (second + one);
    }
  }

  ghost predicate CollectedFrom(ex: Extraction, ns: string, f: Item, source: Item, now: Time)
  {
    if Structured(source) then PromotedFrom(f, source, now)
    else exists fact :: fact in ex.extract(source.content, now) && ExtractedFrom(ns, f, fact, source, now)
  }

  /** So every collected fact comes from an item of the window, in the one way or the other. */
  lemma {:induction false} CollectedFacts(ex: Extraction, ns: string, window: seq<Item>, minted: nat, now: Time,
                                          f: Item)
    requires f in CollectFacts(ex, ns, window, minted, now).0
    ensures exists source :: source in window && CollectedFrom(ex, ns, f, source, now)
  {
    var last := |window| - 1;
    assert window == window[..last] + [window[last]];
    CollectedInOrder(ex, ns, window[..last], [window[last]], minted, now);
    var (out, m) := CollectFacts(ex, ns, window[..last], minted, now);
    if f in out {
      CollectedFacts(ex, ns, window[..last], minted, now, f);
      var source :| source in window[..last] && CollectedFrom(ex, ns, f, source, now);
      assert source in window;
    } else {
      CollectedFromOne(ex, ns, window[last], m, now);
      assert window[last] in window && CollectedFrom(ex, ns, f, window[last], now);
    }
  }

  // ---- the candidates ----------------------------------------------------------------

  /** A stored fact is listed exactly when it has the subject and predicate asked for, is active, and has no end
      or one that is still to come; the end itself is outside. */
  lemma ListedExactly(g: Graph, slot: Slot, now: Time, hits: seq<Item>, k: Key)
    requires Coherent(g) && IsConflictList(g, slot, now, hits) && k in g.nodes
    ensures g.nodes[k].blob in hits <==> (
      k.ns == slot.ns && g.nodes[k].props.subj == slot.subj && g.nodes[k].props.pred == slot.pred &&
      g.nodes[k].props.state == Active &&
      (g.nodes[k].props.invalidAt.Some? ==> now < g.nodes[k].props.invalidAt.value))
  {
    assert NodeCoherent(k, g.nodes[k]);
  }

  /** How many of the first `n` hits are not the incoming fact. */
  function OthersBefore(winner: Item, hits: seq<Item>, n: nat): nat
    requires n <= |hits|
  {
    if n == 0 then 0 else OthersBefore(winner, hits, n - 1) + if hits[n - 1].id != winner.id then 1 else 0
  }

  lemma {:induction false} OthersOfPrefix(winner: Item, init: seq<Item>, hits: seq<Item>, n: nat)
    requires init <= hits && n <= |init|
    ensures OthersBefore(winner, init, n) == OthersBefore(winner, hits, n)
  {
    if n > 0 {
      OthersOfPrefix(winner, init, hits, n - 1);
    }
  }

  lemma {:induction false} OthersCount(winner: Item, hits: seq<Item>)
    ensures |Filter((c: Item) => c.id != winner.id, hits)| == OthersBefore(winner, hits, |hits|)
  {
    if hits != [] {
      OthersCount(winner, hits[..|hits| - 1]);
      OthersOfPrefix(winner, hits[..|hits| - 1], hits, |hits| - 1);
    }
  }

  lemma {:induction false} OtherPlace(winner: Item, hits: seq<Item>, i: nat)
    requires i < |hits| && hits[i].id != winner.id
    ensures var others := Filter((c: Item) => c.id != winner.id, hits);
      OthersBefore(winner, hits, i) < |others| && others[OthersBefore(winner, hits, i)] == hits[i]
  {
    var init := hits[..|hits| - 1];
    OthersOfPrefix(winner, init, hits, i);
    if i < |init| {
      OtherPlace(winner, init, i);
    } else {
      OthersCount(winner, init);
    }
  }

  /** The incoming fact takes no place of a candidate: each other hit stands after exactly the other hits listed
      before it, as far as the setting allows. */
  lemma CandidatesExactly(cfg: Config, winner: Item, hits: seq<Item>, i: nat)
    requires i < |hits| && hits[i].id != winner.id
    ensures var candidates, others := Candidates(cfg, winner, hits), OthersBefore(winner, hits, |hits|);
      |candidates| == (if cfg.candidateK < 0 then (if others + cfg.candidateK > 0 then others + cfg.candidateK else 0)
                       else if cfg.candidateK < others then cfg.candidateK else others) &&
      (OthersBefore(winner, hits, i) < |candidates| ==> candidates[OthersBefore(winner, hits, i)] == hits[i])
  {
    OthersCount(winner, hits);
    OtherPlace(winner, hits, i);
    SliceToLength(Filter((c: Item) => c.id != winner.id, hits), cfg.candidateK);
  }

  // ---- the report --------------------------------------------------------------------

  /** The action describes `n`. */
  predicate Describes(a: Action, n: Item)
  {
    a.winner == n.id && a.subj == n.subj && a.pred == n.pred && a.obj == n.obj && a.inferred == n.inferred &&
    a.validAt == if n.validAt.Some? then n.validAt.value else n.createdAt
  }

  /** The kind reported, by the candidates: equal ones, contradicting ones, later ones, others, none. */
  lemma ReportedKind(cfg: Config, winner: Item, hits: seq<Item>)
    ensures var candidates := Candidates(cfg, winner, hits);
      var a := ActionFor(winner, Decide(cfg, winner, hits));
      (a.kind == Noop <==> SomeSame(winner, candidates)) &&
      (a.kind == Add <==> candidates == []) &&
      (a.kind == Coexist <==>
        candidates != [] && !SomeSame(winner, candidates) && !SomeContradicts(cfg, winner, candidates)) &&
      (a.kind == SelfExpire <==> !SomeSame(winner, candidates) && SomeLater(cfg, winner, candidates)) &&
      (a.kind == Supersede <==> !SomeSame(winner, candidates) && SomeContradicts(cfg, winner, candidates) &&
                                !SomeLater(cfg, winner, candidates))
  {
    DecisionKind(cfg, winner, hits);
    DecisionNames(cfg, winner, hits);
  }

  /** The first candidate of greatest start among those that contradict the incoming fact. */
  ghost predicate FirstLatest(cfg: Config, winner: Item, candidates: seq<Item>, i: nat)
  {
    i < |candidates| && Contradicts(cfg, winner, candidates[i]) &&
    (forall j :: 0 <= j < |candidates| && Contradicts(cfg, winner, candidates[j]) ==>
      ValidAt(candidates[j]) <= ValidAt(candidates[i]) && (j < i ==> ValidAt(candidates[j]) < ValidAt(candidates[i])))
  }

  /** Who the report names: the first equal candidate and no loser; the incoming fact and no loser; the first of
      the latest contradicting candidates, and the incoming fact as the loser; or the incoming fact, and as
      losers the contradicting candidates in their order. */
  lemma ReportedNames(cfg: Config, winner: Item, hits: seq<Item>)
    ensures var candidates := Candidates(cfg, winner, hits);
      var a := ActionFor(winner, Decide(cfg, winner, hits));
      match a.kind
      case Noop => a.losers == [] && a.reason == "identical_active_fact" &&
        (exists i :: 0 <= i < |candidates| && Describes(a, candidates[i]) && SameValue(candidates[i], winner) &&
          forall j :: 0 <= j < i ==> !SameValue(candidates[j], winner))
      case Add => Describes(a, winner) && a.losers == [] && a.reason == "new_subject_predicate"
      case Coexist => Describes(a, winner) && a.losers == [] && a.reason == "non_functional_coexist"
      case SelfExpire => a.losers == [winner.id] && a.reason == "incoming_older_than_candidate" &&
        (exists i: nat :: FirstLatest(cfg, winner, candidates, i) && Describes(a, candidates[i]))
      case Supersede => (
        Describes(a, winner) && a.reason == "functional_or_polarity_conflict" &&
        a.losers == Ids(Filter((c: Item) => Contradicts(cfg, winner, c), candidates)))
  {
    var candidates := Candidates(cfg, winner, hits);
    match Decide(cfg, winner, hits) {
      case Reinforce(_) => FirstOf((c: Item) => SameValue(c, winner), candidates);
      case Insert(_) =>
      case Expire(n) => FirstLatestNewest(cfg, winner, candidates);
      case Replace(_) =>
    }
  }

  /** What a filter keeps first is the first element that passes. */
  lemma {:induction false} FirstOf<T>(f: T -> bool, s: seq<T>)
    requires Filter(f, s) != []
    ensures exists i :: 0 <= i < |s| && s[i] == Filter(f, s)[0] && f(s[i]) && forall j :: 0 <= j < i ==> !f(s[j])
  {
    var last := |s| - 1;
    assert s == s[..last] + [s[last]];
    if Filter(f, s[..last]) != [] {
      FirstOf(f, s[..last]);
    } else {
      NoneKept(f, s[..last]);
    }
  }

  lemma {:induction false} NoneKept<T>(f: T -> bool, s: seq<T>)
    requires Filter(f, s) == []
    ensures forall j :: 0 <= j < |s| ==> !f(s[j])
  {
    if s != [] {
      NoneKept(f, s[..|s| - 1]);
    }
  }

  lemma RecentNext(cfg: Config, winner: Item, before: seq<Item>, x: Item)
    ensures MoreRecent(winner, Losers(cfg, winner, before + [x])) ==
      MoreRecent(winner, Losers(cfg, winner, before)) +
        if Contradicts(cfg, winner, x) && ValidAt(x) > ValidAt(winner) then [x] else []
  {
    FilterAppend((c: Item) => Contradicts(cfg, winner, c), before, [x]);
    FilterOne((c: Item) => Contradicts(cfg, winner, c), x);
    assert Losers(cfg, winner, before) + [] == Losers(cfg, winner, before);
    if Contradicts(cfg, winner, x) {
      FilterAppend((c: Item) => ValidAt(c) > ValidAt(winner), Losers(cfg, winner, before), [x]);
      FilterOne((c: Item) => ValidAt(c) > ValidAt(winner), x);
    }
  }

  lemma NewestNext(s: seq<Item>, x: Item)
    ensures Newest(s + [x]) == if s == [] || ValidAt(x) > ValidAt(Newest(s)) then x else Newest(s)
  {
    assert (s + [x])[..|s|] == s;
  }

  /** Either no contradicting candidate starts later, or the newest is the first of the latest. */
  ghost predicate NewestFound(cfg: Config, winner: Item, candidates: seq<Item>, recent: seq<Item>)
  {
    if recent == [] then
      forall j :: 0 <= j < |candidates| && Contradicts(cfg, winner, candidates[j]) ==>
        ValidAt(candidates[j]) <= ValidAt(winner)
    else (
      ValidAt(Newest(recent)) > ValidAt(winner) &&
      exists i: nat :: FirstLatest(cfg, winner, candidates, i) && candidates[i] == Newest(recent))
  }

  lemma NewestFoundNext(cfg: Config, winner: Item, before: seq<Item>, x: Item, recent: seq<Item>)
    requires NewestFound(cfg, winner, before, recent)
    ensures NewestFound(cfg, winner, before + [x],
      recent + if Contradicts(cfg, winner, x) && ValidAt(x) > ValidAt(winner) then [x] else [])
  {
    NewestNext(recent, x);
    assert recent + [] == recent;
    if Contradicts(cfg, winner, x) && ValidAt(x) > ValidAt(winner) &&
       (recent == [] || ValidAt(x) > ValidAt(Newest(recent))) {
      assert FirstLatest(cfg, winner, before + [x], |before|);
    } else if recent != [] {
      var i: nat :| FirstLatest(cfg, winner, before, i) && before[i] == Newest(recent);
      assert FirstLatest(cfg, winner, before + [x], i);
    }
  }

  lemma {:induction false} FirstLatestNewest(cfg: Config, winner: Item, candidates: seq<Item>)
    ensures NewestFound(cfg, winner, candidates, MoreRecent(winner, Losers(cfg, winner, candidates)))
  {
    if candidates != [] {
      var before, x := candidates[..|candidates| - 1], candidates[|candidates| - 1];
      assert candidates == before + [x];
      FirstLatestNewest(cfg, winner, before);
      RecentNext(cfg, winner, before, x);
      NewestFoundNext(cfg, winner, before, x, MoreRecent(winner, Losers(cfg, winner, before)));
    }
  }

  // ---- predicates of single cardinality ------------------------------------------------

  predicate IsCapital(c: char) { 'A' <= c <= 'Z' }

  predicate NoCapitals(s: string) { forall i :: 0 <= i < |s| ==> !IsCapital(s[i]) }

  /** The same text but for the case of its ASCII letters. */
  predicate SameLetters(a: string, b: string)
  {
    |a| == |b| &&
    forall i :: 0 <= i < |a| ==>
      a[i] == b[i] || (IsCapital(a[i]) && b[i] as int == a[i] as int + 32) ||
      (IsCapital(b[i]) && a[i] as int == b[i] as int + 32)
  }

  /** A predicate is functional if and only if the settings list it, whatever the case it is written in;
      an entry that has a capital is never matched. */
  lemma FunctionalExactly(cfg: Config, pred: string)
    ensures Functional(cfg, pred) <==>
      exists listed :: listed in cfg.functional && SameLetters(listed, pred) && NoCapitals(listed)
  {
    if Functional(cfg, pred) {
      assert SameLetters(Lower(pred), pred);
    }
    if listed :| listed in cfg.functional && SameLetters(listed, pred) && NoCapitals(listed) {
      assert listed == Lower(pred);
    }
  }
}
