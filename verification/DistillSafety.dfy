/** What every run of the pipeline keeps, with no assumption on the facts: ids may be
    reused, facts may arrive in any order and may carry an end of their own. */
module DistillSafety {
  import opened Common
  import opened CommonLaws
  import opened GraphStore
  import opened Distill

  // ---- the supersede loop in closed form ---------------------------------------------

  function KeysOf(ns: string, items: seq<Item>): (r: set<Key>)
    ensures forall c :: c in items ==> Key(ns, c.id) in r
    ensures forall k :: k in r ==> k.ns == ns && exists c :: c in items && c.id == k.id
  {
    if items == [] then {}
    else
      var last := items[|items| - 1];
      assert items == items[..|items| - 1] + [last];
      KeysOf(ns, items[..|items| - 1]) + {Key(ns, last.id)}
  }

  /** `g'` is `g` with the nodes `gone` retired at `at` and each linked to `to`. */
  ghost predicate Retired(g: Graph, g': Graph, gone: set<Key>, to: Key, at: Time)
  {
    g'.nodes.Keys == g.nodes.Keys &&
    (forall k :: k in g.nodes ==> g'.nodes[k] == if k in gone then Retire(g.nodes[k], at) else g.nodes[k]) &&
    (forall e :: e in g'.supersededBy <==>
      e in g.supersededBy || (e.0 in gone && e.0 in g.nodes && e.1 == to && to in g.nodes))
  }

  lemma InvalidateEffect(g0: Graph, g: Graph, gone: set<Key>, ns: string, loser: Id, winner: Id, at: Time,
                         reason: string)
    requires Retired(g0, g, gone, Key(ns, winner), at)
    ensures Retired(g0, Invalidate(g, ns, loser, winner, at, reason), gone + {Key(ns, loser)}, Key(ns, winner), at)
  {
  }

  /** Superseding a list of losers retires exactly their nodes and links each to the winner. */
  lemma {:induction false} SupersedeAllEffect(cfg: Config, w: World, ns: string, winner: Item, losers: seq<Item>)
    ensures Retired(w.graph, SupersedeAll(cfg, w, ns, winner, losers).graph, KeysOf(ns, losers), Key(ns, winner.id),
      ValidAt(winner))
  {
    if losers != [] {
      var last := |losers| - 1;
      SupersedeAllEffect(cfg, w, ns, winner, losers[..last]);
      var prev := SupersedeAll(cfg, w, ns, winner, losers[..last]);
      InvalidateEffect(w.graph, prev.graph, KeysOf(ns, losers[..last]), ns, losers[last].id, winner.id,
        ValidAt(winner), FUNCTIONAL_SUPERSEDE);
    }
  }

  lemma {:induction false} FilterKeepsIdsApart(f: Item -> bool, s: seq<Item>)
    requires forall i, j :: 0 <= i < j < |s| ==> s[i].id != s[j].id
    ensures forall i, j :: 0 <= i < j < |Filter(f, s)| ==> Filter(f, s)[i].id != Filter(f, s)[j].id
  {
    if s != [] {
      var last := |s| - 1;
      assert s == s[..last] + [s[last]];
      FilterKeepsIdsApart(f, s[..last]);
      assert forall x :: x in s[..last] ==> x.id != s[last].id;
      var r := Filter(f, s[..last]);
      FilterMembers(f, s[..last]);
      assert forall i :: 0 <= i < |r| ==> r[i] in s[..last];
    }
  }

  lemma CandidateMembers(cfg: Config, winner: Item, hits: seq<Item>)
    ensures forall c :: c in Candidates(cfg, winner, hits) ==> c in hits && c.id != winner.id
  {
    FilterMembers((c: Item) => c.id != winner.id, hits);
    var others := Filter((c: Item) => c.id != winner.id, hits);
    var candidates := SliceTo(others, cfg.candidateK);
    assert candidates == others[..|candidates|];
  }

  lemma SelectionMembers(cfg: Config, winner: Item, s: seq<Item>)
    ensures forall c :: c in Identical(winner, s) <==> c in s && SameValue(c, winner)
    ensures forall c :: c in Losers(cfg, winner, s) <==> c in s && Contradicts(cfg, winner, c)
    ensures forall c :: c in MoreRecent(winner, s) <==> c in s && ValidAt(c) > ValidAt(winner)
  {
    FilterMembers((c: Item) => SameValue(c, winner), s);
    FilterMembers((c: Item) => Contradicts(cfg, winner, c), s);
    FilterMembers((c: Item) => ValidAt(c) > ValidAt(winner), s);
  }

  lemma {:induction false} NewestMember(s: seq<Item>)
    requires s != []
    ensures Newest(s) in s && forall c :: c in s ==> ValidAt(c) <= ValidAt(Newest(s))
  {
    if |s| > 1 {
      assert s == s[..|s| - 1] + [s[|s| - 1]];
      NewestMember(s[..|s| - 1]);
    }
  }

  /** A decision only names listed facts other than the incoming one. */
  lemma DecisionSound(cfg: Config, w: World, st: Step)
    requires IsConflictList(w.graph, StepSlot(st), st.storeNow, st.hits)
    ensures match DecideStep(cfg, st)
            case Reinforce(c) => c in st.hits && c.id != st.winner.id && SameValue(c, st.winner)
            case Insert(_) => true
            case Expire(n) => n in st.hits && n.id != st.winner.id && Contradicts(cfg, st.winner, n) &&
              ValidAt(n) > ValidAt(st.winner)
            case Replace(losers) =>
              (forall l :: l in losers ==>
                l in st.hits && l.id != st.winner.id && Contradicts(cfg, st.winner, l) &&
                  ValidAt(l) <= ValidAt(st.winner))
  {
    CandidateMembers(cfg, st.winner, st.hits);
    var candidates := Candidates(cfg, st.winner, st.hits);
    var losers := Losers(cfg, st.winner, candidates);
    SelectionMembers(cfg, st.winner, candidates);
    SelectionMembers(cfg, st.winner, losers);
    var recent := MoreRecent(st.winner, losers);
    if recent != [] {
      NewestMember(recent);
    } else {
      assert forall l :: l in losers ==> l !in recent;
    }
  }

  /** Some candidate has the incoming value; some contradicts it; some of those starts later. */
  ghost predicate SomeSame(winner: Item, candidates: seq<Item>)
  {
    exists c :: c in candidates && SameValue(c, winner)
  }

  ghost predicate SomeContradicts(cfg: Config, winner: Item, candidates: seq<Item>)
  {
    exists c :: c in candidates && Contradicts(cfg, winner, c)
  }

  ghost predicate SomeLater(cfg: Config, winner: Item, candidates: seq<Item>)
  {
    exists c :: c in candidates && Contradicts(cfg, winner, c) && ValidAt(c) > ValidAt(winner)
  }

  /** Which decision is taken: an equal candidate is reinforced before anything else; without one, a
      contradicting candidate that starts later makes the incoming fact expire, contradicting ones that
      do not are replaced, and with neither the fact is added. */
  lemma DecisionKind(cfg: Config, winner: Item, hits: seq<Item>)
    ensures var candidates, d := Candidates(cfg, winner, hits), Decide(cfg, winner, hits);
      (d.Reinforce? <==> SomeSame(winner, candidates)) &&
      (d.Insert? <==> !SomeSame(winner, candidates) && !SomeContradicts(cfg, winner, candidates)) &&
      (d.Expire? <==> !SomeSame(winner, candidates) && SomeLater(cfg, winner, candidates)) &&
      (d.Replace? <==> !SomeSame(winner, candidates) && SomeContradicts(cfg, winner, candidates) &&
                       !SomeLater(cfg, winner, candidates))
  {
    var candidates := Candidates(cfg, winner, hits);
    var losers := Losers(cfg, winner, candidates);
    SelectionMembers(cfg, winner, candidates);
    SelectionMembers(cfg, winner, losers);
    SomeElement(Identical(winner, candidates));
    SomeElement(losers);
    SomeElement(MoreRecent(winner, losers));
  }

  /** What the decision names: an equal candidate; no candidate was met; a contradicting candidate that
      no contradicting candidate outlasts; or exactly the contradicting candidates. */
  lemma DecisionNames(cfg: Config, winner: Item, hits: seq<Item>)
    ensures var candidates := Candidates(cfg, winner, hits);
      match Decide(cfg, winner, hits)
      case Reinforce(c) => c in candidates && SameValue(c, winner)
      case Insert(alone) => alone <==> candidates == []
      case Expire(n) =>
        n in candidates && Contradicts(cfg, winner, n) &&
        forall c :: c in candidates && Contradicts(cfg, winner, c) ==> ValidAt(c) <= ValidAt(n)
      case Replace(losers) => forall c :: c in losers <==> c in candidates && Contradicts(cfg, winner, c)
  {
    var candidates := Candidates(cfg, winner, hits);
    var losers := Losers(cfg, winner, candidates);
    SelectionMembers(cfg, winner, candidates);
    SelectionMembers(cfg, winner, losers);
    if MoreRecent(winner, losers) != [] {
      NewestMember(MoreRecent(winner, losers));
    }
  }

  // ---- properties agree with blobs ---------------------------------------------------

  lemma {:induction false} SupersedeAllCoherent(cfg: Config, w: World, ns: string, winner: Item, losers: seq<Item>)
    requires Coherent(w.graph)
    ensures Coherent(SupersedeAll(cfg, w, ns, winner, losers).graph)
  {
    if losers != [] {
      var last := |losers| - 1;
      SupersedeAllCoherent(cfg, w, ns, winner, losers[..last]);
      var g := SupersedeAll(cfg, w, ns, winner, losers[..last]).graph;
      InvalidateCoherent(g, ns, losers[last].id, winner.id, ValidAt(winner), FUNCTIONAL_SUPERSEDE);
    }
  }

  lemma ReconcileCoherent(cfg: Config, w: World, st: Step)
    requires Coherent(w.graph)
    ensures Coherent(Advance(cfg, w, st).graph)
  {
    var ns, winner := st.ns, st.winner;
    match DecideStep(cfg, st) {
      case Reinforce(c) => UpsertCoherent(w.graph, Reinforced(c, st.pipeNow));
      case Insert(_) => UpsertCoherent(w.graph, winner);
      case Expire(n) =>
        UpsertCoherent(w.graph, Expired(winner, n));
        InvalidateCoherent(Upsert(w.graph, Expired(winner, n)), ns, winner.id, n.id, ValidAt(n), BY_MORE_RECENT);
      case Replace(losers) =>
        UpsertCoherent(w.graph, winner);
        SupersedeAllCoherent(cfg, Write(w, winner), ns, winner, losers);
    }
  }

  lemma {:induction false} RunCoherent(cfg: Config, w: World, steps: seq<Step>)
    requires Coherent(w.graph) && ValidRun(cfg, w, steps)
    ensures Coherent(Run(cfg, w, steps).graph)
  {
    if steps != [] {
      var last := |steps| - 1;
      RunCoherent(cfg, w, steps[..last]);
      ReconcileCoherent(cfg, Run(cfg, w, steps[..last]), steps[last]);
    }
  }

  // ---- the properties of one node after a reconcile ----------------------------------

  function PropsOf(g: Graph, k: Key): Option<Props>
  {
    if k in g.nodes then Some(g.nodes[k].props) else None
  }

  /** The properties after a decision. An item of another namespace is written under its own, while the
      retirements happen in the namespace distilled. */
  function NextProps(g: Graph, st: Step, d: Decision, k: Key): Option<Props>
  {
    var mine := k == KeyOf(st.winner);
    match d
    case Reinforce(_) => PropsOf(g, k)
    case Insert(_) => if mine then Some(ToStore(st.winner)) else PropsOf(g, k)
    case Expire(n) =>
      if mine then Some(ToStore(Expired(st.winner, n)))
      else if k == Key(st.ns, st.winner.id) && k in g.nodes then Some(Retire(g.nodes[k], ValidAt(n)).props)
      else PropsOf(g, k)
    case Replace(losers) =>
      if mine then Some(ToStore(st.winner))
      else if k in KeysOf(st.ns, losers) && k in g.nodes then Some(Retire(g.nodes[k], ValidAt(st.winner)).props)
      else PropsOf(g, k)
  }

  lemma ReinforceKeepsProps(g: Graph, c: Item, now: Time, k: Key)
    requires Coherent(g) && KeyOf(c) in g.nodes && g.nodes[KeyOf(c)].blob == c &&
      g.nodes[KeyOf(c)].props.state == Active
    ensures PropsOf(Upsert(g, Reinforced(c, now)), k) == PropsOf(g, k)
  {
    assert NodeCoherent(KeyOf(c), g.nodes[KeyOf(c)]);
  }

  lemma ExpireProps(g: Graph, st: Step, n: Item, k: Key)
    ensures var written := Upsert(g, Expired(st.winner, n));
      var g' := Invalidate(written, st.ns, st.winner.id, n.id, ValidAt(n), BY_MORE_RECENT);
      PropsOf(g', k) == NextProps(g, st, Expire(n), k)
  {
  }

  lemma ReplaceProps(cfg: Config, w: World, ns: string, winner: Item, losers: seq<Item>, k: Key)
    requires forall l :: l in losers ==> l.id != winner.id
    ensures var g := SupersedeAll(cfg, Write(w, winner), ns, winner, losers).graph;
      PropsOf(g, k) ==
        if k == KeyOf(winner) then Some(ToStore(winner))
        else if k in KeysOf(ns, losers) && k in w.graph.nodes then Some(Retire(w.graph.nodes[k], ValidAt(winner)).props)
        else PropsOf(w.graph, k)
  {
    SupersedeAllEffect(cfg, Write(w, winner), ns, winner, losers);
  }

  lemma PropsAfter(cfg: Config, w: World, st: Step, k: Key)
    requires Coherent(w.graph) && IsConflictList(w.graph, StepSlot(st), st.storeNow, st.hits)
    ensures PropsOf(Advance(cfg, w, st).graph, k) == NextProps(w.graph, st, DecideStep(cfg, st), k)
  {
    DecisionSound(cfg, w, st);
    match DecideStep(cfg, st) {
      case Reinforce(c) =>
        assert Conflicts(w.graph, StepSlot(st), st.storeNow, Key(st.ns, c.id));
        assert NodeCoherent(Key(st.ns, c.id), w.graph.nodes[Key(st.ns, c.id)]);
        ReinforceKeepsProps(w.graph, c, st.pipeNow, k);
      case Insert(_) =>
      case Expire(n) => ExpireProps(w.graph, st, n, k);
      case Replace(losers) =>
        ReplaceProps(cfg, w, st.ns, st.winner, losers, k);
    }
  }

  /** `g'` is `g` after the step took decision `d`, as far as properties go. */
  ghost predicate Took(g: Graph, g': Graph, st: Step, d: Decision)
  {
    forall k :: PropsOf(g', k) == NextProps(g, st, d, k)
  }

  /** The decision names visible facts of the slot other than the incoming one. */
  ghost predicate NamesConflicts(g: Graph, st: Step, d: Decision)
  {
    match d
    case Reinforce(c) => c.id != st.winner.id && Conflicts(g, StepSlot(st), st.storeNow, Key(st.ns, c.id))
    case Insert(_) => true
    case Expire(n) => n.id != st.winner.id && Conflicts(g, StepSlot(st), st.storeNow, Key(st.ns, n.id))
    case Replace(losers) => forall k :: k in KeysOf(st.ns, losers) ==>
      k != KeyOf(st.winner) && Conflicts(g, StepSlot(st), st.storeNow, k)
  }

  lemma StepTook(cfg: Config, w: World, st: Step)
    requires Coherent(w.graph) && IsConflictList(w.graph, StepSlot(st), st.storeNow, st.hits)
    ensures Took(w.graph, Advance(cfg, w, st).graph, st, DecideStep(cfg, st))
    ensures NamesConflicts(w.graph, st, DecideStep(cfg, st))
  {
    var g' := Advance(cfg, w, st).graph;
    forall k
      ensures PropsOf(g', k) == NextProps(w.graph, st, DecideStep(cfg, st), k)
    {
      PropsAfter(cfg, w, st, k);
    }
    DecisionSound(cfg, w, st);
    if DecideStep(cfg, st).Replace? {
      var losers := DecideStep(cfg, st).losers;
      forall k | k in KeysOf(st.ns, losers)
        ensures k != KeyOf(st.winner) && Conflicts(w.graph, StepSlot(st), st.storeNow, k)
      {
        var l :| l in losers && l.id == k.id;
      }
    }
  }

  // ---- the store always has a list to return -----------------------------------------

  /** `hits` lists the conflicting facts among `keys`. */
  ghost predicate ListsAmong(g: Graph, slot: Slot, now: Time, keys: set<Key>, hits: seq<Item>)
  {
    (forall i, j :: 0 <= i < j < |hits| ==> hits[i].id != hits[j].id) &&
    (forall h :: h in hits ==> Key(slot.ns, h.id) in keys && Conflicts(g, slot, now, Key(slot.ns, h.id)) &&
                               g.nodes[Key(slot.ns, h.id)].blob == h) &&
    (forall k :: k in keys && Conflicts(g, slot, now, k) ==> g.nodes[k].blob in hits)
  }

  lemma {:induction false} SomeListAmong(g: Graph, slot: Slot, now: Time, keys: set<Key>) returns (hits: seq<Item>)
    requires Coherent(g)
    ensures ListsAmong(g, slot, now, keys, hits)
    decreases keys
  {
    hits := [];
    if k :| k in keys {
      hits := SomeListAmong(g, slot, now, keys - {k});
      if Conflicts(g, slot, now, k) {
        assert NodeCoherent(k, g.nodes[k]);
        hits := hits + [g.nodes[k].blob];
      }
    }
  }

  lemma SomeConflictList(g: Graph, slot: Slot, now: Time) returns (hits: seq<Item>)
    requires Coherent(g)
    ensures IsConflictList(g, slot, now, hits)
  {
    hits := SomeListAmong(g, slot, now, g.nodes.Keys);
  }

  // ---- at most one visible fact per functional slot ----------------------------------

  ghost predicate OneVisible(cfg: Config, g: Graph, now: Time)
  {
    forall slot: Slot, k, k' ::
      Functional(cfg, slot.pred) && Conflicts(g, slot, now, k) && Conflicts(g, slot, now, k') ==> k == k'
  }

  /** Nodes a reconcile leaves visible were visible before, or are the incoming fact. */
  lemma VisibleAfter(cfg: Config, w: World, st: Step, slot: Slot, k: Key)
    requires Coherent(w.graph) && IsConflictList(w.graph, StepSlot(st), st.storeNow, st.hits)
    requires Conflicts(Advance(cfg, w, st).graph, slot, st.storeNow, k)
    ensures (k == KeyOf(st.winner) && slot == SlotOf(st.winner) && Visible(ToStore(st.winner), st.storeNow) &&
             (DecideStep(cfg, st).Insert? || DecideStep(cfg, st).Replace?)) ||
            Conflicts(w.graph, slot, st.storeNow, k)
  {
    PropsAfter(cfg, w, st, k);
  }

  lemma OnlyHit(hits: seq<Item>, c: Item)
    requires forall i, j :: 0 <= i < j < |hits| ==> hits[i].id != hits[j].id
    requires c in hits && forall h :: h in hits ==> h == c
    ensures hits == [c]
  {
    var i :| 0 <= i < |hits| && hits[i] == c;
    forall j | 0 <= j < |hits|
      ensures hits[j] == c && j == i
    {
      assert hits[j] in hits;
    }
    assert hits[0] == c && hits[|hits| - 1] == c;
  }

  /** A slot with one visible fact offers that fact as the only candidate. */
  lemma SoleCandidate(cfg: Config, w: World, st: Step, k: Key)
    requires Coherent(w.graph)
    requires IsConflictList(w.graph, StepSlot(st), st.storeNow, st.hits)
    requires cfg.candidateK >= 1
    requires Conflicts(w.graph, StepSlot(st), st.storeNow, k) && k != Key(st.ns, st.winner.id)
    requires forall k' :: Conflicts(w.graph, StepSlot(st), st.storeNow, k') ==> k' == k
    ensures st.hits == [w.graph.nodes[k].blob] && Candidates(cfg, st.winner, st.hits) == [w.graph.nodes[k].blob]
  {
    var c, hits := w.graph.nodes[k].blob, st.hits;
    forall h | h in hits
      ensures h == c
    {
      assert Conflicts(w.graph, StepSlot(st), st.storeNow, Key(st.ns, h.id));
    }
    OnlyHit(hits, c);
    FilterOne((c: Item) => c.id != st.winner.id, c);
  }

  /** If the incoming fact ends up visible in the functional slot distilled, nothing else of it does. */
  lemma WinnerAlone(cfg: Config, w: World, st: Step, k: Key)
    requires Coherent(w.graph) && OneVisible(cfg, w.graph, st.storeNow)
    requires IsConflictList(w.graph, StepSlot(st), st.storeNow, st.hits)
    requires cfg.candidateK >= 1 && Functional(cfg, st.winner.pred)
    requires Conflicts(w.graph, StepSlot(st), st.storeNow, k) && k != KeyOf(st.winner)
    ensures var g := Advance(cfg, w, st).graph;
      !(Conflicts(g, StepSlot(st), st.storeNow, k) && Conflicts(g, StepSlot(st), st.storeNow, KeyOf(st.winner)))
  {
    if st.winner.ns == st.ns {
      assert NodeCoherent(k, w.graph.nodes[k]);
      SoleCandidate(cfg, w, st, k);
      DecideAgainstOne(cfg, st.winner, w.graph.nodes[k].blob);
      StepTook(cfg, w, st);
      MetAlone(w.graph, Advance(cfg, w, st).graph, st, w.graph.nodes[k].blob, DecideStep(cfg, st));
    }
  }

  /** Of the incoming fact and the one it met, one gives way. */
  lemma MetAlone(g: Graph, g': Graph, st: Step, c: Item, d: Decision)
    requires Took(g, g', st, d) && st.winner.ns == st.ns && c.id != st.winner.id
    requires d == Reinforce(c) || d == Expire(c) || d == Replace([c])
    requires !Conflicts(g, StepSlot(st), st.storeNow, KeyOf(st.winner))
    ensures !(Conflicts(g', StepSlot(st), st.storeNow, Key(st.ns, c.id)) &&
              Conflicts(g', StepSlot(st), st.storeNow, KeyOf(st.winner)))
  {
    assert PropsOf(g', KeyOf(st.winner)) == NextProps(g, st, d, KeyOf(st.winner));
    assert PropsOf(g', Key(st.ns, c.id)) == NextProps(g, st, d, Key(st.ns, c.id));
    assert c in [c];
  }

  /** The decision stores the incoming fact, and it is visible. */
  predicate StoresVisible(cfg: Config, st: Step)
  {
    Visible(ToStore(st.winner), st.storeNow) && (DecideStep(cfg, st).Insert? || DecideStep(cfg, st).Replace?)
  }

  /** An item of another namespace is stored, visibly, into a functional slot of its own namespace in
      which another fact is visible: nothing compared the two. */
  ghost predicate StrayClash(cfg: Config, w: World, st: Step)
  {
    st.winner.ns != st.ns && Functional(cfg, st.winner.pred) && StoresVisible(cfg, st) &&
    exists k :: k != KeyOf(st.winner) && Conflicts(w.graph, SlotOf(st.winner), st.storeNow, k)
  }

  /** Facts of other namespaces keep their properties. */
  lemma StrayLeaves(cfg: Config, w: World, st: Step, k: Key)
    requires Coherent(w.graph) && IsConflictList(w.graph, StepSlot(st), st.storeNow, st.hits)
    requires k.ns != st.ns && k != KeyOf(st.winner)
    ensures PropsOf(Advance(cfg, w, st).graph, k) == PropsOf(w.graph, k)
  {
    PropsAfter(cfg, w, st, k);
  }

  lemma StrayClashShows(cfg: Config, w: World, st: Step)
    requires Coherent(w.graph) && IsConflictList(w.graph, StepSlot(st), st.storeNow, st.hits)
    requires StrayClash(cfg, w, st)
    ensures !OneVisible(cfg, Advance(cfg, w, st).graph, st.storeNow)
  {
    var g, mine, slot := Advance(cfg, w, st).graph, KeyOf(st.winner), SlotOf(st.winner);
    var k :| k != mine && Conflicts(w.graph, slot, st.storeNow, k);
    StrayLeaves(cfg, w, st, k);
    PropsAfter(cfg, w, st, mine);
    assert Conflicts(g, slot, st.storeNow, k) && Conflicts(g, slot, st.storeNow, mine);
  }

  lemma OneVisibleLater(cfg: Config, g: Graph, before: Time, now: Time)
    requires OneVisible(cfg, g, before) && before <= now
    ensures OneVisible(cfg, g, now)
  {
    forall slot: Slot, k, k' | Functional(cfg, slot.pred) && Conflicts(g, slot, now, k) && Conflicts(g, slot, now, k')
      ensures k == k'
    {
      assert Conflicts(g, slot, before, k) && Conflicts(g, slot, before, k');
    }
  }

  /** One fact was visible before, the other came with the step. */
  lemma NewcomerAlone(cfg: Config, w: World, st: Step, slot: Slot, k: Key)
    requires Coherent(w.graph) && OneVisible(cfg, w.graph, st.storeNow) && !StrayClash(cfg, w, st)
    requires IsConflictList(w.graph, StepSlot(st), st.storeNow, st.hits) && cfg.candidateK >= 1
    requires Functional(cfg, slot.pred) && k != KeyOf(st.winner) && slot == SlotOf(st.winner)
    requires Conflicts(Advance(cfg, w, st).graph, slot, st.storeNow, k)
    ensures !Conflicts(Advance(cfg, w, st).graph, slot, st.storeNow, KeyOf(st.winner)) ||
      Conflicts(w.graph, slot, st.storeNow, KeyOf(st.winner))
  {
    VisibleAfter(cfg, w, st, slot, k);
    if Conflicts(Advance(cfg, w, st).graph, slot, st.storeNow, KeyOf(st.winner)) {
      VisibleAfter(cfg, w, st, slot, KeyOf(st.winner));
      if st.winner.ns == st.ns {
        WinnerAlone(cfg, w, st, k);
      }
    }
  }

  /** A completed reconcile keeps at most one visible fact per functional slot exactly when it does not
      store an item of another namespace beside a visible one. */
  lemma StepOneVisible(cfg: Config, w: World, st: Step, before: Time)
    requires Coherent(w.graph) && OneVisible(cfg, w.graph, before) && before <= st.storeNow
    requires IsConflictList(w.graph, StepSlot(st), st.storeNow, st.hits) && cfg.candidateK >= 1
    ensures OneVisible(cfg, Advance(cfg, w, st).graph, st.storeNow) <==> !StrayClash(cfg, w, st)
  {
    var now, g, mine := st.storeNow, Advance(cfg, w, st).graph, KeyOf(st.winner);
    OneVisibleLater(cfg, w.graph, before, now);
    if StrayClash(cfg, w, st) {
      StrayClashShows(cfg, w, st);
    } else {
      forall slot: Slot, k, k' | Functional(cfg, slot.pred) && Conflicts(g, slot, now, k) && Conflicts(g, slot, now, k')
        ensures k == k'
      {
        VisibleAfter(cfg, w, st, slot, k);
        VisibleAfter(cfg, w, st, slot, k');
        if k != k' && k == mine && slot == SlotOf(st.winner) {
          NewcomerAlone(cfg, w, st, slot, k');
        } else if k != k' && k' == mine && slot == SlotOf(st.winner) {
          NewcomerAlone(cfg, w, st, slot, k);
        }
      }
    }
  }

  /** The store clock never runs backwards from `from`. */
  ghost predicate Orderly(steps: seq<Step>, from: Time)
  {
    (forall i, j :: 0 <= i <= j < |steps| ==> steps[i].storeNow <= steps[j].storeNow) &&
    (forall i :: 0 <= i < |steps| ==> from <= steps[i].storeNow)
  }

  /** Every fact belongs to the namespace distilled. */
  ghost predicate InNamespace(steps: seq<Step>)
  {
    forall i :: 0 <= i < |steps| ==> steps[i].winner.ns == steps[i].ns
  }

  function EndTime(steps: seq<Step>, from: Time): Time
  {
    if steps == [] then from else steps[|steps| - 1].storeNow
  }

  const EMPTY := World(Graph(map[], map[]), map[])

  /** The run up to a step is valid, and the step takes it on. */
  lemma {:induction false} RunAt(cfg: Config, w: World, steps: seq<Step>, i: nat)
    requires ValidRun(cfg, w, steps) && i < |steps|
    ensures ValidRun(cfg, w, steps[..i])
    ensures IsConflictList(Run(cfg, w, steps[..i]).graph, StepSlot(steps[i]), steps[i].storeNow, steps[i].hits)
    ensures Run(cfg, w, steps[..i + 1]) == Advance(cfg, Run(cfg, w, steps[..i]), steps[i])
  {
    var last := |steps| - 1;
    if i == last {
      assert steps[..i + 1] == steps;
    } else {
      assert steps[..last][..i] == steps[..i] && steps[..last][..i + 1] == steps[..i + 1];
      RunAt(cfg, w, steps[..last], i);
    }
  }

  ghost predicate OneVisibleAfter(cfg: Config, w: World, steps: seq<Step>, from: Time, n: int)
  {
    0 <= n <= |steps| ==> OneVisible(cfg, Run(cfg, w, steps[..n]).graph, EndTime(steps[..n], from))
  }

  ghost predicate ClashAt(cfg: Config, w: World, steps: seq<Step>, n: int)
  {
    0 <= n < |steps| && StrayClash(cfg, Run(cfg, w, steps[..n]), steps[n])
  }

  lemma OneVisibleNext(cfg: Config, w: World, steps: seq<Step>, from: Time, n: nat)
    requires Coherent(w.graph) && ValidRun(cfg, w, steps) && Orderly(steps, from) && cfg.candidateK >= 1
    requires n < |steps| && OneVisibleAfter(cfg, w, steps, from, n)
    ensures OneVisibleAfter(cfg, w, steps, from, n + 1) <==> !ClashAt(cfg, w, steps, n)
  {
    RunAt(cfg, w, steps, n);
    RunCoherent(cfg, w, steps[..n]);
    StepOneVisible(cfg, Run(cfg, w, steps[..n]), steps[n], EndTime(steps[..n], from));
  }

  /** Over any run of any facts, every completed reconcile leaves at most one visible fact per functional
      slot if and only if none stored an item of another namespace beside a visible one. */
  lemma RunOneVisible(cfg: Config, w: World, steps: seq<Step>, from: Time)
    requires Coherent(w.graph) && OneVisible(cfg, w.graph, from)
    requires ValidRun(cfg, w, steps) && Orderly(steps, from) && cfg.candidateK >= 1
    ensures (forall n :: 0 <= n <= |steps| ==> OneVisibleAfter(cfg, w, steps, from, n)) <==>
      (forall n :: 0 <= n < |steps| ==> !ClashAt(cfg, w, steps, n))
  {
    var holds := n => OneVisibleAfter(cfg, w, steps, from, n);
    var breaks := n => ClashAt(cfg, w, steps, n);
    assert holds(0);
    forall n | 0 <= n < |steps| && holds(n)
      ensures holds(n + 1) <==> !breaks(n)
    {
      OneVisibleNext(cfg, w, steps, from, n);
    }
    LastsExactly(holds, breaks, |steps|);
    assert forall n :: holds(n) <==> OneVisibleAfter(cfg, w, steps, from, n);
    assert forall n :: breaks(n) <==> ClashAt(cfg, w, steps, n);
  }

  /** In one namespace there is nothing to clash with. */
  lemma NamespaceOneVisible(cfg: Config, w: World, steps: seq<Step>, from: Time)
    requires Coherent(w.graph) && OneVisible(cfg, w.graph, from) && InNamespace(steps)
    requires ValidRun(cfg, w, steps) && Orderly(steps, from) && cfg.candidateK >= 1
    ensures OneVisible(cfg, Run(cfg, w, steps).graph, EndTime(steps, from))
  {
    RunOneVisible(cfg, w, steps, from);
    assert forall n :: !ClashAt(cfg, w, steps, n);
    assert OneVisibleAfter(cfg, w, steps, from, |steps|);
    assert steps[..|steps|] == steps;
  }

  /** Two facts about one subject, with different objects. */
  function Plain(id: Id, pred: string, obj: string, at: Time): Item
  {
    Item(id, "n", "", "s", pred, obj, Positive, Active, Some(at), None, at, at, 0, "", false)
  }

  lemma RunAppend(cfg: Config, w: World, steps: seq<Step>, st: Step)
    ensures Run(cfg, w, steps + [st]) == Advance(cfg, Run(cfg, w, steps), st)
    ensures ValidRun(cfg, w, steps + [st]) <==>
      ValidRun(cfg, w, steps) && IsConflictList(Run(cfg, w, steps).graph, StepSlot(st), st.storeNow, st.hits)
  {
    assert (steps + [st])[..|steps|] == steps;
  }

  /** One hit, other than the incoming fact, is the one candidate. */
  lemma DecideAgainstOne(cfg: Config, winner: Item, c: Item)
    requires c.id != winner.id
    ensures Decide(cfg, winner, [c]) ==
      if cfg.candidateK <= 0 then Insert(true)
      else if SameValue(c, winner) then Reinforce(c)
      else if !Contradicts(cfg, winner, c) then Insert(false)
      else if ValidAt(c) > ValidAt(winner) then Expire(c)
      else Replace([c])
  {
    FilterOne((x: Item) => x.id != winner.id, c);
    FilterOne((x: Item) => SameValue(x, winner), c);
    FilterOne((x: Item) => Contradicts(cfg, winner, x), c);
    FilterOne((x: Item) => ValidAt(x) > ValidAt(winner), c);
  }

  /** A run of two facts of one slot from the empty store: the second meets the first. */
  function Pair(a: Item, b: Item, now: Time): seq<Step>
  {
    [Step(a.ns, a, [], now, now), Step(b.ns, b, [a], now, now)]
  }

  lemma PairRunFrom(cfg: Config, w: World, a: Item, b: Item, now: Time)
    requires SlotOf(a) == SlotOf(b) && a.id != b.id && Visible(ToStore(a), now) && w.graph == EMPTY.graph
    ensures ValidRun(cfg, w, Pair(a, b, now)) && Orderly(Pair(a, b, now), now) && InNamespace(Pair(a, b, now))
    ensures IsConflictList(Write(w, a).graph, SlotOf(b), now, [a])
    ensures Run(cfg, w, Pair(a, b, now)[..1]) == Write(w, a)
    ensures Run(cfg, w, Pair(a, b, now)) == Advance(cfg, Write(w, a), Pair(a, b, now)[1])
  {
    var first, second := Pair(a, b, now)[0], Pair(a, b, now)[1];
    assert Pair(a, b, now)[..1] == [first] && Pair(a, b, now) == [first] + [second];
    FirstStep(cfg, w, first);
    OneFactListed(w, a, now);
    RunAppend(cfg, w, [first], second);
  }

  /** The first step finds nothing and stores its fact. */
  lemma FirstStep(cfg: Config, w: World, first: Step)
    requires w.graph == EMPTY.graph && first.hits == []
    ensures ValidRun(cfg, w, [first]) && Run(cfg, w, [first]) == Write(w, first.winner)
  {
    assert [first] == [] + [first];
    RunAppend(cfg, w, [], first);
    assert DecideStep(cfg, first) == Insert(true);
  }

  lemma OneFactListed(w: World, a: Item, now: Time)
    requires w.graph == EMPTY.graph && Visible(ToStore(a), now)
    ensures IsConflictList(Write(w, a).graph, SlotOf(a), now, [a])
  {
    assert Conflicts(Write(w, a).graph, SlotOf(a), now, KeyOf(a));
  }

  lemma PairRun(cfg: Config, a: Item, b: Item, now: Time)
    requires SlotOf(a) == SlotOf(b) && a.id != b.id && Visible(ToStore(a), now)
    ensures ValidRun(cfg, EMPTY, Pair(a, b, now)) && Orderly(Pair(a, b, now), now) && InNamespace(Pair(a, b, now))
    ensures IsConflictList(Write(EMPTY, a).graph, SlotOf(b), now, [a])
    ensures Run(cfg, EMPTY, Pair(a, b, now)[..1]) == Write(EMPTY, a)
    ensures Run(cfg, EMPTY, Pair(a, b, now)) == Advance(cfg, Write(EMPTY, a), Pair(a, b, now)[1])
  {
    PairRunFrom(cfg, EMPTY, a, b, now);
  }

  /** Without a candidate the second of two different facts is simply added. */
  lemma BlindRun(cfg: Config, pred: string) returns (steps: seq<Step>)
    requires cfg.candidateK <= 0
    ensures ValidRun(cfg, EMPTY, steps) && Orderly(steps, 0) && InNamespace(steps)
    ensures var g := Run(cfg, EMPTY, steps).graph;
            Conflicts(g, Slot("n", "s", pred), EndTime(steps, 0), Key("n", "a")) &&
            Conflicts(g, Slot("n", "s", pred), EndTime(steps, 0), Key("n", "b"))
  {
    var a, b := Plain("a", pred, "x", 0), Plain("b", pred, "y", 0);
    steps := Pair(a, b, 0);
    PairRun(cfg, a, b, 0);
    DecideAgainstOne(cfg, b, a);
  }

  /** Single visibility of functional slots holds over every run of one namespace exactly when the
      pipeline looks at one candidate or more. */
  lemma OneVisibleExactly(cfg: Config, pred: string)
    requires Functional(cfg, pred)
    ensures cfg.candidateK >= 1 <==>
      forall steps :: ValidRun(cfg, EMPTY, steps) && Orderly(steps, 0) && InNamespace(steps) ==>
        OneVisible(cfg, Run(cfg, EMPTY, steps).graph, EndTime(steps, 0))
  {
    if cfg.candidateK >= 1 {
      forall steps | ValidRun(cfg, EMPTY, steps) && Orderly(steps, 0) && InNamespace(steps)
        ensures OneVisible(cfg, Run(cfg, EMPTY, steps).graph, EndTime(steps, 0))
      {
        NamespaceOneVisible(cfg, EMPTY, steps, 0);
      }
    } else {
      var steps := BlindRun(cfg, pred);
      assert Key("n", "a") != Key("n", "b");
    }
  }

  /** Whatever the settings, two items of namespace "n" distilled in "m" are both stored and visible. */
  lemma StrayRun(cfg: Config, pred: string) returns (steps: seq<Step>)
    requires Functional(cfg, pred)
    ensures ValidRun(cfg, EMPTY, steps) && Orderly(steps, 0)
    ensures !OneVisible(cfg, Run(cfg, EMPTY, steps).graph, EndTime(steps, 0))
  {
    var a, b := Plain("a", pred, "x", 0), Plain("b", pred, "y", 0);
    var first, second := Step("m", a, [], 0, 0), Step("m", b, [], 0, 0);
    steps := [first] + [second];
    assert [first] == [] + [first];
    RunAppend(cfg, EMPTY, [], first);
    RunAppend(cfg, EMPTY, [first], second);
    assert DecideStep(cfg, first) == Insert(true) && DecideStep(cfg, second) == Insert(true);
    assert Run(cfg, EMPTY, [first]) == Write(EMPTY, a);
    UpsertCoherent(EMPTY.graph, a);
    assert Conflicts(Write(EMPTY, a).graph, SlotOf(b), 0, KeyOf(a));
    StrayClashShows(cfg, Write(EMPTY, a), second);
  }
}
