/** The consolidation pipeline: collect candidate facts from a window, then decide
    each one against the visible facts of its slot and apply the decision. */
module Distill {
  import opened Common
  import opened GraphStore

  /** `functional` names the single-cardinality predicates, in lower case. */
  datatype Config = Config(candidateK: int, functional: set<string>, mtmWired: bool)

  datatype Kind = Add | Noop | Supersede | SelfExpire | Coexist

  datatype Action = Action(
    kind: Kind, winner: Id, losers: seq<Id>, subj: string, pred: string, obj: string,
    validAt: Time, inferred: bool, reason: string)

  /** A mid-term vector point: only the part the supersede write touches. */
  datatype Point = Point(state: State, invalidAt: Option<Time>, supersededBy: Id, reason: string)

  datatype World = World(graph: Graph, mtm: map<Key, Point>)

  // ---- the decision, on values -------------------------------------------------------

  function Lower(s: string): string
  {
    seq(|s|, i requires 0 <= i < |s| =>
      if 'A' <= s[i] <= 'Z' then ((s[i] as int) + 32) as char else s[i])
  }

  predicate Functional(cfg: Config, pred: string) { Lower(pred) in cfg.functional }

  function ValidAt(item: Item): Time
  {
    if item.validAt.Some? then item.validAt.value else item.createdAt
  }

  predicate SameValue(a: Item, b: Item) { a.obj == b.obj && a.polarity == b.polarity }

  predicate Contradicts(cfg: Config, winner: Item, c: Item)
  {
    (c.obj == winner.obj && c.polarity != winner.polarity) ||
    (c.obj != winner.obj && Functional(cfg, winner.pred))
  }

  function Candidates(cfg: Config, winner: Item, hits: seq<Item>): seq<Item>
  {
    SliceTo(Filter((c: Item) => c.id != winner.id, hits), cfg.candidateK)
  }

  function Identical(winner: Item, candidates: seq<Item>): seq<Item>
  {
    Filter((c: Item) => SameValue(c, winner), candidates)
  }

  function Losers(cfg: Config, winner: Item, candidates: seq<Item>): seq<Item>
  {
    Filter((c: Item) => Contradicts(cfg, winner, c), candidates)
  }

  function MoreRecent(winner: Item, losers: seq<Item>): seq<Item>
  {
    Filter((c: Item) => ValidAt(c) > ValidAt(winner), losers)
  }

  /** The first candidate of greatest validity start. */
  function Newest(s: seq<Item>): Item
    requires s != []
  {
    if |s| == 1 then s[0]
    else
      var m := Newest(s[..|s| - 1]);
      if ValidAt(s[|s| - 1]) > ValidAt(m) then s[|s| - 1] else m
  }

  function Reinforced(c: Item, now: Time): Item
  {
    c.(accessCount := c.accessCount + 1, updatedAt := now)
  }

  /** The mid-term point a fact traces back to: its source record, or itself. */
  function PointId(item: Item): Id { if item.derivedFrom != "" then item.derivedFrom else item.id }

  function MakeAction(kind: Kind, winner: Item, losers: seq<Id>, reason: string): Action
  {
    Action(kind, winner.id, losers, winner.subj, winner.pred, winner.obj, ValidAt(winner), winner.inferred, reason)
  }

  function Ids(items: seq<Item>): (r: seq<Id>)
    ensures |r| == |items| && forall i :: 0 <= i < |r| ==> r[i] == items[i].id
  {
    seq(|items|, i requires 0 <= i < |items| => items[i].id)
  }

  // ---- the effect, on values ---------------------------------------------------------

  /** Absent points are left absent. */
  function InvalidatePoint(mtm: map<Key, Point>, ns: string, loser: Id, winner: Id, at: Time,
                           reason: string): map<Key, Point>
  {
    var k := Key(ns, loser);
    if k in mtm then mtm[k := Point(Superseded, Some(at), winner, reason)] else mtm
  }

  const FUNCTIONAL_SUPERSEDE := "functional_supersede"
  const BY_MORE_RECENT := "superseded_by_more_recent"

  function SupersedeOne(cfg: Config, w: World, ns: string, winner: Item, loser: Item): World
  {
    var at := ValidAt(winner);
    World(Invalidate(w.graph, ns, loser.id, winner.id, at, FUNCTIONAL_SUPERSEDE),
          if cfg.mtmWired
          then InvalidatePoint(w.mtm, ns, PointId(loser), PointId(winner), at, FUNCTIONAL_SUPERSEDE)
          else w.mtm)
  }

  function SupersedeAll(cfg: Config, w: World, ns: string, winner: Item, losers: seq<Item>): World
  {
    if losers == [] then w
    else
      var last := |losers| - 1;
      SupersedeOne(cfg, SupersedeAll(cfg, w, ns, winner, losers[..last]), ns, winner, losers[last])
  }

  function Write(w: World, item: Item): World { w.(graph := Upsert(w.graph, item)) }

  /** The four ways a reconcile can end. */
  datatype Decision =
    | Reinforce(identical: Item)
    | Insert(alone: bool)
    | Expire(newest: Item)
    | Replace(losers: seq<Item>)

  function Decide(cfg: Config, winner: Item, hits: seq<Item>): Decision
  {
    var candidates := Candidates(cfg, winner, hits);
    var identical := Identical(winner, candidates);
    if identical != [] then Reinforce(identical[0])
    else
      var losers := Losers(cfg, winner, candidates);
      var recent := MoreRecent(winner, losers);
      if losers == [] then Insert(candidates == [])
      else if recent != [] then Expire(Newest(recent))
      else Replace(losers)
  }

  function Expired(winner: Item, newest: Item): Item
  {
    winner.(state := Superseded, invalidAt := Some(ValidAt(newest)))
  }

  function Apply(cfg: Config, w: World, ns: string, winner: Item, d: Decision, now: Time): World
  {
    match d
    case Reinforce(c) => Write(w, Reinforced(c, now))
    case Insert(_) => Write(w, winner)
    case Expire(newest) =>
      var written := Write(w, Expired(winner, newest));
      written.(graph := Invalidate(written.graph, ns, winner.id, newest.id, ValidAt(newest), BY_MORE_RECENT))
    case Replace(losers) => SupersedeAll(cfg, Write(w, winner), ns, winner, losers)
  }

  function ActionFor(winner: Item, d: Decision): Action
  {
    match d
    case Reinforce(c) => MakeAction(Noop, c, [], "identical_active_fact")
    case Insert(alone) =>
      if alone then MakeAction(Add, winner, [], "new_subject_predicate")
      else MakeAction(Coexist, winner, [], "non_functional_coexist")
    case Expire(newest) => MakeAction(SelfExpire, newest, [winner.id], "incoming_older_than_candidate")
    case Replace(losers) => MakeAction(Supersede, winner, Ids(losers), "functional_or_polarity_conflict")
  }

  // ---- collecting the window ---------------------------------------------------------

  datatype ExtractedFact = ExtractedFact(
    content: string, subj: string, pred: string, obj: string, polarity: Polarity,
    validAt: Option<Time>, inferred: bool)

  /** The extractor is arbitrary, and so is the supply of minted ids and their creation times. */
  datatype Extraction = Extraction(extract: (string, Time) -> seq<ExtractedFact>, mint: nat -> Id, created: nat -> Time)

  predicate Structured(item: Item) { item.subj != "" && item.pred != "" && item.obj != "" }

  function PromoteStructured(item: Item, now: Time): Item
  {
    var winner := item.(state := Active, updatedAt := now);
    if winner.validAt.None? then winner.(validAt := Some(winner.createdAt), inferred := true) else winner
  }

  function FactToItem(ns: string, source: Item, fact: ExtractedFact, id: Id, created: Time, now: Time): Item
  {
    Item(id, ns, fact.content, fact.subj, fact.pred, fact.obj, fact.polarity, Active,
         Some(if fact.validAt.Some? then fact.validAt.value else now), None,
         created, created, 0, source.id, fact.inferred)
  }

  function FactsToItems(ex: Extraction, ns: string, source: Item, facts: seq<ExtractedFact>, minted: nat,
                        now: Time): (r: seq<Item>)
    ensures |r| == |facts|
  {
    seq(|facts|, i requires 0 <= i < |facts| =>
      FactToItem(ns, source, facts[i], ex.mint(minted + i), ex.created(minted + i), now))
  }

  /** The candidate facts of a window, and how many ids were minted for them. */
  function CollectFacts(ex: Extraction, ns: string, window: seq<Item>, minted: nat, now: Time): (r: (seq<Item>, nat))
    ensures r.1 >= minted
  {
    if window == [] then ([], minted)
    else
      var last := |window| - 1;
      var (out, m) := CollectFacts(ex, ns, window[..last], minted, now);
      var item := window[last];
      if Structured(item) then (out + [PromoteStructured(item, now)], m)
      else
        var facts := ex.extract(item.content, now);
        (out + FactsToItems(ex, ns, item, facts, m, now), m + |facts|)
  }

  // ---- runs --------------------------------------------------------------------------

  /** One reconcile: the fact, the list the store returned at `storeNow`, the pipeline's clock. */
  datatype Step = Step(ns: string, winner: Item, hits: seq<Item>, storeNow: Time, pipeNow: Time)

  function StepSlot(st: Step): Slot { Slot(st.ns, st.winner.subj, st.winner.pred) }

  function DecideStep(cfg: Config, st: Step): Decision { Decide(cfg, st.winner, st.hits) }

  function Advance(cfg: Config, w: World, st: Step): World
  {
    Apply(cfg, w, st.ns, st.winner, DecideStep(cfg, st), st.pipeNow)
  }

  function Run(cfg: Config, w: World, steps: seq<Step>): World
  {
    if steps == [] then w
    else Advance(cfg, Run(cfg, w, steps[..|steps| - 1]), steps[|steps| - 1])
  }

  function Actions(cfg: Config, steps: seq<Step>): (r: seq<Action>)
    ensures |r| == |steps|
  {
    seq(|steps|, i requires 0 <= i < |steps| => ActionFor(steps[i].winner, DecideStep(cfg, steps[i])))
  }

  /** Every step's list is one the store could have returned in the state it found. */
  ghost predicate ValidRun(cfg: Config, w: World, steps: seq<Step>)
  {
    steps == [] ||
    var last := |steps| - 1;
    ValidRun(cfg, w, steps[..last]) &&
    IsConflictList(Run(cfg, w, steps[..last]).graph, StepSlot(steps[last]), steps[last].storeNow, steps[last].hits)
  }

  /** The steps reconcile, in order, the facts `winners` in namespace `ns`. */
  ghost predicate StepsFor(steps: seq<Step>, ns: string, winners: seq<Item>)
  {
    |steps| == |winners| &&
    forall i :: 0 <= i < |steps| ==> steps[i].ns == ns && steps[i].winner == winners[i]
  }

  // ---- the report --------------------------------------------------------------------

  function NoopCount(actions: seq<Action>): nat
  {
    if actions == [] then 0
    else NoopCount(actions[..|actions| - 1]) + (if actions[|actions| - 1].kind == Noop then 1 else 0)
  }

  function SupersededCount(actions: seq<Action>): nat
  {
    if actions == [] then 0
    else SupersededCount(actions[..|actions| - 1]) + |actions[|actions| - 1].losers|
  }
}
