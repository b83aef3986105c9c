/** The ingest pipeline and its stage ledger: what one attempt does, effect by effect, so that
    a crash can cut it anywhere. */
module Ingest {
  import opened Common
  import opened Namespaces

  type Id = string

  datatype Activity = Activity(
    ns: Namespace, host: string, offset: string, kind: string, text: string,
    importance: real, promote: bool, subj: string, pred: string, obj: string, negated: bool)

  /** Digests are taken as injective: one constructor per digest. */
  datatype ContentHash = ContentHash(text: string, subj: string, pred: string, obj: string, negated: bool)

  datatype ActivityId = ActivityId(host: string, session: string, offset: string, kind: string)

  /** Ledger keys of the three stages never coincide. */
  datatype Key = CaptureKey(activity: ActivityId) | PromoteKey(hash: ContentHash) | CompleteKey(correlation: ActivityId)

  datatype Event =
    | MemoryCaptured(ns: Namespace, ids: seq<Id>)
    | MemoryPromoted(ns: Namespace, id: Id, reason: string)
    | IngestCompleted(ns: Namespace, ids: seq<Id>)

  /** The part of a stored memory that matters here. */
  datatype Record = Record(id: Id, ns: Namespace, hash: ContentHash)

  /** `stm` and `mtm` are everything ever written to the tiers. */
  datatype World = World(ledger: map<Key, seq<Event>>, stm: set<Record>, mtm: set<Record>, published: seq<Event>)

  const EMPTY := World(map[], {}, {}, [])

  datatype Config = Config(importancePromote: real)

  datatype Effect = PutStm(r: Record) | UpsertMtm(r: Record) | Mark(key: Key, events: seq<Event>) | Publish(e: Event)

  // ---- identities --------------------------------------------------------------------

  function ActivityIdFor(a: Activity): ActivityId { ActivityId(a.host, a.ns.session, a.offset, a.kind) }

  function HashOf(a: Activity): ContentHash { ContentHash(a.text, a.subj, a.pred, a.obj, a.negated) }

  function PromotionReason(cfg: Config, a: Activity): Option<string>
  {
    if a.promote then Some("explicit")
    else if a.importance >= cfg.importancePromote then Some("importance")
    else None
  }

  // ---- effects -----------------------------------------------------------------------

  /** The first completion of a key wins. */
  function Apply(w: World, e: Effect): World
  {
    match e
    case PutStm(r) => w.(stm := w.stm + {r})
    case UpsertMtm(r) => w.(mtm := w.mtm + {r})
    case Mark(k, events) => if k in w.ledger then w else w.(ledger := w.ledger[k := events])
    case Publish(e) => w.(published := w.published + [e])
  }

  function ApplyAll(w: World, effects: seq<Effect>): World
  {
    if effects == [] then w else Apply(ApplyAll(w, effects[..|effects| - 1]), effects[|effects| - 1])
  }

  function Publishes(events: seq<Event>): (r: seq<Effect>)
    ensures |r| == |events| && forall i :: 0 <= i < |r| ==> r[i] == Publish(events[i])
  {
    seq(|events|, i requires 0 <= i < |events| => Publish(events[i]))
  }

  // ---- one stage ---------------------------------------------------------------------

  datatype Stage = WriteStm | DeterministicPromote | EmitIngestCompleted

  /** What a stage computed: its writes, its events, the memory it hands on; or that it raised. */
  datatype Execution = Executed(writes: seq<Effect>, events: seq<Event>, handed: Option<Record>) | Raised

  /** The key that gates a stage, if any. */
  function KeyFor(cfg: Config, st: Stage, a: Activity): Option<Key>
  {
    match st
    case WriteStm => Some(CaptureKey(ActivityIdFor(a)))
    case DeterministicPromote => if PromotionReason(cfg, a).None? then None else Some(PromoteKey(HashOf(a)))
    case EmitIngestCompleted => Some(CompleteKey(ActivityIdFor(a)))
  }

  function Execute(cfg: Config, st: Stage, a: Activity, handed: Option<Record>, minted: Id): Execution
  {
    match st
    case WriteStm =>
      var r := Record(minted, a.ns, HashOf(a));
      Executed([PutStm(r)], [MemoryCaptured(a.ns, [minted])], Some(r))
    case DeterministicPromote =>
      if PromotionReason(cfg, a).None? then Executed([], [], handed)
      else if handed.None? then Raised
      else
        Executed([UpsertMtm(handed.value)],
                 [MemoryPromoted(a.ns, handed.value.id, PromotionReason(cfg, a).value)], handed)
    case EmitIngestCompleted =>
      Executed([], [IngestCompleted(a.ns, if handed.Some? then [handed.value.id] else [])], handed)
  }

  /** A stage under the ledger gate: a hit republishes the record and hands nothing on; otherwise
      write, mark, publish. */
  datatype StageRun = StageRun(effects: seq<Effect>, events: seq<Event>, handed: Option<Record>, raised: bool)

  function RunStage(cfg: Config, w: World, st: Stage, a: Activity, handed: Option<Record>, minted: Id): StageRun
  {
    var key := KeyFor(cfg, st, a);
    if key.Some? && key.value in w.ledger then
      StageRun(Publishes(w.ledger[key.value]), w.ledger[key.value], handed, false)
    else
      match Execute(cfg, st, a, handed, minted)
      case Raised => StageRun([], [], handed, true)
      case Executed(writes, events, handed') =>
        var marks := if key.Some? then [Mark(key.value, events)] else [];
        StageRun(writes + marks + Publishes(events), events, handed', false)
  }

  // ---- one attempt -------------------------------------------------------------------

  /** A receipt lists the class names of the events, not what they carry. */
  datatype EventName = CapturedName | PromotedName | CompletedName

  datatype Receipt = Receipt(memoryId: Id, hash: ContentHash, promoted: bool, emitted: seq<EventName>)

  function NameOf(e: Event): EventName
  {
    match e
    case MemoryCaptured(_, _) => CapturedName
    case MemoryPromoted(_, _, _) => PromotedName
    case IngestCompleted(_, _) => CompletedName
  }

  function NamesOf(events: seq<Event>): seq<EventName>
  {
    seq(|events|, i requires 0 <= i < |events| => NameOf(events[i]))
  }

  datatype Attempt = Attempt(effects: seq<Effect>, receipt: Option<Receipt>)

  function CapturedIds(events: seq<Event>): seq<Id>
  {
    if events == [] then []
    else
      var last := events[|events| - 1];
      CapturedIds(events[..|events| - 1]) + (if last.MemoryCaptured? then last.ids else [])
  }

  predicate AnyPromoted(events: seq<Event>) { exists i :: 0 <= i < |events| && events[i].MemoryPromoted? }

  function ReceiptFor(a: Activity, emitted: seq<Event>): Option<Receipt>
  {
    var ids := CapturedIds(emitted);
    if ids == [] then None else Some(Receipt(ids[0], HashOf(a), AnyPromoted(emitted), NamesOf(emitted)))
  }

  /** The three stages in order; a stage that raises ends the attempt and keeps what was written. */
  function Remember(cfg: Config, w: World, a: Activity, minted: Id): Attempt
  {
    var s1 := RunStage(cfg, w, WriteStm, a, None, minted);
    var w1 := ApplyAll(w, s1.effects);
    var s2 := RunStage(cfg, w1, DeterministicPromote, a, s1.handed, minted);
    if s2.raised then Attempt(s1.effects + s2.effects, None)
    else
      var w2 := ApplyAll(w1, s2.effects);
      var s3 := RunStage(cfg, w2, EmitIngestCompleted, a, s2.handed, minted);
      Attempt(s1.effects + s2.effects + s3.effects, ReceiptFor(a, s1.events + s2.events + s3.events))
  }

  // ---- runs of attempts --------------------------------------------------------------

  /** An attempt with its minted id; `crash` cuts it after that many effects. */
  datatype Try = Try(a: Activity, minted: Id, crash: Option<nat>)

  function Survived(effects: seq<Effect>, crash: Option<nat>): seq<Effect>
  {
    if crash.Some? && crash.value < |effects| then effects[..crash.value] else effects
  }

  function RunTries(cfg: Config, w: World, tries: seq<Try>): World
  {
    if tries == [] then w
    else
      var before, last := RunTries(cfg, w, tries[..|tries| - 1]), tries[|tries| - 1];
      ApplyAll(before, Survived(Remember(cfg, before, last.a, last.minted).effects, last.crash))
  }
}
