/** The in-process short-term tier as maps: what the lazily expiring adapter stores, and the
    eager reference it cannot be told apart from. */
module ShortTerm {
  import opened Common
  import opened Namespaces

  type Time = int
  type Id = string

  datatype Item = Item(id: Id, ns: Namespace, createdAt: Time, content: string)

  datatype Entry = Entry(item: Item, expiresAt: Option<Time>)

  type Rows = map<Id, Entry>

  /** `ttl` absent: rows never expire. */
  datatype Config = Config(maxItems: nat, ttl: Option<int>)

  // ---- recency -----------------------------------------------------------------------

  /** The recency key: ascending order is most recent first, ids breaking ties. */
  datatype Stamp = Stamp(negTime: int, id: Id)

  function StampOf(item: Item): Stamp { Stamp(-item.createdAt, item.id) }

  predicate Newer(a: Stamp, b: Stamp)
  {
    a.negTime < b.negTime || (a.negTime == b.negTime && Before(a.id, b.id))
  }

  lemma NewerTotal(a: Stamp, b: Stamp)
    ensures Newer(a, b) || a == b || Newer(b, a)
    ensures !(Newer(a, b) && Newer(b, a)) && !Newer(a, a)
  {
    BeforeTotal(a.id, b.id);
    BeforeTotal(a.id, a.id);
  }

  lemma NewerTransitive(a: Stamp, b: Stamp, c: Stamp)
    requires Newer(a, b) && Newer(b, c)
    ensures Newer(a, c)
  {
    if a.negTime == b.negTime == c.negTime {
      BeforeTransitive(a.id, b.id, c.id);
    }
  }

  /** The rows more recent than the row of `id`. */
  function Ahead(m: Rows, id: Id): set<Id>
    requires id in m
  {
    set j | j in m && Newer(StampOf(m[j].item), StampOf(m[id].item))
  }

  /** The `cap` most recent rows. */
  function KeepNewest(m: Rows, cap: nat): Rows
  {
    map id | id in m && |Ahead(m, id)| < cap :: m[id]
  }

  /** `r` lists the most recent rows, most recent first, `limit` at most. */
  ghost predicate MostRecent(m: Rows, limit: int, r: seq<Item>)
  {
    |r| == (if limit < 0 then 0 else if limit < |m| then limit else |m|) &&
    forall i :: 0 <= i < |r| ==> r[i].id in m && m[r[i].id].item == r[i] && |Ahead(m, r[i].id)| == i
  }

  /** Rows carry their own id. */
  ghost predicate Keyed(m: Rows) { forall id :: id in m ==> m[id].item.id == id }

  lemma AheadGrows(m: Rows, a: Id, b: Id)
    requires Keyed(m) && a in m && b in m && Newer(StampOf(m[a].item), StampOf(m[b].item))
    ensures Ahead(m, a) < Ahead(m, b) && |Ahead(m, a)| < |Ahead(m, b)|
  {
    forall j | j in Ahead(m, a)
      ensures j in Ahead(m, b)
    {
      NewerTransitive(StampOf(m[j].item), StampOf(m[a].item), StampOf(m[b].item));
    }
    NewerTotal(StampOf(m[a].item), StampOf(m[a].item));
    assert a in Ahead(m, b) && a !in Ahead(m, a);
    ProperSubsetSize(Ahead(m, a), Ahead(m, b));
  }

  /** Different rows have different places. */
  lemma PlacesDiffer(m: Rows, a: Id, b: Id)
    requires Keyed(m) && a in m && b in m && |Ahead(m, a)| == |Ahead(m, b)|
    ensures a == b
  {
    NewerTotal(StampOf(m[a].item), StampOf(m[b].item));
    if Newer(StampOf(m[a].item), StampOf(m[b].item)) {
      AheadGrows(m, a, b);
    } else if Newer(StampOf(m[b].item), StampOf(m[a].item)) {
      AheadGrows(m, b, a);
    }
  }

  /** The reference allows one answer only. */
  lemma MostRecentUnique(m: Rows, limit: int, r: seq<Item>, r': seq<Item>)
    requires Keyed(m) && MostRecent(m, limit, r) && MostRecent(m, limit, r')
    ensures r == r'
  {
    forall i | 0 <= i < |r|
      ensures r[i] == r'[i]
    {
      PlacesDiffer(m, r[i].id, r'[i].id);
    }
  }

  lemma AheadSize(m: Rows, id: Id)
    requires id in m
    ensures |Ahead(m, id)| < |m|
  {
    NewerTotal(StampOf(m[id].item), StampOf(m[id].item));
    assert |m| == |m.Keys|;
    ProperSubsetSize(Ahead(m, id), m.Keys);
  }

  lemma KeepAll(m: Rows, cap: nat)
    requires |m| <= cap
    ensures KeepNewest(m, cap) == m
  {
    forall id | id in m
      ensures |Ahead(m, id)| < cap
    {
      AheadSize(m, id);
    }
  }

  /** Dropping the least recent of too many rows does not change which rows are kept. */
  lemma DropOldest(m: Rows, cap: nat, oldest: Id)
    requires Keyed(m) && oldest in m && |m| > cap
    requires forall id :: id in m && id != oldest ==> Newer(StampOf(m[id].item), StampOf(m[oldest].item))
    ensures KeepNewest(m - {oldest}, cap) == KeepNewest(m, cap)
  {
    var rest := m - {oldest};
    NewerTotal(StampOf(m[oldest].item), StampOf(m[oldest].item));
    assert Ahead(m, oldest) == m.Keys - {oldest};
    assert |m| == |m.Keys|;
    forall id | id in rest
      ensures Ahead(rest, id) == Ahead(m, id)
    {
      NewerTotal(StampOf(m[id].item), StampOf(m[oldest].item));
    }
  }

  // ---- expiry ------------------------------------------------------------------------

  predicate IsExpired(e: Entry, now: Time) { e.expiresAt.Some? && e.expiresAt.value <= now }

  function Live(m: Rows, now: Time): Rows { map id | id in m && !IsExpired(m[id], now) :: m[id] }

  function NewEntry(cfg: Config, item: Item, now: Time): Entry
  {
    Entry(item, if cfg.ttl.Some? then Some(now + cfg.ttl.value) else None)
  }

  // ---- operations --------------------------------------------------------------------

  datatype Op =
    | Put(item: Item)
    | Get(ns: Namespace, id: Id)
    | Recent(ns: Namespace, limit: int)
    | Evict(ns: Namespace, id: Id)

  datatype Answer = Done | Found(item: Option<Item>) | Listed(items: seq<Item>)

  function NamespaceOf(op: Op): Namespace
  {
    match op
    case Put(item) => item.ns
    case Get(ns, _) => ns
    case Recent(ns, _) => ns
    case Evict(ns, _) => ns
  }

  /** What the adapter's operation leaves in the partition it touches. */
  function LazyRows(cfg: Config, m: Rows, op: Op, now: Time): Rows
  {
    match op
    case Put(item) => KeepNewest(Live(m, now)[item.id := NewEntry(cfg, item, now)], cfg.maxItems)
    case Get(_, id) => if id in m && IsExpired(m[id], now) then m - {id} else m
    case Recent(_, _) => Live(m, now)
    case Evict(_, id) => m - {id}
  }

  ghost predicate LazyAnswer(m: Rows, op: Op, now: Time, a: Answer)
  {
    match op
    case Put(_) => a == Done
    case Get(_, id) => a == Found(if id in m && !IsExpired(m[id], now) then Some(m[id].item) else None)
    case Recent(_, limit) => a.Listed? && MostRecent(Live(m, now), limit, a.items)
    case Evict(_, _) => a == Done
  }

  /** The reference holds live rows only, and the `maxItems` most recent of them. */
  function EagerRows(cfg: Config, m: Rows, op: Op, now: Time): Rows
  {
    var live := Live(m, now);
    match op
    case Put(item) => KeepNewest(Live(live[item.id := NewEntry(cfg, item, now)], now), cfg.maxItems)
    case Get(_, _) => live
    case Recent(_, _) => live
    case Evict(_, id) => live - {id}
  }

  ghost predicate EagerAnswer(m: Rows, op: Op, now: Time, a: Answer)
  {
    var live := Live(m, now);
    match op
    case Put(_) => a == Done
    case Get(_, id) => a == Found(if id in live then Some(live[id].item) else None)
    case Recent(_, limit) => a.Listed? && MostRecent(live, limit, a.items)
    case Evict(_, _) => a == Done
  }

  // ---- runs --------------------------------------------------------------------------

  datatype Timed = Timed(op: Op, now: Time)

  /** The adapter keys its partitions by prefix. */
  type Lazy = map<string, Rows>

  /** The reference has one map per namespace. */
  type Eager = map<Namespace, Rows>

  function PartitionOf(s: Lazy, ns: Namespace): Rows { if ToPrefix(ns) in s then s[ToPrefix(ns)] else map[] }

  function RowsOf(s: Eager, ns: Namespace): Rows { if ns in s then s[ns] else map[] }

  function LazyRun(cfg: Config, ops: seq<Timed>): Lazy
  {
    if ops == [] then map[]
    else
      var s, last := LazyRun(cfg, ops[..|ops| - 1]), ops[|ops| - 1];
      var ns := NamespaceOf(last.op);
      s[ToPrefix(ns) := LazyRows(cfg, PartitionOf(s, ns), last.op, last.now)]
  }

  /** Every operation first drops what has expired anywhere. */
  function EagerRun(cfg: Config, ops: seq<Timed>): Eager
  {
    if ops == [] then map[]
    else
      var s, last := EagerRun(cfg, ops[..|ops| - 1]), ops[|ops| - 1];
      var ns := NamespaceOf(last.op);
      (map n | n in s :: Live(s[n], last.now))[ns := EagerRows(cfg, RowsOf(s, ns), last.op, last.now)]
  }

  /** The clock does not run backwards and every namespace passed the validators. */
  ghost predicate Orderly(ops: seq<Timed>)
  {
    (forall i, j :: 0 <= i <= j < |ops| ==> ops[i].now <= ops[j].now) &&
    forall i :: 0 <= i < |ops| ==> Valid(NamespaceOf(ops[i].op))
  }

  // ---- lazy expiry cannot be observed ------------------------------------------------

  /** No row outlives its time to live, counted from `now`. */
  ghost predicate Bounded(cfg: Config, m: Rows, now: Time)
  {
    cfg.ttl.Some? ==> forall id :: id in m ==> m[id].expiresAt.Some? && m[id].expiresAt.value <= now + cfg.ttl.value
  }

  /** The reference partition is the live part of the adapter's. */
  ghost predicate Matches(cfg: Config, lazy: Rows, eager: Rows, now: Time)
  {
    Keyed(lazy) && Bounded(cfg, lazy, now) && eager == Live(lazy, now)
  }

  lemma LiveLater(m: Rows, t: Time, now: Time)
    requires t <= now
    ensures Live(Live(m, t), now) == Live(m, now)
  {
  }

  /** With a time to live of zero or less a new row is dead on arrival, and so were all before. */
  lemma PutMatches(cfg: Config, m: Rows, item: Item, t: Time, now: Time)
    requires Keyed(m) && Bounded(cfg, m, t) && t <= now
    ensures var put, e := Live(m, now)[item.id := NewEntry(cfg, item, now)], NewEntry(cfg, item, now);
      Live(KeepNewest(put, cfg.maxItems), now) == KeepNewest(Live(put, now), cfg.maxItems)
  {
    var put := Live(m, now)[item.id := NewEntry(cfg, item, now)];
    if cfg.ttl.Some? && cfg.ttl.value <= 0 {
      assert Live(m, now) == map[];
      assert Live(put, now) == map[];
    } else {
      assert Live(put, now) == put;
    }
  }

  lemma StepMatches(cfg: Config, lazy: Rows, eager: Rows, op: Op, t: Time, now: Time)
    requires Matches(cfg, lazy, eager, t) && t <= now
    ensures Matches(cfg, LazyRows(cfg, lazy, op, now), EagerRows(cfg, eager, op, now), now)
    ensures forall a :: LazyAnswer(lazy, op, now, a) <==> EagerAnswer(eager, op, now, a)
  {
    LiveLater(lazy, t, now);
    if op.Put? {
      PutMatches(cfg, lazy, op.item, t, now);
    }
  }

  ghost predicate AllMatch(cfg: Config, lazy: Lazy, eager: Eager, now: Time)
  {
    forall ns :: Valid(ns) ==> Matches(cfg, PartitionOf(lazy, ns), RowsOf(eager, ns), now)
  }

  function LastTime(ops: seq<Timed>, start: Time): Time { if ops == [] then start else ops[|ops| - 1].now }

  lemma UntouchedMatches(cfg: Config, lazy: Rows, eager: Rows, t: Time, now: Time)
    requires Matches(cfg, lazy, eager, t) && t <= now
    ensures Matches(cfg, lazy, Live(eager, now), now)
  {
    LiveLater(lazy, t, now);
  }

  lemma {:induction false} RunMatches(cfg: Config, ops: seq<Timed>, start: Time)
    requires Orderly(ops) && (ops != [] ==> start <= ops[0].now)
    ensures AllMatch(cfg, LazyRun(cfg, ops), EagerRun(cfg, ops), LastTime(ops, start))
  {
    if ops != [] {
      var init, last := ops[..|ops| - 1], ops[|ops| - 1];
      RunMatches(cfg, init, start);
      var t, ns := LastTime(init, start), NamespaceOf(last.op);
      var lazy, eager := LazyRun(cfg, init), EagerRun(cfg, init);
      assert t <= last.now;
      forall n | Valid(n)
        ensures Matches(cfg, PartitionOf(LazyRun(cfg, ops), n), RowsOf(EagerRun(cfg, ops), n), last.now)
      {
        if n == ns {
          StepMatches(cfg, PartitionOf(lazy, n), RowsOf(eager, n), last.op, t, last.now);
        } else {
          assert ToPrefix(n) != ToPrefix(ns) by {
            if ToPrefix(n) == ToPrefix(ns) {
              PrefixInjective(n, ns);
            }
          }
          UntouchedMatches(cfg, PartitionOf(lazy, n), RowsOf(eager, n), t, last.now);
        }
      }
    }
  }

  /** Lazy expiry cannot be observed: after any operations, the next one is answered as the eager
      reference answers it, and the reference leaves no choice of answer. */
  lemma LazyExpiryUnobservable(cfg: Config, ops: seq<Timed>, next: Timed, a: Answer)
    requires Orderly(ops + [next])
    ensures LazyAnswer(PartitionOf(LazyRun(cfg, ops), NamespaceOf(next.op)), next.op, next.now, a) <==>
            EagerAnswer(RowsOf(EagerRun(cfg, ops), NamespaceOf(next.op)), next.op, next.now, a)
    ensures forall b :: EagerAnswer(RowsOf(EagerRun(cfg, ops), NamespaceOf(next.op)), next.op, next.now, a) ==>
      (EagerAnswer(RowsOf(EagerRun(cfg, ops), NamespaceOf(next.op)), next.op, next.now, b) ==> a == b)
  {
    var all, ns := ops + [next], NamespaceOf(next.op);
    var start := all[0].now;
    assert forall i :: 0 <= i < |ops| ==> all[i] == ops[i];
    assert all[|ops|] == next;
    RunMatches(cfg, ops, start);
    var lazy, eager := PartitionOf(LazyRun(cfg, ops), ns), RowsOf(EagerRun(cfg, ops), ns);
    assert Matches(cfg, lazy, eager, LastTime(ops, start));
    StepMatches(cfg, lazy, eager, next.op, LastTime(ops, start), next.now);
    OneAnswer(cfg, lazy, eager, next.op, LastTime(ops, start), next.now);
  }

  lemma OneAnswer(cfg: Config, lazy: Rows, eager: Rows, op: Op, t: Time, now: Time)
    requires Matches(cfg, lazy, eager, t)
    ensures forall a, b :: EagerAnswer(eager, op, now, a) && EagerAnswer(eager, op, now, b) ==> a == b
  {
    forall a, b | EagerAnswer(eager, op, now, a) && EagerAnswer(eager, op, now, b)
      ensures a == b
    {
      if op.Recent? {
        MostRecentUnique(Live(eager, now), op.limit, a.items, b.items);
      }
    }
  }
}
