/** The in-process adapter: per prefix a dictionary of rows and a sorted recency index, changed
    in place, refining the maps of ShortTerm. */
module ShortTermAdapter {
  import opened Common
  import opened Namespaces
  import opened ShortTerm

  datatype Partition = Partition(items: Rows, recency: seq<Stamp>)

  // ---- the sorted index --------------------------------------------------------------

  ghost predicate Ascending(s: seq<Stamp>) { forall i, j :: 0 <= i < j < |s| ==> Newer(s[i], s[j]) }

  /** The index lists exactly the stamps of the rows, in order. */
  ghost predicate Agrees(p: Partition)
  {
    Keyed(p.items) && Ascending(p.recency) &&
    (forall i :: 0 <= i < |p.recency| ==>
      (p.recency[i].id in p.items && StampOf(p.items[p.recency[i].id].item) == p.recency[i])) &&
    (forall id :: id in p.items ==> StampOf(p.items[id].item) in p.recency)
  }

  function AddStamp(s: seq<Stamp>, x: Stamp): seq<Stamp>
  {
    if s == [] then [x] else if Newer(x, s[0]) then [x] + s else [s[0]] + AddStamp(s[1..], x)
  }

  function RemoveStamp(s: seq<Stamp>, x: Stamp): seq<Stamp>
  {
    if s == [] then [] else if s[0] == x then s[1..] else [s[0]] + RemoveStamp(s[1..], x)
  }

  lemma {:induction false} AddStampMembers(s: seq<Stamp>, x: Stamp)
    ensures forall y :: y in AddStamp(s, x) <==> y in s || y == x
  {
    if s != [] {
      assert s == [s[0]] + s[1..];
      AddStampMembers(s[1..], x);
    }
  }

  lemma {:induction false} AddStampAscends(s: seq<Stamp>, x: Stamp)
    requires Ascending(s) && x !in s
    ensures Ascending(AddStamp(s, x))
  {
    if s != [] {
      NewerTotal(x, s[0]);
      if Newer(x, s[0]) {
        forall j | 0 < j < |s|
          ensures Newer(x, s[j])
        {
          NewerTransitive(x, s[0], s[j]);
        }
      } else {
        var r := AddStamp(s[1..], x);
        AddStampAscends(s[1..], x);
        AddStampMembers(s[1..], x);
        forall j | 0 <= j < |r|
          ensures Newer(s[0], r[j])
        {
          assert r[j] in r;
          if r[j] != x {
            var i :| 0 <= i < |s[1..]| && s[1..][i] == r[j];
            assert s[i + 1] == r[j];
          }
        }
      }
    }
  }

  lemma {:induction false} RemoveStampShape(s: seq<Stamp>, x: Stamp)
    requires Ascending(s)
    ensures Ascending(RemoveStamp(s, x)) && forall y :: y in RemoveStamp(s, x) <==> y in s && y != x
  {
    if s != [] {
      assert s == [s[0]] + s[1..];
      var tail := s[1..];
      assert forall i :: 0 <= i < |tail| ==> Newer(s[0], tail[i]);
      NewerTotal(s[0], s[0]);
      if s[0] != x {
        RemoveStampShape(tail, x);
        var r := RemoveStamp(tail, x);
        forall j | 0 <= j < |r|
          ensures Newer(s[0], r[j])
        {
          assert r[j] in tail;
        }
      }
    }
  }

  // ---- one partition -----------------------------------------------------------------

  function EvictOne(p: Partition, id: Id): Partition
  {
    if id in p.items then Partition(p.items - {id}, RemoveStamp(p.recency, StampOf(p.items[id].item))) else p
  }

  lemma EvictAgrees(p: Partition, id: Id)
    requires Agrees(p)
    ensures Agrees(EvictOne(p, id)) && EvictOne(p, id).items == p.items - {id}
  {
    if id in p.items {
      var x, q := StampOf(p.items[id].item), EvictOne(p, id);
      RemoveStampShape(p.recency, x);
      forall i | 0 <= i < |q.recency|
        ensures q.recency[i].id in q.items && StampOf(q.items[q.recency[i].id].item) == q.recency[i]
      {
        assert q.recency[i] in p.recency && q.recency[i] != x;
        var j :| 0 <= j < |p.recency| && p.recency[j] == q.recency[i];
      }
      forall k | k in q.items
        ensures StampOf(q.items[k].item) in q.recency
      {
        assert StampOf(p.items[k].item) in p.recency;
      }
    }
  }

  lemma AddAgrees(p: Partition, e: Entry)
    requires Agrees(p) && e.item.id !in p.items
    ensures Agrees(Partition(p.items[e.item.id := e], AddStamp(p.recency, StampOf(e.item))))
  {
    var x, q := StampOf(e.item), Partition(p.items[e.item.id := e], AddStamp(p.recency, StampOf(e.item)));
    AddStampMembers(p.recency, x);
    assert x !in p.recency;
    AddStampAscends(p.recency, x);
    forall i | 0 <= i < |q.recency|
      ensures q.recency[i].id in q.items && StampOf(q.items[q.recency[i].id].item) == q.recency[i]
    {
      assert q.recency[i] in q.recency;
      if q.recency[i] != x {
        var j :| 0 <= j < |p.recency| && p.recency[j] == q.recency[i];
      }
    }
  }

  /** Places in the index are places by recency. */
  lemma IndexPlaces(p: Partition, i: nat)
    requires Agrees(p) && i < |p.recency|
    ensures |Ahead(p.items, p.recency[i].id)| == i
  {
    var id := p.recency[i].id;
    var before := seq(i, j requires 0 <= j < i => p.recency[j].id);
    forall a, b | 0 <= a < b < i
      ensures before[a] != before[b]
    {
      NewerTotal(p.recency[a], p.recency[b]);
    }
    DistinctCardinality(before);
    forall j
      ensures j in Elements(before) <==> j in Ahead(p.items, id)
    {
      if j in Ahead(p.items, id) {
        assert StampOf(p.items[j].item) in p.recency;
        var k :| 0 <= k < |p.recency| && p.recency[k] == StampOf(p.items[j].item);
        NewerTotal(p.recency[k], p.recency[i]);
        assert k < i;
        assert before[k] == j;
      }
    }
    assert Elements(before) == Ahead(p.items, id);
  }

  lemma IndexSize(p: Partition)
    requires Agrees(p)
    ensures |p.recency| == |p.items|
  {
    var ids := seq(|p.recency|, j requires 0 <= j < |p.recency| => p.recency[j].id);
    forall a, b | 0 <= a < b < |ids|
      ensures ids[a] != ids[b]
    {
      NewerTotal(p.recency[a], p.recency[b]);
    }
    DistinctCardinality(ids);
    forall id
      ensures id in Elements(ids) <==> id in p.items
    {
      if id in p.items {
        assert StampOf(p.items[id].item) in p.recency;
        var k :| 0 <= k < |p.recency| && p.recency[k] == StampOf(p.items[id].item);
        assert ids[k] == id;
      }
    }
    assert Elements(ids) == p.items.Keys;
    assert |p.items| == |p.items.Keys|;
  }

  lemma LastIsOldest(p: Partition)
    requires Agrees(p) && p.recency != []
    ensures var oldest := p.recency[|p.recency| - 1].id;
      oldest in p.items &&
      forall id :: id in p.items && id != oldest ==> Newer(StampOf(p.items[id].item), StampOf(p.items[oldest].item))
  {
    forall id | id in p.items
      ensures id != p.recency[|p.recency| - 1].id ==> Newer(StampOf(p.items[id].item), p.recency[|p.recency| - 1])
    {
      assert StampOf(p.items[id].item) in p.recency;
      var k :| 0 <= k < |p.recency| && p.recency[k] == StampOf(p.items[id].item);
    }
  }

  // ---- the adapter -------------------------------------------------------------------

  class InMemoryStm {
    const cfg: Config
    var partitions: map<string, Partition>

    constructor (cfg: Config)
      ensures this.cfg == cfg && Valid() && Contents() == map[]
    {
      this.cfg, partitions := cfg, map[];
    }

    ghost predicate Valid()
      reads this
    {
      forall k :: k in partitions ==> Agrees(partitions[k])
    }

    /** The rows, without their index. */
    ghost function Contents(): Lazy
      reads this
    {
      map k | k in partitions :: partitions[k].items
    }

    /** Evict every expired row, in any order. */
    method Prune(p: Partition, now: Time) returns (q: Partition)
      requires Agrees(p)
      ensures Agrees(q) && q.items == Live(p.items, now)
    {
      q := p;
      var todo := set id | id in p.items && IsExpired(p.items[id], now);
      ghost var expired := todo;
      while todo != {}
        invariant todo <= expired && Agrees(q) && q.items == p.items - (expired - todo)
        decreases |todo|
      {
        var id :| id in todo;
        EvictAgrees(q, id);
        q := EvictOne(q, id);
        todo := todo - {id};
      }
      assert q.items == p.items - expired;
    }

    /** Evict the least recent row while there are too many. */
    method Trim(p: Partition) returns (q: Partition)
      requires Agrees(p)
      ensures Agrees(q) && q.items == KeepNewest(p.items, cfg.maxItems)
    {
      q := p;
      while |q.items| > cfg.maxItems
        invariant Agrees(q) && KeepNewest(q.items, cfg.maxItems) == KeepNewest(p.items, cfg.maxItems)
        decreases |q.items|
      {
        IndexSize(q);
        LastIsOldest(q);
        var oldest := q.recency[|q.recency| - 1].id;
        DropOldest(q.items, cfg.maxItems, oldest);
        EvictAgrees(q, oldest);
        ghost var before := q.items;
        q := EvictOne(q, oldest);
        assert q.items.Keys == before.Keys - {oldest};
        assert |q.items| == |q.items.Keys| && |before| == |before.Keys|;
      }
      KeepAll(q.items, cfg.maxItems);
    }

    /** Prune, replace the row, trim. */
    method PutRow(p: Partition, item: Item, now: Time) returns (q: Partition)
      requires Agrees(p)
      ensures Agrees(q) && q.items == LazyRows(cfg, p.items, Put(item), now)
    {
      var pruned := Prune(p, now);
      EvictAgrees(pruned, item.id);
      var cleared := EvictOne(pruned, item.id);
      var e := NewEntry(cfg, item, now);
      AddAgrees(cleared, e);
      assert cleared.items[item.id := e] == pruned.items[item.id := e];
      q := Trim(Partition(cleared.items[item.id := e], AddStamp(cleared.recency, StampOf(item))));
    }

    /** Store one partition. */
    method SetPartition(ns: Namespace, part: Partition)
      requires Valid() && Agrees(part)
      modifies this
      ensures Valid()
      ensures Contents() == old(Contents())[ToPrefix(ns) := part.items]
    {
      partitions := partitions[ToPrefix(ns) := part];
    }

    /** The partition of a namespace, empty when there is none yet. */
    method PartitionFor(ns: Namespace) returns (part: Partition)
      requires Valid()
      ensures Agrees(part) && part.items == PartitionOf(Contents(), ns)
    {
      part := if ToPrefix(ns) in partitions then partitions[ToPrefix(ns)] else Partition(map[], []);
    }

    method PutItem(item: Item, now: Time)
      requires Valid()
      modifies this
      ensures Valid()
      ensures Contents() == old(Contents())[ToPrefix(item.ns) :=
        LazyRows(cfg, PartitionOf(old(Contents()), item.ns), Put(item), now)]
    {
      var part := PartitionFor(item.ns);
      part := PutRow(part, item, now);
      SetPartition(item.ns, part);
    }

    /** A row still alive is answered; an expired one is evicted. */
    method GetRow(part: Partition, id: Id, now: Time) returns (r: Option<Item>, part': Partition)
      requires Agrees(part)
      ensures Agrees(part') && forall ns :: part'.items == LazyRows(cfg, part.items, Get(ns, id), now)
      ensures forall ns :: LazyAnswer(part.items, Get(ns, id), now, Found(r))
    {
      if id in part.items && !IsExpired(part.items[id], now) {
        return Some(part.items[id].item), part;
      }
      EvictAgrees(part, id);
      return None, EvictOne(part, id);
    }

    method GetItem(ns: Namespace, id: Id, now: Time) returns (r: Option<Item>)
      requires Valid()
      modifies this
      ensures Valid()
      ensures LazyAnswer(PartitionOf(old(Contents()), ns), Get(ns, id), now, Found(r))
      ensures Contents() == old(Contents())[ToPrefix(ns) :=
        LazyRows(cfg, PartitionOf(old(Contents()), ns), Get(ns, id), now)]
    {
      var part := PartitionFor(ns);
      r, part := GetRow(part, id, now);
      SetPartition(ns, part);
    }

    /** The head of the index, as rows. */
    method RecentRows(part: Partition, limit: int) returns (r: seq<Item>)
      requires Agrees(part)
      ensures MostRecent(part.items, limit, r)
    {
      IndexSize(part);
      var window := SliceTo(part.recency, if limit < 0 then 0 else limit);
      r := seq(|window|, i requires 0 <= i < |window| => part.items[part.recency[i].id].item);
      forall i | 0 <= i < |r|
        ensures r[i].id in part.items && part.items[r[i].id].item == r[i] && |Ahead(part.items, r[i].id)| == i
      {
        IndexPlaces(part, i);
      }
    }

    method RecentItems(ns: Namespace, limit: int, now: Time) returns (r: seq<Item>)
      requires Valid()
      modifies this
      ensures Valid()
      ensures LazyAnswer(PartitionOf(old(Contents()), ns), Recent(ns, limit), now, Listed(r))
      ensures Contents() == old(Contents())[ToPrefix(ns) :=
        LazyRows(cfg, PartitionOf(old(Contents()), ns), Recent(ns, limit), now)]
    {
      var part := PartitionFor(ns);
      part := Prune(part, now);
      r := RecentRows(part, limit);
      SetPartition(ns, part);
    }

    method EvictItem(ns: Namespace, id: Id, ghost now: Time)
      requires Valid()
      modifies this
      ensures Valid()
      ensures Contents() == old(Contents())[ToPrefix(ns) :=
        LazyRows(cfg, PartitionOf(old(Contents()), ns), Evict(ns, id), now)]
    {
      var part := PartitionFor(ns);
      EvictAgrees(part, id);
      SetPartition(ns, EvictOne(part, id));
    }
  }
}
