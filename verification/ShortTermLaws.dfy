/** What the short-term tier answers and keeps, by creation times, ids and expiry alone. */
module ShortTermLaws {
  import opened Common
  import opened Namespaces
  import opened ShortTerm

  /** Created later, or at the same time with an id that sorts first. */
  predicate MoreRecent(a: Item, b: Item)
  {
    a.createdAt > b.createdAt || (a.createdAt == b.createdAt && Before(a.id, b.id))
  }

  predicate Alive(e: Entry, now: Time) { e.expiresAt.None? || e.expiresAt.value > now }

  function AliveIds(m: Rows, now: Time): set<Id> { set id | id in m && Alive(m[id], now) }

  function Least(a: int, b: int): int { if a < b then a else b }

  lemma AliveIsLive(m: Rows, now: Time)
    ensures Live(m, now).Keys == AliveIds(m, now) && |Live(m, now)| == |AliveIds(m, now)|
  {
    assert |Live(m, now)| == |Live(m, now).Keys|;
  }

  lemma NewerByFields(a: Item, b: Item)
    ensures Newer(StampOf(a), StampOf(b)) <==> MoreRecent(a, b)
  {
  }

  // ---- the order of the window -------------------------------------------------------

  /** Fewer rows are ahead of a more recent row. */
  lemma AheadOrders(m: Rows, a: Id, b: Id)
    requires Keyed(m) && a in m && b in m && a != b
    ensures |Ahead(m, a)| < |Ahead(m, b)| <==> MoreRecent(m[a].item, m[b].item)
  {
    var x, y := StampOf(m[a].item), StampOf(m[b].item);
    NewerTotal(x, y);
    NewerByFields(m[a].item, m[b].item);
    if Newer(x, y) {
      AheadGrows(m, a, b);
    } else {
      AheadGrows(m, b, a);
    }
  }

  /** The rows a window answers, most recent first, and no row left out more recent than a listed one. */
  lemma WindowIsMostRecent(m: Rows, limit: int, r: seq<Item>)
    requires Keyed(m) && MostRecent(m, limit, r)
    ensures forall i, j :: 0 <= i < j < |r| ==> MoreRecent(r[i], r[j])
    ensures forall i, id :: 0 <= i < |r| && id in m && m[id].item !in r ==> MoreRecent(r[i], m[id].item)
  {
    forall i, j | 0 <= i < j < |r|
      ensures MoreRecent(r[i], r[j])
    {
      AheadOrders(m, r[i].id, r[j].id);
    }
    forall i, id | 0 <= i < |r| && id in m && m[id].item !in r
      ensures MoreRecent(r[i], m[id].item)
    {
      LeftOutIsBehind(m, limit, r, id);
      AheadOrders(m, r[i].id, id);
    }
  }

  /** A row left out has more rows ahead than any place of the window. */
  lemma LeftOutIsBehind(m: Rows, limit: int, r: seq<Item>, id: Id)
    requires Keyed(m) && MostRecent(m, limit, r) && id in m && m[id].item !in r
    ensures |Ahead(m, id)| >= |r|
  {
    if |Ahead(m, id)| < |r| {
      AtItsPlace(m, limit, r, id);
    }
  }

  lemma AtItsPlace(m: Rows, limit: int, r: seq<Item>, id: Id)
    requires Keyed(m) && MostRecent(m, limit, r) && id in m && |Ahead(m, id)| < |r|
    ensures m[id].item in r
  {
    var p := |Ahead(m, id)|;
    PlacesDiffer(m, id, r[p].id);
    assert r[p] in r;
  }

  /** A read of recent rows answers live rows only, as many as the limit and the tier allow, later creation
      first and equal times in id order; no live row left out is more recent than an answered one. */
  lemma RecentByFields(m: Rows, ns: Namespace, limit: int, now: Time, r: seq<Item>)
    requires Keyed(m) && LazyAnswer(m, Recent(ns, limit), now, Listed(r))
    ensures |r| == Least(if limit < 0 then 0 else limit, |AliveIds(m, now)|)
    ensures forall i :: 0 <= i < |r| ==> r[i].id in m && m[r[i].id].item == r[i] && Alive(m[r[i].id], now)
    ensures forall i, j :: 0 <= i < j < |r| ==> MoreRecent(r[i], r[j])
    ensures forall i, id :: 0 <= i < |r| && id in AliveIds(m, now) && m[id].item !in r ==> MoreRecent(r[i], m[id].item)
  {
    AliveIsLive(m, now);
    WindowIsMostRecent(Live(m, now), limit, r);
  }

  /** A read by id answers the row exactly when it is there and alive. */
  lemma GetByFields(m: Rows, ns: Namespace, id: Id, now: Time, r: Option<Item>)
    requires LazyAnswer(m, Get(ns, id), now, Found(r))
    ensures r.Some? <==> id in m && Alive(m[id], now)
    ensures r.Some? ==> r.value == m[id].item
  {
  }

  // ---- the capacity ------------------------------------------------------------------

  lemma {:induction false} SomeOldest(m: Rows, ids: set<Id>) returns (oldest: Id)
    requires Keyed(m) && ids <= m.Keys && ids != {}
    ensures Oldest(m, ids, oldest)
    decreases ids
  {
    var x :| x in ids;
    if ids == {x} {
      oldest := x;
    } else {
      var other := SomeOldest(m, ids - {x});
      NewerTotal(StampOf(m[x].item), StampOf(m[other].item));
      oldest := if Newer(StampOf(m[x].item), StampOf(m[other].item)) then other else x;
      forall id | id in ids && id != oldest
        ensures Newer(StampOf(m[id].item), StampOf(m[oldest].item))
      {
        if oldest == x && id != other {
          NewerTransitive(StampOf(m[id].item), StampOf(m[other].item), StampOf(m[x].item));
        }
      }
    }
  }

  ghost predicate Oldest(m: Rows, ids: set<Id>, oldest: Id)
    requires ids <= m.Keys
  {
    oldest in ids &&
    forall id :: id in ids && id != oldest ==> Newer(StampOf(m[id].item), StampOf(m[oldest].item))
  }

  /** The capacity is used up. */
  lemma {:induction false} KeptCount(m: Rows, cap: nat)
    requires Keyed(m)
    ensures |KeepNewest(m, cap)| == Least(cap, |m|)
    decreases |m|
  {
    assert |m| == |m.Keys|;
    if |m| <= cap {
      KeepAll(m, cap);
    } else {
      var oldest := SomeOldest(m, m.Keys);
      var rest := m - {oldest};
      DropOldest(m, cap, oldest);
      assert rest.Keys == m.Keys - {oldest};
      assert |rest| == |rest.Keys|;
      KeptCount(rest, cap);
    }
  }

  /** Every row kept is more recent than every row dropped. */
  lemma KeptIsMoreRecent(m: Rows, cap: nat, kept: Id, dropped: Id)
    requires Keyed(m) && kept in KeepNewest(m, cap) && dropped in m && dropped !in KeepNewest(m, cap)
    ensures MoreRecent(m[kept].item, m[dropped].item)
  {
    AheadOrders(m, kept, dropped);
  }

  /** The rows a put starts its trimming from: those alive, with the item replaced or added. */
  predicate Offered(m: Rows, item: Item, now: Time, id: Id) { id == item.id || id in AliveIds(m, now) }

  /** After a put the tier holds rows that were alive, unchanged, and the new one, dated from now; as many as
      the capacity allows; and every row the capacity dropped is less recent than every row kept. */
  lemma PutByFields(cfg: Config, m: Rows, item: Item, now: Time)
    requires Keyed(m)
    ensures var put := LazyRows(cfg, m, Put(item), now);
      (forall id :: id in put ==> Offered(m, item, now, id)) &&
      (forall id :: id in put && id != item.id ==> put[id] == m[id]) &&
      (item.id in put ==> put[item.id] == Entry(item, if cfg.ttl.Some? then Some(now + cfg.ttl.value) else None)) &&
      |put| == Least(cfg.maxItems, |AliveIds(m, now) + {item.id}|)
  {
    var offered := Live(m, now)[item.id := NewEntry(cfg, item, now)];
    AliveIsLive(m, now);
    assert offered.Keys == AliveIds(m, now) + {item.id};
    assert |offered| == |offered.Keys|;
    KeptCount(offered, cfg.maxItems);
  }

  /** The item under an id when the put trims. */
  function OfferedItem(m: Rows, item: Item, id: Id): Item
    requires id == item.id || id in m
  {
    if id == item.id then item else m[id].item
  }

  lemma PutDropsOldest(cfg: Config, m: Rows, item: Item, now: Time, kept: Id, dropped: Id)
    requires Keyed(m) && kept in LazyRows(cfg, m, Put(item), now)
    requires Offered(m, item, now, dropped) && dropped !in LazyRows(cfg, m, Put(item), now)
    ensures Offered(m, item, now, kept)
    ensures MoreRecent(OfferedItem(m, item, kept), OfferedItem(m, item, dropped))
  {
    var offered := Live(m, now)[item.id := NewEntry(cfg, item, now)];
    KeptIsMoreRecent(offered, cfg.maxItems, kept, dropped);
  }
}
