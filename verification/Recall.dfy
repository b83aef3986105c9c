/** The ranked read: three channels over one partition, then the federation of a private and a
    shared arm, with the recency floor protected. */
module Recall {
  import opened Common
  import opened Fusion
  import opened FusionLoop
  import opened FusionLaws

  datatype Channel = StmFloor | MtmDense | MtmSparse | LtmGraph | LtmFulltext

  datatype Label = Stm | Mtm | Ltm

  /** A hit as a tier repository returns it. */
  datatype Hit = Hit(id: Id, contentHash: Id, channel: Channel, score: real, isFloor: bool)

  datatype View = View(memoryId: Id, contentHash: Id, channel: Label, score: real, isFloor: bool)

  datatype Settings = Settings(rrfK: nat, mtm: real, ltm: real, private: real, shared: real)

  // ---- the ranker --------------------------------------------------------------------

  function ToView(h: Hit, channel: Label): View { View(h.id, h.contentHash, channel, h.score, h.isFloor) }

  function ChannelLabel(h: Hit): Label { if h.channel == LtmGraph || h.channel == LtmFulltext then Ltm else Mtm }

  function FloorViews(hits: seq<Hit>): (r: seq<View>)
    ensures |r| == |hits| && forall i :: 0 <= i < |r| ==> r[i] == ToView(hits[i], Stm)
  {
    seq(|hits|, i requires 0 <= i < |hits| => ToView(hits[i], Stm))
  }

  function FusedViews(pairs: seq<(Hit, real)>): (r: seq<View>)
    ensures |r| == |pairs| && forall i :: 0 <= i < |r| ==> r[i] == ToView(pairs[i].0, ChannelLabel(pairs[i].0))
  {
    seq(|pairs|, i requires 0 <= i < |pairs| => ToView(pairs[i].0, ChannelLabel(pairs[i].0)))
  }

  function Room(limit: nat, taken: nat): nat { if taken < limit then limit - taken else 0 }

  const VIEW_ID: View -> Id := (v: View) => v.memoryId

  function MemoryIds(views: seq<View>): seq<Id> { Keys(VIEW_ID, views) }

  function NotAmong(views: seq<View>, floor: seq<View>): seq<View>
  {
    Filter((v: View) => v.memoryId !in MemoryIds(floor), views)
  }

  /** The floor leads; other fused views fill up to the limit. */
  function MergeFloor(floor: seq<View>, fused: seq<View>, limit: nat): seq<View>
  {
    floor + SliceTo(NotAmong(fused, floor), Room(limit, |floor|))
  }

  const HIT_ID: Hit -> Id := (h: Hit) => h.id

  function Rank(floor: seq<Hit>, mtm: seq<Hit>, ltm: seq<Hit>, cfg: Settings, limit: nat): seq<View>
  {
    var pairs := Fuse(HIT_ID, [mtm, ltm], [cfg.mtm, cfg.ltm], cfg.rrfK);
    MergeFloor(FloorViews(floor), FusedViews(pairs), limit)
  }

  // ---- the service -------------------------------------------------------------------

  /** Both arms fused by memory id. */
  function FuseArms(private: seq<View>, shared: seq<View>, cfg: Settings): seq<View>
  {
    Firsts(Fuse(VIEW_ID, [private, shared], [cfg.private, cfg.shared], cfg.rrfK))
  }

  predicate SeenHash(views: seq<View>, hash: Id) { exists i :: 0 <= i < |views| && views[i].contentHash == hash }

  /** Keep a view when no earlier one has its content hash. */
  function Dedup(views: seq<View>): seq<View>
  {
    if views == [] then []
    else
      var init, last := views[..|views| - 1], views[|views| - 1];
      Dedup(init) + (if SeenHash(init, last.contentHash) then [] else [last])
  }

  function Floor(views: seq<View>): seq<View> { Filter((v: View) => v.isFloor, views) }

  function ProtectFloor(views: seq<View>, limit: nat): seq<View>
  {
    MergeFloor(Floor(views), views, limit)
  }

  function RecallItems(private: seq<View>, shared: seq<View>, cfg: Settings, limit: nat): seq<View>
  {
    ProtectFloor(Dedup(FuseArms(private, shared, cfg)), limit)
  }

  /** What is returned when the shared arm is unavailable. */
  function RecallPrivateOnly(private: seq<View>): seq<View>
  {
    ProtectFloor(Dedup(private), if private == [] then 1 else |private|)
  }

  /** The shared arm of local mode. */
  const NULL_SHARED: seq<View> := []

  /** The deduplicating loop with its set of hashes seen. */
  method DedupByContentHash(items: seq<View>) returns (out: seq<View>)
    ensures out == Dedup(items)
  {
    out := [];
    var seen: set<Id> := {};
    for i := 0 to |items|
      invariant out == Dedup(items[..i])
      invariant forall h :: h in seen <==> SeenHash(items[..i], h)
    {
      TakeNext(items, i);
      assert items[..i + 1][..i] == items[..i];
      forall h
        ensures SeenHash(items[..i + 1], h) <==> SeenHash(items[..i], h) || items[i].contentHash == h
      {
        SeenHashNext(items[..i], items[i], h);
      }
      if items[i].contentHash !in seen {
        seen := seen + {items[i].contentHash};
        out := out + [items[i]];
      }
    }
    assert items[..|items|] == items;
  }

  // ---- what deduplication keeps ------------------------------------------------------

  /** `views[i]` is the first with its hash. */
  predicate FirstOfHash(views: seq<View>, i: nat)
    requires i < |views|
  {
    !SeenHash(views[..i], views[i].contentHash)
  }

  lemma SeenHashNext(views: seq<View>, last: View, h: Id)
    ensures SeenHash(views + [last], h) <==> SeenHash(views, h) || last.contentHash == h
  {
    var longer := views + [last];
    assert longer[|views|] == last;
    assert forall i :: 0 <= i < |views| ==> longer[i] == views[i];
  }

  /** Deduplication loses no hash. */
  lemma {:induction false} DedupHashes(views: seq<View>, h: Id)
    ensures SeenHash(Dedup(views), h) <==> SeenHash(views, h)
  {
    if views != [] {
      var init, last := views[..|views| - 1], views[|views| - 1];
      assert views == init + [last];
      DedupHashes(init, h);
      SeenHashNext(init, last, h);
      SeenHashNext(Dedup(init), last, h);
      assert Dedup(init) + [] == Dedup(init);
    }
  }

  ghost predicate HashesDiffer(views: seq<View>)
  {
    forall i, j :: 0 <= i < j < |views| ==> views[i].contentHash != views[j].contentHash
  }

  lemma {:induction false} DedupHashesDiffer(views: seq<View>)
    ensures HashesDiffer(Dedup(views))
  {
    if views != [] {
      var init, last := views[..|views| - 1], views[|views| - 1];
      DedupHashesDiffer(init);
      DedupHashes(init, last.contentHash);
    }
  }

  /** A view survives exactly when it occurs somewhere as the first with its hash. */
  lemma {:induction false} DedupKeepsFirsts(views: seq<View>, v: View)
    ensures v in Dedup(views) <==> exists i :: 0 <= i < |views| && views[i] == v && FirstOfHash(views, i)
  {
    if views != [] {
      var n := |views| - 1;
      var init := views[..n];
      DedupKeepsFirsts(init, v);
      assert forall i :: 0 <= i < n ==> init[..i] == views[..i];
      assert forall i :: 0 <= i < n ==> (FirstOfHash(init, i) <==> FirstOfHash(views, i));
      if i :| 0 <= i < n && init[i] == v && FirstOfHash(init, i) {
        assert views[i] == v && FirstOfHash(views, i);
      }
    }
  }

  // ---- one arm alone is returned as it came ------------------------------------------

  lemma {:induction false} FirstSeenOfDistinct(ids: seq<Id>)
    requires Distinct(ids)
    ensures FirstSeen(ids) == ids
  {
    if ids != [] {
      assert ids == ids[..|ids| - 1] + [ids[|ids| - 1]];
      FirstSeenOfDistinct(ids[..|ids| - 1]);
    }
  }

  lemma FirstAtOfDistinct(ids: seq<Id>, i: nat)
    requires Distinct(ids) && i < |ids|
    ensures FirstAt(ids, ids[i]) == i
  {
    assert ids[FirstAt(ids, ids[i])] == ids[i];
  }

  lemma AloneIsRanked(p: seq<Id>, weights: seq<real>, k: nat)
    requires Distinct(p) && |weights| == 2 && NonNegative(weights)
    ensures FusedIds([p, []], weights, k) == p
  {
    var ids: seq<seq<Id>> := [p, []];
    assert Flatten(ids) == p by {
      FlattenTwo<Id>(p, []);
      assert p + [] == p;
    }
    FirstSeenOfDistinct(p);
    forall i, j | 0 <= i < j < |p|
      ensures Outranks(ScoreMap(ids, weights, k), FirstSeen(Flatten(ids)), p[i], p[j])
    {
      FirstAtOfDistinct(p, i);
      FirstAtOfDistinct(p, j);
      assert AheadEverywhere(ids, p[i], p[j]);
      DominatorOutranks(ids, weights, k, p[i], p[j]);
    }
    FusedRanking(ids, weights, k);
    RankingUnique(ScoreMap(ids, weights, k), FirstSeen(Flatten(ids)), FusedIds(ids, weights, k), p);
  }

  /** With an empty shared arm the fusion is the private ranking, whatever the weights. */
  lemma FusionCollapses(private: seq<View>, cfg: Settings)
    requires Distinct(MemoryIds(private)) && cfg.private >= 0.0 && cfg.shared >= 0.0
    ensures FuseArms(private, NULL_SHARED, cfg) == private
  {
    var ids, weights := MemoryIds(private), [cfg.private, cfg.shared];
    var channels := [private, NULL_SHARED];
    assert ChannelIds(VIEW_ID, channels) == [ids, []];
    AloneIsRanked(ids, weights, cfg.rrfK);
    FlattenTwo(private, NULL_SHARED);
    assert private + NULL_SHARED == private;
    forall i | 0 <= i < |private|
      ensures FuseArms(private, NULL_SHARED, cfg)[i] == private[i]
    {
      FusedAt(VIEW_ID, channels, weights, cfg.rrfK, i);
      FirstAtOfDistinct(ids, i);
    }
  }

  // ---- the private ranking -----------------------------------------------------------

  lemma FuseKeys<T>(key: T -> Id, channels: seq<seq<T>>, weights: seq<real>, k: nat)
    requires |channels| == |weights|
    ensures Keys(key, Firsts(Fuse(key, channels, weights, k))) == FusedIds(ChannelIds(key, channels), weights, k)
    ensures Distinct(FusedIds(ChannelIds(key, channels), weights, k))
  {
    var ids := ChannelIds(key, channels);
    FusedRanking(ids, weights, k);
    RankingDistinct(ScoreMap(ids, weights, k), FirstSeen(Flatten(ids)), FusedIds(ids, weights, k));
    FlattenKeys(key, channels);
    forall i | 0 <= i < |Fuse(key, channels, weights, k)|
      ensures key(Fuse(key, channels, weights, k)[i].0) == FusedIds(ids, weights, k)[i]
    {
      assert FusedIds(ids, weights, k)[i] in FusedIds(ids, weights, k);
    }
  }
}
