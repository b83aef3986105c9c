/** How much a read returns, in which order, and what its views carry over from the hits. */
module RecallSize {
  import opened Common
  import opened CommonLaws
  import opened Fusion
  import opened FusionLoop
  import opened FusionLaws
  import opened Recall
  import opened RecallFloor
  import opened RecallArms

  function Least(a: int, b: int): int { if a < b then a else b }

  function Greatest(a: int, b: int): int { if a < b then b else a }

  // ---- the federated read ------------------------------------------------------------

  lemma LeadersCount(private: seq<View>, shared: seq<View>, cfg: Settings)
    ensures |Dedup(FuseArms(private, shared, cfg))| == |Leaders(private, shared, cfg)|
    ensures |Leaders(private, shared, cfg)| ==
      |FloorLeaders(private, shared, cfg)| + |Ordinary(private, shared, cfg)|
  {
    var kept := Dedup(FuseArms(private, shared, cfg));
    var score, order := ArmScores(private, shared, cfg), FirstSeen(MemoryIds(Arms(private, shared)));
    var rest := Ordinary(private, shared, cfg);
    DedupedArms(private, shared, cfg);
    RankedDistinct(score, order, kept);
    DistinctCardinality(kept);
    forall v
      ensures v in Elements(kept) <==> v in Leaders(private, shared, cfg)
    {
      LeadersListed(private, shared, cfg, v);
    }
    assert Elements(kept) == Leaders(private, shared, cfg);
    OrdinaryLeaders(private, shared, cfg);
    RankedDistinct(score, order, rest);
    DistinctCardinality(rest);
    assert Leaders(private, shared, cfg) == FloorLeaders(private, shared, cfg) + Elements(rest);
    assert FloorLeaders(private, shared, cfg) !! Elements(rest);
  }

  /** A read returns every floor leader, and other leaders as long as there are any and the limit is not
      reached. */
  lemma RecallCount(private: seq<View>, shared: seq<View>, cfg: Settings, limit: nat)
    ensures |RecallItems(private, shared, cfg, limit)| ==
      Greatest(|FloorLeaders(private, shared, cfg)|, Least(limit, |Leaders(private, shared, cfg)|))
  {
    var floor := Floor(Dedup(FuseArms(private, shared, cfg)));
    var rest := Ordinary(private, shared, cfg);
    FloorCount(private, shared, cfg);
    LeadersCount(private, shared, cfg);
    SliceToLength(rest, Room(limit, |floor|));
    assert RecallItems(private, shared, cfg, limit) == floor + SliceTo(rest, Room(limit, |floor|));
  }

  // ---- the private ranking -----------------------------------------------------------

  /** The ids of the other channels that the recent window does not hold. */
  function OtherIds(floor: seq<Hit>, mtm: seq<Hit>, ltm: seq<Hit>): set<Id>
  {
    set id | id in Keys(HIT_ID, mtm) + Keys(HIT_ID, ltm) && id !in Keys(HIT_ID, floor)
  }

  lemma FusedViewIds(mtm: seq<Hit>, ltm: seq<Hit>, cfg: Settings)
    ensures var fused := FusedViews(Fuse(HIT_ID, [mtm, ltm], [cfg.mtm, cfg.ltm], cfg.rrfK));
      Distinct(MemoryIds(fused)) && forall id :: id in MemoryIds(fused) <==> id in Keys(HIT_ID, mtm) + Keys(HIT_ID, ltm)
  {
    var pairs := Fuse(HIT_ID, [mtm, ltm], [cfg.mtm, cfg.ltm], cfg.rrfK);
    FuseKeys(HIT_ID, [mtm, ltm], [cfg.mtm, cfg.ltm], cfg.rrfK);
    FlattenKeys(HIT_ID, [mtm, ltm]);
    FlattenTwo(mtm, ltm);
    assert MemoryIds(FusedViews(pairs)) == Keys(HIT_ID, Firsts(pairs));
    assert Keys(HIT_ID, mtm + ltm) == Keys(HIT_ID, mtm) + Keys(HIT_ID, ltm);
  }

  lemma FloorIds(floor: seq<Hit>)
    ensures MemoryIds(FloorViews(floor)) == Keys(HIT_ID, floor)
  {
  }

  lemma RestIds(views: seq<View>, floor: seq<View>)
    requires Distinct(MemoryIds(views))
    ensures var rest := NotAmong(views, floor);
      Distinct(MemoryIds(rest)) &&
      forall id :: id in MemoryIds(rest) <==> id in MemoryIds(views) && id !in MemoryIds(floor)
  {
    var keep := (v: View) => v.memoryId !in MemoryIds(floor);
    var rest := Filter(keep, views);
    assert rest == NotAmong(views, floor);
    FilterKeepsDistinct(keep, views);
    FilterMembers(keep, views);
    forall id
      ensures id in MemoryIds(rest) <==> id in MemoryIds(views) && id !in MemoryIds(floor)
    {
      if id in MemoryIds(rest) {
        var i :| 0 <= i < |rest| && MemoryIds(rest)[i] == id;
        assert rest[i] in views;
        var j :| 0 <= j < |views| && views[j] == rest[i];
        assert MemoryIds(views)[j] == id;
      }
      if id in MemoryIds(views) && id !in MemoryIds(floor) {
        var j :| 0 <= j < |views| && MemoryIds(views)[j] == id;
        assert views[j] in rest;
        var i :| 0 <= i < |rest| && rest[i] == views[j];
        assert MemoryIds(rest)[i] == id;
      }
    }
  }

  /** A private ranking holds the whole window, and other hits as long as there are any and the limit is
      not reached. */
  lemma RankCount(floor: seq<Hit>, mtm: seq<Hit>, ltm: seq<Hit>, cfg: Settings, limit: nat)
    ensures |Rank(floor, mtm, ltm, cfg, limit)| ==
      Greatest(|floor|, Least(limit, |floor| + |OtherIds(floor, mtm, ltm)|))
  {
    var f, fused := FloorViews(floor), FusedViews(Fuse(HIT_ID, [mtm, ltm], [cfg.mtm, cfg.ltm], cfg.rrfK));
    var rest := NotAmong(fused, f);
    FusedViewIds(mtm, ltm, cfg);
    FloorIds(floor);
    RestIds(fused, f);
    DistinctCardinality(MemoryIds(rest));
    assert Elements(MemoryIds(rest)) == OtherIds(floor, mtm, ltm);
    SliceToLength(rest, Room(limit, |f|));
  }

  // ---- what a view carries -----------------------------------------------------------

  /** The view shows the hit: its id, content hash, score and floor flag. */
  predicate Shows(v: View, h: Hit)
  {
    v.memoryId == h.id && v.contentHash == h.contentHash && v.score == h.score && v.isFloor == h.isFloor
  }

  /** The ranking shows the window first, in its order and labelled short-term; every other view shows a hit
      of the other channels, labelled long-term exactly when the hit came from the graph or its fulltext. */
  lemma RankShowsHits(floor: seq<Hit>, mtm: seq<Hit>, ltm: seq<Hit>, cfg: Settings, limit: nat, i: nat)
    requires i < |Rank(floor, mtm, ltm, cfg, limit)|
    ensures var v := Rank(floor, mtm, ltm, cfg, limit)[i];
      if i < |floor| then Shows(v, floor[i]) && v.channel == Stm
      else exists h :: (h in mtm || h in ltm) && Shows(v, h) &&
             v.channel == (if h.channel == LtmGraph || h.channel == LtmFulltext then Ltm else Mtm)
  {
    var pairs := Fuse(HIT_ID, [mtm, ltm], [cfg.mtm, cfg.ltm], cfg.rrfK);
    var f, fused := FloorViews(floor), FusedViews(pairs);
    var rest := NotAmong(fused, f);
    if i >= |floor| {
      var v := Rank(floor, mtm, ltm, cfg, limit)[i];
      SliceToLength(rest, Room(limit, |f|));
      assert v == rest[i - |f|];
      FilterMembers((w: View) => w.memoryId !in MemoryIds(f), fused);
      assert v in rest && v in fused;
      var j :| 0 <= j < |fused| && fused[j] == v;
      FusedHits(mtm, ltm, [cfg.mtm, cfg.ltm], cfg.rrfK, j);
      assert Shows(v, pairs[j].0);
    }
  }

  // ---- the order of the other hits ---------------------------------------------------

  function HitIds(mtm: seq<Hit>, ltm: seq<Hit>): seq<seq<Id>> { [Keys(HIT_ID, mtm), Keys(HIT_ID, ltm)] }

  /** `a` comes before `b`: a better score by its places in the two channels and their weights, or the same
      and listed first, mid-term before long-term. */
  predicate HitAhead(mtm: seq<Hit>, ltm: seq<Hit>, cfg: Settings, a: Id, b: Id)
  {
    Outranks(ScoreMap(HitIds(mtm, ltm), [cfg.mtm, cfg.ltm], cfg.rrfK), FirstSeen(Flatten(HitIds(mtm, ltm))), a, b)
  }

  lemma FusedInOrder(mtm: seq<Hit>, ltm: seq<Hit>, cfg: Settings)
    ensures RankedViews(ScoreMap(HitIds(mtm, ltm), [cfg.mtm, cfg.ltm], cfg.rrfK),
      FirstSeen(Flatten(HitIds(mtm, ltm))), FusedViews(Fuse(HIT_ID, [mtm, ltm], [cfg.mtm, cfg.ltm], cfg.rrfK)))
  {
    var channels, weights := [mtm, ltm], [cfg.mtm, cfg.ltm];
    var ids := FusedIds(HitIds(mtm, ltm), weights, cfg.rrfK);
    var fused := FusedViews(Fuse(HIT_ID, channels, weights, cfg.rrfK));
    assert ChannelIds(HIT_ID, channels) == HitIds(mtm, ltm);
    FuseKeys(HIT_ID, channels, weights, cfg.rrfK);
    FusedRanking(HitIds(mtm, ltm), weights, cfg.rrfK);
    assert forall i :: 0 <= i < |fused| ==> fused[i].memoryId == ids[i];
  }

  /** Behind the window the ranking shows the other hits from the best on: each is ahead of those that follow
      and of every other id that is not shown. */
  lemma RankInOrder(floor: seq<Hit>, mtm: seq<Hit>, ltm: seq<Hit>, cfg: Settings, limit: nat, i: nat)
    requires |floor| <= i < |Rank(floor, mtm, ltm, cfg, limit)|
    ensures var r := Rank(floor, mtm, ltm, cfg, limit);
      (forall j :: i < j < |r| ==> HitAhead(mtm, ltm, cfg, r[i].memoryId, r[j].memoryId)) &&
      forall id :: id in OtherIds(floor, mtm, ltm) && id !in MemoryIds(r) ==>
        HitAhead(mtm, ltm, cfg, r[i].memoryId, id)
  {
    var score := ScoreMap(HitIds(mtm, ltm), [cfg.mtm, cfg.ltm], cfg.rrfK);
    var order := FirstSeen(Flatten(HitIds(mtm, ltm)));
    var f, fused := FloorViews(floor), FusedViews(Fuse(HIT_ID, [mtm, ltm], [cfg.mtm, cfg.ltm], cfg.rrfK));
    FusedInOrder(mtm, ltm, cfg);
    RankedFilter(score, order, (v: View) => v.memoryId !in MemoryIds(f), fused);
    CutInOrder(score, order, f, NotAmong(fused, f), Room(limit, |f|), i);
    FusedViewIds(mtm, ltm, cfg);
    FloorIds(floor);
    RestIds(fused, f);
  }

  /** A ranked list cut behind others. */
  lemma CutInOrder(score: map<Id, real>, order: seq<Id>, f: seq<View>, rest: seq<View>, room: nat, i: nat)
    requires RankedViews(score, order, rest) && |f| <= i < |f + SliceTo(rest, room)|
    ensures var r := f + SliceTo(rest, room);
      (forall j :: i < j < |r| ==> Outranks(score, order, r[i].memoryId, r[j].memoryId)) &&
      forall id :: id in MemoryIds(rest) && id !in MemoryIds(r) ==> Outranks(score, order, r[i].memoryId, id)
  {
    var shown := SliceTo(rest, room);
    var r := f + shown;
    SliceToLength(rest, room);
    assert r[i] == rest[i - |f|];
    forall j | i < j < |r|
      ensures Outranks(score, order, r[i].memoryId, r[j].memoryId)
    {
      assert r[j] == rest[j - |f|];
    }
    assert forall k :: 0 <= k < |shown| ==> MemoryIds(r)[|f| + k] == MemoryIds(rest)[k];
    forall id | id in MemoryIds(rest) && id !in MemoryIds(r)
      ensures Outranks(score, order, r[i].memoryId, id)
    {
      var j :| 0 <= j < |rest| && MemoryIds(rest)[j] == id;
    }
  }
}
