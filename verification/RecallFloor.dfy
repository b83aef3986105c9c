/** The recency floor through the whole read: kept end to end in local mode, and lost on one
    input once there is a shared arm. */
module RecallFloor {
  import opened Common
  import opened CommonLaws
  import opened Fusion
  import opened FusionLoop
  import opened FusionLaws
  import opened Recall

  /** A floor part, then a part without floor views; ids differ throughout. */
  ghost predicate FloorFirst(floor: seq<View>, tail: seq<View>)
  {
    Distinct(MemoryIds(floor + tail)) &&
    (forall i :: 0 <= i < |floor| ==> floor[i].isFloor) && (forall i :: 0 <= i < |tail| ==> !tail[i].isFloor)
  }

  // ---- subsequences ------------------------------------------------------------------

  lemma IdsDiffer(views: seq<View>, i: nat, j: nat)
    requires Distinct(MemoryIds(views)) && i < j < |views|
    ensures views[i].memoryId != views[j].memoryId
  {
    assert MemoryIds(views)[i] != MemoryIds(views)[j];
  }

  lemma IdsDistinct(views: seq<View>)
    requires forall i, j :: 0 <= i < j < |views| ==> views[i].memoryId != views[j].memoryId
    ensures Distinct(MemoryIds(views))
  {
  }

  lemma {:induction false} FilterKeepsDistinct(f: View -> bool, views: seq<View>)
    requires Distinct(MemoryIds(views))
    ensures Distinct(MemoryIds(Filter(f, views)))
  {
    if views != [] {
      var init, last := views[..|views| - 1], views[|views| - 1];
      forall i, j | 0 <= i < j < |init|
        ensures init[i].memoryId != init[j].memoryId
      {
        IdsDiffer(views, i, j);
      }
      IdsDistinct(init);
      FilterKeepsDistinct(f, init);
      FilterMembers(f, init);
      var kept := Filter(f, init);
      forall i | 0 <= i < |kept|
        ensures kept[i].memoryId != last.memoryId
      {
        assert kept[i] in init;
        var j :| 0 <= j < |init| && init[j] == kept[i];
        IdsDiffer(views, j, |views| - 1);
      }
      forall i, j | 0 <= i < j < |kept|
        ensures kept[i].memoryId != kept[j].memoryId
      {
        IdsDiffer(kept, i, j);
      }
      IdsDistinct(Filter(f, views));
    }
  }

  // ---- the shape of the private ranking ----------------------------------------------

  /** What the tier repositories promise: the recent window lists distinct floor hits, the other
      channels no floor hit. */
  ghost predicate Sources(floor: seq<Hit>, mtm: seq<Hit>, ltm: seq<Hit>)
  {
    Distinct(Keys(HIT_ID, floor)) && (forall i :: 0 <= i < |floor| ==> floor[i].isFloor) &&
    (forall h :: h in mtm || h in ltm ==> !h.isFloor)
  }

  function RankTail(floor: seq<Hit>, mtm: seq<Hit>, ltm: seq<Hit>, cfg: Settings, limit: nat): seq<View>
  {
    var fused := FusedViews(Fuse(HIT_ID, [mtm, ltm], [cfg.mtm, cfg.ltm], cfg.rrfK));
    SliceTo(NotAmong(fused, FloorViews(floor)), Room(limit, |floor|))
  }

  lemma FusedHits(mtm: seq<Hit>, ltm: seq<Hit>, weights: seq<real>, k: nat, i: nat)
    requires |weights| == 2 && i < |Fuse(HIT_ID, [mtm, ltm], weights, k)|
    ensures Fuse(HIT_ID, [mtm, ltm], weights, k)[i].0 in mtm || Fuse(HIT_ID, [mtm, ltm], weights, k)[i].0 in ltm
  {
    var channels := [mtm, ltm];
    FlattenTwo(mtm, ltm);
    FusedAt(HIT_ID, channels, weights, k, i);
  }

  lemma RankShape(floor: seq<Hit>, mtm: seq<Hit>, ltm: seq<Hit>, cfg: Settings, limit: nat)
    requires Sources(floor, mtm, ltm)
    ensures var f, t := FloorViews(floor), RankTail(floor, mtm, ltm, cfg, limit);
      Rank(floor, mtm, ltm, cfg, limit) == f + t && FloorFirst(f, t) && (t != [] ==> |f| + |t| <= limit)
  {
    var pairs := Fuse(HIT_ID, [mtm, ltm], [cfg.mtm, cfg.ltm], cfg.rrfK);
    var f, fused := FloorViews(floor), FusedViews(pairs);
    var rest, t := NotAmong(fused, f), RankTail(floor, mtm, ltm, cfg, limit);
    FuseKeys(HIT_ID, [mtm, ltm], [cfg.mtm, cfg.ltm], cfg.rrfK);
    forall i, j | 0 <= i < j < |fused|
      ensures fused[i].memoryId != fused[j].memoryId
    {
      assert Keys(HIT_ID, Firsts(pairs))[i] != Keys(HIT_ID, Firsts(pairs))[j];
    }
    IdsDistinct(fused);
    FilterKeepsDistinct((v: View) => v.memoryId !in MemoryIds(f), fused);
    FilterMembers((v: View) => v.memoryId !in MemoryIds(f), fused);
    SliceToLength(rest, Room(limit, |f|));
    assert t == rest[..|t|];
    forall i | 0 <= i < |t|
      ensures !t[i].isFloor && t[i].memoryId !in MemoryIds(f)
    {
      assert rest[i] in rest && rest[i] in fused;
      var j :| 0 <= j < |fused| && fused[j] == rest[i];
      FusedHits(mtm, ltm, [cfg.mtm, cfg.ltm], cfg.rrfK, j);
    }
    forall i, j | 0 <= i < j < |f + t|
      ensures (f + t)[i].memoryId != (f + t)[j].memoryId
    {
      if j < |f| {
        assert Keys(HIT_ID, floor)[i] != Keys(HIT_ID, floor)[j];
      } else if i < |f| {
        assert MemoryIds(f)[i] == f[i].memoryId;
      } else {
        IdsDiffer(rest, i - |f|, j - |f|);
      }
    }
    IdsDistinct(f + t);
  }

  // ---- deduplication of a floor-first list -------------------------------------------

  /** The tail views whose hash is new. */
  function NewHashes(seen: seq<View>, tail: seq<View>): seq<View>
  {
    if tail == [] then []
    else
      var init, last := tail[..|tail| - 1], tail[|tail| - 1];
      NewHashes(seen, init) + (if SeenHash(seen + init, last.contentHash) then [] else [last])
  }

  lemma {:induction false} DedupSplits(floor: seq<View>, tail: seq<View>)
    ensures Dedup(floor + tail) == Dedup(floor) + NewHashes(floor, tail)
    ensures |NewHashes(floor, tail)| <= |tail|
    ensures forall v :: v in NewHashes(floor, tail) ==> v in tail
  {
    if tail == [] {
      assert floor + tail == floor;
    } else {
      var init := tail[..|tail| - 1];
      assert (floor + tail)[..|floor + tail| - 1] == floor + init;
      assert tail == init + [tail[|tail| - 1]];
      DedupSplits(floor, init);
    }
  }

  lemma {:induction false} DedupIsFilter(views: seq<View>)
    ensures |Dedup(views)| <= |views| && forall v :: v in Dedup(views) ==> v in views
    ensures Distinct(MemoryIds(views)) ==> Distinct(MemoryIds(Dedup(views)))
  {
    if views != [] {
      var init, last := views[..|views| - 1], views[|views| - 1];
      assert views == init + [last];
      DedupIsFilter(init);
      if Distinct(MemoryIds(views)) {
        forall i, j | 0 <= i < j < |init|
          ensures init[i].memoryId != init[j].memoryId
        {
          IdsDiffer(views, i, j);
        }
        IdsDistinct(init);
        var kept := Dedup(init);
        forall i, j | 0 <= i < j < |Dedup(views)|
          ensures Dedup(views)[i].memoryId != Dedup(views)[j].memoryId
        {
          if j < |kept| {
            IdsDiffer(kept, i, j);
          } else {
            assert kept[i] in init;
            var m :| 0 <= m < |init| && init[m] == kept[i];
            IdsDiffer(views, m, |views| - 1);
          }
        }
        IdsDistinct(Dedup(views));
      }
    }
  }

  lemma FloorPart(floor: seq<View>, tail: seq<View>)
    requires FloorFirst(floor, tail)
    ensures Floor(floor + tail) == floor
  {
    FilterAppend((v: View) => v.isFloor, floor, tail);
    FilterUniform((v: View) => v.isFloor, floor);
    FilterUniform((v: View) => v.isFloor, tail);
  }

  lemma TailPart(floor: seq<View>, tail: seq<View>)
    requires FloorFirst(floor, tail)
    ensures NotAmong(floor + tail, floor) == tail
  {
    forall i | 0 <= i < |floor|
      ensures floor[i].memoryId in MemoryIds(floor)
    {
      assert MemoryIds(floor)[i] == floor[i].memoryId;
    }
    forall i | 0 <= i < |tail|
      ensures tail[i].memoryId !in MemoryIds(floor)
    {
      forall j | 0 <= j < |floor|
        ensures MemoryIds(floor)[j] != tail[i].memoryId
      {
        IdsDiffer(floor + tail, j, |floor| + i);
      }
    }
    FilterAppend((v: View) => v.memoryId !in MemoryIds(floor), floor, tail);
    FilterUniform((v: View) => v.memoryId !in MemoryIds(floor), floor);
    FilterUniform((v: View) => v.memoryId !in MemoryIds(floor), tail);
  }

  /** Protecting the floor of a floor-first list changes nothing while the tail fits. */
  lemma ProtectKeepsAll(floor: seq<View>, tail: seq<View>, limit: nat)
    requires FloorFirst(floor, tail) && |tail| <= Room(limit, |floor|)
    ensures ProtectFloor(floor + tail, limit) == floor + tail
  {
    FloorPart(floor, tail);
    TailPart(floor, tail);
  }

  lemma DedupIsFloorFirst(floor: seq<View>, tail: seq<View>)
    requires FloorFirst(floor, tail)
    ensures FloorFirst(Dedup(floor), NewHashes(floor, tail))
    ensures Dedup(floor + tail) == Dedup(floor) + NewHashes(floor, tail)
  {
    var f, t := Dedup(floor), NewHashes(floor, tail);
    DedupSplits(floor, tail);
    DedupIsFilter(floor + tail);
    DedupIsFilter(floor);
    forall i | 0 <= i < |f|
      ensures f[i].isFloor
    {
      assert f[i] in floor;
    }
    forall i | 0 <= i < |t|
      ensures !t[i].isFloor
    {
      assert t[i] in tail;
    }
  }

  // ---- local mode keeps the floor end to end -----------------------------------------

  /** Every content hash of the recent window is answered by a floor view. */
  ghost predicate KeepsFloor(window: seq<Hit>, items: seq<View>)
  {
    forall i :: 0 <= i < |window| ==> SeenHash(Floor(items), window[i].contentHash)
  }

  /** Local recall is the private ranking without repeated content: it keeps every hash of the recent
      window as a floor view, repeats no id and no hash, and exceeds the limit only for the floor. A
      shared arm that is down gives the same items as one that is empty. */
  lemma LocalRecallKeepsFloor(floor: seq<Hit>, mtm: seq<Hit>, ltm: seq<Hit>, cfg: Settings, limit: nat)
    requires Sources(floor, mtm, ltm) && cfg.private >= 0.0 && cfg.shared >= 0.0
    ensures var private := Rank(floor, mtm, ltm, cfg, limit);
            var items := RecallItems(private, NULL_SHARED, cfg, limit);
      items == Dedup(private) && KeepsFloor(floor, items) &&
      Distinct(MemoryIds(items)) && HashesDiffer(items) &&
      (|items| <= limit || |items| <= |floor|) &&
      RecallPrivateOnly(private) == items
  {
    var private, f, t := Rank(floor, mtm, ltm, cfg, limit), FloorViews(floor), RankTail(floor, mtm, ltm, cfg, limit);
    RankShape(floor, mtm, ltm, cfg, limit);
    FusionCollapses(private, cfg);
    DedupIsFloorFirst(f, t);
    DedupIsFilter(f);
    DedupSplits(f, t);
    var f', t' := Dedup(f), NewHashes(f, t);
    ProtectKeepsAll(f', t', limit);
    DedupIsFilter(private);
    ProtectKeepsAll(f', t', if private == [] then 1 else |private|);
    DedupHashesDiffer(private);
    FloorPart(f', t');
    forall i | 0 <= i < |floor|
      ensures SeenHash(f', floor[i].contentHash)
    {
      assert f[i].contentHash == floor[i].contentHash;
      DedupHashes(f, floor[i].contentHash);
    }
  }

  // ---- with a shared arm: a floor view is lost ---------------------------------------

  lemma ProtectedFloor(views: seq<View>, limit: nat, v: View)
    requires v.isFloor
    ensures v in ProtectFloor(views, limit) <==> v in views
  {
    var floor := Floor(views);
    var rest := NotAmong(views, floor);
    var cut := SliceTo(rest, Room(limit, |floor|));
    FilterMembers((w: View) => w.isFloor, views);
    FilterMembers((w: View) => w.memoryId !in MemoryIds(floor), views);
    assert cut == rest[..|cut|];
    assert forall w :: w in cut ==> w in views;
    assert v in floor <==> v in views;
  }

  lemma EvictionScores(k: nat)
    ensures Normalised([1.0, 1.0]) == [0.5, 0.5]
    ensures ChannelScore(["u", "v"], 0.5, k, "u") == Share(0.5, k, 0) &&
      ChannelScore(["u", "v"], 0.5, k, "v") == Share(0.5, k, 1)
    ensures ChannelScore(["u", "v"], 0.5, k, "w") == 0.0 && ChannelScore(["w"], 0.5, k, "w") == Share(0.5, k, 0)
    ensures ChannelScore(["w"], 0.5, k, "u") == 0.0 && ChannelScore(["w"], 0.5, k, "v") == 0.0
  {
    assert [1.0, 1.0][..1] == [1.0] && [1.0][..0] == [];
    assert Sum([1.0]) == 1.0 && Sum([1.0, 1.0]) == 2.0;
    ChannelScoreIsShare(["u", "v"], 0.5, k, "u");
    ChannelScoreIsShare(["u", "v"], 0.5, k, "v");
    ChannelScoreIsShare(["u", "v"], 0.5, k, "w");
    ChannelScoreIsShare(["w"], 0.5, k, "u");
    ChannelScoreIsShare(["w"], 0.5, k, "v");
    ChannelScoreIsShare(["w"], 0.5, k, "w");
    FirstAtOfDistinct(["u", "v"], 0);
    FirstAtOfDistinct(["u", "v"], 1);
    FirstAtOfDistinct(["w"], 0);
  }

  lemma EvictionIds()
    ensures Flatten([["u", "v"], ["w"]]) == ["u", "v", "w"] && FirstSeen(["u", "v", "w"]) == ["u", "v", "w"]
    ensures FirstAt(["u", "v", "w"], "u") == 0 && FirstAt(["u", "v", "w"], "v") == 1 &&
      FirstAt(["u", "v", "w"], "w") == 2
  {
    FlattenTwo(["u", "v"], ["w"]);
    FirstSeenOfDistinct(["u", "v", "w"]);
    FirstAtOfDistinct(["u", "v", "w"], 0);
    FirstAtOfDistinct(["u", "v", "w"], 1);
    FirstAtOfDistinct(["u", "v", "w"], 2);
  }

  lemma TwoChannelScore(a: seq<Id>, b: seq<Id>, x: real, y: real, k: nat, id: Id)
    ensures Score([a, b], [x, y], k, id) == ChannelScore(a, x, k, id) + ChannelScore(b, y, k, id)
  {
    assert [a, b][..1] == [a] && [x, y][..1] == [x] && [a][..0] == [] && [x][..0] == [];
    assert Score([a], [x], k, id) == ChannelScore(a, x, k, id);
  }

  /** Two channels of weight one half: the heads tie, ahead of the second of the first channel. */
  lemma EvictionTie(k: nat)
    ensures var h: seq<real> := [0.5, 0.5];
      Score([["u", "v"], ["w"]], h, k, "u") ==
        Score([["u", "v"], ["w"]], h, k, "w") > Score([["u", "v"], ["w"]], h, k, "v")
  {
    EvictionScores(k);
    TwoChannelScore(["u", "v"], ["w"], 0.5, 0.5, k, "u");
    TwoChannelScore(["u", "v"], ["w"], 0.5, 0.5, k, "v");
    TwoChannelScore(["u", "v"], ["w"], 0.5, 0.5, k, "w");
  }

  /** A tie of the outer two ids is ranked in first-seen order, ahead of the middle one. */
  lemma TieRanking(scores: map<Id, real>, u: Id, v: Id, w: Id)
    requires u in scores && v in scores && w in scores && scores[u] == scores[w] > scores[v]
    requires u != v && v != w && u != w
    ensures Ranking(scores, [u, v, w], [u, w, v])
  {
    FirstAtOfDistinct([u, v, w], 0);
    FirstAtOfDistinct([u, v, w], 1);
    FirstAtOfDistinct([u, v, w], 2);
  }

  lemma EvictionOrder()
    ensures FusedIds([["u", "v"], ["w"]], [1.0, 1.0], 60) == ["u", "w", "v"]
  {
    var ids: seq<seq<Id>> := [["u", "v"], ["w"]];
    var scores := ScoreMap(ids, [1.0, 1.0], 60);
    EvictionIds();
    EvictionScores(60);
    EvictionTie(60);
    TieRanking(scores, "u", "v", "w");
    FusedRanking(ids, [1.0, 1.0], 60);
    RankingUnique(scores, ["u", "v", "w"], FusedIds(ids, [1.0, 1.0], 60), ["u", "w", "v"]);
  }

  ghost predicate Named(u: View, v: View, w: View)
  {
    u.memoryId == "u" && v.memoryId == "v" && w.memoryId == "w"
  }

  lemma EvictionChannels(u: View, v: View, w: View)
    requires Named(u, v, w)
    ensures ChannelIds(VIEW_ID, [[u, v], [w]]) == [["u", "v"], ["w"]]
    ensures Flatten([[u, v], [w]]) == [u, v, w] && Keys(VIEW_ID, [u, v, w]) == ["u", "v", "w"]
  {
    assert Keys(VIEW_ID, [u, v]) == ["u", "v"] && Keys(VIEW_ID, [w]) == ["w"];
    FlattenTwo([u, v], [w]);
  }

  /** With ids that differ, the fused view at a place is the one listed under the id ranked there. */
  lemma FusedPlace(channels: seq<seq<View>>, weights: seq<real>, k: nat, ids: seq<Id>, ranked: seq<Id>, i: nat,
                   place: nat)
    requires |channels| == |weights| && ids == Keys(VIEW_ID, Flatten(channels)) && Distinct(ids)
    requires ranked == FusedIds(ChannelIds(VIEW_ID, channels), weights, k)
    requires i < |ranked| && place < |ids| && ids[place] == ranked[i]
    ensures |Fuse(VIEW_ID, channels, weights, k)| == |ranked|
    ensures Fuse(VIEW_ID, channels, weights, k)[i].0 == Flatten(channels)[place]
  {
    FusedAt(VIEW_ID, channels, weights, k, i);
    FirstAtOfDistinct(ids, place);
  }

  lemma FirstsOfThree(r: seq<(View, real)>, a: View, b: View, c: View)
    requires |r| == 3 && r[0].0 == a && r[1].0 == b && r[2].0 == c
    ensures Firsts(r) == [a, b, c]
  {
  }

  lemma EvictedViews(u: View, v: View, w: View, cfg: Settings)
    requires Named(u, v, w) && cfg == Settings(60, 1.0, 1.0, 1.0, 1.0)
    ensures FuseArms([u, v], [w], cfg) == [u, w, v]
  {
    var ids, ranked: seq<Id> := ["u", "v", "w"], ["u", "w", "v"];
    EvictionChannels(u, v, w);
    EvictionOrder();
    FusedPlace([[u, v], [w]], [1.0, 1.0], 60, ids, ranked, 0, 0);
    FusedPlace([[u, v], [w]], [1.0, 1.0], 60, ids, ranked, 1, 2);
    FusedPlace([[u, v], [w]], [1.0, 1.0], 60, ids, ranked, 2, 1);
    FirstsOfThree(Fuse(VIEW_ID, [[u, v], [w]], [1.0, 1.0], 60), u, w, v);
  }

  lemma EvictedDedup(u: View, v: View, w: View)
    requires u.contentHash != w.contentHash && w.contentHash == v.contentHash
    ensures Dedup([u, w, v]) == [u, w]
  {
    assert [u, w, v][..2] == [u, w] && [u, w][..1] == [u] && [u][..0] == [];
    assert [u, w][1].contentHash == v.contentHash;
    assert Dedup([u]) == Dedup([]) + [u] == [u];
    assert Dedup([u, w]) == Dedup([u]) + [w] == [u, w];
  }

  /** A recent floor view is dropped for a copy the shared arm ranks first, and the copy is then cut
      by the limit: its content is not returned at all. */
  lemma FloorCanBeEvicted() returns (private: seq<View>, shared: seq<View>, cfg: Settings, limit: nat)
    ensures exists v :: v in private && v.isFloor && !SeenHash(RecallItems(private, shared, cfg, limit), v.contentHash)
  {
    var u, v := View("u", "1", Stm, 1.0, true), View("v", "2", Stm, 1.0, true);
    var w := View("w", "2", Mtm, 1.0, false);
    private, shared, cfg, limit := [u, v], [w], Settings(60, 1.0, 1.0, 1.0, 1.0), 1;
    EvictedViews(u, v, w, cfg);
    EvictedDedup(u, v, w);
    assert MemoryIds([u] + [w]) == ["u", "w"];
    FloorPart([u], [w]);
    TailPart([u], [w]);
    assert [u] + [w] == [u, w];
    assert RecallItems(private, shared, cfg, limit) == [u];
    assert v in private && !SeenHash([u], "2");
  }
}
