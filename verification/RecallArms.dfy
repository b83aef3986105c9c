/** The federated read with any shared arm, stated over the two arms: exactly which floor views
    and which contents are returned. */
module RecallArms {
  import opened Common
  import opened Fusion
  import opened FusionLoop
  import opened FusionLaws
  import opened Recall
  import opened RecallFloor

  // ---- the order of the arms ---------------------------------------------------------

  /** The views of both arms, private first. */
  function Arms(private: seq<View>, shared: seq<View>): seq<View> { private + shared }

  function ArmIds(private: seq<View>, shared: seq<View>): seq<seq<Id>>
  {
    [MemoryIds(private), MemoryIds(shared)]
  }

  /** The fused score of an id follows from its ranks in the arms and the weights. */
  function ArmScores(private: seq<View>, shared: seq<View>, cfg: Settings): map<Id, real>
  {
    ScoreMap(ArmIds(private, shared), [cfg.private, cfg.shared], cfg.rrfK)
  }

  /** `a` comes before `b` in the fused list: a better score, or the same and listed first. */
  predicate Ahead(private: seq<View>, shared: seq<View>, cfg: Settings, a: View, b: View)
  {
    Outranks(ArmScores(private, shared, cfg), FirstSeen(MemoryIds(Arms(private, shared))), a.memoryId, b.memoryId)
  }

  /** `v` is the first view listed under its id. */
  predicate FirstOfId(views: seq<View>, v: View)
  {
    v.memoryId in MemoryIds(views) && views[FirstAt(MemoryIds(views), v.memoryId)] == v
  }

  /** `v` is the first of its id, and ahead of every other first of an id with the same content. */
  ghost predicate Leads(private: seq<View>, shared: seq<View>, cfg: Settings, v: View)
  {
    FirstOfId(Arms(private, shared), v) &&
    forall x :: FirstOfId(Arms(private, shared), x) && x.contentHash == v.contentHash && x != v ==>
      Ahead(private, shared, cfg, v, x)
  }

  ghost function Leaders(private: seq<View>, shared: seq<View>, cfg: Settings): set<View>
  {
    set v | v in Arms(private, shared) && Leads(private, shared, cfg, v)
  }

  // ---- ranked lists of views ---------------------------------------------------------

  /** Every view outranks the later ones. */
  ghost predicate RankedViews(score: map<Id, real>, order: seq<Id>, views: seq<View>)
  {
    forall i, j :: 0 <= i < j < |views| ==> Outranks(score, order, views[i].memoryId, views[j].memoryId)
  }

  lemma RankedApart(score: map<Id, real>, order: seq<Id>, views: seq<View>, i: nat, j: nat)
    requires RankedViews(score, order, views) && i < |views| && j < |views|
    ensures Outranks(score, order, views[i].memoryId, views[j].memoryId) <==> i < j
    ensures i != j ==> views[i].memoryId != views[j].memoryId
  {
    if i < j {
      assert Outranks(score, order, views[i].memoryId, views[j].memoryId);
    } else if j < i {
      assert Outranks(score, order, views[j].memoryId, views[i].memoryId);
    }
  }

  lemma RankedPrefix(score: map<Id, real>, order: seq<Id>, views: seq<View>, n: nat)
    requires RankedViews(score, order, views) && n <= |views|
    ensures RankedViews(score, order, views[..n])
  {
  }

  lemma RankedAppend(score: map<Id, real>, order: seq<Id>, views: seq<View>, last: View)
    requires RankedViews(score, order, views)
    requires forall v :: v in views ==> Outranks(score, order, v.memoryId, last.memoryId)
    ensures RankedViews(score, order, views + [last])
  {
  }

  lemma BeforeLast(score: map<Id, real>, order: seq<Id>, views: seq<View>, v: View)
    requires views != [] && RankedViews(score, order, views) && v in views[..|views| - 1]
    ensures Outranks(score, order, v.memoryId, views[|views| - 1].memoryId)
  {
    var i :| 0 <= i < |views| - 1 && views[i] == v;
  }

  lemma {:induction false} RankedFilter(score: map<Id, real>, order: seq<Id>, f: View -> bool, views: seq<View>)
    requires RankedViews(score, order, views)
    ensures RankedViews(score, order, Filter(f, views))
  {
    if views != [] {
      var init, last := views[..|views| - 1], views[|views| - 1];
      RankedPrefix(score, order, views, |views| - 1);
      RankedFilter(score, order, f, init);
      FilterMembers(f, init);
      forall v | v in Filter(f, init)
        ensures Outranks(score, order, v.memoryId, last.memoryId)
      {
        BeforeLast(score, order, views, v);
      }
      RankedAppend(score, order, Filter(f, init), last);
    }
  }

  lemma {:induction false} RankedDedup(score: map<Id, real>, order: seq<Id>, views: seq<View>)
    requires RankedViews(score, order, views)
    ensures RankedViews(score, order, Dedup(views))
  {
    if views != [] {
      var init, last := views[..|views| - 1], views[|views| - 1];
      RankedPrefix(score, order, views, |views| - 1);
      RankedDedup(score, order, init);
      DedupIsFilter(init);
      forall v | v in Dedup(init)
        ensures Outranks(score, order, v.memoryId, last.memoryId)
      {
        BeforeLast(score, order, views, v);
      }
      RankedAppend(score, order, Dedup(init), last);
    }
  }

  /** In a ranked list the place of a view is the number of listed views ahead of it. */
  lemma PlaceInRank(score: map<Id, real>, order: seq<Id>, views: seq<View>, i: nat, ahead: set<View>)
    requires RankedViews(score, order, views) && i < |views|
    requires forall x :: x in ahead <==> x in views && Outranks(score, order, x.memoryId, views[i].memoryId)
    ensures |ahead| == i
  {
    var before := views[..i];
    forall a, b | 0 <= a < b < i
      ensures before[a] != before[b]
    {
      RankedApart(score, order, views, a, b);
    }
    DistinctCardinality(before);
    forall x | x in ahead
      ensures x in before
    {
      var j :| 0 <= j < |views| && views[j] == x;
      RankedApart(score, order, views, j, i);
      assert before[j] == x;
    }
    forall j | 0 <= j < i
      ensures before[j] in ahead
    {
      RankedApart(score, order, views, j, i);
      assert views[j] in views;
    }
    assert ahead == Elements(before);
  }

  lemma RankedDistinct(score: map<Id, real>, order: seq<Id>, views: seq<View>)
    requires RankedViews(score, order, views)
    ensures Distinct(views) && Distinct(MemoryIds(views))
  {
    forall i, j | 0 <= i < j < |views|
      ensures views[i].memoryId != views[j].memoryId
    {
      RankedApart(score, order, views, i, j);
    }
  }

  // ---- the fused list ----------------------------------------------------------------

  lemma ArmChannels(private: seq<View>, shared: seq<View>)
    ensures ChannelIds(VIEW_ID, [private, shared]) == ArmIds(private, shared)
    ensures Flatten([private, shared]) == Arms(private, shared)
    ensures Flatten(ArmIds(private, shared)) == MemoryIds(Arms(private, shared))
  {
    FlattenTwo(private, shared);
    FlattenTwo(MemoryIds(private), MemoryIds(shared));
  }

  /** The fused list holds exactly the first view of each id, each ahead of the later ones. */
  lemma FusedArms(private: seq<View>, shared: seq<View>, cfg: Settings)
    ensures var fused := FuseArms(private, shared, cfg);
      RankedViews(ArmScores(private, shared, cfg), FirstSeen(MemoryIds(Arms(private, shared))), fused) &&
      forall v :: v in fused <==> FirstOfId(Arms(private, shared), v)
  {
    var weights := [cfg.private, cfg.shared];
    var pairs, flat := Fuse(VIEW_ID, [private, shared], weights, cfg.rrfK), Arms(private, shared);
    var fused, ids := FuseArms(private, shared, cfg), FusedIds(ArmIds(private, shared), weights, cfg.rrfK);
    ArmChannels(private, shared);
    FuseKeys(VIEW_ID, [private, shared], weights, cfg.rrfK);
    FusedRanking(ArmIds(private, shared), weights, cfg.rrfK);
    assert MemoryIds(fused) == ids;
    forall i | 0 <= i < |fused|
      ensures fused[i].memoryId == ids[i] && FirstOfId(flat, fused[i])
    {
      assert MemoryIds(fused)[i] == ids[i];
      FusedAt(VIEW_ID, [private, shared], weights, cfg.rrfK, i);
    }
    forall v | FirstOfId(flat, v)
      ensures v in fused
    {
      assert v.memoryId in ids;
      var i :| 0 <= i < |ids| && ids[i] == v.memoryId;
      assert FirstOfId(flat, fused[i]);
      assert fused[i] == v;
    }
  }

  /** Deduplication keeps exactly the leaders, in order. */
  lemma DedupedArms(private: seq<View>, shared: seq<View>, cfg: Settings)
    ensures var kept := Dedup(FuseArms(private, shared, cfg));
      RankedViews(ArmScores(private, shared, cfg), FirstSeen(MemoryIds(Arms(private, shared))), kept) &&
      HashesDiffer(kept) && forall v :: v in kept <==> Leads(private, shared, cfg, v)
  {
    var fused := FuseArms(private, shared, cfg);
    var score, order := ArmScores(private, shared, cfg), FirstSeen(MemoryIds(Arms(private, shared)));
    FusedArms(private, shared, cfg);
    RankedDedup(score, order, fused);
    DedupHashesDiffer(fused);
    forall v
      ensures v in Dedup(fused) <==> Leads(private, shared, cfg, v)
    {
      DedupKeepsFirsts(fused, v);
      if v in fused {
        var i :| 0 <= i < |fused| && fused[i] == v;
        LeadsByPlace(private, shared, cfg, i);
        forall j | 0 <= j < |fused| && fused[j] == v
          ensures j == i
        {
          RankedApart(score, order, fused, i, j);
        }
      }
    }
  }

  lemma FirstOfHashPlace(views: seq<View>, i: nat)
    requires i < |views|
    ensures FirstOfHash(views, i) <==> forall j :: 0 <= j < i ==> views[j].contentHash != views[i].contentHash
  {
    assert forall j :: 0 <= j < i ==> views[..i][j] == views[j];
  }

  lemma LeadsByPlace(private: seq<View>, shared: seq<View>, cfg: Settings, i: nat)
    requires i < |FuseArms(private, shared, cfg)|
    ensures var fused := FuseArms(private, shared, cfg);
      Leads(private, shared, cfg, fused[i]) <==> FirstOfHash(fused, i)
  {
    var fused := FuseArms(private, shared, cfg);
    var score, order := ArmScores(private, shared, cfg), FirstSeen(MemoryIds(Arms(private, shared)));
    FusedArms(private, shared, cfg);
    var v := fused[i];
    FirstOfHashPlace(fused, i);
    if FirstOfHash(fused, i) {
      forall x | FirstOfId(Arms(private, shared), x) && x.contentHash == v.contentHash && x != v
        ensures Ahead(private, shared, cfg, v, x)
      {
        var j :| 0 <= j < |fused| && fused[j] == x;
        assert j > i;
        RankedApart(score, order, fused, i, j);
      }
    } else {
      var j :| 0 <= j < i && fused[j].contentHash == v.contentHash;
      assert fused[j] in fused && FirstOfId(Arms(private, shared), fused[j]);
      RankedApart(score, order, fused, j, i);
      RankedApart(score, order, fused, i, j);
    }
  }

  // ---- which floor views are returned ------------------------------------------------

  /** A floor view of either arm is returned if and only if it is the first view listed under its id and
      every other first of an id with its content is behind it. */
  lemma FloorReturnedExactly(private: seq<View>, shared: seq<View>, cfg: Settings, limit: nat, v: View)
    requires v in Arms(private, shared) && v.isFloor
    ensures v in RecallItems(private, shared, cfg, limit) <==> Leads(private, shared, cfg, v)
  {
    DedupedArms(private, shared, cfg);
    ProtectedFloor(Dedup(FuseArms(private, shared, cfg)), limit, v);
  }

  /** A floor view of the shared arm is lost, whatever the limit and the weights, when the private arm
      lists the same id as an ordinary view. */
  lemma FloorReplacedById(cfg: Settings, limit: nat)
    ensures var v := View("a", "1", Stm, 1.0, true);
      v !in RecallItems([View("a", "1", Mtm, 1.0, false)], [v], cfg, limit)
  {
    var u, v := View("a", "1", Mtm, 1.0, false), View("a", "1", Stm, 1.0, true);
    assert Arms([u], [v])[0] == u && Arms([u], [v])[1] == v;
    assert MemoryIds(Arms([u], [v]))[0] == "a";
    FloorReturnedExactly([u], [v], cfg, limit, v);
  }

  // ---- which contents are returned ---------------------------------------------------

  /** The floor leaders, and the ordinary leaders ahead of a view. */
  ghost function FloorLeaders(private: seq<View>, shared: seq<View>, cfg: Settings): set<View>
  {
    set v | v in Leaders(private, shared, cfg) && v.isFloor
  }

  ghost function OrdinaryAhead(private: seq<View>, shared: seq<View>, cfg: Settings, v: View): set<View>
  {
    set x | x in Leaders(private, shared, cfg) && !x.isFloor && Ahead(private, shared, cfg, x, v)
  }

  /** A leader is returned when it is a floor view or finds room behind the ordinary leaders ahead. */
  ghost predicate FindsRoom(private: seq<View>, shared: seq<View>, cfg: Settings, limit: nat, v: View)
  {
    v.isFloor || |FloorLeaders(private, shared, cfg)| + |OrdinaryAhead(private, shared, cfg, v)| < limit
  }

  lemma LeadersListed(private: seq<View>, shared: seq<View>, cfg: Settings, v: View)
    ensures v in Leaders(private, shared, cfg) <==> Leads(private, shared, cfg, v)
  {
    if Leads(private, shared, cfg, v) {
      var flat := Arms(private, shared);
      assert flat[FirstAt(MemoryIds(flat), v.memoryId)] in flat;
    }
  }

  /** In a list without repeated ids, what is not among the floor is what is no floor view. */
  lemma TailIsOrdinary(views: seq<View>, v: View)
    requires Distinct(MemoryIds(views)) && v in views
    ensures v.memoryId in MemoryIds(Floor(views)) <==> v.isFloor
  {
    FilterMembers((w: View) => w.isFloor, views);
    var floor := Floor(views);
    if v.isFloor {
      var i :| 0 <= i < |floor| && floor[i] == v;
      assert MemoryIds(floor)[i] == v.memoryId;
    }
    if v.memoryId in MemoryIds(floor) {
      var i :| 0 <= i < |floor| && MemoryIds(floor)[i] == v.memoryId;
      assert floor[i] in floor;
      SameIdSameView(views, floor[i], v);
    }
  }

  lemma SameIdSameView(views: seq<View>, x: View, v: View)
    requires Distinct(MemoryIds(views)) && x in views && v in views && x.memoryId == v.memoryId
    ensures x == v
  {
    var j :| 0 <= j < |views| && views[j] == x;
    var k :| 0 <= k < |views| && views[k] == v;
    assert MemoryIds(views)[j] == MemoryIds(views)[k];
  }

  lemma FloorCount(private: seq<View>, shared: seq<View>, cfg: Settings)
    ensures |Floor(Dedup(FuseArms(private, shared, cfg)))| == |FloorLeaders(private, shared, cfg)|
  {
    var kept := Dedup(FuseArms(private, shared, cfg));
    var floor := Floor(kept);
    var score, order := ArmScores(private, shared, cfg), FirstSeen(MemoryIds(Arms(private, shared)));
    DedupedArms(private, shared, cfg);
    RankedFilter(score, order, (w: View) => w.isFloor, kept);
    RankedDistinct(score, order, floor);
    DistinctCardinality(floor);
    FilterMembers((w: View) => w.isFloor, kept);
    forall v
      ensures v in Elements(floor) <==> v in FloorLeaders(private, shared, cfg)
    {
      LeadersListed(private, shared, cfg, v);
    }
    assert Elements(floor) == FloorLeaders(private, shared, cfg);
  }

  /** The ordinary leaders, in order. */
  function Ordinary(private: seq<View>, shared: seq<View>, cfg: Settings): seq<View>
  {
    var kept := Dedup(FuseArms(private, shared, cfg));
    NotAmong(kept, Floor(kept))
  }

  lemma OrdinaryLeaders(private: seq<View>, shared: seq<View>, cfg: Settings)
    ensures var rest := Ordinary(private, shared, cfg);
      RankedViews(ArmScores(private, shared, cfg), FirstSeen(MemoryIds(Arms(private, shared))), rest) &&
      forall v :: v in rest <==> v in Leaders(private, shared, cfg) && !v.isFloor
  {
    var kept := Dedup(FuseArms(private, shared, cfg));
    var score, order := ArmScores(private, shared, cfg), FirstSeen(MemoryIds(Arms(private, shared)));
    var floorIds := MemoryIds(Floor(kept));
    DedupedArms(private, shared, cfg);
    RankedDistinct(score, order, kept);
    RankedFilter(score, order, (v: View) => v.memoryId !in floorIds, kept);
    FilterMembers((v: View) => v.memoryId !in floorIds, kept);
    forall v
      ensures v in Ordinary(private, shared, cfg) <==> v in Leaders(private, shared, cfg) && !v.isFloor
    {
      LeadersListed(private, shared, cfg, v);
      if v in kept {
        TailIsOrdinary(kept, v);
      }
    }
  }

  /** A view is returned if and only if it leads and finds room. */
  lemma ReturnedExactly(private: seq<View>, shared: seq<View>, cfg: Settings, limit: nat, v: View)
    ensures v in RecallItems(private, shared, cfg, limit) <==>
      Leads(private, shared, cfg, v) && FindsRoom(private, shared, cfg, limit, v)
  {
    var kept, rest := Dedup(FuseArms(private, shared, cfg)), Ordinary(private, shared, cfg);
    var score, order := ArmScores(private, shared, cfg), FirstSeen(MemoryIds(Arms(private, shared)));
    var floor := Floor(kept);
    var cut := SliceTo(rest, Room(limit, |floor|));
    DedupedArms(private, shared, cfg);
    FloorCount(private, shared, cfg);
    OrdinaryLeaders(private, shared, cfg);
    LeadersListed(private, shared, cfg, v);
    FilterMembers((w: View) => w.isFloor, kept);
    assert RecallItems(private, shared, cfg, limit) == floor + cut;
    if v in rest {
      var i :| 0 <= i < |rest| && rest[i] == v;
      PlaceInRank(score, order, rest, i, OrdinaryAhead(private, shared, cfg, v));
      InCut(score, order, rest, i, Room(limit, |floor|));
    } else {
      assert v in cut ==> v in rest;
    }
  }

  lemma InCut(score: map<Id, real>, order: seq<Id>, views: seq<View>, i: nat, room: nat)
    requires RankedViews(score, order, views) && i < |views|
    ensures views[i] in SliceTo(views, room) <==> i < room
  {
    var cut := SliceTo(views, room);
    if i < room {
      assert cut[i] == views[i];
    }
    forall j | 0 <= j < |cut|
      ensures cut[j] == views[i] ==> j == i
    {
      RankedApart(score, order, views, j, i);
    }
  }

  /** A content is returned if and only if its leader finds room: the leader is a floor view, or the
      ordinary leaders ahead of it do not fill what the floor leaves of the limit. */
  lemma ContentReturnedExactly(private: seq<View>, shared: seq<View>, cfg: Settings, limit: nat, hash: Id)
    ensures SeenHash(RecallItems(private, shared, cfg, limit), hash) <==>
      exists v :: v in Leaders(private, shared, cfg) && v.contentHash == hash &&
        FindsRoom(private, shared, cfg, limit, v)
  {
    var items := RecallItems(private, shared, cfg, limit);
    if SeenHash(items, hash) {
      var i :| 0 <= i < |items| && items[i].contentHash == hash;
      assert items[i] in items;
      ReturnedExactly(private, shared, cfg, limit, items[i]);
      LeadersListed(private, shared, cfg, items[i]);
    }
    if v :| v in Leaders(private, shared, cfg) && v.contentHash == hash && FindsRoom(private, shared, cfg, limit, v) {
      LeadersListed(private, shared, cfg, v);
      ReturnedExactly(private, shared, cfg, limit, v);
      var i :| 0 <= i < |items| && items[i] == v;
    }
  }

  /** `v` is the one leader of its content. */
  ghost predicate SoleLeader(private: seq<View>, shared: seq<View>, cfg: Settings, v: View)
  {
    v in Leaders(private, shared, cfg) &&
    forall x :: x in Leaders(private, shared, cfg) && x.contentHash == v.contentHash ==> x == v
  }

  lemma KeptIsSole(private: seq<View>, shared: seq<View>, cfg: Settings, v: View)
    requires v in Dedup(FuseArms(private, shared, cfg))
    ensures SoleLeader(private, shared, cfg, v)
  {
    DedupedArms(private, shared, cfg);
    LeadersListed(private, shared, cfg, v);
    forall x | x in Leaders(private, shared, cfg) && x.contentHash == v.contentHash
      ensures x == v
    {
      LeadersListed(private, shared, cfg, x);
    }
  }

  /** Every content of the first views listed under their ids has exactly one leader. */
  lemma OneLeader(private: seq<View>, shared: seq<View>, cfg: Settings, u: View)
    requires FirstOfId(Arms(private, shared), u)
    ensures exists v :: SoleLeader(private, shared, cfg, v) && v.contentHash == u.contentHash
  {
    var fused := FuseArms(private, shared, cfg);
    FusedArms(private, shared, cfg);
    var i :| 0 <= i < |fused| && fused[i] == u;
    DedupHashes(fused, u.contentHash);
    var k :| 0 <= k < |Dedup(fused)| && Dedup(fused)[k].contentHash == u.contentHash;
    KeptIsSole(private, shared, cfg, Dedup(fused)[k]);
  }
}
