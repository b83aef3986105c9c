/** What rank fusion promises over channels without duplicates: a bound on every score, and
    dominance of an element that every channel ranks ahead. */
module FusionLaws {
  import opened Common
  import opened Fusion
  import opened FusionLoop

  ghost predicate NonNegative(ws: seq<real>) { forall i :: 0 <= i < |ws| ==> ws[i] >= 0.0 }

  ghost predicate DuplicateFree(ids: seq<seq<Id>>) { forall c :: 0 <= c < |ids| ==> Distinct(ids[c]) }

  // ---- the score of a duplicate-free channel is one share ----------------------------

  function OneShare(ids: seq<Id>, weight: real, k: nat, id: Id): real
  {
    if id in ids then Share(weight, k, FirstAt(ids, id)) else 0.0
  }

  lemma {:induction false} ChannelScoreIsShare(ids: seq<Id>, weight: real, k: nat, id: Id)
    requires Distinct(ids)
    ensures ChannelScore(ids, weight, k, id) == OneShare(ids, weight, k, id)
  {
    if ids != [] {
      var last := |ids| - 1;
      var init := ids[..last];
      assert ids == init + [ids[last]];
      ChannelScoreIsShare(init, weight, k, id);
      if id in init {
        FirstAtPrefix(init, [ids[last]], id);
        var i :| 0 <= i < last && ids[i] == id;
        assert ids[last] != id;
      } else if id == ids[last] {
        FirstAtSuffix(init, [id], id);
      }
    }
  }

  lemma ShareAntitone(weight: real, k: nat, r: nat, r': nat)
    requires weight >= 0.0 && r <= r'
    ensures 0.0 <= Share(weight, k, r') <= Share(weight, k, r)
  {
    var a, b := (k + r + 1) as real, (k + r' + 1) as real;
    ReciprocalAntitone(a, b);
    ProductMonotone(weight, 1.0 / b, 1.0 / a);
  }

  lemma ReciprocalAntitone(a: real, b: real)
    requires 0.0 < a <= b
    ensures 0.0 < 1.0 / b <= 1.0 / a
  {
    var x, y := 1.0 / a, 1.0 / b;
    assert x * a == 1.0 && y * b == 1.0;
    ProductMonotone(x, a, b);
    if y > x {
      ProductStrict(b, x, y);
    }
  }

  lemma ProductMonotone(w: real, x: real, y: real)
    requires w >= 0.0 && 0.0 <= x <= y
    ensures 0.0 <= w * x <= w * y
  {
  }

  lemma ProductStrict(w: real, x: real, y: real)
    requires w > 0.0 && x < y
    ensures w * x < w * y
  {
  }

  // ---- weights -----------------------------------------------------------------------

  lemma {:induction false} SumNonNegative(ws: seq<real>)
    requires NonNegative(ws)
    ensures Sum(ws) >= 0.0
  {
    if ws != [] {
      SumNonNegative(ws[..|ws| - 1]);
    }
  }

  lemma NormalisedNonNegative(ws: seq<real>)
    requires NonNegative(ws)
    ensures NonNegative(Normalised(ws))
  {
    var total := Sum(ws);
    forall i | 0 <= i < |ws|
      ensures Normalised(ws)[i] >= 0.0
    {
      if total > 0.0 {
        QuotientNonNegative(ws[i], total);
      }
    }
  }

  lemma QuotientNonNegative(x: real, t: real)
    requires x >= 0.0 && t > 0.0
    ensures x / t >= 0.0
  {
  }

  lemma {:induction false} SumScaled(ws: seq<real>, t: real, scaled: seq<real>)
    requires t > 0.0 && |scaled| == |ws| && forall i :: 0 <= i < |ws| ==> scaled[i] == ws[i] / t
    ensures Sum(scaled) == Sum(ws) / t
  {
    if ws != [] {
      SumScaled(ws[..|ws| - 1], t, scaled[..|ws| - 1]);
    }
  }

  /** Normalised weights add up to one, or are all zero. */
  lemma NormalisedSum(ws: seq<real>)
    requires NonNegative(ws)
    ensures Sum(Normalised(ws)) <= 1.0
  {
    if Sum(ws) > 0.0 {
      SumScaled(ws, Sum(ws), Normalised(ws));
    } else {
      SumOfZeros(Normalised(ws));
    }
  }

  lemma {:induction false} SumOfZeros(ws: seq<real>)
    requires forall i :: 0 <= i < |ws| ==> ws[i] == 0.0
    ensures Sum(ws) == 0.0
  {
    if ws != [] {
      SumOfZeros(ws[..|ws| - 1]);
    }
  }

  // ---- the bound ---------------------------------------------------------------------

  lemma {:induction false} ScoreAtMostSum(ids: seq<seq<Id>>, weights: seq<real>, k: nat, id: Id)
    requires |ids| == |weights| && DuplicateFree(ids) && NonNegative(weights)
    ensures 0.0 <= Score(ids, weights, k, id) <= Share(Sum(weights), k, 0)
  {
    if ids != [] {
      var last := |ids| - 1;
      ScoreAtMostSum(ids[..last], weights[..last], k, id);
      ChannelScoreIsShare(ids[last], weights[last], k, id);
      ShareAntitone(weights[last], k, 0, if id in ids[last] then FirstAt(ids[last], id) else 0);
      ShareAdds(Sum(weights[..last]), weights[last], k);
    }
  }

  lemma ShareAdds(a: real, b: real, k: nat)
    ensures Share(a + b, k, 0) == Share(a, k, 0) + Share(b, k, 0)
  {
  }

  /** Over duplicate-free channels with non-negative weights no fused score exceeds 1 / (k + 1). */
  lemma {:induction false} ScoreBound(ids: seq<seq<Id>>, weights: seq<real>, k: nat, id: Id)
    requires |ids| == |weights| && DuplicateFree(ids) && NonNegative(weights) && id in Flatten(ids)
    ensures 0.0 <= ScoreMap(ids, weights, k)[id] <= 1.0 / ((k + 1) as real)
  {
    var normalised := Normalised(weights);
    NormalisedNonNegative(weights);
    ScoreAtMostSum(ids, normalised, k, id);
    NormalisedSum(weights);
    SumNonNegative(normalised);
    var r := 1.0 / ((k + 1) as real);
    ReciprocalAntitone((k + 1) as real, (k + 1) as real);
    ProductMonotone(r, Sum(normalised), 1.0);
  }

  // ---- the score by ranks ------------------------------------------------------------

  /** What a channel of weight `w` among weights of total `total` is worth to an id: for each place that lists
      it, the channel's part of the total divided by k plus the place plus one; nothing when the total is not
      positive. */
  function Worth(ids: seq<Id>, w: real, total: real, k: nat, id: Id): real
  {
    if ids == [] || total <= 0.0 then 0.0
    else
      var last := |ids| - 1;
      Worth(ids[..last], w, total, k, id) + if ids[last] == id then (w / total) / ((k + last + 1) as real) else 0.0
  }

  function Worths(ids: seq<seq<Id>>, ws: seq<real>, total: real, k: nat, id: Id): real
    requires |ids| == |ws|
  {
    if ids == [] then 0.0
    else
      var last := |ids| - 1;
      Worths(ids[..last], ws[..last], total, k, id) + Worth(ids[last], ws[last], total, k, id)
  }

  lemma {:induction false} ShareIsWorth(ids: seq<Id>, w: real, total: real, k: nat, id: Id)
    ensures ChannelScore(ids, if total > 0.0 then w / total else 0.0, k, id) == Worth(ids, w, total, k, id)
  {
    if ids != [] {
      var last := |ids| - 1;
      var share := if total > 0.0 then w / total else 0.0;
      ShareIsWorth(ids[..last], w, total, k, id);
      Reciprocal(share, (k + last + 1) as real);
      assert total <= 0.0 ==> share * (1.0 / ((k + last + 1) as real)) == 0.0;
    }
  }

  lemma Reciprocal(x: real, d: real)
    requires d > 0.0
    ensures x * (1.0 / d) == x / d
  {
  }

  lemma {:induction false} ScoreIsWorths(ids: seq<seq<Id>>, ws: seq<real>, shares: seq<real>, total: real, k: nat,
                                         id: Id)
    requires |ids| == |ws| == |shares|
    requires forall c :: 0 <= c < |ws| ==> shares[c] == if total > 0.0 then ws[c] / total else 0.0
    ensures Score(ids, shares, k, id) == Worths(ids, ws, total, k, id)
  {
    if ids != [] {
      var last := |ids| - 1;
      ScoreIsWorths(ids[..last], ws[..last], shares[..last], total, k, id);
      ShareIsWorth(ids[last], ws[last], total, k, id);
    }
  }

  /** The score of an id is the sum, over the places that list it, of the channel's part of the total weight
      divided by k plus the place plus one. */
  lemma ScoreByRanks(ids: seq<seq<Id>>, weights: seq<real>, k: nat, id: Id)
    requires |ids| == |weights| && id in Flatten(ids)
    ensures ScoreMap(ids, weights, k)[id] == Worths(ids, weights, Sum(weights), k, id)
  {
    ScoreIsWorths(ids, weights, Normalised(weights), Sum(weights), k, id);
  }

  /** Every fused element comes with the score of its own id, and the scores never increase along the list. */
  lemma FusedScores<T>(key: T -> Id, channels: seq<seq<T>>, weights: seq<real>, k: nat, i: nat)
    requires |channels| == |weights| && i < |Fuse(key, channels, weights, k)|
    ensures var fused := Fuse(key, channels, weights, k);
      fused[i].1 == Worths(ChannelIds(key, channels), weights, Sum(weights), k, key(fused[i].0)) &&
      (i > 0 ==> fused[i - 1].1 >= fused[i].1)
  {
    var ids := ChannelIds(key, channels);
    var ranked := FusedIds(ids, weights, k);
    FusedAt(key, channels, weights, k, i);
    FlattenKeys(key, channels);
    assert key(Fuse(key, channels, weights, k)[i].0) == ranked[i];
    assert ranked[i] in Flatten(ids);
    ScoreByRanks(ids, weights, k, ranked[i]);
    FusedRanking(ids, weights, k);
    assert i > 0 ==> Outranks(ScoreMap(ids, weights, k), FirstSeen(Flatten(ids)), ranked[i - 1], ranked[i]);
  }

  // ---- dominance ---------------------------------------------------------------------

  /** `a` stands before `b` in every channel that holds `b`. */
  ghost predicate AheadEverywhere(ids: seq<seq<Id>>, a: Id, b: Id)
  {
    forall c :: 0 <= c < |ids| && b in ids[c] ==> a in ids[c] && FirstAt(ids[c], a) < FirstAt(ids[c], b)
  }

  lemma {:induction false} ScoreDominates(ids: seq<seq<Id>>, weights: seq<real>, k: nat, a: Id, b: Id)
    requires |ids| == |weights| && DuplicateFree(ids) && NonNegative(weights) && AheadEverywhere(ids, a, b)
    ensures Score(ids, weights, k, a) >= Score(ids, weights, k, b)
  {
    if ids != [] {
      var last := |ids| - 1;
      ScoreDominates(ids[..last], weights[..last], k, a, b);
      ChannelScoreIsShare(ids[last], weights[last], k, a);
      ChannelScoreIsShare(ids[last], weights[last], k, b);
      if b in ids[last] {
        ShareAntitone(weights[last], k, FirstAt(ids[last], a), FirstAt(ids[last], b));
      } else if a in ids[last] {
        ShareAntitone(weights[last], k, FirstAt(ids[last], a), FirstAt(ids[last], a));
      }
    }
  }

  lemma {:induction false} SeenEarlier(ids: seq<seq<Id>>, a: Id, b: Id)
    requires AheadEverywhere(ids, a, b) && b in Flatten(ids)
    ensures a in Flatten(ids) && FirstAt(Flatten(ids), a) < FirstAt(Flatten(ids), b)
  {
    if ids != [] {
      var last := |ids| - 1;
      var init, tail := Flatten(ids[..last]), ids[last];
      if b in init {
        SeenEarlier(ids[..last], a, b);
        FirstAtPrefix(init, tail, a);
        FirstAtPrefix(init, tail, b);
      } else {
        assert b in tail && a in tail;
        FirstAtSuffix(init, tail, b);
        if a in init {
          FirstAtPrefix(init, tail, a);
        } else {
          FirstAtSuffix(init, tail, a);
        }
      }
    }
  }

  lemma {:induction false} FirstSeenKeepsOrder(ids: seq<Id>, a: Id, b: Id)
    requires a in ids && b in ids && FirstAt(ids, a) < FirstAt(ids, b)
    ensures a in FirstSeen(ids) && b in FirstSeen(ids) && FirstAt(FirstSeen(ids), a) < FirstAt(FirstSeen(ids), b)
  {
    var init, last := ids[..|ids| - 1], ids[|ids| - 1];
    assert ids == init + [last];
    FirstSeenShape(init);
    if b in init {
      FirstAtPrefix(init, [last], b);
      assert a in init by {
        assert ids[FirstAt(ids, a)] == init[FirstAt(ids, a)];
      }
      FirstAtPrefix(init, [last], a);
      FirstSeenKeepsOrder(init, a, b);
      if last !in init {
        FirstAtPrefix(FirstSeen(init), [last], a);
        FirstAtPrefix(FirstSeen(init), [last], b);
      }
    } else {
      FirstAtSuffix(init, [last], b);
      assert a in init by {
        assert ids[FirstAt(ids, a)] == init[FirstAt(ids, a)];
      }
      FirstAtPrefix(FirstSeen(init), [last], a);
      FirstAtSuffix(FirstSeen(init), [last], b);
    }
  }

  lemma DominatorOutranks(ids: seq<seq<Id>>, weights: seq<real>, k: nat, a: Id, b: Id)
    requires |ids| == |weights| && DuplicateFree(ids) && NonNegative(weights)
    requires AheadEverywhere(ids, a, b) && b in Flatten(ids)
    ensures Outranks(ScoreMap(ids, weights, k), FirstSeen(Flatten(ids)), a, b)
  {
    NormalisedNonNegative(weights);
    ScoreDominates(ids, Normalised(weights), k, a, b);
    SeenEarlier(ids, a, b);
    FirstSeenKeepsOrder(Flatten(ids), a, b);
  }

  lemma RankedBefore(score: map<Id, real>, order: seq<Id>, r: seq<Id>, a: Id, b: Id)
    requires Ranking(score, order, r) && a in r && b in r && FirstAt(r, a) < FirstAt(r, b)
    ensures Outranks(score, order, a, b)
  {
    assert r[FirstAt(r, a)] == a && r[FirstAt(r, b)] == b;
  }

  /** Fusion respects dominance, ties and all-zero weights included. */
  lemma Dominance(ids: seq<seq<Id>>, weights: seq<real>, k: nat, a: Id, b: Id)
    requires |ids| == |weights| && DuplicateFree(ids) && NonNegative(weights)
    requires AheadEverywhere(ids, a, b) && b in Flatten(ids)
    ensures var r := FusedIds(ids, weights, k); a in r && b in r && FirstAt(r, a) < FirstAt(r, b)
  {
    var r := FusedIds(ids, weights, k);
    SeenEarlier(ids, a, b);
    FusedRanking(ids, weights, k);
    DominatorOutranks(ids, weights, k, a, b);
    if FirstAt(r, b) < FirstAt(r, a) {
      RankedBefore(ScoreMap(ids, weights, k), FirstSeen(Flatten(ids)), r, b, a);
    }
  }
}
