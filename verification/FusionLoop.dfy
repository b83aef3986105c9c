/** The accumulating loops of rank fusion against the declared score and order. */
module FusionLoop {
  import opened Common
  import opened Fusion

  datatype FusionError = LengthMismatch

  // ---- occurrences: what the nested loops add, one at a time -------------------------

  function ChannelOcc<T>(results: seq<T>, weight: real, k: nat): (r: seq<(T, real)>)
    ensures |r| == |results|
  {
    seq(|results|, i requires 0 <= i < |results| => (results[i], Share(weight, k, i)))
  }

  function Occurrences<T>(channels: seq<seq<T>>, weights: seq<real>, k: nat): seq<(T, real)>
    requires |channels| == |weights|
  {
    if channels == [] then []
    else
      var last := |channels| - 1;
      Occurrences(channels[..last], weights[..last], k) + ChannelOcc(channels[last], weights[last], k)
  }

  function OccIds<T>(key: T -> Id, occ: seq<(T, real)>): (r: seq<Id>)
    ensures |r| == |occ| && forall i :: 0 <= i < |r| ==> r[i] == key(occ[i].0)
  {
    seq(|occ|, i requires 0 <= i < |occ| => key(occ[i].0))
  }

  function Total<T>(key: T -> Id, occ: seq<(T, real)>, id: Id): real
  {
    if occ == [] then 0.0
    else Total(key, occ[..|occ| - 1], id) + (if key(occ[|occ| - 1].0) == id then occ[|occ| - 1].1 else 0.0)
  }

  function ChannelIds<T>(key: T -> Id, channels: seq<seq<T>>): (r: seq<seq<Id>>)
    ensures |r| == |channels| && forall c :: 0 <= c < |r| ==> r[c] == Keys(key, channels[c])
  {
    seq(|channels|, c requires 0 <= c < |channels| => Keys(key, channels[c]))
  }

  lemma {:induction false} TotalAppend<T>(key: T -> Id, a: seq<(T, real)>, b: seq<(T, real)>, id: Id)
    ensures Total(key, a + b, id) == Total(key, a, id) + Total(key, b, id)
  {
    if b == [] {
      assert a + b == a;
    } else {
      assert (a + b)[..|a + b| - 1] == a + b[..|b| - 1];
      TotalAppend(key, a, b[..|b| - 1], id);
    }
  }

  lemma {:induction false} TotalOfChannel<T>(key: T -> Id, results: seq<T>, weight: real, k: nat, id: Id)
    ensures Total(key, ChannelOcc(results, weight, k), id) == ChannelScore(Keys(key, results), weight, k, id)
  {
    if results != [] {
      var last := |results| - 1;
      assert ChannelOcc(results, weight, k)[..last] == ChannelOcc(results[..last], weight, k);
      assert Keys(key, results)[..last] == Keys(key, results[..last]);
      TotalOfChannel(key, results[..last], weight, k, id);
    }
  }

  /** Adding up the occurrences is the declared score. */
  lemma {:induction false} TotalIsScore<T>(key: T -> Id, channels: seq<seq<T>>, weights: seq<real>, k: nat, id: Id)
    requires |channels| == |weights|
    ensures Total(key, Occurrences(channels, weights, k), id) == Score(ChannelIds(key, channels), weights, k, id)
  {
    if channels != [] {
      var last := |channels| - 1;
      var init := Occurrences(channels[..last], weights[..last], k);
      TotalIsScore(key, channels[..last], weights[..last], k, id);
      TotalOfChannel(key, channels[last], weights[last], k, id);
      TotalAppend(key, init, ChannelOcc(channels[last], weights[last], k), id);
      assert ChannelIds(key, channels)[..last] == ChannelIds(key, channels[..last]);
    }
  }

  lemma {:induction false} OccurrenceElements<T>(channels: seq<seq<T>>, weights: seq<real>, k: nat)
    requires |channels| == |weights|
    ensures var occ := Occurrences(channels, weights, k);
      |occ| == |Flatten(channels)| && forall i :: 0 <= i < |occ| ==> occ[i].0 == Flatten(channels)[i]
  {
    if channels != [] {
      OccurrenceElements(channels[..|channels| - 1], weights[..|channels| - 1], k);
    }
  }

  // ---- the dictionaries --------------------------------------------------------------

  ghost predicate ScoresFor<T>(key: T -> Id, occ: seq<(T, real)>, scores: map<Id, real>)
  {
    (forall id :: id in scores <==> id in OccIds(key, occ)) &&
    forall id :: id in scores ==> scores[id] == Total(key, occ, id)
  }

  ghost predicate ElementsFor<T>(key: T -> Id, occ: seq<(T, real)>, elements: map<Id, T>)
  {
    (forall id :: id in elements <==> id in OccIds(key, occ)) &&
    forall id :: id in elements ==> elements[id] == occ[FirstAt(OccIds(key, occ), id)].0
  }

  /** The dictionaries and their insertion order after the occurrences `occ`. */
  ghost predicate Accumulated<T>(key: T -> Id, occ: seq<(T, real)>, scores: map<Id, real>, elements: map<Id, T>,
                                 order: seq<Id>)
  {
    ScoresFor(key, occ, scores) && ElementsFor(key, occ, elements) && order == FirstSeen(OccIds(key, occ))
  }

  lemma {:induction false} FirstSeenShape(ids: seq<Id>)
    ensures Distinct(FirstSeen(ids)) && forall x :: x in FirstSeen(ids) <==> x in ids
  {
    if ids != [] {
      assert ids == ids[..|ids| - 1] + [ids[|ids| - 1]];
      FirstSeenShape(ids[..|ids| - 1]);
    }
  }

  lemma {:induction false} TotalAbsent<T>(key: T -> Id, occ: seq<(T, real)>, id: Id)
    requires id !in OccIds(key, occ)
    ensures Total(key, occ, id) == 0.0
  {
    if occ != [] {
      var last := |occ| - 1;
      assert OccIds(key, occ)[last] == key(occ[last].0);
      assert OccIds(key, occ) == OccIds(key, occ[..last]) + [key(occ[last].0)];
      TotalAbsent(key, occ[..last], id);
    }
  }

  lemma OccNext<T>(key: T -> Id, occ: seq<(T, real)>, e: T, amount: real)
    ensures OccIds(key, occ + [(e, amount)]) == OccIds(key, occ) + [key(e)]
    ensures forall id ::
      Total(key, occ + [(e, amount)], id) == Total(key, occ, id) + if key(e) == id then amount else 0.0
    ensures FirstSeen(OccIds(key, occ) + [key(e)]) ==
      FirstSeen(OccIds(key, occ)) + (if key(e) in OccIds(key, occ) then [] else [key(e)])
  {
    var ids, longer := OccIds(key, occ), occ + [(e, amount)];
    assert longer[..|occ|] == occ && (ids + [key(e)])[..|ids|] == ids;
  }

  lemma FirstAtNext(ids: seq<Id>, id: Id, x: Id)
    requires x in ids + [id]
    ensures FirstAt(ids + [id], x) == if x in ids then FirstAt(ids, x) else |ids|
  {
    if x in ids {
      FirstAtPrefix(ids, [id], x);
    } else {
      FirstAtSuffix(ids, [id], x);
    }
  }

  lemma ScoresNext<T>(key: T -> Id, occ: seq<(T, real)>, scores: map<Id, real>, e: T, amount: real)
    requires ScoresFor(key, occ, scores)
    ensures ScoresFor(key, occ + [(e, amount)],
      scores[key(e) := (if key(e) in scores then scores[key(e)] else 0.0) + amount])
  {
    OccNext(key, occ, e, amount);
    if key(e) !in scores {
      TotalAbsent(key, occ, key(e));
    }
  }

  lemma ElementsNext<T>(key: T -> Id, occ: seq<(T, real)>, elements: map<Id, T>, e: T, amount: real)
    requires ElementsFor(key, occ, elements)
    ensures ElementsFor(key, occ + [(e, amount)], if key(e) in elements then elements else elements[key(e) := e])
  {
    OccNext(key, occ, e, amount);
    var ids, longer := OccIds(key, occ), occ + [(e, amount)];
    var elements' := if key(e) in elements then elements else elements[key(e) := e];
    forall x | x in elements'
      ensures elements'[x] == longer[FirstAt(OccIds(key, longer), x)].0
    {
      FirstAtNext(ids, key(e), x);
    }
  }

  // ---- the fused list ----------------------------------------------------------------

  function ScoreMap(ids: seq<seq<Id>>, weights: seq<real>, k: nat): map<Id, real>
    requires |ids| == |weights|
  {
    map id | id in Flatten(ids) :: Score(ids, Normalised(weights), k, id)
  }

  /** Ids ranked by score, ties in first-seen order. */
  function FusedIds(ids: seq<seq<Id>>, weights: seq<real>, k: nat): (r: seq<Id>)
    requires |ids| == |weights|
    ensures forall x :: x in r <==> x in Flatten(ids)
  {
    FirstSeenShape(Flatten(ids));
    SortBy(ScoreMap(ids, weights, k), FirstSeen(Flatten(ids)))
  }

  lemma {:induction false} FlattenKeys<T>(key: T -> Id, channels: seq<seq<T>>)
    ensures Flatten(ChannelIds(key, channels)) == Keys(key, Flatten(channels))
  {
    if channels != [] {
      var last := |channels| - 1;
      FlattenKeys(key, channels[..last]);
      assert ChannelIds(key, channels)[..last] == ChannelIds(key, channels[..last]);
    }
  }

  /** Ranked ids with the element first seen under each, and its score. */
  function Fuse<T>(key: T -> Id, channels: seq<seq<T>>, weights: seq<real>, k: nat): (r: seq<(T, real)>)
    requires |channels| == |weights|
    ensures |r| == |FusedIds(ChannelIds(key, channels), weights, k)|
  {
    FlattenKeys(key, channels);
    var flat, ids := Flatten(channels), ChannelIds(key, channels);
    var ranked, scores := FusedIds(ids, weights, k), ScoreMap(ids, weights, k);
    seq(|ranked|, i requires 0 <= i < |ranked| =>
      assert ranked[i] in ranked;
      (flat[FirstAt(Keys(key, flat), ranked[i])], scores[ranked[i]]))
  }

  function Firsts<T>(r: seq<(T, real)>): (s: seq<T>)
    ensures |s| == |r| && forall i :: 0 <= i < |s| ==> s[i] == r[i].0
  {
    seq(|r|, i requires 0 <= i < |r| => r[i].0)
  }

  lemma FlattenTwo<T>(a: seq<T>, b: seq<T>)
    ensures Flatten([a, b]) == a + b
  {
    assert [a, b][..1] == [a] && [a][..0] == [];
    assert Flatten([a]) == Flatten<T>([]) + a == a;
  }

  /** The `i`-th fused element is the first seen under the `i`-th ranked id. */
  lemma FusedAt<T>(key: T -> Id, channels: seq<seq<T>>, weights: seq<real>, k: nat, i: nat)
    requires |channels| == |weights| && i < |Fuse(key, channels, weights, k)|
    ensures var flat, id := Flatten(channels), FusedIds(ChannelIds(key, channels), weights, k)[i];
      id in Keys(key, flat) && Fuse(key, channels, weights, k)[i].0 == flat[FirstAt(Keys(key, flat), id)]
  {
    FlattenKeys(key, channels);
    assert FusedIds(ChannelIds(key, channels), weights, k)[i] in FusedIds(ChannelIds(key, channels), weights, k);
  }

  /** The fused ids are the union, each once, best score first and ties in first-seen order. */
  lemma {:induction false} FusedRanking(ids: seq<seq<Id>>, weights: seq<real>, k: nat)
    requires |ids| == |weights|
    ensures Ranking(ScoreMap(ids, weights, k), FirstSeen(Flatten(ids)), FusedIds(ids, weights, k))
  {
    FirstSeenShape(Flatten(ids));
    SortIsRanking(ScoreMap(ids, weights, k), FirstSeen(Flatten(ids)));
  }

  /** One inner iteration: both dictionaries take one element. */
  method AddElement<T>(key: T -> Id, ghost occ: seq<(T, real)>, scores: map<Id, real>, elements: map<Id, T>,
                       order: seq<Id>, e: T, amount: real)
    returns (scores': map<Id, real>, elements': map<Id, T>, order': seq<Id>)
    requires Accumulated(key, occ, scores, elements, order)
    ensures Accumulated(key, occ + [(e, amount)], scores', elements', order')
  {
    OccNext(key, occ, e, amount);
    ScoresNext(key, occ, scores, e, amount);
    ElementsNext(key, occ, elements, e, amount);
    var id := key(e);
    order' := if id in scores then order else order + [id];
    scores' := scores[id := (if id in scores then scores[id] else 0.0) + amount];
    elements' := if id in elements then elements else elements[id := e];
  }

  /** One channel, rank by rank. */
  method AddChannel<T>(key: T -> Id, ghost occ: seq<(T, real)>, scores: map<Id, real>, elements: map<Id, T>,
                       order: seq<Id>, results: seq<T>, weight: real, k: nat)
    returns (scores': map<Id, real>, elements': map<Id, T>, order': seq<Id>)
    requires Accumulated(key, occ, scores, elements, order)
    ensures Accumulated(key, occ + ChannelOcc(results, weight, k), scores', elements', order')
  {
    scores', elements', order' := scores, elements, order;
    ghost var seen := occ;
    for rank := 0 to |results|
      invariant seen == occ + ChannelOcc(results, weight, k)[..rank]
      invariant Accumulated(key, seen, scores', elements', order')
    {
      var amount := Share(weight, k, rank);
      scores', elements', order' := AddElement(key, seen, scores', elements', order', results[rank], amount);
      TakeNext(ChannelOcc(results, weight, k), rank);
      seen := seen + [(results[rank], amount)];
    }
    assert ChannelOcc(results, weight, k)[..|results|] == ChannelOcc(results, weight, k);
  }

  /** The nested loops over channels and ranks, accumulating in two dictionaries, then a stable sort. */
  method ReciprocalRankFusion<T>(channels: seq<seq<T>>, key: T -> Id, weights: seq<real>, k: nat)
    returns (r: Result<seq<(T, real)>, FusionError>)
    ensures r.Err? <==> |channels| != |weights|
    ensures r.Ok? ==> r.value == Fuse(key, channels, weights, k)
  {
    if |channels| != |weights| {
      return Err(LengthMismatch);
    }
    var normalized := Normalised(weights);
    var scores: map<Id, real>, elements: map<Id, T>, order: seq<Id> := map[], map[], [];
    for c := 0 to |channels|
      invariant Accumulated(key, Occurrences(channels[..c], normalized[..c], k), scores, elements, order)
    {
      ghost var occ := Occurrences(channels[..c], normalized[..c], k);
      OccurrencesNext(channels, normalized, k, c);
      scores, elements, order := AddChannel(key, occ, scores, elements, order, channels[c], normalized[c], k);
    }
    assert channels[..|channels|] == channels && normalized[..|channels|] == normalized;
    ListingIsFuse(key, channels, weights, k, scores, elements, order);
    r := Ok(Listing(SortBy(scores, order), elements, scores));
  }

  function Listing<T>(ranked: seq<Id>, elements: map<Id, T>, scores: map<Id, real>): seq<(T, real)>
    requires forall id :: id in ranked ==> id in elements && id in scores
  {
    seq(|ranked|, i requires 0 <= i < |ranked| => assert ranked[i] in ranked; (elements[ranked[i]], scores[ranked[i]]))
  }

  lemma ListingIsFuse<T>(key: T -> Id, channels: seq<seq<T>>, weights: seq<real>, k: nat,
                         scores: map<Id, real>, elements: map<Id, T>, order: seq<Id>)
    requires |channels| == |weights|
    requires Accumulated(key, Occurrences(channels, Normalised(weights), k), scores, elements, order)
    ensures forall id :: id in order ==> id in scores && id in elements
    ensures Listing(SortBy(scores, order), elements, scores) == Fuse(key, channels, weights, k)
  {
    AccumulatedScores(key, channels, weights, k, scores, elements, order);
    AccumulatedElements(key, channels, weights, k, scores, elements, order);
    var ranked := SortBy(scores, order);
    forall i | 0 <= i < |ranked|
      ensures ranked[i] in scores
    {
      assert ranked[i] in ranked;
    }
  }

  lemma OccurrencesNext<T>(channels: seq<seq<T>>, weights: seq<real>, k: nat, c: nat)
    requires |channels| == |weights| && c < |channels|
    ensures Occurrences(channels[..c + 1], weights[..c + 1], k) ==
      Occurrences(channels[..c], weights[..c], k) + ChannelOcc(channels[c], weights[c], k)
  {
    assert channels[..c + 1][..c] == channels[..c] && weights[..c + 1][..c] == weights[..c];
  }

  lemma OccurrenceIds<T>(key: T -> Id, channels: seq<seq<T>>, weights: seq<real>, k: nat)
    requires |channels| == |weights|
    ensures OccIds(key, Occurrences(channels, weights, k)) == Keys(key, Flatten(channels)) ==
      Flatten(ChannelIds(key, channels))
  {
    OccurrenceElements(channels, weights, k);
    FlattenKeys(key, channels);
  }

  /** The accumulated scores are the declared ones, in first-seen order. */
  lemma AccumulatedScores<T>(key: T -> Id, channels: seq<seq<T>>, weights: seq<real>, k: nat,
                             scores: map<Id, real>, elements: map<Id, T>, order: seq<Id>)
    requires |channels| == |weights|
    requires Accumulated(key, Occurrences(channels, Normalised(weights), k), scores, elements, order)
    ensures scores == ScoreMap(ChannelIds(key, channels), weights, k)
    ensures order == FirstSeen(Flatten(ChannelIds(key, channels)))
    ensures forall id :: id in order ==> id in scores && id in elements
  {
    OccurrenceIds(key, channels, Normalised(weights), k);
    FirstSeenShape(Flatten(ChannelIds(key, channels)));
    forall id | id in scores
      ensures scores[id] == Score(ChannelIds(key, channels), Normalised(weights), k, id)
    {
      TotalIsScore(key, channels, Normalised(weights), k, id);
    }
  }

  /** The accumulated elements are the first seen under their ids. */
  lemma AccumulatedElements<T>(key: T -> Id, channels: seq<seq<T>>, weights: seq<real>, k: nat,
                               scores: map<Id, real>, elements: map<Id, T>, order: seq<Id>)
    requires |channels| == |weights|
    requires Accumulated(key, Occurrences(channels, Normalised(weights), k), scores, elements, order)
    ensures forall id :: id in elements ==> id in Keys(key, Flatten(channels))
    ensures forall id :: id in elements ==> elements[id] == Flatten(channels)[FirstAt(Keys(key, Flatten(channels)), id)]
  {
    OccurrenceElements(channels, Normalised(weights), k);
    OccurrenceIds(key, channels, Normalised(weights), k);
  }
}
