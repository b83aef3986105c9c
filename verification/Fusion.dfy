/** Weighted reciprocal rank fusion, declared: the score of an id, first-seen order, and the
    one ranking by score that keeps it. */
module Fusion {
  import opened Common

  type Id = string

  // ---- the score, declared -----------------------------------------------------------

  function Sum(ws: seq<real>): real
  {
    if ws == [] then 0.0 else Sum(ws[..|ws| - 1]) + ws[|ws| - 1]
  }

  /** Weights divided by their total; all zero when the total is not positive. */
  function Normalised(ws: seq<real>): (r: seq<real>)
    ensures |r| == |ws|
  {
    var total := Sum(ws);
    seq(|ws|, i requires 0 <= i < |ws| => if total > 0.0 then ws[i] / total else 0.0)
  }

  function Share(weight: real, k: nat, rank: nat): real { weight * (1.0 / ((k + rank + 1) as real)) }

  /** What one channel adds to the score of `id`. */
  function ChannelScore(ids: seq<Id>, weight: real, k: nat, id: Id): real
  {
    if ids == [] then 0.0
    else
      var last := |ids| - 1;
      ChannelScore(ids[..last], weight, k, id) + (if ids[last] == id then Share(weight, k, last) else 0.0)
  }

  function Score(channels: seq<seq<Id>>, weights: seq<real>, k: nat, id: Id): real
    requires |channels| == |weights|
  {
    if channels == [] then 0.0
    else
      var last := |channels| - 1;
      Score(channels[..last], weights[..last], k, id) + ChannelScore(channels[last], weights[last], k, id)
  }

  // ---- first-seen order --------------------------------------------------------------

  /** Every occurrence, channel by channel. */
  function Flatten<T>(channels: seq<seq<T>>): seq<T>
  {
    if channels == [] then [] else Flatten(channels[..|channels| - 1]) + channels[|channels| - 1]
  }

  function Keys<T>(key: T -> Id, s: seq<T>): (r: seq<Id>)
    ensures |r| == |s| && forall i :: 0 <= i < |s| ==> r[i] == key(s[i])
  {
    seq(|s|, i requires 0 <= i < |s| => key(s[i]))
  }

  /** Each id once, in the order of its first occurrence. */
  function FirstSeen(ids: seq<Id>): seq<Id>
  {
    if ids == [] then []
    else
      var init := FirstSeen(ids[..|ids| - 1]);
      if ids[|ids| - 1] in ids[..|ids| - 1] then init else init + [ids[|ids| - 1]]
  }

  /** Place of the first occurrence. */
  function FirstAt(ids: seq<Id>, id: Id): (i: nat)
    requires id in ids
    ensures i < |ids| && ids[i] == id && id !in ids[..i]
  {
    if ids[0] == id then 0
    else
      assert ids == [ids[0]] + ids[1..];
      var i := 1 + FirstAt(ids[1..], id);
      assert ids[..i] == [ids[0]] + ids[1..][..i - 1];
      i
  }

  // ---- the stable descending sort ----------------------------------------------------

  function InsertBy(score: map<Id, real>, s: seq<Id>, id: Id): seq<Id>
    requires id in score && forall x :: x in s ==> x in score
  {
    if s == [] then [id]
    else if score[s[|s| - 1]] >= score[id] then s + [id]
    else InsertBy(score, s[..|s| - 1], id) + [s[|s| - 1]]
  }

  function SortBy(score: map<Id, real>, s: seq<Id>): (r: seq<Id>)
    requires forall x :: x in s ==> x in score
    ensures forall x :: x in r <==> x in s
  {
    if s == [] then []
    else
      var init := SortBy(score, s[..|s| - 1]);
      InsertByMembers(score, init, s[|s| - 1]);
      assert s == s[..|s| - 1] + [s[|s| - 1]];
      InsertBy(score, init, s[|s| - 1])
  }

  lemma {:induction false} InsertByMembers(score: map<Id, real>, s: seq<Id>, id: Id)
    requires id in score && forall x :: x in s ==> x in score
    ensures forall x :: x in InsertBy(score, s, id) <==> x in s || x == id
  {
    if s != [] {
      assert s == s[..|s| - 1] + [s[|s| - 1]];
      InsertByMembers(score, s[..|s| - 1], id);
    }
  }

  /** `a` comes before `b` in the ranking of `order` by score. */
  predicate Outranks(score: map<Id, real>, order: seq<Id>, a: Id, b: Id)
  {
    a in score && b in score && a in order && b in order &&
    (score[a] > score[b] || (score[a] == score[b] && FirstAt(order, a) < FirstAt(order, b)))
  }

  /** `r` is the ranking of the distinct ids `order`: best score first, ties in the given order. */
  ghost predicate Ranking(score: map<Id, real>, order: seq<Id>, r: seq<Id>)
  {
    (forall x :: x in r <==> x in order) &&
    forall i, j :: 0 <= i < j < |r| ==> Outranks(score, order, r[i], r[j])
  }

  /** Each listed id outranks the later ones. */
  ghost predicate Descending(score: map<Id, real>, order: seq<Id>, r: seq<Id>)
  {
    forall i, j :: 0 <= i < j < |r| ==> Outranks(score, order, r[i], r[j])
  }

  lemma {:induction false} InsertByRanks(score: map<Id, real>, order: seq<Id>, s: seq<Id>, id: Id)
    requires id in score && id in order && Descending(score, order, s)
    requires forall x :: x in s ==> x in score && x in order && FirstAt(order, x) < FirstAt(order, id)
    ensures Descending(score, order, InsertBy(score, s, id))
  {
    if s != [] {
      var init, last := s[..|s| - 1], s[|s| - 1];
      assert s == init + [last];
      if score[last] >= score[id] {
        forall i | 0 <= i < |s|
          ensures Outranks(score, order, s[i], id)
        {
          assert i < |s| - 1 ==> Outranks(score, order, s[i], last);
        }
      } else {
        InsertByRanks(score, order, init, id);
        InsertByMembers(score, init, id);
        var r := InsertBy(score, init, id);
        forall i | 0 <= i < |r|
          ensures Outranks(score, order, r[i], last)
        {
          assert r[i] in r;
          if r[i] != id {
            var j :| 0 <= j < |init| && init[j] == r[i];
            assert Outranks(score, order, s[j], s[|s| - 1]);
          }
        }
      }
    }
  }

  lemma {:induction false} FirstAtPrefix(s: seq<Id>, t: seq<Id>, id: Id)
    requires id in s
    ensures FirstAt(s + t, id) == FirstAt(s, id)
  {
    if s[0] != id {
      assert (s + t)[1..] == s[1..] + t;
      assert s == [s[0]] + s[1..];
      FirstAtPrefix(s[1..], t, id);
    }
  }

  lemma {:induction false} FirstAtSuffix(s: seq<Id>, t: seq<Id>, id: Id)
    requires id !in s && id in t
    ensures FirstAt(s + t, id) == |s| + FirstAt(t, id)
  {
    if s == [] {
      assert s + t == t;
    } else {
      assert (s + t)[1..] == s[1..] + t;
      FirstAtSuffix(s[1..], t, id);
    }
  }

  lemma {:induction false} SortByRanks(score: map<Id, real>, order: seq<Id>, n: nat)
    requires n <= |order| && Distinct(order) && forall x :: x in order ==> x in score
    ensures Descending(score, order, SortBy(score, order[..n]))
  {
    if n > 0 {
      SortByRanks(score, order, n - 1);
      var s := SortBy(score, order[..n - 1]);
      var id := order[n - 1];
      assert order[..n][..n - 1] == order[..n - 1];
      forall x | x in s
        ensures x in score && x in order && FirstAt(order, x) < FirstAt(order, id)
      {
        assert x in order[..n - 1];
        var i :| 0 <= i < n - 1 && order[i] == x;
        assert order[FirstAt(order, x)] == order[i];
        assert order[FirstAt(order, id)] == order[n - 1];
      }
      InsertByRanks(score, order, s, id);
    }
  }

  lemma SortIsRanking(score: map<Id, real>, order: seq<Id>)
    requires Distinct(order) && forall x :: x in order ==> x in score
    ensures Ranking(score, order, SortBy(score, order))
  {
    SortByRanks(score, order, |order|);
    assert order[..|order|] == order;
  }

  // ---- a ranking is unique -----------------------------------------------------------

  /** After a common prefix, the next of one ranking is the next of the other or outranks it. */
  lemma NextOutranks(score: map<Id, real>, order: seq<Id>, r: seq<Id>, r': seq<Id>, n: nat)
    requires Ranking(score, order, r) && Ranking(score, order, r') && n < |r| && n < |r'| && r[..n] == r'[..n]
    ensures r[n] == r'[n] || Outranks(score, order, r[n], r'[n])
  {
    assert r'[n] in r';
    var i :| 0 <= i < |r| && r[i] == r'[n];
    RankingDistinct(score, order, r');
    assert forall j :: 0 <= j < n ==> r[..n][j] == r'[..n][j];
    assert forall j :: 0 <= j < n ==> r[j] == r'[j];
    assert i >= n;
  }

  lemma {:induction false} RankingsAgree(score: map<Id, real>, order: seq<Id>, r: seq<Id>, r': seq<Id>, n: nat)
    requires Ranking(score, order, r) && Ranking(score, order, r') && n <= |r| && n <= |r'|
    ensures r[..n] == r'[..n]
  {
    if n > 0 {
      RankingsAgree(score, order, r, r', n - 1);
      NextOutranks(score, order, r, r', n - 1);
      NextOutranks(score, order, r', r, n - 1);
      TakeNext(r, n - 1);
      TakeNext(r', n - 1);
    }
  }

  lemma RankingUnique(score: map<Id, real>, order: seq<Id>, r: seq<Id>, r': seq<Id>)
    requires Ranking(score, order, r) && Ranking(score, order, r')
    ensures r == r'
  {
    RankingDistinct(score, order, r);
    RankingDistinct(score, order, r');
    DistinctCardinality(r);
    DistinctCardinality(r');
    assert Elements(r) == Elements(r');
    RankingsAgree(score, order, r, r', |r|);
  }

  lemma RankingDistinct(score: map<Id, real>, order: seq<Id>, r: seq<Id>)
    requires Ranking(score, order, r)
    ensures Distinct(r)
  {
    forall i, j | 0 <= i < j < |r|
      ensures r[i] != r[j]
    {
      assert Outranks(score, order, r[i], r[j]);
    }
  }
}
