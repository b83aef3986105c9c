/** The recency list kept under one compare-and-swap key: what one update does to the list,
    and what a run of updates leaves. */
module RecencyList {
  import opened Common

  type Id = string
  datatype Entry = Entry(id: Id, ts: int)

  /** Put an id at a time, or (`ts` absent) remove it. */
  datatype Update = Update(id: Id, ts: Option<int>)

  // ---- one update of the list --------------------------------------------------------

  function Without(s: seq<Entry>, id: Id): seq<Entry>
  {
    if s == [] then []
    else Without(s[..|s| - 1], id) + (if s[|s| - 1].id != id then [s[|s| - 1]] else [])
  }

  /** Stable insertion, newest first: after every entry at least as new. */
  function Insert(s: seq<Entry>, e: Entry): seq<Entry>
  {
    if s == [] then [e]
    else if s[|s| - 1].ts >= e.ts then s + [e]
    else Insert(s[..|s| - 1], e) + [s[|s| - 1]]
  }

  /** Stable sort, newest first. */
  function SortNewest(s: seq<Entry>): seq<Entry>
  {
    if s == [] then [] else Insert(SortNewest(s[..|s| - 1]), s[|s| - 1])
  }

  function ApplyUpdate(cap: int, s: seq<Entry>, u: Update): seq<Entry>
  {
    var kept := Without(s, u.id);
    SliceTo(SortNewest(if u.ts.Some? then kept + [Entry(u.id, u.ts.value)] else kept), cap)
  }

  function Fold(cap: int, updates: seq<Update>): seq<Entry>
  {
    if updates == [] then []
    else ApplyUpdate(cap, Fold(cap, updates[..|updates| - 1]), updates[|updates| - 1])
  }

  ghost predicate NewestFirst(s: seq<Entry>) { forall i, j :: 0 <= i < j < |s| ==> s[i].ts >= s[j].ts }

  ghost predicate UniqueIds(s: seq<Entry>) { forall i, j :: 0 <= i < j < |s| ==> s[i].id != s[j].id }

  // ---- the shape of the list ---------------------------------------------------------

  lemma {:induction false} InsertMembers(s: seq<Entry>, e: Entry)
    ensures multiset(Insert(s, e)) == multiset(s) + multiset{e}
  {
    if s != [] {
      assert s == s[..|s| - 1] + [s[|s| - 1]];
      InsertMembers(s[..|s| - 1], e);
    }
  }

  lemma InsertContains(s: seq<Entry>, e: Entry)
    ensures forall x :: x in Insert(s, e) <==> x in s || x == e
  {
    InsertMembers(s, e);
    forall x
      ensures x in Insert(s, e) <==> x in s || x == e
    {
      assert x in Insert(s, e) <==> x in multiset(Insert(s, e));
    }
  }

  /** Every element of `s` is at least as new as `last`. */
  lemma NewestFirstAppend(s: seq<Entry>, last: Entry)
    requires NewestFirst(s) && forall x :: x in s ==> x.ts >= last.ts
    ensures NewestFirst(s + [last])
  {
  }

  lemma {:induction false} InsertShape(s: seq<Entry>, e: Entry)
    requires NewestFirst(s)
    ensures NewestFirst(Insert(s, e))
  {
    if s != [] {
      var init, last := s[..|s| - 1], s[|s| - 1];
      if last.ts < e.ts {
        InsertShape(init, e);
        InsertContains(init, e);
        NewestFirstAppend(Insert(init, e), last);
      } else {
        NewestFirstAppend(s, e);
      }
    }
  }

  lemma {:induction false} SortShape(s: seq<Entry>)
    ensures NewestFirst(SortNewest(s))
    ensures forall x :: x in SortNewest(s) <==> x in s
  {
    if s != [] {
      var init, last := s[..|s| - 1], s[|s| - 1];
      SortShape(init);
      InsertShape(SortNewest(init), last);
      InsertContains(SortNewest(init), last);
      assert s == init + [last];
    }
  }

  lemma {:induction false} SortPermutes(s: seq<Entry>)
    ensures multiset(SortNewest(s)) == multiset(s)
  {
    if s != [] {
      var init, last := s[..|s| - 1], s[|s| - 1];
      SortPermutes(init);
      InsertMembers(SortNewest(init), last);
      LastMember(s);
    }
  }

  lemma LastMember(s: seq<Entry>)
    requires s != []
    ensures multiset(s) == multiset(s[..|s| - 1]) + multiset{s[|s| - 1]}
  {
    assert s == s[..|s| - 1] + [s[|s| - 1]];
  }

  /** A sorted list is already its stable sort. */
  lemma {:induction false} SortSorted(s: seq<Entry>)
    requires NewestFirst(s)
    ensures SortNewest(s) == s
  {
    if s != [] {
      SortSorted(s[..|s| - 1]);
      assert s == s[..|s| - 1] + [s[|s| - 1]];
    }
  }

  lemma {:induction false} WithoutMembers(s: seq<Entry>, id: Id)
    ensures forall x :: x in Without(s, id) <==> x in s && x.id != id
  {
    if s != [] {
      assert s == s[..|s| - 1] + [s[|s| - 1]];
      WithoutMembers(s[..|s| - 1], id);
    }
  }

  lemma {:induction false} WithoutShape(s: seq<Entry>, id: Id)
    requires NewestFirst(s) && UniqueIds(s)
    ensures forall x :: x in Without(s, id) <==> x in s && x.id != id
    ensures NewestFirst(Without(s, id)) && UniqueIds(Without(s, id))
  {
    WithoutMembers(s, id);
    if s != [] {
      var init, last := s[..|s| - 1], s[|s| - 1];
      WithoutShape(init, id);
      var kept := Without(init, id);
      forall i | 0 <= i < |kept|
        ensures kept[i].ts >= last.ts && kept[i].id != last.id
      {
        assert kept[i] in init;
      }
    }
  }

  lemma {:induction false} InsertUnique(s: seq<Entry>, e: Entry)
    requires UniqueIds(s) && NewestFirst(s) && forall x :: x in s ==> x.id != e.id
    ensures UniqueIds(Insert(s, e))
  {
    if s != [] {
      var init, last := s[..|s| - 1], s[|s| - 1];
      assert s == init + [last];
      if last.ts < e.ts {
        InsertUnique(init, e);
        InsertContains(init, e);
        assert forall x :: x in init ==> x.id != last.id;
      }
    }
  }

  /** On a well-formed list an update is: drop the id, insert it behind equally new entries, cut. */
  lemma UpdateIsInsert(cap: int, s: seq<Entry>, u: Update)
    requires NewestFirst(s) && UniqueIds(s)
    ensures ApplyUpdate(cap, s, u) ==
      SliceTo(if u.ts.Some? then Insert(Without(s, u.id), Entry(u.id, u.ts.value)) else Without(s, u.id), cap)
  {
    var kept := Without(s, u.id);
    WithoutShape(s, u.id);
    SortSorted(kept);
    if u.ts.Some? {
      var longer := kept + [Entry(u.id, u.ts.value)];
      assert longer[..|longer| - 1] == kept;
    }
  }

  lemma UpdateShape(cap: int, s: seq<Entry>, u: Update)
    requires NewestFirst(s) && UniqueIds(s)
    ensures var r := ApplyUpdate(cap, s, u);
      NewestFirst(r) && UniqueIds(r) && (cap >= 0 ==> |r| <= cap) &&
      (u.ts == None ==> forall x :: x in r ==> x.id != u.id)
  {
    UpdateIsInsert(cap, s, u);
    WithoutShape(s, u.id);
    var kept := Without(s, u.id);
    if u.ts.Some? {
      InsertShape(kept, Entry(u.id, u.ts.value));
      InsertUnique(kept, Entry(u.id, u.ts.value));
      CutShape(Insert(kept, Entry(u.id, u.ts.value)), cap);
    } else {
      CutShape(kept, cap);
    }
  }

  lemma CutShape(s: seq<Entry>, cap: int)
    requires NewestFirst(s) && UniqueIds(s)
    ensures var r := SliceTo(s, cap);
      NewestFirst(r) && UniqueIds(r) && (cap >= 0 ==> |r| <= cap) && forall x :: x in r ==> x in s
  {
    assert SliceTo(s, cap) == s[..|SliceTo(s, cap)|];
  }

  lemma {:induction false} FoldShape(cap: int, updates: seq<Update>)
    ensures NewestFirst(Fold(cap, updates)) && UniqueIds(Fold(cap, updates))
    ensures cap >= 0 ==> |Fold(cap, updates)| <= cap
  {
    if updates != [] {
      FoldShape(cap, updates[..|updates| - 1]);
      UpdateShape(cap, Fold(cap, updates[..|updates| - 1]), updates[|updates| - 1]);
    }
  }

  // ---- cutting early loses nothing while ids are new ---------------------------------

  /** Inserting into a list that was cut, and cutting again, is cutting the full insertion. */
  lemma {:induction false} CutCommutes(cap: nat, s: seq<Entry>, e: Entry)
    requires NewestFirst(s)
    ensures SliceTo(Insert(SliceTo(s, cap), e), cap) == SliceTo(Insert(s, e), cap)
    decreases |s|
  {
    if |s| > cap {
      var init, last := s[..|s| - 1], s[|s| - 1];
      assert SliceTo(init, cap) == SliceTo(s, cap);
      CutCommutes(cap, init, e);
      InsertLength(init, e);
      InsertLength(s, e);
      if last.ts < e.ts {
        assert SliceTo(Insert(s, e), cap) == SliceTo(Insert(init, e), cap);
      } else {
        InsertLast(init, e);
        assert SliceTo(Insert(init, e), cap) == SliceTo(init, cap);
      }
    }
  }

  lemma {:induction false} InsertLength(s: seq<Entry>, e: Entry)
    ensures |Insert(s, e)| == |s| + 1
  {
    if s != [] && s[|s| - 1].ts < e.ts {
      InsertLength(s[..|s| - 1], e);
    }
  }

  lemma InsertLast(s: seq<Entry>, e: Entry)
    requires NewestFirst(s) && (forall x :: x in s ==> x.ts >= e.ts)
    ensures Insert(s, e) == s + [e]
  {
  }

  function Entries(updates: seq<Update>): seq<Entry>
    requires forall u :: u in updates ==> u.ts.Some?
  {
    seq(|updates|, i requires 0 <= i < |updates| => Entry(updates[i].id, updates[i].ts.value))
  }

  ghost predicate FreshPuts(updates: seq<Update>)
  {
    (forall u :: u in updates ==> u.ts.Some?) &&
    forall i, j :: 0 <= i < j < |updates| ==> updates[i].id != updates[j].id
  }

  lemma {:induction false} WithoutAbsent(s: seq<Entry>, id: Id)
    requires forall x :: x in s ==> x.id != id
    ensures Without(s, id) == s
  {
    if s != [] {
      assert s == s[..|s| - 1] + [s[|s| - 1]];
      WithoutAbsent(s[..|s| - 1], id);
    }
  }

  /** Puts of distinct ids leave exactly the `cap` newest of everything ever put, earlier puts first
      among equals: cutting at every step is cutting once at the end. */
  lemma {:induction false} KeepsNewest(cap: nat, updates: seq<Update>)
    requires FreshPuts(updates)
    ensures Fold(cap, updates) == SliceTo(SortNewest(Entries(updates)), cap)
  {
    if updates != [] {
      var init, last := updates[..|updates| - 1], updates[|updates| - 1];
      KeepsNewest(cap, init);
      var all, e := SortNewest(Entries(init)), Entry(last.id, last.ts.value);
      NewIdAbsent(cap, init, last.id);
      WithoutAbsent(SliceTo(all, cap), last.id);
      FoldShape(cap, init);
      UpdateIsInsert(cap, Fold(cap, init), last);
      SortShape(Entries(init));
      CutCommutes(cap, all, e);
      EntriesNext(updates);
    }
  }

  /** An id no put names is not in the cut of the sorted puts. */
  lemma NewIdAbsent(cap: nat, updates: seq<Update>, id: Id)
    requires (forall u :: u in updates ==> u.ts.Some?) && forall i :: 0 <= i < |updates| ==> updates[i].id != id
    ensures forall x :: x in SliceTo(SortNewest(Entries(updates)), cap) ==> x.id != id
  {
    var all := SortNewest(Entries(updates));
    SortShape(Entries(updates));
    assert SliceTo(all, cap) == all[..|SliceTo(all, cap)|];
    forall x | x in SliceTo(all, cap)
      ensures x.id != id
    {
      assert x in all;
      assert x in Entries(updates);
    }
  }

  lemma EntriesNext(updates: seq<Update>)
    requires updates != [] && forall u :: u in updates ==> u.ts.Some?
    ensures var last := |updates| - 1;
      SortNewest(Entries(updates)) ==
        Insert(SortNewest(Entries(updates[..last])), Entry(updates[last].id, updates[last].ts.value))
  {
    assert Entries(updates)[..|updates| - 1] == Entries(updates[..|updates| - 1]);
  }
}
