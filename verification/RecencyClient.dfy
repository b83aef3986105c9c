/** The bounded read-modify-write loop of one client, with the rest of the world acting
    between its reads and its writes. */
module RecencyClient {
  import opened Common
  import opened RecencyList
  import opened CasProtocol

  /** What may happen at the store between a read and the following write. */
  datatype Foreign = OtherCommits(c: Client, u: Update) | KeyExpires

  class RecencyKey {
    const cfg: Settings
    var cell: Option<Cell>
    var nextToken: nat
    ghost var history: seq<Event>

    constructor (cfg: Settings)
      ensures this.cfg == cfg && Valid() && history == []
    {
      this.cfg, cell, nextToken, history := cfg, None, 0, [];
    }

    /** The stored list is the fold of what was committed since the key last expired. */
    ghost predicate Valid()
      reads this
    {
      CellMatches(cfg, Shared(cell, nextToken, map[], history))
    }

    /** The last event is the commit of `u`, applied to what the earlier commits had stored. */
    ghost predicate CommittedLast(me: Client, u: Update)
      reads this
    {
      history != [] && history[|history| - 1] == Commit(me, u) &&
      EntriesOf(cell) == ApplyUpdate(cfg.cap, Fold(cfg.cap, SinceExpiry(history[..|history| - 1])), u)
    }

    /** The store's conditional write. */
    method TryWrite(c: Client, u: Update, token: Option<nat>, wanted: seq<Entry>, ghost readAt: nat) returns (ok: bool)
      requires Valid()
      requires Accepts(cell, token) ==> wanted == ApplyUpdate(cfg.cap, EntriesOf(cell), u)
      modifies this
      ensures Valid() && ok == Accepts(old(cell), token)
      ensures ok ==> cell == Some(Cell(wanted, old(nextToken))) && nextToken == old(nextToken) + 1
      ensures !ok ==> cell == old(cell) && nextToken == old(nextToken)
      ensures history == old(history) + [if ok then Commit(c, u) else Refused(c, readAt)]
    {
      ok := Accepts(cell, token);
      SinceExpiryAppend(history, if ok then Commit(c, u) else Refused(c, readAt));
      FoldAppend(cfg.cap, SinceExpiry(history), u);
      if ok {
        cell, nextToken := Some(Cell(wanted, nextToken)), nextToken + 1;
        history := history + [Commit(c, u)];
      } else {
        history := history + [Refused(c, readAt)];
      }
    }

    method Interfere(acts: seq<Foreign>, ghost me: Client)
      requires Valid() && forall a :: a in acts && a.OtherCommits? ==> a.c != me
      modifies this
      ensures Valid() && nextToken >= old(nextToken)
      ensures acts == [] ==> cell == old(cell) && nextToken == old(nextToken)
      ensures TokenOf(cell).Some? ==> TokenOf(cell) == TokenOf(old(cell)) || TokenOf(cell).value >= old(nextToken)
      ensures TokenOf(cell).Some? && TokenOf(cell).value < old(nextToken) ==> cell == old(cell)
      ensures old(history) <= history
      ensures forall j, u :: |old(history)| <= j < |history| ==> history[j] != Commit(me, u)
      ensures Refusals(history, me) == Refusals(old(history), me)
    {
      for i := 0 to |acts|
        invariant Valid() && nextToken >= old(nextToken)
        invariant i == 0 ==> cell == old(cell) && nextToken == old(nextToken)
        invariant TokenOf(cell).Some? ==> TokenOf(cell) == TokenOf(old(cell)) || TokenOf(cell).value >= old(nextToken)
        invariant TokenOf(cell).Some? && TokenOf(cell).value < old(nextToken) ==> cell == old(cell)
        invariant old(history) <= history
        invariant forall j, u :: |old(history)| <= j < |history| ==> history[j] != Commit(me, u)
        invariant Refusals(history, me) == Refusals(old(history), me)
      {
        match acts[i] {
          case OtherCommits(c, u) =>
            assert acts[i] in acts;
            CountAppend(history, Commit(c, u), me);
            var ok := TryWrite(c, u, TokenOf(cell), ApplyUpdate(cfg.cap, EntriesOf(cell), u), |history|);
          case KeyExpires =>
            SinceExpiryAppend(history, Expired);
            CountAppend(history, Expired, me);
            cell, history := None, history + [Expired];
        }
      }
    }

    /** One read, change and conditional write. */
    method TryOnce(me: Client, u: Update, acts: seq<Foreign>) returns (ok: bool)
      requires Valid() && forall a :: a in acts && a.OtherCommits? ==> a.c != me
      modifies this
      ensures Valid() && old(history) <= history
      ensures ok ==> CommittedLast(me, u)
      ensures !ok ==> acts != [] && Refusals(history, me) == Refusals(old(history), me) + 1
      ensures ok ==> Refusals(history[..|history| - 1], me) == Refusals(old(history), me)
      ensures forall j, v :: |old(history)| <= j < (if ok then |history| - 1 else |history|) ==>
        history[j] != Commit(me, v)
    {
      var token, wanted := TokenOf(cell), ApplyUpdate(cfg.cap, EntriesOf(cell), u);
      ghost var readAt := |history|;
      Interfere(acts, me);
      ghost var before := history;
      ok := TryWrite(me, u, token, wanted, readAt);
      assert history[..|history| - 1] == before;
      CountAppend(before, history[|history| - 1], me);
    }

    /** Read, change, write conditionally; again while refused, `maxAttempts` times at most. Success is
        exactly one commit by this client, of `u`, as the last event, after fewer refusals than attempts are
        allowed; failure needs interference in every attempt, is refused every time and commits nothing. */
    method UpdateRecency(me: Client, u: Update, interference: nat -> seq<Foreign>) returns (ok: bool)
      requires Valid()
      requires forall k, a :: a in interference(k) && a.OtherCommits? ==> a.c != me
      modifies this
      ensures Valid() && old(history) <= history
      ensures ok ==> CommittedLast(me, u)
      ensures !ok ==> forall k :: 0 <= k < cfg.maxAttempts ==> interference(k) != []
      ensures !ok ==> Refusals(history, me) == Refusals(old(history), me) + cfg.maxAttempts
      ensures ok ==> Refusals(history[..|history| - 1], me) < Refusals(old(history), me) + cfg.maxAttempts
      ensures forall j, v :: |old(history)| <= j < (if ok then |history| - 1 else |history|) ==>
        history[j] != Commit(me, v)
    {
      for attempt := 0 to cfg.maxAttempts
        invariant Valid() && old(history) <= history
        invariant Refusals(history, me) == Refusals(old(history), me) + attempt
        invariant forall k :: 0 <= k < attempt ==> interference(k) != []
        invariant forall j, v :: |old(history)| <= j < |history| ==> history[j] != Commit(me, v)
      {
        ok := TryOnce(me, u, interference(attempt));
        if ok {
          return;
        }
      }
      ok := false;
    }
  }
}
