/** Clients interleaving compare-and-swap updates of one shared recency list, with the key
    free to expire at any moment. */
module CasProtocol {
  import opened Common
  import opened RecencyList

  type Client = nat

  /** The stored list and the token of the write that stored it. */
  datatype Cell = Cell(entries: seq<Entry>, token: nat)

  /** `Holding`: the client has read, knows what it wants to write, and has not written yet. */
  datatype Phase =
    | Idle
    | Trying(u: Update, left: nat)
    | Holding(u: Update, left: nat, token: Option<nat>, wanted: seq<Entry>, readAt: nat)

  datatype Event =
    | Read(c: Client)
    | Commit(c: Client, u: Update)
    | Refused(c: Client, readAt: nat)
    | GaveUp(c: Client)
    | Expired

  datatype Shared = Shared(cell: Option<Cell>, nextToken: nat, phases: map<Client, Phase>, history: seq<Event>)

  datatype Step = Begin(c: Client, u: Update) | Gets(c: Client) | Write(c: Client) | GiveUp(c: Client) | Expire

  datatype Settings = Settings(cap: int, maxAttempts: nat)

  // ---- the atomic operations of the store --------------------------------------------

  /** A conditional write: `add` needs the key absent, `cas` needs the token unchanged. */
  predicate Accepts(cell: Option<Cell>, token: Option<nat>)
  {
    match token
    case None => cell.None?
    case Some(t) => cell.Some? && cell.value.token == t
  }

  function TokenOf(cell: Option<Cell>): Option<nat> { if cell.Some? then Some(cell.value.token) else None }

  function EntriesOf(cell: Option<Cell>): seq<Entry> { if cell.Some? then cell.value.entries else [] }

  // ---- steps -------------------------------------------------------------------------

  function PhaseOf(s: Shared, c: Client): Phase { if c in s.phases then s.phases[c] else Idle }

  predicate Enabled(s: Shared, st: Step)
  {
    match st
    case Begin(c, _) => PhaseOf(s, c).Idle?
    case Gets(c) => PhaseOf(s, c).Trying? && PhaseOf(s, c).left > 0
    case Write(c) => PhaseOf(s, c).Holding? && PhaseOf(s, c).left > 0
    case GiveUp(c) => PhaseOf(s, c).Trying? && PhaseOf(s, c).left == 0
    case Expire => s.cell.Some?
  }

  function Next(cfg: Settings, s: Shared, st: Step): Shared
    requires Enabled(s, st)
  {
    match st
    case Begin(c, u) => s.(phases := s.phases[c := Trying(u, cfg.maxAttempts)])
    case Gets(c) =>
      var p := PhaseOf(s, c);
      var wanted := ApplyUpdate(cfg.cap, EntriesOf(s.cell), p.u);
      s.(phases := s.phases[c := Holding(p.u, p.left, TokenOf(s.cell), wanted, |s.history|)],
         history := s.history + [Read(c)])
    case Write(c) =>
      var p := PhaseOf(s, c);
      if Accepts(s.cell, p.token) then
        Shared(Some(Cell(p.wanted, s.nextToken)), s.nextToken + 1, s.phases[c := Idle], s.history + [Commit(c, p.u)])
      else
        s.(phases := s.phases[c := Trying(p.u, p.left - 1)], history := s.history + [Refused(c, p.readAt)])
    case GiveUp(c) => s.(phases := s.phases[c := Idle], history := s.history + [GaveUp(c)])
    case Expire => s.(cell := None, history := s.history + [Expired])
  }

  const START := Shared(None, 0, map[], [])

  /** The state after a sequence of steps, if each was enabled in turn. */
  function After(cfg: Settings, steps: seq<Step>): Option<Shared>
  {
    if steps == [] then Some(START)
    else
      var before, st := After(cfg, steps[..|steps| - 1]), steps[|steps| - 1];
      if before.Some? && Enabled(before.value, st) then Some(Next(cfg, before.value, st)) else None
  }

  // ---- what the history says ---------------------------------------------------------

  /** The updates committed since the key last expired, in commit order. */
  function SinceExpiry(h: seq<Event>): seq<Update>
  {
    if h == [] then []
    else
      var init := SinceExpiry(h[..|h| - 1]);
      match h[|h| - 1]
      case Commit(_, u) => init + [u]
      case Expired => []
      case _ => init
  }

  /** Another client committed, or the key expired, at place `j`. */
  predicate Disturbs(e: Event, c: Client) { e.Expired? || (e.Commit? && e.c != c) }

  ghost predicate DisturbedBetween(h: seq<Event>, c: Client, from: nat, to: nat)
  {
    exists j :: from < j < to && j < |h| && Disturbs(h[j], c)
  }

  ghost predicate CommittedAfter(h: seq<Event>, from: nat)
  {
    exists j :: from < j < |h| && (h[j].Commit? || h[j].Expired?)
  }

  /** Every refused write is explained by a disturbance between its read and itself. */
  ghost predicate RefusalsExplained(h: seq<Event>)
  {
    forall k :: 0 <= k < |h| && h[k].Refused? ==> DisturbedBetween(h, h[k].c, h[k].readAt, k)
  }

  // ---- the invariant -----------------------------------------------------------------

  ghost predicate CellMatches(cfg: Settings, s: Shared)
  {
    match s.cell
    case None => SinceExpiry(s.history) == []
    case Some(cell) => cell.entries == Fold(cfg.cap, SinceExpiry(s.history)) && cell.token < s.nextToken
  }

  /** What a client that has read can still rely on. */
  ghost predicate HolderInv(cfg: Settings, s: Shared, c: Client, p: Phase)
    requires p.Holding?
  {
    p.readAt < |s.history| &&
    (p.token.Some? ==> p.token.value < s.nextToken) &&
    (p.token.None? ==> p.wanted == ApplyUpdate(cfg.cap, [], p.u)) &&
    (Accepts(s.cell, p.token) ==> p.wanted == ApplyUpdate(cfg.cap, EntriesOf(s.cell), p.u)) &&
    (Accepts(s.cell, p.token) || DisturbedBetween(s.history, c, p.readAt, |s.history|)) &&
    (p.token.Some? && CommittedAfter(s.history, p.readAt) ==> !Accepts(s.cell, p.token))
  }

  ghost predicate Inv(cfg: Settings, s: Shared)
  {
    CellMatches(cfg, s) && RefusalsExplained(s.history) &&
    forall c :: PhaseOf(s, c).Holding? ==> HolderInv(cfg, s, c, PhaseOf(s, c))
  }

  // ---- every step keeps it -----------------------------------------------------------

  lemma SinceExpiryAppend(h: seq<Event>, e: Event)
    ensures SinceExpiry(h + [e]) ==
      if e.Expired? then [] else if e.Commit? then SinceExpiry(h) + [e.u] else SinceExpiry(h)
  {
    assert (h + [e])[..|h|] == h;
  }

  lemma FoldAppend(cap: int, updates: seq<Update>, u: Update)
    ensures Fold(cap, updates + [u]) == ApplyUpdate(cap, Fold(cap, updates), u)
  {
    assert (updates + [u])[..|updates|] == updates;
  }

  lemma RefusalsAppend(h: seq<Event>, e: Event)
    requires RefusalsExplained(h) && (e.Refused? ==> DisturbedBetween(h, e.c, e.readAt, |h|))
    ensures RefusalsExplained(h + [e])
  {
    var longer := h + [e];
    forall k | 0 <= k < |longer| && longer[k].Refused?
      ensures DisturbedBetween(longer, longer[k].c, longer[k].readAt, k)
    {
      var c, from := longer[k].c, longer[k].readAt;
      assert k < |h| ==> h[k] == longer[k];
      var j :| from < j < k && j < |h| && Disturbs(h[j], c);
      assert longer[j] == h[j];
    }
  }

  /** A holder outlives an event that leaves the cell alone. */
  lemma HolderQuiet(cfg: Settings, s: Shared, s': Shared, c: Client, p: Phase, e: Event)
    requires p.Holding? && HolderInv(cfg, s, c, p)
    requires s'.history == s.history + [e] && !e.Commit? && !e.Expired?
    requires s'.cell == s.cell && s'.nextToken == s.nextToken
    ensures HolderInv(cfg, s', c, p)
  {
    if !Accepts(s.cell, p.token) {
      var j :| p.readAt < j < |s.history| && Disturbs(s.history[j], c);
      assert s'.history[j] == s.history[j];
    }
    if CommittedAfter(s'.history, p.readAt) {
      var j :| p.readAt < j < |s'.history| && (s'.history[j].Commit? || s'.history[j].Expired?);
      assert s'.history[j] == s.history[j];
    }
  }

  /** A holder is told by the store when another client commits or the key expires. */
  lemma HolderDisturbed(cfg: Settings, s: Shared, s': Shared, c: Client, p: Phase, e: Event)
    requires p.Holding? && HolderInv(cfg, s, c, p) && CellMatches(cfg, s)
    requires s'.history == s.history + [e] && Disturbs(e, c)
    requires e.Expired? ==> s'.cell == None && s'.nextToken == s.nextToken
    requires e.Commit? ==> s'.cell.Some? && s'.cell.value.token == s.nextToken && s'.nextToken == s.nextToken + 1
    ensures HolderInv(cfg, s', c, p)
  {
    assert s'.history[|s.history|] == e;
    assert DisturbedBetween(s'.history, c, p.readAt, |s'.history|);
  }

  lemma CommitMatches(cfg: Settings, s: Shared, c: Client)
    requires Inv(cfg, s) && Enabled(s, Write(c)) && Accepts(s.cell, PhaseOf(s, c).token)
    ensures CellMatches(cfg, Next(cfg, s, Write(c)))
  {
    var u := PhaseOf(s, c).u;
    SinceExpiryAppend(s.history, Commit(c, u));
    FoldAppend(cfg.cap, SinceExpiry(s.history), u);
    assert HolderInv(cfg, s, c, PhaseOf(s, c));
    assert EntriesOf(s.cell) == Fold(cfg.cap, SinceExpiry(s.history));
  }

  lemma StepKeepsInv(cfg: Settings, s: Shared, st: Step)
    requires Inv(cfg, s) && Enabled(s, st)
    ensures Inv(cfg, Next(cfg, s, st))
  {
    var s' := Next(cfg, s, st);
    if st.Begin? {
      forall c | PhaseOf(s', c).Holding?
        ensures HolderInv(cfg, s', c, PhaseOf(s', c))
      {
        assert PhaseOf(s', c) == PhaseOf(s, c) && HolderInv(cfg, s, c, PhaseOf(s, c));
      }
    } else {
      var e := s'.history[|s.history|];
      assert s'.history == s.history + [e];
      SinceExpiryAppend(s.history, e);
      if st.Write? {
        assert HolderInv(cfg, s, st.c, PhaseOf(s, st.c));
      }
      if st.Write? && Accepts(s.cell, PhaseOf(s, st.c).token) {
        CommitMatches(cfg, s, st.c);
      }
      RefusalsAppend(s.history, e);
      forall c | PhaseOf(s', c).Holding?
        ensures HolderInv(cfg, s', c, PhaseOf(s', c))
      {
        if st.Gets? && st.c == c {
        } else {
          assert PhaseOf(s', c) == PhaseOf(s, c);
          if e.Commit? || e.Expired? {
            HolderDisturbed(cfg, s, s', c, PhaseOf(s, c), e);
          } else {
            HolderQuiet(cfg, s, s', c, PhaseOf(s, c), e);
          }
        }
      }
    }
  }

  lemma {:induction false} EveryRunKeepsInv(cfg: Settings, steps: seq<Step>)
    requires After(cfg, steps).Some?
    ensures Inv(cfg, After(cfg, steps).value)
  {
    if steps != [] {
      EveryRunKeepsInv(cfg, steps[..|steps| - 1]);
      StepKeepsInv(cfg, After(cfg, steps[..|steps| - 1]).value, steps[|steps| - 1]);
    }
  }

  // ---- giving up ---------------------------------------------------------------------

  /** How often the update the client is at has been refused. */
  function Refusals(h: seq<Event>, c: Client): nat
  {
    if h == [] then 0
    else
      var before, e := Refusals(h[..|h| - 1], c), h[|h| - 1];
      if e.Refused? && e.c == c then before + 1
      else if (e.Commit? || e.GaveUp?) && e.c == c then 0
      else before
  }

  lemma CountAppend(h: seq<Event>, e: Event, c: Client)
    ensures Refusals(h + [e], c) ==
      if e.Refused? && e.c == c then Refusals(h, c) + 1
      else if (e.Commit? || e.GaveUp?) && e.c == c then 0
      else Refusals(h, c)
  {
    assert (h + [e])[..|h|] == h;
  }

  /** The attempts left and the refusals suffered make up the attempts allowed. */
  ghost predicate AttemptsCounted(cfg: Settings, s: Shared, c: Client)
  {
    match PhaseOf(s, c)
    case Idle => Refusals(s.history, c) == 0
    case Trying(_, left) => Refusals(s.history, c) + left == cfg.maxAttempts
    case Holding(_, left, _, _, _) => left > 0 && Refusals(s.history, c) + left == cfg.maxAttempts
  }

  lemma StepCounts(cfg: Settings, s: Shared, st: Step, c: Client)
    requires Enabled(s, st) && AttemptsCounted(cfg, s, c)
    ensures AttemptsCounted(cfg, Next(cfg, s, st), c)
  {
    if !st.Begin? {
      CountAppend(s.history, Next(cfg, s, st).history[|s.history|], c);
      assert Next(cfg, s, st).history == s.history + [Next(cfg, s, st).history[|s.history|]];
    }
  }

  lemma {:induction false} EveryRunCounts(cfg: Settings, steps: seq<Step>, c: Client)
    requires After(cfg, steps).Some?
    ensures AttemptsCounted(cfg, After(cfg, steps).value, c)
  {
    if steps != [] {
      EveryRunCounts(cfg, steps[..|steps| - 1], c);
      StepCounts(cfg, After(cfg, steps[..|steps| - 1]).value, steps[|steps| - 1], c);
    }
  }

  /** In every interleaving a client at work can give up exactly when its update was refused as often as
      attempts are allowed, and until then it can read or write. */
  lemma GivesUpExactly(cfg: Settings, steps: seq<Step>, c: Client)
    requires After(cfg, steps).Some? && !PhaseOf(After(cfg, steps).value, c).Idle?
    ensures var s := After(cfg, steps).value;
      Refusals(s.history, c) <= cfg.maxAttempts &&
      (Enabled(s, GiveUp(c)) <==> Refusals(s.history, c) == cfg.maxAttempts) &&
      (Enabled(s, Gets(c)) || Enabled(s, Write(c)) <==> Refusals(s.history, c) < cfg.maxAttempts)
  {
    EveryRunCounts(cfg, steps, c);
  }

  // ---- what it means -----------------------------------------------------------------

  /** No lost update: in every interleaving the stored list is the fold of the updates committed since
      the key last expired, sorted newest first, one entry per id, within the cap; and a refused
      attempt always had another client's commit or an expiry between its read and its write. */
  lemma {:induction false} NoLostUpdate(cfg: Settings, steps: seq<Step>)
    requires After(cfg, steps).Some?
    ensures var s := After(cfg, steps).value;
      EntriesOf(s.cell) == Fold(cfg.cap, SinceExpiry(s.history)) &&
      NewestFirst(EntriesOf(s.cell)) && UniqueIds(EntriesOf(s.cell)) &&
      (cfg.cap >= 0 ==> |EntriesOf(s.cell)| <= cfg.cap) &&
      RefusalsExplained(s.history)
  {
    EveryRunKeepsInv(cfg, steps);
    FoldShape(cfg.cap, SinceExpiry(After(cfg, steps).value.history));
  }

  /** A compare-and-swap write goes through exactly when nobody committed and nothing expired since
      its read; a write that found the key absent goes through exactly when it is absent now. */
  lemma AcceptedExactly(cfg: Settings, steps: seq<Step>, c: Client)
    requires After(cfg, steps).Some? && PhaseOf(After(cfg, steps).value, c).Holding?
    ensures var s, p := After(cfg, steps).value, PhaseOf(After(cfg, steps).value, c);
      Accepts(s.cell, p.token) <==>
        if p.token.Some? then !CommittedAfter(s.history, p.readAt) else s.cell.None?
  {
    EveryRunKeepsInv(cfg, steps);
    var s, p := After(cfg, steps).value, PhaseOf(After(cfg, steps).value, c);
    assert HolderInv(cfg, s, c, p);
    if !Accepts(s.cell, p.token) {
      var j :| p.readAt < j < |s.history| && Disturbs(s.history[j], c);
    }
  }
}
