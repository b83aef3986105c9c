/** Agreement with the mid-term store: a run retires exactly the points its supersessions
    name, by source id, and revives none. */
module DistillMidTerm {
  import opened Common
  import opened GraphStore
  import opened Distill

  /** The points of a list of losers, keyed by source record or by the fact itself. */
  function PointKeys(ns: string, losers: seq<Item>): set<Key>
  {
    if losers == [] then {}
    else PointKeys(ns, losers[..|losers| - 1]) + {Key(ns, PointId(losers[|losers| - 1]))}
  }

  function StepPoints(ns: string, d: Decision): set<Key>
  {
    if d.Replace? then PointKeys(ns, d.losers) else {}
  }

  /** Every point the supersessions of a run name. */
  function RunPoints(cfg: Config, steps: seq<Step>): set<Key>
  {
    if steps == [] then {}
    else
      var last := steps[|steps| - 1];
      RunPoints(cfg, steps[..|steps| - 1]) + StepPoints(last.ns, DecideStep(cfg, last))
  }

  function RetiredPoint(winner: Item): Point
  {
    Point(Superseded, Some(ValidAt(winner)), PointId(winner), FUNCTIONAL_SUPERSEDE)
  }

  /** `m'` is `m` with the points of `named` that exist retired in favour of the winner. */
  ghost predicate PointsRetired(m: map<Key, Point>, m': map<Key, Point>, named: set<Key>, winner: Item)
  {
    m'.Keys == m.Keys &&
    forall k :: k in m ==> m'[k] == (if k in named then RetiredPoint(winner) else m[k])
  }

  lemma {:induction false} SupersedeAllPoints(cfg: Config, w: World, ns: string, winner: Item, losers: seq<Item>)
    requires cfg.mtmWired
    ensures PointsRetired(w.mtm, SupersedeAll(cfg, w, ns, winner, losers).mtm, PointKeys(ns, losers), winner)
  {
    if losers != [] {
      SupersedeAllPoints(cfg, w, ns, winner, losers[..|losers| - 1]);
    }
  }

  lemma {:induction false} UnwiredPoints(cfg: Config, w: World, ns: string, winner: Item, losers: seq<Item>)
    requires !cfg.mtmWired
    ensures SupersedeAll(cfg, w, ns, winner, losers).mtm == w.mtm
  {
    if losers != [] {
      UnwiredPoints(cfg, w, ns, winner, losers[..|losers| - 1]);
    }
  }

  /** One step: the points of its losers name the winner's point and end when the facts end. */
  lemma ApplyPoints(cfg: Config, w: World, ns: string, winner: Item, d: Decision, now: Time)
    ensures var m' := Apply(cfg, w, ns, winner, d, now).mtm;
      if cfg.mtmWired then PointsRetired(w.mtm, m', StepPoints(ns, d), winner) else m' == w.mtm
  {
    if d.Replace? && cfg.mtmWired {
      SupersedeAllPoints(cfg, Write(w, winner), ns, winner, d.losers);
    } else if d.Replace? {
      UnwiredPoints(cfg, Write(w, winner), ns, winner, d.losers);
    }
  }

  /** The points a run changed are exactly those present and named; each ends superseded, and a point
      whose state changed had not been superseded. */
  ghost predicate Agrees(m: map<Key, Point>, m': map<Key, Point>, named: set<Key>)
  {
    m'.Keys == m.Keys &&
    forall k :: k in m ==>
      (k !in named ==> m'[k] == m[k]) &&
      (k in named ==> m'[k].state == Superseded) &&
      (m'[k].state != m[k].state <==> k in named && m[k].state != Superseded)
  }

  lemma {:induction false} RunAgrees(cfg: Config, w: World, steps: seq<Step>)
    ensures if cfg.mtmWired then Agrees(w.mtm, Run(cfg, w, steps).mtm, RunPoints(cfg, steps))
            else Run(cfg, w, steps).mtm == w.mtm
  {
    if steps != [] {
      var last := steps[|steps| - 1];
      RunAgrees(cfg, w, steps[..|steps| - 1]);
      ApplyPoints(cfg, Run(cfg, w, steps[..|steps| - 1]), last.ns, last.winner, DecideStep(cfg, last), last.pipeNow);
    }
  }
}
