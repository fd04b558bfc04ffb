/** A request that lands while its gate's pending change is being promoted, one
    load or store at a time: the loops of `apply_gates` against `tt_gate_set` and
    `tt_gate_set_at` (src/tt_core.c). */
module GateRace {
  import opened Gates

  /** One gate's shared words: its bit of the level word and its pending change. */
  datatype Cell = Cell(level: bool, at: nat, armed: bool, armedLevel: bool) {
    function Target(): bool {
      if armed then armedLevel else level
    }
  }

  function CellOf(g: Bank, i: nat): Cell
    requires g.Sized(|g.armed|) && i < |g.armed|
  {
    Cell(i in g.level, g.at[i], g.armed[i], g.armedLevel[i])
  }

  /** The k-th store of a request: an immediate one disarms and sets the level; a
      scheduled one disarms, stores level and time, and arms. */
  function Stored(c: Cell, a: Action, k: nat): Cell
    requires !a.DoApply?
  {
    if k == 0 then c.(armed := false)
    else if Immediate(a) then
      if k == 1 then c.(level := RequestedLevel(a)) else c
    else
      if k == 1 then c.(armedLevel := RequestedLevel(a))
      else if k == 2 && a.DoSetAt? then c.(at := a.time)
      else if k == 3 then c.(armed := true) else c
  }

  /** How many of the promotion's five steps come before each store of the request:
      the loads of armed, time and level, the write to the level word, disarming. */
  datatype Placing = Placing(first: nat, second: nat, third: nat, fourth: nat) {
    predicate InOrder() {
      first <= second <= third <= fourth <= 5
    }
  }

  /** The stores that come after exactly n steps of the promotion. */
  function Landed(c: Cell, a: Action, w: Placing, n: nat): Cell
    requires !a.DoApply?
  {
    var c := if w.first == n then Stored(c, a, 0) else c;
    var c := if w.second == n then Stored(c, a, 1) else c;
    var c := if w.third == n then Stored(c, a, 2) else c;
    if w.fourth == n then Stored(c, a, 3) else c
  }

  lemma LandedImmediate(c: Cell, a: Action, w: Placing, n: nat)
    requires !a.DoApply? && Immediate(a)
    ensures Landed(c, a, w, n) ==
              c.(armed := c.armed && w.first != n, level := if w.second == n then RequestedLevel(a) else c.level)
  {}

  lemma LandedScheduled(c: Cell, a: Action, w: Placing, n: nat)
    requires a.DoSetAt? && !Immediate(a)
    ensures Landed(c, a, w, n) ==
              c.(armed := w.fourth == n || (c.armed && w.first != n),
                 armedLevel := if w.second == n then a.on else c.armedLevel,
                 at := if w.third == n then a.time else c.at)
  {}

  /** Promotion of one gate at clock reading now, the request's stores falling
      where w says. A change that is not armed, or not due, is left alone. */
  function Promoted(c: Cell, a: Action, w: Placing, now: nat): Cell
    requires !a.DoApply?
  {
    var c := Landed(c, a, w, 0);
    var armed := c.armed;
    var c := Landed(c, a, w, 1);
    var due := armed && now >= c.at;
    var c := Landed(c, a, w, 2);
    var level := c.armedLevel;
    var c := Landed(c, a, w, 3);
    var c := if due then c.(level := level) else c;
    var c := Landed(c, a, w, 4);
    var c := if due then c.(armed := false) else c;
    Landed(c, a, w, 5)
  }

  /** Whole calls are the two outermost placings: all of the request before the
      promotion, or all of it after. */
  lemma WholeCalls(g: Bank, i: nat, a: Action, now: nat)
    requires g.Sized(|g.armed|) && i < |g.armed| && Requests(a, i)
    ensures Promoted(CellOf(g, i), a, Placing(0, 0, 0, 0), now) == CellOf(Apply(Next(g, a), now), i)
    ensures Promoted(CellOf(g, i), a, Placing(5, 5, 5, 5), now) == CellOf(Next(Apply(g, now), a), i)
  {}

  /** An immediate request is lost exactly when the pending change is due, would
      leave the other level, was found armed before the request disarmed it, and
      is written to the level word after the request's own write. */
  lemma ImmediateDuringPromotion(c: Cell, a: Action, w: Placing, now: nat)
    requires !a.DoApply? && Immediate(a) && w.InOrder()
    ensures Promoted(c, a, w, now).Target() != RequestedLevel(a) <==>
              && c.armed && now >= c.at && c.armedLevel != RequestedLevel(a)
              && 0 < w.first && w.second <= 3
  {
    forall d: Cell, n: nat { LandedImmediate(d, a, w, n); }
    hide Landed, Stored, Immediate;
  }

  /** A scheduled request is lost exactly when the old change is due, would leave
      the other level, was found armed before the request disarmed it, had its
      level loaded before the request stored its own, and is disarmed after the
      request has armed. */
  lemma ScheduledDuringPromotion(c: Cell, a: Action, w: Placing, now: nat)
    requires a.DoSetAt? && !Immediate(a) && w.InOrder()
    ensures Promoted(c, a, w, now).Target() != a.on <==>
              && c.armed && now >= c.at && c.armedLevel != a.on
              && 0 < w.first && 2 < w.second && w.fourth <= 4
  {
    forall d: Cell, n: nat { LandedScheduled(d, a, w, n); }
    hide Landed, Stored, Immediate;
  }

  /** And it comes into force before its time exactly when the promotion finds
      the old change armed and due, and then loads the new change's level: the
      request has stored its level by then, but had not stored its time when the
      time was loaded. */
  lemma EarlyDuringPromotion(c: Cell, a: Action, w: Placing, now: nat)
    requires a.DoSetAt? && !Immediate(a) && w.InOrder() && now < a.time
    requires c.level != a.on && c.armedLevel != a.on
    ensures Promoted(c, a, w, now).level == a.on <==>
              && c.armed && now >= c.at
              && 0 < w.first && w.second <= 2 && 1 < w.third
  {
    forall d: Cell, n: nat { LandedScheduled(d, a, w, n); }
    hide Landed, Stored, Immediate;
  }
}
