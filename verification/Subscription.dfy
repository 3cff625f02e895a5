/** The subscription budget: two usage windows, each held against its own pair of
    thresholds. Percentages are reals, so rounding is not part of the model. */
module Subscription {

  /** An instant; 0 is Go's zero time, which stands for "unknown". */
  type Time = int

  datatype Window = FiveHour | Weekly

  /** Thresholds that are not positive are unset. */
  datatype Config = Config(
    proactive: int, emergency: int,
    fiveHourProactive: int, fiveHourEmergency: int,
    weeklyProactive: int, weeklyEmergency: int,
    maxAge: int)

  datatype Snapshot = Snapshot(
    fiveHour: real, fiveHourReset: Time,
    weekly: real, weeklyReset: Time,
    observedAt: Time)

  datatype Governing = Nobody | By(window: Window, proactive: int, emergency: int)

  datatype Decision = Decision(used: real, proactiveBlocked: bool, emergencyBlocked: bool, governing: Governing)

  const DEFAULT_PROACTIVE := 50
  const DEFAULT_EMERGENCY := 80

  function ResolvePercents(proactive: int, emergency: int): (r: (int, int))
    ensures 0 < r.0 <= r.1
  {
    var p := if proactive <= 0 then DEFAULT_PROACTIVE else proactive;
    var e := if emergency <= 0 then DEFAULT_EMERGENCY else emergency;
    (p, if e < p then p else e)
  }

  function ResolveWindowPercents(cfg: Config, w: Window): (r: (int, int))
    ensures 0 < r.0 <= r.1
  {
    var p := if w.FiveHour? then cfg.fiveHourProactive else cfg.weeklyProactive;
    var e := if w.FiveHour? then cfg.fiveHourEmergency else cfg.weeklyEmergency;
    ResolvePercents(if p > 0 then p else cfg.proactive, if e > 0 then e else cfg.emergency)
  }

  predicate SnapshotFresh(cfg: Config, observedAt: Time, now: Time) {
    cfg.maxAge <= 0 || observedAt == 0 || now - observedAt <= cfg.maxAge
  }

  predicate Active(reset: Time, now: Time) {
    reset != 0 && reset > now
  }

  function Percent(sub: Snapshot, w: Window): real {
    if w.FiveHour? then sub.fiveHour else sub.weekly
  }

  function Reset(sub: Snapshot, w: Window): Time {
    if w.FiveHour? then sub.fiveHourReset else sub.weeklyReset
  }

  /** The window's pressure: its percentage relative to its own proactive threshold. */
  function Pressure(cfg: Config, sub: Snapshot, w: Window): real {
    Percent(sub, w) / ResolveWindowPercents(cfg, w).0 as real
  }

  // ---------- the decision, said without a loop ----------

  predicate Counts(cfg: Config, sub: Snapshot, now: Time, w: Window) {
    SnapshotFresh(cfg, sub.observedAt, now) && Active(Reset(sub, w), now)
  }

  predicate Blocks(cfg: Config, sub: Snapshot, now: Time, emergency: bool, w: Window) {
    var t := ResolveWindowPercents(cfg, w);
    Counts(cfg, sub, now, w) && Percent(sub, w) >= (if emergency then t.1 else t.0) as real
  }

  /** A window governs when it counts, is under more pressure than -1, and under more
      than the other; the five-hour window wins a tie. */
  predicate Governs(cfg: Config, sub: Snapshot, now: Time, w: Window) {
    var other := if w.FiveHour? then Weekly else FiveHour;
    && Counts(cfg, sub, now, w) && Pressure(cfg, sub, w) > -1.0
    && (Counts(cfg, sub, now, other) ==>
          Pressure(cfg, sub, w) > Pressure(cfg, sub, other)
          || (w.FiveHour? && Pressure(cfg, sub, w) == Pressure(cfg, sub, other)))
  }

  function GoverningDecision(cfg: Config, sub: Snapshot, now: Time): Decision {
    var p := Blocks(cfg, sub, now, false, FiveHour) || Blocks(cfg, sub, now, false, Weekly);
    var e := Blocks(cfg, sub, now, true, FiveHour) || Blocks(cfg, sub, now, true, Weekly);
    if Governs(cfg, sub, now, FiveHour) then
      var t := ResolveWindowPercents(cfg, FiveHour);
      Decision(sub.fiveHour, p, e, By(FiveHour, t.0, t.1))
    else if Governs(cfg, sub, now, Weekly) then
      var t := ResolveWindowPercents(cfg, Weekly);
      Decision(sub.weekly, p, e, By(Weekly, t.0, t.1))
    else Decision(0.0, p, e, Nobody)
  }

  /** What the loop does with one window: it may block, and it governs from here on when
      it is under more pressure than any before. */
  method Look(cfg: Config, sub: Snapshot, now: Time, w: Window, d: Decision, worst: real)
    returns (next: Decision, nextWorst: real)
    requires SnapshotFresh(cfg, sub.observedAt, now)
    ensures next.proactiveBlocked == (d.proactiveBlocked || Blocks(cfg, sub, now, false, w))
    ensures next.emergencyBlocked == (d.emergencyBlocked || Blocks(cfg, sub, now, true, w))
    ensures Counts(cfg, sub, now, w) && Pressure(cfg, sub, w) > worst ==>
              var t := ResolveWindowPercents(cfg, w);
              nextWorst == Pressure(cfg, sub, w) && next.used == Percent(sub, w) && next.governing == By(w, t.0, t.1)
    ensures !(Counts(cfg, sub, now, w) && Pressure(cfg, sub, w) > worst) ==>
              nextWorst == worst && next.used == d.used && next.governing == d.governing
  {
    next, nextWorst := d, worst;
    if !Active(Reset(sub, w), now) {
      return;
    }
    var (proactive, emergency) := ResolveWindowPercents(cfg, w);
    if Percent(sub, w) >= proactive as real {
      next := next.(proactiveBlocked := true);
    }
    if Percent(sub, w) >= emergency as real {
      next := next.(emergencyBlocked := true);
    }
    var ratio := Percent(sub, w) / proactive as real;
    if ratio > worst {
      nextWorst := ratio;
      next := next.(used := Percent(sub, w), governing := By(w, proactive, emergency));
    }
  }

  /** The loop over the two windows, keeping the worst pressure seen so far. */
  method SubscriptionDecision(cfg: Config, sub: Snapshot, now: Time) returns (d: Decision)
    ensures d == GoverningDecision(cfg, sub, now)
  {
    d := Decision(0.0, false, false, Nobody);
    if !SnapshotFresh(cfg, sub.observedAt, now) {
      return;
    }
    var windows := [FiveHour, Weekly];
    var worst := -1.0;
    for i := 0 to |windows|
      invariant i == 0 ==> d == Decision(0.0, false, false, Nobody) && worst == -1.0
      invariant i == 1 ==> d.proactiveBlocked == Blocks(cfg, sub, now, false, FiveHour)
                           && d.emergencyBlocked == Blocks(cfg, sub, now, true, FiveHour)
      invariant i == 1 && !(Counts(cfg, sub, now, FiveHour) && Pressure(cfg, sub, FiveHour) > -1.0) ==>
                  d.used == 0.0 && d.governing == Nobody && worst == -1.0
      invariant i == 1 && Counts(cfg, sub, now, FiveHour) && Pressure(cfg, sub, FiveHour) > -1.0 ==>
                  var t := ResolveWindowPercents(cfg, FiveHour);
                  d.used == sub.fiveHour && d.governing == By(FiveHour, t.0, t.1) && worst == Pressure(cfg, sub, FiveHour)
      invariant i == 2 ==> d == GoverningDecision(cfg, sub, now)
    {
      d, worst := Look(cfg, sub, now, windows[i], d, worst);
    }
  }

  // ---------- what the decision promises ----------

  /** Incidents are never cut off before proactive work, for every configuration. */
  lemma EmergencyImpliesProactive(cfg: Config, sub: Snapshot, now: Time)
    ensures GoverningDecision(cfg, sub, now).emergencyBlocked ==> GoverningDecision(cfg, sub, now).proactiveBlocked
  {
    assert Blocks(cfg, sub, now, true, FiveHour) ==> Blocks(cfg, sub, now, false, FiveHour);
    assert Blocks(cfg, sub, now, true, Weekly) ==> Blocks(cfg, sub, now, false, Weekly);
  }

  /** The single-pair form: the highest percentage of the active windows. */
  function SubscriptionUsedPercent(sub: Snapshot, now: Time): real {
    var five := if Active(sub.fiveHourReset, now) && sub.fiveHour > 0.0 then sub.fiveHour else 0.0;
    if Active(sub.weeklyReset, now) && sub.weekly > five then sub.weekly else five
  }

  /** No window has thresholds of its own. */
  predicate SinglePair(cfg: Config) {
    cfg.fiveHourProactive <= 0 && cfg.fiveHourEmergency <= 0 && cfg.weeklyProactive <= 0 && cfg.weeklyEmergency <= 0
  }

  lemma Scaled(x: real, y: real, p: real)
    requires p > 0.0
    ensures x / p > y / p <==> x > y
    ensures x >= 0.0 ==> x / p >= 0.0
  {
    var u, v := x / p, y / p;
    assert u * p == x && v * p == y;
    assert (u - v) * p == x - y;
    if u > v {
      assert (u - v) * p > 0.0;
    } else {
      assert (v - u) * p >= 0.0;
    }
  }

  lemma SharedPressure(cfg: Config, sub: Snapshot)
    requires SinglePair(cfg)
    ensures Pressure(cfg, sub, FiveHour) > Pressure(cfg, sub, Weekly) <==> sub.fiveHour > sub.weekly
    ensures Pressure(cfg, sub, FiveHour) == Pressure(cfg, sub, Weekly) <==> sub.fiveHour == sub.weekly
    ensures sub.fiveHour >= 0.0 ==> Pressure(cfg, sub, FiveHour) >= 0.0
    ensures sub.weekly >= 0.0 ==> Pressure(cfg, sub, Weekly) >= 0.0
  {
    var p := ResolvePercents(cfg.proactive, cfg.emergency).0 as real;
    Scaled(sub.fiveHour, sub.weekly, p);
    Scaled(sub.weekly, sub.fiveHour, p);
  }

  /** While no window has thresholds of its own and the snapshot is fresh, the
      two-window decision is the older one: one percentage, the maximum over the
      active windows, against one pair. */
  lemma AgreesWithSinglePair(cfg: Config, sub: Snapshot, now: Time)
    requires SinglePair(cfg) && SnapshotFresh(cfg, sub.observedAt, now)
    requires sub.fiveHour >= 0.0 && sub.weekly >= 0.0
    ensures var d := GoverningDecision(cfg, sub, now);
            var used := SubscriptionUsedPercent(sub, now);
            var (p, e) := ResolvePercents(cfg.proactive, cfg.emergency);
            && d.used == used
            && d.proactiveBlocked == (used >= p as real)
            && d.emergencyBlocked == (used >= e as real)
            && (d.governing == Nobody || (d.governing.proactive == p && d.governing.emergency == e))
  {
    SharedPressure(cfg, sub);
  }

  /** For one snapshot a block never appears later: what blocks at some time blocks
      at every earlier time. */
  lemma BlocksOnlyFade(cfg: Config, sub: Snapshot, earlier: Time, later: Time)
    requires earlier <= later
    ensures GoverningDecision(cfg, sub, later).proactiveBlocked ==> GoverningDecision(cfg, sub, earlier).proactiveBlocked
    ensures GoverningDecision(cfg, sub, later).emergencyBlocked ==> GoverningDecision(cfg, sub, earlier).emergencyBlocked
  {
    forall w, em
      ensures Blocks(cfg, sub, later, em, w) ==> Blocks(cfg, sub, earlier, em, w)
    {
    }
  }

  /** Nothing is blocked, and nothing governs, once each window has reset or the
      snapshot has aged out: no snapshot wedges the gate. */
  lemma GateReopens(cfg: Config, sub: Snapshot, now: Time)
    requires (sub.fiveHourReset <= now && sub.weeklyReset <= now)
             || (cfg.maxAge > 0 && sub.observedAt != 0 && sub.observedAt + cfg.maxAge < now)
    ensures GoverningDecision(cfg, sub, now) == Decision(0.0, false, false, Nobody)
  {
  }

  /** The reported scalar and thresholds belong to one window, and that window is
      under the most pressure of those that count. */
  lemma GoverningIsWorst(cfg: Config, sub: Snapshot, now: Time)
    ensures match GoverningDecision(cfg, sub, now).governing
            case Nobody =>
              && GoverningDecision(cfg, sub, now).used == 0.0
              && forall w :: Counts(cfg, sub, now, w) ==> Pressure(cfg, sub, w) <= -1.0
            case By(g, p, e) =>
              && GoverningDecision(cfg, sub, now).used == Percent(sub, g)
              && (p, e) == ResolveWindowPercents(cfg, g)
              && Counts(cfg, sub, now, g)
              && forall w :: Counts(cfg, sub, now, w) ==> Pressure(cfg, sub, w) <= Pressure(cfg, sub, g)
  {
    if Counts(cfg, sub, now, FiveHour) && Counts(cfg, sub, now, Weekly) {
      assert Pressure(cfg, sub, FiveHour) > -1.0 || Pressure(cfg, sub, Weekly) > -1.0
             ==> Governs(cfg, sub, now, FiveHour) || Governs(cfg, sub, now, Weekly);
    }
  }
}
