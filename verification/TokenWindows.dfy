/** The custom-window token budget: an accumulator that starts over at each fire of
    a cron schedule, found by a search that looks back two window lengths. */
module TokenWindows {
  import opened Wrappers

  /** An instant; 0 is Go's zero time, which stands for "none". */
  type Time = int

  /** cron.Schedule.Next: the first fire after an instant, or 0 when there is none. */
  type Next = Time -> Time

  /** Up to the fire that follows `t`, or for ever if none does, nothing changes. */
  ghost predicate Agrees(next: Next, t: Time, u: Time) {
    t <= u && (next(t) == 0 || u < next(t)) ==> next(u) == next(t)
  }

  ghost predicate IsSchedule(next: Next) {
    && (forall t :: next(t) == 0 || next(t) > t)
    && (forall t, u :: Agrees(next, t, u))
  }

  predicate Fires(next: Next, u: Time) {
    u != 0 && next(u - 1) == u
  }

  /** The latest fire at or before `now`, without any bound on the search. */
  ghost predicate LatestFire(next: Next, now: Time, f: Time) {
    Fires(next, f) && f <= now && forall u :: f < u <= now ==> !Fires(next, u)
  }

  const DEFAULT_WINDOW := 7 * 24 * 3600 * 1_000_000_000

  function Reach(window: int): int {
    2 * (if window <= 0 then DEFAULT_WINDOW else window)
  }

  // ---------- the bounded search ----------

  function LastFrom(next: Next, t: Time, now: Time): Option<Time>
    requires IsSchedule(next)
    decreases now - t
  {
    var n := next(t);
    if n == 0 || n > now then None
    else match LastFrom(next, n, now) { case None => Some(n) case Some(l) => Some(l) }
  }

  function WindowStart(next: Next, now: Time, window: int): Option<Time>
    requires IsSchedule(next)
  {
    LastFrom(next, now - Reach(window), now)
  }

  method CurrentWindowStart(next: Next, now: Time, window: int) returns (last: Time, found: bool)
    requires IsSchedule(next)
    ensures WindowStart(next, now, window) == if found then Some(last) else None
  {
    var w := window;
    if w <= 0 {
      w := DEFAULT_WINDOW;
    }
    var floor := now - 2 * w;
    last, found := 0, false;
    var t := next(floor);
    ghost var from := floor;
    while t != 0 && t <= now
      invariant t == next(from) && (t == 0 || from < t)
      invariant found ==> last == from
      invariant WindowStart(next, now, window) ==
                match LastFrom(next, from, now) { case Some(l) => Some(l) case None => if found then Some(last) else None }
      decreases now - from
    {
      last, found := t, true;
      from := t;
      t := next(t);
    }
  }

  lemma NextIsFire(next: Next, t: Time)
    requires IsSchedule(next) && next(t) != 0
    ensures Fires(next, next(t))
    ensures forall u :: t < u < next(t) ==> !Fires(next, u)
  {
    assert Agrees(next, t, next(t) - 1);
    forall u | t < u < next(t)
      ensures !Fires(next, u)
    {
      assert Agrees(next, t, u - 1);
    }
  }

  /** What the search finds: the latest fire of the stretch it looks at, which does
      not include the stretch's first instant. */
  lemma {:induction false} LastFromFinds(next: Next, t: Time, now: Time)
    requires IsSchedule(next)
    ensures match LastFrom(next, t, now)
            case Some(f) => t < f && LatestFire(next, now, f)
            case None => forall u :: t < u <= now ==> !Fires(next, u)
    decreases now - t
  {
    var n := next(t);
    if n == 0 {
      forall u | t < u <= now
        ensures !Fires(next, u)
      {
        assert Agrees(next, t, u - 1);
      }
    } else {
      NextIsFire(next, t);
      if n <= now {
        LastFromFinds(next, n, now);
      }
    }
  }

  /** The bounded search finds the true latest fire exactly when that fire is less
      than two windows old; one exactly two windows old is already missed. */
  lemma SearchFindsIffRecent(next: Next, now: Time, window: int, f: Time)
    requires IsSchedule(next) && LatestFire(next, now, f)
    ensures WindowStart(next, now, window) == Some(f) <==> now - f < Reach(window)
    ensures WindowStart(next, now, window).Some? ==> WindowStart(next, now, window) == Some(f)
  {
    LastFromFinds(next, now - Reach(window), now);
  }

  lemma LatestOfThree()
    ensures LatestFire(Every(3), 5, 3)
  {
    var next := Every(3);
    assert next(2) == 3 && next(3) == 6 && next(4) == 6;
    forall u | 3 < u <= 5
      ensures !Fires(next, u)
    {
      assert u == 4 || u == 5;
    }
  }

  lemma TwoWindowsOld(next: Next, now: Time, window: int, f: Time)
    requires IsSchedule(next) && LatestFire(next, now, f) && now - f >= Reach(window)
    ensures WindowStart(next, now, window) == None
  {
    SearchFindsIffRecent(next, now, window, f);
  }

  /** On a schedule that fires every three instants a window of one instant looks back
      two: at 5 the fire at 3 is exactly that old, and is missed. */
  lemma TwoWindowsOldMissed()
    ensures IsSchedule(Every(3)) && LatestFire(Every(3), 5, 3) && 5 - 3 == Reach(1)
    ensures WindowStart(Every(3), 5, 1) == None
  {
    EveryIsDense(3, 2);
    LatestOfThree();
    TwoWindowsOld(Every(3), 5, 1, 3);
  }

  // ---------- the accumulator ----------

  datatype State = State(start: Time, tokens: int)

  /** A schedule that does not parse is None. */
  datatype Config = Config(schedule: Option<Next>, window: int)

  ghost predicate ValidConfig(cfg: Config) {
    cfg.schedule.Some? ==> IsSchedule(cfg.schedule.value)
  }

  function Rolled(cfg: Config, s: State, now: Time, addTokens: int): State
    requires ValidConfig(cfg)
  {
    var start := if cfg.schedule.Some? then WindowStart(cfg.schedule.value, now, cfg.window) else None;
    var open := if start.Some? && s.start < start.value then State(start.value, 0) else s;
    if addTokens > 0 then open.(tokens := open.tokens + addTokens) else open
  }

  method Roll(cfg: Config, s: State, now: Time, addTokens: int) returns (state: State)
    requires ValidConfig(cfg)
    ensures state == Rolled(cfg, s, now, addTokens)
  {
    state := s;
    if cfg.schedule.Some? {
      var start, ok := CurrentWindowStart(cfg.schedule.value, now, cfg.window);
      if ok && state.start < start {
        state := State(start, 0);
      }
    }
    if addTokens > 0 {
      state := State(state.start, state.tokens + addTokens);
    }
  }

  /** One call of Roll: a completed turn, or with 0 tokens a read by the admission gate. */
  datatype Turn = Turn(now: Time, tokens: int)

  function RunRolls(cfg: Config, turns: seq<Turn>): State
    requires ValidConfig(cfg)
  {
    if turns == [] then State(0, 0)
    else
      var last := turns[|turns| - 1];
      Rolled(cfg, RunRolls(cfg, turns[..|turns| - 1]), last.now, last.tokens)
  }

  /** The tokens of the turns at or after an instant. */
  function SpentSince(turns: seq<Turn>, from: Time): int {
    if turns == [] then 0
    else
      var last := turns[|turns| - 1];
      SpentSince(turns[..|turns| - 1], from) + (if last.now >= from && last.tokens > 0 then last.tokens else 0)
  }

  predicate InOrder(turns: seq<Turn>) {
    forall i, j :: 0 <= i < j < |turns| ==> turns[i].now <= turns[j].now
  }

  lemma {:induction false} NothingSpentSince(turns: seq<Turn>, from: Time)
    requires forall i :: 0 <= i < |turns| ==> turns[i].now < from
    ensures SpentSince(turns, from) == 0
  {
    if turns != [] {
      NothingSpentSince(turns[..|turns| - 1], from);
    }
  }

  /** The window never moves back, whatever the schedule and however the clock jumps. */
  lemma {:induction false} StartNeverMovesBack(cfg: Config, turns: seq<Turn>, n: nat)
    requires ValidConfig(cfg) && n <= |turns|
    ensures RunRolls(cfg, turns[..n]).start <= RunRolls(cfg, turns).start
    decreases |turns|
  {
    if n < |turns| {
      var before := turns[..|turns| - 1];
      assert before[..n] == turns[..n];
      StartNeverMovesBack(cfg, before, n);
    } else {
      assert turns[..n] == turns;
    }
  }

  /** Every fire is followed by another within two windows. */
  ghost predicate Dense(next: Next, window: int) {
    forall u :: Fires(next, u) ==> next(u) != 0 && next(u) - u <= Reach(window)
  }

  /** The schedule that fires every `period`. */
  function Every(period: int): Next
    requires period > 0
  {
    t => if t < period then period else (t / period + 1) * period
  }

  lemma Cancel(a: int, b: int, p: int)
    requires p > 0 && a * p < b * p
    ensures a < b
  {
    assert a >= b ==> (a - b) * p >= 0;
    assert (a - b) * p == a * p - b * p;
  }

  lemma Multiples(period: int, k: int, t: Time)
    requires period > 0 && k * period <= t < (k + 1) * period
    ensures t / period == k
  {
    Cancel(t / period, k + 1, period);
    Cancel(k, t / period + 1, period);
  }

  lemma NextMultiple(period: int, t: Time)
    requires period > 0 && t >= period
    ensures var k := t / period;
            k >= 1 && k * period <= t < (k + 1) * period && (k + 1) * period - k * period == period
  {
    Cancel(1, t / period + 1, period);
  }

  /** Such a schedule is dense enough for every window of at least half its period, so
      the two laws below speak of real schedules. */
  lemma EveryIsDense(period: int, window: int)
    requires 0 < period <= Reach(window)
    ensures IsSchedule(Every(period)) && Dense(Every(period), window)
    ensures Fires(Every(period), period)
  {
    var next := Every(period);
    forall t
      ensures next(t) > t && next(t) > 0
    {
      if t >= period {
        NextMultiple(period, t);
      }
    }
    forall t, u
      ensures Agrees(next, t, u)
    {
      if t <= u < next(t) && t >= period {
        NextMultiple(period, t);
        Multiples(period, t / period, u);
      }
    }
    forall u | Fires(next, u)
      ensures next(u) - u <= Reach(window)
    {
      if u >= period {
        NextMultiple(period, u);
        FireIsMultiple(period, u);
      }
    }
  }

  lemma FireIsMultiple(period: int, u: Time)
    requires period > 0 && u >= period && Fires(Every(period), u)
    ensures u == u / period * period
  {
    if u - 1 >= period {
      var k := (u - 1) / period + 1;
      NextMultiple(period, u - 1);
      assert u == k * period;
      Multiples(period, k, u);
    } else {
      Multiples(period, 1, u);
    }
  }

  lemma DenseSearchFinds(next: Next, now: Time, window: int, f: Time)
    requires IsSchedule(next) && Dense(next, window) && LatestFire(next, now, f)
    ensures WindowStart(next, now, window) == Some(f)
  {
    NextIsFire(next, f);
    SearchFindsIffRecent(next, now, window, f);
  }

  /** Some fire at or before `now` means there is a latest one. */
  lemma {:induction false} LatestExists(next: Next, now: Time, f: Time) returns (l: Time)
    requires IsSchedule(next) && Fires(next, f) && f <= now
    ensures LatestFire(next, now, l) && f <= l
    decreases now - f
  {
    if next(f) == 0 || next(f) > now {
      LastFromFinds(next, f, now);
      l := f;
    } else {
      NextIsFire(next, f);
      l := LatestExists(next, now, next(f));
    }
  }

  /** As time passes the latest fire stays or moves past the earlier instant. */
  lemma LatestMovesOn(next: Next, prev: Time, now: Time, g: Time, f: Time)
    requires LatestFire(next, prev, g) && LatestFire(next, now, f) && prev <= now
    ensures g == f || (g < f && prev < f)
  {
  }

  lemma RolledAt(cfg: Config, s: State, last: Turn, f: Time)
    requires ValidConfig(cfg) && cfg.schedule.Some?
    requires WindowStart(cfg.schedule.value, last.now, cfg.window) == Some(f)
    ensures Rolled(cfg, s, last.now, last.tokens) ==
            var open := if s.start < f then State(f, 0) else s;
            State(open.start, open.tokens + if last.tokens > 0 then last.tokens else 0)
  {
  }

  /** The schedule fires often enough for the search, and has fired by the first turn. */
  ghost predicate Metered(cfg: Config, turns: seq<Turn>, first: Time) {
    && ValidConfig(cfg) && cfg.schedule.Some?
    && Dense(cfg.schedule.value, cfg.window)
    && Timed(turns, first) && Fires(cfg.schedule.value, first)
  }

  predicate Timed(turns: seq<Turn>, first: Time) {
    turns != [] && InOrder(turns) && 0 < first <= turns[0].now
  }

  /** On a dense schedule that has fired before the first turn, after any run of turns
      in time order, with reads anywhere between them, the window is the one the
      latest fire opened and its count is exactly what was spent at or after it. */
  lemma {:induction false} WindowCountsExactly(cfg: Config, turns: seq<Turn>, first: Time, f: Time)
    requires Metered(cfg, turns, first)
    requires LatestFire(cfg.schedule.value, turns[|turns| - 1].now, f)
    ensures RunRolls(cfg, turns) == State(f, SpentSince(turns, f))
  {
    var next := cfg.schedule.value;
    var last, before := turns[|turns| - 1], turns[..|turns| - 1];
    DenseSearchFinds(next, last.now, cfg.window, f);
    RolledAt(cfg, RunRolls(cfg, before), last, f);
    if before == [] {
      assert first <= last.now;
      assert first <= f;
    } else {
      var prev := before[|before| - 1].now;
      var g := LatestExists(next, prev, first);
      WindowCountsExactly(cfg, before, first, g);
      LatestMovesOn(next, prev, last.now, g, f);
      if g < f {
        NothingSpentSince(before, f);
      }
    }
  }

  // ---------- the custom-window decision ----------

  function UsedPercent(cfg: Config, limit: int, s: State, now: Time): real
    requires ValidConfig(cfg)
  {
    if limit <= 0 then 0.0 else Rolled(cfg, s, now, 0).tokens as real / limit as real * 100.0
  }

  lemma TokensMeasureWindow(cfg: Config, turns: seq<Turn>, now: Time, first: Time, f: Time)
    requires Metered(cfg, turns, first)
    requires turns[|turns| - 1].now <= now && LatestFire(cfg.schedule.value, now, f)
    ensures Rolled(cfg, RunRolls(cfg, turns), now, 0).tokens == SpentSince(turns, f)
  {
    OneMoreTurn(turns, now, first);
    NothingMoreSpent(cfg, turns, now, f);
    WindowCountsExactly(cfg, turns + [Turn(now, 0)], first, f);
  }

  lemma OneMoreTurn(turns: seq<Turn>, now: Time, first: Time)
    requires Timed(turns, first) && turns[|turns| - 1].now <= now
    ensures Timed(turns + [Turn(now, 0)], first)
  {
  }

  lemma NothingMoreSpent(cfg: Config, turns: seq<Turn>, now: Time, f: Time)
    requires ValidConfig(cfg)
    ensures RunRolls(cfg, turns + [Turn(now, 0)]) == Rolled(cfg, RunRolls(cfg, turns), now, 0)
    ensures SpentSince(turns + [Turn(now, 0)], f) == SpentSince(turns, f)
  {
    var all := turns + [Turn(now, 0)];
    assert all[..|all| - 1] == turns;
  }

  /** The admission gate at `now`, reading the accumulator the turns left behind,
      reaches a threshold exactly when the tokens spent since the fire that governs
      `now` make up that share of the limit. */
  lemma UsedPercentMeasuresWindow(cfg: Config, limit: int, turns: seq<Turn>, now: Time, first: Time, f: Time, threshold: int)
    requires Metered(cfg, turns, first) && limit > 0
    requires turns[|turns| - 1].now <= now && LatestFire(cfg.schedule.value, now, f)
    ensures UsedPercent(cfg, limit, RunRolls(cfg, turns), now) >= threshold as real <==>
            100 * SpentSince(turns, f) >= threshold * limit
  {
    TokensMeasureWindow(cfg, turns, now, first, f);
    PercentOf(SpentSince(turns, f), limit, threshold);
  }

  lemma PercentOf(spent: int, limit: int, threshold: int)
    requires limit > 0
    ensures spent as real / limit as real * 100.0 >= threshold as real <==> 100 * spent >= threshold * limit
  {
    var q := spent as real / limit as real;
    var l := limit as real;
    assert q * l == spent as real;
    assert (100 * spent - threshold * limit) as real == (q * 100.0 - threshold as real) * l;
    if q * 100.0 >= threshold as real {
      assert (q * 100.0 - threshold as real) * l >= 0.0;
    } else {
      assert (q * 100.0 - threshold as real) * l < 0.0;
    }
  }
}
