/** Usage within a period: a moving baseline over reported totals. */
module UsageLaws {
  import opened Options
  import opened Tenancy
  import opened Enforcement
  import opened EnforcementLaws
  import opened Periods
  import opened Evaluation
  import opened EvaluationLaws
  import opened RolloverLaws

  /** The state after a non-empty run of readings, the first of which opens the period. */
  function MeasureRun(limit: Limit, window: PeriodWindow, readings: seq<Reading>): PeriodState
    requires readings != []
    decreases |readings|
  {
    var n := |readings| - 1;
    Measured(
      if n == 0 then OpenState(limit, window, readings[0]) else MeasureRun(limit, window, readings[..n]),
      readings[n])
  }

  function LowestTotal(readings: seq<Reading>): real
    requires readings != []
    decreases |readings|
  {
    var n := |readings| - 1;
    if n == 0 then readings[0].total
    else
      var low := LowestTotal(readings[..n]);
      if readings[n].total < low then readings[n].total else low
  }

  /** What was gained between consecutive readings, losses ignored. */
  function Gains(readings: seq<Reading>): real
    requires readings != []
    decreases |readings|
  {
    var n := |readings| - 1;
    if n == 0 then 0.0
    else
      var step := readings[n].total - readings[n - 1].total;
      Gains(readings[..n]) + if step > 0.0 then step else 0.0
  }

  /** The period counts only what is spent from its opening on. */
  predicate Discounting(limit: Limit, window: PeriodWindow) {
    window.periodType != Lifetime && window.periodType != Custom && !limit.countExisting
  }

  /** Totals are not negative, and a reading that could not be taken reports zero. */
  predicate Sane(r: Reading) {
    r.total >= 0.0 && (!r.available ==> r.total == 0.0)
  }

  ghost predicate NonNegative(totals: map<Id, real>) {
    forall id :: id in totals ==> totals[id] >= 0.0
  }

  lemma {:induction false} SumsAreNonNegative(totals: map<Id, real>, ids: seq<Id>)
    requires NonNegative(totals)
    ensures SumOver(totals, ids) >= 0.0
  {
    if ids != [] {
      SumsAreNonNegative(totals, ids[1..]);
    }
  }

  /** What the index reports is sane, for every level of limit, as long as no stored total is negative. */
  lemma ReportedIsSane(index: UsageIndex, org: Org, limit: Limit)
    requires NonNegative(index.users) && NonNegative(index.projects)
    requires NonNegative(index.applications) && NonNegative(index.groups)
    ensures Sane(ReportedTotal(index, org, limit))
  {
    SumsAreNonNegative(index.projects, ProjectIdsFor(org, limit.entity));
    if limit.entity.id in org.members {
      SumsAreNonNegative(index.users, org.members[limit.entity.id]);
    }
  }

  /** The baseline is the lowest total reported so far, an unavailable reading counting as zero. */
  lemma {:induction false} BaselineIsRunningMinimum(limit: Limit, window: PeriodWindow, readings: seq<Reading>)
    requires readings != [] && forall r :: r in readings ==> Sane(r)
    ensures var state := MeasureRun(limit, window, readings);
            var last := readings[|readings| - 1];
            && state.baseline == (if Discounting(limit, window) then LowestTotal(readings) else 0.0)
            && 0.0 <= state.baseline <= last.total
            && state.reported == last.total && state.available == last.available
            && state.used == (if last.available then last.total - state.baseline else 0.0)
    decreases |readings|
  {
    var n := |readings| - 1;
    assert readings[n] in readings;
    if n > 0 {
      assert forall r :: r in readings[..n] ==> r in readings;
      BaselineIsRunningMinimum(limit, window, readings[..n]);
    }
  }

  /**
   With every reading available, a discounting limit has used its last total minus the lowest so
   far: never negative, and never more than the gains between readings add up to.
   */
  lemma {:induction false} UsageIsBoundedByGains(limit: Limit, window: PeriodWindow, readings: seq<Reading>)
    requires readings != [] && forall r :: r in readings ==> Sane(r) && r.available
    requires Discounting(limit, window)
    ensures var used := MeasureRun(limit, window, readings).used;
            used == readings[|readings| - 1].total - LowestTotal(readings) && 0.0 <= used <= Gains(readings)
    decreases |readings|
  {
    BaselineIsRunningMinimum(limit, window, readings);
    var n := |readings| - 1;
    assert readings[n] in readings;
    if n > 0 {
      assert forall r :: r in readings[..n] ==> r in readings;
      UsageIsBoundedByGains(limit, window, readings[..n]);
    }
  }

  predicate AllAvailable(readings: seq<Reading>) {
    forall r :: r in readings ==> r.available
  }

  function OnlyAvailable(readings: seq<Reading>): seq<Reading> {
    if readings == [] then []
    else
      var n := |readings| - 1;
      OnlyAvailable(readings[..n]) + if readings[n].available then [readings[n]] else []
  }

  /**
   A reading that could not be taken still moves the baseline, to zero.  So a discounting limit
   measures the available readings alone exactly when none was missed, or when one of them was
   zero anyway; otherwise everything ever reported counts as used.
   */
  lemma MissedReadingsEraseTheBaseline(limit: Limit, window: PeriodWindow, readings: seq<Reading>)
    requires readings != [] && (forall r :: r in readings ==> Sane(r)) && readings[|readings| - 1].available
    requires Discounting(limit, window)
    ensures var seen := OnlyAvailable(readings);
            && seen != [] && seen[|seen| - 1] == readings[|readings| - 1]
            && (MeasureRun(limit, window, readings).used == MeasureRun(limit, window, seen).used <==>
                AllAvailable(readings) || LowestTotal(seen) == 0.0)
            && (!AllAvailable(readings) ==> MeasureRun(limit, window, readings).used == readings[|readings| - 1].total)
  {
    var seen := OnlyAvailable(readings);
    SeenReadings(readings);
    LowestOf(readings);
    LowestOf(seen);
    BaselineIsRunningMinimum(limit, window, readings);
    BaselineIsRunningMinimum(limit, window, seen);
  }

  lemma {:induction false} SeenReadings(readings: seq<Reading>)
    requires forall r :: r in readings ==> Sane(r)
    ensures var seen := OnlyAvailable(readings);
            && (forall r :: r in seen ==> r in readings && r.available)
            && (AllAvailable(readings) ==> seen == readings)
            && (readings != [] && readings[|readings| - 1].available ==>
                 seen != [] && seen[|seen| - 1] == readings[|readings| - 1])
    decreases |readings|
  {
    if readings != [] {
      var n := |readings| - 1;
      assert readings[n] in readings && readings == readings[..n] + [readings[n]];
      assert forall r :: r in readings[..n] ==> r in readings;
      SeenReadings(readings[..n]);
    }
  }

  /** No total is negative, and a missed reading counts as zero. */
  lemma {:induction false} LowestOf(readings: seq<Reading>)
    requires readings != [] && forall r :: r in readings ==> Sane(r)
    ensures LowestTotal(readings) >= 0.0
    ensures !AllAvailable(readings) ==> LowestTotal(readings) == 0.0
    decreases |readings|
  {
    var n := |readings| - 1;
    assert Sane(readings[n]) && readings == readings[..n] + [readings[n]];
    if n > 0 {
      assert forall r :: r in readings[..n] ==> r in readings;
      LowestOf(readings[..n]);
    }
  }

  // --------------------------------------------------------- as the evaluation sees it

  /** The measured columns of a period state. */
  predicate SameMeasure(a: PeriodState, b: PeriodState) {
    a.baseline == b.baseline && a.reported == b.reported && a.used == b.used && a.available == b.available
  }

  /** Judging a measured state never changes the measure, only the status and its stamps. */
  lemma BreachKeepsMeasure(
    s: System, limit: Limit, window: PeriodWindow, state: PeriodState, weather: Weather, now: Moment)
    ensures var e := Breach(s, limit, window, state, weather, now);
            var key := StateKey(limit.id, window.key);
            key in e.ledger && SameMeasure(e.ledger[key], state)
  {
  }

  lemma BudgetKeepsMeasure(
    s: System, orders: Orders, limit: Limit, window: PeriodWindow, state: PeriodState, weather: Weather, now: Moment)
    ensures var e := WithinBudget(s, orders, limit, window, state, weather, now).system;
            var key := StateKey(limit.id, window.key);
            key in e.ledger && SameMeasure(e.ledger[key], state)
  {
  }

  /** An evaluation stores exactly the measure of its reading over the state it found. */
  lemma EvaluationMeasures(
    s: System, orders: Orders, limit: Limit, window: PeriodWindow, reading: Reading, weather: Weather, now: Moment)
    requires Inv(s.world) && GoodOrders(orders)
    ensures var e := EvaluateOne(s, orders, limit, window, reading, weather, now).system;
            var key := StateKey(limit.id, window.key);
            && Inv(e.world) && key in e.ledger && SameMeasure(e.ledger[key], Observed(s, limit, window, reading))
  {
    EvaluationTouches(s, orders, limit, window, reading, weather, now);
    StaleTouches(s, orders, limit, window.key, weather, now);
    var s1 := CloseStale(s, orders, limit, window.key, weather, now);
    var state := Observed(s, limit, window, reading);
    assert state == Observed(s1, limit, window, reading);
    if reading.available && window.isActive {
      if state.used >= limit.creditLimit as real {
        BreachKeepsMeasure(s1, limit, window, state, weather, now);
      } else {
        BudgetKeepsMeasure(s1, orders, limit, window, state, weather, now);
      }
    }
  }

  // ------------------------------------------------- whatever else is evaluated meanwhile

  function KeyOf(t: Turn): StateKey {
    StateKey(t.limit.id, t.window.key)
  }

  /** The turns that evaluate this limit in this window. */
  function OwnTurns(turns: seq<Turn>, key: StateKey): seq<Turn> {
    if turns == [] then []
    else OwnTurns(turns[..|turns| - 1], key) + if KeyOf(turns[|turns| - 1]) == key then [turns[|turns| - 1]] else []
  }

  function ReadingsOf(turns: seq<Turn>): seq<Reading> {
    seq(|turns|, i requires 0 <= i < |turns| => turns[i].reading)
  }

  /** Closing a period changes its status and a stamp, never its measure. */
  lemma {:induction false} ClosingKeepsMeasures(
    s: System, orders: Orders, limit: Limit, keys: seq<StateKey>, weather: Weather, now: Moment, key: StateKey)
    requires forall k :: k in keys ==> k in s.ledger
    ensures var r := CloseEach(s, orders, limit, keys, weather, now);
            (key in r.ledger <==> key in s.ledger) && (key in s.ledger ==> SameMeasure(r.ledger[key], s.ledger[key]))
    decreases |keys|
  {
    if keys != [] {
      assert keys[0] in keys && forall k :: k in keys[1..] ==> k in keys;
      var s1 := CloseOne(s, orders, limit, keys[0], weather, now);
      ClosingKeepsMeasures(s1, orders, limit, keys[1..], weather, now, key);
    }
  }

  /** A turn of another limit, or of this one in another window, leaves the measure alone. */
  lemma OtherTurnsKeepMeasures(s: System, orders: Orders, t: Turn, key: StateKey)
    requires Inv(s.world) && GoodOrders(orders) && KeyOf(t) != key
    ensures var e := OneTurn(s, orders, t);
            && Inv(e.world) && (key in e.ledger <==> key in s.ledger)
            && (key in s.ledger ==> SameMeasure(e.ledger[key], s.ledger[key]))
  {
    var s1 := CloseStale(s, orders, t.limit, t.window.key, t.weather, t.now);
    StaleTouches(s, orders, t.limit, t.window.key, t.weather, t.now);
    var keys := orders.periods(s.ledger, StaleKeys(s.ledger, t.limit.id, t.window.key));
    ClosingKeepsMeasures(s, orders, t.limit, keys, t.weather, t.now, key);
    JudgeTouches(s1, orders, t.limit, t.window, t.reading, t.weather, t.now);
  }

  lemma OwnTurnMeasures(s: System, orders: Orders, t: Turn)
    requires Inv(s.world) && GoodOrders(orders)
    ensures var e := OneTurn(s, orders, t);
            && Inv(e.world) && KeyOf(t) in e.ledger
            && SameMeasure(e.ledger[KeyOf(t)], Observed(s, t.limit, t.window, t.reading))
  {
    EvaluationMeasures(s, orders, t.limit, t.window, t.reading, t.weather, t.now);
  }

  /** What a period row must hold after these turns of its own. */
  ghost predicate HoldsMeasureOf(ledger: map<StateKey, PeriodState>, key: StateKey, own: seq<Turn>) {
    (key in ledger <==> own != []) &&
    (own != [] ==> SameMeasure(ledger[key], MeasureRun(own[0].limit, own[0].window, ReadingsOf(own))))
  }

  lemma OneMoreReading(ledger: map<StateKey, PeriodState>, key: StateKey, own: seq<Turn>, t: Turn, after: PeriodState)
    requires KeyOf(t) == key && HoldsMeasureOf(ledger, key, own)
    requires SameMeasure(
               after,
               Measured(if key in ledger then ledger[key] else OpenState(t.limit, t.window, t.reading), t.reading))
    ensures SameMeasure(after, MeasureRun((own + [t])[0].limit, (own + [t])[0].window, ReadingsOf(own + [t])))
  {
    var readings := ReadingsOf(own + [t]);
    assert readings[..|own|] == ReadingsOf(own);
  }

  /**
   Whatever limits are evaluated in whatever windows, in any order and under any failures, and
   however the limits are edited in between, the row of a period holds exactly the measure of the
   readings its own evaluations took, and does not exist before the first of them.
   */
  lemma {:induction false} EvaluationsMeasureTheRun(s: System, orders: Orders, turns: seq<Turn>, key: StateKey)
    requires Inv(s.world) && GoodOrders(orders) && key !in s.ledger
    ensures var e := Turns(s, orders, turns);
            Inv(e.world) && HoldsMeasureOf(e.ledger, key, OwnTurns(turns, key))
    decreases |turns|
  {
    if turns != [] {
      var n := |turns| - 1;
      EvaluationsMeasureTheRun(s, orders, turns[..n], key);
      var before := Turns(s, orders, turns[..n]);
      if KeyOf(turns[n]) == key {
        OwnTurnMeasures(before, orders, turns[n]);
        OneMoreReading(before.ledger, key, OwnTurns(turns[..n], key), turns[n],
          OneTurn(before, orders, turns[n]).ledger[key]);
      } else {
        OtherTurnsKeepMeasures(before, orders, turns[n], key);
        assert OwnTurns(turns[..n], key) + [] == OwnTurns(turns[..n], key);
      }
    }
  }
}
