/** What the recorded status, stamps and bounds of a period mean after an evaluation. */
module StatusLaws {
  import opened Options
  import opened Tenancy
  import opened Entities
  import opened Enforcement
  import opened EnforcementLaws
  import opened Enforcer
  import opened Periods
  import opened Evaluation
  import opened EvaluationLaws
  import opened RolloverLaws

  function StatusOf(ledger: map<StateKey, PeriodState>, key: StateKey): LimitStatus {
    if key in ledger then ledger[key].status else LimitOk
  }

  /** The limit had a restriction of this period in force. */
  ghost predicate Restricting(w: World, limitId: nat, period: string) {
    exists k :: HeldBy(w, limitId, k) && k.period == period
  }

  lemma RestrictingIff(w: World, limitId: nat, period: string)
    ensures Restricting(w, limitId, period) <==> AppliedRowsOf(w.actions, limitId, Some(period)) != {}
  {
    if AppliedRowsOf(w.actions, limitId, Some(period)) != {} {
      var k :| k in AppliedRowsOf(w.actions, limitId, Some(period));
      assert HeldBy(w, limitId, k) && k.period == period;
    }
    if Restricting(w, limitId, period) {
      var k :| HeldBy(w, limitId, k) && k.period == period;
      assert k in AppliedRowsOf(w.actions, limitId, Some(period));
    }
  }

  /** Some planned target was not in force before and is now. */
  ghost predicate RestrictsAnew(a: World, b: World, plan: seq<Target>, limitId: nat, period: string) {
    exists t :: t in plan
                && !Has(RowOf(a, Key(limitId, period, t)), Applied) && Has(RowOf(b, Key(limitId, period, t)), Applied)
  }

  lemma AnyAppliedIff(
    w: World, limitId: nat, entity: Entity, period: string, targets: seq<Target>, faults: FaultPlan)
    requires Distinct(targets)
    ensures var (w', vs) := ApplyTargets(w, limitId, entity, period, targets, faults);
            AnyApplied(vs) <==> RestrictsAnew(w, w', targets, limitId, period)
  {
    var (w', vs) := ApplyTargets(w, limitId, entity, period, targets, faults);
    forall i | 0 <= i < |targets|
      ensures var key := Key(limitId, period, targets[i]);
              vs[i] == NewlyApplied <==> !Has(RowOf(w, key), Applied) && Has(RowOf(w', key), Applied)
    {
      var key := Key(limitId, period, targets[i]);
      CycleAt(w, limitId, entity, period, targets, faults, i);
      assert CellOf(w', key).row == RowOf(w', key) && CellOf(w, key).row == RowOf(w, key);
    }
    if AnyApplied(vs) {
      var i :| 0 <= i < |vs| && vs[i] == NewlyApplied;
      assert targets[i] in targets;
    }
    if RestrictsAnew(w, w', targets, limitId, period) {
      var t :| t in targets && !Has(RowOf(w, Key(limitId, period, t)), Applied)
               && Has(RowOf(w', Key(limitId, period, t)), Applied);
      var i :| 0 <= i < |targets| && targets[i] == t;
      assert vs[i] == NewlyApplied;
    }
  }

  /** Over budget: restricted exactly when something was newly put in force, and only an enforcing limit does that. */
  lemma BreachStatus(
    s: System, limit: Limit, window: PeriodWindow, state: PeriodState, weather: Weather, now: Moment)
    requires Inv(s.world)
    ensures var e := Breach(s, limit, window, state, weather, now);
            var key := StateKey(limit.id, window.key);
            var plan := Plan(s.org, s.world.projects, limit.entity);
            var anew := RestrictsAnew(s.world, e.world, plan, limit.id, window.key);
            && key in e.ledger && e.ledger[key].status == (if anew then LimitRestricted else LimitBreached)
            && (anew ==> limit.enforce && limit.entity !in s.org.exempt && weather.connected)
            && (!(limit.enforce && limit.entity !in s.org.exempt && weather.connected) ==> e.world == s.world)
            && e.ledger[key].breachedAt == Some(if state.breachedAt.Some? then state.breachedAt.value else now)
            && e.ledger[key].restrictedAt ==
               (if anew && state.restrictedAt.None? then Some(now) else state.restrictedAt)
            && e.ledger[key].warnedAt == state.warnedAt && e.ledger[key].restoredAt == state.restoredAt
  {
    var plan := Plan(s.org, s.world.projects, limit.entity);
    PlanMeans(s.org, s.world.projects, limit.entity, Target(RemoveUserRoles, ""));
    AnyAppliedIff(s.world, limit.id, limit.entity, window.key, plan, weather.faults);
  }

  /** The share of the budget from which a limit warns, without division. */
  predicate AtWarning(limit: Limit, used: real) {
    used * 100.0 >= limit.creditLimit as real * limit.warningPct as real
  }

  lemma WarningThreshold(limit: Limit, used: real)
    ensures used >= limit.creditLimit as real * limit.warningPct as real / 100.0 <==> AtWarning(limit, used)
  {
  }

  /** Within budget: restored when something was given back now or before, else warned from the threshold on. */
  lemma BudgetStatus(
    s: System, orders: Orders, limit: Limit, window: PeriodWindow, state: PeriodState, weather: Weather, now: Moment)
    requires Inv(s.world) && GoodOrders(orders) && weather.undoFaults == {}
    ensures var e := WithinBudget(s, orders, limit, window, state, weather, now);
            var key := StateKey(limit.id, window.key);
            var lifts := weather.connected && Restricting(s.world, limit.id, window.key);
            && !e.raised && key in e.system.ledger
            && e.system.ledger[key].status ==
               (if lifts || state.status == LimitRestored then LimitRestored
                else if AtWarning(limit, state.used) then LimitWarned
                else LimitOk)
            && e.system.ledger[key].restoredAt == (if lifts then Some(now) else state.restoredAt)
            && e.system.ledger[key].warnedAt ==
               (if e.system.ledger[key].status == LimitWarned && state.warnedAt.None? then Some(now)
                else state.warnedAt)
            && e.system.ledger[key].breachedAt == state.breachedAt
            && e.system.ledger[key].restrictedAt == state.restrictedAt
  {
    RestrictingIff(s.world, limit.id, window.key);
    WarningThreshold(limit, state.used);
    RestoreLimitClears(s.world, orders.rows, limit.id, Some(window.key), CreditIncreased);
    var keys := AppliedRowsOf(s.world.actions, limit.id, Some(window.key));
    var order := orders.rows(s.world.actions, keys);
    assert Lists(order, keys);
    WalkCountsAll(s.world, order, CreditIncreased);
    NonEmptyIffListed(order, keys);
  }

  lemma NonEmptyIffListed(order: seq<Key>, keys: set<Key>)
    requires Lists(order, keys)
    ensures |order| > 0 <==> keys != {}
  {
    if |order| > 0 {
      assert order[0] in order;
    }
    if keys != {} {
      var k :| k in keys;
      assert k in order;
    }
  }

  /** What the status has to be, given what was there before and what is there now. */
  ghost predicate StatusFits(
    a: System, b: System, limit: Limit, window: PeriodWindow, reading: Reading, connected: bool)
  {
    var key := StateKey(limit.id, window.key);
    && key in b.ledger && (!reading.available ==> b.ledger[key].used == 0.0)
    && b.ledger[key].status ==
      if !reading.available || !window.isActive then LimitOk
      else if b.ledger[key].used >= limit.creditLimit as real then
        if RestrictsAnew(a.world, b.world, Plan(a.org, a.world.projects, limit.entity), limit.id, window.key)
        then LimitRestricted else LimitBreached
      else if (connected && Restricting(a.world, limit.id, window.key)) || StatusOf(a.ledger, key) == LimitRestored
      then LimitRestored
      else if AtWarning(limit, b.ledger[key].used) then LimitWarned
      else LimitOk
  }

  lemma JudgedStatusFits(
    s: System, orders: Orders, limit: Limit, window: PeriodWindow, reading: Reading, weather: Weather, now: Moment)
    requires Inv(s.world) && GoodOrders(orders) && weather.undoFaults == {}
    ensures var e := Judge(s, orders, limit, window, reading, weather, now).system;
            StatusFits(s, e, limit, window, reading, weather.connected)
  {
    var state := Observed(s, limit, window, reading);
    if reading.available && window.isActive {
      if state.used >= limit.creditLimit as real {
        BreachStatus(s, limit, window, state, weather, now);
        BreachKeepsUsed(s, limit, window, state, weather, now);
      } else {
        BudgetStatus(s, orders, limit, window, state, weather, now);
        BudgetKeepsUsed(s, orders, limit, window, state, weather, now);
      }
    }
  }

  lemma BreachKeepsUsed(
    s: System, limit: Limit, window: PeriodWindow, state: PeriodState, weather: Weather, now: Moment)
    ensures var key := StateKey(limit.id, window.key);
            var ledger := Breach(s, limit, window, state, weather, now).ledger;
            && key in ledger && ledger[key].used == state.used
            && ledger[key].start == state.start && ledger[key].end == state.end
  {
  }

  lemma BudgetKeepsUsed(
    s: System, orders: Orders, limit: Limit, window: PeriodWindow, state: PeriodState, weather: Weather, now: Moment)
    ensures var key := StateKey(limit.id, window.key);
            var ledger := WithinBudget(s, orders, limit, window, state, weather, now).system.ledger;
            && key in ledger && ledger[key].used == state.used
            && ledger[key].start == state.start && ledger[key].end == state.end
  {
  }

  /** The status an evaluation records, in terms of the reading, the rows and what was recorded before. */
  lemma StatusMeans(
    s: System, orders: Orders, limit: Limit, window: PeriodWindow, reading: Reading, weather: Weather, now: Moment)
    requires Inv(s.world) && GoodOrders(orders) && weather.undoFaults == {}
    ensures var e := EvaluateOne(s, orders, limit, window, reading, weather, now).system;
            StatusFits(s, e, limit, window, reading, weather.connected)
  {
    var s1 := CloseStale(s, orders, limit, window.key, weather, now);
    var e := Judge(s1, orders, limit, window, reading, weather, now).system;
    var plan := Plan(s.org, s.world.projects, limit.entity);
    StaleTouches(s, orders, limit, window.key, weather, now);
    StaleKeepsKey(s, orders, limit, window.key, weather, now);
    SamePlan(s.world, s1.world, s.org, limit.entity);
    JudgedStatusFits(s1, orders, limit, window, reading, weather, now);
    SameBefore(s.world, s1.world, e.world, plan, limit.id, window.key);
    SameRestricting(s.world, s1.world, limit.id, window.key);
    assert e == EvaluateOne(s, orders, limit, window, reading, weather, now).system;
  }

  lemma StaleKeepsKey(s: System, orders: Orders, limit: Limit, currentKey: string, weather: Weather, now: Moment)
    requires Inv(s.world) && GoodOrders(orders)
    ensures var s1 := CloseStale(s, orders, limit, currentKey, weather, now);
            var key := StateKey(limit.id, currentKey);
            (key in s1.ledger <==> key in s.ledger) && (key in s.ledger ==> s1.ledger[key] == s.ledger[key])
  {
    StaleTouches(s, orders, limit, currentKey, weather, now);
  }

  lemma SameBefore(a: World, b: World, c: World, plan: seq<Target>, limitId: nat, period: string)
    requires forall k: Key :: k.period == period ==> RowOf(a, k) == RowOf(b, k)
    ensures RestrictsAnew(a, c, plan, limitId, period) <==> RestrictsAnew(b, c, plan, limitId, period)
  {
  }

  lemma SameRestricting(a: World, b: World, limitId: nat, period: string)
    requires forall k: Key :: k.period == period ==> RowOf(a, k) == RowOf(b, k)
    ensures Restricting(a, limitId, period) <==> Restricting(b, limitId, period)
  {
  }

  /** The bounds stay, and so does every stamp once it is set, but for the last restoration. */
  predicate KeepsRecord(a: PeriodState, b: PeriodState) {
    && b.start == a.start && b.end == a.end
    && (a.warnedAt.Some? ==> b.warnedAt == a.warnedAt)
    && (a.breachedAt.Some? ==> b.breachedAt == a.breachedAt)
    && (a.restrictedAt.Some? ==> b.restrictedAt == a.restrictedAt)
  }

  lemma JudgedKeepsRecord(
    s: System, orders: Orders, limit: Limit, window: PeriodWindow, reading: Reading, weather: Weather, now: Moment)
    requires Inv(s.world) && GoodOrders(orders) && weather.undoFaults == {}
    ensures var ledger := Judge(s, orders, limit, window, reading, weather, now).system.ledger;
            var key := StateKey(limit.id, window.key);
            key in ledger && KeepsRecord(Observed(s, limit, window, reading), ledger[key])
  {
    var state := Observed(s, limit, window, reading);
    if reading.available && window.isActive {
      if state.used >= limit.creditLimit as real {
        BreachStatus(s, limit, window, state, weather, now);
        BreachKeepsUsed(s, limit, window, state, weather, now);
      } else {
        BudgetStatus(s, orders, limit, window, state, weather, now);
        BudgetKeepsUsed(s, orders, limit, window, state, weather, now);
      }
    }
  }

  /** A period row keeps the bounds of the window that opened it, and its stamps. */
  lemma BoundsAndStampsStay(
    s: System, orders: Orders, limit: Limit, window: PeriodWindow, reading: Reading, weather: Weather, now: Moment)
    requires Inv(s.world) && GoodOrders(orders) && weather.undoFaults == {}
    ensures var e := EvaluateOne(s, orders, limit, window, reading, weather, now).system;
            var key := StateKey(limit.id, window.key);
            && key in e.ledger
            && (if key in s.ledger then KeepsRecord(s.ledger[key], e.ledger[key])
                else e.ledger[key].start == window.start && e.ledger[key].end == window.end)
  {
    var s1 := CloseStale(s, orders, limit, window.key, weather, now);
    StaleTouches(s, orders, limit, window.key, weather, now);
    StaleKeepsKey(s, orders, limit, window.key, weather, now);
    JudgedKeepsRecord(s1, orders, limit, window, reading, weather, now);
  }

  // ---------------------------------------------------------------------- expired periods

  /** How a period that is over is left. */
  predicate LeftAs(limit: Limit, before: PeriodState, after: PeriodState, connected: bool, now: Moment) {
    if before.status == LimitOk || before.status == LimitRestored || (before.status == LimitRestricted && limit.hold)
    then after == before
    else
      && after.status == (if before.restrictedAt.Some? then LimitRestored else LimitOk)
      && after.used == before.used && after.restrictedAt == before.restrictedAt
      && after.breachedAt == before.breachedAt && after.warnedAt == before.warnedAt
      && after.restoredAt ==
         (if before.status == LimitRestricted && connected then Some(now) else before.restoredAt)
  }

  lemma CloseOneLeaves(s: System, orders: Orders, limit: Limit, sk: StateKey, weather: Weather, now: Moment)
    requires Inv(s.world) && GoodOrders(orders) && sk in s.ledger && weather.undoFaults == {}
    requires NeedsClosing(s.ledger[sk].status)
    ensures LeftAs(limit, s.ledger[sk], CloseOne(s, orders, limit, sk, weather, now).ledger[sk], weather.connected, now)
  {
    RestoreLimitClears(s.world, orders.rows, limit.id, Some(sk.period), PeriodRollover);
  }

  lemma {:induction false} EachLeaves(
    s: System, orders: Orders, limit: Limit, keys: seq<StateKey>, weather: Weather, now: Moment, sk: StateKey)
    requires Inv(s.world) && GoodOrders(orders) && Distinct(keys) && weather.undoFaults == {}
    requires forall k :: k in keys ==> k in s.ledger && NeedsClosing(s.ledger[k].status)
    requires sk in keys
    ensures LeftAs(limit, s.ledger[sk], CloseEach(s, orders, limit, keys, weather, now).ledger[sk],
                   weather.connected, now)
    decreases |keys|
  {
    assert keys[0] in keys && keys == [keys[0]] + keys[1..];
    var s1 := CloseOne(s, orders, limit, keys[0], weather, now);
    CloseOneShuts(s, orders, limit, keys[0], weather, now);
    assert forall k :: k in keys[1..] ==> k in keys && k != keys[0];
    if sk == keys[0] {
      CloseOneLeaves(s, orders, limit, sk, weather, now);
      assert sk !in keys[1..];
      EachShuts(s1, orders, limit, keys[1..], weather, now);
    } else {
      EachLeaves(s1, orders, limit, keys[1..], weather, now, sk);
    }
  }

  /**
   After an evaluation no other period of its limit is left warned or breached, nor restricted unless
   it is held: a closed period reads as restored when it was ever restricted, and is clear otherwise.
   */
  lemma ExpiredPeriodsAreClosed(
    s: System, orders: Orders, limit: Limit, window: PeriodWindow, reading: Reading, weather: Weather, now: Moment,
    sk: StateKey)
    requires Inv(s.world) && GoodOrders(orders) && weather.undoFaults == {}
    requires sk in s.ledger && sk.limitId == limit.id && sk.period != window.key
    ensures var e := EvaluateOne(s, orders, limit, window, reading, weather, now).system;
            sk in e.ledger && LeftAs(limit, s.ledger[sk], e.ledger[sk], weather.connected, now)
  {
    var s1 := CloseStale(s, orders, limit, window.key, weather, now);
    StaleTouches(s, orders, limit, window.key, weather, now);
    JudgeTouches(s1, orders, limit, window, reading, weather, now);
    var stale := StaleKeys(s.ledger, limit.id, window.key);
    var keys := orders.periods(s.ledger, stale);
    assert Distinct(keys) && forall k :: k in keys <==> k in stale;
    if sk in stale {
      EachLeaves(s, orders, limit, keys, weather, now, sk);
    } else {
      ClosingTouches(s, orders, limit, keys, weather, now);
    }
  }

  // --------------------------------------------------------------- limits that do not apply

  /** No limit of the list with this id is evaluated: each is inactive or has no window. */
  ghost predicate NotEvaluated(limits: seq<Limit>, id: nat, now: Moment)
    requires now.Valid() && forall l :: l in limits ==> ValidConfig(l.period)
  {
    forall l :: l in limits && l.id == id ==> !l.active || CurrentWindow(l.period, now).None?
  }

  /** An inactive limit, or one whose period is misconfigured, is left alone: its rows and periods stay. */
  lemma {:induction false} InactiveIsLeftAlone(
    s: System, orders: Orders, limits: seq<Limit>, index: UsageIndex, now: Moment, id: nat)
    requires Inv(s.world) && GoodOrders(orders) && now.Valid() && forall l :: l in limits ==> ValidConfig(l.period)
    requires NotEvaluated(limits, id, now)
    ensures var e := EvaluateAll(s, orders, limits, index, FAIR, now).system;
            && (forall k: Key :: k.limitId == id ==> RowOf(e.world, k) == RowOf(s.world, k))
            && (forall k: StateKey :: k.limitId == id ==>
                  (k in e.ledger <==> k in s.ledger) && (k in s.ledger ==> e.ledger[k] == s.ledger[k]))
    decreases |limits|
  {
    if limits != [] {
      assert limits[0] in limits && forall l :: l in limits[1..] ==> l in limits;
      NextTouches(s, orders, limits, index, now);
      InactiveIsLeftAlone(EvaluateNext(s, orders, limits[0], index, now), orders, limits[1..], index, now, id);
    }
  }
}
