/** When an expired period gives access back, and when it never will. */
module RolloverLaws {
  import opened Options
  import opened Tenancy
  import opened Entities
  import opened Enforcement
  import opened EnforcementLaws
  import opened Enforcer
  import opened Periods
  import opened Evaluation
  import opened EvaluationLaws

  /** The expired period would be undone by the next evaluation. */
  predicate Liftable(ledger: map<StateKey, PeriodState>, limit: Limit, key: StateKey) {
    key in ledger && ledger[key].status == LimitRestricted && !limit.hold
  }

  /** Nothing is left to close in the period, except a restriction held until released. */
  predicate Shut(limit: Limit, state: PeriodState) {
    NeedsClosing(state.status) ==> state.status == LimitRestricted && limit.hold
  }

  lemma CloseOneShuts(s: System, orders: Orders, limit: Limit, sk: StateKey, weather: Weather, now: Moment)
    requires Inv(s.world) && GoodOrders(orders) && sk in s.ledger && weather.undoFaults == {}
    ensures var r := CloseOne(s, orders, limit, sk, weather, now);
            && Inv(r.world) && Shut(limit, r.ledger[sk])
            && forall o :: o in s.ledger && o != sk ==> r.ledger[o] == s.ledger[o]
  {
    if Liftable(s.ledger, limit, sk) {
      RestoreLimitTouches(s.world, s.org, orders.rows, limit, Some(sk.period), PeriodRollover, {});
      RestoreLimitClears(s.world, orders.rows, limit.id, Some(sk.period), PeriodRollover);
    }
  }

  lemma {:induction false} EachShuts(
    s: System, orders: Orders, limit: Limit, keys: seq<StateKey>, weather: Weather, now: Moment)
    requires Inv(s.world) && GoodOrders(orders) && Distinct(keys) && forall k :: k in keys ==> k in s.ledger
    requires weather.undoFaults == {}
    ensures var r := CloseEach(s, orders, limit, keys, weather, now);
            && (forall k :: k in keys ==> Shut(limit, r.ledger[k]))
            && forall k :: k in s.ledger && k !in keys ==> r.ledger[k] == s.ledger[k]
    decreases |keys|
  {
    if keys != [] {
      var s1 := CloseOne(s, orders, limit, keys[0], weather, now);
      assert keys[0] in keys && keys == [keys[0]] + keys[1..];
      CloseOneShuts(s, orders, limit, keys[0], weather, now);
      assert forall k :: k in keys[1..] ==> k in keys && k != keys[0];
      EachShuts(s1, orders, limit, keys[1..], weather, now);
    }
  }

  /** Closing one period undoes that period's rows when it is liftable and there is a client, and no row otherwise. */
  lemma CloseOneLifts(s: System, orders: Orders, limit: Limit, sk: StateKey, weather: Weather, now: Moment, key: Key)
    requires Inv(s.world) && GoodOrders(orders) && sk in s.ledger && weather.undoFaults == {}
    ensures var r := CloseOne(s, orders, limit, sk, weather, now);
            if key.period == sk.period && Liftable(s.ledger, limit, sk) && weather.connected
            then !HeldBy(r.world, limit.id, key)
            else RowOf(r.world, key) == RowOf(s.world, key)
  {
    if Liftable(s.ledger, limit, sk) {
      RestoreLimitTouches(s.world, s.org, orders.rows, limit, Some(sk.period), PeriodRollover, {});
      RestoreLimitClears(s.world, orders.rows, limit.id, Some(sk.period), PeriodRollover);
      var w' := RestoreLimit(s.world, orders.rows, limit.id, Some(sk.period), PeriodRollover, {}).world;
      assert key !in AppliedRowsOf(w'.actions, limit.id, Some(sk.period));
    }
  }

  lemma {:induction false} EachLifts(
    s: System, orders: Orders, limit: Limit, keys: seq<StateKey>, weather: Weather, now: Moment, key: Key)
    requires Inv(s.world) && GoodOrders(orders) && Distinct(keys) && weather.undoFaults == {}
    requires forall k :: k in keys ==> k in s.ledger && k.limitId == limit.id
    ensures var r := CloseEach(s, orders, limit, keys, weather, now);
            var sk := StateKey(limit.id, key.period);
            if sk in keys && Liftable(s.ledger, limit, sk) && weather.connected then !HeldBy(r.world, limit.id, key)
            else RowOf(r.world, key) == RowOf(s.world, key)
    decreases |keys|
  {
    if keys != [] {
      var s1 := CloseOne(s, orders, limit, keys[0], weather, now);
      assert keys[0] in keys && keys == [keys[0]] + keys[1..];
      CloseOneShuts(s, orders, limit, keys[0], weather, now);
      CloseOneLifts(s, orders, limit, keys[0], weather, now, key);
      assert forall k :: k in keys[1..] ==> k in keys && k != keys[0];
      EachLifts(s1, orders, limit, keys[1..], weather, now, key);
    }
  }

  /**
   A restriction of an expired period is lifted by the next evaluation of its limit exactly when
   there is a client, the period's recorded status still says restricted and the limit is not held:
   the status alone decides, not the row.
   */
  lemma RolloverLiftsIff(
    s: System, orders: Orders, limit: Limit, window: PeriodWindow, reading: Reading, weather: Weather, now: Moment,
    key: Key)
    requires Inv(s.world) && GoodOrders(orders) && weather.undoFaults == {}
    requires HeldBy(s.world, limit.id, key) && key.period != window.key
    ensures var e := EvaluateOne(s, orders, limit, window, reading, weather, now).system;
            HeldBy(e.world, limit.id, key) <==>
            !(Liftable(s.ledger, limit, StateKey(limit.id, key.period)) && weather.connected)
  {
    var keys := orders.periods(s.ledger, StaleKeys(s.ledger, limit.id, window.key));
    assert Distinct(keys);
    EachLifts(s, orders, limit, keys, weather, now, key);
    var s1 := CloseStale(s, orders, limit, window.key, weather, now);
    StaleTouches(s, orders, limit, window.key, weather, now);
    JudgeTouches(s1, orders, limit, window, reading, weather, now);
  }

  // ---------------------------------------------------------- restrictions that outlive

  /** Closing again right away finds nothing left to undo. */
  lemma ClosedIsClosed(s: System, orders: Orders, limit: Limit, currentKey: string, now: Moment)
    requires Inv(s.world) && GoodOrders(orders)
    ensures var r := CloseStale(s, orders, limit, currentKey, FAIR, now);
            forall k :: k in StaleKeys(r.ledger, limit.id, currentKey) ==>
              r.ledger[k].status == LimitRestricted && limit.hold
  {
    var stale := StaleKeys(s.ledger, limit.id, currentKey);
    var keys := orders.periods(s.ledger, stale);
    assert Distinct(keys) && forall k :: k in keys <==> k in stale;
    EachShuts(s, orders, limit, keys, FAIR, now);
  }

  lemma {:induction false} NothingToClose(
    s: System, orders: Orders, limit: Limit, keys: seq<StateKey>, weather: Weather, now: Moment)
    requires forall k :: k in keys ==> k in s.ledger && s.ledger[k].status == LimitRestricted && limit.hold
    ensures CloseEach(s, orders, limit, keys, weather, now) == s
    decreases |keys|
  {
    if keys != [] {
      assert keys[0] in keys && forall k :: k in keys[1..] ==> k in keys;
      NothingToClose(s, orders, limit, keys[1..], weather, now);
    }
  }

  /** A breached evaluation with a client, for a limit that enforces. */
  ghost predicate BreachedTurn(
    s: System, orders: Orders, limit: Limit, window: PeriodWindow, reading: Reading, now: Moment)
    requires GoodOrders(orders)
  {
    && reading.available && window.isActive && limit.enforce && limit.entity !in s.org.exempt
    && var closed := CloseStale(s, orders, limit, window.key, FAIR, now);
       Observed(closed, limit, window, reading).used >= limit.creditLimit as real
  }

  /** The second breached evaluation in a row finds everything in force and forgets the status. */
  lemma SecondBreachForgets(
    s: System, orders: Orders, limit: Limit, window: PeriodWindow, r1: Reading, r2: Reading, t1: Moment, t2: Moment)
    requires Inv(s.world) && GoodOrders(orders)
    requires BreachedTurn(s, orders, limit, window, r1, t1)
    requires BreachedTurn(EvaluateOne(s, orders, limit, window, r1, FAIR, t1).system, orders, limit, window, r2, t2)
    ensures var e1 := EvaluateOne(s, orders, limit, window, r1, FAIR, t1).system;
            var e2 := EvaluateOne(e1, orders, limit, window, r2, FAIR, t2).system;
            && Inv(e2.world) && e2.world == e1.world
            && e2.ledger[StateKey(limit.id, window.key)].status == LimitBreached
  {
    var c1 := CloseStale(s, orders, limit, window.key, FAIR, t1);
    StaleTouches(s, orders, limit, window.key, FAIR, t1);
    var e1 := EvaluateOne(s, orders, limit, window, r1, FAIR, t1).system;
    EvaluationTouches(s, orders, limit, window, r1, FAIR, t1);
    ClosedIsClosed(s, orders, limit, window.key, t1);
    var stale := StaleKeys(e1.ledger, limit.id, window.key);
    NothingToClose(e1, orders, limit, orders.periods(e1.ledger, stale), FAIR, t2);
    var state1 := Observed(c1, limit, window, r1);
    BreachConverges(c1, limit, window, state1, t1);
    var plan := Plan(e1.org, e1.world.projects, limit.entity);
    forall t | t in plan
      ensures AtRest(CellOf(e1.world, Key(limit.id, window.key, t)))
    {
      assert InForceOrSettled(e1.world, Key(limit.id, window.key, t));
    }
    CycleAtRest(e1.world, limit.id, limit.entity, window.key, plan, NO_FAULT_PLAN);
  }

  /**
   A breach that lasts two evaluations is not lifted by the rollover, whatever the next period
   looks like; had the period ended after the first one, it would have been.
   */
  lemma RestrictionOutlivesItsPeriod(
    s: System, orders: Orders, limit: Limit, window: PeriodWindow, r1: Reading, r2: Reading, t1: Moment, t2: Moment,
    next: PeriodWindow, r3: Reading, t3: Moment, key: Key)
    requires Inv(s.world) && GoodOrders(orders) && next.key != window.key && key.period == window.key && !limit.hold
    requires BreachedTurn(s, orders, limit, window, r1, t1)
    requires BreachedTurn(EvaluateOne(s, orders, limit, window, r1, FAIR, t1).system, orders, limit, window, r2, t2)
    requires HeldBy(EvaluateOne(s, orders, limit, window, r1, FAIR, t1).system.world, limit.id, key)
    requires !HasApplied(s.world, limit.id, window.key)
    ensures var e1 := EvaluateOne(s, orders, limit, window, r1, FAIR, t1).system;
            var e2 := EvaluateOne(e1, orders, limit, window, r2, FAIR, t2).system;
            && HeldBy(EvaluateOne(e2, orders, limit, next, r3, FAIR, t3).system.world, limit.id, key)
            && !HeldBy(EvaluateOne(e1, orders, limit, next, r3, FAIR, t3).system.world, limit.id, key)
  {
    var e1 := EvaluateOne(s, orders, limit, window, r1, FAIR, t1).system;
    var e2 := EvaluateOne(e1, orders, limit, window, r2, FAIR, t2).system;
    EvaluationTouches(s, orders, limit, window, r1, FAIR, t1);
    SecondBreachForgets(s, orders, limit, window, r1, r2, t1, t2);
    RolloverLiftsIff(e2, orders, limit, next, r3, FAIR, t3, key);
    FirstBreachIsRestricted(s, orders, limit, window, r1, t1, key);
    RolloverLiftsIff(e1, orders, limit, next, r3, FAIR, t3, key);
  }

  /** The evaluation that first applies a row of the period records it as restricted. */
  lemma FirstBreachIsRestricted(
    s: System, orders: Orders, limit: Limit, window: PeriodWindow, reading: Reading, now: Moment, key: Key)
    requires Inv(s.world) && GoodOrders(orders) && key.period == window.key
    requires BreachedTurn(s, orders, limit, window, reading, now)
    requires HeldBy(EvaluateOne(s, orders, limit, window, reading, FAIR, now).system.world, limit.id, key)
    requires !HasApplied(s.world, limit.id, window.key)
    ensures var e := EvaluateOne(s, orders, limit, window, reading, FAIR, now).system;
            e.ledger[StateKey(limit.id, window.key)].status == LimitRestricted
  {
    var c := CloseStale(s, orders, limit, window.key, FAIR, now);
    StaleTouches(s, orders, limit, window.key, FAIR, now);
    var plan := Plan(c.org, c.world.projects, limit.entity);
    assert RowOf(c.world, key) == RowOf(s.world, key);
    assert key !in AppliedRowsOf(s.world.actions, limit.id, Some(window.key));
    PlanMeans(c.org, c.world.projects, limit.entity, key.target);
    NewRowIsApplied(c.world, limit.id, limit.entity, window.key, plan, key);
  }

  /** A row held after a cycle but not before it was applied by it. */
  lemma NewRowIsApplied(w: World, limitId: nat, entity: Entity, period: string, targets: seq<Target>, key: Key)
    requires Inv(w) && Distinct(targets) && key.period == period
    requires !HeldBy(w, limitId, key)
        && HeldBy(ApplyTargets(w, limitId, entity, period, targets, NO_FAULT_PLAN).0, limitId, key)
    ensures AnyApplied(ApplyTargets(w, limitId, entity, period, targets, NO_FAULT_PLAN).1)
  {
    var (w', verdicts) := ApplyTargets(w, limitId, entity, period, targets, NO_FAULT_PLAN);
    CycleElsewhere(w, limitId, entity, period, targets, NO_FAULT_PLAN, key);
    CycleKeepsRows(w, limitId, entity, period, targets, NO_FAULT_PLAN);
    CycleKeepsInv(w, limitId, entity, period, targets, NO_FAULT_PLAN);
    assert RowInv(key, w'.actions[key]) && key.limitId == limitId;
    assert RowOf(w', key) == CellOf(w', key).row && RowOf(w, key) == CellOf(w, key).row;
    assert key.target in targets;
    var i :| 0 <= i < |targets| && targets[i] == key.target;
    CycleAt(w, limitId, entity, period, targets, NO_FAULT_PLAN, i);
    assert verdicts[i] == NewlyApplied;
  }

  // --------------------------------------------------------------------- ever after

  /** One evaluation of some limit, under any weather. */
  datatype Turn = Turn(limit: Limit, window: PeriodWindow, reading: Reading, weather: Weather, now: Moment)

  function OneTurn(s: System, orders: Orders, t: Turn): System
    requires GoodOrders(orders)
  {
    EvaluateOne(s, orders, t.limit, t.window, t.reading, t.weather, t.now).system
  }

  function Turns(s: System, orders: Orders, turns: seq<Turn>): System
    requires GoodOrders(orders)
    decreases |turns|
  {
    if turns == [] then s else OneTurn(Turns(s, orders, turns[..|turns| - 1]), orders, turns[|turns| - 1])
  }

  /** The row is in force, and the ledger does not record its period as restricted. */
  ghost predicate Forgotten(s: System, key: Key) {
    && Inv(s.world) && HeldBy(s.world, key.limitId, key)
    && var sk := StateKey(key.limitId, key.period);
       sk in s.ledger ==> s.ledger[sk].status != LimitRestricted
  }

  /**
   Once an expired period is not recorded as restricted, no run of evaluations, of any limits in
   any later windows, ever lifts what it restricted.
   */
  lemma {:induction false} NeverLiftedAgain(s: System, orders: Orders, turns: seq<Turn>, key: Key)
    requires GoodOrders(orders) && Forgotten(s, key)
    requires forall t :: t in turns && t.limit.id == key.limitId ==> t.window.key != key.period
    ensures Forgotten(Turns(s, orders, turns), key)
    decreases |turns|
  {
    if turns != [] {
      var before, last := turns[..|turns| - 1], turns[|turns| - 1];
      assert last in turns && forall t :: t in before ==> t in turns;
      NeverLiftedAgain(s, orders, before, key);
      TurnForgets(Turns(s, orders, before), orders, last, key);
    }
  }

  /**
   Without a client the rollover closes the period as if it had been lifted: the restriction stays,
   and no later evaluation lifts it, with a client or without.
   */
  lemma ClosedWithoutAClient(
    s: System, orders: Orders, limit: Limit, window: PeriodWindow, reading: Reading, weather: Weather, now: Moment,
    key: Key)
    requires Inv(s.world) && GoodOrders(orders) && weather.undoFaults == {} && !weather.connected
    requires HeldBy(s.world, limit.id, key) && key.period != window.key
    requires Liftable(s.ledger, limit, StateKey(limit.id, key.period))
    ensures key.limitId == limit.id
    ensures Forgotten(EvaluateOne(s, orders, limit, window, reading, weather, now).system, key)
  {
    var sk := StateKey(limit.id, key.period);
    assert RowInv(key, s.world.actions[key]);
    RolloverLiftsIff(s, orders, limit, window, reading, weather, now, key);
    var keys := orders.periods(s.ledger, StaleKeys(s.ledger, limit.id, window.key));
    assert Distinct(keys) && sk in keys;
    EachShuts(s, orders, limit, keys, weather, now);
    var s1 := CloseStale(s, orders, limit, window.key, weather, now);
    StaleTouches(s, orders, limit, window.key, weather, now);
    JudgeTouches(s1, orders, limit, window, reading, weather, now);
    EvaluationTouches(s, orders, limit, window, reading, weather, now);
  }

  lemma TurnForgets(s: System, orders: Orders, t: Turn, key: Key)
    requires GoodOrders(orders) && Forgotten(s, key)
    requires t.limit.id == key.limitId ==> t.window.key != key.period
    ensures Forgotten(OneTurn(s, orders, t), key)
  {
    EvaluationTouches(s, orders, t.limit, t.window, t.reading, t.weather, t.now);
    if t.limit.id == key.limitId {
      StaleSkips(s, orders, t.limit, t.window.key, t.weather, t.now, key);
      var s1 := CloseStale(s, orders, t.limit, t.window.key, t.weather, t.now);
      StaleTouches(s, orders, t.limit, t.window.key, t.weather, t.now);
      JudgeTouches(s1, orders, t.limit, t.window, t.reading, t.weather, t.now);
    }
  }

  lemma StaleSkips(s: System, orders: Orders, limit: Limit, currentKey: string, weather: Weather, now: Moment, key: Key)
    requires Inv(s.world) && GoodOrders(orders) && limit.id == key.limitId
    requires var sk := StateKey(key.limitId, key.period); sk in s.ledger ==> s.ledger[sk].status != LimitRestricted
    ensures var r := CloseStale(s, orders, limit, currentKey, weather, now);
            var sk := StateKey(key.limitId, key.period);
            && RowOf(r.world, key) == RowOf(s.world, key)
            && (sk in r.ledger ==> r.ledger[sk].status != LimitRestricted)
  {
    EachSkips(s, orders, limit, orders.periods(s.ledger, StaleKeys(s.ledger, limit.id, currentKey)), weather, now, key);
  }

  lemma {:induction false} EachSkips(
    s: System, orders: Orders, limit: Limit, keys: seq<StateKey>, weather: Weather, now: Moment, key: Key)
    requires Inv(s.world) && GoodOrders(orders) && limit.id == key.limitId
    requires forall k :: k in keys ==> k in s.ledger && k.limitId == limit.id
    requires var sk := StateKey(key.limitId, key.period); sk in s.ledger ==> s.ledger[sk].status != LimitRestricted
    ensures var r := CloseEach(s, orders, limit, keys, weather, now);
            var sk := StateKey(key.limitId, key.period);
            && RowOf(r.world, key) == RowOf(s.world, key)
            && (sk in r.ledger ==> r.ledger[sk].status != LimitRestricted)
    decreases |keys|
  {
    if keys != [] {
      var s1 := CloseOne(s, orders, limit, keys[0], weather, now);
      assert keys[0] in keys && forall k :: k in keys[1..] ==> k in keys;
      if s.ledger[keys[0]].status == LimitRestricted && !limit.hold && weather.connected {
        RestoreLimitTouches(s.world, s.org, orders.rows, limit, Some(keys[0].period), PeriodRollover,
          weather.undoFaults);
      }
      EachSkips(s1, orders, limit, keys[1..], weather, now, key);
    }
  }
}
