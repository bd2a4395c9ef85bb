/** What evaluation guarantees: convergence, rollover, and usage measured against a moving baseline. */
module EvaluationLaws {
  import opened Options
  import opened Tenancy
  import opened Entities
  import opened Enforcement
  import opened EnforcementLaws
  import opened Enforcer
  import opened Periods
  import opened Evaluation

  // ------------------------------------------------------------ what one limit may touch

  /** The row belongs to the limit and is in force: only such rows are undone for it. */
  predicate HeldBy(w: World, limitId: nat, key: Key) {
    Has(RowOf(w, key), Applied) && RowOf(w, key).value.limitId == Some(limitId)
  }

  /** The targets a limit plans now, or has a restriction in force on. */
  ghost predicate InFootprint(w: World, org: Org, limit: Limit, t: Target) {
    || t in Plan(org, w.projects, limit.entity)
    || exists k :: HeldBy(w, limit.id, k) && k.target == t
  }

  /** From `a` to `b`, only rows of the limit and sites in its footprint moved. */
  ghost predicate OnlyBy(limit: Limit, org: Org, a: World, b: World) {
    && Inv(b) && SamePlanning(a, b)
    && (forall k: Key :: k.limitId != limit.id ==> RowOf(b, k) == RowOf(a, k))
    && (forall t :: !InFootprint(a, org, limit, t) ==> SiteOf(b, t) == SiteOf(a, t))
    && (forall t :: InFootprint(b, org, limit, t) ==> InFootprint(a, org, limit, t))
  }

  lemma {:induction false} PlanIsStable(org: Org, p: map<Id, ProjectRow>, q: map<Id, ProjectRow>, ids: seq<Id>)
    requires p.Keys == q.Keys
    requires forall id :: id in p ==> p[id].repo == q[id].repo && p[id].deleted == q[id].deleted
    ensures TargetsOfProjects(org, p, ids) == TargetsOfProjects(org, q, ids)
  {
    if ids != [] {
      PlanIsStable(org, p, q, ids[..|ids| - 1]);
    }
  }

  lemma SamePlan(a: World, b: World, org: Org, entity: Entity)
    requires SamePlanning(a, b)
    ensures Plan(org, a.projects, entity) == Plan(org, b.projects, entity)
  {
    PlanIsStable(org, a.projects, b.projects, ProjectIdsFor(org, entity));
  }

  lemma OnlyByChains(limit: Limit, org: Org, a: World, b: World, c: World)
    requires OnlyBy(limit, org, a, b) && OnlyBy(limit, org, b, c)
    ensures OnlyBy(limit, org, a, c)
  {
    SamePlan(a, b, org, limit.entity);
  }

  lemma OnlyByNothing(limit: Limit, org: Org, w: World)
    requires Inv(w)
    ensures OnlyBy(limit, org, w, w)
  {
  }

  /** A walk keeps the rows it finds, and whose they are. */
  lemma {:induction false} WalkKeepsRows(w: World, keys: seq<Key>, reason: Reason, writes: set<Target>)
    ensures var w' := RestoreRows(w, keys, reason, writes).world;
            && w'.actions.Keys == w.actions.Keys
            && forall k :: k in w.actions ==> w'.actions[k].limitId == w.actions[k].limitId
    decreases |keys|
  {
    if keys != [] {
      var (w1, r) := RestoreRow(w, keys[0], reason, keys[0].target in writes);
      if !r.RestoreFailed? {
        WalkKeepsRows(w1, keys[1..], reason, writes);
      }
    }
  }

  /** A cycle keeps the rows it finds, and opens rows for planned targets only. */
  lemma {:induction false} CycleKeepsRows(
    w: World, limitId: nat, entity: Entity, period: string, targets: seq<Target>, faults: FaultPlan)
    ensures var w' := ApplyTargets(w, limitId, entity, period, targets, faults).0;
            forall k :: k in w'.actions ==>
              if k in w.actions then w'.actions[k].limitId == w.actions[k].limitId
              else k.limitId == limitId && k.target in targets
    decreases |targets|
  {
    if targets != [] {
      var key := Key(limitId, period, targets[0]);
      var w1 := Attempt(w, key, entity, faults.At(targets[0])).0;
      forall k | k in w1.actions
        ensures if k in w.actions then w1.actions[k].limitId == w.actions[k].limitId else k == key
      {
        AttemptIsLocal(w, key, entity, faults.At(targets[0]), k);
        assert RowOf(w1, k).Some?;
      }
      CycleKeepsRows(w1, limitId, entity, period, targets[1..], faults);
    }
  }

  lemma RestoreLimitTouches(
    w: World, org: Org, rows: RowOrder, limit: Limit, period: Option<string>, reason: Reason, writes: set<Target>)
    requires Inv(w) && GoodOrder(rows)
    ensures OnlyBy(limit, org, w, RestoreLimit(w, rows, limit.id, period, reason, writes).world)
    ensures forall k: Key :: period.Some? && k.period != period.value ==>
              RowOf(RestoreLimit(w, rows, limit.id, period, reason, writes).world, k) == RowOf(w, k)
  {
    var keys := AppliedRowsOf(w.actions, limit.id, period);
    var order := rows(w.actions, keys);
    assert Lists(order, keys);
    var w' := RestoreRows(w, order, reason, writes).world;
    WalkKeepsInv(w, order, reason, writes);
    WalkKeepsRows(w, order, reason, writes);
    SamePlan(w, w', org, limit.entity);
    forall k | k in keys ensures k.limitId == limit.id && InFootprint(w, org, limit, k.target) {
      assert RowInv(k, w.actions[k]) && HeldBy(w, limit.id, k);
    }
    forall k | HeldBy(w', limit.id, k) ensures HeldBy(w, limit.id, k) {
      if k !in keys {
        WalkElsewhere(w, order, reason, writes, k);
        assert RowOf(w', k) == RowOf(w, k);
      }
    }
    forall k: Key | k.limitId != limit.id || (period.Some? && k.period != period.value)
      ensures RowOf(w', k) == RowOf(w, k)
    {
      WalkElsewhere(w, order, reason, writes, k);
    }
    forall t | !InFootprint(w, org, limit, t) ensures SiteOf(w', t) == SiteOf(w, t) {
      WalkElsewhere(w, order, reason, writes, Key(0, "", t));
      assert CellOf(w', Key(0, "", t)).site == SiteOf(w', t);
    }
  }

  lemma CycleTouches(w: World, org: Org, limit: Limit, period: string, faults: FaultPlan)
    requires Inv(w)
    ensures var plan := Plan(org, w.projects, limit.entity);
            var w' := ApplyTargets(w, limit.id, limit.entity, period, plan, faults).0;
            OnlyBy(limit, org, w, w') && forall k: Key :: k.period != period ==> RowOf(w', k) == RowOf(w, k)
  {
    var plan := Plan(org, w.projects, limit.entity);
    var w' := ApplyTargets(w, limit.id, limit.entity, period, plan, faults).0;
    CycleKeepsInv(w, limit.id, limit.entity, period, plan, faults);
    CycleKeepsRows(w, limit.id, limit.entity, period, plan, faults);
    SamePlan(w, w', org, limit.entity);
    forall k: Key | k.limitId != limit.id || k.period != period ensures RowOf(w', k) == RowOf(w, k) {
      CycleElsewhere(w, limit.id, limit.entity, period, plan, faults, k);
    }
    forall k | HeldBy(w', limit.id, k) && k.target !in plan ensures HeldBy(w, limit.id, k) {
      CycleElsewhere(w, limit.id, limit.entity, period, plan, faults, k);
      assert CellOf(w', k).row == RowOf(w', k) && CellOf(w, k).row == RowOf(w, k);
    }
    forall t | !InFootprint(w, org, limit, t) ensures SiteOf(w', t) == SiteOf(w, t) {
      CycleElsewhere(w, limit.id, limit.entity, period, plan, faults, Key(0, "", t));
      assert CellOf(w', Key(0, "", t)).site == SiteOf(w', t);
    }
  }

  // --------------------------------------------------------------- frame of one evaluation

  ghost predicate OnlyItsStates(limitId: nat, a: System, b: System) {
    && b.org == a.org
    && forall k: StateKey :: k.limitId != limitId ==>
         (k in a.ledger <==> k in b.ledger) && (k in a.ledger ==> b.ledger[k] == a.ledger[k])
  }

  lemma {:induction false} ClosingTouches(
    s: System, orders: Orders, limit: Limit, keys: seq<StateKey>, weather: Weather, now: Moment)
    requires Inv(s.world) && GoodOrders(orders)
    requires forall k :: k in keys ==> k in s.ledger && k.limitId == limit.id
    ensures var r := CloseEach(s, orders, limit, keys, weather, now);
            && OnlyBy(limit, s.org, s.world, r.world) && OnlyItsStates(limit.id, s, r)
            && (forall k: Key :: StateKey(limit.id, k.period) !in keys ==> RowOf(r.world, k) == RowOf(s.world, k))
            && (forall k :: k in s.ledger && k !in keys ==> r.ledger[k] == s.ledger[k])
    decreases |keys|
  {
    if keys == [] {
      OnlyByNothing(limit, s.org, s.world);
    } else {
      var s1 := CloseOne(s, orders, limit, keys[0], weather, now);
      assert keys[0] in keys;
      if weather.connected && s.ledger[keys[0]].status == LimitRestricted && !limit.hold {
        RestoreLimitTouches(s.world, s.org, orders.rows, limit, Some(keys[0].period), PeriodRollover,
          weather.undoFaults);
      } else {
        OnlyByNothing(limit, s.org, s.world);
      }
      assert forall k :: k in keys[1..] ==> k in keys;
      ClosingTouches(s1, orders, limit, keys[1..], weather, now);
      OnlyByChains(limit, s.org, s.world, s1.world, CloseEach(s, orders, limit, keys, weather, now).world);
      assert keys == [keys[0]] + keys[1..];
    }
  }

  lemma StaleTouches(s: System, orders: Orders, limit: Limit, currentKey: string, weather: Weather, now: Moment)
    requires Inv(s.world) && GoodOrders(orders)
    ensures var r := CloseStale(s, orders, limit, currentKey, weather, now);
            && OnlyBy(limit, s.org, s.world, r.world) && OnlyItsStates(limit.id, s, r)
            && (forall k: Key :: k.period == currentKey ==> RowOf(r.world, k) == RowOf(s.world, k))
            && (StateKey(limit.id, currentKey) in s.ledger ==>
                  r.ledger[StateKey(limit.id, currentKey)] == s.ledger[StateKey(limit.id, currentKey)])
  {
    ClosingTouches(s, orders, limit, orders.periods(s.ledger, StaleKeys(s.ledger, limit.id, currentKey)), weather, now);
  }

  /** From `a` to `b`, one evaluation of the current window moved only what it owns. */
  ghost predicate OnlyWindow(limit: Limit, period: string, a: System, b: System) {
    && OnlyBy(limit, a.org, a.world, b.world) && OnlyItsStates(limit.id, a, b)
    && (forall k: Key :: k.period != period ==> RowOf(b.world, k) == RowOf(a.world, k))
    && (forall k: StateKey :: k != StateKey(limit.id, period) ==>
          (k in a.ledger <==> k in b.ledger) && (k in a.ledger ==> b.ledger[k] == a.ledger[k]))
  }

  lemma BreachTouches(s: System, limit: Limit, window: PeriodWindow, state: PeriodState, weather: Weather, now: Moment)
    requires Inv(s.world)
    ensures OnlyWindow(limit, window.key, s, Breach(s, limit, window, state, weather, now))
  {
    OnlyByNothing(limit, s.org, s.world);
    CycleTouches(s.world, s.org, limit, window.key, weather.faults);
  }

  lemma BudgetTouches(
    s: System, orders: Orders, limit: Limit, window: PeriodWindow, state: PeriodState, weather: Weather, now: Moment)
    requires Inv(s.world) && GoodOrders(orders)
    ensures OnlyWindow(limit, window.key, s, WithinBudget(s, orders, limit, window, state, weather, now).system)
  {
    OnlyByNothing(limit, s.org, s.world);
    RestoreLimitTouches(s.world, s.org, orders.rows, limit, Some(window.key), CreditIncreased, weather.undoFaults);
  }

  lemma JudgeTouches(
    s: System, orders: Orders, limit: Limit, window: PeriodWindow, reading: Reading, weather: Weather, now: Moment)
    requires Inv(s.world) && GoodOrders(orders)
    ensures OnlyWindow(limit, window.key, s, Judge(s, orders, limit, window, reading, weather, now).system)
  {
    OnlyByNothing(limit, s.org, s.world);
    var state := Observed(s, limit, window, reading);
    BreachTouches(s, limit, window, state, weather, now);
    BudgetTouches(s, orders, limit, window, state, weather, now);
  }

  /** Evaluating one limit leaves everything outside its footprint, rows and ledger alone. */
  lemma EvaluationTouches(
    s: System, orders: Orders, limit: Limit, window: PeriodWindow, reading: Reading, weather: Weather, now: Moment)
    requires Inv(s.world) && GoodOrders(orders)
    ensures var e := EvaluateOne(s, orders, limit, window, reading, weather, now).system;
            OnlyBy(limit, s.org, s.world, e.world) && OnlyItsStates(limit.id, s, e)
  {
    var s1 := CloseStale(s, orders, limit, window.key, weather, now);
    StaleTouches(s, orders, limit, window.key, weather, now);
    JudgeTouches(s1, orders, limit, window, reading, weather, now);
    OnlyByChains(limit, s.org, s.world, s1.world,
      EvaluateOne(s, orders, limit, window, reading, weather, now).system.world);
  }

  // -------------------------------------------------------------------------- convergence

  /** The row of a planned target is in force in the tenant, or settled by an admin. */
  ghost predicate InForceOrSettled(w: World, key: Key) {
    || IsSettled(RowOf(w, key))
    || (Has(RowOf(w, key), Applied) && Restricted(SiteOf(w, key.target), SnapshotOf(RowOf(w, key))))
  }

  /** What an evaluation is for: over budget restricts the whole plan, within budget restricts nothing. */
  ghost predicate Converged(s: System, limit: Limit, window: PeriodWindow) {
    var key := StateKey(limit.id, window.key);
    && key in s.ledger
    && (s.ledger[key].used >= limit.creditLimit as real && limit.enforce && limit.entity !in s.org.exempt ==>
          forall t :: t in Plan(s.org, s.world.projects, limit.entity) ==>
            InForceOrSettled(s.world, Key(limit.id, window.key, t)))
    && (s.ledger[key].used < limit.creditLimit as real ==> !HasApplied(s.world, limit.id, window.key))
  }

  /** A planned target can be changed when no call fails. */
  lemma PlannedCanBeChanged(w: World, org: Org, entity: Entity, t: Target)
    requires t in Plan(org, w.projects, entity)
    ensures PerformAt(SiteOf(w, t), NO_FAULTS).Done?
  {
    PlanMeans(org, w.projects, entity, t);
  }

  lemma BreachConverges(s: System, limit: Limit, window: PeriodWindow, state: PeriodState, now: Moment)
    requires Inv(s.world) && limit.enforce && limit.entity !in s.org.exempt
    ensures var e := Breach(s, limit, window, state, FAIR, now);
            forall t :: t in Plan(s.org, e.world.projects, limit.entity) ==>
              InForceOrSettled(e.world, Key(limit.id, window.key, t))
  {
    var plan := Plan(s.org, s.world.projects, limit.entity);
    var e := Breach(s, limit, window, state, FAIR, now);
    CycleTouches(s.world, s.org, limit, window.key, NO_FAULT_PLAN);
    SamePlan(s.world, e.world, s.org, limit.entity);
    forall t | t in plan ensures InForceOrSettled(e.world, Key(limit.id, window.key, t)) {
      var key := Key(limit.id, window.key, t);
      PlanMeans(s.org, s.world.projects, limit.entity, t);
      PlannedCanBeChanged(s.world, s.org, limit.entity, t);
      var i :| 0 <= i < |plan| && plan[i] == t;
      CycleAt(s.world, limit.id, limit.entity, window.key, plan, NO_FAULT_PLAN, i);
      AttemptEnforces(s.world, key, limit.entity, NO_FAULTS);
      assert SiteOf(e.world, t) == CellOf(e.world, key).site && RowOf(e.world, key) == CellOf(e.world, key).row;
    }
  }

  /** A restoration without failing calls leaves no applied row of the limit (in the period). */
  lemma RestoreLimitClears(w: World, rows: RowOrder, limitId: nat, period: Option<string>, reason: Reason)
    requires Inv(w) && GoodOrder(rows)
    ensures var r := RestoreLimit(w, rows, limitId, period, reason, {});
            !r.aborted && AppliedRowsOf(r.world.actions, limitId, period) == {}
  {
    var keys := AppliedRowsOf(w.actions, limitId, period);
    var order := rows(w.actions, keys);
    assert Lists(order, keys);
    WalkCompletes(w, order, reason);
    WalkKeepsRows(w, order, reason, {});
    var w' := RestoreRows(w, order, reason, {}).world;
    forall k | k in w'.actions && w'.actions[k].limitId == Some(limitId) && (period.Some? ==> k.period == period.value)
      ensures w'.actions[k].status != Applied
    {
      if k in keys {
        assert RowOf(w', k).Some?;
      } else {
        WalkElsewhere(w, order, reason, {}, k);
        assert RowOf(w', k) == RowOf(w, k);
      }
    }
  }

  /** One evaluation with a working client converges its limit. */
  lemma OneConverges(
    s: System, orders: Orders, limit: Limit, window: PeriodWindow, reading: Reading, now: Moment)
    requires Inv(s.world) && GoodOrders(orders) && reading.available && window.isActive
    ensures var e := EvaluateOne(s, orders, limit, window, reading, FAIR, now);
            !e.raised && Converged(e.system, limit, window)
  {
    StaleTouches(s, orders, limit, window.key, FAIR, now);
    JudgeConverges(CloseStale(s, orders, limit, window.key, FAIR, now), orders, limit, window, reading, now);
  }

  lemma JudgeConverges(
    s: System, orders: Orders, limit: Limit, window: PeriodWindow, reading: Reading, now: Moment)
    requires Inv(s.world) && GoodOrders(orders) && reading.available && window.isActive
    ensures var e := Judge(s, orders, limit, window, reading, FAIR, now);
            !e.raised && Converged(e.system, limit, window)
  {
    var state := Observed(s, limit, window, reading);
    if state.used >= limit.creditLimit as real {
      if limit.enforce && limit.entity !in s.org.exempt {
        BreachConverges(s, limit, window, state, now);
      }
    } else {
      RestoreLimitClears(s.world, orders.rows, limit.id, Some(window.key), CreditIncreased);
    }
  }

  /** What another limit with a disjoint footprint does cannot undo convergence. */
  lemma ConvergenceIsKept(a: System, b: System, limit: Limit, window: PeriodWindow, other: Limit)
    requires Converged(a, limit, window) && limit.id != other.id && Inv(a.world)
    requires OnlyBy(other, a.org, a.world, b.world) && OnlyItsStates(other.id, a, b)
    requires forall t :: !(InFootprint(a.world, a.org, limit, t) && InFootprint(a.world, a.org, other, t))
    ensures Converged(b, limit, window)
  {
    SamePlan(a.world, b.world, a.org, limit.entity);
    forall t | t in Plan(a.org, a.world.projects, limit.entity)
      ensures SiteOf(b.world, t) == SiteOf(a.world, t)
    {
      assert InFootprint(a.world, a.org, limit, t);
    }
    forall k | k in b.world.actions && b.world.actions[k].limitId == Some(limit.id)
      ensures RowOf(b.world, k) == RowOf(a.world, k)
    {
      assert RowInv(k, b.world.actions[k]);
    }
    if !HasApplied(a.world, limit.id, window.key) {
      forall k | k in b.world.actions && b.world.actions[k].limitId == Some(limit.id) && k.period == window.key
        ensures b.world.actions[k].status != Applied
      {
        assert RowOf(a.world, k).Some?;
        assert k !in AppliedRowsOf(a.world.actions, limit.id, Some(window.key));
      }
    }
  }

  /** The limits have their own ids, and no target belongs to two of them. */
  ghost predicate Independent(w: World, org: Org, limits: seq<Limit>) {
    && (forall i, j :: 0 <= i < j < |limits| ==> limits[i].id != limits[j].id)
    && (forall i, j, t :: 0 <= i < j < |limits| ==>
          !(InFootprint(w, org, limits[i], t) && InFootprint(w, org, limits[j], t)))
  }

  /** The limit is evaluated at all: active, in an open window, with a usage the tenant reports. */
  predicate Evaluable(limit: Limit, org: Org, index: UsageIndex, now: Moment)
    requires now.Valid()
  {
    && limit.active && ReportedTotal(index, org, limit).available
    && (limit.period.customStart.Some? ==> limit.period.customStart.value.Valid())
    && (limit.period.customEnd.Some? ==> limit.period.customEnd.value.Valid())
    && (limit.period.createdAt.Some? ==> limit.period.createdAt.value.Valid())
    && CurrentWindow(limit.period, now).Some? && CurrentWindow(limit.period, now).value.isActive
  }

  lemma IndependenceIsKept(a: World, b: World, org: Org, limits: seq<Limit>, other: Limit)
    requires OnlyBy(other, org, a, b) && Inv(a)
    requires Independent(a, org, limits) && forall l :: l in limits ==> l.id != other.id
    ensures Independent(b, org, limits)
  {
    forall l, t | l in limits && InFootprint(b, org, l, t) ensures InFootprint(a, org, l, t) {
      FootprintIsKept(a, b, org, l, other, t);
    }
    forall i, j, t | 0 <= i < j < |limits|
      ensures !(InFootprint(b, org, limits[i], t) && InFootprint(b, org, limits[j], t))
    {
      assert limits[i] in limits && limits[j] in limits;
    }
  }

  lemma FootprintIsKept(a: World, b: World, org: Org, limit: Limit, other: Limit, t: Target)
    requires OnlyBy(other, org, a, b) && Inv(a) && limit.id != other.id
    ensures InFootprint(b, org, limit, t) <==> InFootprint(a, org, limit, t)
  {
    SamePlan(a, b, org, limit.entity);
    if k :| HeldBy(b, limit.id, k) && k.target == t {
      assert RowInv(k, b.actions[k]) && RowOf(b, k) == RowOf(a, k);
      assert HeldBy(a, limit.id, k);
    }
    if k :| HeldBy(a, limit.id, k) && k.target == t {
      assert RowInv(k, a.actions[k]) && RowOf(b, k) == RowOf(a, k);
      assert HeldBy(b, limit.id, k);
    }
  }

  /** No limit of the list is `o`, nor shares a target with it. */
  ghost predicate Apart(w: World, org: Org, limits: seq<Limit>, o: Limit) {
    forall l :: l in limits ==>
      l.id != o.id && forall t :: !(InFootprint(w, org, o, t) && InFootprint(w, org, l, t))
  }

  lemma ApartIsKept(a: World, b: World, org: Org, limits: seq<Limit>, o: Limit, other: Limit)
    requires OnlyBy(other, org, a, b) && Inv(a) && Apart(a, org, limits, o)
    requires o.id != other.id && forall l :: l in limits ==> l.id != other.id
    ensures Apart(b, org, limits, o)
  {
    forall l, t | l in limits
      ensures !(InFootprint(b, org, o, t) && InFootprint(b, org, l, t))
    {
      FootprintIsKept(a, b, org, l, other, t);
      FootprintIsKept(a, b, org, o, other, t);
    }
  }

  /** One limit's turn within a cycle: what it is evaluated to, or the system as it was. */
  function EvaluateNext(s: System, orders: Orders, limit: Limit, index: UsageIndex, now: Moment): System
    requires GoodOrders(orders) && now.Valid() && ValidConfig(limit.period)
  {
    var window := CurrentWindow(limit.period, now);
    if !limit.active || window.None? then s
    else EvaluateOne(s, orders, limit, window.value, ReportedTotal(index, s.org, limit), FAIR, now).system
  }

  lemma NextTouches(s: System, orders: Orders, limits: seq<Limit>, index: UsageIndex, now: Moment)
    requires Inv(s.world) && GoodOrders(orders) && now.Valid() && forall l :: l in limits ==> ValidConfig(l.period)
    requires limits != []
    ensures var s1 := EvaluateNext(s, orders, limits[0], index, now);
            && OnlyBy(limits[0], s.org, s.world, s1.world) && OnlyItsStates(limits[0].id, s, s1)
            && EvaluateAll(s, orders, limits, index, FAIR, now)
                 == EvaluateAll(s1, orders, limits[1..], index, FAIR, now)
  {
    var limit := limits[0];
    var window := CurrentWindow(limit.period, now);
    if !limit.active || window.None? {
      OnlyByNothing(limit, s.org, s.world);
    } else {
      EvaluationTouches(s, orders, limit, window.value, ReportedTotal(index, s.org, limit), FAIR, now);
      NeverRaises(s, orders, limit, window.value, ReportedTotal(index, s.org, limit), now);
    }
  }

  lemma {:induction false} OthersKeepConvergence(
    s: System, orders: Orders, limits: seq<Limit>, index: UsageIndex, now: Moment, o: Limit, w: PeriodWindow)
    requires Inv(s.world) && GoodOrders(orders) && now.Valid() && forall l :: l in limits ==> ValidConfig(l.period)
    requires Independent(s.world, s.org, limits) && Apart(s.world, s.org, limits, o) && Converged(s, o, w)
    ensures Converged(EvaluateAll(s, orders, limits, index, FAIR, now).system, o, w)
    decreases |limits|
  {
    if limits != [] {
      var s1 := EvaluateNext(s, orders, limits[0], index, now);
      NextTouches(s, orders, limits, index, now);
      ConvergenceIsKept(s, s1, o, w, limits[0]);
      RestStaysIndependent(s, s1, limits);
      ApartIsKept(s.world, s1.world, s.org, limits[1..], o, limits[0]);
      OthersKeepConvergence(s1, orders, limits[1..], index, now, o, w);
    }
  }

  /** After the first limit's turn the others are still independent, of each other and of it. */
  lemma RestStaysIndependent(s: System, s1: System, limits: seq<Limit>)
    requires limits != [] && Independent(s.world, s.org, limits) && Inv(s.world)
    requires OnlyBy(limits[0], s.org, s.world, s1.world)
    ensures forall l :: l in limits[1..] ==> l in limits && l.id != limits[0].id
    ensures Independent(s1.world, s.org, limits[1..]) && Apart(s1.world, s.org, limits[1..], limits[0])
  {
    forall l | l in limits[1..]
      ensures l in limits && l.id != limits[0].id
      ensures forall t :: !(InFootprint(s1.world, s.org, limits[0], t) && InFootprint(s1.world, s.org, l, t))
    {
      var j :| 0 <= j < |limits[1..]| && limits[1..][j] == l;
      assert limits[j + 1] == l;
      forall t ensures !(InFootprint(s1.world, s.org, limits[0], t) && InFootprint(s1.world, s.org, l, t)) {
        FootprintIsKept(s.world, s1.world, s.org, l, limits[0], t);
      }
    }
    IndependenceIsKept(s.world, s1.world, s.org, limits[1..], limits[0]);
  }

  /**
   A cycle with a working client converges every limit that can be evaluated: each planned target
   of a breached, enforcing, non-exempt limit ends up restricted in the tenant unless an admin
   settled it, and a limit within budget keeps nothing restricted in its current period.
   */
  lemma {:induction false} EvaluationConverges(
    s: System, orders: Orders, limits: seq<Limit>, index: UsageIndex, now: Moment)
    requires Inv(s.world) && GoodOrders(orders) && now.Valid() && forall l :: l in limits ==> ValidConfig(l.period)
    requires Independent(s.world, s.org, limits)
    ensures var e := EvaluateAll(s, orders, limits, index, FAIR, now);
            && !e.raised
            && forall l :: l in limits && Evaluable(l, s.org, index, now) ==>
                 Converged(e.system, l, CurrentWindow(l.period, now).value)
    decreases |limits|
  {
    if limits != [] {
      var limit := limits[0];
      var s1 := EvaluateNext(s, orders, limit, index, now);
      NextTouches(s, orders, limits, index, now);
      RestStaysIndependent(s, s1, limits);
      EvaluationConverges(s1, orders, limits[1..], index, now);
      if Evaluable(limit, s.org, index, now) {
        var window := CurrentWindow(limit.period, now).value;
        OneConverges(s, orders, limit, window, ReportedTotal(index, s.org, limit), now);
        OthersKeepConvergence(s1, orders, limits[1..], index, now, limit, window);
      }
      assert limits == [limit] + limits[1..];
    }
  }

  lemma NeverRaises(
    s: System, orders: Orders, limit: Limit, window: PeriodWindow, reading: Reading, now: Moment)
    requires Inv(s.world) && GoodOrders(orders)
    ensures !EvaluateOne(s, orders, limit, window, reading, FAIR, now).raised
  {
    var s1 := CloseStale(s, orders, limit, window.key, FAIR, now);
    StaleTouches(s, orders, limit, window.key, FAIR, now);
    RestoreLimitClears(s1.world, orders.rows, limit.id, Some(window.key), CreditIncreased);
  }
}
