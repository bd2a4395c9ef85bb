/**
 Evaluation of limits, as functions of values: usage against budget within the current window,
 rollover of expired periods, and the enforcement or restoration that follows.
 */
module Evaluation {
  import opened Options
  import opened Tenancy
  import opened Entities
  import opened Enforcement
  import opened EnforcementLaws
  import opened Enforcer
  import opened Periods

  datatype Limit = Limit(
    id: nat,
    entity: Entity,
    creditLimit: nat,
    warningPct: nat,
    enforce: bool,
    active: bool,
    includeMembers: bool,
    hold: bool,
    countExisting: bool,
    period: PeriodConfig)

  datatype LimitStatus = LimitOk | LimitWarned | LimitBreached | LimitRestricted | LimitRestored

  datatype StateKey = StateKey(limitId: nat, period: string)

  datatype PeriodState = PeriodState(
    start: Moment,
    end: Option<Moment>,
    baseline: real,
    reported: real,
    used: real,
    available: bool,
    status: LimitStatus,
    warnedAt: Option<Moment>,
    breachedAt: Option<Moment>,
    restrictedAt: Option<Moment>,
    restoredAt: Option<Moment>)

  datatype System = System(world: World, org: Org, ledger: map<StateKey, PeriodState>)

  // ------------------------------------------------------------------- reported usage

  /** What the newest snapshots report, and which dimensions the tenant supports. */
  datatype UsageIndex = UsageIndex(
    users: map<Id, real>, projects: map<Id, real>, applications: map<Id, real>, groups: map<Id, real>,
    userDimension: bool, projectDimension: bool, applicationDimension: bool, groupDimension: bool)

  /** A reported total, and whether the tenant could report it at all. */
  datatype Reading = Reading(total: real, available: bool)

  function Total(totals: map<Id, real>, id: Id): real {
    if id in totals then totals[id] else 0.0
  }

  function SumOver(totals: map<Id, real>, ids: seq<Id>): real {
    if ids == [] then 0.0 else Total(totals, ids[0]) + SumOver(totals, ids[1..])
  }

  function ReportedTotal(index: UsageIndex, org: Org, limit: Limit): Reading {
    var id := limit.entity.id;
    match limit.entity.level
    case User => if index.userDimension then Reading(Total(index.users, id), true) else Reading(0.0, false)
    case Project => if index.projectDimension then Reading(Total(index.projects, id), true) else Reading(0.0, false)
    case Application =>
      if index.applicationDimension && id in index.applications then Reading(index.applications[id], true)
      else
        var ids := ProjectIdsFor(org, limit.entity);
        if ids == [] || !index.projectDimension then Reading(0.0, index.applicationDimension)
        else Reading(SumOver(index.projects, ids), true)
    case Group =>
      if !limit.includeMembers && index.groupDimension && id in index.groups then Reading(index.groups[id], true)
      else
        var ids := ProjectIdsFor(org, limit.entity);
        var users := if limit.includeMembers && id in org.members then org.members[id] else [];
        var byProjects := ids != [] && index.projectDimension;
        var byMembers := users != [] && index.userDimension;
        Reading(
          (if byProjects then SumOver(index.projects, ids) else 0.0) +
          (if byMembers then SumOver(index.users, users) else 0.0),
          byProjects || byMembers)
  }

  // ---------------------------------------------------------------- usage in a period

  /** The figure a new period discounts. */
  function BaselineFor(limit: Limit, window: PeriodWindow, reading: Reading): real {
    if !reading.available then 0.0
    else if window.periodType == Lifetime || window.periodType == Custom || limit.countExisting then 0.0
    else reading.total
  }

  function OpenState(limit: Limit, window: PeriodWindow, reading: Reading): PeriodState {
    PeriodState(window.start, window.end, BaselineFor(limit, window, reading), reading.total, 0.0, reading.available,
                LimitOk, None, None, None, None)
  }

  /** One reading: the baseline follows a falling total down, then usage is the excess over it. */
  function Measured(state: PeriodState, reading: Reading): PeriodState {
    var baseline := if reading.total < state.baseline then reading.total else state.baseline;
    var excess := reading.total - baseline;
    state.(baseline := baseline, reported := reading.total, available := reading.available,
           used := if reading.available && excess > 0.0 then excess else 0.0)
  }

  /** The period row after a reading, opened by it when there was none. */
  function Observed(s: System, limit: Limit, window: PeriodWindow, reading: Reading): PeriodState {
    var key := StateKey(limit.id, window.key);
    Measured(if key in s.ledger then s.ledger[key] else OpenState(limit, window, reading), reading)
  }

  // ------------------------------------------------------------------------- rollover

  /** The orders in which the store lists rows and period states. */
  datatype Orders = Orders(rows: RowOrder, periods: (map<StateKey, PeriodState>, set<StateKey>) -> seq<StateKey>)

  /** The failing calls of one evaluation, and whether there is a client at all. */
  datatype Weather = Weather(connected: bool, faults: FaultPlan, undoFaults: set<Target>)

  const FAIR := Weather(true, NO_FAULT_PLAN, {})

  predicate NeedsClosing(status: LimitStatus) {
    status == LimitRestricted || status == LimitBreached || status == LimitWarned
  }

  function StaleKeys(ledger: map<StateKey, PeriodState>, limitId: nat, currentKey: string): set<StateKey> {
    set k | k in ledger && k.limitId == limitId && k.period != currentKey && NeedsClosing(ledger[k].status)
  }

  function Closed(state: PeriodState): PeriodState {
    state.(status := if state.restrictedAt.Some? then LimitRestored else LimitOk)
  }

  /** One expired period: its rows are undone only while its status is still restricted. */
  function CloseOne(s: System, orders: Orders, limit: Limit, key: StateKey, weather: Weather, now: Moment): System
    requires key in s.ledger
  {
    var state := s.ledger[key];
    if state.status == LimitRestricted && limit.hold then s
    else if state.status == LimitRestricted && weather.connected then
      var r := RestoreLimit(s.world, orders.rows, limit.id, Some(key.period), PeriodRollover, weather.undoFaults);
      if r.aborted then s.(world := r.world)
      else s.(world := r.world, ledger := s.ledger[key := Closed(state.(restoredAt := Some(now)))])
    else s.(ledger := s.ledger[key := Closed(state)])
  }

  function CloseEach(
    s: System, orders: Orders, limit: Limit, keys: seq<StateKey>, weather: Weather, now: Moment): (r: System)
    requires forall k :: k in keys ==> k in s.ledger
    ensures s.ledger.Keys == r.ledger.Keys && r.org == s.org
    decreases |keys|
  {
    if keys == [] then s
    else
      var s1 := CloseOne(s, orders, limit, keys[0], weather, now);
      assert forall k :: k in keys[1..] ==> k in keys;
      CloseEach(s1, orders, limit, keys[1..], weather, now)
  }

  ghost predicate GoodOrders(orders: Orders) {
    && GoodOrder(orders.rows)
    && forall m, ks {:trigger orders.periods(m, ks)} ::
         Distinct(orders.periods(m, ks)) && forall k :: k in orders.periods(m, ks) <==> k in ks
  }

  function CloseStale(
    s: System, orders: Orders, limit: Limit, currentKey: string, weather: Weather, now: Moment): (r: System)
    requires GoodOrders(orders)
    ensures s.ledger.Keys == r.ledger.Keys && r.org == s.org
  {
    CloseEach(s, orders, limit, orders.periods(s.ledger, StaleKeys(s.ledger, limit.id, currentKey)), weather, now)
  }

  // ------------------------------------------------------------------------- one limit

  datatype Evaluated = Evaluated(system: System, raised: bool)

  function Stamp(at: Option<Moment>, now: Moment): Option<Moment> {
    if at.None? then Some(now) else at
  }

  function WithState(s: System, key: StateKey, state: PeriodState): System {
    s.(ledger := s.ledger[key := state])
  }

  predicate HasApplied(w: World, limitId: nat, period: string) {
    AppliedRowsOf(w.actions, limitId, Some(period)) != {}
  }

  /** Some planned target went from not applied to applied in a cycle. */
  predicate AnyApplied(verdicts: seq<Verdict>) {
    NewlyApplied in verdicts
  }

  /** Usage has reached the budget. */
  function Breach(
    s: System, limit: Limit, window: PeriodWindow, state: PeriodState, weather: Weather, now: Moment): System {
    var key := StateKey(limit.id, window.key);
    var breached := state.(status := LimitBreached, breachedAt := Stamp(state.breachedAt, now));
    if limit.entity in s.org.exempt || !limit.enforce || !weather.connected then WithState(s, key, breached)
    else
      var plan := Plan(s.org, s.world.projects, limit.entity);
      var (w, verdicts) := ApplyTargets(s.world, limit.id, limit.entity, window.key, plan, weather.faults);
      WithState(s.(world := w), key,
        if AnyApplied(verdicts)
        then breached.(status := LimitRestricted, restrictedAt := Stamp(state.restrictedAt, now))
        else breached)
  }

  /** The status of a period within budget that had nothing to give back. */
  function Settle(limit: Limit, state: PeriodState, now: Moment): PeriodState {
    if state.status == LimitRestored then state
    else if state.used >= limit.creditLimit as real * limit.warningPct as real / 100.0
    then state.(status := LimitWarned, warnedAt := Stamp(state.warnedAt, now))
    else state.(status := LimitOk)
  }

  /** Usage is within budget: whatever this period restricted is given back. */
  function WithinBudget(
    s: System, orders: Orders, limit: Limit, window: PeriodWindow, state: PeriodState, weather: Weather, now: Moment
  ): Evaluated {
    var key := StateKey(limit.id, window.key);
    var wasRestricted :=
      state.status == LimitRestricted || state.status == LimitBreached || HasApplied(s.world, limit.id, window.key);
    if !wasRestricted || !weather.connected then Evaluated(WithState(s, key, Settle(limit, state, now)), false)
    else
      var r := RestoreLimit(s.world, orders.rows, limit.id, Some(window.key), CreditIncreased, weather.undoFaults);
      var s1 := s.(world := r.world);
      if r.aborted then Evaluated(WithState(s1, key, state), true)
      else if r.restored > 0 then
        Evaluated(WithState(s1, key, state.(status := LimitRestored, restoredAt := Some(now))), false)
      else Evaluated(WithState(s1, key, Settle(limit, state, now)), false)
  }

  /** The second half of an evaluation, once expired periods are closed. */
  function Judge(
    s: System, orders: Orders, limit: Limit, window: PeriodWindow, reading: Reading, weather: Weather, now: Moment
  ): Evaluated {
    var state := Observed(s, limit, window, reading);
    if !reading.available || !window.isActive then
      Evaluated(WithState(s, StateKey(limit.id, window.key), state.(status := LimitOk)), false)
    else if state.used >= limit.creditLimit as real then
      Evaluated(Breach(s, limit, window, state, weather, now), false)
    else WithinBudget(s, orders, limit, window, state, weather, now)
  }

  /** One limit against its current window. */
  function EvaluateOne(
    s: System, orders: Orders, limit: Limit, window: PeriodWindow, reading: Reading, weather: Weather, now: Moment
  ): Evaluated
    requires GoodOrders(orders)
  {
    Judge(CloseStale(s, orders, limit, window.key, weather, now), orders, limit, window, reading, weather, now)
  }

  /**
   Every active limit in turn.  A limit whose period is misconfigured is skipped; a failed
   restoration within budget is raised and ends the evaluation, keeping what was done so far.
   */
  function EvaluateAll(
    s: System, orders: Orders, limits: seq<Limit>, index: UsageIndex, weather: Weather, now: Moment
  ): Evaluated
    requires GoodOrders(orders) && now.Valid() && forall l :: l in limits ==> ValidConfig(l.period)
    decreases |limits|
  {
    if limits == [] then Evaluated(s, false)
    else
      var limit := limits[0];
      var window := CurrentWindow(limit.period, now);
      if !limit.active || window.None? then EvaluateAll(s, orders, limits[1..], index, weather, now)
      else
        var e := EvaluateOne(s, orders, limit, window.value, ReportedTotal(index, s.org, limit), weather, now);
        if e.raised then e else EvaluateAll(e.system, orders, limits[1..], index, weather, now)
  }
}
