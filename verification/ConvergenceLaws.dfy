/** Convergence of limits that share targets: what one evaluation disturbs, the next one settles. */
module ConvergenceLaws {
  import opened Options
  import opened Tenancy
  import opened Entities
  import opened Enforcement
  import opened EnforcementLaws
  import opened Enforcer
  import opened Periods
  import opened Evaluation
  import opened EvaluationLaws
  import opened RolloverLaws
  import opened UsageLaws

  // ------------------------------------------------------------- cycles only restrict

  /** Whatever was in force, under any snapshot, still is. */
  ghost predicate Tightens(a: World, b: World) {
    && Inv(b) && SamePlanning(a, b)
    && forall t, snapshot :: Restricted(SiteOf(a, t), snapshot) ==> Restricted(SiteOf(b, t), snapshot)
  }

  lemma AttemptTightensSite(c: Cell, blank: Row, f: Faults, snapshot: Option<Snapshot>)
    requires Restricted(c.site, snapshot)
    ensures Restricted(AttemptAt(c, blank, f).0.site, snapshot)
  {
  }

  lemma AttemptTightens(w: World, key: Key, entity: Entity, f: Faults)
    requires Inv(w)
    ensures Tightens(w, Attempt(w, key, entity, f).0)
  {
    var w' := Attempt(w, key, entity, f).0;
    AttemptKeepsInv(w, key, entity, f);
    AttemptKeepsPlanning(w, key, entity, f);
    forall t, snapshot | Restricted(SiteOf(w, t), snapshot) ensures Restricted(SiteOf(w', t), snapshot) {
      var probe := Key(key.limitId, key.period, t);
      AttemptIsLocal(w, key, entity, f, probe);
      assert CellOf(w', probe).site == SiteOf(w', t) && CellOf(w, probe).site == SiteOf(w, t);
      if t == key.target {
        AttemptTightensSite(CellOf(w, key), FreshRow(key.limitId, entity), f, snapshot);
      }
    }
  }

  lemma {:induction false} CycleTightens(
    w: World, limitId: nat, entity: Entity, period: string, targets: seq<Target>, faults: FaultPlan)
    requires Inv(w)
    ensures Tightens(w, ApplyTargets(w, limitId, entity, period, targets, faults).0)
    decreases |targets|
  {
    if targets != [] {
      var key := Key(limitId, period, targets[0]);
      AttemptTightens(w, key, entity, faults.At(targets[0]));
      CycleTightens(Attempt(w, key, entity, faults.At(targets[0])).0, limitId, entity, period, targets[1..], faults);
    }
  }

  // --------------------------------------------- a limit with nothing left to give back

  /** Evaluating the limit again with this reading undoes nothing: nothing to close, nothing to lift. */
  ghost predicate Quiet(s: System, limit: Limit, window: PeriodWindow, reading: Reading) {
    && (forall k :: k in StaleKeys(s.ledger, limit.id, window.key) ==>
          s.ledger[k].status == LimitRestricted && limit.hold)
    && (Observed(s, limit, window, reading).used < limit.creditLimit as real && reading.available && window.isActive ==>
          AppliedRowsOf(s.world.actions, limit.id, Some(window.key)) == {})
  }

  /** Measuring twice with one reading is measuring once. */
  lemma MeasuredTwice(state: PeriodState, after: PeriodState, reading: Reading)
    requires SameMeasure(after, Measured(state, reading))
    ensures Measured(after, reading).used == after.used
  {
  }

  lemma ObservedAgain(s: System, orders: Orders, limit: Limit, window: PeriodWindow, reading: Reading, now: Moment)
    requires Inv(s.world) && GoodOrders(orders)
    ensures var e := EvaluateOne(s, orders, limit, window, reading, FAIR, now).system;
            var key := StateKey(limit.id, window.key);
            key in e.ledger && Observed(e, limit, window, reading).used == e.ledger[key].used
  {
    var key := StateKey(limit.id, window.key);
    var e := EvaluateOne(s, orders, limit, window, reading, FAIR, now).system;
    EvaluationMeasures(s, orders, limit, window, reading, FAIR, now);
    var state := if key in s.ledger then s.ledger[key] else OpenState(limit, window, reading);
    MeasuredTwice(state, e.ledger[key], reading);
  }

  /** An evaluation leaves its limit quiet. */
  lemma EvaluatedIsQuiet(s: System, orders: Orders, limit: Limit, window: PeriodWindow, reading: Reading, now: Moment)
    requires Inv(s.world) && GoodOrders(orders)
    ensures Quiet(EvaluateOne(s, orders, limit, window, reading, FAIR, now).system, limit, window, reading)
  {
    var e := EvaluateOne(s, orders, limit, window, reading, FAIR, now).system;
    var s1 := CloseStale(s, orders, limit, window.key, FAIR, now);
    StaleTouches(s, orders, limit, window.key, FAIR, now);
    ClosedIsClosed(s, orders, limit, window.key, now);
    JudgeTouches(s1, orders, limit, window, reading, FAIR, now);
    forall k | k in StaleKeys(e.ledger, limit.id, window.key)
      ensures e.ledger[k].status == LimitRestricted && limit.hold
    {
      assert k in StaleKeys(s1.ledger, limit.id, window.key);
    }
    ObservedAgain(s, orders, limit, window, reading, now);
    if reading.available && window.isActive {
      OneConverges(s, orders, limit, window, reading, now);
    }
  }

  /** Nobody else's evaluation disturbs the quiet. */
  lemma QuietIsKept(a: System, b: System, limit: Limit, window: PeriodWindow, reading: Reading, other: Limit)
    requires Quiet(a, limit, window, reading) && limit.id != other.id
    requires OnlyBy(other, a.org, a.world, b.world) && OnlyItsStates(other.id, a, b)
    ensures Quiet(b, limit, window, reading)
  {
    forall k | k in StaleKeys(b.ledger, limit.id, window.key)
      ensures b.ledger[k].status == LimitRestricted && limit.hold
    {
      assert k in StaleKeys(a.ledger, limit.id, window.key);
    }
    var key := StateKey(limit.id, window.key);
    assert key in a.ledger <==> key in b.ledger;
    assert Observed(a, limit, window, reading) == Observed(b, limit, window, reading);
    forall k | k in AppliedRowsOf(b.world.actions, limit.id, Some(window.key))
      ensures k in AppliedRowsOf(a.world.actions, limit.id, Some(window.key))
    {
      assert RowInv(k, b.world.actions[k]);
      assert RowOf(b.world, k) == RowOf(a.world, k);
    }
  }

  /** Evaluating a quiet limit only restricts. */
  lemma QuietOnlyTightens(
    s: System, orders: Orders, limit: Limit, window: PeriodWindow, reading: Reading, now: Moment)
    requires Inv(s.world) && GoodOrders(orders) && Quiet(s, limit, window, reading)
    ensures Tightens(s.world, EvaluateOne(s, orders, limit, window, reading, FAIR, now).system.world)
  {
    var stale := StaleKeys(s.ledger, limit.id, window.key);
    NothingToClose(s, orders, limit, orders.periods(s.ledger, stale), FAIR, now);
    assert CloseStale(s, orders, limit, window.key, FAIR, now) == s;
    var state := Observed(s, limit, window, reading);
    if !reading.available || !window.isActive {
    } else if state.used >= limit.creditLimit as real {
      var plan := Plan(s.org, s.world.projects, limit.entity);
      CycleTightens(s.world, limit.id, limit.entity, window.key, plan, NO_FAULT_PLAN);
    } else {
      RestoringNothing(s.world, orders.rows, limit.id, Some(window.key), CreditIncreased);
    }
  }

  lemma FirstIsListed(order: seq<Key>)
    ensures order == [] || exists k :: k in order
  {
    if order != [] {
      assert order[0] in order;
    }
  }

  lemma RestoringNothing(w: World, rows: RowOrder, limitId: nat, period: Option<string>, reason: Reason)
    requires GoodOrder(rows) && AppliedRowsOf(w.actions, limitId, period) == {}
    ensures RestoreLimit(w, rows, limitId, period, reason, {}) == Restoration(w, 0, false)
  {
    var order := rows(w.actions, {});
    assert Lists(order, {});
    FirstIsListed(order);
  }

  // -------------------------------------------------------------- two evaluations in a row

  ghost predicate OwnLimitIds(limits: seq<Limit>) {
    forall i, j :: 0 <= i < j < |limits| ==> limits[i].id != limits[j].id
  }

  /** What an evaluation at this moment finds for a limit, if it evaluates it. */
  function WindowNow(limit: Limit, now: Moment): Option<PeriodWindow>
    requires now.Valid() && ValidConfig(limit.period)
  {
    if limit.active then CurrentWindow(limit.period, now) else None
  }

  ghost predicate QuietNow(s: System, limit: Limit, index: UsageIndex, now: Moment)
    requires now.Valid() && ValidConfig(limit.period)
  {
    WindowNow(limit, now).Some? ==>
      Quiet(s, limit, WindowNow(limit, now).value, ReportedTotal(index, s.org, limit))
  }

  lemma NextIsQuiet(s: System, orders: Orders, limit: Limit, index: UsageIndex, now: Moment)
    requires Inv(s.world) && GoodOrders(orders) && now.Valid() && ValidConfig(limit.period)
    ensures QuietNow(EvaluateNext(s, orders, limit, index, now), limit, index, now)
  {
    if WindowNow(limit, now).Some? {
      var window, reading := WindowNow(limit, now).value, ReportedTotal(index, s.org, limit);
      EvaluatedIsQuiet(s, orders, limit, window, reading, now);
      EvaluationTouches(s, orders, limit, window, reading, FAIR, now);
    }
  }

  lemma {:induction false} OthersKeepQuiet(
    s: System, orders: Orders, limits: seq<Limit>, index: UsageIndex, now: Moment, o: Limit)
    requires Inv(s.world) && GoodOrders(orders) && now.Valid() && forall l :: l in limits ==> ValidConfig(l.period)
    requires ValidConfig(o.period) && QuietNow(s, o, index, now) && forall l :: l in limits ==> l.id != o.id
    ensures var e := EvaluateAll(s, orders, limits, index, FAIR, now).system;
            QuietNow(e, o, index, now) && Inv(e.world) && e.org == s.org && SamePlanning(s.world, e.world)
    decreases |limits|
  {
    if limits != [] {
      var s1 := EvaluateNext(s, orders, limits[0], index, now);
      NextTouches(s, orders, limits, index, now);
      assert limits[0] in limits && forall l :: l in limits[1..] ==> l in limits;
      if WindowNow(o, now).Some? {
        QuietIsKept(s, s1, o, WindowNow(o, now).value, ReportedTotal(index, s.org, o), limits[0]);
      }
      OthersKeepQuiet(s1, orders, limits[1..], index, now, o);
    }
  }

  /** A whole evaluation leaves every one of its limits quiet, whether or not they share targets. */
  lemma {:induction false} AllAreQuiet(
    s: System, orders: Orders, limits: seq<Limit>, index: UsageIndex, now: Moment)
    requires Inv(s.world) && GoodOrders(orders) && now.Valid() && forall l :: l in limits ==> ValidConfig(l.period)
    requires OwnLimitIds(limits)
    ensures var e := EvaluateAll(s, orders, limits, index, FAIR, now);
            && !e.raised && Inv(e.system.world) && e.system.org == s.org
            && forall l :: l in limits ==> QuietNow(e.system, l, index, now)
    decreases |limits|
  {
    if limits != [] {
      var s1 := EvaluateNext(s, orders, limits[0], index, now);
      NextTouches(s, orders, limits, index, now);
      RestHasOwnIds(limits);
      AllAreQuiet(s1, orders, limits[1..], index, now);
      NextIsQuiet(s, orders, limits[0], index, now);
      OthersKeepQuiet(s1, orders, limits[1..], index, now, limits[0]);
      assert limits == [limits[0]] + limits[1..];
    }
  }

  lemma RestHasOwnIds(limits: seq<Limit>)
    requires limits != [] && OwnLimitIds(limits)
    ensures OwnLimitIds(limits[1..])
    ensures forall l :: l in limits[1..] ==> l in limits && l.id != limits[0].id
  {
    forall l | l in limits[1..] ensures l in limits && l.id != limits[0].id {
      var j :| 0 <= j < |limits[1..]| && limits[1..][j] == l;
      assert limits[j + 1] == l;
    }
  }

  /** What another limit's restricting evaluation cannot undo. */
  lemma ConvergenceSurvivesTightening(a: System, b: System, limit: Limit, window: PeriodWindow, other: Limit)
    requires Converged(a, limit, window) && limit.id != other.id && Tightens(a.world, b.world)
    requires OnlyBy(other, a.org, a.world, b.world) && OnlyItsStates(other.id, a, b)
    ensures Converged(b, limit, window)
  {
    SamePlan(a.world, b.world, a.org, limit.entity);
    forall t | t in Plan(a.org, a.world.projects, limit.entity)
      ensures InForceOrSettled(a.world, Key(limit.id, window.key, t)) ==>
                InForceOrSettled(b.world, Key(limit.id, window.key, t))
    {
      assert RowOf(b.world, Key(limit.id, window.key, t)) == RowOf(a.world, Key(limit.id, window.key, t));
    }
    forall k | k in AppliedRowsOf(b.world.actions, limit.id, Some(window.key))
      ensures k in AppliedRowsOf(a.world.actions, limit.id, Some(window.key))
    {
      assert RowInv(k, b.world.actions[k]);
      assert RowOf(b.world, k) == RowOf(a.world, k);
    }
  }

  ghost predicate AllQuiet(s: System, limits: seq<Limit>, index: UsageIndex, now: Moment)
    requires now.Valid() && forall l :: l in limits ==> ValidConfig(l.period)
  {
    forall l :: l in limits ==> QuietNow(s, l, index, now)
  }

  /** The first of several quiet limits takes its turn: it only restricts, and the others stay quiet. */
  lemma QuietTurn(s: System, orders: Orders, limits: seq<Limit>, index: UsageIndex, now: Moment)
    requires Inv(s.world) && GoodOrders(orders) && now.Valid() && forall l :: l in limits ==> ValidConfig(l.period)
    requires limits != [] && OwnLimitIds(limits) && AllQuiet(s, limits, index, now)
    ensures var s1 := EvaluateNext(s, orders, limits[0], index, now);
            && Inv(s1.world) && s1.org == s.org && Tightens(s.world, s1.world)
            && (forall l :: l in limits[1..] ==> l in limits) && AllQuiet(s1, limits[1..], index, now)
  {
    var limit := limits[0];
    var s1 := EvaluateNext(s, orders, limit, index, now);
    NextTouches(s, orders, limits, index, now);
    RestHasOwnIds(limits);
    assert limit in limits;
    if WindowNow(limit, now).Some? {
      QuietOnlyTightens(s, orders, limit, WindowNow(limit, now).value, ReportedTotal(index, s.org, limit), now);
    }
    forall l | l in limits[1..] ensures QuietNow(s1, l, index, now) {
      if WindowNow(l, now).Some? {
        QuietIsKept(s, s1, l, WindowNow(l, now).value, ReportedTotal(index, s.org, l), limit);
      }
    }
  }

  lemma {:induction false} QuietOthersKeepConvergence(
    s: System, orders: Orders, limits: seq<Limit>, index: UsageIndex, now: Moment, o: Limit, window: PeriodWindow)
    requires Inv(s.world) && GoodOrders(orders) && now.Valid() && forall l :: l in limits ==> ValidConfig(l.period)
    requires OwnLimitIds(limits) && AllQuiet(s, limits, index, now)
    requires Converged(s, o, window) && forall l :: l in limits ==> l.id != o.id
    ensures Converged(EvaluateAll(s, orders, limits, index, FAIR, now).system, o, window)
    decreases |limits|
  {
    if limits != [] {
      var s1 := EvaluateNext(s, orders, limits[0], index, now);
      NextTouches(s, orders, limits, index, now);
      QuietTurn(s, orders, limits, index, now);
      RestHasOwnIds(limits);
      assert limits[0] in limits;
      ConvergenceSurvivesTightening(s, s1, o, window, limits[0]);
      QuietOthersKeepConvergence(s1, orders, limits[1..], index, now, o, window);
    }
  }

  /** Once all limits are quiet, one evaluation converges them all, however their targets overlap. */
  lemma {:induction false} QuietEvaluationConverges(
    s: System, orders: Orders, limits: seq<Limit>, index: UsageIndex, now: Moment)
    requires Inv(s.world) && GoodOrders(orders) && now.Valid() && forall l :: l in limits ==> ValidConfig(l.period)
    requires OwnLimitIds(limits) && AllQuiet(s, limits, index, now)
    ensures var e := EvaluateAll(s, orders, limits, index, FAIR, now);
            && !e.raised && Tightens(s.world, e.system.world)
            && forall l :: l in limits && Evaluable(l, s.org, index, now) ==>
                 Converged(e.system, l, CurrentWindow(l.period, now).value)
    decreases |limits|
  {
    if limits != [] {
      var limit := limits[0];
      var s1 := EvaluateNext(s, orders, limit, index, now);
      NextTouches(s, orders, limits, index, now);
      QuietTurn(s, orders, limits, index, now);
      RestHasOwnIds(limits);
      QuietEvaluationConverges(s1, orders, limits[1..], index, now);
      if Evaluable(limit, s.org, index, now) {
        var window := CurrentWindow(limit.period, now).value;
        OneConverges(s, orders, limit, window, ReportedTotal(index, s.org, limit), now);
        QuietOthersKeepConvergence(s1, orders, limits[1..], index, now, limit, window);
      }
      assert limits == [limit] + limits[1..];
    }
  }

  /** The two moments fall into the same windows of every limit. */
  ghost predicate SameWindows(limits: seq<Limit>, now: Moment, later: Moment)
    requires now.Valid() && later.Valid() && forall l :: l in limits ==> ValidConfig(l.period)
  {
    forall l :: l in limits ==> WindowNow(l, now) == WindowNow(l, later)
  }

  /**
   Limits may share targets in any way.  An evaluation may then lift, for a limit within budget, what
   another one needs; but the second evaluation of the same readings in the same windows converges
   every limit, and gives nothing back to anybody.
   */
  lemma SecondEvaluationConverges(
    s: System, orders: Orders, limits: seq<Limit>, index: UsageIndex, now: Moment, later: Moment)
    requires Inv(s.world) && GoodOrders(orders) && now.Valid() && later.Valid()
    requires (forall l :: l in limits ==> ValidConfig(l.period)) && OwnLimitIds(limits)
    requires SameWindows(limits, now, later)
    ensures var first := EvaluateAll(s, orders, limits, index, FAIR, now);
            var second := EvaluateAll(first.system, orders, limits, index, FAIR, later);
            && !first.raised && !second.raised && Tightens(first.system.world, second.system.world)
            && forall l :: l in limits && Evaluable(l, s.org, index, later) ==>
                 Converged(second.system, l, CurrentWindow(l.period, later).value)
  {
    AllAreQuiet(s, orders, limits, index, now);
    var first := EvaluateAll(s, orders, limits, index, FAIR, now).system;
    forall l | l in limits ensures QuietNow(first, l, index, later) {
      assert QuietNow(first, l, index, now) && WindowNow(l, now) == WindowNow(l, later);
    }
    QuietEvaluationConverges(first, orders, limits, index, later);
  }
}
