/** The evaluation and limits services: the same judgements, made on stored rows one step at a time. */
module Evaluator {
  import opened Options
  import opened Tenancy
  import opened Entities
  import opened Enforcement
  import opened EnforcementLaws
  import opened Enforcer
  import opened EnforcementRuns
  import opened Periods
  import opened Evaluation
  import opened LimitsService

  /** The rest of an evaluation, seen from its next limit. */
  lemma NextLimit(
    s: System, orders: Orders, limits: seq<Limit>, index: UsageIndex, weather: Weather, now: Moment, i: nat)
    requires GoodOrders(orders) && now.Valid() && i < |limits| && forall l :: l in limits[i..] ==> ValidConfig(l.period)
    ensures (forall l :: l in limits[i + 1..] ==> ValidConfig(l.period)) && ValidConfig(limits[i].period)
    ensures var limit := limits[i];
            var window := CurrentWindow(limit.period, now);
            EvaluateAll(s, orders, limits[i..], index, weather, now) ==
            if !limit.active || window.None? then EvaluateAll(s, orders, limits[i + 1..], index, weather, now)
            else
              var e := EvaluateOne(s, orders, limit, window.value, ReportedTotal(index, s.org, limit), weather, now);
              if e.raised then e else EvaluateAll(e.system, orders, limits[i + 1..], index, weather, now)
  {
    assert limits[i..][0] == limits[i] && limits[i..][1..] == limits[i + 1..];
  }

  class Service {
    const enforcer: Enforcer.Service
    const orders: Orders
    var ledger: map<StateKey, PeriodState>

    constructor (enforcer: Enforcer.Service, orders: Orders)
      requires enforcer.rows == orders.rows && GoodOrders(orders)
      ensures Valid() && this.enforcer == enforcer && this.orders == orders
      ensures Now() == System(enforcer.Now(), enforcer.org, map[])
    {
      this.enforcer, this.orders, this.ledger := enforcer, orders, map[];
    }

    ghost predicate Valid() {
      enforcer.rows == orders.rows && GoodOrders(orders)
    }

    function Now(): System
      reads this, enforcer
    {
      System(enforcer.Now(), enforcer.org, ledger)
    }

    // ----------------------------------------------------------------- evaluation

    /** The current period's state with the reading measured into it, opened when there was none. */
    method Measure(limit: Limit, window: PeriodWindow, reading: Reading) returns (state: PeriodState)
      ensures state == Observed(Now(), limit, window, reading)
    {
      var key := StateKey(limit.id, window.key);
      if key in ledger {
        state := ledger[key];
      } else {
        state := OpenState(limit, window, reading);
      }
      if reading.total < state.baseline {
        state := state.(baseline := reading.total);
      }
      state := state.(reported := reading.total, available := reading.available);
      if reading.available && reading.total - state.baseline > 0.0 {
        state := state.(used := reading.total - state.baseline);
      } else {
        state := state.(used := 0.0);
      }
    }

    /** Rollover: expired periods are closed, and restricted ones undone, one at a time. */
    method CloseStalePeriods(limit: Limit, currentKey: string, weather: Weather, now: Moment)
      requires Valid()
      modifies this`ledger, enforcer`tenant, enforcer`projects, enforcer`actions
      ensures Now() == CloseStale(old(Now()), orders, limit, currentKey, weather, now)
    {
      var stale := orders.periods(ledger, StaleKeys(ledger, limit.id, currentKey));
      var i := 0;
      assert stale[0..] == stale;
      while i < |stale|
        invariant 0 <= i <= |stale|
        invariant forall k :: k in stale ==> k in ledger
        invariant CloseEach(Now(), orders, limit, stale[i..], weather, now)
                  == CloseEach(old(Now()), orders, limit, stale, weather, now)
      {
        assert stale[i..][0] == stale[i] && stale[i..][1..] == stale[i + 1..];
        CloseOnePeriod(limit, stale[i], weather, now);
        i := i + 1;
      }
    }

    method CloseOnePeriod(limit: Limit, key: StateKey, weather: Weather, now: Moment)
      requires Valid() && key in ledger
      modifies this`ledger, enforcer`tenant, enforcer`projects, enforcer`actions
      ensures Now() == CloseOne(old(Now()), orders, limit, key, weather, now)
    {
      var state := ledger[key];
      if limit.hold && state.status == LimitRestricted {
        return;
      }
      if state.status == LimitRestricted && weather.connected {
        var restored, raised :=
          enforcer.RestoreForLimit(limit.id, Some(key.period), PeriodRollover, weather.undoFaults);
        if raised {
          return;
        }
        state := state.(restoredAt := Some(now));
      }
      state := state.(status := if state.restrictedAt.Some? then LimitRestored else LimitOk);
      ledger := ledger[key := state];
    }

    /** Usage at or over budget: record the breach and enforce it when allowed to. */
    method HandleBreach(limit: Limit, window: PeriodWindow, measured: PeriodState, weather: Weather, now: Moment)
      requires Valid()
      modifies this`ledger, enforcer`tenant, enforcer`projects, enforcer`actions
      ensures Now() == Breach(old(Now()), limit, window, measured, weather, now)
    {
      var state := measured.(status := LimitBreached);
      if state.breachedAt == None {
        state := state.(breachedAt := Some(now));
      }
      if limit.entity !in enforcer.org.exempt && limit.enforce && weather.connected {
        ghost var plan := Plan(enforcer.org, enforcer.projects, limit.entity);
        ghost var verdicts :=
          ApplyTargets(enforcer.Now(), limit.id, limit.entity, window.key, plan, weather.faults).1;
        AppliedList(KeysOf(limit.id, window.key, plan), verdicts);
        var outcome := enforcer.ApplyEnforcement(limit.id, limit.entity, window.key, weather.faults);
        if outcome.applied != [] {
          state := state.(status := LimitRestricted, restrictedAt := Stamp(state.restrictedAt, now));
        }
      }
      ledger := ledger[StateKey(limit.id, window.key) := state];
    }

    /** Usage within budget: give back what this period restricted, then warn or clear. */
    method HandleWithinBudget(limit: Limit, window: PeriodWindow, measured: PeriodState, weather: Weather, now: Moment)
      returns (raised: bool)
      requires Valid()
      modifies this`ledger, enforcer`tenant, enforcer`projects, enforcer`actions
      ensures Evaluated(Now(), raised) == WithinBudget(old(Now()), orders, limit, window, measured, weather, now)
    {
      var state := measured;
      var restored := 0;
      raised := false;
      if (state.status == LimitRestricted || state.status == LimitBreached
          || AppliedRowsOf(enforcer.actions, limit.id, Some(window.key)) != {}) && weather.connected {
        restored, raised := enforcer.RestoreForLimit(limit.id, Some(window.key), CreditIncreased, weather.undoFaults);
        if !raised && restored > 0 {
          state := state.(restoredAt := Some(now), status := LimitRestored);
        }
      }
      if !raised && restored == 0 && state.status != LimitRestored {
        if state.used >= limit.creditLimit as real * limit.warningPct as real / 100.0 {
          state := state.(status := LimitWarned, warnedAt := Stamp(state.warnedAt, now));
        } else {
          state := state.(status := LimitOk);
        }
      }
      ledger := ledger[StateKey(limit.id, window.key) := state];
    }

    method EvaluateLimit(limit: Limit, window: PeriodWindow, reading: Reading, weather: Weather, now: Moment)
      returns (raised: bool)
      requires Valid()
      modifies this`ledger, enforcer`tenant, enforcer`projects, enforcer`actions
      ensures Evaluated(Now(), raised) == EvaluateOne(old(Now()), orders, limit, window, reading, weather, now)
    {
      CloseStalePeriods(limit, window.key, weather, now);
      var state := Measure(limit, window, reading);
      raised := false;
      if !reading.available || !window.isActive {
        ledger := ledger[StateKey(limit.id, window.key) := state.(status := LimitOk)];
      } else if state.used >= limit.creditLimit as real {
        HandleBreach(limit, window, state, weather, now);
      } else {
        raised := HandleWithinBudget(limit, window, state, weather, now);
      }
    }

    /** Every active limit in turn; a raised error ends the walk with what was done so far. */
    method EvaluateLimits(limits: seq<Limit>, index: UsageIndex, weather: Weather, now: Moment) returns (raised: bool)
      requires Valid() && now.Valid() && forall l :: l in limits ==> ValidConfig(l.period)
      modifies this`ledger, enforcer`tenant, enforcer`projects, enforcer`actions
      ensures Evaluated(Now(), raised) == EvaluateAll(old(Now()), orders, limits, index, weather, now)
    {
      raised := false;
      ghost var all := EvaluateAll(Now(), orders, limits, index, weather, now);
      var i := 0;
      assert limits[0..] == limits;
      while i < |limits|
        invariant 0 <= i <= |limits| && !raised
        invariant forall l :: l in limits[i..] ==> ValidConfig(l.period)
        invariant EvaluateAll(Now(), orders, limits[i..], index, weather, now) == all
      {
        NextLimit(Now(), orders, limits, index, weather, now, i);
        var limit := limits[i];
        if limit.active {
          var window := CurrentWindow(limit.period, now);
          if window.Some? {
            raised := EvaluateLimit(limit, window.value, ReportedTotal(index, enforcer.org, limit), weather, now);
            if raised {
              return;
            }
          }
        }
        i := i + 1;
      }
    }

    // ------------------------------------------------------------- limits and exemptions

    /** Lifts everything a changed limit restricted and marks its periods restored. */
    method RestoreOnLimitChange(limitId: nat, reason: Reason, connected: bool, undoFaults: set<Target>, now: Moment)
      returns (restored: nat, raised: bool)
      requires Valid()
      modifies this`ledger, enforcer`tenant, enforcer`projects, enforcer`actions
      ensures Changed(Now(), restored, raised)
              == RestoreOnChange(old(Now()), orders, limitId, reason, connected, undoFaults, now)
    {
      if !connected {
        return 0, false;
      }
      restored, raised := enforcer.RestoreForLimit(limitId, None, reason, undoFaults);
      if !raised && restored > 0 {
        MarkPeriods(limitId, now);
      }
    }

    method MarkPeriods(limitId: nat, now: Moment)
      modifies this`ledger
      ensures ledger == MarkRestored(old(ledger), limitId, now)
    {
      var todo := set k | k in ledger && k.limitId == limitId && CountsAsRestricted(ledger[k].status);
      var marked := {};
      ghost var before := ledger;
      while todo != {}
        invariant todo !! marked && ledger.Keys == before.Keys
        invariant todo + marked == set k | k in before && k.limitId == limitId && CountsAsRestricted(before[k].status)
        invariant forall k :: k in before ==>
                    ledger[k] == if k in marked then before[k].(status := LimitRestored, restoredAt := Some(now))
                      else before[k]
        decreases todo
      {
        var k :| k in todo;
        ledger := ledger[k := ledger[k].(status := LimitRestored, restoredAt := Some(now))];
        todo, marked := todo - {k}, marked + {k};
      }
      assert marked == set k | k in before && k.limitId == limitId && CountsAsRestricted(before[k].status);
    }

    /** Saves a changed limit; a rejected change does nothing. */
    method SaveLimit(before: Limit, after: Limit, connected: bool, undoFaults: set<Target>, now: Moment)
      returns (rejected: bool, restored: nat, raised: bool)
      requires Valid()
      modifies this`ledger, enforcer`tenant, enforcer`projects, enforcer`actions
      ensures match UpdateLimit(old(Now()), orders, before, after, connected, undoFaults, now)
              case None => rejected && Now() == old(Now())
              case Some(c) => !rejected && c == Changed(Now(), restored, raised)
    {
      if !ValidLimit(after) {
        return true, 0, false;
      }
      rejected, restored, raised := false, 0, false;
      if BecameHarmless(before, after) {
        restored, raised := RestoreOnLimitChange(after.id, LimitRemoved, connected, undoFaults, now);
      } else if after.creditLimit > before.creditLimit && connected {
        var fits := set k | k in ledger && k.limitId == after.id && CountsAsRestricted(ledger[k].status)
                            && ledger[k].used < after.creditLimit as real;
        assert fits != {} <==> FitsRaisedBudget(ledger, after) by {
          if k :| k in ledger && k.limitId == after.id && CountsAsRestricted(ledger[k].status)
                  && ledger[k].used < after.creditLimit as real {
            assert k in fits;
          }
        }
        if fits != {} {
          restored, raised := RestoreOnLimitChange(after.id, CreditIncreased, connected, undoFaults, now);
        }
      }
    }

    method RemoveLimit(limitId: nat, connected: bool, undoFaults: set<Target>, now: Moment)
      returns (restored: nat, raised: bool)
      requires Valid()
      modifies this`ledger, enforcer`tenant, enforcer`projects, enforcer`actions
      ensures Changed(Now(), restored, raised) == DeleteLimit(old(Now()), orders, limitId, connected, undoFaults, now)
    {
      restored, raised := RestoreOnLimitChange(limitId, LimitRemoved, connected, undoFaults, now);
      if !raised {
        enforcer.actions := Orphaned(enforcer.actions, limitId);
        ledger := map k | k in ledger && k.limitId != limitId :: ledger[k];
      }
    }

    /** Grants an exemption and undoes the rows raised by the entity's own limit. */
    method GrantExemption(entity: Entity, connected: bool, undoFaults: set<Target>) returns (lifted: nat, raised: bool)
      requires Valid()
      modifies enforcer`tenant, enforcer`projects, enforcer`actions, enforcer`org
      ensures Changed(Now(), lifted, raised) == AddExemption(old(Now()), orders, entity, connected, undoFaults)
    {
      lifted, raised := 0, false;
      if entity in enforcer.org.exempt {
        return;
      }
      enforcer.org := enforcer.org.(exempt := enforcer.org.exempt + {entity});
      if !connected {
        return;
      }
      var keys := orders.rows(enforcer.actions, ActiveRowsOf(enforcer.actions, entity));
      var i := 0;
      assert keys[0..] == keys;
      while i < |keys|
        invariant 0 <= i <= |keys| && !raised
        invariant enforcer.org == old(enforcer.org).(exempt := old(enforcer.org).exempt + {entity})
            && ledger == old(ledger)
        invariant var rest := RestoreRows(enforcer.Now(), keys[i..], Exempted, undoFaults);
                  RestoreRows(old(enforcer.Now()), keys, Exempted, undoFaults)
                    == rest.(restored := lifted + rest.restored)
      {
        assert keys[i..][0] == keys[i] && keys[i..][1..] == keys[i + 1..];
        var r := enforcer.RestoreAction(keys[i], Exempted, keys[i].target in undoFaults);
        if r.RestoreFailed? {
          raised := true;
          return;
        }
        if r.Restored? {
          lifted := lifted + 1;
        }
        i := i + 1;
      }
    }

    method RevokeExemption(entity: Entity)
      requires Valid()
      modifies enforcer`org
      ensures Now() == RemoveExemption(old(Now()), entity)
    {
      enforcer.org := enforcer.org.(exempt := enforcer.org.exempt - {entity});
    }
  }
}
