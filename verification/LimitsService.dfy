/** Changing and removing limits, and granting exemptions: the restorations they trigger. */
module LimitsService {
  import opened Options
  import opened Tenancy
  import opened Entities
  import opened Enforcement
  import opened EnforcementLaws
  import opened Enforcer
  import opened EnforcementRuns
  import opened Periods
  import opened Evaluation
  import opened EvaluationLaws

  datatype Changed = Changed(system: System, restored: nat, raised: bool)

  predicate CountsAsRestricted(status: LimitStatus) {
    status == LimitRestricted || status == LimitBreached
  }

  /** The restricted and breached periods of a limit become restored. */
  function MarkRestored(ledger: map<StateKey, PeriodState>, limitId: nat, now: Moment): map<StateKey, PeriodState> {
    map k | k in ledger ::
      if k.limitId == limitId && CountsAsRestricted(ledger[k].status)
      then ledger[k].(status := LimitRestored, restoredAt := Some(now))
      else ledger[k]
  }

  /** Everything the limit restricted, in any period, is given back; nothing without a client. */
  function RestoreOnChange(
    s: System, orders: Orders, limitId: nat, reason: Reason, connected: bool, undoFaults: set<Target>, now: Moment
  ): Changed {
    if !connected then Changed(s, 0, false)
    else
      var r := RestoreLimit(s.world, orders.rows, limitId, None, reason, undoFaults);
      if r.aborted then Changed(s.(world := r.world), r.restored, true)
      else
        Changed(
          s.(world := r.world, ledger := if r.restored > 0 then MarkRestored(s.ledger, limitId, now) else s.ledger),
          r.restored, false)
  }

  /** The checks a limit must pass. */
  predicate ValidLimit(l: Limit) {
    && 1 <= l.warningPct <= 100
    && (l.period.periodType == Custom ==>
          && l.period.customStart.Some?
          && (l.period.customEnd.Some? ==> l.period.customStart.value.Before(l.period.customEnd.value)))
    && (l.includeMembers ==> l.entity.level == Group)
  }

  predicate BecameHarmless(before: Limit, after: Limit) {
    (before.enforce && !after.enforce) || (before.active && !after.active)
  }

  /** Some restricted or breached period is within the raised budget. */
  predicate FitsRaisedBudget(ledger: map<StateKey, PeriodState>, after: Limit) {
    exists k :: k in ledger && k.limitId == after.id && CountsAsRestricted(ledger[k].status)
                && ledger[k].used < after.creditLimit as real
  }

  /** What saving a changed limit does to restrictions; `None` when the change is rejected. */
  function UpdateLimit(
    s: System, orders: Orders, before: Limit, after: Limit, connected: bool, undoFaults: set<Target>, now: Moment
  ): Option<Changed> {
    if !ValidLimit(after) then None
    else if BecameHarmless(before, after) then
      Some(RestoreOnChange(s, orders, after.id, LimitRemoved, connected, undoFaults, now))
    else if after.creditLimit > before.creditLimit && connected && FitsRaisedBudget(s.ledger, after) then
      Some(RestoreOnChange(s, orders, after.id, CreditIncreased, connected, undoFaults, now))
    else Some(Changed(s, 0, false))
  }

  /** Deletion restores first, then drops the limit's periods and its rows' reference to it. */
  function DeleteLimit(
    s: System, orders: Orders, limitId: nat, connected: bool, undoFaults: set<Target>, now: Moment
  ): Changed {
    var r := RestoreOnChange(s, orders, limitId, LimitRemoved, connected, undoFaults, now);
    if r.raised then r
    else
      r.(system := r.system.(
           world := r.system.world.(actions := Orphaned(r.system.world.actions, limitId)),
           ledger := map k | k in r.system.ledger && k.limitId != limitId :: r.system.ledger[k]))
  }

  /** Applied rows raised by the limit of an entity. */
  function ActiveRowsOf(actions: map<Key, Row>, entity: Entity): set<Key> {
    set k | k in actions && actions[k].entity == entity && actions[k].status == Applied
  }

  function AddExemption(s: System, orders: Orders, entity: Entity, connected: bool, undoFaults: set<Target>): Changed {
    if entity in s.org.exempt then Changed(s, 0, false)
    else
      var s1 := s.(org := s.org.(exempt := s.org.exempt + {entity}));
      if !connected then Changed(s1, 0, false)
      else
        var order := orders.rows(s.world.actions, ActiveRowsOf(s.world.actions, entity));
        var r := RestoreRows(s.world, order, Exempted, undoFaults);
        Changed(s1.(world := r.world), r.restored, r.aborted)
  }

  function RemoveExemption(s: System, entity: Entity): System {
    s.(org := s.org.(exempt := s.org.exempt - {entity}))
  }

  // ---------------------------------------------------------------------------- laws

  /** A limit that stops applying leaves nothing restricted, in any period, when a client works. */
  lemma HarmlessChangeLiftsEverything(s: System, orders: Orders, before: Limit, after: Limit, now: Moment)
    requires Inv(s.world) && GoodOrders(orders) && ValidLimit(after) && BecameHarmless(before, after)
    ensures var c := UpdateLimit(s, orders, before, after, true, {}, now).value;
            && !c.raised && AppliedRowsOf(c.system.world.actions, after.id, None) == {}
            && OnlyBy(after, s.org, s.world, c.system.world)
  {
    RestoreLimitClears(s.world, orders.rows, after.id, None, LimitRemoved);
    RestoreLimitTouches(s.world, s.org, orders.rows, after, None, LimitRemoved, {});
  }

  /**
   Deleting a limit leaves its restrictions in force exactly when there was no client, and then
   they name no limit any more: no later change of any limit can find them.
   */
  lemma DeletionOrphansWithoutAClient(
    s: System, orders: Orders, limitId: nat, connected: bool, now: Moment, key: Key, later: nat, reason: Reason,
    faults: set<Target>)
    requires Inv(s.world) && GoodOrders(orders)
    requires Has(RowOf(s.world, key), Applied) && RowOf(s.world, key).value.limitId == Some(limitId)
    ensures var c := DeleteLimit(s, orders, limitId, connected, {}, now);
            && !c.raised
            && (Has(RowOf(c.system.world, key), Applied) <==> !connected)
            && RowOf(c.system.world, key).Some? && RowOf(c.system.world, key).value.limitId == None
            && RowOf(RestoreOnChange(c.system, orders, later, reason, true, faults, now).system.world, key)
               == RowOf(c.system.world, key)
  {
    var c := DeleteLimit(s, orders, limitId, connected, {}, now);
    if connected {
      RestoreLimitClears(s.world, orders.rows, limitId, None, LimitRemoved);
      var order := orders.rows(s.world.actions, AppliedRowsOf(s.world.actions, limitId, None));
      WalkKeepsRows(s.world, order, LimitRemoved, {});
      var w := RestoreLimit(s.world, orders.rows, limitId, None, LimitRemoved, {}).world;
      assert key !in AppliedRowsOf(w.actions, limitId, None);
    }
    var w := c.system.world;
    var order := orders.rows(w.actions, AppliedRowsOf(w.actions, later, None));
    assert Lists(order, AppliedRowsOf(w.actions, later, None));
    WalkElsewhere(w, order, reason, faults, key);
  }

  /**
   Granting an exemption lifts a row exactly when the row was raised by the exempted entity's own
   limit.  A project's row raised by its application's or group's limit stays applied, and the
   project is no longer planned, so no cycle verifies or re-applies it either.
   */
  lemma ExemptionLiftsIff(s: System, orders: Orders, entity: Entity, key: Key)
    requires Inv(s.world) && GoodOrders(orders) && entity !in s.org.exempt && Has(RowOf(s.world, key), Applied)
    ensures var c := AddExemption(s, orders, entity, true, {});
            && !c.raised
            && (Has(RowOf(c.system.world, key), Applied) <==> RowOf(s.world, key).value.entity != entity)
            && (entity == Entity(Project, key.target.id) ==>
                  forall e: Entity :: e.level != User ==> key.target !in Plan(c.system.org, c.system.world.projects, e))
  {
    var keys := ActiveRowsOf(s.world.actions, entity);
    var order := orders.rows(s.world.actions, keys);
    assert Lists(order, keys);
    WalkCompletes(s.world, order, Exempted);
    WalkElsewhere(s.world, order, Exempted, {}, key);
    var c := AddExemption(s, orders, entity, true, {});
    if entity == Entity(Project, key.target.id) {
      forall e: Entity | e.level != User
        ensures key.target !in Plan(c.system.org, c.system.world.projects, e)
      {
        PlanMeans(c.system.org, c.system.world.projects, e, key.target);
      }
    }
  }

  /**
   What an exemption lifted is restricted again by the next breached cycle that plans it, once the
   exemption is gone; what was lifted for any other reason is left alone by that cycle.
   */
  lemma ExemptedRowsCanReturn(w: World, org: Org, key: Key, entity: Entity, faults: FaultPlan)
    requires Inv(w) && Has(RowOf(w, key), Reversed)
    requires key.target in Plan(org, w.projects, entity) && faults.At(key.target) == NO_FAULTS
    ensures var plan := Plan(org, w.projects, entity);
            var w' := ApplyTargets(w, key.limitId, entity, key.period, plan, faults).0;
            if RowOf(w, key).value.reason == Some(Exempted)
            then Has(RowOf(w', key), Applied) && Restricted(SiteOf(w', key.target), SnapshotOf(RowOf(w', key)))
            else RowOf(w', key) == RowOf(w, key) && SiteOf(w', key.target) == SiteOf(w, key.target)
  {
    var plan := Plan(org, w.projects, entity);
    PlanMeans(org, w.projects, entity, key.target);
    PlannedCanBeChanged(w, org, entity, key.target);
    var i :| 0 <= i < |plan| && plan[i] == key.target;
    assert Key(key.limitId, key.period, plan[i]) == key;
    CycleAt(w, key.limitId, entity, key.period, plan, faults, i);
    AttemptEnforces(w, key, entity, NO_FAULTS);
    var w' := ApplyTargets(w, key.limitId, entity, key.period, plan, faults).0;
    assert CellOf(w', key).row == RowOf(w', key) && CellOf(w', key).site == SiteOf(w', key.target);
  }

  /** With no failing call, each row of a walk that was in force is reversed, for the reason given. */
  lemma {:induction false} WalkReverses(w: World, keys: seq<Key>, reason: Reason, key: Key)
    requires Inv(w) && Distinct(keys) && key in keys && Has(RowOf(w, key), Applied)
    ensures var row := RowOf(RestoreRows(w, keys, reason, {}).world, key);
            Has(row, Reversed) && row.value.reason == Some(reason)
    decreases |keys|
  {
    var w1 := RestoreRow(w, keys[0], reason, false).0;
    RestoreIsLocal(w, keys[0], reason, false, key);
    RestoreKeepsInv(w, keys[0], reason, false);
    assert RowInv(key, w.actions[key]) && keys == [keys[0]] + keys[1..];
    assert CellOf(w1, key).row == RowOf(w1, key) && CellOf(w, key).row == RowOf(w, key);
    if keys[0] == key {
      assert key !in keys[1..];
      WalkElsewhere(w1, keys[1..], reason, {}, key);
    } else {
      WalkReverses(w1, keys[1..], reason, key);
    }
  }

  /**
   An exemption granted and revoked leaves nothing behind: the exempt entities are those of before,
   and the next breached cycle puts every restriction the exemption lifted back in force.
   */
  lemma ExemptionRoundTrip(s: System, orders: Orders, entity: Entity, key: Key, faults: FaultPlan)
    requires Inv(s.world) && GoodOrders(orders) && entity !in s.org.exempt
    requires Has(RowOf(s.world, key), Applied) && RowOf(s.world, key).value.entity == entity
    requires key.target in Plan(s.org, s.world.projects, entity) && faults.At(key.target) == NO_FAULTS
    ensures var granted := AddExemption(s, orders, entity, true, {}).system;
            var revoked := RemoveExemption(granted, entity);
            var plan := Plan(revoked.org, revoked.world.projects, entity);
            var w := ApplyTargets(revoked.world, key.limitId, entity, key.period, plan, faults).0;
            && !Has(RowOf(granted.world, key), Applied) && revoked.org == s.org
            && Has(RowOf(w, key), Applied) && Restricted(SiteOf(w, key.target), SnapshotOf(RowOf(w, key)))
  {
    var keys := ActiveRowsOf(s.world.actions, entity);
    var order := orders.rows(s.world.actions, keys);
    assert Lists(order, keys) && key in order;
    WalkReverses(s.world, order, Exempted, key);
    WalkKeepsInv(s.world, order, Exempted, {});
    var w := RestoreRows(s.world, order, Exempted, {}).world;
    SamePlan(s.world, w, s.org, entity);
    assert s.org.exempt + {entity} - {entity} == s.org.exempt;
    ExemptedRowsCanReturn(w, s.org, key, entity, faults);
  }

  /** What a change may not say. */
  lemma InvalidIsRejectedIff(
    s: System, orders: Orders, before: Limit, after: Limit, connected: bool, undoFaults: set<Target>, now: Moment)
    ensures UpdateLimit(s, orders, before, after, connected, undoFaults, now) == None <==>
            || after.warningPct < 1 || after.warningPct > 100
            || (after.period.periodType == Custom && after.period.customStart.None?)
            || (after.period.periodType == Custom && after.period.customEnd.Some?
                && !after.period.customStart.value.Before(after.period.customEnd.value))
            || (after.includeMembers && after.entity.level != Group)
  {
  }

  /** A period in which the limit restricts, or would, has room in the budget. */
  ghost predicate SomePeriodHasRoom(ledger: map<StateKey, PeriodState>, limitId: nat, budget: nat) {
    exists k :: k in ledger && k.limitId == limitId && ledger[k].used < budget as real
                && (ledger[k].status == LimitRestricted || ledger[k].status == LimitBreached)
  }

  /** The ledger once a limit's restrictions were lifted: its restricted and breached periods read restored. */
  ghost predicate PeriodsRestored(
    a: map<StateKey, PeriodState>, b: map<StateKey, PeriodState>, limitId: nat, now: Moment)
  {
    && b.Keys == a.Keys
    && forall k :: k in a ==>
         b[k] == if k.limitId == limitId && (a[k].status == LimitRestricted || a[k].status == LimitBreached)
                 then a[k].(status := LimitRestored, restoredAt := Some(now))
                 else a[k]
  }

  /** Lifting everything a limit holds, when it holds something: every row reversed, every period marked. */
  lemma ChangeLifts(s: System, orders: Orders, limitId: nat, reason: Reason, now: Moment, key: Key)
    requires Inv(s.world) && GoodOrders(orders) && HeldBy(s.world, limitId, key)
    ensures var c := RestoreOnChange(s, orders, limitId, reason, true, {}, now);
            && !c.raised && c.system.org == s.org
            && Has(RowOf(c.system.world, key), Reversed) && RowOf(c.system.world, key).value.reason == Some(reason)
            && PeriodsRestored(s.ledger, c.system.ledger, limitId, now)
  {
    var keys := AppliedRowsOf(s.world.actions, limitId, None);
    var order := orders.rows(s.world.actions, keys);
    assert Lists(order, keys) && key in order;
    WalkCompletes(s.world, order, reason);
    WalkCountsAll(s.world, order, reason);
    WalkReverses(s.world, order, reason, key);
  }

  /** When the limit holds nothing, nothing is lifted and no period is marked. */
  lemma NothingHeldNothingMarked(
    s: System, orders: Orders, limitId: nat, reason: Reason, connected: bool, undoFaults: set<Target>, now: Moment)
    requires GoodOrders(orders) && forall k: Key :: !HeldBy(s.world, limitId, k)
    ensures RestoreOnChange(s, orders, limitId, reason, connected, undoFaults, now) == Changed(s, 0, false)
  {
    var keys := AppliedRowsOf(s.world.actions, limitId, None);
    forall k: Key ensures k !in keys {
      assert !HeldBy(s.world, limitId, k);
    }
    var order := orders.rows(s.world.actions, keys);
    assert Lists(order, keys) && keys == {};
    FirstIsListed(order);
  }

  lemma FirstIsListed(order: seq<Key>)
    ensures order == [] || exists k :: k in order
  {
    if order != [] {
      assert order[0] in order;
    }
  }

  /**
   A raised budget lifts what the limit restricted exactly when some restricted or breached period of
   it now has room; otherwise, and without a client, nothing at all happens.
   */
  lemma RaisedBudgetLiftsIff(
    s: System, orders: Orders, before: Limit, after: Limit, connected: bool, now: Moment, key: Key)
    requires Inv(s.world) && GoodOrders(orders) && HeldBy(s.world, after.id, key)
    requires UpdateLimit(s, orders, before, after, connected, {}, now).Some?
    requires (before.enforce ==> after.enforce) && (before.active ==> after.active)
    ensures var c := UpdateLimit(s, orders, before, after, connected, {}, now).value;
            var lifts := connected && after.creditLimit > before.creditLimit
                         && SomePeriodHasRoom(s.ledger, after.id, after.creditLimit);
            && !c.raised && (HeldBy(c.system.world, after.id, key) <==> !lifts)
            && (if lifts then
                  && Has(RowOf(c.system.world, key), Reversed)
                  && RowOf(c.system.world, key).value.reason == Some(CreditIncreased)
                  && PeriodsRestored(s.ledger, c.system.ledger, after.id, now)
                else c.system == s)
  {
    ChangeLifts(s, orders, after.id, CreditIncreased, now, key);
    assert FitsRaisedBudget(s.ledger, after) <==> SomePeriodHasRoom(s.ledger, after.id, after.creditLimit) by {
      if k :| k in s.ledger && k.limitId == after.id && CountsAsRestricted(s.ledger[k].status)
              && s.ledger[k].used < after.creditLimit as real {
        assert SomePeriodHasRoom(s.ledger, after.id, after.creditLimit);
      }
    }
  }

  /** A limit switched off or to monitoring lifts everything it holds, with a client, and marks its periods. */
  lemma HarmlessChangeLiftsIff(
    s: System, orders: Orders, before: Limit, after: Limit, connected: bool, now: Moment, key: Key)
    requires Inv(s.world) && GoodOrders(orders) && HeldBy(s.world, after.id, key)
    requires UpdateLimit(s, orders, before, after, connected, {}, now).Some?
    requires (before.enforce && !after.enforce) || (before.active && !after.active)
    ensures var c := UpdateLimit(s, orders, before, after, connected, {}, now).value;
            && !c.raised && (HeldBy(c.system.world, after.id, key) <==> !connected)
            && (if connected then
                  && Has(RowOf(c.system.world, key), Reversed)
                  && RowOf(c.system.world, key).value.reason == Some(LimitRemoved)
                  && PeriodsRestored(s.ledger, c.system.ledger, after.id, now)
                else c.system == s)
  {
    ChangeLifts(s, orders, after.id, LimitRemoved, now, key);
  }

  /** A deletion takes exactly the limit's own periods, and touches rows of no other limit. */
  lemma DeletionKeepsOthers(s: System, orders: Orders, limitId: nat, connected: bool, now: Moment)
    requires Inv(s.world) && GoodOrders(orders)
    ensures var c := DeleteLimit(s, orders, limitId, connected, {}, now).system;
            && c.org == s.org
            && (forall k :: k in c.ledger <==> k in s.ledger && k.limitId != limitId)
            && (forall k :: k in c.ledger ==> c.ledger[k] == s.ledger[k])
            && (forall k: Key :: k.limitId != limitId ==> RowOf(c.world, k) == RowOf(s.world, k))
            && (forall k: Key :: RowOf(c.world, k).Some? ==> RowOf(c.world, k).value.limitId != Some(limitId))
  {
    var keys := AppliedRowsOf(s.world.actions, limitId, None);
    var order := orders.rows(s.world.actions, keys);
    assert Lists(order, keys);
    WalkCompletes(s.world, order, LimitRemoved);
    WalkKeepsInv(s.world, order, LimitRemoved, {});
    var w := if connected then RestoreRows(s.world, order, LimitRemoved, {}).world else s.world;
    forall k: Key | k.limitId != limitId ensures RowOf(w, k) == RowOf(s.world, k) {
      assert k in keys ==> RowInv(k, s.world.actions[k]);
      WalkElsewhere(s.world, order, LimitRemoved, {}, k);
    }
    forall k: Key | k.limitId != limitId && k in w.actions ensures w.actions[k].limitId != Some(limitId) {
      assert RowInv(k, w.actions[k]);
    }
  }

  /** An exemption is recorded for exactly that entity, with a client or without; an exempt user is never planned. */
  lemma ExemptionIsRecorded(s: System, orders: Orders, entity: Entity, connected: bool, undoFaults: set<Target>)
    ensures var c := AddExemption(s, orders, entity, connected, undoFaults).system;
            && (forall e :: e in c.org.exempt <==> e in s.org.exempt || e == entity)
            && c.org.groups == s.org.groups && c.org.applications == s.org.applications
            && c.org.members == s.org.members
            && c.ledger == s.ledger && (!connected || entity in s.org.exempt ==> c.world == s.world)
            && (entity.level == User ==> Plan(c.org, c.world.projects, entity) == [])
  {
  }
}
