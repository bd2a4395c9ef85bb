/** Enforcing a limit and then lifting it: what the two operations leave of a whole tenant. */
module RoundTripLaws {
  import opened Options
  import opened Tenancy
  import opened Entities
  import opened Enforcement
  import opened EnforcementLaws
  import opened UndoLaws
  import opened Enforcer
  import opened EvaluationLaws

  /** The limit has not been deleted: its rows still refer to it. */
  ghost predicate RowsReferTo(w: World, limitId: nat) {
    forall k :: k in w.actions && k.limitId == limitId ==> w.actions[k].limitId == Some(limitId)
  }

  lemma AppliedRowsShape(w: World, limitId: nat, period: string, k: Key)
    requires Inv(w) && k in AppliedRowsOf(w.actions, limitId, Some(period))
    ensures k == Key(limitId, period, k.target)
  {
    assert RowInv(k, w.actions[k]);
  }

  /** What one enforced target looks like before anything is lifted. */
  lemma CutAt(
    w: World, limitId: nat, entity: Entity, period: string, targets: seq<Target>, faults: FaultPlan, t: Target)
    requires Inv(w) && Distinct(targets) && RowsReferTo(w, limitId)
    requires AppliedRowsOf(w.actions, limitId, Some(period)) == {}
    ensures var cut := ApplyTargets(w, limitId, entity, period, targets, faults).0;
            var key := Key(limitId, period, t);
            var done := PerformAt(SiteOf(w, t), faults.At(t));
            if key in AppliedRowsOf(cut.actions, limitId, Some(period)) then
              t in targets && done.Done? && SiteOf(cut, t) == done.site
                && SnapshotOf(RowOf(cut, key)) == Some(done.snapshot)
            else SiteOf(cut, t) == SiteOf(w, t)
  {
    var cut := ApplyTargets(w, limitId, entity, period, targets, faults).0;
    var key := Key(limitId, period, t);
    assert CellOf(cut, key).site == SiteOf(cut, t) && CellOf(cut, key).row == RowOf(cut, key);
    assert key !in AppliedRowsOf(w.actions, limitId, Some(period));
    if t in targets {
      var i :| 0 <= i < |targets| && targets[i] == t;
      CycleAt(w, limitId, entity, period, targets, faults, i);
    } else {
      CycleElsewhere(w, limitId, entity, period, targets, faults, key);
    }
  }

  /** One target after the lifting: as it was in the tenant, whether or not it was ever restricted. */
  lemma LiftedAt(
    w: World, rows: RowOrder, limitId: nat, entity: Entity, period: string, targets: seq<Target>, faults: FaultPlan,
    reason: Reason, t: Target)
    requires Inv(w) && GoodOrder(rows) && Distinct(targets) && RowsReferTo(w, limitId)
    requires AppliedRowsOf(w.actions, limitId, Some(period)) == {}
    requires t in targets ==> Recoverable(SiteOf(w, t), faults.At(t))
    ensures var cut := ApplyTargets(w, limitId, entity, period, targets, faults).0;
            var back := RestoreLimit(cut, rows, limitId, Some(period), reason, {});
            SameInTenant(SiteOf(back.world, t), SiteOf(w, t))
              && (t !in targets ==> SiteOf(back.world, t) == SiteOf(w, t))
  {
    var cut := ApplyTargets(w, limitId, entity, period, targets, faults).0;
    var keys := AppliedRowsOf(cut.actions, limitId, Some(period));
    var order := rows(cut.actions, keys);
    var key := Key(limitId, period, t);
    CycleKeepsInv(w, limitId, entity, period, targets, faults);
    assert Lists(order, keys);
    forall i | 0 <= i < |order| ensures order[i] == Key(limitId, period, order[i].target) {
      assert order[i] in order;
      AppliedRowsShape(cut, limitId, period, order[i]);
    }
    CutAt(w, limitId, entity, period, targets, faults, t);
    WalkCompletes(cut, order, reason);
    var back := RestoreRows(cut, order, reason, {}).world;
    assert SiteOf(back, t) == CellOf(back, key).site && SiteOf(cut, t) == CellOf(cut, key).site;
    if key in keys {
      var j :| 0 <= j < |order| && order[j] == key;
      WalkAt(cut, order, reason, {}, j);
      UndoIsExactIff(SiteOf(w, t), faults.At(t));
    } else {
      assert forall i :: 0 <= i < |order| ==> order[i].target != t;
      WalkElsewhere(cut, order, reason, {}, key);
      SameIsSame(SiteOf(w, t));
    }
  }

  lemma SameIsSame(site: Site)
    ensures SameInTenant(site, site)
  {
  }

  /**
   Enforcing a limit of any level on a tenant where it holds nothing in this period, under any
   failing calls, and then lifting it in whatever order the rows are listed: the tenant is as it was,
   nothing outside the plan was ever written, and no row of the period is left in force.
   */
  lemma EnforceThenLift(
    w: World, org: Org, rows: RowOrder, limitId: nat, entity: Entity, period: string, faults: FaultPlan, reason: Reason)
    requires Inv(w) && GoodOrder(rows) && RowsReferTo(w, limitId)
    requires AppliedRowsOf(w.actions, limitId, Some(period)) == {}
    requires forall t :: t in Plan(org, w.projects, entity) ==> Recoverable(SiteOf(w, t), faults.At(t))
    ensures var cut := Enforce(w, org, limitId, entity, period, faults);
            var back := RestoreLimit(cut, rows, limitId, Some(period), reason, {});
            && !back.aborted && SameTenant(back.world.tenant, w.tenant)
            && AppliedRowsOf(back.world.actions, limitId, Some(period)) == {}
            && forall t :: t !in Plan(org, w.projects, entity) ==>
                 SiteOf(cut, t) == SiteOf(w, t) == SiteOf(back.world, t)
  {
    var targets := if entity in org.exempt then [] else Plan(org, w.projects, entity);
    PlanMeans(org, w.projects, entity, Target(RemoveUserRoles, ""));
    var cut := ApplyTargets(w, limitId, entity, period, targets, faults).0;
    assert cut == Enforce(w, org, limitId, entity, period, faults);
    var back := RestoreLimit(cut, rows, limitId, Some(period), reason, {});
    CycleKeepsInv(w, limitId, entity, period, targets, faults);
    RestoreLimitClears(cut, rows, limitId, Some(period), reason);
    forall t
      ensures SameInTenant(SiteOf(back.world, t), SiteOf(w, t))
      ensures t !in targets ==> SiteOf(cut, t) == SiteOf(w, t) == SiteOf(back.world, t)
    {
      LiftedAt(w, rows, limitId, entity, period, targets, faults, reason, t);
      CycleElsewhere(w, limitId, entity, period, targets, faults, Key(limitId, period, t));
      assert CellOf(cut, Key(limitId, period, t)).site == SiteOf(cut, t);
    }
    SitesMakeTheTenant(back.world, w);
  }

  /**
   Enforcing a limit again, planning anew, changes no row and applies nothing, whatever fails this
   time; where every planned target can be read it changes nothing at all.
   */
  lemma EnforceIsIdempotent(
    w: World, org: Org, limitId: nat, entity: Entity, period: string, faults: FaultPlan)
    requires Inv(w)
    ensures var w1 := Enforce(w, org, limitId, entity, period, NO_FAULT_PLAN);
            var w2 := Enforce(w1, org, limitId, entity, period, faults);
            && w2.actions == w1.actions
            && (forall t: Target :: t.kind != DisablePrRemediation ==> SiteOf(w2, t) == SiteOf(w1, t))
            && ((forall t :: t in Plan(org, w.projects, entity) ==> t !in faults.unreadable) ==> w2 == w1)
  {
    if entity !in org.exempt {
      var plan := Plan(org, w.projects, entity);
      var w1 := ApplyTargets(w, limitId, entity, period, plan, NO_FAULT_PLAN).0;
      CycleKeepsInv(w, limitId, entity, period, plan, NO_FAULT_PLAN);
      SamePlan(w, w1, org, entity);
      PlanMeans(org, w.projects, entity, Target(RemoveUserRoles, ""));
      NothingFails(w, org, limitId, entity, period);
      CycleIsIdempotent(w, limitId, entity, period, plan, NO_FAULT_PLAN, faults);
    }
  }

  /** With no failing call every planned target can be changed, so none is left over. */
  lemma NothingFails(w: World, org: Org, limitId: nat, entity: Entity, period: string)
    requires Inv(w)
    ensures var vs := ApplyTargets(w, limitId, entity, period, Plan(org, w.projects, entity), NO_FAULT_PLAN).1;
            forall i :: 0 <= i < |vs| ==> vs[i] != CouldNotVerify && vs[i] != CouldNotApply
  {
    var plan := Plan(org, w.projects, entity);
    var vs := ApplyTargets(w, limitId, entity, period, plan, NO_FAULT_PLAN).1;
    PlanMeans(org, w.projects, entity, Target(RemoveUserRoles, ""));
    forall i | 0 <= i < |vs| ensures vs[i] != CouldNotVerify && vs[i] != CouldNotApply {
      CycleAt(w, limitId, entity, period, plan, NO_FAULT_PLAN, i);
      PlannedCanBeChanged(w, org, entity, plan[i]);
    }
  }
}
