/** What one cycle, one restore and one stack of restrictions do to a whole world. */
module EnforcementLaws {
  import opened Options
  import opened Tenancy
  import opened Entities
  import opened Enforcement

  ghost predicate Distinct<T(!new)>(s: seq<T>) {
    forall i, j :: 0 <= i < j < |s| ==> s[i] != s[j]
  }

  // ----------------------------------------------------------------- what rows promise

  /** The snapshot an applied row must carry so that it can be undone. */
  predicate FitsKind(snapshot: Option<Snapshot>, kind: Kind) {
    && snapshot.Some?
    && match kind
       case RemoveUserRoles => snapshot.value.RolesSnapshot?
         && AiRoles(snapshot.value.removed) == snapshot.value.removed
       case DisableAutoTriage => snapshot.value.TriageSnapshot?
       case DisablePrRemediation => snapshot.value.PrSnapshot? && snapshot.value.repo != ""
  }

  predicate RowInv(key: Key, row: Row) {
    && row.status != Pending
    && (row.limitId.Some? ==> row.limitId.value == key.limitId)
    && (row.status == Applied ==> FitsKind(row.snapshot, key.target.kind))
  }

  ghost predicate Inv(w: World) {
    forall k :: k in w.actions ==> RowInv(k, w.actions[k])
  }

  /** The restriction named by an applied row is in force in the tenant. */
  predicate Restricted(site: Site, snapshot: Option<Snapshot>) {
    match site
    case UserSite(roles) => AiRoles(roles) == {}
    case TriageSite(state, _) => !state.IsOn()
    case PrSite(settings, mirror) => ReadSeverities(settings, RepoOf(snapshot, mirror)) == Some([])
  }

  predicate InForce(v: Verdict) {
    v == NewlyApplied || v == Reconciled || v == Verified
  }

  // ------------------------------------------------------------------- one attempt

  /** A verdict that claims the restriction is in force is right, whatever the cell was before. */
  lemma AttemptEnforces(w: World, key: Key, entity: Entity, f: Faults)
    requires Inv(w)
    ensures var (c, v) := AttemptAt(CellOf(w, key), FreshRow(key.limitId, entity), f);
            && c.row.Some? && RowInv(key, c.row.value)
            && (InForce(v) ==> Restricted(c.site, c.row.value.snapshot))
            && (InForce(v) <==> c.row.value.status == Applied && v != CouldNotVerify)
            && (v == AdminRestored <==> IsSettled(CellOf(w, key).row))
  {
  }

  /** An attempt moves the cell of its own key; other targets' cells and other keys' rows stay. */
  lemma AttemptIsLocal(w: World, key: Key, entity: Entity, f: Faults, other: Key)
    ensures var (w', v) := Attempt(w, key, entity, f);
            && (CellOf(w', key), v) == AttemptAt(CellOf(w, key), FreshRow(key.limitId, entity), f)
            && (other.target != key.target ==> CellOf(w', other) == CellOf(w, other))
            && (other != key ==> RowOf(w', other) == RowOf(w, other))
  {
    var c := AttemptAt(CellOf(w, key), FreshRow(key.limitId, entity), f).0;
    StepsKeepShape(CellOf(w, key), FreshRow(key.limitId, entity), Admin, f);
    WithCellFrames(w, key, c, other);
  }

  lemma RestoreIsLocal(w: World, key: Key, reason: Reason, writeFails: bool, other: Key)
    ensures var (w', r) := RestoreRow(w, key, reason, writeFails);
            && r == RestoreAt(CellOf(w, key), reason, writeFails)
            && CellOf(w', key) == (if r.Restored? then r.cell else CellOf(w, key))
            && (other.target != key.target ==> CellOf(w', other) == CellOf(w, other))
            && (other != key ==> RowOf(w', other) == RowOf(w, other))
  {
    var r := RestoreAt(CellOf(w, key), reason, writeFails);
    if r.Restored? {
      StepsKeepShape(CellOf(w, key), FreshRow(key.limitId, Entity(User, "")), reason, Faults(false, writeFails));
      WithCellFrames(w, key, r.cell, other);
    }
  }

  /** The columns planning reads are never written, so a plan stays the plan. */
  predicate SamePlanning(a: World, b: World) {
    && a.projects.Keys == b.projects.Keys
    && forall id :: id in a.projects ==>
         a.projects[id].repo == b.projects[id].repo && a.projects[id].deleted == b.projects[id].deleted
  }

  lemma AttemptKeepsPlanning(w: World, key: Key, entity: Entity, f: Faults)
    ensures SamePlanning(w, Attempt(w, key, entity, f).0)
  {
    StepsKeepShape(CellOf(w, key), FreshRow(key.limitId, entity), Admin, f);
  }

  lemma RestoreKeepsPlanning(w: World, key: Key, reason: Reason, writeFails: bool)
    ensures SamePlanning(w, RestoreRow(w, key, reason, writeFails).0)
  {
    StepsKeepShape(CellOf(w, key), FreshRow(key.limitId, Entity(User, "")), reason, Faults(false, writeFails));
  }

  lemma AttemptKeepsInv(w: World, key: Key, entity: Entity, f: Faults)
    requires Inv(w)
    ensures Inv(Attempt(w, key, entity, f).0)
  {
    AttemptEnforces(w, key, entity, f);
    var w' := Attempt(w, key, entity, f).0;
    forall k | k in w'.actions ensures RowInv(k, w'.actions[k]) {
      AttemptIsLocal(w, key, entity, f, k);
      assert RowOf(w', k) == Some(w'.actions[k]);
    }
  }

  lemma RestoreKeepsInv(w: World, key: Key, reason: Reason, writeFails: bool)
    requires Inv(w)
    ensures Inv(RestoreRow(w, key, reason, writeFails).0)
  {
    var w' := RestoreRow(w, key, reason, writeFails).0;
    forall k | k in w'.actions ensures RowInv(k, w'.actions[k]) {
      RestoreIsLocal(w, key, reason, writeFails, k);
      assert RowOf(w', k) == Some(w'.actions[k]);
    }
  }

  // ------------------------------------------------------------------- one cycle

  /** A cycle at one planned target is one attempt on the cell as it was before the cycle. */
  lemma {:induction false} CycleAt(
    w: World, limitId: nat, entity: Entity, period: string, targets: seq<Target>, faults: FaultPlan, i: nat)
    requires Distinct(targets) && i < |targets|
    ensures var (w', vs) := ApplyTargets(w, limitId, entity, period, targets, faults);
            var key := Key(limitId, period, targets[i]);
            (CellOf(w', key), vs[i]) == AttemptAt(CellOf(w, key), FreshRow(limitId, entity), faults.At(targets[i]))
    decreases |targets|
  {
    var key := Key(limitId, period, targets[i]);
    var first := Key(limitId, period, targets[0]);
    var w1 := Attempt(w, first, entity, faults.At(targets[0])).0;
    AttemptIsLocal(w, first, entity, faults.At(targets[0]), key);
    if i == 0 {
      CycleElsewhere(w1, limitId, entity, period, targets[1..], faults, key);
    } else {
      assert targets[1..][i - 1] == targets[i];
      CycleAt(w1, limitId, entity, period, targets[1..], faults, i - 1);
    }
  }

  /** A cycle never writes a target outside its plan, nor a row of another limit or period. */
  lemma {:induction false} CycleElsewhere(
    w: World, limitId: nat, entity: Entity, period: string, targets: seq<Target>, faults: FaultPlan, other: Key)
    ensures var w' := ApplyTargets(w, limitId, entity, period, targets, faults).0;
            && (other.target !in targets ==> CellOf(w', other) == CellOf(w, other))
            && (other.limitId != limitId || other.period != period ==> RowOf(w', other) == RowOf(w, other))
    decreases |targets|
  {
    if targets != [] {
      var first := Key(limitId, period, targets[0]);
      AttemptIsLocal(w, first, entity, faults.At(targets[0]), other);
      CycleElsewhere(Attempt(w, first, entity, faults.At(targets[0])).0, limitId, entity, period, targets[1..], faults,
        other);
    }
  }

  lemma {:induction false} CycleKeepsInv(
    w: World, limitId: nat, entity: Entity, period: string, targets: seq<Target>, faults: FaultPlan)
    ensures var w' := ApplyTargets(w, limitId, entity, period, targets, faults).0;
            SamePlanning(w, w') && (Inv(w) ==> Inv(w'))
    decreases |targets|
  {
    if targets != [] {
      var first := Key(limitId, period, targets[0]);
      var w1 := Attempt(w, first, entity, faults.At(targets[0])).0;
      AttemptKeepsPlanning(w, first, entity, faults.At(targets[0]));
      if Inv(w) { AttemptKeepsInv(w, first, entity, faults.At(targets[0])); }
      CycleKeepsInv(w1, limitId, entity, period, targets[1..], faults);
    }
  }

  /** Whether a target fails is nobody else's business: the other targets end up the same. */
  lemma FailuresAreIsolated(
    w: World, limitId: nat, entity: Entity, period: string, targets: seq<Target>, f1: FaultPlan, f2: FaultPlan, i: nat)
    requires Distinct(targets) && i < |targets|
    requires f1.At(targets[i]) == f2.At(targets[i])
    ensures var (w1, vs1) := ApplyTargets(w, limitId, entity, period, targets, f1);
            var (w2, vs2) := ApplyTargets(w, limitId, entity, period, targets, f2);
            var key := Key(limitId, period, targets[i]);
            vs1[i] == vs2[i] && CellOf(w1, key) == CellOf(w2, key)
  {
    CycleAt(w, limitId, entity, period, targets, f1, i);
    CycleAt(w, limitId, entity, period, targets, f2, i);
  }

  /** A row needing no work: in force in the tenant, or settled by an admin. */
  predicate AtRest(c: Cell) {
    || IsSettled(c.row)
    || (c.row.Some? && c.row.value.status == Applied && Restricted(c.site, c.row.value.snapshot))
  }

  lemma {:induction false} CycleAtRest(
    w: World, limitId: nat, entity: Entity, period: string, targets: seq<Target>, faults: FaultPlan)
    requires forall t :: t in targets ==> AtRest(CellOf(w, Key(limitId, period, t))) && t !in faults.unreadable
    ensures var (w', vs) := ApplyTargets(w, limitId, entity, period, targets, faults);
            w' == w && forall i :: 0 <= i < |vs| ==> vs[i] == Verified || vs[i] == AdminRestored
    decreases |targets|
  {
    if targets != [] {
      var key := Key(limitId, period, targets[0]);
      WithCellIdentity(w, key);
      assert targets[0] in targets;
      CycleAtRest(w, limitId, entity, period, targets[1..], faults);
    }
  }

  /** Nothing new is applied and no row is written. */
  predicate ChangesNoRow(v: Verdict) {
    v != NewlyApplied && v != CouldNotApply
  }

  /** A row at rest stays exactly as it is, and at rest, whatever calls fail. */
  lemma RestIsKept(c: Cell, blank: Row, f: Faults)
    requires AtRest(c)
    ensures var (d, v) := AttemptAt(c, blank, f);
            && d.row == c.row && AtRest(d) && ChangesNoRow(v)
            && (!c.site.PrSite? ==> d.site == c.site)
  {
  }

  /** One target at rest, in a cycle over any others under any failures. */
  lemma RestingTargetStays(
    w: World, limitId: nat, entity: Entity, period: string, targets: seq<Target>, faults: FaultPlan, i: nat)
    requires Distinct(targets) && i < |targets| && AtRest(CellOf(w, Key(limitId, period, targets[i])))
    ensures var (w', vs) := ApplyTargets(w, limitId, entity, period, targets, faults);
            var key := Key(limitId, period, targets[i]);
            && RowOf(w', key) == RowOf(w, key) && AtRest(CellOf(w', key)) && ChangesNoRow(vs[i])
            && (targets[i].kind != DisablePrRemediation ==> SiteOf(w', targets[i]) == SiteOf(w, targets[i]))
  {
    var key := Key(limitId, period, targets[i]);
    CycleAt(w, limitId, entity, period, targets, faults, i);
    RestIsKept(CellOf(w, key), FreshRow(limitId, entity), faults.At(targets[i]));
    var w' := ApplyTargets(w, limitId, entity, period, targets, faults).0;
    assert CellOf(w', key).row == RowOf(w', key) && CellOf(w', key).site == SiteOf(w', targets[i]);
  }

  /** A target and its row, in a cycle that finds everything planned at rest. */
  lemma RestingCycleAt(
    w: World, limitId: nat, entity: Entity, period: string, targets: seq<Target>, faults: FaultPlan, key: Key)
    requires Distinct(targets) && forall t :: t in targets ==> AtRest(CellOf(w, Key(limitId, period, t)))
    ensures var w' := ApplyTargets(w, limitId, entity, period, targets, faults).0;
            && RowOf(w', key) == RowOf(w, key)
            && (key.target.kind != DisablePrRemediation ==> SiteOf(w', key.target) == SiteOf(w, key.target))
  {
    var w' := ApplyTargets(w, limitId, entity, period, targets, faults).0;
    CycleElsewhere(w, limitId, entity, period, targets, faults, key);
    assert CellOf(w', key).site == SiteOf(w', key.target) && CellOf(w', key).row == RowOf(w', key);
    if key.target in targets {
      var i :| 0 <= i < |targets| && targets[i] == key.target;
      RestingTargetStays(w, limitId, entity, period, targets, faults, i);
    }
  }

  /**
   Repeating a cycle over targets at rest, under any failures: no row changes, nothing is newly
   applied, everything stays at rest, and nobody's roles and no auto-triage entry move.  Only
   severities that cannot be read are written again.
   */
  lemma RestingCycle(
    w: World, limitId: nat, entity: Entity, period: string, targets: seq<Target>, faults: FaultPlan)
    requires Distinct(targets) && forall t :: t in targets ==> AtRest(CellOf(w, Key(limitId, period, t)))
    ensures var (w', vs) := ApplyTargets(w, limitId, entity, period, targets, faults);
            && w'.actions == w.actions
            && (forall v :: v in vs ==> ChangesNoRow(v))
            && (forall t :: t in targets ==> AtRest(CellOf(w', Key(limitId, period, t))))
            && (forall t: Target :: t.kind != DisablePrRemediation ==> SiteOf(w', t) == SiteOf(w, t))
  {
    var (w', vs) := ApplyTargets(w, limitId, entity, period, targets, faults);
    forall k: Key ensures RowOf(w', k) == RowOf(w, k) {
      RestingCycleAt(w, limitId, entity, period, targets, faults, k);
    }
    SameRows(w', w);
    forall i | 0 <= i < |targets|
      ensures AtRest(CellOf(w', Key(limitId, period, targets[i]))) && ChangesNoRow(vs[i])
    {
      RestingTargetStays(w, limitId, entity, period, targets, faults, i);
    }
    forall t: Target | t.kind != DisablePrRemediation ensures SiteOf(w', t) == SiteOf(w, t) {
      RestingCycleAt(w, limitId, entity, period, targets, faults, Key(limitId, period, t));
    }
  }

  lemma SameRows(a: World, b: World)
    requires forall k: Key :: RowOf(a, k) == RowOf(b, k)
    ensures a.actions == b.actions
  {
    forall k: Key ensures (k in a.actions <==> k in b.actions) && (k in a.actions ==> a.actions[k] == b.actions[k]) {
      assert RowOf(a, k) == RowOf(b, k);
    }
  }

  /**
   Re-running a cycle in which nothing failed, with the tenant untouched since, changes no row and
   applies nothing, whatever fails this time; and where every target can be read, as it is when no
   call fails, it changes nothing anywhere and does not even re-assert anything.
   */
  lemma CycleIsIdempotent(
    w: World, limitId: nat, entity: Entity, period: string, targets: seq<Target>, f1: FaultPlan, f2: FaultPlan)
    requires Inv(w) && Distinct(targets)
    requires var vs := ApplyTargets(w, limitId, entity, period, targets, f1).1;
             forall i :: 0 <= i < |vs| ==> vs[i] != CouldNotVerify && vs[i] != CouldNotApply
    ensures var w1 := ApplyTargets(w, limitId, entity, period, targets, f1).0;
            var (w2, vs) := ApplyTargets(w1, limitId, entity, period, targets, f2);
            && w2.actions == w1.actions
            && (forall v :: v in vs ==> ChangesNoRow(v))
            && (forall t :: t in targets ==> AtRest(CellOf(w2, Key(limitId, period, t))))
            && (forall t: Target :: t.kind != DisablePrRemediation ==> SiteOf(w2, t) == SiteOf(w1, t))
            && ((forall t :: t in targets ==> t !in f2.unreadable) ==>
                  w2 == w1 && forall i :: 0 <= i < |vs| ==> vs[i] == Verified || vs[i] == AdminRestored)
  {
    var (w1, vs1) := ApplyTargets(w, limitId, entity, period, targets, f1);
    forall t | t in targets ensures AtRest(CellOf(w1, Key(limitId, period, t))) {
      var i :| 0 <= i < |targets| && targets[i] == t;
      CycleAt(w, limitId, entity, period, targets, f1, i);
      AttemptEnforces(w, Key(limitId, period, t), entity, f1.At(t));
    }
    RestingCycle(w1, limitId, entity, period, targets, f2);
    if forall t :: t in targets ==> t !in f2.unreadable {
      CycleAtRest(w1, limitId, entity, period, targets, f2);
    }
  }

  // ----------------------------------------------------------------- walks of restores

  /** A walk that was not cut short undoes each of its keys from the cell it found. */
  lemma {:induction false} WalkAt(w: World, keys: seq<Key>, reason: Reason, writes: set<Target>, i: nat)
    requires i < |keys| && forall a, b :: 0 <= a < b < |keys| ==> keys[a].target != keys[b].target
    requires !RestoreRows(w, keys, reason, writes).aborted
    ensures var r := RestoreAt(CellOf(w, keys[i]), reason, keys[i].target in writes);
            && !r.RestoreFailed?
            && CellOf(RestoreRows(w, keys, reason, writes).world, keys[i])
                 == (if r.Restored? then r.cell else CellOf(w, keys[i]))
    decreases |keys|
  {
    RestoreIsLocal(w, keys[0], reason, keys[0].target in writes, keys[i]);
    var w1 := RestoreRow(w, keys[0], reason, keys[0].target in writes).0;
    if i == 0 {
      WalkElsewhere(w1, keys[1..], reason, writes, keys[0]);
    } else {
      assert keys[1..][i - 1] == keys[i];
      WalkAt(w1, keys[1..], reason, writes, i - 1);
    }
  }

  lemma {:induction false} WalkElsewhere(w: World, keys: seq<Key>, reason: Reason, writes: set<Target>, other: Key)
    ensures var w' := RestoreRows(w, keys, reason, writes).world;
            && ((forall k :: k in keys ==> k.target != other.target) ==> CellOf(w', other) == CellOf(w, other))
            && (other !in keys ==> RowOf(w', other) == RowOf(w, other))
    decreases |keys|
  {
    if keys != [] {
      RestoreIsLocal(w, keys[0], reason, keys[0].target in writes, other);
      var (w1, r) := RestoreRow(w, keys[0], reason, keys[0].target in writes);
      assert keys[0] in keys;
      if !r.RestoreFailed? {
        WalkElsewhere(w1, keys[1..], reason, writes, other);
      }
    }
  }

  lemma {:induction false} WalkKeepsInv(w: World, keys: seq<Key>, reason: Reason, writes: set<Target>)
    ensures var w' := RestoreRows(w, keys, reason, writes).world;
            SamePlanning(w, w') && (Inv(w) ==> Inv(w'))
    decreases |keys|
  {
    if keys != [] {
      RestoreKeepsPlanning(w, keys[0], reason, keys[0].target in writes);
      if Inv(w) { RestoreKeepsInv(w, keys[0], reason, keys[0].target in writes); }
      var (w1, r) := RestoreRow(w, keys[0], reason, keys[0].target in writes);
      if !r.RestoreFailed? {
        WalkKeepsInv(w1, keys[1..], reason, writes);
      }
    }
  }

  /** With no failing call, a walk reaches its end and every key it names is left unapplied. */
  lemma {:induction false} WalkCompletes(w: World, keys: seq<Key>, reason: Reason)
    requires Inv(w)
    ensures var r := RestoreRows(w, keys, reason, {});
            && !r.aborted
            && forall k :: k in keys ==> RowOf(r.world, k).None? || RowOf(r.world, k).value.status != Applied
    decreases |keys|
  {
    if keys != [] {
      var w1 := RestoreRow(w, keys[0], reason, false).0;
      RestoreIsLocal(w, keys[0], reason, false, keys[0]);
      RestoreKeepsInv(w, keys[0], reason, false);
      WalkCompletes(w1, keys[1..], reason);
      WalkElsewhere(w1, keys[1..], reason, {}, keys[0]);
    }
  }

  /** With no failing call, a walk over rows in force restores and counts every one of them. */
  lemma {:induction false} WalkCountsAll(w: World, keys: seq<Key>, reason: Reason)
    requires Inv(w) && Distinct(keys) && forall k :: k in keys ==> Has(RowOf(w, k), Applied)
    ensures RestoreRows(w, keys, reason, {}).restored == |keys|
    decreases |keys|
  {
    if keys != [] {
      var k := keys[0];
      var (w1, r) := RestoreRow(w, k, reason, false);
      assert k in keys && RowInv(k, w.actions[k]);
      RestoreIsLocal(w, k, reason, false, k);
      assert CellOf(w, k).row == RowOf(w, k);
      FirstRestores(CellOf(w, k), k, reason);
      RestoreKeepsInv(w, k, reason, false);
      forall o | o in keys[1..] ensures Has(RowOf(w1, o), Applied) {
        assert o in keys && o != k;
        RestoreIsLocal(w, k, reason, false, o);
      }
      WalkCountsAll(w1, keys[1..], reason);
    }
  }

  lemma FirstRestores(c: Cell, key: Key, reason: Reason)
    requires Has(c.row, Applied) && RowInv(key, c.row.value)
    requires match key.target.kind
             case RemoveUserRoles => c.site.UserSite?
             case DisableAutoTriage => c.site.TriageSite?
             case DisablePrRemediation => c.site.PrSite?
    ensures RestoreAt(c, reason, false).Restored?
  {
  }
}
