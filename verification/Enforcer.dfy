/** The enforcement service: the same steps, made one at a time on stored rows and the tenant. */
module Enforcer {
  import opened Options
  import opened Tenancy
  import opened Entities
  import opened Enforcement
  import opened EnforcementLaws

  /** Where each planned target of one cycle landed. */
  datatype Outcome = Outcome(
    applied: seq<Key>,
    reconciled: seq<Key>,
    skipped: seq<(Key, Verdict)>,
    failed: seq<Key>)

  const EMPTY_OUTCOME := Outcome([], [], [], [])

  function Landed(o: Outcome, key: Key, v: Verdict): Outcome {
    match v
    case NewlyApplied => o.(applied := o.applied + [key])
    case Reconciled => o.(reconciled := o.reconciled + [key])
    case CouldNotApply => o.(failed := o.failed + [key])
    case _ => o.(skipped := o.skipped + [(key, v)])
  }

  function OutcomeOf(keys: seq<Key>, verdicts: seq<Verdict>): Outcome
    requires |keys| == |verdicts|
  {
    if keys == [] then EMPTY_OUTCOME
    else Landed(OutcomeOf(keys[..|keys| - 1], verdicts[..|keys| - 1]), keys[|keys| - 1], verdicts[|keys| - 1])
  }

  function Firsts(skipped: seq<(Key, Verdict)>): seq<Key> {
    seq(|skipped|, i requires 0 <= i < |skipped| => skipped[i].0)
  }

  /** Everything the four lists hold. */
  function Listed(o: Outcome): multiset<Key> {
    multiset(o.applied) + multiset(o.reconciled) + multiset(Firsts(o.skipped)) + multiset(o.failed)
  }

  lemma LandsOnce(o: Outcome, key: Key, v: Verdict)
    ensures Listed(Landed(o, key, v)) == Listed(o) + multiset{key}
  {
    OneMoreListed(o.applied, key);
    OneMoreListed(o.reconciled, key);
    OneMoreListed(o.failed, key);
    OneMoreListed(Firsts(o.skipped), key);
    assert Firsts(o.skipped + [(key, v)]) == Firsts(o.skipped) + [key];
  }

  lemma OneMoreListed(keys: seq<Key>, key: Key)
    ensures multiset(keys + [key]) == multiset(keys) + multiset{key}
  {
  }

  /** The four lists together hold each planned target exactly as often as the plan does. */
  lemma {:induction false} EveryTargetLandsOnce(keys: seq<Key>, verdicts: seq<Verdict>)
    requires |keys| == |verdicts|
    ensures Listed(OutcomeOf(keys, verdicts)) == multiset(keys)
    decreases |keys|
  {
    if keys != [] {
      var n := |keys| - 1;
      EveryTargetLandsOnce(keys[..n], verdicts[..n]);
      LandsOnce(OutcomeOf(keys[..n], verdicts[..n]), keys[n], verdicts[n]);
      assert keys == keys[..n] + [keys[n]];
    }
  }

  /** Whether some planned target got this verdict. */
  ghost predicate Judged(keys: seq<Key>, verdicts: seq<Verdict>, key: Key, v: Verdict)
    requires |keys| == |verdicts|
  {
    exists i :: 0 <= i < |keys| && keys[i] == key && verdicts[i] == v
  }

  lemma JudgedSnoc(keys: seq<Key>, verdicts: seq<Verdict>, key: Key, v: Verdict)
    requires |keys| == |verdicts| > 0
    ensures var n := |keys| - 1;
            Judged(keys, verdicts, key, v) <==>
            Judged(keys[..n], verdicts[..n], key, v) || (keys[n] == key && verdicts[n] == v)
  {
    var n := |keys| - 1;
    if i :| 0 <= i < n && keys[..n][i] == key && verdicts[..n][i] == v {
      assert keys[i] == key && verdicts[i] == v;
    }
    if i :| 0 <= i < |keys| && keys[i] == key && verdicts[i] == v {
      assert i < n ==> keys[..n][i] == key && verdicts[..n][i] == v;
    }
  }

  /** Each list holds the targets of its own verdict, and a skipped one is listed with its reason. */
  lemma {:induction false} ListsFollowVerdicts(keys: seq<Key>, verdicts: seq<Verdict>, key: Key)
    requires |keys| == |verdicts|
    ensures var o := OutcomeOf(keys, verdicts);
            && (key in o.applied <==> Judged(keys, verdicts, key, NewlyApplied))
            && (key in o.reconciled <==> Judged(keys, verdicts, key, Reconciled))
            && (key in o.failed <==> Judged(keys, verdicts, key, CouldNotApply))
            && (forall v :: (key, v) in o.skipped <==>
                  (v == Verified || v == CouldNotVerify || v == AdminRestored) && Judged(keys, verdicts, key, v))
    decreases |keys|
  {
    if keys != [] {
      var n := |keys| - 1;
      ListsFollowVerdicts(keys[..n], verdicts[..n], key);
      forall v ensures Judged(keys, verdicts, key, v) <==>
                       Judged(keys[..n], verdicts[..n], key, v) || (keys[n] == key && verdicts[n] == v)
      {
        JudgedSnoc(keys, verdicts, key, v);
      }
    }
  }

  /** The applied list is empty exactly when no target was newly applied. */
  lemma {:induction false} AppliedList(keys: seq<Key>, verdicts: seq<Verdict>)
    requires |keys| == |verdicts|
    ensures OutcomeOf(keys, verdicts).applied != [] <==> NewlyApplied in verdicts
    decreases |keys|
  {
    if keys != [] {
      var n := |keys| - 1;
      AppliedList(keys[..n], verdicts[..n]);
      assert verdicts == verdicts[..n] + [verdicts[n]];
    }
  }

  /** The rest of a cycle, seen from its next target. */
  lemma CycleUnfolds(
    w: World, limitId: nat, entity: Entity, period: string, targets: seq<Target>, faults: FaultPlan, i: nat)
    requires i < |targets|
    ensures var (w1, v) := Attempt(w, Key(limitId, period, targets[i]), entity, faults.At(targets[i]));
            var (w2, vs) := ApplyTargets(w1, limitId, entity, period, targets[i + 1..], faults);
            ApplyTargets(w, limitId, entity, period, targets[i..], faults) == (w2, [v] + vs)
  {
    assert targets[i..][0] == targets[i] && targets[i..][1..] == targets[i + 1..];
  }

  /** Part of a cycle is behind, the rest of it is still to come, and together they are the whole. */
  ghost predicate Underway(
    w: World, limitId: nat, entity: Entity, period: string, targets: seq<Target>, faults: FaultPlan,
    verdicts: seq<Verdict>, all: (World, seq<Verdict>))
  {
    |verdicts| <= |targets| &&
    var rest := ApplyTargets(w, limitId, entity, period, targets[|verdicts|..], faults);
    all == (rest.0, verdicts + rest.1)
  }

  lemma OneMore<T>(before: seq<T>, x: T, after: seq<T>)
    ensures before + ([x] + after) == (before + [x]) + after
  {
  }

  lemma UnderwayStep(
    w: World, limitId: nat, entity: Entity, period: string, targets: seq<Target>, faults: FaultPlan,
    verdicts: seq<Verdict>, all: (World, seq<Verdict>))
    requires Underway(w, limitId, entity, period, targets, faults, verdicts, all) && |verdicts| < |targets|
    ensures var t := targets[|verdicts|];
            var (w1, v) := Attempt(w, Key(limitId, period, t), entity, faults.At(t));
            Underway(w1, limitId, entity, period, targets, faults, verdicts + [v], all)
  {
    var i := |verdicts|;
    CycleUnfolds(w, limitId, entity, period, targets, faults, i);
    var (w1, v) := Attempt(w, Key(limitId, period, targets[i]), entity, faults.At(targets[i]));
    OneMore(verdicts, v, ApplyTargets(w1, limitId, entity, period, targets[i + 1..], faults).1);
  }

  lemma OutcomeGrows(keys: seq<Key>, verdicts: seq<Verdict>, v: Verdict)
    requires |verdicts| < |keys|
    ensures OutcomeOf(keys[..|verdicts| + 1], verdicts + [v]) ==
            Landed(OutcomeOf(keys[..|verdicts|], verdicts), keys[|verdicts|], v)
  {
    assert keys[..|verdicts| + 1][..|verdicts|] == keys[..|verdicts|];
    assert (verdicts + [v])[..|verdicts|] == verdicts;
  }

  /** The order in which the store lists the rows a query selects. */
  type RowOrder = (map<Key, Row>, set<Key>) -> seq<Key>

  ghost predicate Lists(order: seq<Key>, keys: set<Key>) {
    Distinct(order) && forall k :: k in order <==> k in keys
  }

  ghost predicate GoodOrder(rows: RowOrder) {
    forall m, ks :: Lists(rows(m, ks), ks)
  }

  /** Applied rows of a limit, of one period only when a period is given. */
  function AppliedRowsOf(actions: map<Key, Row>, limitId: nat, period: Option<string>): set<Key> {
    set k | k in actions && actions[k].limitId == Some(limitId) && actions[k].status == Applied
            && (period.Some? ==> k.period == period.value)
  }

  function RestoreLimit(
    w: World, rows: RowOrder, limitId: nat, period: Option<string>, reason: Reason, writes: set<Target>
  ): Restoration {
    RestoreRows(w, rows(w.actions, AppliedRowsOf(w.actions, limitId, period)), reason, writes)
  }

  function Enforce(w: World, org: Org, limitId: nat, entity: Entity, period: string, faults: FaultPlan): World {
    if entity in org.exempt then w
    else ApplyTargets(w, limitId, entity, period, Plan(org, w.projects, entity), faults).0
  }

  class Service {
    var tenant: Tenant
    var projects: map<Id, ProjectRow>
    var actions: map<Key, Row>
    var org: Org
    const rows: RowOrder

    constructor (tenant: Tenant, projects: map<Id, ProjectRow>, org: Org, rows: RowOrder)
      ensures Now() == World(tenant, projects, map[]) && this.org == org && this.rows == rows
    {
      this.tenant, this.projects, this.actions, this.org, this.rows := tenant, projects, map[], org, rows;
    }

    function Now(): World
      reads this
    {
      World(tenant, projects, actions)
    }

    // ---------------------------------------------------------------------- planning

    method PlanTargets(entity: Entity) returns (targets: seq<Target>)
      ensures targets == Plan(org, projects, entity)
    {
      if entity.level == User {
        if entity in org.exempt {
          return [];
        }
        return [Target(RemoveUserRoles, entity.id)];
      }
      targets := [];
      var ids := ProjectIdsFor(org, entity);
      var i := 0;
      while i < |ids|
        invariant 0 <= i <= |ids|
        invariant targets == TargetsOfProjects(org, projects, ids[..i])
      {
        var id := ids[i];
        assert ids[..i + 1][..i] == ids[..i];
        if id !in ids[..i] && Entity(Project, id) !in org.exempt && !(id in projects && projects[id].deleted) {
          targets := targets + [Target(DisableAutoTriage, id)];
          if id in projects && projects[id].repo != "" {
            targets := targets + [Target(DisablePrRemediation, id)];
          }
        }
        i := i + 1;
      }
      assert ids[..|ids|] == ids;
    }

    // ------------------------------------------------------------------ one target

    /** Makes the change and returns the snapshot that undoes it; `None` stands for a raised error. */
    method Perform(target: Target, f: Faults) returns (snapshot: Option<Snapshot>)
      modifies this`tenant, this`projects
      ensures var done := PerformAt(old(SiteOf(Now(), target)), f);
              match done
              case Refused => snapshot == None && Now() == old(Now())
              case Done(site, s) =>
                && snapshot == Some(s)
                && SameShape(old(SiteOf(Now(), target)), site)
                && Now() == WithSite(old(Now()), target, site)
    {
      var id := target.id;
      match target.kind {
        case RemoveUserRoles =>
          if f.read { return None; }
          var current := tenant.RolesOf(id);
          var toRemove := AiRoles(current);
          assert toRemove == {} ==> current - toRemove == current;
          if toRemove != {} {
            if f.write { return None; }
            tenant := tenant.(roles := tenant.roles[id := current - toRemove]);
          }
          return Some(RolesSnapshot(toRemove, set r | r in current :: r.name));
        case DisableAutoTriage =>
          if f.read { return None; }
          var state := tenant.TriageOf(id);
          if state.IsOn() {
            if f.write { return None; }
            tenant := tenant.(triage := tenant.triage[id := TriageEntry(false, state.config)]);
          }
          if id in projects {
            projects := projects[id := projects[id].(
              triageOn := Some(false),
              triageConfig := if state.config == map[] then None else Some(state.config))];
          }
          return Some(TriageSnapshot(state.IsOn(), state.config));
        case DisablePrRemediation =>
          if id !in projects || projects[id].repo == "" { return None; }
          var repo := projects[id].repo;
          var before := SeveritiesToRecord(tenant.SettingsOf(id), PrColumns(repo, projects[id].prSeverities), f);
          if f.write { return None; }
          var settings := tenant.SettingsOf(id)[repo := []];
          if settings != tenant.SettingsOf(id) {
            tenant := tenant.(severities := tenant.severities[id := settings]);
          }
          projects := projects[id := projects[id].(prSeverities := Some([]))];
          return Some(PrSnapshot(repo, before));
      }
    }

    /** Verifies an applied restriction and re-asserts it when it drifted. */
    method Reconcile(target: Target, snapshot: Option<Snapshot>, f: Faults) returns (reasserted: Option<bool>)
      modifies this`tenant, this`projects
      ensures match ReconcileAt(old(SiteOf(Now(), target)), snapshot, f)
              case Holds => reasserted == Some(false) && Now() == old(Now())
              case Unverified => reasserted == None && Now() == old(Now())
              case Reasserted(site) =>
                && reasserted == Some(true)
                && SameShape(old(SiteOf(Now(), target)), site)
                && Now() == WithSite(old(Now()), target, site)
    {
      var id := target.id;
      match target.kind {
        case RemoveUserRoles =>
          if f.read { return None; }
          var current := tenant.RolesOf(id);
          var toRemove := AiRoles(current);
          if toRemove == {} { return Some(false); }
          if f.write { return None; }
          tenant := tenant.(roles := tenant.roles[id := current - toRemove]);
          return Some(true);
        case DisableAutoTriage =>
          if f.read { return None; }
          var state := tenant.TriageOf(id);
          if !state.IsOn() { return Some(false); }
          var config := ConfigOf(snapshot);
          if f.write { return None; }
          tenant := tenant.(triage := tenant.triage[id := TriageEntry(false, config)]);
          if id in projects {
            projects := projects[id := projects[id].(
              triageOn := Some(false), triageConfig := if config == map[] then None else Some(config))];
          }
          return Some(true);
        case DisablePrRemediation =>
          var mirror := if id in projects then Some(PrColumns(projects[id].repo, projects[id].prSeverities)) else None;
          var repo := RepoOf(snapshot, mirror);
          if repo == "" { return Some(false); }
          var current := if f.read then None else ReadSeverities(tenant.SettingsOf(id), repo);
          if current == Some([]) { return Some(false); }
          if f.write { return None; }
          var settings := tenant.SettingsOf(id)[repo := []];
          if settings != tenant.SettingsOf(id) {
            tenant := tenant.(severities := tenant.severities[id := settings]);
          }
          if id in projects {
            projects := projects[id := projects[id].(prSeverities := Some([]))];
          }
          return Some(true);
      }
    }

    /** Replays a snapshot; false stands for a raised error. */
    method Undo(target: Target, snapshot: Option<Snapshot>, writeFails: bool) returns (ok: bool)
      modifies this`tenant, this`projects
      ensures match UndoAt(old(SiteOf(Now(), target)), snapshot, writeFails)
              case None => !ok && Now() == old(Now())
              case Some(site) =>
                && ok
                && SameShape(old(SiteOf(Now(), target)), site)
                && Now() == WithSite(old(Now()), target, site)
    {
      var id := target.id;
      match target.kind {
        case RemoveUserRoles =>
          var back := RolesToGiveBack(snapshot);
          if back == {} { return true; }
          if writeFails { return false; }
          var roles := tenant.RolesOf(id) + back;
          if roles != tenant.RolesOf(id) {
            tenant := tenant.(roles := tenant.roles[id := roles]);
          }
          return true;
        case DisableAutoTriage =>
          if !(snapshot.Some? && snapshot.value.TriageSnapshot? && snapshot.value.enabledBefore) { return true; }
          if writeFails { return false; }
          var entry := TriageEntry(true, snapshot.value.configBefore);
          if entry != tenant.TriageOf(id) {
            tenant := tenant.(triage := tenant.triage[id := entry]);
          }
          if id in projects {
            projects := projects[id := projects[id].(triageOn := Some(true))];
          }
          return true;
        case DisablePrRemediation =>
          var severities := if snapshot.Some? && snapshot.value.PrSnapshot? then snapshot.value.severitiesBefore
                            else DEFAULT_PR_SEVERITIES;
          var mirror := if id in projects then Some(PrColumns(projects[id].repo, projects[id].prSeverities)) else None;
          var repo := RepoOf(snapshot, mirror);
          if repo == "" { return false; }
          if writeFails { return false; }
          var settings := tenant.SettingsOf(id)[repo := severities];
          if settings != tenant.SettingsOf(id) {
            tenant := tenant.(severities := tenant.severities[id := settings]);
          }
          if id in projects {
            projects := projects[id := projects[id].(prSeverities := Some(severities))];
          }
          return true;
      }
    }

    // ------------------------------------------------------------------ one cycle

    /** An applied row of a planned target: verified, and re-asserted when it drifted. */
    method VerifyOne(key: Key, entity: Entity, f: Faults) returns (v: Verdict)
      requires Has(RowOf(Now(), key), Applied)
      modifies this`tenant, this`projects
      ensures (Now(), v) == Attempt(old(Now()), key, entity, f)
    {
      ghost var before := Now();
      StepsKeepShape(CellOf(before, key), FreshRow(key.limitId, entity), Admin, f);
      WithCellIdentity(before, key);
      var reasserted := Reconcile(key.target, actions[key].snapshot, f);
      v := if reasserted == None then CouldNotVerify else if reasserted.value then Reconciled else Verified;
      assert before.actions[key := before.actions[key]] == before.actions;
    }

    /** A planned target without an applied or settled row: the row is opened and the change made. */
    method ChangeOne(key: Key, entity: Entity, f: Faults) returns (v: Verdict)
      requires !Has(RowOf(Now(), key), Applied) && !IsSettled(RowOf(Now(), key))
      modifies this`tenant, this`projects, this`actions
      ensures (Now(), v) == Attempt(old(Now()), key, entity, f)
    {
      ghost var before := Now();
      ghost var c := CellOf(before, key);
      ghost var site := AttemptAt(c, FreshRow(key.limitId, entity), f).0.site;
      StepsKeepShape(c, FreshRow(key.limitId, entity), Admin, f);
      BeginAttempt(key, entity);
      RowsAndSitesCommute(before, key.target, site, actions);
      assert Now() == before.(actions := actions);
      var snapshot := Perform(key.target, f);
      if snapshot == None {
        actions := actions[key := actions[key].(status := Failed)];
        v := CouldNotApply;
        WithCellIdentity(before, key);
      } else {
        actions := actions[key := actions[key].(status := Applied, snapshot := snapshot)];
        v := NewlyApplied;
      }
      assert actions == before.actions[key := AttemptAt(c, FreshRow(key.limitId, entity), f).0.row.value];
    }

    /** Finds or opens the row, forgets its reversal, and counts the attempt. */
    method BeginAttempt(key: Key, entity: Entity)
      modifies this`actions
      ensures actions == old(actions)[key := Begun(old(RowOf(Now(), key)), FreshRow(key.limitId, entity))]
    {
      if key in actions && actions[key].status == Reversed {
        actions := actions[key := actions[key].(reason := None)];
      }
      if key !in actions {
        actions := actions[key := FreshRow(key.limitId, entity)];
      }
      actions := actions[key := actions[key].(attempts := actions[key].attempts + 1)];
    }

    /** One planned target of a cycle, from looking its row up to writing its outcome. */
    method ApplyOne(key: Key, entity: Entity, f: Faults) returns (v: Verdict)
      modifies this`tenant, this`projects, this`actions
      ensures (Now(), v) == Attempt(old(Now()), key, entity, f)
    {
      if key in actions && actions[key].status == Applied {
        v := VerifyOne(key, entity, f);
      } else if key in actions && actions[key].status == Reversed && actions[key].reason != Some(Exempted) {
        v := AdminRestored;
        WithCellIdentity(Now(), key);
      } else {
        v := ChangeOne(key, entity, f);
      }
    }

    /** The loop over the plan: every target in turn, each landing in one list. */
    method ApplyPlan(limitId: nat, entity: Entity, period: string, targets: seq<Target>, faults: FaultPlan)
      returns (outcome: Outcome, ghost verdicts: seq<Verdict>)
      modifies this`tenant, this`projects, this`actions
      ensures (Now(), verdicts) == ApplyTargets(old(Now()), limitId, entity, period, targets, faults)
      ensures outcome == OutcomeOf(KeysOf(limitId, period, targets), verdicts)
    {
      ghost var keys := KeysOf(limitId, period, targets);
      ghost var all := ApplyTargets(Now(), limitId, entity, period, targets, faults);
      outcome, verdicts := EMPTY_OUTCOME, [];
      assert targets[0..] == targets && verdicts + all.1 == all.1;
      var i := 0;
      while i < |targets|
        invariant 0 <= i <= |targets| && |verdicts| == i
        invariant outcome == OutcomeOf(keys[..i], verdicts)
        invariant Underway(Now(), limitId, entity, period, targets, faults, verdicts, all)
      {
        UnderwayStep(Now(), limitId, entity, period, targets, faults, verdicts, all);
        var v := ApplyOne(Key(limitId, period, targets[i]), entity, faults.At(targets[i]));
        OutcomeGrows(keys, verdicts, v);
        outcome := Landed(outcome, Key(limitId, period, targets[i]), v);
        verdicts := verdicts + [v];
        i := i + 1;
      }
      assert keys[..i] == keys && targets[i..] == [];
      assert verdicts + [] == verdicts;
    }

    /** Enforces one breached limit; an exempt entity is skipped outright. */
    method ApplyEnforcement(limitId: nat, entity: Entity, period: string, faults: FaultPlan) returns (outcome: Outcome)
      modifies this`tenant, this`projects, this`actions
      ensures Now() == Enforce(old(Now()), org, limitId, entity, period, faults)
      ensures entity in org.exempt ==> outcome == EMPTY_OUTCOME
      ensures entity !in org.exempt ==>
                var plan := Plan(org, old(projects), entity);
                outcome == OutcomeOf(KeysOf(limitId, period, plan),
                  ApplyTargets(old(Now()), limitId, entity, period, plan, faults).1)
    {
      if entity in org.exempt {
        return EMPTY_OUTCOME;
      }
      var targets := PlanTargets(entity);
      ghost var verdicts;
      outcome, verdicts := ApplyPlan(limitId, entity, period, targets, faults);
    }

    // ------------------------------------------------------------------- restoring

    /** Undoes one row; the error of a failed call is raised after the row is left as it was. */
    method RestoreAction(key: Key, reason: Reason, writeFails: bool) returns (r: RestoreResult)
      modifies this`tenant, this`projects, this`actions
      ensures (Now(), r) == RestoreRow(old(Now()), key, reason, writeFails)
    {
      ghost var c := CellOf(Now(), key);
      StepsKeepShape(c, FreshRow(key.limitId, Entity(User, "")), reason, Faults(false, writeFails));
      if key !in actions || actions[key].status != Applied {
        return NotNeeded;
      }
      var ok := Undo(key.target, actions[key].snapshot, writeFails);
      if !ok {
        return RestoreFailed;
      }
      actions := actions[key := actions[key].(status := Reversed, reason := Some(reason))];
      ghost var site := UndoAt(c.site, c.row.value.snapshot, writeFails).value;
      r := Restored(Cell(Some(actions[key]), SiteNow(key.target)));
      WithCellFrames(old(Now()), key, Cell(Some(actions[key]), site), key);
    }

    function SiteNow(target: Target): Site
      reads this
    {
      SiteOf(Now(), target)
    }

    /** Undoes the applied rows of a limit in the store's order; stops at the first error. */
    method RestoreForLimit(limitId: nat, period: Option<string>, reason: Reason, writes: set<Target>)
      returns (restored: nat, raised: bool)
      modifies this`tenant, this`projects, this`actions
      ensures Restoration(Now(), restored, raised) == RestoreLimit(old(Now()), rows, limitId, period, reason, writes)
    {
      var keys := rows(actions, AppliedRowsOf(actions, limitId, period));
      restored, raised := 0, false;
      var i := 0;
      while i < |keys|
        invariant 0 <= i <= |keys|
        invariant var rest := RestoreRows(Now(), keys[i..], reason, writes);
                  RestoreRows(old(Now()), keys, reason, writes) == rest.(restored := restored + rest.restored)
      {
        assert keys[i..][1..] == keys[i + 1..];
        var r := RestoreAction(keys[i], reason, keys[i].target in writes);
        if r.RestoreFailed? {
          raised := true;
          return;
        }
        if r.Restored? {
          restored := restored + 1;
        }
        i := i + 1;
      }
    }
  }
}
