/**
 What one enforcement step does, as functions of values.

 A `Site` is everything one target's step may read or write: its part of the tenant and the
 mirror columns of its project row.  A `Cell` is a site together with one enforcement row.  The
 step functions work on cells; `CellOf` and `WithCell` carry them to a whole `World`.
 */
module Enforcement {
  import opened Options
  import opened Tenancy
  import opened Entities

  // ------------------------------------------------------------------ vocabulary

  datatype Kind = RemoveUserRoles | DisableAutoTriage | DisablePrRemediation

  datatype Target = Target(kind: Kind, id: Id)

  /** The four parts of the idempotency key of an enforcement row. */
  datatype Key = Key(limitId: nat, period: string, target: Target)

  datatype Status = Pending | Applied | Failed | Reversed

  datatype Reason = Admin | Exempted | PeriodRollover | LimitRemoved | CreditIncreased

  datatype Snapshot =
    | RolesSnapshot(removed: set<RoleRef>, rolesBefore: set<string>)
    | TriageSnapshot(enabledBefore: bool, configBefore: Config)
    | PrSnapshot(repo: Id, severitiesBefore: seq<string>)

  datatype Row = Row(
    entity: Entity,
    limitId: Option<nat>,
    status: Status,
    snapshot: Option<Snapshot>,
    reason: Option<Reason>,
    attempts: nat)

  /** A synced project: the columns planning reads, then the mirror columns enforcement writes. */
  datatype ProjectRow = ProjectRow(
    repo: Id,
    deleted: bool,
    triageOn: Option<bool>,
    triageConfig: Option<Config>,
    prSeverities: Option<seq<string>>)

  datatype World = World(tenant: Tenant, projects: map<Id, ProjectRow>, actions: map<Key, Row>)

  datatype TriageColumns = TriageColumns(on: Option<bool>, config: Option<Config>)

  datatype PrColumns = PrColumns(repo: Id, severities: Option<seq<string>>)

  datatype Site =
    | UserSite(roles: set<RoleRef>)
    | TriageSite(state: AutoTriage, columns: Option<TriageColumns>)
    | PrSite(settings: map<Id, seq<string>>, mirror: Option<PrColumns>)

  datatype Cell = Cell(row: Option<Row>, site: Site)

  // -------------------------------------------------------------------- one target

  datatype Performed = Done(site: Site, snapshot: Snapshot) | Refused

  /** The change and the snapshot that undoes it; a refused call leaves the site as it was. */
  function PerformAt(site: Site, f: Faults): Performed {
    match site
    case UserSite(roles) =>
      var toRemove := AiRoles(roles);
      if f.read || (toRemove != {} && f.write) then Refused
      else Done(UserSite(roles - toRemove), RolesSnapshot(toRemove, set r | r in roles :: r.name))
    case TriageSite(state, columns) =>
      if f.read || (state.IsOn() && f.write) then Refused
      else
        Done(
          TriageSite(
            if state.IsOn() then TriageEntry(false, state.config) else state,
            MirrorTriageOff(columns, state.config)),
          TriageSnapshot(state.IsOn(), state.config))
    case PrSite(settings, mirror) =>
      if mirror.None? || mirror.value.repo == "" || f.write then Refused
      else
        var repo := mirror.value.repo;
        Done(
          PrSite(settings[repo := []], Some(PrColumns(repo, Some([])))),
          PrSnapshot(repo, SeveritiesToRecord(settings, mirror.value, f)))
  }

  function MirrorTriageOff(columns: Option<TriageColumns>, config: Config): Option<TriageColumns> {
    if columns.None? then None
    else Some(TriageColumns(Some(false), if config == map[] then None else Some(config)))
  }

  /** The severities read, or the cached ones, or the default, in that order. */
  function SeveritiesToRecord(settings: map<Id, seq<string>>, columns: PrColumns, f: Faults): seq<string> {
    var read := if f.read then None else ReadSeverities(settings, columns.repo);
    if read.Some? then read.value
    else if columns.severities.None? || columns.severities.value == [] then DEFAULT_PR_SEVERITIES
    else columns.severities.value
  }

  datatype Check = Holds | Reasserted(site: Site) | Unverified

  /** Verification of a restriction already applied; the snapshot is only read. */
  function ReconcileAt(site: Site, snapshot: Option<Snapshot>, f: Faults): Check {
    match site
    case UserSite(roles) =>
      var toRemove := AiRoles(roles);
      if f.read then Unverified
      else if toRemove == {} then Holds
      else if f.write then Unverified
      else Reasserted(UserSite(roles - toRemove))
    case TriageSite(state, columns) =>
      if f.read then Unverified
      else if !state.IsOn() then Holds
      else if f.write then Unverified
      else
        var config := ConfigOf(snapshot);
        Reasserted(TriageSite(TriageEntry(false, config), MirrorTriageOff(columns, config)))
    case PrSite(settings, mirror) =>
      var repo := RepoOf(snapshot, mirror);
      var read := if f.read then None else ReadSeverities(settings, repo);
      if repo == "" || read == Some([]) then Holds
      else if f.write then Unverified
      else Reasserted(PrSite(settings[repo := []], MirrorSeverities(mirror, [])))
  }

  function ConfigOf(snapshot: Option<Snapshot>): Config {
    if snapshot.Some? && snapshot.value.TriageSnapshot? then snapshot.value.configBefore else map[]
  }

  function RepoOf(snapshot: Option<Snapshot>, mirror: Option<PrColumns>): Id {
    if snapshot.Some? && snapshot.value.PrSnapshot? && snapshot.value.repo != "" then snapshot.value.repo
    else if mirror.Some? then mirror.value.repo
    else ""
  }

  function MirrorSeverities(mirror: Option<PrColumns>, severities: seq<string>): Option<PrColumns> {
    if mirror.None? then None else Some(mirror.value.(severities := Some(severities)))
  }

  /** Replays a snapshot; `None` when a call fails.  Entries without an id are not given back. */
  function UndoAt(site: Site, snapshot: Option<Snapshot>, writeFails: bool): Option<Site> {
    match site
    case UserSite(roles) =>
      var back := RolesToGiveBack(snapshot);
      if back == {} then Some(site)
      else if writeFails then None
      else Some(UserSite(roles + back))
    case TriageSite(state, columns) =>
      if !(snapshot.Some? && snapshot.value.TriageSnapshot? && snapshot.value.enabledBefore) then Some(site)
      else if writeFails then None
      else
        Some(TriageSite(
               TriageEntry(true, snapshot.value.configBefore),
               if columns.None? then None else Some(columns.value.(on := Some(true)))))
    case PrSite(settings, mirror) =>
      var repo := RepoOf(snapshot, mirror);
      var severities :=
        if snapshot.Some? && snapshot.value.PrSnapshot? then snapshot.value.severitiesBefore
        else DEFAULT_PR_SEVERITIES;
      if repo == "" || writeFails then None
      else Some(PrSite(settings[repo := severities], MirrorSeverities(mirror, severities)))
  }

  function RolesToGiveBack(snapshot: Option<Snapshot>): set<RoleRef> {
    if snapshot.Some? && snapshot.value.RolesSnapshot?
    then set r | r in snapshot.value.removed && r.id != "" && r.name != ""
    else {}
  }

  datatype Verdict = NewlyApplied | Reconciled | Verified | CouldNotVerify | AdminRestored | CouldNotApply

  /** The row an attempt writes to: a new one, or the old one with its reversal forgotten. */
  function Begun(row: Option<Row>, blank: Row): Row {
    var r := if row.None? then blank else row.value;
    r.(attempts := r.attempts + 1, reason := if r.status == Reversed then None else r.reason)
  }

  /** One pass of the loop of a cycle over one planned target. */
  function AttemptAt(c: Cell, blank: Row, f: Faults): (r: (Cell, Verdict)) {
    if c.row.Some? && c.row.value.status == Applied then
      match ReconcileAt(c.site, c.row.value.snapshot, f)
      case Holds => (c, Verified)
      case Reasserted(site) => (c.(site := site), Reconciled)
      case Unverified => (c, CouldNotVerify)
    else if IsSettled(c.row) then (c, AdminRestored)
    else
      var begun := Begun(c.row, blank);
      match PerformAt(c.site, f)
      case Refused => (c.(row := Some(begun.(status := Failed))), CouldNotApply)
      case Done(site, snapshot) =>
        (Cell(Some(begun.(status := Applied, snapshot := Some(snapshot))), site), NewlyApplied)
  }

  /** Reversed for a reason other than an exemption: a decision that later cycles respect. */
  predicate IsSettled(row: Option<Row>) {
    row.Some? && row.value.status == Reversed && row.value.reason != Some(Exempted)
  }

  datatype RestoreResult = Restored(cell: Cell) | NotNeeded | RestoreFailed

  /** Undo of one row; only an applied row is undone. */
  function RestoreAt(c: Cell, reason: Reason, writeFails: bool): RestoreResult {
    if c.row.None? || c.row.value.status != Applied then NotNeeded
    else
      match UndoAt(c.site, c.row.value.snapshot, writeFails)
      case None => RestoreFailed
      case Some(site) => Restored(Cell(Some(c.row.value.(status := Reversed, reason := Some(reason))), site))
  }

  // --------------------------------------------------------------- cells in a world

  function RowOf(w: World, key: Key): Option<Row> {
    if key in w.actions then Some(w.actions[key]) else None
  }

  predicate Has(row: Option<Row>, status: Status) {
    row.Some? && row.value.status == status
  }

  function SnapshotOf(row: Option<Row>): Option<Snapshot> {
    if row.None? then None else row.value.snapshot
  }

  function ProjectOf(w: World, id: Id): Option<ProjectRow> {
    if id in w.projects then Some(w.projects[id]) else None
  }

  function SiteOf(w: World, target: Target): Site {
    var p := ProjectOf(w, target.id);
    match target.kind
    case RemoveUserRoles => UserSite(w.tenant.RolesOf(target.id))
    case DisableAutoTriage =>
      TriageSite(
        w.tenant.TriageOf(target.id),
        if p.None? then None else Some(TriageColumns(p.value.triageOn, p.value.triageConfig)))
    case DisablePrRemediation =>
      PrSite(
        w.tenant.SettingsOf(target.id),
        if p.None? then None else Some(PrColumns(p.value.repo, p.value.prSeverities)))
  }

  function CellOf(w: World, key: Key): Cell {
    Cell(RowOf(w, key), SiteOf(w, key.target))
  }

  /** `m` with `v` at `k`, and `m` itself when that is what reading `k` already gives. */
  function Store<K, V(==)>(m: map<K, V>, k: K, v: V, current: V): map<K, V> {
    if v == current then m else m[k := v]
  }

  /** The step functions keep the shape of a site and the columns only planning reads. */
  predicate SameShape(a: Site, b: Site) {
    match a
    case UserSite(_) => b.UserSite?
    case TriageSite(_, columns) => b.TriageSite? && (columns.Some? <==> b.columns.Some?)
    case PrSite(_, mirror) =>
      && b.PrSite?
      && (mirror.Some? <==> b.mirror.Some?)
      && (mirror.Some? ==> b.mirror.value.repo == mirror.value.repo)
  }

  function WithSite(w: World, target: Target, site: Site): World
    requires SameShape(SiteOf(w, target), site)
  {
    var id := target.id;
    match site
    case UserSite(roles) =>
      w.(tenant := w.tenant.(roles := Store(w.tenant.roles, id, roles, w.tenant.RolesOf(id))))
    case TriageSite(state, columns) =>
      w.(tenant := w.tenant.(triage := Store(w.tenant.triage, id, state, w.tenant.TriageOf(id))),
         projects :=
           if columns.None? then w.projects
           else w.projects[id := w.projects[id].(triageOn := columns.value.on, triageConfig := columns.value.config)])
    case PrSite(settings, mirror) =>
      w.(tenant := w.tenant.(severities := Store(w.tenant.severities, id, settings, w.tenant.SettingsOf(id))),
         projects :=
           if mirror.None? then w.projects
           else w.projects[id := w.projects[id].(prSeverities := mirror.value.severities)])
  }

  function WithCell(w: World, key: Key, c: Cell): World
    requires SameShape(SiteOf(w, key.target), c.site)
  {
    var w1 := WithSite(w, key.target, c.site);
    if c.row.None? then w1 else w1.(actions := w1.actions[key := c.row.value])
  }

  lemma StepsKeepShape(c: Cell, blank: Row, reason: Reason, f: Faults)
    ensures SameShape(c.site, AttemptAt(c, blank, f).0.site)
    ensures RestoreAt(c, reason, f.write).Restored? ==> SameShape(c.site, RestoreAt(c, reason, f.write).cell.site)
  {
  }

  /** What was written is read back, and nothing else moved. */
  lemma WithCellFrames(w: World, key: Key, c: Cell, other: Key)
    requires SameShape(SiteOf(w, key.target), c.site)
    requires c.row.None? ==> key !in w.actions
    ensures CellOf(WithCell(w, key, c), key) == c
    ensures other.target != key.target ==> CellOf(WithCell(w, key, c), other) == CellOf(w, other)
    ensures other != key ==> RowOf(WithCell(w, key, c), other) == RowOf(w, other)
  {
  }

  /** Writing back what is there changes nothing at all. */
  lemma WithCellIdentity(w: World, key: Key)
    ensures WithCell(w, key, CellOf(w, key)) == w
  {
  }

  /** Sites do not look at rows, so the two parts of a cell can be written in either order. */
  lemma RowsAndSitesCommute(w: World, target: Target, site: Site, actions: map<Key, Row>)
    requires SameShape(SiteOf(w, target), site)
    ensures SiteOf(w.(actions := actions), target) == SiteOf(w, target)
    ensures WithSite(w.(actions := actions), target, site) == WithSite(w, target, site).(actions := actions)
    ensures WithSite(w, target, site).actions == w.actions
  {
  }

  // ------------------------------------------------------------------ cycles in a world

  /** The targets whose reads, and whose writes, fail during one cycle. */
  datatype FaultPlan = FaultPlan(unreadable: set<Target>, unwritable: set<Target>) {
    function At(t: Target): Faults {
      Faults(t in unreadable, t in unwritable)
    }
  }

  const NO_FAULT_PLAN := FaultPlan({}, {})

  /** The rows a plan of one limit and period addresses. */
  function KeysOf(limitId: nat, period: string, targets: seq<Target>): seq<Key> {
    seq(|targets|, i requires 0 <= i < |targets| => Key(limitId, period, targets[i]))
  }

  function FreshRow(limitId: nat, entity: Entity): Row {
    Row(entity, Some(limitId), Pending, None, None, 0)
  }

  function Attempt(w: World, key: Key, entity: Entity, f: Faults): (World, Verdict) {
    var c := CellOf(w, key);
    var (c', v) := AttemptAt(c, FreshRow(key.limitId, entity), f);
    StepsKeepShape(c, FreshRow(key.limitId, entity), Admin, f);
    (WithCell(w, key, c'), v)
  }

  /** The loop of a cycle: one attempt per planned target, in order. */
  function ApplyTargets(
    w: World, limitId: nat, entity: Entity, period: string, targets: seq<Target>, faults: FaultPlan
  ): (r: (World, seq<Verdict>))
    ensures |r.1| == |targets|
    decreases |targets|
  {
    if targets == [] then (w, [])
    else
      var t := targets[0];
      var (w1, v) := Attempt(w, Key(limitId, period, t), entity, faults.At(t));
      var (w2, vs) := ApplyTargets(w1, limitId, entity, period, targets[1..], faults);
      (w2, [v] + vs)
  }

  function RestoreRow(w: World, key: Key, reason: Reason, writeFails: bool): (World, RestoreResult) {
    var c := CellOf(w, key);
    var r := RestoreAt(c, reason, writeFails);
    StepsKeepShape(c, FreshRow(key.limitId, Entity(User, "")), reason, Faults(false, writeFails));
    (if r.Restored? then WithCell(w, key, r.cell) else w, r)
  }

  datatype Restoration = Restoration(world: World, restored: nat, aborted: bool)

  /** Restores rows in the given order; the first failure stops the walk and is raised. */
  function RestoreRows(w: World, keys: seq<Key>, reason: Reason, writes: set<Target>): Restoration
    decreases |keys|
  {
    if keys == [] then Restoration(w, 0, false)
    else
      var (w1, r) := RestoreRow(w, keys[0], reason, keys[0].target in writes);
      if r.RestoreFailed? then Restoration(w1, 0, true)
      else
        var rest := RestoreRows(w1, keys[1..], reason, writes);
        rest.(restored := rest.restored + if r.Restored? then 1 else 0)
  }

  // --------------------------------------------------------------------------- planning

  /** Projects of a group or an application, member users of a group, and the exempt entities. */
  datatype Org = Org(
    groups: map<Id, seq<Id>>,
    applications: map<Id, seq<Id>>,
    members: map<Id, seq<Id>>,
    exempt: set<Entity>)

  function ProjectIdsFor(org: Org, entity: Entity): seq<Id> {
    match entity.level
    case Project => [entity.id]
    case Group => if entity.id in org.groups then org.groups[entity.id] else []
    case Application => if entity.id in org.applications then org.applications[entity.id] else []
    case User => []
  }

  function TargetsOfProject(org: Org, projects: map<Id, ProjectRow>, id: Id): seq<Target> {
    if Entity(Project, id) in org.exempt || (id in projects && projects[id].deleted) then []
    else if id in projects && projects[id].repo != "" then
      [Target(DisableAutoTriage, id), Target(DisablePrRemediation, id)]
    else [Target(DisableAutoTriage, id)]
  }

  /** Targets of the projects in order, each project at its first occurrence only. */
  function TargetsOfProjects(org: Org, projects: map<Id, ProjectRow>, ids: seq<Id>): seq<Target> {
    if ids == [] then []
    else
      var before := ids[..|ids| - 1];
      var id := ids[|ids| - 1];
      TargetsOfProjects(org, projects, before) + (if id in before then [] else TargetsOfProject(org, projects, id))
  }

  function Plan(org: Org, projects: map<Id, ProjectRow>, entity: Entity): seq<Target> {
    if entity.level == User then
      if entity in org.exempt then [] else [Target(RemoveUserRoles, entity.id)]
    else TargetsOfProjects(org, projects, ProjectIdsFor(org, entity))
  }

  /** The project belongs to what the limit is set for. */
  predicate IsUnder(org: Org, entity: Entity, id: Id) {
    || (entity.level == Project && id == entity.id)
    || (entity.level == Group && entity.id in org.groups && id in org.groups[entity.id])
    || (entity.level == Application && entity.id in org.applications && id in org.applications[entity.id])
  }

  /** Exactly the changes a breach implies: every live, non-exempt project under the entity, once. */
  lemma {:induction false} PlanMeans(org: Org, projects: map<Id, ProjectRow>, entity: Entity, t: Target)
    ensures t in Plan(org, projects, entity) <==>
            match t.kind
            case RemoveUserRoles => entity == Entity(User, t.id) && entity !in org.exempt
            case DisableAutoTriage =>
              && IsUnder(org, entity, t.id) && Entity(Project, t.id) !in org.exempt
              && !(t.id in projects && projects[t.id].deleted)
            case DisablePrRemediation =>
              && IsUnder(org, entity, t.id) && Entity(Project, t.id) !in org.exempt
              && t.id in projects && !projects[t.id].deleted && projects[t.id].repo != ""
    ensures forall i, j :: 0 <= i < j < |Plan(org, projects, entity)| ==>
              Plan(org, projects, entity)[i] != Plan(org, projects, entity)[j]
  {
    if entity.level != User {
      PlannedProjects(org, projects, ProjectIdsFor(org, entity), t);
    }
  }

  lemma {:induction false} PlannedProjects(org: Org, projects: map<Id, ProjectRow>, ids: seq<Id>, t: Target)
    ensures t in TargetsOfProjects(org, projects, ids) <==> t.id in ids && t in TargetsOfProject(org, projects, t.id)
    ensures forall i, j :: 0 <= i < j < |TargetsOfProjects(org, projects, ids)| ==>
              TargetsOfProjects(org, projects, ids)[i] != TargetsOfProjects(org, projects, ids)[j]
  {
    if ids != [] {
      var before := ids[..|ids| - 1];
      var id := ids[|ids| - 1];
      assert ids == before + [id];
      PlannedProjects(org, projects, before, t);
      forall u | u in TargetsOfProject(org, projects, id) && id !in before
        ensures u !in TargetsOfProjects(org, projects, before)
      {
        PlannedProjects(org, projects, before, u);
      }
      var all := TargetsOfProjects(org, projects, ids);
      var n := |TargetsOfProjects(org, projects, before)|;
      forall i, j | 0 <= i < j < |all|
        ensures all[i] != all[j]
      {
        if i < n <= j {
          assert all[j] == TargetsOfProject(org, projects, id)[j - n];
          assert all[i] in TargetsOfProjects(org, projects, before);
        }
      }
    }
  }
}
