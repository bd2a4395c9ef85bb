/** What one enforcement step does to a target, told from the tenant's side and from the mirror's. */
module SiteLaws {
  import opened Options
  import opened Tenancy
  import opened Entities
  import opened Enforcement
  import opened EnforcementLaws

  /**
   A change is refused exactly when a call it needs fails, or there is no repository to change.
   Auto-triage and roles must be read, and are written only when there is something to take away;
   severities are written in any case.
   */
  lemma RefusedIff(site: Site, f: Faults)
    ensures PerformAt(site, f).Refused? <==>
            match site
            case UserSite(roles) => f.read || (f.write && exists r :: r in roles && r.name in AI_ROLE_NAMES)
            case TriageSite(state, _) => f.read || (f.write && state.enabled == Some(true))
            case PrSite(_, mirror) => f.write || mirror.None? || mirror.value.repo == ""
  {
    if site.UserSite? {
      assert forall r :: r in AiRoles(site.roles) <==> r in site.roles && r.name in AI_ROLE_NAMES;
      assert (exists r :: r in site.roles && r.name in AI_ROLE_NAMES) <==> AiRoles(site.roles) != {} by {
        if AiRoles(site.roles) != {} {
          var r :| r in AiRoles(site.roles);
        }
      }
    }
  }

  /** Exactly the AI roles go; a switch goes off with its configuration kept; one repository's severities go. */
  lemma ChangeMeans(site: Site, f: Faults)
    requires PerformAt(site, f).Done?
    ensures var done := PerformAt(site, f);
            match site
            case UserSite(roles) =>
              && done.site.UserSite? && (forall r :: r in done.site.roles <==> r in roles && r.name !in AI_ROLE_NAMES)
              && done.snapshot.RolesSnapshot?
              && (forall r :: r in done.snapshot.removed <==> r in roles && r.name in AI_ROLE_NAMES)
              && (forall n :: n in done.snapshot.rolesBefore <==> exists r :: r in roles && r.name == n)
            case TriageSite(state, columns) =>
              && done.site.TriageSite? && done.site.state.enabled != Some(true)
              && (state.enabled != Some(true) ==> done.site.state == state)
              && (state.config != map[] ==> done.site.state.config == state.config)
              && done.snapshot == TriageSnapshot(state.enabled == Some(true), state.config)
            case PrSite(settings, mirror) =>
              && done.site.PrSite? && mirror.Some?
              && done.site.settings.Keys == settings.Keys + {mirror.value.repo}
              && (forall r :: r in settings && r != mirror.value.repo ==> done.site.settings[r] == settings[r])
              && done.site.settings[mirror.value.repo] == []
              && done.snapshot.PrSnapshot? && done.snapshot.repo == mirror.value.repo
  {
  }

  /** The severities recorded: what was read, else what is cached, else the default. */
  lemma RecordedSeverities(site: Site, f: Faults)
    requires site.PrSite? && PerformAt(site, f).Done?
    ensures var recorded := PerformAt(site, f).snapshot.severitiesBefore;
            var columns := site.mirror.value;
            if !f.read && columns.repo in site.settings then recorded == NonEmptyEntries(site.settings[columns.repo])
            else if columns.severities.Some? && columns.severities.value != [] then recorded == columns.severities.value
            else recorded == DEFAULT_PR_SEVERITIES
  {
  }

  // --------------------------------------------------------------------------- the mirror

  /** The project row says what the tenant says. */
  predicate MirrorAgrees(site: Site) {
    match site
    case UserSite(_) => true
    case TriageSite(state, columns) =>
      columns.Some? ==>
        && columns.value.on == Some(state.enabled == Some(true))
        && (columns.value.config.Some? ==>
              columns.value.config.value != map[] && columns.value.config.value == state.config)
    case PrSite(settings, mirror) =>
      mirror.Some? && mirror.value.repo != "" ==>
        mirror.value.repo in settings && mirror.value.severities == Some(settings[mirror.value.repo])
  }

  /** Every change leaves the project row in agreement with the tenant. */
  lemma ChangeIsMirrored(site: Site, f: Faults)
    requires PerformAt(site, f).Done?
    ensures MirrorAgrees(PerformAt(site, f).site)
  {
  }

  /** The snapshot is about the repository the project row names now. */
  predicate SameRepo(site: Site, snapshot: Option<Snapshot>) {
    site.PrSite? && site.mirror.Some? ==> RepoOf(snapshot, site.mirror) == site.mirror.value.repo
  }

  /** Re-asserting severities does too; re-asserting the switch writes the configuration of the snapshot. */
  lemma ReassertMeans(site: Site, snapshot: Option<Snapshot>, f: Faults)
    requires ReconcileAt(site, snapshot, f).Reasserted?
    ensures var now := ReconcileAt(site, snapshot, f).site;
            && (SameRepo(site, snapshot) ==> MirrorAgrees(now))
            && match site
               case UserSite(roles) =>
                 && now.UserSite?
                 && forall r :: r in now.roles <==> r in roles && r.name !in AI_ROLE_NAMES
               case TriageSite(state, _) =>
                 && now.TriageSite? && state.enabled == Some(true) && now.state.enabled == Some(false)
                 && (snapshot.Some? && snapshot.value.TriageSnapshot? && snapshot.value.configBefore != map[] ==>
                       now.state.config == snapshot.value.configBefore)
               case PrSite(settings, mirror) =>
                 && now.PrSite?
                 && forall r :: r in now.settings && (r !in settings || now.settings[r] != settings[r]) ==>
                      now.settings[r] == [] && r == RepoOf(snapshot, mirror)
  {
  }

  /** A verified restriction is left alone exactly when it can be seen to hold, or nothing names a repository. */
  lemma ReconcileMeans(site: Site, snapshot: Option<Snapshot>, f: Faults)
    ensures var check := ReconcileAt(site, snapshot, f);
            match site
            case UserSite(roles) =>
              && (check.Holds? <==> !f.read && forall r :: r in roles ==> r.name !in AI_ROLE_NAMES)
              && (check.Unverified? <==> f.read || (f.write && exists r :: r in roles && r.name in AI_ROLE_NAMES))
            case TriageSite(state, _) =>
              && (check.Holds? <==> !f.read && state.enabled != Some(true))
              && (check.Unverified? <==> f.read || (f.write && state.enabled == Some(true)))
            case PrSite(settings, mirror) =>
              var repo := RepoOf(snapshot, mirror);
              var seen := !f.read && repo in settings && NonEmptyEntries(settings[repo]) == [];
              && (check.Holds? <==> repo == "" || seen)
              && (check.Unverified? <==> repo != "" && !seen && f.write)
  {
    if site.UserSite? {
      assert forall r :: r in AiRoles(site.roles) <==> r in site.roles && r.name in AI_ROLE_NAMES;
      assert AiRoles(site.roles) == {} <==> forall r :: r in site.roles ==> r.name !in AI_ROLE_NAMES by {
        if AiRoles(site.roles) != {} {
          var r :| r in AiRoles(site.roles);
        }
      }
    }
  }

  /** Giving back is mirrored as well, and gives back exactly what the snapshot names; severities fall back. */
  lemma UndoMeans(site: Site, snapshot: Option<Snapshot>)
    requires UndoAt(site, snapshot, false).Some?
    ensures var back := UndoAt(site, snapshot, false).value;
            match site
            case UserSite(roles) =>
              && back.UserSite?
              && (if snapshot.Some? && snapshot.value.RolesSnapshot? then
                    forall r :: r in back.roles <==>
                      r in roles || (r in snapshot.value.removed && r.id != "" && r.name != "")
                  else back == site)
            case TriageSite(state, columns) =>
              && back.TriageSite?
              && (if snapshot.Some? && snapshot.value.TriageSnapshot? && snapshot.value.enabledBefore then
                    && back.state.enabled == Some(true)
                    && (columns.Some? ==>
                          back.columns == Some(TriageColumns(Some(true), columns.value.config)))
                    && back.state.config == (if snapshot.value.configBefore == map[] then FALLBACK_CONFIG
                                             else snapshot.value.configBefore)
                  else back == site)
            case PrSite(settings, mirror) =>
              var repo := RepoOf(snapshot, mirror);
              && back.PrSite? && repo != "" && back.settings.Keys == settings.Keys + {repo}
              && (forall r :: r in settings && r != repo ==> back.settings[r] == settings[r])
              && (snapshot.Some? && snapshot.value.PrSnapshot? ==>
                    back.settings[repo] == snapshot.value.severitiesBefore)
              && (!(snapshot.Some? && snapshot.value.PrSnapshot?) ==> back.settings[repo] == DEFAULT_PR_SEVERITIES)
              && (mirror.Some? && SameRepo(site, snapshot) ==> MirrorAgrees(back))
  {
  }

  /** A snapshot names its own repository, and the project row is asked only where it names none. */
  lemma RepoIs(snapshot: Option<Snapshot>, mirror: Option<PrColumns>)
    ensures snapshot.Some? && snapshot.value.PrSnapshot? && snapshot.value.repo != "" ==>
              RepoOf(snapshot, mirror) == snapshot.value.repo
    ensures (snapshot.None? || (snapshot.value.PrSnapshot? && snapshot.value.repo == "")) && mirror.Some? ==>
              RepoOf(snapshot, mirror) == mirror.value.repo
  {
  }

  /**
   So a restriction that was lifted can be put back blind: a second change that cannot read the
   severities records what the undo wrote, as long as it wrote any.
   */
  lemma UndoneCanBeCutBlind(site: Site, snapshot: Option<Snapshot>, f: Faults)
    requires site.PrSite? && site.mirror.Some? && SameRepo(site, snapshot) && f.read && !f.write
    requires snapshot.Some? && snapshot.value.PrSnapshot? && snapshot.value.severitiesBefore != []
    requires UndoAt(site, snapshot, false).Some?
    ensures var back := UndoAt(site, snapshot, false).value;
            var again := PerformAt(back, f);
            again.Done? ==> again.snapshot == PrSnapshot(site.mirror.value.repo, snapshot.value.severitiesBefore)
  {
  }

  // ------------------------------------------------------------------------- the attempts

  /** Attempts are counted exactly when something is tried; whose row it is never changes. */
  lemma AttemptsAreCounted(c: Cell, blank: Row, f: Faults)
    ensures var (d, v) := AttemptAt(c, blank, f);
            var before := if c.row.None? then blank else c.row.value;
            if v == NewlyApplied || v == CouldNotApply then
              && d.row.Some? && d.row.value.attempts == before.attempts + 1
              && d.row.value.status == (if v == NewlyApplied then Applied else Failed)
              && d.row.value.entity == before.entity && d.row.value.limitId == before.limitId
              && (before.status == Reversed ==> d.row.value.reason == None)
              && (v == CouldNotApply ==> d.site == c.site && d.row.value.snapshot == before.snapshot)
            else d.row == c.row
  {
  }
}
