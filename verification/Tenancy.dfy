/**
 The part of a Checkmarx One tenant that enforcement reads and writes: the client roles of a
 user, the auto-triage entry of a project, and the remediation severities of a repository as
 seen from one project.  Every remote call may fail, and a failed call changes nothing.
 */
module Tenancy {
  import opened Options

  type Id = string

  /** The (id, name) pair of the role mapping API. */
  datatype RoleRef = RoleRef(id: Id, name: string)

  const AI_ROLE_NAMES: set<string> := {
    "view-risk-management",
    "view-risk-management-dashboard",
    "view-risk-management-tab",
    "view-scans"
  }

  predicate IsAi(role: RoleRef) {
    role.name in AI_ROLE_NAMES
  }

  function AiRoles(roles: set<RoleRef>): set<RoleRef> {
    set role | role in roles && IsAi(role)
  }

  function OtherRoles(roles: set<RoleRef>): set<RoleRef> {
    set role | role in roles && !IsAi(role)
  }

  type Config = map<string, seq<string>>

  const FALLBACK_CONFIG: Config := map[
    "branches" := ["main"],
    "scannerTypes" := ["SAST", "SCA"],
    "severityLevels" := ["CRITICAL", "HIGH"],
    "riskStatuses" := ["NEW"]
  ]

  const DEFAULT_PR_SEVERITIES: seq<string> := ["CRITICAL", "HIGH"]

  /** An absent feature reads as `enabled == None`. */
  datatype AutoTriage = AutoTriage(enabled: Option<bool>, config: Config) {
    predicate IsOn() {
      enabled == Some(true)
    }
  }

  /** The entry a write stores: an empty configuration is replaced by the fallback. */
  function TriageEntry(enabled: bool, config: Config): AutoTriage {
    AutoTriage(Some(enabled), if config == map[] then FALLBACK_CONFIG else config)
  }

  /** Severities per project, then per repository. */
  datatype Tenant = Tenant(
    roles: map<Id, set<RoleRef>>,
    triage: map<Id, AutoTriage>,
    severities: map<Id, map<Id, seq<string>>>) {

    function RolesOf(user: Id): set<RoleRef> {
      if user in roles then roles[user] else {}
    }

    function TriageOf(project: Id): AutoTriage {
      if project in triage then triage[project] else AutoTriage(None, map[])
    }

    function SettingsOf(project: Id): map<Id, seq<string>> {
      if project in severities then severities[project] else map[]
    }
  }

  /** Empty entries are dropped by the reader. */
  function NonEmptyEntries(entries: seq<string>): (r: seq<string>)
    ensures "" !in r
    ensures r == entries <==> "" !in entries
    ensures |r| <= |entries|
  {
    if entries == [] then []
    else
      var rest := NonEmptyEntries(entries[1..]);
      if entries[0] == "" then rest else [entries[0]] + rest
  }

  /** `None` when the value cannot be read. */
  function ReadSeverities(settings: map<Id, seq<string>>, repo: Id): Option<seq<string>> {
    if repo in settings then Some(NonEmptyEntries(settings[repo])) else None
  }

  /** Which of the calls about one target fail. */
  datatype Faults = Faults(read: bool, write: bool)

  const NO_FAULTS := Faults(false, false)
}
