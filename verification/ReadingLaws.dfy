/** What a reported total is worth: which stored totals count towards a limit, and how often. */
module ReadingLaws {
  import opened Options
  import opened Tenancy
  import opened Entities
  import opened Enforcement
  import opened Evaluation
  import Ingestion
  import Pinning

  function Times(ids: seq<Id>, id: Id): nat {
    if ids == [] then 0 else Times(ids[1..], id) + if ids[0] == id then 1 else 0
  }

  function ListAt(lists: map<Id, seq<Id>>, id: Id): seq<Id> {
    if id in lists then lists[id] else []
  }

  function Raised(totals: map<Id, real>, id: Id, more: real): map<Id, real> {
    totals[id := (if id in totals then totals[id] else 0.0) + more]
  }

  /** An amount so many times over. */
  function Over(amount: real, times: nat): real {
    if times == 0 then 0.0 else amount + Over(amount, times - 1)
  }

  lemma {:induction false} SumRaises(totals: map<Id, real>, ids: seq<Id>, id: Id, more: real)
    ensures SumOver(Raised(totals, id, more), ids) == SumOver(totals, ids) + Over(more, Times(ids, id))
  {
    if ids != [] {
      SumRaises(totals, ids[1..], id, more);
    }
  }

  lemma {:induction false} NothingSumsToZero(ids: seq<Id>)
    ensures SumOver(map[], ids) == 0.0
  {
    if ids != [] {
      NothingSumsToZero(ids[1..]);
    }
  }

  /** Where nothing is stored, nothing is reported. */
  lemma NothingStoredIsZero(index: UsageIndex, org: Org, limit: Limit)
    requires index.users == map[] && index.projects == map[] && index.applications == map[] && index.groups == map[]
    ensures ReportedTotal(index, org, limit).total == 0.0
  {
    NothingSumsToZero(ProjectIdsFor(org, limit.entity));
    NothingSumsToZero(ListAt(org.members, limit.entity.id));
  }

  /** The tenant's own figure for the entity is used, and no project is added up. */
  predicate ReportedDirectly(index: UsageIndex, limit: Limit) {
    match limit.entity.level
    case User => true
    case Project => true
    case Application => index.applicationDimension && limit.entity.id in index.applications
    case Group => !limit.includeMembers && index.groupDimension && limit.entity.id in index.groups
  }

  /** How often a user's stored total counts. */
  function UserWeight(index: UsageIndex, org: Org, limit: Limit, user: Id): nat {
    if !index.userDimension then 0
    else if limit.entity.level == User then (if user == limit.entity.id then 1 else 0)
    else if limit.entity.level == Group && limit.includeMembers then Times(ListAt(org.members, limit.entity.id), user)
    else 0
  }

  /** How often a project's stored total counts. */
  function ProjectWeight(index: UsageIndex, org: Org, limit: Limit, project: Id): nat {
    if !index.projectDimension then 0
    else
      match limit.entity.level
      case User => 0
      case Project => if project == limit.entity.id then 1 else 0
      case Application =>
        if ReportedDirectly(index, limit) then 0 else Times(ListAt(org.applications, limit.entity.id), project)
      case Group => if ReportedDirectly(index, limit) then 0 else Times(ListAt(org.groups, limit.entity.id), project)
  }

  /** A user's credits count towards that user's limit, and towards the groups that count their members. */
  lemma UserTotalsCount(index: UsageIndex, org: Org, limit: Limit, user: Id, more: real)
    ensures var before := ReportedTotal(index, org, limit);
            var after := ReportedTotal(index.(users := Raised(index.users, user, more)), org, limit);
            && after.available == before.available
            && after.total == before.total + Over(more, UserWeight(index, org, limit, user))
  {
    match limit.entity.level
    case User => assert Over(more, 1) == more;
    case Group => SumRaises(index.users, ListAt(org.members, limit.entity.id), user, more);
    case _ =>
  }

  /** A project's credits count towards its limit, and towards applications and groups not reported directly. */
  lemma ProjectTotalsCount(index: UsageIndex, org: Org, limit: Limit, project: Id, more: real)
    ensures var before := ReportedTotal(index, org, limit);
            var after := ReportedTotal(index.(projects := Raised(index.projects, project, more)), org, limit);
            && after.available == before.available
            && after.total == before.total + Over(more, ProjectWeight(index, org, limit, project))
  {
    match limit.entity.level
    case User =>
    case Project => assert Over(more, 1) == more;
    case Application => SumRaises(index.projects, ListAt(org.applications, limit.entity.id), project, more);
    case Group => ProjectsOfGroupCount(index, org, limit, project, more);
  }

  lemma ProjectsOfGroupCount(index: UsageIndex, org: Org, limit: Limit, project: Id, more: real)
    requires limit.entity.level == Group
    ensures var before := ReportedTotal(index, org, limit);
            var after := ReportedTotal(index.(projects := Raised(index.projects, project, more)), org, limit);
            && after.available == before.available
            && after.total == before.total + Over(more, ProjectWeight(index, org, limit, project))
  {
    SumRaises(index.projects, ListAt(org.groups, limit.entity.id), project, more);
  }

  /** An application's own figure replaces the sum of its projects, and means nothing to any other limit. */
  lemma ApplicationTotalsCount(index: UsageIndex, org: Org, limit: Limit, application: Id, total: real)
    ensures var after := ReportedTotal(index.(applications := index.applications[application := total]), org, limit);
            if limit.entity == Entity(Application, application) && index.applicationDimension
            then after == Reading(total, true)
            else after == ReportedTotal(index, org, limit)
  {
  }

  /** So does a group's, unless the group counts its members. */
  lemma GroupTotalsCount(index: UsageIndex, org: Org, limit: Limit, group: Id, total: real)
    ensures var after := ReportedTotal(index.(groups := index.groups[group := total]), org, limit);
            if limit.entity == Entity(Group, group) && index.groupDimension && !limit.includeMembers
            then after == Reading(total, true)
            else after == ReportedTotal(index, org, limit)
  {
  }

  /** When there is a reading at all. */
  lemma AvailableIff(index: UsageIndex, org: Org, limit: Limit)
    ensures ReportedTotal(index, org, limit).available <==>
            match limit.entity.level
            case User => index.userDimension
            case Project => index.projectDimension
            case Application =>
              index.applicationDimension || (index.projectDimension && ListAt(org.applications, limit.entity.id) != [])
            case Group =>
              || ReportedDirectly(index, limit)
              || (index.projectDimension && ListAt(org.groups, limit.entity.id) != [])
              || (limit.includeMembers && index.userDimension && ListAt(org.members, limit.entity.id) != [])
  {
  }

  /** End to end: what a user limit reads is what the newest records bill to its user. */
  lemma UserReadingIsBilled(index: UsageIndex, org: Org, limit: Limit, records: seq<Ingestion.Record>)
    requires index.users == Ingestion.LatestTotals(records) && index.userDimension
    requires limit.entity.level == User && limit.entity.id != ""
    ensures ReportedTotal(index, org, limit) == Reading(Pinning.BilledTo(records, limit.entity.id), true)
  {
    Pinning.LatestTotalIsBilled(records, limit.entity.id);
  }
}
