/** Runs: any interleaving of cycles, restores, foreign changes and limit deletions. */
module EnforcementRuns {
  import opened Options
  import opened Tenancy
  import opened Entities
  import opened Enforcement
  import opened EnforcementLaws
  import opened UndoLaws

  datatype Event =
    | Cycle(limitId: nat, entity: Entity, period: string, targets: seq<Target>, faults: FaultPlan)
    | Undo(key: Key, reason: Reason, writeFails: bool)
    | Foreign(tenant: Tenant, projects: map<Id, ProjectRow>)
    | LimitGone(goneId: nat)

  /** A deleted limit leaves its rows behind with their reference to it cleared. */
  function Orphaned(actions: map<Key, Row>, limitId: nat): map<Key, Row> {
    map k | k in actions ::
      if actions[k].limitId == Some(limitId) then actions[k].(limitId := None) else actions[k]
  }

  function Step(w: World, e: Event): World {
    match e
    case Cycle(limitId, entity, period, targets, faults) =>
      ApplyTargets(w, limitId, entity, period, targets, faults).0
    case Undo(key, reason, writeFails) => RestoreRow(w, key, reason, writeFails).0
    case Foreign(tenant, projects) => w.(tenant := tenant, projects := projects)
    case LimitGone(id) => w.(actions := Orphaned(w.actions, id))
  }

  /** Plans name each target once. */
  ghost predicate Legal(e: Event) {
    e.Cycle? ==> Distinct(e.targets)
  }

  function Run(w: World, events: seq<Event>): World
    decreases |events|
  {
    if events == [] then w else Step(Run(w, events[..|events| - 1]), events[|events| - 1])
  }

  // ------------------------------------------------------------------ row lifecycle

  /** Equal but for the reference to the limit, which a deletion clears. */
  predicate SameButOrphaned(a: Row, b: Row) {
    b == a || b == a.(limitId := None)
  }

  /** The transitions the code can make on one row in one event. */
  predicate Moves(a: Option<Row>, b: Option<Row>) {
    if a.None? then b.None? || b.value.status == Applied || b.value.status == Failed
    else
      && b.Some?
      && match a.value.status
         case Pending => true
         case Failed => SameButOrphaned(a.value, b.value) || b.value.status == Applied || b.value.status == Failed
         case Applied =>
           || SameButOrphaned(a.value, b.value)
           || (b.value.status == Reversed && b.value.snapshot == a.value.snapshot && b.value.reason.Some?)
         case Reversed =>
           || SameButOrphaned(a.value, b.value)
           || (a.value.reason == Some(Exempted) && (b.value.status == Applied || b.value.status == Failed))
  }

  lemma EveryEventMoves(w: World, e: Event, key: Key)
    requires Inv(w) && Legal(e)
    ensures Inv(Step(w, e)) && Moves(RowOf(w, key), RowOf(Step(w, e), key))
  {
    match e
    case Cycle(limitId, entity, period, targets, faults) =>
      CycleKeepsInv(w, limitId, entity, period, targets, faults);
      CycleElsewhere(w, limitId, entity, period, targets, faults, key);
      if key.limitId == limitId && key.period == period && key.target in targets {
        var i :| 0 <= i < |targets| && targets[i] == key.target;
        CycleAt(w, limitId, entity, period, targets, faults, i);
        assert key == Key(limitId, period, targets[i]);
      } else if key.target !in targets {
        assert RowOf(Step(w, e), key) == CellOf(Step(w, e), key).row;
      }
    case Undo(k, reason, writeFails) =>
      RestoreKeepsInv(w, k, reason, writeFails);
      RestoreIsLocal(w, k, reason, writeFails, key);
    case Foreign(_, _) =>
    case LimitGone(_) =>
  }

  lemma {:induction false} RunKeepsInv(w: World, events: seq<Event>)
    requires Inv(w) && forall e :: e in events ==> Legal(e)
    ensures Inv(Run(w, events))
    decreases |events|
  {
    if events != [] {
      RunKeepsInv(w, events[..|events| - 1]);
      EveryEventMoves(Run(w, events[..|events| - 1]), events[|events| - 1], Key(0, "", Target(RemoveUserRoles, "")));
    }
  }

  lemma {:induction false} RunSplits(w: World, first: seq<Event>, second: seq<Event>)
    ensures Run(w, first + second) == Run(Run(w, first), second)
    decreases |second|
  {
    if second == [] {
      assert first + second == first;
    } else {
      var n := |second| - 1;
      assert (first + second)[..|first + second| - 1] == first + second[..n];
      RunSplits(w, first, second[..n]);
    }
  }

  /**
   A row that an admin, a rollover or a limit change reversed stays reversed, with its snapshot and
   reason, through every later run: only the exemption's own reversals can be applied again.
   */
  lemma {:induction false} SettledForever(w: World, events: seq<Event>, key: Key)
    requires Inv(w) && forall e :: e in events ==> Legal(e)
    requires IsSettled(RowOf(w, key))
    ensures var row := RowOf(Run(w, events), key);
            row.Some? && SameButOrphaned(RowOf(w, key).value, row.value) && IsSettled(row)
    decreases |events|
  {
    if events != [] {
      var before := Run(w, events[..|events| - 1]);
      SettledForever(w, events[..|events| - 1], key);
      RunKeepsInv(w, events[..|events| - 1]);
      EveryEventMoves(before, events[|events| - 1], key);
    }
  }

  /** Unless it is undone, an applied row stays applied and keeps the snapshot it was given. */
  lemma {:induction false} SnapshotIsWrittenOnce(w: World, events: seq<Event>, key: Key)
    requires Inv(w) && forall e :: e in events ==> Legal(e) && !(e.Undo? && e.key == key)
    requires Has(RowOf(w, key), Applied)
    ensures var row := RowOf(Run(w, events), key);
            row.Some? && SameButOrphaned(RowOf(w, key).value, row.value)
    decreases |events|
  {
    if events != [] {
      var last := events[|events| - 1];
      var before := Run(w, events[..|events| - 1]);
      SnapshotIsWrittenOnce(w, events[..|events| - 1], key);
      RunKeepsInv(w, events[..|events| - 1]);
      EveryEventMoves(before, last, key);
      if last.Undo? {
        RestoreIsLocal(before, last.key, last.reason, last.writeFails, key);
      } else if last.Cycle? {
        CycleElsewhere(before, last.limitId, last.entity, last.period, last.targets, last.faults, key);
        if key.limitId == last.limitId && key.period == last.period && key.target in last.targets {
          var i :| 0 <= i < |last.targets| && last.targets[i] == key.target;
          CycleAt(before, last.limitId, last.entity, last.period, last.targets, last.faults, i);
        } else if key.target !in last.targets {
          assert RowOf(Run(w, events), key) == CellOf(Run(w, events), key).row;
        }
      }
    }
  }

  // ----------------------------------------------------------------- what is never touched

  /** No event of ours adds or removes a role outside the AI set, for any user. */
  lemma {:induction false} OtherRolesUntouched(w: World, e: Event, user: Id)
    requires Inv(w) && Legal(e) && !e.Foreign?
    ensures OtherRoles(Step(w, e).tenant.RolesOf(user)) == OtherRoles(w.tenant.RolesOf(user))
  {
    var t := Target(RemoveUserRoles, user);
    match e
    case Cycle(limitId, entity, period, targets, faults) =>
      var key := Key(limitId, period, t);
      assert CellOf(Step(w, e), key).site == UserSite(Step(w, e).tenant.RolesOf(user));
      if t in targets {
        var i :| 0 <= i < |targets| && targets[i] == t;
        CycleAt(w, limitId, entity, period, targets, faults, i);
      } else {
        CycleElsewhere(w, limitId, entity, period, targets, faults, key);
      }
    case Undo(k, reason, writeFails) =>
      var probe := Key(k.limitId, k.period, t);
      RestoreIsLocal(w, k, reason, writeFails, probe);
      assert CellOf(Step(w, e), probe).site == UserSite(Step(w, e).tenant.RolesOf(user));
      if k.target == t {
        UndoGivesBackAiRolesOnly(w, k, writeFails);
      }
    case LimitGone(_) =>
  }

  lemma UndoGivesBackAiRolesOnly(w: World, key: Key, writeFails: bool)
    requires Inv(w) && key.target.kind == RemoveUserRoles
    ensures var back := UndoAt(SiteOf(w, key.target), SnapshotOf(RowOf(w, key)), writeFails);
            Has(RowOf(w, key), Applied) && back.Some? ==>
              OtherRoles(back.value.roles) == OtherRoles(w.tenant.RolesOf(key.target.id))
  {
    if Has(RowOf(w, key), Applied) {
      assert RowInv(key, w.actions[key]);
      var removed := w.actions[key].snapshot.value.removed;
      forall r | r in RolesToGiveBack(w.actions[key].snapshot) ensures IsAi(r) {
        assert r in AiRoles(removed);
      }
    }
  }

  // ------------------------------------------------------------------------ exact undo

  /** The event is a cycle that finds or puts the restriction named by the key in force. */
  ghost predicate Enforces(w: World, e: Event, key: Key) {
    && e.Cycle? && e.limitId == key.limitId && e.period == key.period && Distinct(e.targets)
    && exists i :: 0 <= i < |e.targets| && e.targets[i] == key.target
         && InForce(ApplyTargets(w, e.limitId, e.entity, e.period, e.targets, e.faults).1[i])
  }

  /** What giving access back means, from the site before the restriction to the site after the undo. */
  predicate GivenBack(original: Site, beforeUndo: Site, afterUndo: Site) {
    match original
    case UserSite(roles) =>
      && afterUndo.UserSite? && beforeUndo.UserSite?
      && AiRoles(afterUndo.roles) == AiRoles(roles)
      && OtherRoles(afterUndo.roles) == OtherRoles(beforeUndo.roles)
    case TriageSite(state, _) =>
      && afterUndo.TriageSite?
      && (afterUndo.state.IsOn() <==> state.IsOn())
      && (state.IsOn() ==> afterUndo.state == state)
    case PrSite(settings, mirror) =>
      && afterUndo.PrSite?
      && (mirror.Some? ==>
            && mirror.value.repo in settings && mirror.value.repo in afterUndo.settings
            && afterUndo.settings[mirror.value.repo] == settings[mirror.value.repo])
  }

  /** The heart of exact undo, at one target: only the first snapshot and the last enforcement matter. */
  lemma UndoAfterDrift(original: Site, f: Faults, now: Site, snapshot: Option<Snapshot>)
    requires PerformAt(original, f).Done? && snapshot == Some(PerformAt(original, f).snapshot)
    requires Recoverable(original, f)
    requires now.UserSite? == original.UserSite? && now.TriageSite? == original.TriageSite?
    requires Restricted(now, snapshot)
    ensures var back := UndoAt(now, snapshot, false);
            back.Some? && GivenBack(original, now, back.value)
  {
    match original
    case UserSite(roles) =>
      var back := RolesToGiveBack(snapshot);
      assert back == AiRoles(roles);
      assert AiRoles(now.roles + back) == AiRoles(now.roles) + back;
      assert OtherRoles(now.roles + back) == OtherRoles(now.roles);
    case TriageSite(_, _) =>
    case PrSite(_, _) =>
  }

  /**
   Exact undo over runs.  Event `events[a]` first applies the row; then anything may happen to the
   tenant, the org mirror, other limits and the row's own limit, as long as nobody undoes the row;
   the last event is a cycle that leaves the restriction in force.  Undoing the row then gives back
   what was there just before `events[a]`, and keeps every role outside the AI set as it is now.
   */
  lemma ExactUndoOverRuns(w: World, events: seq<Event>, a: nat, key: Key, reason: Reason)
    requires Inv(w) && forall e :: e in events ==> Legal(e)
    requires a < |events| && !Has(RowOf(Run(w, events[..a]), key), Applied)
    requires Has(RowOf(Run(w, events[..a + 1]), key), Applied)
    requires forall j :: a < j < |events| ==> !(events[j].Undo? && events[j].key == key)
    requires Enforces(Run(w, events[..|events| - 1]), events[|events| - 1], key)
    requires events[a].Cycle? ==> Recoverable(SiteOf(Run(w, events[..a]), key.target), events[a].faults.At(key.target))
    ensures var original := SiteOf(Run(w, events[..a]), key.target);
            var end := Run(w, events);
            var (after, r) := RestoreRow(end, key, reason, false);
            r.Restored? && GivenBack(original, SiteOf(end, key.target), SiteOf(after, key.target))
  {
    var end := Run(w, events);
    var last := events[|events| - 1];
    RecordedSnapshot(w, events, a, key);
    RunKeepsInv(w, events[..|events| - 1]);
    LastEnforcement(Run(w, events[..|events| - 1]), last, key);
    var original := SiteOf(Run(w, events[..a]), key.target);
    UndoAfterDrift(original, events[a].faults.At(key.target), SiteOf(end, key.target), SnapshotOf(RowOf(end, key)));
    RestoreIsLocal(end, key, reason, false, key);
    var after := RestoreRow(end, key, reason, false).0;
    assert CellOf(after, key).site == SiteOf(after, key.target);
  }

  /** At the end of the run the row still carries what `events[a]` recorded. */
  lemma RecordedSnapshot(w: World, events: seq<Event>, a: nat, key: Key)
    requires Inv(w) && forall e :: e in events ==> Legal(e)
    requires a < |events| && !Has(RowOf(Run(w, events[..a]), key), Applied)
    requires Has(RowOf(Run(w, events[..a + 1]), key), Applied)
    requires forall j :: a < j < |events| ==> !(events[j].Undo? && events[j].key == key)
    ensures events[a].Cycle? && Has(RowOf(Run(w, events), key), Applied)
    ensures var done := PerformAt(SiteOf(Run(w, events[..a]), key.target), events[a].faults.At(key.target));
            done.Done? && SnapshotOf(RowOf(Run(w, events), key)) == Some(done.snapshot)
  {
    ApplicationRecords(w, events, a, key);
    RestLeavesTheRow(events, a, key);
    RecordIsKept(w, events[..a + 1], events[a + 1..], key);
    assert events == events[..a + 1] + events[a + 1..];
  }

  lemma RecordIsKept(w: World, first: seq<Event>, rest: seq<Event>, key: Key)
    requires Inv(Run(w, first)) && Has(RowOf(Run(w, first), key), Applied)
    requires forall e :: e in rest ==> Legal(e) && !(e.Undo? && e.key == key)
    ensures var row := RowOf(Run(w, first + rest), key);
            Has(row, Applied) && SnapshotOf(row) == SnapshotOf(RowOf(Run(w, first), key))
  {
    RunSplits(w, first, rest);
    SnapshotIsWrittenOnce(Run(w, first), rest, key);
  }

  lemma RestLeavesTheRow(events: seq<Event>, a: nat, key: Key)
    requires a < |events| && forall e :: e in events ==> Legal(e)
    requires forall j :: a < j < |events| ==> !(events[j].Undo? && events[j].key == key)
    ensures forall e :: e in events[a + 1..] ==> Legal(e) && !(e.Undo? && e.key == key)
  {
    var rest := events[a + 1..];
    forall e | e in rest ensures Legal(e) && !(e.Undo? && e.key == key) {
      var j :| 0 <= j < |rest| && rest[j] == e;
      assert events[a + 1 + j] == e;
    }
  }

  lemma ApplicationRecords(w: World, events: seq<Event>, a: nat, key: Key)
    requires Inv(w) && forall e :: e in events ==> Legal(e)
    requires a < |events| && !Has(RowOf(Run(w, events[..a]), key), Applied)
    requires Has(RowOf(Run(w, events[..a + 1]), key), Applied)
    ensures Inv(Run(w, events[..a + 1])) && events[a].Cycle?
    ensures var done := PerformAt(SiteOf(Run(w, events[..a]), key.target), events[a].faults.At(key.target));
            done.Done? && SnapshotOf(RowOf(Run(w, events[..a + 1]), key)) == Some(done.snapshot)
  {
    var start := Run(w, events[..a]);
    assert events[..a + 1][..a] == events[..a] && events[..a + 1][a] == events[a];
    assert Run(w, events[..a + 1]) == Step(start, events[a]);
    RunKeepsInv(w, events[..a]);
    assert events[a] in events;
    EveryEventMoves(start, events[a], key);
    FirstApplication(start, events[a], key);
  }

  /** Only a cycle that performs the change can make a row applied. */
  lemma FirstApplication(w: World, e: Event, key: Key)
    requires Inv(w) && Legal(e)
    requires !Has(RowOf(w, key), Applied) && Has(RowOf(Step(w, e), key), Applied)
    ensures e.Cycle?
    ensures var done := PerformAt(SiteOf(w, key.target), e.faults.At(key.target));
            done.Done? && SnapshotOf(RowOf(Step(w, e), key)) == Some(done.snapshot)
  {
    match e
    case Cycle(limitId, entity, period, targets, faults) =>
      CycleElsewhere(w, limitId, entity, period, targets, faults, key);
      assert RowOf(Step(w, e), key) == CellOf(Step(w, e), key).row;
      var i :| 0 <= i < |targets| && targets[i] == key.target;
      CycleAt(w, limitId, entity, period, targets, faults, i);
    case Undo(k, reason, writeFails) =>
      RestoreIsLocal(w, k, reason, writeFails, key);
    case Foreign(_, _) =>
    case LimitGone(_) =>
  }

  lemma LastEnforcement(w: World, e: Event, key: Key)
    requires Inv(w) && Enforces(w, e, key)
    ensures Restricted(SiteOf(Step(w, e), key.target), SnapshotOf(RowOf(Step(w, e), key)))
    ensures var site := SiteOf(Step(w, e), key.target);
            site.UserSite? == key.target.kind.RemoveUserRoles? && site.TriageSite? == key.target.kind.DisableAutoTriage?
  {
    var i :| 0 <= i < |e.targets| && e.targets[i] == key.target
      && InForce(ApplyTargets(w, e.limitId, e.entity, e.period, e.targets, e.faults).1[i]);
    CycleAt(w, e.limitId, e.entity, e.period, e.targets, e.faults, i);
    AttemptEnforces(w, key, e.entity, e.faults.At(key.target));
    assert SiteOf(Step(w, e), key.target) == CellOf(Step(w, e), key).site;
  }
}
