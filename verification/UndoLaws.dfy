/** Giving access back: single undos, fan-outs and restrictions stacked on one target. */
module UndoLaws {
  import opened Options
  import opened Tenancy
  import opened Entities
  import opened Enforcement
  import opened EnforcementLaws

  /** Equal as far as the tenant goes; the mirror columns of the project row may differ. */
  predicate SameInTenant(a: Site, b: Site) {
    match a
    case UserSite(roles) => b.UserSite? && b.roles == roles
    case TriageSite(state, _) => b.TriageSite? && b.state == state
    case PrSite(settings, _) => b.PrSite? && b.settings == settings
  }

  /**
   What must hold of a site before it is restricted for the undo to be exact: role ids are not
   empty, a switched-on auto-triage has a configuration, and the severities have no empty entries
   or, where they cannot be read, are the cached ones, or the default when none are cached.
   */
  predicate Recoverable(site: Site, f: Faults) {
    match site
    case UserSite(roles) => forall r :: r in AiRoles(roles) ==> r.id != ""
    case TriageSite(state, _) => state.IsOn() ==> state.config != map[]
    case PrSite(settings, mirror) =>
      mirror.Some? ==>
        && mirror.value.repo in settings
        && (if !f.read then "" !in settings[mirror.value.repo]
            else if mirror.value.severities.Some? && mirror.value.severities.value != []
            then settings[mirror.value.repo] == mirror.value.severities.value
            else settings[mirror.value.repo] == DEFAULT_PR_SEVERITIES)
  }

  /** Restricting a target and undoing it gives the tenant back exactly on recoverable sites. */
  lemma UndoIsExactIff(site: Site, f: Faults)
    requires PerformAt(site, f).Done?
    ensures var done := PerformAt(site, f);
            var back := UndoAt(done.site, Some(done.snapshot), false);
            back.Some? && (SameInTenant(back.value, site) <==> Recoverable(site, f))
  {
    var done := PerformAt(site, f);
    match site
    case UserSite(roles) =>
      var back := RolesToGiveBack(Some(done.snapshot));
      assert UndoAt(done.site, Some(done.snapshot), false).value.roles == (roles - AiRoles(roles)) + back;
      if Recoverable(site, f) {
        assert back == AiRoles(roles);
        assert (roles - AiRoles(roles)) + AiRoles(roles) == roles;
      } else {
        var r :| r in AiRoles(roles) && r.id == "";
        assert r !in (roles - AiRoles(roles)) + back && r in roles;
      }
    case TriageSite(_, _) =>
      assert "branches" in FALLBACK_CONFIG;
    case PrSite(settings, mirror) =>
      var repo := mirror.value.repo;
      var recorded := SeveritiesToRecord(settings, mirror.value, f);
      assert UndoAt(done.site, Some(done.snapshot), false).value.settings == settings[repo := []][repo := recorded];
      assert settings[repo := []][repo := recorded] == settings[repo := recorded];
      assert settings[repo := recorded][repo] == recorded;
      if repo in settings && settings[repo] == recorded {
        assert settings[repo := recorded] == settings;
      }
  }

  // ------------------------------------------------------------------------- fan-out

  /** No reader of the tenant can tell the two apart. */
  ghost predicate SameTenant(a: Tenant, b: Tenant) {
    && (forall u :: a.RolesOf(u) == b.RolesOf(u))
    && (forall p :: a.TriageOf(p) == b.TriageOf(p))
    && (forall p :: a.SettingsOf(p) == b.SettingsOf(p))
  }

  /** Nothing of this limit and period is in force or settled yet, and every target can be changed. */
  ghost predicate ReadyToApply(w: World, limitId: nat, period: string, targets: seq<Target>) {
    forall t :: t in targets ==>
      && !IsSettled(RowOf(w, Key(limitId, period, t))) && !Has(RowOf(w, Key(limitId, period, t)), Applied)
      && PerformAt(SiteOf(w, t), NO_FAULTS).Done?
  }

  /** `order` walks exactly the given keys, each once, in any order. */
  ghost predicate Permutes(order: seq<Key>, keys: seq<Key>) {
    Distinct(order) && forall k :: k in order <==> k in keys
  }

  /**
   A breach of a group or application limit, undone in any row order, leaves every target of the
   plan as it was in the tenant, never touched anything else, and leaves no row of it applied.
   */
  lemma FanOutRoundTrip(w: World, limitId: nat, entity: Entity, period: string, targets: seq<Target>,
                        order: seq<Key>, reason: Reason)
    requires Inv(w) && Distinct(targets) && ReadyToApply(w, limitId, period, targets)
    requires forall t :: t in targets ==> Recoverable(SiteOf(w, t), NO_FAULTS)
    requires Permutes(order, KeysOf(limitId, period, targets))
    ensures var (cut, verdicts) := ApplyTargets(w, limitId, entity, period, targets, NO_FAULT_PLAN);
            var back := RestoreRows(cut, order, reason, {});
            && (forall v :: v in verdicts ==> v == NewlyApplied)
            && !back.aborted
            && SameTenant(back.world.tenant, w.tenant)
            && (forall t :: t !in targets ==> SiteOf(cut, t) == SiteOf(w, t) == SiteOf(back.world, t))
            && (forall t :: t in targets ==> Has(RowOf(back.world, Key(limitId, period, t)), Reversed))
  {
    var (cut, verdicts) := ApplyTargets(w, limitId, entity, period, targets, NO_FAULT_PLAN);
    var keys := KeysOf(limitId, period, targets);
    CycleKeepsInv(w, limitId, entity, period, targets, NO_FAULT_PLAN);
    WalkCompletes(cut, order, reason);
    assert forall a :: 0 <= a < |order| ==> order[a] in keys;
    var back := RestoreRows(cut, order, reason, {}).world;
    forall i | 0 <= i < |targets|
      ensures verdicts[i] == NewlyApplied
      ensures SameInTenant(SiteOf(back, targets[i]), SiteOf(w, targets[i]))
      ensures Has(RowOf(back, Key(limitId, period, targets[i])), Reversed)
    {
      assert keys[i] in order;
      FanOutAt(w, limitId, entity, period, targets, order, reason, i);
    }
    forall t | t !in targets
      ensures SiteOf(cut, t) == SiteOf(w, t) == SiteOf(back, t)
    {
      var key := Key(limitId, period, t);
      CycleElsewhere(w, limitId, entity, period, targets, NO_FAULT_PLAN, key);
      WalkElsewhere(cut, order, reason, {}, key);
      assert CellOf(cut, key).site == SiteOf(cut, t) && CellOf(back, key).site == SiteOf(back, t);
    }
    SitesMakeTheTenant(back, w);
  }

  lemma FreshlyCutAt(w: World, limitId: nat, entity: Entity, period: string, targets: seq<Target>, i: nat)
    requires Distinct(targets) && ReadyToApply(w, limitId, period, targets) && i < |targets|
    ensures var (cut, verdicts) := ApplyTargets(w, limitId, entity, period, targets, NO_FAULT_PLAN);
            var cell := CellOf(cut, Key(limitId, period, targets[i]));
            var done := PerformAt(SiteOf(w, targets[i]), NO_FAULTS);
            && verdicts[i] == NewlyApplied && done.Done? && cell.site == done.site
            && Has(cell.row, Applied) && SnapshotOf(cell.row) == Some(done.snapshot)
  {
    CycleAt(w, limitId, entity, period, targets, NO_FAULT_PLAN, i);
  }

  /** One target of the fan-out, wherever its row comes in the walk. */
  lemma FanOutAt(w: World, limitId: nat, entity: Entity, period: string, targets: seq<Target>,
                 order: seq<Key>, reason: Reason, i: nat)
    requires Inv(w) && Distinct(targets) && ReadyToApply(w, limitId, period, targets) && i < |targets|
    requires Recoverable(SiteOf(w, targets[i]), NO_FAULTS)
    requires Permutes(order, KeysOf(limitId, period, targets)) && Key(limitId, period, targets[i]) in order
    requires !RestoreRows(ApplyTargets(w, limitId, entity, period, targets, NO_FAULT_PLAN).0, order, reason, {}).aborted
    ensures var (cut, verdicts) := ApplyTargets(w, limitId, entity, period, targets, NO_FAULT_PLAN);
            var back := RestoreRows(cut, order, reason, {}).world;
            && verdicts[i] == NewlyApplied
            && SameInTenant(SiteOf(back, targets[i]), SiteOf(w, targets[i]))
            && Has(RowOf(back, Key(limitId, period, targets[i])), Reversed)
  {
    var cut := ApplyTargets(w, limitId, entity, period, targets, NO_FAULT_PLAN).0;
    var key := Key(limitId, period, targets[i]);
    FreshlyCutAt(w, limitId, entity, period, targets, i);
    var j :| 0 <= j < |order| && order[j] == key;
    assert forall a :: 0 <= a < |order| ==> order[a] in KeysOf(limitId, period, targets);
    WalkAt(cut, order, reason, {}, j);
    UndoIsExactIff(SiteOf(w, targets[i]), NO_FAULTS);
    var back := RestoreRows(cut, order, reason, {}).world;
    assert SiteOf(back, targets[i]) == CellOf(back, key).site;
  }

  lemma SitesMakeTheTenant(a: World, b: World)
    requires forall t :: SameInTenant(SiteOf(a, t), SiteOf(b, t))
    ensures SameTenant(a.tenant, b.tenant)
  {
    forall id
      ensures a.tenant.RolesOf(id) == b.tenant.RolesOf(id)
      ensures a.tenant.TriageOf(id) == b.tenant.TriageOf(id)
      ensures a.tenant.SettingsOf(id) == b.tenant.SettingsOf(id)
    {
      assert SameInTenant(SiteOf(a, Target(RemoveUserRoles, id)), SiteOf(b, Target(RemoveUserRoles, id)));
      assert SameInTenant(SiteOf(a, Target(DisableAutoTriage, id)), SiteOf(b, Target(DisableAutoTriage, id)));
      assert SameInTenant(SiteOf(a, Target(DisablePrRemediation, id)), SiteOf(b, Target(DisablePrRemediation, id)));
    }
  }

  // ---------------------------------------------------- several limits on one target

  /** Only remediation severities can be changed without being read first. */
  function Unreadable(key: Key, unread: set<Key>): Faults {
    Faults(key.target.kind == DisablePrRemediation && key in unread, false)
  }

  /**
   Limits or periods that restrict the same target one after the other, no write failing; the rows
   in `unread` could not read the severities they changed.
   */
  function Stack(w: World, keys: seq<Key>, entity: Entity, unread: set<Key>): World
    decreases |keys|
  {
    if keys == [] then w
    else
      var n := |keys| - 1;
      Attempt(Stack(w, keys[..n], entity, unread), keys[n], entity, Unreadable(keys[n], unread)).0
  }

  /** What the first row of the stack does to the target as it is now. */
  function FirstOf(w: World, key: Key, unread: set<Key>): Performed {
    PerformAt(SiteOf(w, key.target), Unreadable(key, unread))
  }

  ghost predicate ReadyToStack(w: World, keys: seq<Key>, target: Target) {
    && Distinct(keys)
    && (forall k :: k in keys ==>
          k.target == target && !IsSettled(RowOf(w, k)) && !Has(RowOf(w, k), Applied))
    && PerformAt(SiteOf(w, target), NO_FAULTS).Done?
  }

  /** What a later row records: that nothing is left, or the default where severities cannot be read. */
  function LaterSeverities(unread: bool): seq<string> {
    if unread then DEFAULT_PR_SEVERITIES else []
  }

  function LaterSnapshot(first: Performed, unread: bool): Snapshot
    requires first.Done?
  {
    match first.site
    case UserSite(roles) => RolesSnapshot({}, set r | r in roles :: r.name)
    case TriageSite(state, _) => TriageSnapshot(false, state.config)
    case PrSite(_, mirror) => PrSnapshot(if mirror.Some? then mirror.value.repo else "", LaterSeverities(unread))
  }

  function SnapshotIn(first: Performed, bottom: Key, unread: set<Key>, key: Key): Snapshot
    requires first.Done?
  {
    if key == bottom then first.snapshot else LaterSnapshot(first, key in unread)
  }

  /** The first of the stack records the original, every later one the already restricted site. */
  ghost predicate Stacked(w: World, top: World, keys: seq<Key>, target: Target, first: Performed, unread: set<Key>)
    requires first.Done? && keys != []
  {
    && Inv(top)
    && SameInTenant(SiteOf(top, target), first.site) && SameShape(first.site, SiteOf(top, target))
    && (first.site.PrSite? ==> SiteOf(top, target) == first.site)
    && (forall k :: k in keys ==>
          && Has(RowOf(top, k), Applied)
          && SnapshotOf(RowOf(top, k)) == Some(SnapshotIn(first, keys[0], unread, k)))
    && (forall t :: t != target ==> SiteOf(top, t) == SiteOf(w, t))
    && (forall k :: k !in keys ==> RowOf(top, k) == RowOf(w, k))
  }

  lemma {:induction false} StackedSnapshots(w: World, keys: seq<Key>, entity: Entity, target: Target, unread: set<Key>)
    requires ReadyToStack(w, keys, target) && keys != [] && Inv(w)
    ensures FirstOf(w, keys[0], unread).Done?
    ensures Stacked(w, Stack(w, keys, entity, unread), keys, target, FirstOf(w, keys[0], unread), unread)
    decreases |keys|
  {
    var n := |keys| - 1;
    var below := Stack(w, keys[..n], entity, unread);
    assert keys[n] in keys && keys[0] in keys;
    if n == 0 {
      StackOneMore(w, keys[n], entity, Unreadable(keys[n], unread));
      PerformKeepsShape(SiteOf(w, target), Unreadable(keys[0], unread));
      assert forall k :: k in keys <==> k == keys[0];
    } else {
      assert forall k :: k in keys[..n] ==> k in keys;
      StackedSnapshots(w, keys[..n], entity, target, unread);
      StackGrows(w, below, keys, entity, target, unread);
    }
  }

  lemma StackGrows(w: World, below: World, keys: seq<Key>, entity: Entity, target: Target, unread: set<Key>)
    requires ReadyToStack(w, keys, target) && |keys| > 1 && FirstOf(w, keys[0], unread).Done?
    requires Stacked(w, below, keys[..|keys| - 1], target, FirstOf(w, keys[0], unread), unread)
    ensures var top := Attempt(below, keys[|keys| - 1], entity, Unreadable(keys[|keys| - 1], unread)).0;
            Stacked(w, top, keys, target, FirstOf(w, keys[0], unread), unread)
  {
    var n := |keys| - 1;
    var first := FirstOf(w, keys[0], unread);
    assert keys[n] in keys && keys[0] in keys && keys[n] !in keys[..n] && keys == keys[..n] + [keys[n]];
    PerformAgain(SiteOf(w, target), Unreadable(keys[0], unread), SiteOf(below, target), Unreadable(keys[n], unread));
    StackOneMore(below, keys[n], entity, Unreadable(keys[n], unread));
    var top := Attempt(below, keys[n], entity, Unreadable(keys[n], unread)).0;
    forall k | k in keys
      ensures Has(RowOf(top, k), Applied)
      ensures SnapshotOf(RowOf(top, k)) == Some(SnapshotIn(first, keys[0], unread, k))
    {
      assert k in keys[..n] || k == keys[n];
    }
    forall k | k !in keys ensures RowOf(top, k) == RowOf(w, k) {
      assert k !in keys[..n];
    }
  }

  lemma StackOneMore(w: World, key: Key, entity: Entity, f: Faults)
    requires Inv(w) && !IsSettled(RowOf(w, key)) && !Has(RowOf(w, key), Applied)
    requires PerformAt(SiteOf(w, key.target), f).Done?
    ensures var w' := Attempt(w, key, entity, f).0;
            var done := PerformAt(SiteOf(w, key.target), f);
            && Inv(w') && SiteOf(w', key.target) == done.site
            && Has(RowOf(w', key), Applied) && SnapshotOf(RowOf(w', key)) == Some(done.snapshot)
            && (forall t :: t != key.target ==> SiteOf(w', t) == SiteOf(w, t))
            && (forall k :: k != key ==> RowOf(w', k) == RowOf(w, k))
  {
    var w' := Attempt(w, key, entity, f).0;
    AttemptKeepsInv(w, key, entity, f);
    AttemptIsLocal(w, key, entity, f, key);
    assert SiteOf(w', key.target) == CellOf(w', key).site;
    forall t | t != key.target ensures SiteOf(w', t) == SiteOf(w, t) {
      AttemptIsLocal(w, key, entity, f, Key(0, "", t));
      assert CellOf(w', Key(0, "", t)).site == SiteOf(w', t);
    }
    forall k | k != key ensures RowOf(w', k) == RowOf(w, k) {
      AttemptIsLocal(w, key, entity, f, k);
    }
  }

  lemma PerformKeepsShape(site: Site, f: Faults)
    requires PerformAt(site, f).Done?
    ensures SameShape(site, PerformAt(site, f).site)
    ensures SameShape(PerformAt(site, f).site, PerformAt(site, f).site)
    ensures site.PrSite? ==> site.mirror.Some?
  {
  }

  lemma PerformAgain(original: Site, f: Faults, now: Site, g: Faults)
    requires PerformAt(original, f).Done? && !g.write && (g.read ==> original.PrSite?)
    requires SameInTenant(now, PerformAt(original, f).site)
    requires SameShape(PerformAt(original, f).site, now)
    requires original.PrSite? ==> now == PerformAt(original, f).site
    ensures var first := PerformAt(original, f);
            var again := PerformAt(now, g);
            && again.Done? && again.snapshot == LaterSnapshot(first, g.read)
            && SameInTenant(again.site, first.site) && SameShape(first.site, again.site)
            && (original.PrSite? ==> again.site == first.site)
  {
  }

  /** Where a stack stands after some of it has been undone, `last` being undone most recently. */
  predicate Unwound(first: Performed, original: Site, now: Site, firstUndone: bool, last: Option<Snapshot>)
    requires first.Done? && SameShape(original, first.site)
    requires original.PrSite? ==> original.mirror.Some?
  {
    && SameShape(original, now)
    && match original
       case UserSite(roles) =>
         now.roles == first.site.roles + (if firstUndone then AiRoles(roles) else {})
       case TriageSite(state, _) =>
         now.state == if firstUndone then state else first.site.state
       case PrSite(settings, mirror) =>
         now.settings == if last.Some? && last.value.PrSnapshot?
                         then first.site.settings[mirror.value.repo := last.value.severitiesBefore]
                         else first.site.settings
  }

  /** The first of several restrictions, on a target that could be given back exactly. */
  ghost predicate Bottom(first: Performed, original: Site, f: Faults) {
    && first == PerformAt(original, f) && first.Done? && Recoverable(original, f)
    && SameShape(original, first.site) && (original.PrSite? ==> original.mirror.Some?)
  }

  /** The severities of the original are those that a later row records anyway. */
  predicate RecordedAnyway(original: Site, unread: bool) {
    original.PrSite? && original.mirror.Some? && original.mirror.value.repo in original.settings
    && original.settings[original.mirror.value.repo] == LaterSeverities(unread)
  }

  /**
   Overlapping restrictions are confluent.  With no drift and no cycle in between, undoing a stack
   in any order gives a user's roles and a project's auto-triage back.  Severities are overwritten
   by whichever row is undone last, so they come back exactly when that row was the first applied,
   or when it recorded the original anyway: nothing if it could read them, the default if not.
   */
  lemma StackUnwinds(
    w: World, keys: seq<Key>, entity: Entity, target: Target, unread: set<Key>, order: seq<Key>, reason: Reason)
    requires Inv(w) && keys != [] && ReadyToStack(w, keys, target)
    requires Recoverable(SiteOf(w, target), Unreadable(keys[0], unread))
    requires Permutes(order, keys)
    ensures var back := RestoreRows(Stack(w, keys, entity, unread), order, reason, {});
            && !back.aborted && keys[0] in order
            && (forall t :: t != target ==> SiteOf(back.world, t) == SiteOf(w, t))
            && (SameInTenant(SiteOf(back.world, target), SiteOf(w, target)) <==>
                || target.kind != DisablePrRemediation
                || order[|order| - 1] == keys[0]
                || RecordedAnyway(SiteOf(w, target), order[|order| - 1] in unread))
  {
    var site := SiteOf(w, target);
    var f := Unreadable(keys[0], unread);
    var top := Stack(w, keys, entity, unread);
    assert keys[0] in keys && keys[0] in order;
    StackedSnapshots(w, keys, entity, target, unread);
    var first := FirstOf(w, keys[0], unread);
    PerformKeepsShape(site, f);
    WalkCompletes(top, order, reason);
    NothingUndone(first, site, f, SiteOf(top, target));
    Unwinding(top, order, keys[0], first, site, f, target, unread, reason, false, None);
    var back := RestoreRows(top, order, reason, {}).world;
    forall t | t != target ensures SiteOf(back, t) == SiteOf(w, t) {
      WalkElsewhere(top, order, reason, {}, Key(0, "", t));
      assert CellOf(back, Key(0, "", t)).site == SiteOf(back, t);
    }
    FullyUnwound(first, site, f, SiteOf(back, target), order[|order| - 1] == keys[0], order[|order| - 1] in unread);
  }

  lemma NothingUndone(first: Performed, original: Site, f: Faults, now: Site)
    requires Bottom(first, original, f) && SameInTenant(now, first.site) && SameShape(first.site, now)
    ensures Unwound(first, original, now, false, None)
  {
    if original.UserSite? {
      assert first.site.roles + {} == first.site.roles;
    }
  }

  lemma FullyUnwound(
    first: Performed, original: Site, f: Faults, now: Site, endedAtBottom: bool, unread: bool)
    requires Bottom(first, original, f)
    requires var last := if endedAtBottom then first.snapshot else LaterSnapshot(first, unread);
             Unwound(first, original, now, true, Some(last))
    ensures SameInTenant(now, original) <==> !original.PrSite? || endedAtBottom || RecordedAnyway(original, unread)
  {
    match original
    case UserSite(roles) => assert (roles - AiRoles(roles)) + AiRoles(roles) == roles;
    case TriageSite(_, _) =>
    case PrSite(settings, mirror) =>
      var before := if endedAtBottom then first.snapshot.severitiesBefore else LaterSeverities(unread);
      RecordedIsOriginal(first, original, f);
      OverwrittenIsOriginalIff(settings, mirror.value.repo, before);
  }

  /** Where severities are recoverable, the first row recorded exactly the original ones. */
  lemma RecordedIsOriginal(first: Performed, original: Site, f: Faults)
    requires Bottom(first, original, f) && original.PrSite?
    ensures var repo := original.mirror.value.repo;
            && repo in original.settings && first.site.settings == original.settings[repo := []]
            && first.snapshot.severitiesBefore == original.settings[repo]
  {
  }

  lemma OverwrittenIsOriginalIff(settings: map<Id, seq<string>>, repo: Id, before: seq<string>)
    requires repo in settings
    ensures settings[repo := []][repo := before] == settings <==> before == settings[repo]
  {
    assert settings[repo := []][repo := before] == settings[repo := before];
    assert settings[repo := before][repo] == before;
    if before == settings[repo] {
      assert settings[repo := before] == settings;
    }
  }

  /** The walk over a stack, one undo at a time. */
  lemma {:induction false} Unwinding(
    w: World, order: seq<Key>, bottom: Key, first: Performed, original: Site, f: Faults, target: Target,
    unread: set<Key>, reason: Reason, firstUndone: bool, last: Option<Snapshot>)
    requires Distinct(order) && Bottom(first, original, f)
    requires Unwound(first, original, SiteOf(w, target), firstUndone, last)
    requires firstUndone ==> bottom !in order
    requires RowsOfStack(w, order, bottom, first, target, unread)
    ensures var back := RestoreRows(w, order, reason, {}).world;
            var end := if order == [] then last else Some(SnapshotIn(first, bottom, unread, order[|order| - 1]));
            Unwound(first, original, SiteOf(back, target), firstUndone || bottom in order, end)
    decreases |order|
  {
    if order != [] {
      var k := order[0];
      var w1 := RestoreRow(w, k, reason, false).0;
      assert k in order;
      TopComesOff(w, order, bottom, first, target, unread, reason);
      UnwindOne(first, original, f, SiteOf(w, target), firstUndone, last, k == bottom, k in unread);
      Unwinding(w1, order[1..], bottom, first, original, f, target, unread, reason, firstUndone || k == bottom,
        Some(SnapshotIn(first, bottom, unread, k)));
      HeadAndTail(order, bottom);
    }
  }

  lemma HeadAndTail(order: seq<Key>, k: Key)
    requires order != []
    ensures k in order <==> k == order[0] || k in order[1..]
    ensures order[1..] != [] ==> order[1..][|order[1..]| - 1] == order[|order| - 1]
  {
    assert order == [order[0]] + order[1..];
  }

  /** Every row of the stack is applied; the bottom one recorded the original, the others what was left. */
  ghost predicate RowsOfStack(
    w: World, order: seq<Key>, bottom: Key, first: Performed, target: Target, unread: set<Key>)
    requires first.Done?
  {
    forall k :: k in order ==>
      && k.target == target && Has(RowOf(w, k), Applied)
      && SnapshotOf(RowOf(w, k)) == Some(SnapshotIn(first, bottom, unread, k))
  }

  /** Undoing one applied row replays its snapshot on the site and leaves the other rows alone. */
  lemma TopComesOff(
    w: World, order: seq<Key>, bottom: Key, first: Performed, target: Target, unread: set<Key>, reason: Reason)
    requires order != [] && Distinct(order) && first.Done? && RowsOfStack(w, order, bottom, first, target, unread)
    ensures var w1 := RestoreRow(w, order[0], reason, false).0;
            var next := UndoAt(SiteOf(w, target), SnapshotOf(RowOf(w, order[0])), false);
            && (next.Some? ==> SiteOf(w1, target) == next.value)
            && RowsOfStack(w1, order[1..], bottom, first, target, unread) && order[0] !in order[1..]
  {
    assert order[0] in order;
    var k := order[0];
    var w1 := RestoreRow(w, k, reason, false).0;
    RestoreIsLocal(w, k, reason, false, k);
    assert SiteOf(w1, target) == CellOf(w1, k).site;
    forall o | o in order[1..] ensures RowOf(w1, o) == RowOf(w, o) && o in order && o != k {
      RestoreIsLocal(w, k, reason, false, o);
    }
  }

  lemma UnwindOne(
    first: Performed, original: Site, f: Faults, now: Site, firstUndone: bool, last: Option<Snapshot>,
    isBottom: bool, unread: bool)
    requires Bottom(first, original, f)
    requires Unwound(first, original, now, firstUndone, last) && !(firstUndone && isBottom)
    ensures var snapshot := Some(if isBottom then first.snapshot else LaterSnapshot(first, unread));
            var next := UndoAt(now, snapshot, false);
            next.Some? && Unwound(first, original, next.value, firstUndone || isBottom, snapshot)
  {
    match original
    case UserSite(roles) =>
      var snapshot := Some(if isBottom then first.snapshot else LaterSnapshot(first, unread));
      assert RolesToGiveBack(snapshot) == if isBottom then AiRoles(roles) else {};
    case TriageSite(_, _) =>
    case PrSite(_, _) =>
  }

  // ------------------------------------------- where undoing overlaps with a later cycle

  /** A cycle of the limit that is left: it plans the target, and can write it. */
  datatype Cycled = Cycled(entity: Entity, targets: seq<Target>, faults: FaultPlan)

  ghost predicate Covers(c: Cycled, key: Key) {
    && Distinct(c.targets) && key.target in c.targets && key.target !in c.faults.unwritable
    && (key.target.kind != DisablePrRemediation ==> key.target !in c.faults.unreadable)
  }

  /** Undo one of two rows, let the other's limit go through a whole cycle, undo the other. */
  function UndoCycleUndo(w: World, undone: Key, left: Key, c: Cycled, reason: Reason): World {
    var w3 := RestoreRow(w, undone, reason, false).0;
    var w4 := ApplyTargets(w3, left.limitId, c.entity, left.period, c.targets, c.faults).0;
    RestoreRow(w4, left, reason, false).0
  }

  /** Those three steps at the one target both rows are about. */
  lemma UndoCycleUndoAt(w: World, undone: Key, left: Key, c: Cycled, reason: Reason)
    requires undone != left && undone.target == left.target && Covers(c, left)
    requires Has(RowOf(w, undone), Applied) && Has(RowOf(w, left), Applied)
    requires UndoAt(SiteOf(w, left.target), SnapshotOf(RowOf(w, undone)), false).Some?
    ensures var w5 := UndoCycleUndo(w, undone, left, c, reason);
            var snapshot := SnapshotOf(RowOf(w, left));
            var site := UndoAt(SiteOf(w, left.target), SnapshotOf(RowOf(w, undone)), false).value;
            var check := ReconcileAt(site, snapshot, c.faults.At(left.target));
            var end := UndoAt(if check.Reasserted? then check.site else site, snapshot, false);
            end.Some? ==>
              && Has(RowOf(w5, undone), Reversed) && Has(RowOf(w5, left), Reversed)
              && SiteOf(w5, left.target) == end.value
  {
    RestoreIsLocal(w, undone, reason, false, undone);
    RestoreIsLocal(w, undone, reason, false, left);
    var w3 := RestoreRow(w, undone, reason, false).0;
    var i :| 0 <= i < |c.targets| && c.targets[i] == left.target;
    assert Key(left.limitId, left.period, c.targets[i]) == left;
    CycleAt(w3, left.limitId, c.entity, left.period, c.targets, c.faults, i);
    CycleElsewhere(w3, left.limitId, c.entity, left.period, c.targets, c.faults, undone);
    var w4 := ApplyTargets(w3, left.limitId, c.entity, left.period, c.targets, c.faults).0;
    RestoreIsLocal(w4, left, reason, false, left);
    RestoreIsLocal(w4, left, reason, false, undone);
    var w5 := RestoreRow(w4, left, reason, false).0;
    assert SiteOf(w3, left.target) == CellOf(w3, undone).site && SiteOf(w4, left.target) == CellOf(w4, left).site;
    assert SiteOf(w5, left.target) == CellOf(w5, left).site;
  }

  /** Two overlapping restrictions: both rows applied, the first with the original, nothing undone. */
  lemma OverlapStarts(w: World, k1: Key, k2: Key, entity: Entity, unread: set<Key>)
    requires Inv(w) && k1 != k2 && ReadyToStack(w, [k1, k2], k1.target)
    requires Recoverable(SiteOf(w, k1.target), Unreadable(k1, unread))
    ensures var site := SiteOf(w, k1.target);
            var first := FirstOf(w, k1, unread);
            var w2 := Stack(w, [k1, k2], entity, unread);
            && Bottom(first, site, Unreadable(k1, unread))
            && k2.target == k1.target && Has(RowOf(w2, k1), Applied) && Has(RowOf(w2, k2), Applied)
            && SnapshotOf(RowOf(w2, k1)) == Some(first.snapshot)
            && SnapshotOf(RowOf(w2, k2)) == Some(LaterSnapshot(first, k2 in unread))
            && Unwound(first, site, SiteOf(w2, k1.target), false, None)
  {
    var site := SiteOf(w, k1.target);
    var f := Unreadable(k1, unread);
    var rows := [k1, k2];
    assert rows[0] in rows && rows[1] in rows;
    StackedSnapshots(w, rows, entity, k1.target, unread);
    PerformKeepsShape(site, f);
    var w2 := Stack(w, rows, entity, unread);
    assert Has(RowOf(w2, rows[0]), Applied) && Has(RowOf(w2, rows[1]), Applied);
    NothingUndone(FirstOf(w, k1, unread), site, f, SiteOf(w2, k1.target));
  }

  /** Undoing the earlier row lifts the target for both, although the later row still reads applied. */
  lemma LiftedForBoth(w: World, k1: Key, k2: Key, entity: Entity, unread: set<Key>, reason: Reason)
    requires Inv(w) && k1 != k2 && ReadyToStack(w, [k1, k2], k1.target)
    requires Recoverable(SiteOf(w, k1.target), Unreadable(k1, unread))
    ensures var w3 := RestoreRow(Stack(w, [k1, k2], entity, unread), k1, reason, false).0;
            && Has(RowOf(w3, k1), Reversed) && Has(RowOf(w3, k2), Applied)
            && SameInTenant(SiteOf(w3, k1.target), SiteOf(w, k1.target))
  {
    var site, f := SiteOf(w, k1.target), Unreadable(k1, unread);
    var first := FirstOf(w, k1, unread);
    var w2 := Stack(w, [k1, k2], entity, unread);
    OverlapStarts(w, k1, k2, entity, unread);
    UnwindOne(first, site, f, SiteOf(w2, k1.target), false, None, true, false);
    RestoreIsLocal(w2, k1, reason, false, k1);
    RestoreIsLocal(w2, k1, reason, false, k2);
    var w3 := RestoreRow(w2, k1, reason, false).0;
    assert SiteOf(w3, k1.target) == CellOf(w3, k1).site;
    FullyUnwound(first, site, f, SiteOf(w3, k1.target), true, false);
  }

  /** The target as the later row leaves it when it is undone last, after a cycle. */
  function LeftBehind(first: Performed, unread: bool): Site
    requires first.Done?
  {
    match first.site
    case PrSite(settings, mirror) =>
      if mirror.None? then first.site
      else PrSite(settings[mirror.value.repo := LaterSeverities(unread)], mirror)
    case _ => first.site
  }

  /**
   Two limits restrict one target.  The first is undone, the second goes through a cycle, and the
   second is undone: with nothing left to undo, the target stays restricted, except that severities
   which the second row could not read end up at the default, whatever they were.
   */
  lemma OverlapLosesAccess(
    w: World, k1: Key, k2: Key, entity: Entity, unread: set<Key>, c: Cycled, reason: Reason)
    requires Inv(w) && k1 != k2 && ReadyToStack(w, [k1, k2], k1.target) && Covers(c, k2)
    requires Recoverable(SiteOf(w, k1.target), Unreadable(k1, unread))
    ensures var first := FirstOf(w, k1, unread);
            var w2 := Stack(w, [k1, k2], entity, unread);
            var w5 := UndoCycleUndo(w2, k1, k2, c, reason);
            && first.Done? && Has(RowOf(w5, k1), Reversed) && Has(RowOf(w5, k2), Reversed)
            && SameInTenant(SiteOf(w5, k1.target), LeftBehind(first, k2 in unread))
            && (Restricted(SiteOf(w5, k1.target), SnapshotOf(RowOf(w2, k1))) <==>
                k1.target.kind != DisablePrRemediation || k2 !in unread)
  {
    var site := SiteOf(w, k1.target);
    var f := Unreadable(k1, unread);
    var first := FirstOf(w, k1, unread);
    var w2 := Stack(w, [k1, k2], entity, unread);
    OverlapStarts(w, k1, k2, entity, unread);
    UnwindOne(first, site, f, SiteOf(w2, k1.target), false, None, true, false);
    var s3 := UndoAt(SiteOf(w2, k1.target), Some(first.snapshot), false).value;
    ReassertAfterUndo(first, site, f, s3, k2 in unread, c.faults.At(k1.target));
    UndoCycleUndoAt(w2, k1, k2, c, reason);
  }

  /** Re-asserting a restriction from the second snapshot, then undoing that snapshot. */
  lemma ReassertAfterUndo(first: Performed, original: Site, f: Faults, undone: Site, unread: bool, g: Faults)
    requires Bottom(first, original, f) && !g.write && (g.read ==> original.PrSite?)
    requires Unwound(first, original, undone, true, Some(first.snapshot))
    ensures var snapshot := Some(LaterSnapshot(first, unread));
            var check := ReconcileAt(undone, snapshot, g);
            var site := if check.Reasserted? then check.site else undone;
            var end := UndoAt(site, snapshot, false);
            && !check.Unverified? && end.Some?
            && SameInTenant(end.value, LeftBehind(first, unread))
            && (Restricted(end.value, Some(first.snapshot)) <==> !original.PrSite? || !unread)
  {
    match original
    case UserSite(roles) =>
      assert undone.roles == roles by { assert (roles - AiRoles(roles)) + AiRoles(roles) == roles; }
      assert RolesToGiveBack(Some(LaterSnapshot(first, unread))) == {};
    case TriageSite(_, _) =>
    case PrSite(settings, mirror) =>
      var repo := mirror.value.repo;
      RecordedIsOriginal(first, original, f);
      assert undone.settings == settings[repo := []][repo := settings[repo]];
      OverwrittenTwice(settings, repo, settings[repo], LaterSeverities(unread));
      assert "" !in DEFAULT_PR_SEVERITIES && NonEmptyEntries(DEFAULT_PR_SEVERITIES) == DEFAULT_PR_SEVERITIES;
  }

  lemma OverwrittenTwice(settings: map<Id, seq<string>>, repo: Id, was: seq<string>, now: seq<string>)
    ensures settings[repo := []][repo := was][repo := now] == settings[repo := []][repo := now]
    ensures settings[repo := []][repo := was][repo := []][repo := now] == settings[repo := []][repo := now]
  {
  }

  /** The other order: undo the later restriction, go through a cycle of the first, undo the first. */
  lemma OverlapKeepsAccess(
    w: World, k1: Key, k2: Key, entity: Entity, unread: set<Key>, c: Cycled, reason: Reason)
    requires Inv(w) && k1 != k2 && ReadyToStack(w, [k1, k2], k1.target) && Covers(c, k1)
    requires Recoverable(SiteOf(w, k1.target), Unreadable(k1, unread))
    ensures var w5 := UndoCycleUndo(Stack(w, [k1, k2], entity, unread), k2, k1, c, reason);
            && Has(RowOf(w5, k1), Reversed) && Has(RowOf(w5, k2), Reversed)
            && SameInTenant(SiteOf(w5, k1.target), SiteOf(w, k1.target))
  {
    var site := SiteOf(w, k1.target);
    var f := Unreadable(k1, unread);
    var first := FirstOf(w, k1, unread);
    var w2 := Stack(w, [k1, k2], entity, unread);
    OverlapStarts(w, k1, k2, entity, unread);
    UnwindOne(first, site, f, SiteOf(w2, k1.target), false, None, false, k2 in unread);
    var later := Some(LaterSnapshot(first, k2 in unread));
    var s3 := UndoAt(SiteOf(w2, k1.target), later, false).value;
    VerifyThenUndo(first, site, f, s3, k2 in unread, c.faults.At(k1.target));
    UndoCycleUndoAt(w2, k2, k1, c, reason);
  }

  /** However the cycle finds the target after the later row is undone, the first snapshot gives everything back. */
  lemma VerifyThenUndo(first: Performed, original: Site, f: Faults, now: Site, unread: bool, g: Faults)
    requires Bottom(first, original, f) && !g.write && (g.read ==> original.PrSite?)
    requires Unwound(first, original, now, false, Some(LaterSnapshot(first, unread)))
    ensures var check := ReconcileAt(now, Some(first.snapshot), g);
            var site := if check.Reasserted? then check.site else now;
            var end := UndoAt(site, Some(first.snapshot), false);
            !check.Unverified? && end.Some? && SameInTenant(end.value, original)
  {
    var check := ReconcileAt(now, Some(first.snapshot), g);
    var site := if check.Reasserted? then check.site else now;
    match original
    case PrSite(settings, mirror) =>
      var repo := mirror.value.repo;
      RecordedIsOriginal(first, original, f);
      OverwrittenTwice(settings, repo, LaterSeverities(unread), settings[repo]);
      OverwrittenIsOriginalIff(settings, repo, settings[repo]);
    case _ =>
      UnwindOne(first, original, f, now, false, Some(LaterSnapshot(first, unread)), true, false);
      FullyUnwound(first, original, f, UndoAt(now, Some(first.snapshot), false).value, true, unread);
  }

  /**
   With a cycle in between, two overlapping restrictions unwind to the original exactly when the
   later one is undone first, or when the original is what the later one leaves behind anyway: the
   restricted target, or the default where severities could not be read.
   */
  lemma OverlapUnwindsIff(
    w: World, k1: Key, k2: Key, entity: Entity, unread: set<Key>, c: Cycled, reason: Reason, undone: Key)
    requires Inv(w) && k1 != k2 && ReadyToStack(w, [k1, k2], k1.target) && (undone == k1 || undone == k2)
    requires Recoverable(SiteOf(w, k1.target), Unreadable(k1, unread))
    requires Covers(c, if undone == k1 then k2 else k1)
    ensures var left := if undone == k1 then k2 else k1;
            var site := SiteOf(w, k1.target);
            var first := FirstOf(w, k1, unread);
            var w5 := UndoCycleUndo(Stack(w, [k1, k2], entity, unread), undone, left, c, reason);
            && first.Done? && Has(RowOf(w5, k1), Reversed) && Has(RowOf(w5, k2), Reversed)
            && (SameInTenant(SiteOf(w5, k1.target), site) <==>
                undone == k2 || SameInTenant(LeftBehind(first, k2 in unread), site))
  {
    OverlapStarts(w, k1, k2, entity, unread);
    if undone == k1 {
      OverlapLosesAccess(w, k1, k2, entity, unread, c, reason);
    } else {
      OverlapKeepsAccess(w, k1, k2, entity, unread, c, reason);
    }
  }
}
