/** Pruning old enforcement rows, notifications and closed periods. */
module Retention {
  import opened Options
  import opened Tenancy
  import opened Entities
  import opened Enforcement
  import opened EnforcementLaws
  import opened Enforcer
  import opened Periods
  import opened Evaluation
  import opened EvaluationLaws
  import opened RolloverLaws

  const MINIMUM_DAYS := 7

  datatype Notification = Notification(createdAt: Moment, action: Option<Key>)

  function EffectiveDays(days: int): int {
    if days < MINIMUM_DAYS then MINIMUM_DAYS else days
  }

  /** A reversed or failed row from before the cutoff. */
  predicate Prunable(row: Row, createdAt: Moment, cutoff: Moment) {
    createdAt.Before(cutoff) && (row.status == Reversed || row.status == Failed)
  }

  function PrunedKeys(actions: map<Key, Row>, created: map<Key, Moment>, cutoff: Moment): set<Key>
    requires actions.Keys <= created.Keys
  {
    set k | k in actions && Prunable(actions[k], created[k], cutoff)
  }

  /** The notification of a restriction still in force is kept, however old. */
  predicate KeepsNotification(n: Notification, actions: map<Key, Row>, cutoff: Moment) {
    || !n.createdAt.Before(cutoff)
    || (n.action.Some? && n.action.value in actions && actions[n.action.value].status == Applied)
  }

  function KeptNotifications(
    notes: map<nat, Notification>, actions: map<Key, Row>, cutoff: Moment): map<nat, Notification> {
    map n | n in notes && KeepsNotification(notes[n], actions, cutoff) :: notes[n]
  }

  /** Deleting a row clears the reference from its notifications. */
  function Detached(n: Notification, gone: set<Key>): Notification {
    if n.action.Some? && n.action.value in gone then n.(action := None) else n
  }

  /** Every period state whose end lies before the cutoff, in whatever status. */
  function PrunedPeriods(ledger: map<StateKey, PeriodState>, cutoff: Moment): set<StateKey> {
    set k | k in ledger && ledger[k].end.Some? && ledger[k].end.value.Before(cutoff)
  }

  class PolicyStore {
    var actions: map<Key, Row>
    var created: map<Key, Moment>
    var notes: map<nat, Notification>
    var ledger: map<StateKey, PeriodState>

    constructor ()
      ensures Valid() && actions == map[] && notes == map[] && ledger == map[]
    {
      actions, created, notes, ledger := map[], map[], map[], map[];
    }

    /** Every row has its time, and no notification refers to a missing row. */
    ghost predicate Valid()
      reads this
    {
      && actions.Keys == created.Keys
      && forall n :: n in notes && notes[n].action.Some? ==> notes[n].action.value in actions
    }

    /** Notifications go first, then rows, then periods. `back` subtracts days from a moment. */
    method Prune(days: int, now: Moment, back: (Moment, int) -> Moment)
      requires Valid()
      modifies this
      ensures Valid()
      ensures var cutoff := back(now, EffectiveDays(days));
              var gone := PrunedKeys(old(actions), old(created), cutoff);
              && actions == old(actions) - gone && created == old(created) - gone
              && ledger == old(ledger) - PrunedPeriods(old(ledger), cutoff)
              && notes.Keys == KeptNotifications(old(notes), old(actions), cutoff).Keys
              && forall n :: n in notes ==> notes[n] == Detached(old(notes)[n], gone)
      // what stays, row by row
      ensures var cutoff := back(now, if days < 7 then 7 else days);
              && (forall k :: k in actions <==>
                    && k in old(actions)
                    && !(old(created)[k].Before(cutoff)
                         && (old(actions)[k].status == Reversed || old(actions)[k].status == Failed)))
              && (forall k :: k in actions ==> actions[k] == old(actions)[k])
              && (forall k :: k in ledger <==>
                    k in old(ledger) && !(old(ledger)[k].end.Some? && old(ledger)[k].end.value.Before(cutoff)))
              && (forall k :: k in ledger ==> ledger[k] == old(ledger)[k])
              && (forall n :: n in notes <==>
                    && n in old(notes)
                    && (old(notes)[n].createdAt.Before(cutoff) ==>
                          && old(notes)[n].action.Some? && old(notes)[n].action.value in old(actions)
                          && old(actions)[old(notes)[n].action.value].status == Applied))
    {
      var effective := if days < MINIMUM_DAYS then MINIMUM_DAYS else days;
      var cutoff := back(now, effective);
      notes := KeptNotifications(notes, actions, cutoff);
      var gone := PrunedKeys(actions, created, cutoff);
      actions := actions - gone;
      created := created - gone;
      notes := map n | n in notes :: Detached(notes[n], gone);
      ledger := ledger - PrunedPeriods(ledger, cutoff);
    }
  }

  // ----------------------------------------------------------------- restrictions survive

  function PrunedWorld(w: World, gone: set<Key>): World {
    w.(actions := w.actions - gone)
  }

  /** Whatever is in force keeps its row, its snapshot, and the notification that can lift it. */
  lemma RestrictionsSurvive(
    actions: map<Key, Row>, created: map<Key, Moment>, notes: map<nat, Notification>, cutoff: Moment, key: Key, n: nat)
    requires actions.Keys <= created.Keys && key in actions
    ensures var gone := PrunedKeys(actions, created, cutoff);
            && (actions[key].status == Applied ==> key in actions - gone && (actions - gone)[key] == actions[key])
            && (actions[key].status == Applied && n in notes && notes[n].action == Some(key) ==>
                  n in KeptNotifications(notes, actions, cutoff) && Detached(notes[n], gone) == notes[n])
    ensures AppliedRowsOf(actions - PrunedKeys(actions, created, cutoff), key.limitId, None)
            == AppliedRowsOf(actions, key.limitId, None)
  {
  }

  lemma PrunedCell(w: World, gone: set<Key>, key: Key)
    ensures SiteOf(PrunedWorld(w, gone), key.target) == SiteOf(w, key.target)
    ensures key !in gone ==> CellOf(PrunedWorld(w, gone), key) == CellOf(w, key)
    ensures key in gone ==> RowOf(PrunedWorld(w, gone), key) == None
  {
  }

  lemma RestoreRowCommutes(w: World, gone: set<Key>, key: Key, reason: Reason, writeFails: bool)
    requires key !in gone
    ensures var (a, r) := RestoreRow(w, key, reason, writeFails);
            RestoreRow(PrunedWorld(w, gone), key, reason, writeFails) == (PrunedWorld(a, gone), r)
  {
    PrunedCell(w, gone, key);
    var c := CellOf(w, key);
    var r := RestoreAt(c, reason, writeFails);
    StepsKeepShape(c, FreshRow(key.limitId, Entity(User, "")), reason, Faults(false, writeFails));
    if r.Restored? {
      RowsAndSitesCommute(w, key.target, r.cell.site, w.actions - gone);
      assert w.actions[key := r.cell.row.value] - gone == (w.actions - gone)[key := r.cell.row.value];
    }
  }

  /** Giving access back after a prune does to the tenant, and to every kept row, what it would have done before. */
  lemma {:induction false} PruningCommutesWithUndo(
    w: World, gone: set<Key>, keys: seq<Key>, reason: Reason, writes: set<Target>)
    requires forall k :: k in keys ==> k !in gone
    ensures var r := RestoreRows(w, keys, reason, writes);
            RestoreRows(PrunedWorld(w, gone), keys, reason, writes) == r.(world := PrunedWorld(r.world, gone))
    decreases |keys|
  {
    if keys != [] {
      assert keys[0] in keys && forall k :: k in keys[1..] ==> k in keys;
      var writeFails := keys[0].target in writes;
      RestoreRowCommutes(w, gone, keys[0], reason, writeFails);
      PruningCommutesWithUndo(RestoreRow(w, keys[0], reason, writeFails).0, gone, keys[1..], reason, writes);
    }
  }

  // ------------------------------------------------------------- what pruning forgets

  /**
   A pruned row is invisible to the next cycle that plans its target exactly when it did not record a
   decision to respect: failed rows and exempted ones are tried again anyway, but a restriction an
   administrator lifted is put back.
   */
  lemma PruningIsInvisibleIff(
    w: World, created: map<Key, Moment>, cutoff: Moment, key: Key, entity: Entity, targets: seq<Target>,
    faults: FaultPlan, i: nat)
    requires w.actions.Keys <= created.Keys && key in PrunedKeys(w.actions, created, cutoff)
    requires Distinct(targets) && i < |targets| && targets[i] == key.target
    ensures var pruned := PrunedWorld(w, PrunedKeys(w.actions, created, cutoff));
            var (kept, vs) := ApplyTargets(w, key.limitId, entity, key.period, targets, faults);
            var (cut, us) := ApplyTargets(pruned, key.limitId, entity, key.period, targets, faults);
            && (vs[i] == us[i] <==> !IsSettled(RowOf(w, key)))
            && (vs[i] == us[i] ==> SiteOf(kept, key.target) == SiteOf(cut, key.target))
            && (vs[i] != us[i] ==> SiteOf(kept, key.target) == SiteOf(w, key.target))
            && (vs[i] != us[i] && PerformAt(SiteOf(w, key.target), faults.At(key.target)).Done? ==>
                  Restricted(SiteOf(cut, key.target), SnapshotOf(RowOf(cut, key))))
  {
    var pruned := PrunedWorld(w, PrunedKeys(w.actions, created, cutoff));
    PrunedCell(w, PrunedKeys(w.actions, created, cutoff), key);
    assert Key(key.limitId, key.period, targets[i]) == key;
    CycleAt(w, key.limitId, entity, key.period, targets, faults, i);
    CycleAt(pruned, key.limitId, entity, key.period, targets, faults, i);
    CellsAreTheirParts(ApplyTargets(w, key.limitId, entity, key.period, targets, faults).0, key);
    CellsAreTheirParts(ApplyTargets(pruned, key.limitId, entity, key.period, targets, faults).0, key);
  }

  lemma CellsAreTheirParts(w: World, key: Key)
    ensures CellOf(w, key).row == RowOf(w, key) && CellOf(w, key).site == SiteOf(w, key.target)
  {
  }

  /** A period that is still open, or that never ends, keeps its state. */
  lemma OpenPeriodsAreKept(ledger: map<StateKey, PeriodState>, cutoff: Moment, now: Moment, key: StateKey)
    requires key in ledger && !now.Before(cutoff)
    requires ledger[key].end.None? || now.Before(ledger[key].end.value)
    ensures key !in PrunedPeriods(ledger, cutoff)
  {
  }

  /**
   The next evaluation treats a restriction of an expired period as it would have without the prune
   exactly when it would not have lifted it, or the period ended too recently to be pruned.
   */
  lemma PruningHidesTheRolloverIff(
    s: System, cutoff: Moment, orders: Orders, limit: Limit, window: PeriodWindow, reading: Reading, weather: Weather,
    now: Moment, key: Key)
    requires Inv(s.world) && GoodOrders(orders) && weather.undoFaults == {}
    requires HeldBy(s.world, limit.id, key) && key.period != window.key
    ensures var sk := StateKey(limit.id, key.period);
            var pruned := s.(ledger := s.ledger - PrunedPeriods(s.ledger, cutoff));
            var kept := EvaluateOne(s, orders, limit, window, reading, weather, now).system;
            var cut := EvaluateOne(pruned, orders, limit, window, reading, weather, now).system;
            (HeldBy(cut.world, limit.id, key) <==> HeldBy(kept.world, limit.id, key)) <==>
            !(weather.connected && sk in s.ledger && s.ledger[sk].status == LimitRestricted && !limit.hold
              && s.ledger[sk].end.Some? && s.ledger[sk].end.value.Before(cutoff))
  {
    var pruned := s.(ledger := s.ledger - PrunedPeriods(s.ledger, cutoff));
    RolloverLiftsIff(s, orders, limit, window, reading, weather, now, key);
    RolloverLiftsIff(pruned, orders, limit, window, reading, weather, now, key);
  }

  /**
   A restriction held past the end of its period, and then pruned away from the ledger, is never
   lifted by any run of later evaluations, even once it is no longer to be held.
   */
  lemma PrunedHoldsAreForever(s: System, cutoff: Moment, orders: Orders, turns: seq<Turn>, key: Key)
    requires Inv(s.world) && GoodOrders(orders) && HeldBy(s.world, key.limitId, key)
    requires StateKey(key.limitId, key.period) in PrunedPeriods(s.ledger, cutoff)
    requires forall t :: t in turns && t.limit.id == key.limitId ==> t.window.key != key.period
    ensures var pruned := s.(ledger := s.ledger - PrunedPeriods(s.ledger, cutoff));
            Has(RowOf(Turns(pruned, orders, turns).world, key), Applied)
  {
    NeverLiftedAgain(s.(ledger := s.ledger - PrunedPeriods(s.ledger, cutoff)), orders, turns, key);
  }
}
