/** Pruning old usage snapshots without changing what the limits are evaluated against. */
module SnapshotRetention {
  import opened Options
  import opened Periods
  import Ingestion

  type SnapshotId = nat

  type View = string

  const KEEP_RECENT := 200

  datatype UsageSnapshot = UsageSnapshot(view: View, collectedAt: Moment)

  type Snapshots = map<SnapshotId, UsageSnapshot>

  datatype StoredRecord = StoredRecord(snapshot: SnapshotId, record: Ingestion.Record)

  /** The store's listing by collection time, newest first; ties come in any order. */
  ghost predicate NewestFirst(order: seq<SnapshotId>, snapshots: Snapshots) {
    && (forall i, j :: 0 <= i < j < |order| ==> order[i] != order[j])
    && (forall id :: id in order <==> id in snapshots)
    && (forall i, j :: 0 <= i < j < |order| ==>
          !snapshots[order[i]].collectedAt.Before(snapshots[order[j]].collectedAt))
  }

  /** The first `n` snapshots of a view in the listing. */
  function Recent(order: seq<SnapshotId>, snapshots: Snapshots, view: View, n: nat): set<SnapshotId> {
    if order == [] || n == 0 then {}
    else if order[0] in snapshots && snapshots[order[0]].view == view
    then {order[0]} + Recent(order[1..], snapshots, view, n - 1)
    else Recent(order[1..], snapshots, view, n)
  }

  ghost predicate Kept(id: SnapshotId, order: seq<SnapshotId>, snapshots: Snapshots, cutoff: Moment) {
    id in snapshots &&
    (!snapshots[id].collectedAt.Before(cutoff) || id in Recent(order, snapshots, snapshots[id].view, KEEP_RECENT))
  }

  ghost function Survivors(order: seq<SnapshotId>, snapshots: Snapshots, cutoff: Moment): Snapshots {
    map id | id in snapshots && Kept(id, order, snapshots, cutoff) :: snapshots[id]
  }

  function RecordsOfAny(records: seq<StoredRecord>, ids: set<SnapshotId>): seq<StoredRecord> {
    if records == [] then []
    else
      var n := |records| - 1;
      RecordsOfAny(records[..n], ids) + if records[n].snapshot in ids then [records[n]] else []
  }

  function RecordsOf(records: seq<StoredRecord>, id: SnapshotId): seq<Ingestion.Record> {
    if records == [] then []
    else
      var n := |records| - 1;
      RecordsOf(records[..n], id) + if records[n].snapshot == id then [records[n].record] else []
  }

  class UsageHistory {
    var snapshots: Snapshots
    var records: seq<StoredRecord>

    constructor ()
      ensures Valid() && snapshots == map[] && records == []
    {
      snapshots, records := map[], [];
    }

    /** Every record belongs to a stored snapshot. */
    ghost predicate Valid()
      reads this
    {
      forall i :: 0 <= i < |records| ==> records[i].snapshot in snapshots
    }

    /** Drops the snapshots before the cutoff with their records, but never a recent tail of any view. */
    method PruneSnapshots(order: seq<SnapshotId>, cutoff: Moment) returns (dropped: nat, droppedRecords: nat)
      requires Valid() && NewestFirst(order, snapshots)
      modifies this
      ensures Valid()
      ensures snapshots == Survivors(order, old(snapshots), cutoff)
      ensures records == RecordsOfAny(old(records), snapshots.Keys)
      ensures |snapshots| + dropped == |old(snapshots)| && |records| + droppedRecords == |old(records)|
    {
      var keep := KeepIds(order);
      var doomed := set id | id in snapshots && snapshots[id].collectedAt.Before(cutoff) && id !in keep;
      dropped := |doomed|;
      SizeWithout(snapshots, doomed);
      DoomedAreTheRest(order, snapshots, cutoff, keep);
      snapshots := snapshots - doomed;
      var before := |records|;
      records := DropRecords(records, snapshots.Keys);
      droppedRecords := before - |records|;
    }

    /** The newest ids of every view. */
    method KeepIds(order: seq<SnapshotId>) returns (keep: set<SnapshotId>)
      requires NewestFirst(order, snapshots)
      ensures forall id :: id in snapshots ==>
                (id in keep <==> id in Recent(order, snapshots, snapshots[id].view, KEEP_RECENT))
    {
      keep := {};
      var views := set id | id in snapshots :: snapshots[id].view;
      var left := views;
      while left != {}
        invariant left <= views
        invariant forall id :: id in keep ==> id in snapshots && snapshots[id].view !in left
        invariant forall id :: id in snapshots && snapshots[id].view !in left ==>
                    (id in keep <==> id in Recent(order, snapshots, snapshots[id].view, KEEP_RECENT))
        decreases left
      {
        var view :| view in left;
        RecentIsOfView(order, snapshots, view, KEEP_RECENT);
        keep := keep + Recent(order, snapshots, view, KEEP_RECENT);
        left := left - {view};
      }
    }

    method DropRecords(all: seq<StoredRecord>, ids: set<SnapshotId>) returns (kept: seq<StoredRecord>)
      ensures kept == RecordsOfAny(all, ids) && |kept| <= |all|
      ensures forall i :: 0 <= i < |kept| ==> kept[i].snapshot in ids
    {
      kept := [];
      var i := 0;
      while i < |all|
        invariant 0 <= i <= |all| && kept == RecordsOfAny(all[..i], ids) && |kept| <= i
        invariant forall j :: 0 <= j < |kept| ==> kept[j].snapshot in ids
      {
        assert all[..i + 1][..i] == all[..i];
        if all[i].snapshot in ids {
          kept := kept + [all[i]];
        }
        i := i + 1;
      }
      assert all[..i] == all;
    }
  }

  lemma DoomedAreTheRest(order: seq<SnapshotId>, snapshots: Snapshots, cutoff: Moment, keep: set<SnapshotId>)
    requires forall id :: id in snapshots ==>
               (id in keep <==> id in Recent(order, snapshots, snapshots[id].view, KEEP_RECENT))
    ensures snapshots - (set id | id in snapshots && snapshots[id].collectedAt.Before(cutoff) && id !in keep)
            == Survivors(order, snapshots, cutoff)
  {
  }

  lemma SizeWithout(m: Snapshots, ids: set<SnapshotId>)
    requires ids <= m.Keys
    ensures |m - ids| + |ids| == |m|
  {
    assert (m - ids).Keys == m.Keys - ids;
    assert |m.Keys| == |m| && |(m - ids).Keys| == |m - ids|;
  }

  lemma {:induction false} RecentIsOfView(order: seq<SnapshotId>, snapshots: Snapshots, view: View, n: nat)
    ensures forall id :: id in Recent(order, snapshots, view, n) ==>
        id in order && id in snapshots && snapshots[id].view == view
    decreases |order|
  {
    if order != [] && n > 0 {
      RecentIsOfView(order[1..], snapshots, view, n - 1);
      RecentIsOfView(order[1..], snapshots, view, n);
    }
  }

  // ------------------------------------------------------------ what accounting sees

  /** The snapshot a view's totals are read from: the newest, by identifier among equals. */
  ghost predicate IsLatest(snapshots: Snapshots, view: View, id: SnapshotId) {
    && id in snapshots && snapshots[id].view == view
    && forall o :: o in snapshots && snapshots[o].view == view && o != id ==>
         && !snapshots[id].collectedAt.Before(snapshots[o].collectedAt)
         && (snapshots[o].collectedAt == snapshots[id].collectedAt ==> o < id)
  }

  /** No other snapshot of the view was collected at the same moment. */
  ghost predicate AloneInTime(snapshots: Snapshots, id: SnapshotId) {
    id in snapshots && forall o :: o in snapshots && o != id && snapshots[o].view == snapshots[id].view ==>
      snapshots[o].collectedAt != snapshots[id].collectedAt
  }

  lemma {:induction false} FirstOfViewIsRecent(order: seq<SnapshotId>, snapshots: Snapshots, view: View, n: nat, i: nat)
    requires i < |order| && n > 0 && order[i] in snapshots && snapshots[order[i]].view == view
    requires forall j :: 0 <= j < i ==> !(order[j] in snapshots && snapshots[order[j]].view == view)
    ensures order[i] in Recent(order, snapshots, view, n)
    decreases i
  {
    if i > 0 {
      assert order[1..][i - 1] == order[i];
      FirstOfViewIsRecent(order[1..], snapshots, view, n, i - 1);
    }
  }

  lemma MomentsAreOrdered(a: Moment, b: Moment)
    ensures a.Before(b) || b.Before(a) || a == b
  {
  }

  lemma LatestIsKept(order: seq<SnapshotId>, snapshots: Snapshots, cutoff: Moment, view: View, id: SnapshotId)
    requires NewestFirst(order, snapshots) && IsLatest(snapshots, view, id) && AloneInTime(snapshots, id)
    ensures Kept(id, order, snapshots, cutoff)
  {
    var i :| 0 <= i < |order| && order[i] == id;
    forall j | 0 <= j < i ensures !(order[j] in snapshots && snapshots[order[j]].view == view) {
      MomentsAreOrdered(snapshots[order[j]].collectedAt, snapshots[id].collectedAt);
    }
    FirstOfViewIsRecent(order, snapshots, view, KEEP_RECENT, i);
  }

  lemma {:induction false} FilterKeeps(records: seq<StoredRecord>, ids: set<SnapshotId>, id: SnapshotId)
    requires id in ids
    ensures RecordsOf(RecordsOfAny(records, ids), id) == RecordsOf(records, id)
    decreases |records|
  {
    if records != [] {
      var n := |records| - 1;
      FilterKeeps(records[..n], ids, id);
      var kept := RecordsOfAny(records[..n], ids);
      if records[n].snapshot in ids {
        assert (kept + [records[n]])[..|kept|] == kept;
      } else {
        assert kept + [] == kept;
      }
    }
  }

  /**
   Pruning is invisible to accounting: when the newest snapshot of a view is alone in its time, it
   stays the newest, with every one of its records, so the totals read from it are the same.
   */
  lemma TotalsArePrunedAround(
    order: seq<SnapshotId>, snapshots: Snapshots, records: seq<StoredRecord>, cutoff: Moment, view: View,
    id: SnapshotId)
    requires NewestFirst(order, snapshots) && IsLatest(snapshots, view, id) && AloneInTime(snapshots, id)
    ensures var after := Survivors(order, snapshots, cutoff);
            && IsLatest(after, view, id)
            && Ingestion.LatestTotals(RecordsOf(RecordsOfAny(records, after.Keys), id))
               == Ingestion.LatestTotals(RecordsOf(records, id))
  {
    LatestIsKept(order, snapshots, cutoff, view, id);
    FilterKeeps(records, Survivors(order, snapshots, cutoff).Keys, id);
  }

  /** No view disappears or appears, and the newest of what remains is the newest of what was. */
  lemma LatestStaysLatest(
    order: seq<SnapshotId>, snapshots: Snapshots, cutoff: Moment, view: View, id: SnapshotId, kept: SnapshotId)
    requires NewestFirst(order, snapshots) && IsLatest(snapshots, view, id) && AloneInTime(snapshots, id)
    requires IsLatest(Survivors(order, snapshots, cutoff), view, kept)
    ensures kept == id
  {
    LatestIsKept(order, snapshots, cutoff, view, id);
    var after := Survivors(order, snapshots, cutoff);
    assert after[id] == snapshots[id] && after[kept] == snapshots[kept];
    MomentsAreOrdered(snapshots[kept].collectedAt, snapshots[id].collectedAt);
  }

  // ------------------------------------------------------------------- the recent tail

  function OfView(order: seq<SnapshotId>, snapshots: Snapshots, view: View): set<SnapshotId> {
    if order == [] then {}
    else
      (if order[0] in snapshots && snapshots[order[0]].view == view then {order[0]} else {})
      + OfView(order[1..], snapshots, view)
  }

  lemma {:induction false} OfViewIs(order: seq<SnapshotId>, snapshots: Snapshots, view: View, id: SnapshotId)
    ensures id in OfView(order, snapshots, view) <==> id in order && id in snapshots && snapshots[id].view == view
  {
    if order != [] {
      OfViewIs(order[1..], snapshots, view, id);
      assert order == [order[0]] + order[1..];
    }
  }

  ghost predicate Precedes(order: seq<SnapshotId>, a: SnapshotId, b: SnapshotId) {
    exists i, j :: 0 <= i < j < |order| && order[i] == a && order[j] == b
  }

  /** As many as asked for, or as there are. */
  lemma {:induction false} RecentHasSize(order: seq<SnapshotId>, snapshots: Snapshots, view: View, n: nat)
    requires forall i, j :: 0 <= i < j < |order| ==> order[i] != order[j]
    ensures var recent := Recent(order, snapshots, view, n);
            var all := OfView(order, snapshots, view);
            recent <= all && |recent| == (if n < |all| then n else |all|)
    decreases |order|
  {
    if order != [] {
      var id, rest := order[0], order[1..];
      assert id !in rest;
      OfViewIs(rest, snapshots, view, id);
      var m := if n > 0 && id in snapshots && snapshots[id].view == view then n - 1 else n;
      RecentHasSize(rest, snapshots, view, m);
    }
  }

  lemma PrecedesLater(order: seq<SnapshotId>, a: SnapshotId, b: SnapshotId)
    requires order != []
    ensures Precedes(order[1..], a, b) || (order[0] == a && b in order[1..]) ==> Precedes(order, a, b)
  {
    var rest := order[1..];
    if Precedes(rest, a, b) {
      var i, j :| 0 <= i < j < |rest| && rest[i] == a && rest[j] == b;
      assert order[i + 1] == a && order[j + 1] == b;
    } else if order[0] == a && b in rest {
      var j :| 0 <= j < |rest| && rest[j] == b;
      assert order[j + 1] == b;
    }
  }

  /** None of them listed after one that is left out. */
  lemma {:induction false} RecentIsFirst(
    order: seq<SnapshotId>, snapshots: Snapshots, view: View, n: nat, a: SnapshotId, b: SnapshotId)
    requires a in Recent(order, snapshots, view, n)
    requires b in OfView(order, snapshots, view) && b !in Recent(order, snapshots, view, n)
    ensures Precedes(order, a, b)
    decreases |order|
  {
    PrecedesLater(order, a, b);
    OfViewIs(order[1..], snapshots, view, b);
    if order[0] in snapshots && snapshots[order[0]].view == view {
      if a != order[0] {
        RecentIsFirst(order[1..], snapshots, view, n - 1, a, b);
      }
    } else {
      RecentIsFirst(order[1..], snapshots, view, n, a, b);
    }
  }

  function AllOfView(snapshots: Snapshots, view: View): set<SnapshotId> {
    set id | id in snapshots && snapshots[id].view == view
  }

  lemma OfViewIsAll(order: seq<SnapshotId>, snapshots: Snapshots, view: View)
    requires forall id :: id in order <==> id in snapshots
    ensures OfView(order, snapshots, view) == AllOfView(snapshots, view)
  {
    forall id ensures id in OfView(order, snapshots, view) <==> id in AllOfView(snapshots, view) {
      OfViewIs(order, snapshots, view, id);
    }
  }

  lemma EarlierIsNotOlder(order: seq<SnapshotId>, snapshots: Snapshots, a: SnapshotId, b: SnapshotId)
    requires NewestFirst(order, snapshots) && Precedes(order, a, b)
    ensures a in snapshots && b in snapshots && !snapshots[a].collectedAt.Before(snapshots[b].collectedAt)
  {
    var i, j :| 0 <= i < j < |order| && order[i] == a && order[j] == b;
    assert a in order && b in order;
  }

  /** What is kept of every view: its newest snapshots, two hundred of them or all there are. */
  lemma TailIsNewest(order: seq<SnapshotId>, snapshots: Snapshots, view: View, a: SnapshotId, b: SnapshotId)
    requires NewestFirst(order, snapshots)
    ensures var recent := Recent(order, snapshots, view, KEEP_RECENT);
            var all := AllOfView(snapshots, view);
            && recent <= all && |recent| == (if 200 < |all| then 200 else |all|)
            && (a in recent && b in all && b !in recent ==> !snapshots[a].collectedAt.Before(snapshots[b].collectedAt))
  {
    OfViewIsAll(order, snapshots, view);
    RecentHasSize(order, snapshots, view, KEEP_RECENT);
    var recent := Recent(order, snapshots, view, KEEP_RECENT);
    if a in recent && b in OfView(order, snapshots, view) && b !in recent {
      RecentIsFirst(order, snapshots, view, KEEP_RECENT, a, b);
      EarlierIsNotOlder(order, snapshots, a, b);
    }
  }
}
