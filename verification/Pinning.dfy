/** Attributing records: pins over the ladder, remapping by hand, and the review rows that hold the pins. */
module Pinning {
  import opened Options
  import opened Text
  import opened SubjectMatching
  import opened Ingestion

  /** A decision per item that knows nothing of pins. */
  type Matcher = Item -> MatchOutcome

  function Pin(pins: map<string, Id>, item: Item): Option<Id> {
    if item.subjectKey in pins && pins[item.subjectKey] != "" then Some(pins[item.subjectKey]) else None
  }

  function Resolve(pins: map<string, Id>, matcher: Matcher, item: Item): MatchOutcome {
    if Pin(pins, item).Some? then MatchOutcome(Pinned, Pin(pins, item), [], false) else matcher(item)
  }

  function BilledUser(pins: map<string, Id>, matcher: Matcher, item: Item): Option<Id> {
    Resolve(pins, matcher, item).CountedUserId()
  }

  /** Whom a poll bills each item to. */
  function Biller(pins: map<string, Id>, matcher: Matcher): Item -> Option<Id> {
    (item: Item) => BilledUser(pins, matcher, item)
  }

  // ------------------------------------------------------------------------ pinning

  function RepointOne(record: Record, key: string, user: Option<Id>): Record {
    if record.subjectKey == key then record.(entity := user) else record
  }

  /** A snapshot's records with one subject's pointed at a user, or at nobody. */
  function Repoint(records: seq<Record>, key: string, user: Option<Id>): (r: seq<Record>)
    ensures |r| == |records|
    ensures forall i :: 0 <= i < |records| ==> r[i] == RepointOne(records[i], key, user)
  {
    if records == [] then []
    else Repoint(records[..|records| - 1], key, user) + [RepointOne(records[|records| - 1], key, user)]
  }

  function WithPin(pins: map<string, Id>, key: string, user: Option<Id>): map<string, Id> {
    if user.Some? then pins[key := user.value] else pins - {key}
  }

  /** One subject, mapped now or polled again under the changed pin: the record is the same. */
  predicate Agrees(item: Item, pins: map<string, Id>, matcher: Matcher, key: string, user: Option<Id>) {
    RepointOne(RecordOf(item, Biller(pins, matcher)), key, user)
      == RecordOf(item, Biller(WithPin(pins, key, user), matcher))
  }

  /** The items of a merged poll: each under its own subject. */
  ghost predicate Listed(keys: seq<string>, at: map<string, Item>) {
    forall k :: k in keys ==> k in at && at[k].subjectKey == k
  }

  lemma RecordsAgreeIff(
    keys: seq<string>, at: map<string, Item>, pins: map<string, Id>, matcher: Matcher, key: string, user: Option<Id>)
    requires Listed(keys, at)
    ensures Repoint(RecordsOf(keys, at, Biller(pins, matcher)), key, user)
            == RecordsOf(keys, at, Biller(WithPin(pins, key, user), matcher)) <==>
            forall k :: k in keys ==> Agrees(at[k], pins, matcher, key, user)
  {
    var now := Repoint(RecordsOf(keys, at, Biller(pins, matcher)), key, user);
    var later := RecordsOf(keys, at, Biller(WithPin(pins, key, user), matcher));
    assert forall i :: 0 <= i < |keys| ==> (now[i] == later[i] <==> Agrees(at[keys[i]], pins, matcher, key, user));
    if now == later {
      forall k | k in keys ensures Agrees(at[k], pins, matcher, key, user) {
        var i :| 0 <= i < |keys| && keys[i] == k;
        assert now[i] == later[i];
      }
    }
    if forall k :: k in keys ==> Agrees(at[k], pins, matcher, key, user) {
      assert forall i :: 0 <= i < |keys| ==> now[i] == later[i];
    }
  }

  lemma PinAgreesIff(item: Item, pins: map<string, Id>, matcher: Matcher, key: string, user: Id)
    requires user != ""
    ensures Agrees(item, pins, matcher, key, Some(user)) <==>
            if item.subjectKey == key
            then Cut(key) == key || BilledUser(pins, matcher, item) == Some(user)
            else Cut(item.subjectKey) == key ==> BilledUser(pins, matcher, item) == Some(user)
  {
    var item' := RecordOf(item, Biller(pins, matcher));
    assert item'.entity == BilledUser(pins, matcher, item);
    if item.subjectKey == key {
      assert BilledUser(WithPin(pins, key, Some(user)), matcher, item) == Some(user);
    } else {
      assert Pin(WithPin(pins, key, Some(user)), item) == Pin(pins, item);
    }
  }

  /**
   Mapping a subject now agrees with polling the same rows again under the new pin exactly when
   subject keys that are too long to be stored whole do not interfere: every item whose stored key
   or full key, but not both, is the pinned one is billed to that user anyway.
   */
  lemma PinNowIsPinLaterIff(
    keys: seq<string>, at: map<string, Item>, pins: map<string, Id>, matcher: Matcher, key: string, user: Id)
    requires Listed(keys, at) && user != ""
    ensures Repoint(RecordsOf(keys, at, Biller(pins, matcher)), key, Some(user))
            == RecordsOf(keys, at, Biller(WithPin(pins, key, Some(user)), matcher)) <==>
            forall k :: k in keys && (Cut(k) == key) != (k == key) ==> BilledUser(pins, matcher, at[k]) == Some(user)
  {
    RecordsAgreeIff(keys, at, pins, matcher, key, Some(user));
    forall k | k in keys
      ensures Agrees(at[k], pins, matcher, key, Some(user)) <==>
              ((Cut(k) == key) != (k == key) ==> BilledUser(pins, matcher, at[k]) == Some(user))
    {
      PinAgreesIff(at[k], pins, matcher, key, user);
    }
  }

  lemma ClearAgreesIff(item: Item, pins: map<string, Id>, matcher: Matcher, key: string)
    ensures Agrees(item, pins, matcher, key, None) <==>
            if Cut(item.subjectKey) == key then
              None ==
              if item.subjectKey == key then matcher(item).CountedUserId() else BilledUser(pins, matcher, item)
            else
              item.subjectKey == key ==> matcher(item).CountedUserId() == BilledUser(pins, matcher, item)
  {
    var item' := RecordOf(item, Biller(pins, matcher));
    assert item'.entity == BilledUser(pins, matcher, item);
    if item.subjectKey == key {
      assert BilledUser(WithPin(pins, key, None), matcher, item) == matcher(item).CountedUserId();
    } else {
      assert Pin(WithPin(pins, key, None), item) == Pin(pins, item);
    }
  }

  /**
   Clearing a mapping agrees with polling again exactly when the ladder by itself leaves the subject
   to nobody, and when over-long keys do not interfere: whatever else is stored under the key is
   billed to nobody, and a pin too long to be stored changes nothing.
   */
  lemma ClearNowIsClearLaterIff(
    keys: seq<string>, at: map<string, Item>, pins: map<string, Id>, matcher: Matcher, key: string)
    requires Listed(keys, at)
    ensures Repoint(RecordsOf(keys, at, Biller(pins, matcher)), key, None)
            == RecordsOf(keys, at, Biller(WithPin(pins, key, None), matcher)) <==>
            && (key in keys && Cut(key) == key ==> matcher(at[key]).CountedUserId() == None)
            && (key in keys && Cut(key) != key ==>
                  matcher(at[key]).CountedUserId() == BilledUser(pins, matcher, at[key]))
            && (forall k :: k in keys && k != key && Cut(k) == key ==> BilledUser(pins, matcher, at[k]) == None)
  {
    RecordsAgreeIff(keys, at, pins, matcher, key, None);
    forall k | k in keys
      ensures Agrees(at[k], pins, matcher, key, None) <==>
              if Cut(k) == key then
                (if k == key then matcher(at[k]).CountedUserId() else BilledUser(pins, matcher, at[k])) == None
              else
                k == key ==> matcher(at[k]).CountedUserId() == BilledUser(pins, matcher, at[k])
    {
      ClearAgreesIff(at[k], pins, matcher, key);
    }
  }

  function BilledTo(records: seq<Record>, user: Id): real {
    if records == [] then 0.0
    else BilledTo(records[..|records| - 1], user) + Billed(records[|records| - 1], user)
  }

  function Billed(record: Record, user: Id): real {
    if record.entity == Some(user) then record.credits else 0.0
  }

  function OfSubject(records: seq<Record>, key: string): seq<Record> {
    if records == [] then []
    else
      var n := |records| - 1;
      OfSubject(records[..n], key) + if records[n].subjectKey == key then [records[n]] else []
  }

  lemma SumsGrow(records: seq<Record>, record: Record, key: string, user: Id)
    ensures BilledTo(records + [record], user) == BilledTo(records, user) + Billed(record, user)
    ensures RecordCredits(records + [record]) == RecordCredits(records) + record.credits
    ensures OfSubject(records + [record], key)
            == OfSubject(records, key) + if record.subjectKey == key then [record] else []
  {
    assert (records + [record])[..|records|] == records;
  }

  /** Mapping moves exactly the subject's credits: to the user, away from whoever had them. */
  lemma {:induction false} MappingMovesExactly(records: seq<Record>, key: string, user: Id, other: Id)
    ensures var after := Repoint(records, key, Some(user));
            && BilledTo(after, other) ==
               BilledTo(records, other) - BilledTo(OfSubject(records, key), other)
               + (if other == user then RecordCredits(OfSubject(records, key)) else 0.0)
            && RecordCredits(after) == RecordCredits(records)
    decreases |records|
  {
    if records != [] {
      var n := |records| - 1;
      MappingMovesExactly(records[..n], key, user, other);
      assert records == records[..n] + [records[n]];
      SumsGrow(records[..n], records[n], key, other);
      RepointSnoc(records[..n], records[n], key, Some(user));
      SumsGrow(Repoint(records[..n], key, Some(user)), RepointOne(records[n], key, Some(user)), key, other);
      SubjectGrows(records[..n], records[n], key, other);
    }
  }

  lemma RepointSnoc(records: seq<Record>, record: Record, key: string, user: Option<Id>)
    ensures Repoint(records + [record], key, user) == Repoint(records, key, user) + [RepointOne(record, key, user)]
  {
  }

  lemma SubjectGrows(records: seq<Record>, record: Record, key: string, other: Id)
    ensures var was, grown := OfSubject(records, key), OfSubject(records + [record], key);
            if record.subjectKey == key then
              && BilledTo(grown, other) == BilledTo(was, other) + Billed(record, other)
              && RecordCredits(grown) == RecordCredits(was) + record.credits
            else grown == was
  {
    SumsGrow(records, record, key, other);
    SumsGrow(OfSubject(records, key), record, key, other);
    assert OfSubject(records, key) + [] == OfSubject(records, key);
  }

  /** A user's latest total is exactly what is billed to them. */
  lemma {:induction false} LatestTotalIsBilled(records: seq<Record>, user: Id)
    requires user != ""
    ensures TotalAt(LatestTotals(records), user) == BilledTo(records, user)
    decreases |records|
  {
    if records != [] {
      LatestTotalIsBilled(records[..|records| - 1], user);
    }
  }

  // ------------------------------------------------------------------------- reviews

  /** The review row of a subject that needed more than the exact ladder. */
  datatype Review = Review(
    mapped: Option<Id>, credits: real, timesSeen: nat, status: Method, isBot: bool, suggested: Option<Id>)

  predicate Settled(outcome: MatchOutcome) {
    outcome.how == Pinned || outcome.how == Exact
  }

  /**
   What one resolved subject does to the review rows.  The row is looked up under the whole key but
   stored under a key cut to its column; `None` when that key is taken, which the database refuses.
   */
  function Reviewed(rows: map<string, Review>, item: Item, outcome: MatchOutcome): Option<map<string, Review>> {
    var key := item.subjectKey;
    var suggested := if outcome.candidates == [] then None else Some(outcome.candidates[0].userId);
    if Settled(outcome) then Some(if key in rows && rows[key].mapped == None then rows - {key} else rows)
    else if key in rows then
      Some(rows[key := rows[key].(credits := item.credits, timesSeen := rows[key].timesSeen + 1,
                                  status := outcome.how, isBot := outcome.isBot, suggested := suggested)])
    else if Cut(key) in rows then None
    else Some(rows[Cut(key) := Review(None, item.credits, 1, outcome.how, outcome.isBot, suggested)])
  }

  /** Automation the tenant reports among the users. */
  const SYNTHETIC_SUBJECTS: set<string> := {
    "auto-triage", "auto triage", "autotriage", "auto_triage", "auto-remediation", "auto remediation", "system"
  }

  predicate IsSynthetic(key: string) {
    Normal(key) in SYNTHETIC_SUBJECTS
  }

  /** Automation is never offered as a person to map. */
  function ReviewOne(rows: map<string, Review>, item: Item, outcome: MatchOutcome): Option<map<string, Review>> {
    if IsSynthetic(item.subjectKey) then Some(rows) else Reviewed(rows, item, outcome)
  }

  function PinsOf(rows: map<string, Review>): map<string, Id> {
    map k | k in rows && rows[k].mapped.Some? && rows[k].mapped.value != "" :: rows[k].mapped.value
  }

  /** Every subject in turn; `None` as soon as one of them is refused. */
  function ReviewAll(
    rows: map<string, Review>, items: seq<Item>, pins: map<string, Id>, matcher: Matcher
  ): Option<map<string, Review>> {
    if items == [] then Some(rows)
    else
      var n := |items| - 1;
      var before := ReviewAll(rows, items[..n], pins, matcher);
      if before.None? then None else ReviewOne(before.value, items[n], Resolve(pins, matcher, items[n]))
  }

  lemma ReviewNext(rows: map<string, Review>, items: seq<Item>, pins: map<string, Id>, matcher: Matcher, i: nat)
    requires i < |items|
    ensures var before := ReviewAll(rows, items[..i], pins, matcher);
            ReviewAll(rows, items[..i + 1], pins, matcher) ==
            if before.None? then None else ReviewOne(before.value, items[i], Resolve(pins, matcher, items[i]))
  {
    assert items[..i + 1][..i] == items[..i];
  }

  lemma {:induction false} RefusedStaysRefused(
    rows: map<string, Review>, items: seq<Item>, pins: map<string, Id>, matcher: Matcher, i: nat)
    requires i <= |items| && ReviewAll(rows, items[..i], pins, matcher) == None
    ensures ReviewAll(rows, items, pins, matcher) == None
    decreases |items|
  {
    if i == |items| {
      assert items[..i] == items;
    } else {
      var n := |items| - 1;
      assert items[..n][..i] == items[..i];
      RefusedStaysRefused(rows, items[..n], pins, matcher, i);
    }
  }

  predicate SameAt(a: map<string, Review>, b: map<string, Review>, key: string) {
    (key in a <==> key in b) && (key in b ==> a[key] == b[key])
  }

  /** Stored keys fit their column. */
  ghost predicate ShortRows(rows: map<string, Review>) {
    forall k :: k in rows ==> |k| <= KEY_COLUMN
  }

  /** A person with an over-long key that nothing settles finds its cut key taken. */
  predicate Collides(rows: map<string, Review>, item: Item, outcome: MatchOutcome) {
    !IsSynthetic(item.subjectKey) && |item.subjectKey| > KEY_COLUMN && !Settled(outcome) && Cut(item.subjectKey) in rows
  }

  /** Whether one subject leaves a row under its stored key. */
  predicate LeavesRow(rows: map<string, Review>, item: Item, outcome: MatchOutcome) {
    var key := Cut(item.subjectKey);
    if IsSynthetic(item.subjectKey) then key in rows
    else !Settled(outcome) || (key in rows && (rows[key].mapped.Some? || |item.subjectKey| > KEY_COLUMN))
  }

  lemma ReviewOneMeans(rows: map<string, Review>, item: Item, outcome: MatchOutcome)
    requires ShortRows(rows)
    ensures var r := ReviewOne(rows, item, outcome);
            && (r == None <==> Collides(rows, item, outcome))
            && (r.Some? ==>
                  && ShortRows(r.value)
                  && (Cut(item.subjectKey) in r.value <==> LeavesRow(rows, item, outcome))
                  && (IsSynthetic(item.subjectKey) ==> r.value == rows)
                  && forall k :: k != Cut(item.subjectKey) ==> SameAt(r.value, rows, k))
  {
  }

  lemma ReviewKeepsPins(rows: map<string, Review>, item: Item, outcome: MatchOutcome)
    requires ReviewOne(rows, item, outcome).Some?
    ensures PinsOf(ReviewOne(rows, item, outcome).value) == PinsOf(rows)
  {
  }

  /** Polling never loses or changes an admin's mapping, whatever it reports. */
  lemma {:induction false} PinsSurvivePolling(
    rows: map<string, Review>, items: seq<Item>, pins: map<string, Id>, matcher: Matcher)
    requires ReviewAll(rows, items, pins, matcher).Some?
    ensures PinsOf(ReviewAll(rows, items, pins, matcher).value) == PinsOf(rows)
    decreases |items|
  {
    if items != [] {
      var n := |items| - 1;
      var before := ReviewAll(rows, items[..n], pins, matcher).value;
      PinsSurvivePolling(rows, items[..n], pins, matcher);
      ReviewKeepsPins(before, items[n], Resolve(pins, matcher, items[n]));
    }
  }

  /** No two subjects are stored under one key; otherwise the snapshot itself is refused. */
  predicate DistinctStored(keys: seq<string>) {
    forall i, j :: 0 <= i < j < |keys| ==> Cut(keys[i]) != Cut(keys[j])
  }

  ghost predicate DistinctItems(items: seq<Item>) {
    forall i, j :: 0 <= i < j < |items| ==> Cut(items[i].subjectKey) != Cut(items[j].subjectKey)
  }

  lemma {:induction false} OthersReviewElsewhere(
    rows: map<string, Review>, items: seq<Item>, pins: map<string, Id>, matcher: Matcher, key: string)
    requires ShortRows(rows) && ReviewAll(rows, items, pins, matcher).Some?
    requires forall i :: 0 <= i < |items| ==> Cut(items[i].subjectKey) != key
    ensures var after := ReviewAll(rows, items, pins, matcher).value;
            ShortRows(after) && SameAt(after, rows, key)
    decreases |items|
  {
    if items != [] {
      var n := |items| - 1;
      OthersReviewElsewhere(rows, items[..n], pins, matcher, key);
      ReviewOneMeans(ReviewAll(rows, items[..n], pins, matcher).value, items[n], Resolve(pins, matcher, items[n]));
    }
  }

  lemma {:induction false} RowsStayShort(
    rows: map<string, Review>, items: seq<Item>, pins: map<string, Id>, matcher: Matcher)
    requires ShortRows(rows) && ReviewAll(rows, items, pins, matcher).Some?
    ensures ShortRows(ReviewAll(rows, items, pins, matcher).value)
    decreases |items|
  {
    if items != [] {
      var n := |items| - 1;
      RowsStayShort(rows, items[..n], pins, matcher);
      ReviewOneMeans(ReviewAll(rows, items[..n], pins, matcher).value, items[n], Resolve(pins, matcher, items[n]));
    }
  }

  /** What the rows hold for the last subject just before it is reviewed: what they held at the start. */
  lemma LastIsUntouched(rows: map<string, Review>, items: seq<Item>, pins: map<string, Id>, matcher: Matcher)
    requires ShortRows(rows) && items != [] && DistinctItems(items)
    requires ReviewAll(rows, items[..|items| - 1], pins, matcher).Some?
    ensures var before := ReviewAll(rows, items[..|items| - 1], pins, matcher).value;
            ShortRows(before) && SameAt(before, rows, Cut(items[|items| - 1].subjectKey))
  {
    OthersReviewElsewhere(rows, items[..|items| - 1], pins, matcher, Cut(items[|items| - 1].subjectKey));
  }

  /**
   After a poll a reported person has a review row exactly when the ladder did not settle it, or an
   admin's mapping keeps the row.  Automation keeps whatever row it had before, and gets none.
   */
  lemma {:induction false} ReviewedIffUnsettled(
    rows: map<string, Review>, items: seq<Item>, pins: map<string, Id>, matcher: Matcher, i: nat)
    requires ShortRows(rows) && DistinctItems(items) && i < |items| && ReviewAll(rows, items, pins, matcher).Some?
    ensures var key := Cut(items[i].subjectKey);
            var after := ReviewAll(rows, items, pins, matcher).value;
            && (key in after <==> LeavesRow(rows, items[i], Resolve(pins, matcher, items[i])))
            && (IsSynthetic(items[i].subjectKey) ==> SameAt(after, rows, key))
    decreases |items|
  {
    var n := |items| - 1;
    if i < n {
      ReviewedIffUnsettled(rows, items[..n], pins, matcher, i);
      LastLeavesOthers(rows, items, pins, matcher, i);
    } else {
      LastLeavesItsRow(rows, items, pins, matcher);
    }
  }

  lemma LastLeavesOthers(
    rows: map<string, Review>, items: seq<Item>, pins: map<string, Id>, matcher: Matcher, i: nat)
    requires ShortRows(rows) && DistinctItems(items) && i < |items| - 1
    requires ReviewAll(rows, items, pins, matcher).Some?
    ensures var before := ReviewAll(rows, items[..|items| - 1], pins, matcher).value;
            SameAt(ReviewAll(rows, items, pins, matcher).value, before, Cut(items[i].subjectKey))
  {
    var n := |items| - 1;
    assert Cut(items[i].subjectKey) != Cut(items[n].subjectKey);
    LastIsUntouched(rows, items, pins, matcher);
    ReviewOneMeans(ReviewAll(rows, items[..n], pins, matcher).value, items[n], Resolve(pins, matcher, items[n]));
  }

  lemma LastLeavesItsRow(rows: map<string, Review>, items: seq<Item>, pins: map<string, Id>, matcher: Matcher)
    requires ShortRows(rows) && items != [] && DistinctItems(items) && ReviewAll(rows, items, pins, matcher).Some?
    ensures var last := items[|items| - 1];
            var key := Cut(last.subjectKey);
            var after := ReviewAll(rows, items, pins, matcher).value;
            && (key in after <==> LeavesRow(rows, last, Resolve(pins, matcher, last)))
            && (IsSynthetic(last.subjectKey) ==> SameAt(after, rows, key))
  {
    var n := |items| - 1;
    LastIsUntouched(rows, items, pins, matcher);
    ReviewOneMeans(ReviewAll(rows, items[..n], pins, matcher).value, items[n], Resolve(pins, matcher, items[n]));
  }

  ghost predicate SomeCollides(rows: map<string, Review>, items: seq<Item>, pins: map<string, Id>, matcher: Matcher) {
    exists i :: 0 <= i < |items| && Collides(rows, items[i], Resolve(pins, matcher, items[i]))
  }

  /** A poll is refused exactly when some unsettled person's over-long key finds its cut key taken. */
  lemma {:induction false} PollIsRefusedIff(
    rows: map<string, Review>, items: seq<Item>, pins: map<string, Id>, matcher: Matcher)
    requires ShortRows(rows) && DistinctItems(items)
    ensures ReviewAll(rows, items, pins, matcher) == None <==>
            SomeCollides(rows, items, pins, matcher)
    decreases |items|
  {
    if items != [] {
      PollIsRefusedIff(rows, items[..|items| - 1], pins, matcher);
      SomeCollidesSnoc(rows, items, pins, matcher);
      LastIsRefusedIff(rows, items, pins, matcher);
    }
  }

  lemma SomeCollidesSnoc(rows: map<string, Review>, items: seq<Item>, pins: map<string, Id>, matcher: Matcher)
    requires items != []
    ensures var n := |items| - 1;
            SomeCollides(rows, items, pins, matcher) <==>
            SomeCollides(rows, items[..n], pins, matcher) || Collides(rows, items[n], Resolve(pins, matcher, items[n]))
  {
    var n := |items| - 1;
    assert forall i :: 0 <= i < n ==> items[..n][i] == items[i];
  }

  lemma LastIsRefusedIff(rows: map<string, Review>, items: seq<Item>, pins: map<string, Id>, matcher: Matcher)
    requires ShortRows(rows) && items != [] && DistinctItems(items)
    ensures var n := |items| - 1;
            ReviewAll(rows, items[..n], pins, matcher).Some? ==>
              (ReviewAll(rows, items, pins, matcher) == None <==>
               Collides(rows, items[n], Resolve(pins, matcher, items[n])))
  {
    var n := |items| - 1;
    if ReviewAll(rows, items[..n], pins, matcher).Some? {
      LastIsUntouched(rows, items, pins, matcher);
      ReviewOneMeans(ReviewAll(rows, items[..n], pins, matcher).value, items[n], Resolve(pins, matcher, items[n]));
    }
  }

  /** What the row of an unsettled person says after the poll: the last figures, and an old mapping kept. */
  predicate RowSays(rows: map<string, Review>, after: map<string, Review>, item: Item, outcome: MatchOutcome) {
    var key := Cut(item.subjectKey);
    key in after &&
    var row := after[key];
    && row.credits == item.credits && row.status == outcome.how && row.isBot == outcome.isBot
    && row.suggested == (if outcome.candidates == [] then None else Some(outcome.candidates[0].userId))
    && row.mapped == (if key in rows then rows[key].mapped else None)
    && row.timesSeen == (if key in rows then rows[key].timesSeen else 0) + 1
  }

  lemma ReviewOneSays(rows: map<string, Review>, item: Item, outcome: MatchOutcome)
    requires ShortRows(rows) && !IsSynthetic(item.subjectKey) && !Settled(outcome)
    requires ReviewOne(rows, item, outcome).Some?
    ensures RowSays(rows, ReviewOne(rows, item, outcome).value, item, outcome)
  {
  }

  /** Every person the ladder does not settle is on record with the figures of this poll. */
  lemma {:induction false} UnsettledAreOnRecord(
    rows: map<string, Review>, items: seq<Item>, pins: map<string, Id>, matcher: Matcher, i: nat)
    requires ShortRows(rows) && DistinctItems(items) && i < |items| && ReviewAll(rows, items, pins, matcher).Some?
    requires !IsSynthetic(items[i].subjectKey) && !Settled(Resolve(pins, matcher, items[i]))
    ensures RowSays(rows, ReviewAll(rows, items, pins, matcher).value, items[i], Resolve(pins, matcher, items[i]))
    decreases |items|
  {
    var n := |items| - 1;
    if i < n {
      UnsettledAreOnRecord(rows, items[..n], pins, matcher, i);
      LastLeavesOthers(rows, items, pins, matcher, i);
    } else {
      LastIsUntouched(rows, items, pins, matcher);
      ReviewOneSays(ReviewAll(rows, items[..n], pins, matcher).value, items[n], Resolve(pins, matcher, items[n]));
    }
  }

  /** So a person with an over-long key who needs a review is polled once, and never again. */
  lemma OverlongKeysStopPolling(
    rows: map<string, Review>, items: seq<Item>, matcher: Matcher, i: nat)
    requires ShortRows(rows) && DistinctItems(items) && i < |items|
    requires ReviewAll(rows, items, PinsOf(rows), matcher).Some?
    requires |items[i].subjectKey| > KEY_COLUMN && !IsSynthetic(items[i].subjectKey)
    requires !Settled(Resolve(PinsOf(rows), matcher, items[i]))
    ensures var after := ReviewAll(rows, items, PinsOf(rows), matcher).value;
            ReviewAll(after, items, PinsOf(after), matcher) == None
  {
    var after := ReviewAll(rows, items, PinsOf(rows), matcher).value;
    PinsSurvivePolling(rows, items, PinsOf(rows), matcher);
    ReviewedIffUnsettled(rows, items, PinsOf(rows), matcher, i);
    RowsStayShort(rows, items, PinsOf(rows), matcher);
    PollIsRefusedIff(after, items, PinsOf(after), matcher);
    assert Collides(after, items[i], Resolve(PinsOf(after), matcher, items[i]));
  }

  datatype Mapping = Mapped | NoSuchSubject | UnknownUser

  /** The stored side: the newest user snapshot's records, and the review rows. */
  class UsageStore {
    var records: seq<Record>
    var reviews: map<string, Review>

    constructor ()
      ensures records == [] && reviews == map[]
    {
      records, reviews := [], map[];
    }

    /** Polls the user dimension: new records and total, then every person is reviewed; all of it or nothing. */
    method PollUsers(pages: seq<Page>, matcher: Matcher) returns (stored: bool, total: real)
      modifies this
      ensures var m := MergeAll(AllItems(pages));
              var pins := PinsOf(old(reviews));
              var reviewed := ReviewAll(old(reviews), ItemsIn(m.order, m.at), pins, matcher);
              && (stored <==> DistinctStored(m.order) && reviewed.Some?)
              && (if stored then
                    && records == RecordsOf(m.order, m.at, Biller(pins, matcher)) && total == RecordCredits(records)
                    && reviews == reviewed.value
                  else records == old(records) && reviews == old(reviews))
    {
      var pins := PinsOf(reviews);
      var polled, sum := IngestDimension(pages, Biller(pins, matcher));
      var order, merged := MergePages(pages);
      assert Merged(order, merged).Valid();
      if !DistinctStored(order) {
        return false, 0.0;
      }
      var reviewed := ReviewItems(ItemsIn(order, merged), pins, matcher);
      if reviewed.None? {
        return false, 0.0;
      }
      records, reviews := polled, reviewed.value;
      return true, sum;
    }

    method ReviewItems(items: seq<Item>, pins: map<string, Id>, matcher: Matcher)
      returns (reviewed: Option<map<string, Review>>)
      ensures reviewed == ReviewAll(reviews, items, pins, matcher)
    {
      var rows := reviews;
      var i := 0;
      while i < |items|
        invariant 0 <= i <= |items| && ReviewAll(reviews, items[..i], pins, matcher) == Some(rows)
      {
        ReviewNext(reviews, items, pins, matcher, i);
        if !IsSynthetic(items[i].subjectKey) {
          var next := Reviewed(rows, items[i], Resolve(pins, matcher, items[i]));
          if next.None? {
            RefusedStaysRefused(reviews, items, pins, matcher, i + 1);
            return None;
          }
          rows := next.value;
        }
        i := i + 1;
      }
      assert items[..i] == items;
      return Some(rows);
    }

    /** Pins a reviewed subject to a user, or clears the pin, and repoints the newest snapshot at once. */
    method MapSubject(key: string, user: Option<Id>, known: set<Id>) returns (result: Mapping)
      modifies this
      ensures result == NoSuchSubject <==> key !in old(reviews)
      ensures result == UnknownUser <==> key in old(reviews) && user.GetOr("") != "" && user.value !in known
      ensures if result == Mapped then
                && records == Repoint(old(records), key, user)
                && reviews == old(reviews)[key := old(reviews)[key].(mapped := user)]
              else records == old(records) && reviews == old(reviews)
    {
      if key !in reviews {
        return NoSuchSubject;
      }
      if user.GetOr("") != "" && user.value !in known {
        return UnknownUser;
      }
      reviews := reviews[key := reviews[key].(mapped := user)];
      RepointRecords(key, user);
      return Mapped;
    }

    method RepointRecords(key: string, user: Option<Id>)
      modifies this`records
      ensures records == Repoint(old(records), key, user)
    {
      var i := 0;
      while i < |records|
        invariant 0 <= i <= |records| == |old(records)|
        invariant forall j :: 0 <= j < |records| ==>
                    records[j] == if j < i then RepointOne(old(records)[j], key, user) else old(records)[j]
      {
        if records[i].subjectKey == key {
          records := records[i := records[i].(entity := user)];
        }
        i := i + 1;
      }
    }
  }

  /** What a mapping by hand leaves behind: the pins the next poll will honour. */
  lemma MappingIsAPin(rows: map<string, Review>, key: string, user: Option<Id>)
    requires key in rows
    ensures PinsOf(rows[key := rows[key].(mapped := user)]) ==
            WithPin(PinsOf(rows), key, if user == Some("") then None else user)
  {
  }

  /**
   End to end: poll, map a subject by hand, and poll the same pages again. The second poll stores
   exactly what the mapping had already made of the first, when no over-long key is cut to the subject's.
   */
  lemma PollingAgainChangesNothing(
    rows: map<string, Review>, pages: seq<Page>, matcher: Matcher, key: string, user: Id)
    requires user != "" && ShortRows(rows)
    requires forall k :: k in MergeAll(AllItems(pages)).order && k != key ==> Cut(k) != key
    requires ReviewAll(rows, ItemsOf(pages), PinsOf(rows), matcher).Some?
    requires key in ReviewAll(rows, ItemsOf(pages), PinsOf(rows), matcher).value
    ensures var m := MergeAll(AllItems(pages));
            var reviewed := ReviewAll(rows, ItemsOf(pages), PinsOf(rows), matcher).value;
            var mapped := reviewed[key := reviewed[key].(mapped := Some(user))];
            RecordsOf(m.order, m.at, Biller(PinsOf(mapped), matcher))
            == Repoint(RecordsOf(m.order, m.at, Biller(PinsOf(rows), matcher)), key, Some(user))
  {
    var m := MergeAll(AllItems(pages));
    var reviewed := ReviewAll(rows, ItemsOf(pages), PinsOf(rows), matcher).value;
    PinsSurvivePolling(rows, ItemsOf(pages), PinsOf(rows), matcher);
    RowsStayShort(rows, ItemsOf(pages), PinsOf(rows), matcher);
    MappingIsAPin(reviewed, key, Some(user));
    PinNowIsPinLaterIff(m.order, m.at, PinsOf(rows), matcher, key, user);
  }

  function ItemsOf(pages: seq<Page>): seq<Item> {
    ItemsIn(MergeAll(AllItems(pages)).order, MergeAll(AllItems(pages)).at)
  }

  function ItemsIn(keys: seq<string>, at: map<string, Item>): seq<Item>
    requires forall k :: k in keys ==> k in at
  {
    seq(|keys|, i requires 0 <= i < |keys| => at[keys[i]])
  }
}
