/** Usage accounting: paging, merging repeated subjects, attribution, and totals read back. */
module Ingestion {
  import opened Options
  import opened Text
  import opened SubjectMatching

  type Id = string

  const MAX_PAGES := 500
  const KEY_COLUMN := 320

  // -------------------------------------------------------------------- rows and pages

  /** A reported row after its fields are read; the strings, when present, are not blank. */
  datatype RawRow = RawRow(
    name: Option<string>, email: Option<string>, id: Option<string>, credits: real, actions: seq<(string, int)>)

  datatype Item = Item(
    subjectKey: string, name: Option<string>, email: Option<string>, reportedId: Option<string>,
    credits: real, actions: map<string, int>)

  /** A response body after parsing: the rows that name somebody, and the announced page count. */
  datatype Page = Page(items: seq<Item>, totalPages: Option<int>)

  function CountOf(actions: map<string, int>, action: string): int {
    if action in actions then actions[action] else 0
  }

  function Counted(actions: map<string, int>, action: string, count: int): map<string, int> {
    actions[action := CountOf(actions, action) + count]
  }

  /** The per-action counters of one row; a repeated action adds up. */
  function ActionTotals(entries: seq<(string, int)>): map<string, int> {
    if entries == [] then map[]
    else Counted(ActionTotals(entries[..|entries| - 1]), entries[|entries| - 1].0, entries[|entries| - 1].1)
  }

  /** How often an action was reported in a row, entry by entry. */
  function EntryCount(entries: seq<(string, int)>, action: string): int {
    if entries == [] then 0
    else EntryCount(entries[1..], action) + if entries[0].0 == action then entries[0].1 else 0
  }

  lemma {:induction false} EntryCountSplits(a: seq<(string, int)>, b: seq<(string, int)>, action: string)
    ensures EntryCount(a + b, action) == EntryCount(a, action) + EntryCount(b, action)
  {
    if a == [] {
      assert a + b == b;
    } else {
      assert (a + b)[1..] == a[1..] + b;
      EntryCountSplits(a[1..], b, action);
    }
  }

  /** Every counter is the sum of the row's entries for that action. */
  lemma {:induction false} ActionTotalsAddUp(entries: seq<(string, int)>, action: string)
    ensures CountOf(ActionTotals(entries), action) == EntryCount(entries, action)
    decreases |entries|
  {
    if entries != [] {
      var n := |entries| - 1;
      ActionTotalsAddUp(entries[..n], action);
      EntryCountSplits(entries[..n], entries[n..], action);
      assert entries == entries[..n] + entries[n..] && entries[n..] == [entries[n]];
    }
  }

  method ParseActions(entries: seq<(string, int)>) returns (actions: map<string, int>)
    ensures actions == ActionTotals(entries)
    ensures forall action :: CountOf(actions, action) == EntryCount(entries, action)
  {
    actions := map[];
    var i := 0;
    while i < |entries|
      invariant 0 <= i <= |entries| && actions == ActionTotals(entries[..i])
    {
      assert entries[..i + 1][..i] == entries[..i];
      actions := Counted(actions, entries[i].0, entries[i].1);
      i := i + 1;
    }
    assert entries[..i] == entries;
    forall action ensures CountOf(actions, action) == EntryCount(entries, action) {
      ActionTotalsAddUp(entries, action);
    }
  }

  /** `None` for a row that names nobody. */
  function ParseRow(raw: RawRow): (item: Option<Item>)
    ensures item.Some? ==> item.value.subjectKey != "" && item.value.credits == raw.credits
  {
    var email := if raw.email == None && raw.name.Some? && LooksLikeEmail(raw.name.value) then raw.name else raw.email;
    var key := Normal(if email.Some? then email.value else if raw.name.Some? then raw.name.value else raw.id.GetOr(""));
    if key == "" then None
    else Some(Item(key, raw.name, email, raw.id, raw.credits, ActionTotals(raw.actions)))
  }

  /**
   A row is kept under its address, else under its name, else under its identifier; what it said is
   kept beside the key, and a name that is an address stands for a missing one.
   */
  lemma KeptUnder(raw: RawRow)
    requires ParseRow(raw).Some?
    ensures var item := ParseRow(raw).value;
            && (raw.email.Some? ==> item.subjectKey == Normal(raw.email.value))
            && (raw.email.None? && raw.name.Some? ==> item.subjectKey == Normal(raw.name.value))
            && (raw.email.None? && raw.name.None? ==> raw.id.Some? && item.subjectKey == Normal(raw.id.value))
            && item.name == raw.name && item.reportedId == raw.id && item.credits == raw.credits
            && (raw.email.Some? ==> item.email == raw.email)
            && (raw.email.None? && raw.name.Some? && LooksLikeEmail(raw.name.value) ==> item.email == raw.name)
            && (raw.email.None? && !(raw.name.Some? && LooksLikeEmail(raw.name.value)) ==> item.email == None)
  {
    assert Normal("") == "";
  }

  function Identified(rows: seq<RawRow>): seq<Item> {
    if rows == [] then []
    else
      var item := ParseRow(rows[0]);
      (if item.Some? then [item.value] else []) + Identified(rows[1..])
  }

  function ParsePage(rows: seq<RawRow>, totalPages: Option<int>): Page {
    Page(Identified(rows), totalPages)
  }

  function AllItems(pages: seq<Page>): seq<Item> {
    if pages == [] then [] else AllItems(pages[..|pages| - 1]) + pages[|pages| - 1].items
  }

  /** Whether the page with this number is the last one asked for. */
  predicate LastAsked(page: Page, number: nat, pageSize: nat) {
    || page.items == []
    || (page.totalPages.Some? && number >= page.totalPages.value)
    || (page.totalPages.None? && |page.items| < pageSize)
  }

  function PagesFrom(serve: nat -> Page, number: nat, pageSize: nat): seq<Page>
    decreases MAX_PAGES + 1 - number, pageSize
  {
    if number > MAX_PAGES then []
    else
      var page := serve(number);
      [page] + if LastAsked(page, number, pageSize) then [] else PagesFrom(serve, number + 1, pageSize)
  }

  lemma PagesUnfold(serve: nat -> Page, number: nat, pageSize: nat, read: seq<Page>)
    requires number <= MAX_PAGES
    ensures read + PagesFrom(serve, number, pageSize) ==
            (read + [serve(number)]) +
            if LastAsked(serve(number), number, pageSize) then [] else PagesFrom(serve, number + 1, pageSize)
  {
  }

  /** The page loop, numbered from one and cut at the page limit. */
  method FetchUsage(serve: nat -> Page, pageSize: nat) returns (pages: seq<Page>)
    ensures pages == PagesFrom(serve, 1, pageSize)
  {
    pages := [];
    var number := 1;
    ghost var all := PagesFrom(serve, number, pageSize);
    while number <= MAX_PAGES
      invariant 1 <= number <= MAX_PAGES + 1
      invariant pages + PagesFrom(serve, number, pageSize) == all
    {
      PagesUnfold(serve, number, pageSize, pages);
      var page := serve(number);
      pages := pages + [page];
      if LastAsked(page, number, pageSize) {
        return;
      }
      number := number + 1;
    }
  }

  /** A server that holds these pages and announces how many there are. */
  ghost predicate Serves(serve: nat -> Page, pages: seq<seq<Item>>) {
    forall n :: 1 <= n <= |pages| ==> serve(n) == Page(pages[n - 1], Some(|pages|))
  }

  /** Pages come back in order, from the one asked for first. */
  lemma {:induction false} PagesInOrder(serve: nat -> Page, number: nat, pageSize: nat, i: nat)
    requires i < |PagesFrom(serve, number, pageSize)|
    ensures PagesFrom(serve, number, pageSize)[i] == serve(number + i)
    decreases i
  {
    if i > 0 {
      PagesInOrder(serve, number + 1, pageSize, i - 1);
    }
  }

  lemma PagesCount(serve: nat -> Page, number: nat, pageSize: nat)
    requires number <= MAX_PAGES
    ensures |PagesFrom(serve, number, pageSize)| ==
            1 + if LastAsked(serve(number), number, pageSize) then 0 else |PagesFrom(serve, number + 1, pageSize)|
  {
  }

  /** Paging goes past each page before the last exactly when that page is whole. */
  ghost predicate StopsUnless(serve: nat -> Page, total: nat, pageSize: nat, whole: nat -> bool) {
    forall m: nat :: m + 1 < total ==> (LastAsked(serve(m + 1), m + 1, pageSize) <==> !whole(m))
  }

  lemma {:induction false} PagingIsCompleteIff(
    serve: nat -> Page, total: nat, read: nat, pageSize: nat, whole: nat -> bool)
    requires read < total <= MAX_PAGES && StopsUnless(serve, total, pageSize, whole)
    ensures |PagesFrom(serve, read + 1, pageSize)| >= total - read <==>
        forall m: nat :: read <= m < total - 1 ==> whole(m)
    ensures LastAsked(serve(total), total, pageSize) ==> |PagesFrom(serve, read + 1, pageSize)| <= total - read
    decreases total - read
  {
    PagesCount(serve, read + 1, pageSize);
    if read + 1 < total {
      assert LastAsked(serve(read + 1), read + 1, pageSize) <==> !whole(read);
      PagingIsCompleteIff(serve, total, read + 1, pageSize, whole);
    }
  }

  /**
   Every page of an announcing server is read, and no more, exactly when no page before the last is
   empty once the rows that name nobody are dropped: such a page ends the paging early.
   */
  lemma FetchIsCompleteIff(serve: nat -> Page, pages: seq<seq<Item>>, pageSize: nat)
    requires Serves(serve, pages) && 1 <= |pages| <= MAX_PAGES
    ensures |PagesFrom(serve, 1, pageSize)| <= |pages|
    ensures |PagesFrom(serve, 1, pageSize)| == |pages| <==> forall n :: 0 <= n < |pages| - 1 ==> pages[n] != []
  {
    var whole := (m: nat) => m < |pages| && pages[m] != [];
    forall m: nat | m + 1 < |pages|
      ensures LastAsked(serve(m + 1), m + 1, pageSize) <==> !whole(m)
    {
      assert serve(m + 1) == Page(pages[m], Some(|pages|));
    }
    assert serve(|pages|) == Page(pages[|pages| - 1], Some(|pages|));
    PagingIsCompleteIff(serve, |pages|, 0, pageSize, whole);
    assert forall m: nat :: m < |pages| ==> (whole(m) <==> pages[m] != []);
  }

  // ------------------------------------------------------------------------- merging

  /** Items by subject, with the order in which subjects first appeared. */
  datatype Merged = Merged(order: seq<string>, at: map<string, Item>) {
    ghost predicate Valid() {
      && (forall i, j :: 0 <= i < j < |order| ==> order[i] != order[j])
      && (forall k :: k in order <==> k in at)
      && (forall k :: k in at ==> at[k].subjectKey == k)
    }
  }

  function AddCounts(a: map<string, int>, b: map<string, int>): map<string, int> {
    map k | k in a.Keys + b.Keys :: CountOf(a, k) + CountOf(b, k)
  }

  /** The first occurrence keeps its identity, the figures add up. */
  function Combine(first: Item, second: Item): Item {
    first.(credits := first.credits + second.credits, actions := AddCounts(first.actions, second.actions))
  }

  function MergeOne(m: Merged, item: Item): (r: Merged)
    ensures m.Valid() ==> r.Valid()
  {
    if item.subjectKey in m.at then m.(at := m.at[item.subjectKey := Combine(m.at[item.subjectKey], item)])
    else Merged(m.order + [item.subjectKey], m.at[item.subjectKey := item])
  }

  function MergeAll(items: seq<Item>): (m: Merged)
    ensures m.Valid()
  {
    if items == [] then Merged([], map[]) else MergeOne(MergeAll(items[..|items| - 1]), items[|items| - 1])
  }

  // ------------------------------------------------------------------------- records

  datatype Record = Record(subjectKey: string, entity: Option<Id>, credits: real, actions: map<string, int>)

  function Cut(key: string): string {
    if |key| <= KEY_COLUMN then key else key[..KEY_COLUMN]
  }

  function RecordOf(item: Item, attribute: Item -> Option<Id>): Record {
    Record(Cut(item.subjectKey), attribute(item), item.credits, item.actions)
  }

  function RecordsOf(keys: seq<string>, at: map<string, Item>, attribute: Item -> Option<Id>): (r: seq<Record>)
    requires forall k :: k in keys ==> k in at
    ensures |r| == |keys| && forall i :: 0 <= i < |keys| ==> r[i] == RecordOf(at[keys[i]], attribute)
  {
    if keys == [] then []
    else RecordsOf(keys[..|keys| - 1], at, attribute) + [RecordOf(at[keys[|keys| - 1]], attribute)]
  }

  function RecordCredits(records: seq<Record>): real {
    if records == [] then 0.0 else RecordCredits(records[..|records| - 1]) + records[|records| - 1].credits
  }

  function RecordCount(records: seq<Record>, action: string): int {
    if records == [] then 0
    else RecordCount(records[..|records| - 1], action) + CountOf(records[|records| - 1].actions, action)
  }

  /** Folds the pages into one item per subject. */
  method MergePages(pages: seq<Page>) returns (order: seq<string>, merged: map<string, Item>)
    ensures Merged(order, merged) == MergeAll(AllItems(pages))
  {
    order, merged := [], map[];
    var p := 0;
    while p < |pages|
      invariant 0 <= p <= |pages| && Merged(order, merged) == MergeAll(AllItems(pages[..p]))
    {
      assert pages[..p + 1][..p] == pages[..p];
      order, merged := MergePage(order, merged, pages[p].items, AllItems(pages[..p]));
      p := p + 1;
    }
    assert pages[..p] == pages;
  }

  method MergePage(order0: seq<string>, merged0: map<string, Item>, items: seq<Item>, ghost before: seq<Item>)
    returns (order: seq<string>, merged: map<string, Item>)
    requires Merged(order0, merged0) == MergeAll(before)
    ensures Merged(order, merged) == MergeAll(before + items)
  {
    order, merged := order0, merged0;
    assert before + items[..0] == before;
    var i := 0;
    while i < |items|
      invariant 0 <= i <= |items| && Merged(order, merged) == MergeAll(before + items[..i])
    {
      var item := items[i];
      MergeAllSnoc(before, items, i);
      if item.subjectKey in merged {
        merged := merged[item.subjectKey := Combine(merged[item.subjectKey], item)];
      } else {
        order, merged := order + [item.subjectKey], merged[item.subjectKey := item];
      }
      i := i + 1;
    }
    assert items[..i] == items;
  }

  lemma MergeAllSnoc(before: seq<Item>, items: seq<Item>, i: nat)
    requires i < |items|
    ensures MergeAll(before + items[..i + 1]) == MergeOne(MergeAll(before + items[..i]), items[i])
  {
    var all := before + items[..i + 1];
    assert all[..|all| - 1] == before + items[..i] && all[|all| - 1] == items[i];
  }

  lemma RecordsGrow(order: seq<string>, at: map<string, Item>, attribute: Item -> Option<Id>, k: nat)
    requires k < |order| && forall key :: key in order ==> key in at
    ensures var before := RecordsOf(order[..k], at, attribute);
            var record := RecordOf(at[order[k]], attribute);
            && RecordsOf(order[..k + 1], at, attribute) == before + [record]
            && RecordCredits(before + [record]) == RecordCredits(before) + record.credits
  {
    var before := RecordsOf(order[..k], at, attribute);
    assert order[..k + 1][..k] == order[..k];
    assert (before + [RecordOf(at[order[k]], attribute)])[..|before|] == before;
  }

  /** One dimension, from its pages to its records and total. */
  method IngestDimension(pages: seq<Page>, attribute: Item -> Option<Id>) returns (records: seq<Record>, total: real)
    ensures var m := MergeAll(AllItems(pages));
            records == RecordsOf(m.order, m.at, attribute) && total == RecordCredits(records)
  {
    var order, merged := MergePages(pages);
    assert Merged(order, merged).Valid();
    records, total := StoreRecords(order, merged, attribute);
  }

  method StoreRecords(order: seq<string>, merged: map<string, Item>, attribute: Item -> Option<Id>)
    returns (records: seq<Record>, total: real)
    requires forall key :: key in order ==> key in merged
    ensures records == RecordsOf(order, merged, attribute) && total == RecordCredits(records)
  {
    records, total := [], 0.0;
    var k := 0;
    while k < |order|
      invariant 0 <= k <= |order|
      invariant records == RecordsOf(order[..k], merged, attribute) && total == RecordCredits(records)
    {
      var record := RecordOf(merged[order[k]], attribute);
      RecordsGrow(order, merged, attribute, k);
      records := records + [record];
      total := total + record.credits;
      k := k + 1;
    }
    assert order[..k] == order;
  }

  // --------------------------------------------------------------- order and identity

  /** Where a subject is first reported. */
  function FirstAt(items: seq<Item>, key: string): nat {
    if items == [] || items[0].subjectKey == key then 0 else 1 + FirstAt(items[1..], key)
  }

  ghost predicate Reports(items: seq<Item>, key: string) {
    exists i :: 0 <= i < |items| && items[i].subjectKey == key
  }

  lemma {:induction false} FirstAtSnoc(items: seq<Item>, item: Item, key: string)
    ensures Reports(items, key) ==> FirstAt(items + [item], key) == FirstAt(items, key) < |items|
    ensures !Reports(items, key) ==> FirstAt(items, key) == |items| && FirstAt(items + [item], key) >= |items|
    ensures !Reports(items, key) && item.subjectKey == key ==> FirstAt(items + [item], key) == |items|
    ensures Reports(items, key) ==> items[FirstAt(items, key)].subjectKey == key
  {
    if items != [] {
      assert (items + [item])[1..] == items[1..] + [item];
      FirstAtSnoc(items[1..], item, key);
      if Reports(items, key) && items[0].subjectKey != key {
        var i :| 0 <= i < |items| && items[i].subjectKey == key;
        assert items[1..][i - 1].subjectKey == key;
      }
      if Reports(items[1..], key) {
        var i :| 0 <= i < |items[1..]| && items[1..][i].subjectKey == key;
        assert items[i + 1].subjectKey == key;
      }
    }
  }

  lemma FirstIsThere(items: seq<Item>, key: string)
    requires Reports(items, key)
    ensures FirstAt(items, key) < |items| && items[FirstAt(items, key)].subjectKey == key
  {
    FirstAtSnoc(items, items[0], key);
  }

  predicate SameIdentity(a: Item, b: Item) {
    a.subjectKey == b.subjectKey && a.name == b.name && a.email == b.email && a.reportedId == b.reportedId
  }

  lemma ReportsSnoc(items: seq<Item>, item: Item, key: string)
    ensures Reports(items + [item], key) <==> Reports(items, key) || item.subjectKey == key
  {
    if i :| 0 <= i < |items| && items[i].subjectKey == key {
      assert (items + [item])[i].subjectKey == key;
    }
    if item.subjectKey == key {
      assert (items + [item])[|items|].subjectKey == key;
    }
  }

  lemma {:induction false} MergedAreReported(items: seq<Item>, key: string)
    ensures key in MergeAll(items).at <==> Reports(items, key)
    decreases |items|
  {
    if items != [] {
      var n := |items| - 1;
      MergedAreReported(items[..n], key);
      ReportsSnoc(items[..n], items[n], key);
      assert items == items[..n] + [items[n]];
    }
  }

  /** The merged poll holds exactly the reported subjects, each with the identity it was first reported by. */
  lemma {:induction false} FirstReportNames(items: seq<Item>, key: string)
    requires Reports(items, key)
    ensures key in MergeAll(items).at && FirstAt(items, key) < |items|
    ensures SameIdentity(MergeAll(items).at[key], items[FirstAt(items, key)])
    decreases |items|
  {
    var n := |items| - 1;
    MergedAreReported(items, key);
    MergedAreReported(items[..n], key);
    FirstIsThere(items, key);
    assert items == items[..n] + [items[n]];
    FirstAtSnoc(items[..n], items[n], key);
    ReportsSnoc(items[..n], items[n], key);
    if Reports(items[..n], key) {
      FirstReportNames(items[..n], key);
    }
  }

  /** Subjects come in the order of their first reports. */
  lemma {:induction false} OrderOfAppearance(items: seq<Item>, i: nat, j: nat)
    requires i < j < |MergeAll(items).order|
    ensures var order := MergeAll(items).order;
            Reports(items, order[i]) && Reports(items, order[j]) && FirstAt(items, order[i]) < FirstAt(items, order[j])
    decreases |items|
  {
    var n := |items| - 1;
    var before := MergeAll(items[..n]);
    var order := MergeAll(items).order;
    assert items == items[..n] + [items[n]];
    MergedAreReported(items, order[i]);
    MergedAreReported(items, order[j]);
    MergedAreReported(items[..n], order[i]);
    MergedAreReported(items[..n], order[j]);
    FirstAtSnoc(items[..n], items[n], order[i]);
    FirstAtSnoc(items[..n], items[n], order[j]);
    if j < |before.order| {
      OrderOfAppearance(items[..n], i, j);
    }
  }

  // -------------------------------------------------------------------- conservation

  function Figure(item: Item, action: Option<string>): real {
    match action
    case None => item.credits
    case Some(a) => CountOf(item.actions, a) as real
  }

  function FigureOver(keys: seq<string>, at: map<string, Item>, action: Option<string>): real
    requires forall k :: k in keys ==> k in at
  {
    if keys == [] then 0.0
    else FigureOver(keys[..|keys| - 1], at, action) + Figure(at[keys[|keys| - 1]], action)
  }

  lemma {:induction false} FigureElsewhere(
    keys: seq<string>, at: map<string, Item>, key: string, item: Item, action: Option<string>)
    requires forall k :: k in keys ==> k in at
    requires key !in keys
    ensures FigureOver(keys, at[key := item], action) == FigureOver(keys, at, action)
  {
    if keys != [] {
      assert keys[|keys| - 1] in keys;
      FigureElsewhere(keys[..|keys| - 1], at, key, item, action);
    }
  }

  lemma {:induction false} FigureChange(
    keys: seq<string>, at: map<string, Item>, i: nat, item: Item, action: Option<string>)
    requires (forall k :: k in keys ==> k in at) && i < |keys|
    requires forall a, b :: 0 <= a < b < |keys| ==> keys[a] != keys[b]
    ensures FigureOver(keys, at[keys[i] := item], action) ==
            FigureOver(keys, at, action) - Figure(at[keys[i]], action) + Figure(item, action)
    decreases |keys|
  {
    var n := |keys| - 1;
    if i == n {
      FigureElsewhere(keys[..n], at, keys[n], item, action);
    } else {
      assert keys[..n][i] == keys[i];
      FigureChange(keys[..n], at, i, item, action);
    }
  }

  lemma CombiningAddsUp(first: Item, second: Item, action: Option<string>)
    ensures Figure(Combine(first, second), action) == Figure(first, action) + Figure(second, action)
  {
    if action.Some? {
      assert CountOf(Combine(first, second).actions, action.value)
             == CountOf(first.actions, action.value) + CountOf(second.actions, action.value);
    }
  }

  lemma MergingOneConserves(m: Merged, item: Item, action: Option<string>)
    requires m.Valid()
    ensures var m' := MergeOne(m, item);
            FigureOver(m'.order, m'.at, action) == FigureOver(m.order, m.at, action) + Figure(item, action)
  {
    var key := item.subjectKey;
    if key in m.at {
      var i :| 0 <= i < |m.order| && m.order[i] == key;
      FigureChange(m.order, m.at, i, Combine(m.at[key], item), action);
      CombiningAddsUp(m.at[key], item, action);
    } else {
      FigureElsewhere(m.order, m.at, key, item, action);
      var order := m.order + [key];
      assert order[..|order| - 1] == m.order;
    }
  }

  function ItemFigure(items: seq<Item>, action: Option<string>): real {
    if items == [] then 0.0 else ItemFigure(items[..|items| - 1], action) + Figure(items[|items| - 1], action)
  }

  lemma {:induction false} MergingConserves(items: seq<Item>, action: Option<string>)
    ensures FigureOver(MergeAll(items).order, MergeAll(items).at, action) == ItemFigure(items, action)
    decreases |items|
  {
    if items != [] {
      var before := MergeAll(items[..|items| - 1]);
      MergingConserves(items[..|items| - 1], action);
      MergingOneConserves(before, items[|items| - 1], action);
    }
  }

  lemma {:induction false} RecordsCarryFigures(
    keys: seq<string>, at: map<string, Item>, attribute: Item -> Option<Id>, action: string)
    requires forall k :: k in keys ==> k in at
    ensures var r := RecordsOf(keys, at, attribute);
            && RecordCredits(r) == FigureOver(keys, at, None)
            && RecordCount(r, action) as real == FigureOver(keys, at, Some(action))
  {
    if keys != [] {
      var n := |keys| - 1;
      RecordsCarryFigures(keys[..n], at, attribute, action);
      var r := RecordsOf(keys, at, attribute);
      assert r[..|r| - 1] == RecordsOf(keys[..n], at, attribute);
    }
  }

  /** Totals by entity: only records attributed to a named entity count. */
  predicate Attributed(record: Record) {
    record.entity.Some? && record.entity.value != ""
  }

  function TotalAt(totals: map<Id, real>, entity: Id): real {
    if entity in totals then totals[entity] else 0.0
  }

  function LatestTotals(records: seq<Record>): map<Id, real> {
    if records == [] then map[]
    else
      var before := LatestTotals(records[..|records| - 1]);
      var r := records[|records| - 1];
      if Attributed(r) then before[r.entity.value := TotalAt(before, r.entity.value) + r.credits] else before
  }

  function Unattributed(records: seq<Record>): real {
    if records == [] then 0.0
    else
      var r := records[|records| - 1];
      Unattributed(records[..|records| - 1]) + if Attributed(r) then 0.0 else r.credits
  }

  ghost function Pick(m: map<Id, real>): (k: Id)
    requires m != map[]
    ensures k in m
  {
    assert m.Keys != {};
    var k :| k in m.Keys;
    k
  }

  ghost function SumOfTotals(m: map<Id, real>): real
    decreases |m|
  {
    if m == map[] then 0.0 else m[Pick(m)] + SumOfTotals(m - {Pick(m)})
  }

  lemma {:induction false} SumFromAny(m: map<Id, real>, k: Id)
    requires k in m
    ensures SumOfTotals(m) == m[k] + SumOfTotals(m - {k})
    decreases |m|
  {
    var j := Pick(m);
    if j != k {
      SumFromAny(m - {j}, k);
      SumFromAny(m - {k}, j);
      assert m - {j} - {k} == m - {k} - {j};
    }
  }

  lemma {:induction false} TotalsConserve(records: seq<Record>)
    ensures SumOfTotals(LatestTotals(records)) + Unattributed(records) == RecordCredits(records)
    decreases |records|
  {
    if records != [] {
      var r := records[|records| - 1];
      var before := LatestTotals(records[..|records| - 1]);
      TotalsConserve(records[..|records| - 1]);
      if Attributed(r) {
        var e := r.entity.value;
        var after := before[e := TotalAt(before, e) + r.credits];
        SumFromAny(after, e);
        assert after - {e} == before - {e};
        if e in before {
          SumFromAny(before, e);
        } else {
          assert before - {e} == before;
        }
      }
    }
  }

  /**
   Nothing is lost or counted twice from the server's pages to the limits: the stored total is the
   sum over every row that names somebody, however subjects repeat between pages; it is split
   without remainder between entities and unattributed records; and so are the action counts.
   */
  lemma CreditsAreConserved(pages: seq<Page>, attribute: Item -> Option<Id>, action: string)
    ensures var items := AllItems(pages);
            var m := MergeAll(items);
            var records := RecordsOf(m.order, m.at, attribute);
            && RecordCredits(records) == ItemFigure(items, None)
            && SumOfTotals(LatestTotals(records)) + Unattributed(records) == ItemFigure(items, None)
            && RecordCount(records, action) as real == ItemFigure(items, Some(action))
  {
    var items := AllItems(pages);
    var m := MergeAll(items);
    MergingConserves(items, None);
    MergingConserves(items, Some(action));
    RecordsCarryFigures(m.order, m.at, attribute, action);
    TotalsConserve(RecordsOf(m.order, m.at, attribute));
  }

  // ------------------------------------------------------------------- from raw rows

  predicate Present(s: Option<string>) {
    s.Some? ==> Strip(s.value) != ""
  }

  predicate WellRead(raw: RawRow) {
    Present(raw.name) && Present(raw.email) && Present(raw.id)
  }

  /** The row names somebody: by name, by address or by identifier. */
  predicate HasIdentity(raw: RawRow) {
    raw.name.Some? || raw.email.Some? || raw.id.Some?
  }

  ghost predicate NamesSomebody(rows: seq<RawRow>) {
    exists r :: r in rows && HasIdentity(r)
  }

  lemma ParsedIffIdentified(raw: RawRow)
    requires WellRead(raw)
    ensures ParseRow(raw).Some? <==> HasIdentity(raw)
  {
  }

  /** What one server row adds: its credits, or its reports of an action; nothing when it names nobody. */
  function RowFigure(raw: RawRow, action: Option<string>): real {
    if !HasIdentity(raw) then 0.0
    else
      match action
      case None => raw.credits
      case Some(a) => EntryCount(raw.actions, a) as real
  }

  function RowsFigure(rows: seq<RawRow>, action: Option<string>): real {
    if rows == [] then 0.0 else RowFigure(rows[0], action) + RowsFigure(rows[1..], action)
  }

  function ServerFigure(pages: seq<seq<RawRow>>, action: Option<string>): real {
    if pages == [] then 0.0 else ServerFigure(pages[..|pages| - 1], action) + RowsFigure(pages[|pages| - 1], action)
  }

  lemma {:induction false} FiguresAppend(a: seq<Item>, b: seq<Item>, action: Option<string>)
    ensures ItemFigure(a + b, action) == ItemFigure(a, action) + ItemFigure(b, action)
    decreases |b|
  {
    if b == [] {
      assert a + b == a;
    } else {
      assert (a + b)[..|a + b| - 1] == a + b[..|b| - 1];
      FiguresAppend(a, b[..|b| - 1], action);
    }
  }

  lemma ParsingOneKeepsFigure(raw: RawRow, action: Option<string>)
    requires WellRead(raw)
    ensures var item := ParseRow(raw);
            ItemFigure(if item.Some? then [item.value] else [], action) == RowFigure(raw, action)
  {
    ParsedIffIdentified(raw);
    if action.Some? {
      ActionTotalsAddUp(raw.actions, action.value);
    }
    var item := ParseRow(raw);
    if item.Some? {
      assert ItemFigure([item.value][..0], action) == 0.0;
    }
  }

  lemma {:induction false} ParsingKeepsFigures(rows: seq<RawRow>, action: Option<string>)
    requires forall r :: r in rows ==> WellRead(r)
    ensures ItemFigure(Identified(rows), action) == RowsFigure(rows, action)
  {
    if rows != [] {
      var item := ParseRow(rows[0]);
      ParsingOneKeepsFigure(rows[0], action);
      ParsingKeepsFigures(rows[1..], action);
      FiguresAppend(if item.Some? then [item.value] else [], Identified(rows[1..]), action);
    }
  }

  ghost predicate AllWellRead(rows: seq<seq<RawRow>>) {
    forall n, r :: 0 <= n < |rows| && r in rows[n] ==> WellRead(r)
  }

  /** The pages hold the identified rows, page by page. */
  ghost predicate ReadInto(rows: seq<seq<RawRow>>, pages: seq<Page>) {
    |pages| == |rows| && forall n :: 0 <= n < |rows| ==> pages[n].items == Identified(rows[n])
  }

  lemma {:induction false} PagesKeepFigures(pages: seq<Page>, rows: seq<seq<RawRow>>, action: Option<string>)
    requires ReadInto(rows, pages) && AllWellRead(rows)
    ensures ItemFigure(AllItems(pages), action) == ServerFigure(rows, action)
    decreases |rows|
  {
    if rows != [] {
      var n := |rows| - 1;
      PagesKeepFigures(pages[..n], rows[..n], action);
      ParsingKeepsFigures(rows[n], action);
      FiguresAppend(AllItems(pages[..n]), pages[n].items, action);
    }
  }

  /** A server that holds these rows and announces how many pages they make. */
  ghost predicate ServesRows(serve: nat -> Page, rows: seq<seq<RawRow>>) {
    && 1 <= |rows| <= MAX_PAGES && AllWellRead(rows)
    && forall n :: 1 <= n <= |rows| ==> serve(n) == ParsePage(rows[n - 1], Some(|rows|))
  }

  function ItemPages(rows: seq<seq<RawRow>>): seq<seq<Item>> {
    seq(|rows|, n requires 0 <= n < |rows| => Identified(rows[n]))
  }

  lemma EveryPageIsAsked(serve: nat -> Page, rows: seq<seq<RawRow>>, pageSize: nat)
    requires ServesRows(serve, rows) && forall n :: 0 <= n < |rows| - 1 ==> NamesSomebody(rows[n])
    ensures |PagesFrom(serve, 1, pageSize)| == |rows|
  {
    var items := ItemPages(rows);
    forall n | 0 <= n < |rows| - 1 ensures items[n] != [] {
      assert NamesSomebody(rows[n]);
      var r :| r in rows[n] && HasIdentity(r);
      IdentityIsKept(rows[n], r);
    }
    FetchIsCompleteIff(serve, items, pageSize);
  }

  lemma EveryPageIsRead(serve: nat -> Page, rows: seq<seq<RawRow>>, pageSize: nat, pages: seq<Page>)
    requires ServesRows(serve, rows) && forall n :: 0 <= n < |rows| - 1 ==> NamesSomebody(rows[n])
    requires pages == PagesFrom(serve, 1, pageSize)
    ensures ReadInto(rows, pages)
  {
    EveryPageIsAsked(serve, rows, pageSize);
    forall n | 0 <= n < |rows| ensures pages[n].items == Identified(rows[n]) {
      PagesInOrder(serve, 1, pageSize, n);
    }
  }

  /**
   End to end: from a server that announces its pages, none of them without an identity before the
   last, the stored credits and the stored counts of every action are the sums over every row with an
   identity on every page.
   */
  lemma EveryIdentifiedRowIsStored(
    serve: nat -> Page, rows: seq<seq<RawRow>>, pageSize: nat, pages: seq<Page>, attribute: Item -> Option<Id>,
    action: string)
    requires ServesRows(serve, rows) && forall n :: 0 <= n < |rows| - 1 ==> NamesSomebody(rows[n])
    requires pages == PagesFrom(serve, 1, pageSize)
    ensures var m := MergeAll(AllItems(pages));
            var records := RecordsOf(m.order, m.at, attribute);
            && RecordCredits(records) == ServerFigure(rows, None)
            && RecordCount(records, action) as real == ServerFigure(rows, Some(action))
  {
    EveryPageIsRead(serve, rows, pageSize, pages);
    StoredIsServed(pages, rows, attribute, action);
  }

  lemma StoredIsServed(pages: seq<Page>, rows: seq<seq<RawRow>>, attribute: Item -> Option<Id>, action: string)
    requires ReadInto(rows, pages) && AllWellRead(rows)
    ensures var m := MergeAll(AllItems(pages));
            var records := RecordsOf(m.order, m.at, attribute);
            && RecordCredits(records) == ServerFigure(rows, None)
            && RecordCount(records, action) as real == ServerFigure(rows, Some(action))
  {
    PagesKeepFigures(pages, rows, None);
    PagesKeepFigures(pages, rows, Some(action));
    CreditsAreConserved(pages, attribute, action);
  }

  lemma {:induction false} IdentityIsKept(rows: seq<RawRow>, r: RawRow)
    requires r in rows && HasIdentity(r) && WellRead(r)
    ensures Identified(rows) != []
  {
    if rows[0] == r {
      ParsedIffIdentified(r);
    } else {
      IdentityIsKept(rows[1..], r);
    }
  }

  // ------------------------------------------------------- servers that announce nothing

  ghost predicate AllNamed(rows: seq<RawRow>) {
    forall r :: r in rows ==> HasIdentity(r)
  }

  lemma {:induction false} IdentifiedIsWholeIff(rows: seq<RawRow>)
    requires forall r :: r in rows ==> WellRead(r)
    ensures |Identified(rows)| <= |rows|
    ensures |Identified(rows)| == |rows| <==> AllNamed(rows)
  {
    if rows != [] {
      ParsedIffIdentified(rows[0]);
      IdentifiedIsWholeIff(rows[1..]);
      assert rows == [rows[0]] + rows[1..];
    }
  }

  /** A server of pages of any size that does not say how many there are. */
  ghost predicate ServesSilently(serve: nat -> Page, rows: seq<seq<RawRow>>) {
    && 1 <= |rows| <= MAX_PAGES && AllWellRead(rows)
    && forall n :: 1 <= n <= |rows| ==> serve(n) == ParsePage(rows[n - 1], None)
  }

  /** A page that does not look like the last one: full, after the rows that name nobody are dropped. */
  ghost predicate LooksFull(rows: seq<RawRow>, pageSize: nat) {
    Identified(rows) != [] && |Identified(rows)| >= pageSize
  }

  /**
   Without an announced page count a short page is taken for the last one, and rows that name nobody
   shorten a page: every page is read exactly when each before the last looks full.
   */
  lemma SilentFetchIsCompleteIff(serve: nat -> Page, rows: seq<seq<RawRow>>, pageSize: nat)
    requires ServesSilently(serve, rows)
    ensures |PagesFrom(serve, 1, pageSize)| >= |rows| <==>
              forall n :: 0 <= n < |rows| - 1 ==> LooksFull(rows[n], pageSize)
  {
    var whole := (m: nat) => m < |rows| && LooksFull(rows[m], pageSize);
    forall m: nat | m + 1 < |rows|
      ensures LastAsked(serve(m + 1), m + 1, pageSize) <==> !whole(m)
    {
      assert serve(m + 1) == ParsePage(rows[m], None);
    }
    PagingIsCompleteIff(serve, |rows|, 0, pageSize, whole);
    assert forall m: nat :: m < |rows| ==> (whole(m) <==> LooksFull(rows[m], pageSize));
  }

  /** On pages of exactly the size asked for, that means that every row on them names somebody. */
  lemma FullPageLooksFullIff(rows: seq<RawRow>, pageSize: nat)
    requires |rows| == pageSize >= 1 && forall r :: r in rows ==> WellRead(r)
    ensures LooksFull(rows, pageSize) <==> AllNamed(rows)
  {
    IdentifiedIsWholeIff(rows);
  }

  /** After the last page such a server has only an empty one. */
  ghost predicate EndsEmpty(serve: nat -> Page, rows: seq<seq<RawRow>>) {
    serve(|rows| + 1).items == []
  }

  lemma {:induction false} PagesAreLimited(serve: nat -> Page, number: nat, pageSize: nat)
    requires number <= MAX_PAGES + 1
    ensures |PagesFrom(serve, number, pageSize)| <= MAX_PAGES + 1 - number
    decreases MAX_PAGES + 1 - number
  {
    if number <= MAX_PAGES {
      PagesCount(serve, number, pageSize);
      PagesAreLimited(serve, number + 1, pageSize);
    }
  }

  /** Paging goes no further than a page that looks like the last, nor than the limit. */
  lemma PagesEndBy(serve: nat -> Page, pageSize: nat, total: nat)
    requires 1 <= total && (total <= MAX_PAGES ==> LastAsked(serve(total), total, pageSize))
    ensures |PagesFrom(serve, 1, pageSize)| <= total
  {
    if total <= MAX_PAGES {
      var whole := (m: nat) => !LastAsked(serve(m + 1), m + 1, pageSize);
      PagingIsCompleteIff(serve, total, 0, pageSize, whole);
    } else {
      PagesAreLimited(serve, 1, pageSize);
    }
  }

  lemma SilentPagesAreRead(serve: nat -> Page, rows: seq<seq<RawRow>>, pageSize: nat, pages: seq<Page>)
    requires ServesSilently(serve, rows) && EndsEmpty(serve, rows)
    requires forall n :: 0 <= n < |rows| - 1 ==> LooksFull(rows[n], pageSize)
    requires pages == PagesFrom(serve, 1, pageSize)
    ensures |rows| <= |pages| <= |rows| + 1 && ReadInto(rows, pages[..|rows|])
    ensures |pages| > |rows| ==> pages[|rows|].items == []
  {
    SilentFetchIsCompleteIff(serve, rows, pageSize);
    PagesEndBy(serve, pageSize, |rows| + 1);
    forall n | 0 <= n < |pages| ensures pages[n] == serve(n + 1) {
      PagesInOrder(serve, 1, pageSize, n);
    }
  }

  /** End to end for such a server: everything with an identity on every page is stored, and nothing else. */
  lemma SilentRowsAreStored(
    serve: nat -> Page, rows: seq<seq<RawRow>>, pageSize: nat, pages: seq<Page>, attribute: Item -> Option<Id>,
    action: string)
    requires ServesSilently(serve, rows) && EndsEmpty(serve, rows)
    requires forall n :: 0 <= n < |rows| - 1 ==> LooksFull(rows[n], pageSize)
    requires pages == PagesFrom(serve, 1, pageSize)
    ensures var m := MergeAll(AllItems(pages));
            var records := RecordsOf(m.order, m.at, attribute);
            && RecordCredits(records) == ServerFigure(rows, None)
            && RecordCount(records, action) as real == ServerFigure(rows, Some(action))
  {
    SilentPagesAreRead(serve, rows, pageSize, pages);
    if |pages| > |rows| {
      EmptyPageAddsNothing(pages);
    } else {
      assert pages[..|rows|] == pages;
    }
    StoredIsServed(pages[..|rows|], rows, attribute, action);
  }

  lemma EmptyPageAddsNothing(pages: seq<Page>)
    requires pages != [] && pages[|pages| - 1].items == []
    ensures AllItems(pages) == AllItems(pages[..|pages| - 1])
  {
  }
}
