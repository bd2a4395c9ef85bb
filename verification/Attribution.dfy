/** Whom reported usage is billed to, with the real user index behind the pins. */
module Attribution {
  import opened Options
  import opened Text
  import opened SubjectMatching
  import opened Ingestion
  import opened UserIndexing
  import opened Pinning

  /** Similarity finds one user clearly ahead of everyone else of the tenant. */
  ghost predicate ClearlyResembles(item: Item, users: seq<SyncedUser>, ratio: Ratio) {
    var tokens := Tokens(SubjectStrings(item));
    !IsBotSubject(SubjectStrings(item)) && tokens != {} &&
    exists c :: ClearWinner(multiset(Scored(tokens, ProfilesOf(users), ratio)), c)
  }

  ghost predicate SomebodyReported(item: Item, users: seq<SyncedUser>) {
    exists u :: u in users && ReportedAs(item, u, users)
  }

  lemma ResemblesIff(item: Item, users: seq<SyncedUser>, ratio: Ratio)
    ensures var strings := SubjectStrings(item);
            Classify(IsBotSubject(strings), Tokens(strings), ProfilesOf(users), ratio).CountedUserId().Some? <==>
            ClearlyResembles(item, users, ratio)
  {
    var strings := SubjectStrings(item);
    var tokens, profiles := Tokens(strings), ProfilesOf(users);
    if !IsBotSubject(strings) && tokens != {} {
      var counted := Classify(false, tokens, profiles, ratio).CountedUserId();
      if counted.Some? {
        FuzzyAutoIffClearWinner(tokens, profiles, ratio, counted.value);
      }
      forall c | ClearWinner(multiset(Scored(tokens, profiles, ratio)), c) ensures counted == Some(c.userId) {
        FuzzyAutoIffClearWinner(tokens, profiles, ratio, c.userId);
      }
    }
  }

  /**
   A poll bills an item to somebody exactly when it is pinned, or some user is reported by address,
   username or uncontested name, or similarity has a clear winner.
   */
  lemma BilledIff(pins: map<string, Id>, index: UserIndex, users: seq<SyncedUser>, item: Item, ratio: Ratio)
    requires IndexOf(index, users) && forall u :: u in users ==> u.id != ""
    ensures RecordOf(item, Biller(pins, Unpinned(index, ratio))).entity.Some? <==>
            Pin(pins, item).Some? || SomebodyReported(item, users) || ClearlyResembles(item, users, ratio)
  {
    var matcher := Unpinned(index, ratio);
    assert RecordOf(item, Biller(pins, matcher)).entity == BilledUser(pins, matcher, item);
    ExactMatchIffReported(index, users, item);
    ResemblesIff(item, users, ratio);
    assert matcher(item) == ResolveUnpinned(index, item, ratio);
  }

  /** A pin is honoured before anything else. */
  lemma PinnedIsBilled(pins: map<string, Id>, index: UserIndex, item: Item, ratio: Ratio)
    requires item.subjectKey in pins && pins[item.subjectKey] != ""
    ensures RecordOf(item, Biller(pins, Unpinned(index, ratio))).entity == Some(pins[item.subjectKey])
  {
  }

  /** Without one, whoever stands on the highest rung of the ladder is, before anybody who only looks alike. */
  lemma HighestRungIsBilled(
    pins: map<string, Id>, index: UserIndex, users: seq<SyncedUser>, item: Item, ratio: Ratio, i: nat)
    requires IndexOf(index, users) && forall u :: u in users ==> u.id != ""
    requires Pin(pins, item).None? && LadderFinds(users, item, i)
    ensures RecordOf(item, Biller(pins, Unpinned(index, ratio))).entity == Some(users[i].id)
  {
    LadderPriority(index, users, item, i);
    assert Unpinned(index, ratio)(item) == ResolveUnpinned(index, item, ratio);
  }

  /** And only when nobody does, the user whose profile clearly resembles the subject, if there is one. */
  lemma OnlyThenTheResembling(
    pins: map<string, Id>, index: UserIndex, users: seq<SyncedUser>, item: Item, ratio: Ratio, user: Id)
    requires IndexOf(index, users) && forall u :: u in users ==> u.id != ""
    requires Pin(pins, item).None? && forall i: nat :: !LadderFinds(users, item, i)
    ensures var tokens := Tokens(SubjectStrings(item));
            RecordOf(item, Biller(pins, Unpinned(index, ratio))).entity == Some(user) <==>
            && !IsBotSubject(SubjectStrings(item)) && tokens != {}
            && exists c :: ClearWinner(multiset(Scored(tokens, ProfilesOf(users), ratio)), c) && c.userId == user
  {
    LadderFindsSomebodyIff(index, users, item);
    var tokens := Tokens(SubjectStrings(item));
    if !IsBotSubject(SubjectStrings(item)) && tokens != {} {
      FuzzyAutoIffClearWinner(tokens, ProfilesOf(users), ratio, user);
    }
    assert Unpinned(index, ratio)(item) == ResolveUnpinned(index, item, ratio);
  }

  /** What a stored poll bills each subject to is what these rules say. */
  lemma PolledRecordsAreBilled(
    keys: seq<string>, at: map<string, Item>, attribute: Item -> Option<Id>, i: nat)
    requires (forall k :: k in keys ==> k in at) && i < |keys|
    ensures var record := RecordsOf(keys, at, attribute)[i];
            && record.subjectKey == Cut(at[keys[i]].subjectKey) && record.credits == at[keys[i]].credits
            && record.actions == at[keys[i]].actions
            && record.entity == RecordOf(at[keys[i]], attribute).entity
  {
  }

  /**
   Automation is meant never to be attributed to a user, but only the review is skipped: it is billed
   to nobody exactly when it is not pinned and neither the ladder nor similarity finds anybody.
   */
  lemma SyntheticIsBilledToNobodyIff(
    rows: map<string, Review>, index: UserIndex, users: seq<SyncedUser>, item: Item, ratio: Ratio)
    requires IndexOf(index, users) && (forall u :: u in users ==> u.id != "") && IsSynthetic(item.subjectKey)
    ensures var matcher := Unpinned(index, ratio);
            && (RecordOf(item, Biller(PinsOf(rows), matcher)).entity == None <==>
                !(item.subjectKey in rows && rows[item.subjectKey].mapped.GetOr("") != "")
                && !SomebodyReported(item, users) && !ClearlyResembles(item, users, ratio))
            && ReviewOne(rows, item, Resolve(PinsOf(rows), matcher, item)) == Some(rows)
  {
    BilledIff(PinsOf(rows), index, users, item, ratio);
  }

  lemma NamesakeIsSynthetic()
    ensures Normal("system") == "system" && IsSynthetic("system")
  {
    StripTrimmed("system");
    assert Normal("system") == "system";
  }

  /** For instance, a user who is called like the automation pays for it. */
  lemma NamesakePaysForAutomation(index: UserIndex, id: Id, ratio: Ratio)
    requires id != "" && IndexOf(index, [SyncedUser(id, "", "system", "", "", "")])
    ensures var item := Item("system", Some("system"), None, None, 1.0, map[]);
            && IsSynthetic(item.subjectKey)
            && RecordOf(item, Biller(map[], Unpinned(index, ratio))).entity.Some?
  {
    var user := SyncedUser(id, "", "system", "", "", "");
    var users := [user];
    var item := Item("system", Some("system"), None, None, 1.0, map[]);
    NamesakeIsSynthetic();
    assert user in users && ReportedAs(item, user, users);
    BilledIff(map[], index, users, item, ratio);
  }

  /**
   The real ladder, end to end: poll, map a subject by hand, and poll the same pages again over the
   same users.  The second poll stores what the mapping had already made of the first.
   */
  lemma MappingSurvivesTheNextPoll(
    rows: map<string, Review>, pages: seq<Page>, index: UserIndex, ratio: Ratio, key: string, user: Id)
    requires user != "" && ShortRows(rows)
    requires forall k :: k in MergeAll(AllItems(pages)).order && k != key ==> Cut(k) != key
    requires ReviewAll(rows, ItemsOf(pages), PinsOf(rows), Unpinned(index, ratio)).Some?
    requires key in ReviewAll(rows, ItemsOf(pages), PinsOf(rows), Unpinned(index, ratio)).value
    ensures var m := MergeAll(AllItems(pages));
            var matcher := Unpinned(index, ratio);
            var reviewed := ReviewAll(rows, ItemsOf(pages), PinsOf(rows), matcher).value;
            var mapped := reviewed[key := reviewed[key].(mapped := Some(user))];
            RecordsOf(m.order, m.at, Biller(PinsOf(mapped), matcher))
            == Repoint(RecordsOf(m.order, m.at, Biller(PinsOf(rows), matcher)), key, Some(user))
  {
    PollingAgainChangesNothing(rows, pages, Unpinned(index, ratio), key, user);
  }

  /** One poll of the user dimension, from the synced users and the pages to the store. */
  method Poll(store: UsageStore, users: seq<SyncedUser>, pages: seq<Page>, ratio: Ratio)
    returns (stored: bool, total: real, ghost index: UserIndex)
    modifies store
    ensures IndexOf(index, users)
    ensures var m := MergeAll(AllItems(pages));
            var pins, matcher := PinsOf(old(store.reviews)), Unpinned(index, ratio);
            var reviewed := ReviewAll(old(store.reviews), ItemsIn(m.order, m.at), pins, matcher);
            && (stored <==> DistinctStored(m.order) && reviewed.Some?)
            && (if stored then
                  && store.records == RecordsOf(m.order, m.at, Biller(pins, matcher))
                  && total == RecordCredits(store.records) && store.reviews == reviewed.value
                else store.records == old(store.records) && store.reviews == old(store.reviews))
  {
    var built := BuildUserIndex(users);
    index := built;
    stored, total := store.PollUsers(pages, Unpinned(built, ratio));
  }
}
