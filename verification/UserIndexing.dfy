/** Whom a usage subject is billed to: the user index and the ladder of matches. */
module UserIndexing {
  import opened Options
  import opened Text
  import opened SubjectMatching
  import opened Ingestion

  /** A synced user; an empty string stands for a missing field. */
  datatype SyncedUser = SyncedUser(
    id: Id, email: string, username: string, firstName: string, lastName: string, displayName: string)

  function FullName(u: SyncedUser): string {
    Strip(if u.firstName == "" then u.lastName
          else if u.lastName == "" then u.firstName
          else u.firstName + " " + u.lastName)
  }

  predicate Bears(u: SyncedUser, key: string) {
    FullName(u) != "" && Lower(FullName(u)) == key
  }

  /** Everything the deterministic ladder and the fuzzy matcher look at. */
  datatype UserIndex = UserIndex(
    byEmail: map<string, Id>,
    byUsername: map<string, Id>,
    byFullName: map<string, Id>,
    ambiguous: set<string>,
    profiles: seq<UserProfile>)

  // -------------------------------------------------------------------- the user index

  /** Addresses, a user's own before a username that looks like one. */
  function EmailsWith(m: map<string, Id>, u: SyncedUser): map<string, Id> {
    var m1 := if u.email != "" then m[Normal(u.email) := u.id] else m;
    if u.username != "" && LooksLikeEmail(u.username) && Normal(u.username) !in m1
    then m1[Normal(u.username) := u.id]
    else m1
  }

  function EmailIndex(users: seq<SyncedUser>): map<string, Id> {
    if users == [] then map[] else EmailsWith(EmailIndex(users[..|users| - 1]), users[|users| - 1])
  }

  function UsernamesWith(m: map<string, Id>, u: SyncedUser): map<string, Id> {
    if u.username != "" then m[Normal(u.username) := u.id] else m
  }

  function UsernameIndex(users: seq<SyncedUser>): map<string, Id> {
    if users == [] then map[] else UsernamesWith(UsernameIndex(users[..|users| - 1]), users[|users| - 1])
  }

  function ProfileOf(u: SyncedUser): UserProfile {
    UserProfile(u.id, u.displayName, Tokens([FullName(u), u.email, u.username, u.firstName, u.lastName]))
  }

  /** One profile per user that has any tokens, in the users' order. */
  function ProfilesOf(users: seq<SyncedUser>): seq<UserProfile> {
    if users == [] then []
    else
      var profile := ProfileOf(users[|users| - 1]);
      ProfilesOf(users[..|users| - 1]) + if profile.tokens != {} then [profile] else []
  }

  ghost predicate IndexOf(index: UserIndex, users: seq<SyncedUser>) {
    && index.byEmail == EmailIndex(users) && index.byUsername == UsernameIndex(users)
    && NamesOnlyUnique(index.byFullName, index.ambiguous, users)
    && index.profiles == ProfilesOf(users)
  }

  method BuildUserIndex(users: seq<SyncedUser>) returns (index: UserIndex)
    ensures IndexOf(index, users)
  {
    var byEmail: map<string, Id>, byUsername: map<string, Id>, profiles := map[], map[], [];
    var i := 0;
    while i < |users|
      invariant 0 <= i <= |users|
      invariant byEmail == EmailIndex(users[..i]) && byUsername == UsernameIndex(users[..i])
      invariant profiles == ProfilesOf(users[..i])
    {
      assert users[..i + 1][..i] == users[..i];
      var user, profile := users[i], ProfileOf(users[i]);
      byEmail, byUsername := EmailsWith(byEmail, user), UsernamesWith(byUsername, user);
      profiles := profiles + if profile.tokens != {} then [profile] else [];
      i := i + 1;
    }
    assert users[..i] == users;
    var names, ambiguous := BuildNames(users);
    index := UserIndex(byEmail, byUsername, names, ambiguous, profiles);
  }

  /** Some user bears the name; two different users bear it. */
  ghost predicate Borne(users: seq<SyncedUser>, key: string) {
    exists u :: u in users && Bears(u, key)
  }

  ghost predicate Contested(users: seq<SyncedUser>, key: string) {
    exists u, v :: u in users && v in users && Bears(u, key) && Bears(v, key) && u.id != v.id
  }

  /** What the full-name index promises, in terms of the users alone. */
  ghost predicate NamesOnlyUnique(names: map<string, Id>, ambiguous: set<string>, users: seq<SyncedUser>) {
    && (forall key :: key in names <==> Borne(users, key) && !Contested(users, key))
    && (forall key, u :: key in names && u in users && Bears(u, key) ==> names[key] == u.id)
    && (forall key :: key in ambiguous <==> Contested(users, key))
  }

  /** The index half way, at one name: held with one of its bearers as soon as somebody bears it. */
  ghost predicate NameSoFar(names: map<string, Id>, ambiguous: set<string>, users: seq<SyncedUser>, key: string) {
    && (key in names <==> Borne(users, key))
    && (key in names ==> exists u :: u in users && Bears(u, key) && names[key] == u.id)
    && (key in ambiguous <==> Contested(users, key))
  }

  function NameStep(names: map<string, Id>, ambiguous: set<string>, user: SyncedUser): (map<string, Id>, set<string>) {
    var key := Lower(FullName(user));
    if FullName(user) == "" then (names, ambiguous)
    else (names[key := user.id], if key in names && names[key] != user.id then ambiguous + {key} else ambiguous)
  }

  /** One pass over the users; names seen on two users are dropped at the end. */
  method BuildNames(users: seq<SyncedUser>) returns (names: map<string, Id>, ambiguous: set<string>)
    ensures NamesOnlyUnique(names, ambiguous, users)
  {
    names, ambiguous := map[], {};
    var i := 0;
    while i < |users|
      invariant 0 <= i <= |users| && forall key :: NameSoFar(names, ambiguous, users[..i], key)
    {
      var user := users[i];
      assert users[..i + 1] == users[..i] + [user];
      NamesGrow(users[..i], user, names, ambiguous);
      ghost var (names', ambiguous') := NameStep(names, ambiguous, user);
      var fullName := FullName(user);
      if fullName != "" {
        var key := Lower(fullName);
        if key in names && names[key] != user.id {
          ambiguous := ambiguous + {key};
        }
        names := names[key := user.id];
      }
      assert names == names' && ambiguous == ambiguous';
      i := i + 1;
    }
    assert users[..i] == users;
    AllNamesSettle(names, ambiguous, users);
    names := names - ambiguous;
  }

  lemma AllNamesSettle(names: map<string, Id>, ambiguous: set<string>, users: seq<SyncedUser>)
    requires forall key :: NameSoFar(names, ambiguous, users, key)
    ensures NamesOnlyUnique(names - ambiguous, ambiguous, users)
  {
    forall key
      ensures key in names - ambiguous <==> Borne(users, key) && !Contested(users, key)
      ensures key in ambiguous <==> Contested(users, key)
      ensures forall u :: key in names - ambiguous && u in users && Bears(u, key) ==> names[key] == u.id
    {
      assert NameSoFar(names, ambiguous, users, key);
    }
  }

  lemma NamesGrow(seen: seq<SyncedUser>, user: SyncedUser, names: map<string, Id>, ambiguous: set<string>)
    requires forall key :: NameSoFar(names, ambiguous, seen, key)
    ensures var (names', ambiguous') := NameStep(names, ambiguous, user);
            forall key :: NameSoFar(names', ambiguous', seen + [user], key)
  {
    var (names', ambiguous') := NameStep(names, ambiguous, user);
    forall key ensures NameSoFar(names', ambiguous', seen + [user], key) {
      NameGrows(seen, user, names, ambiguous, key);
    }
  }

  lemma NameGrows(seen: seq<SyncedUser>, user: SyncedUser, names: map<string, Id>, ambiguous: set<string>, key: string)
    requires NameSoFar(names, ambiguous, seen, key)
    ensures NameSoFar(NameStep(names, ambiguous, user).0, NameStep(names, ambiguous, user).1, seen + [user], key)
  {
    OneMoreBearer(seen, user, key);
    OneMoreContests(seen, user, names, ambiguous, key);
    if Bears(user, key) {
      assert user in seen + [user];
    } else if key in names {
      var u :| u in seen && Bears(u, key) && names[key] == u.id;
      assert u in seen + [user];
    }
  }

  lemma OneMoreBearer(seen: seq<SyncedUser>, user: SyncedUser, key: string)
    ensures Borne(seen + [user], key) <==> Borne(seen, key) || Bears(user, key)
  {
    if Bears(user, key) {
      assert user in seen + [user];
    } else if Borne(seen, key) {
      var u :| u in seen && Bears(u, key);
      assert u in seen + [user];
    }
  }

  lemma OneMoreContests(
    seen: seq<SyncedUser>, user: SyncedUser, names: map<string, Id>, ambiguous: set<string>, key: string)
    requires NameSoFar(names, ambiguous, seen, key)
    ensures Contested(seen + [user], key) <==>
            Contested(seen, key) || (Bears(user, key) && key in names && names[key] != user.id)
  {
    var all := seen + [user];
    assert forall u :: u in all <==> u in seen || u == user;
    if Contested(seen, key) {
      var u, v :| u in seen && v in seen && Bears(u, key) && Bears(v, key) && u.id != v.id;
      assert u in all && v in all;
    } else if Bears(user, key) && key in names && names[key] != user.id {
      var u :| u in seen && Bears(u, key) && names[key] == u.id;
      assert u in all && user in all;
    }
    if Contested(all, key) && !Contested(seen, key) {
      var u, v :| u in all && v in all && Bears(u, key) && Bears(v, key) && u.id != v.id;
      var w := if u in seen then u else v;
      assert w in seen && Bears(w, key) && Borne(seen, key);
      var x :| x in seen && Bears(x, key) && names[key] == x.id;
      assert x.id == w.id;
    }
  }

  /** Two builds over the same users, in whatever order, index the same names. */
  lemma NameIndexIgnoresOrder(
    a: map<string, Id>, x: set<string>, p: seq<SyncedUser>, b: map<string, Id>, y: set<string>, q: seq<SyncedUser>)
    requires NamesOnlyUnique(a, x, p) && NamesOnlyUnique(b, y, q)
    requires forall u :: u in p <==> u in q
    ensures a == b && x == y
  {
    forall key ensures (Borne(p, key) <==> Borne(q, key)) && (Contested(p, key) <==> Contested(q, key)) {
      SameBearers(p, q, key);
      SameBearers(q, p, key);
    }
    forall key | key in a ensures key in b && a[key] == b[key] {
      var u :| u in p && Bears(u, key);
      assert u in q;
    }
    assert a.Keys == b.Keys;
  }

  lemma SameBearers(p: seq<SyncedUser>, q: seq<SyncedUser>, key: string)
    requires forall u :: u in p ==> u in q
    ensures (Borne(p, key) ==> Borne(q, key)) && (Contested(p, key) ==> Contested(q, key))
  {
  }

  // --------------------------------------------------------------------------- ladder

  function Found(m: map<string, Id>, key: string): Option<Id> {
    if key in m && m[key] != "" then Some(m[key]) else None
  }

  function ByAddress(index: UserIndex, candidate: Option<string>): Option<Id> {
    if candidate.Some? && LooksLikeEmail(candidate.value) then Found(index.byEmail, Normal(candidate.value)) else None
  }

  function OrElse(a: Option<Id>, b: Option<Id>): Option<Id> {
    if a.Some? then a else b
  }

  /** Email, then an address in the name, then username, then an unambiguous full name. */
  function ResolveExact(index: UserIndex, item: Item): Option<Id> {
    var byAddress := OrElse(ByAddress(index, item.email), ByAddress(index, item.name));
    if byAddress.Some? || item.name == None then byAddress
    else
      var key := Normal(item.name.value);
      var byUsername := Found(index.byUsername, key);
      if byUsername.Some? || key in index.ambiguous then byUsername else Found(index.byFullName, key)
  }

  /** The user carries the address, as an address of their own or as a username that is one. */
  predicate HasAddress(u: SyncedUser, address: string) {
    || (u.email != "" && Normal(u.email) == address)
    || (u.username != "" && LooksLikeEmail(u.username) && Normal(u.username) == address)
  }

  predicate HasUsername(u: SyncedUser, username: string) {
    u.username != "" && Normal(u.username) == username
  }

  /** The addresses and usernames indexed are those somebody holds, each with one of its holders. */
  lemma {:induction false} HoldersAreIndexed(users: seq<SyncedUser>, key: string)
    ensures forall u :: u in users && HasAddress(u, key) ==> key in EmailIndex(users)
    ensures key in EmailIndex(users) ==> exists u :: u in users && HasAddress(u, key) && u.id == EmailIndex(users)[key]
    ensures forall u :: u in users && HasUsername(u, key) ==> key in UsernameIndex(users)
    ensures key in UsernameIndex(users) ==>
        exists u :: u in users && HasUsername(u, key) && u.id == UsernameIndex(users)[key]
  {
    if users != [] {
      var n := |users| - 1;
      HoldersAreIndexed(users[..n], key);
      assert users == users[..n] + [users[n]];
      assert users[n] in users;
    }
  }

  predicate NamesAddress(item: Item, address: string) {
    || (item.email.Some? && LooksLikeEmail(item.email.value) && Normal(item.email.value) == address)
    || (item.name.Some? && LooksLikeEmail(item.name.value) && Normal(item.name.value) == address)
  }

  /** The user is reported by an address, by username, or by a full name nobody else bears. */
  ghost predicate ReportedAs(item: Item, u: SyncedUser, users: seq<SyncedUser>) {
    || (exists address :: HasAddress(u, address) && NamesAddress(item, address))
    || (item.name.Some? && HasUsername(u, Normal(item.name.value)))
    || (item.name.Some? && Bears(u, Normal(item.name.value)) && !Contested(users, Normal(item.name.value)))
  }

  /**
   The ladder bills an item to somebody exactly when some user is reported by it, and then to such a user.
   */
  lemma ExactMatchIffReported(index: UserIndex, users: seq<SyncedUser>, item: Item)
    requires IndexOf(index, users) && forall u :: u in users ==> u.id != ""
    ensures ResolveExact(index, item).Some? <==> exists u :: u in users && ReportedAs(item, u, users)
    ensures ResolveExact(index, item).Some? ==>
              exists u :: u in users && u.id == ResolveExact(index, item).value && ReportedAs(item, u, users)
  {
    if ResolveExact(index, item).Some? {
      MatchIsReported(index, users, item);
    }
    forall u | u in users && ReportedAs(item, u, users) ensures ResolveExact(index, item).Some? {
      ReportedIsMatched(index, users, item, u);
    }
  }

  lemma AddressMatch(index: UserIndex, users: seq<SyncedUser>, candidate: Option<string>)
    requires IndexOf(index, users) && forall u :: u in users ==> u.id != ""
    ensures ByAddress(index, candidate).Some? ==>
              && LooksLikeEmail(candidate.value)
              && exists u :: u in users && HasAddress(u, Normal(candidate.value))
                   && u.id == ByAddress(index, candidate).value
    ensures candidate.Some? && LooksLikeEmail(candidate.value) && ByAddress(index, candidate).None? ==>
              forall u :: u in users ==> !HasAddress(u, Normal(candidate.value))
  {
    if candidate.Some? {
      HoldersAreIndexed(users, Normal(candidate.value));
    }
  }

  lemma MatchIsReported(index: UserIndex, users: seq<SyncedUser>, item: Item)
    requires IndexOf(index, users) && forall u :: u in users ==> u.id != ""
    requires ResolveExact(index, item).Some?
    ensures exists u :: u in users && u.id == ResolveExact(index, item).value && ReportedAs(item, u, users)
  {
    var id := ResolveExact(index, item).value;
    AddressMatch(index, users, item.email);
    AddressMatch(index, users, item.name);
    if ByAddress(index, item.email).Some? {
      var u :| u in users && HasAddress(u, Normal(item.email.value)) && u.id == id;
      assert NamesAddress(item, Normal(item.email.value)) && ReportedAs(item, u, users);
    } else if ByAddress(index, item.name).Some? {
      var u :| u in users && HasAddress(u, Normal(item.name.value)) && u.id == id;
      assert NamesAddress(item, Normal(item.name.value)) && ReportedAs(item, u, users);
    } else {
      var key := Normal(item.name.value);
      HoldersAreIndexed(users, key);
      if Found(index.byUsername, key).Some? {
        var u :| u in users && HasUsername(u, key) && u.id == id;
        assert ReportedAs(item, u, users);
      } else {
        var u :| u in users && Bears(u, key);
        assert ReportedAs(item, u, users);
      }
    }
  }

  lemma ReportedIsMatched(index: UserIndex, users: seq<SyncedUser>, item: Item, u: SyncedUser)
    requires IndexOf(index, users) && forall v :: v in users ==> v.id != ""
    requires u in users && ReportedAs(item, u, users)
    ensures ResolveExact(index, item).Some?
  {
    AddressMatch(index, users, item.email);
    AddressMatch(index, users, item.name);
    if item.name.Some? {
      var key := Normal(item.name.value);
      HoldersAreIndexed(users, key);
      if Bears(u, key) && !Contested(users, key) {
        assert Borne(users, key);
        assert key in index.byFullName;
      }
    }
  }

  // --------------------------------------------------------------- who exactly is found

  predicate OwnAddress(u: SyncedUser, address: string) {
    u.email != "" && Normal(u.email) == address
  }

  predicate AddressAsUsername(u: SyncedUser, address: string) {
    u.username != "" && LooksLikeEmail(u.username) && Normal(u.username) == address
  }

  /**
   The user an address stands for: the last one synced whose own address it is; when it is nobody's,
   the first whose username it is.
   */
  ghost predicate StandsFor(users: seq<SyncedUser>, address: string, i: nat) {
    i < |users| &&
    if exists j :: 0 <= j < |users| && OwnAddress(users[j], address)
    then OwnAddress(users[i], address) && forall j :: i < j < |users| ==> !OwnAddress(users[j], address)
    else AddressAsUsername(users[i], address) && forall j :: 0 <= j < i ==> !AddressAsUsername(users[j], address)
  }

  /** The last user synced under the username. */
  ghost predicate GoesBy(users: seq<SyncedUser>, username: string, i: nat) {
    i < |users| && HasUsername(users[i], username) && forall j :: i < j < |users| ==> !HasUsername(users[j], username)
  }

  ghost predicate SomebodyOwns(users: seq<SyncedUser>, address: string) {
    exists j :: 0 <= j < |users| && OwnAddress(users[j], address)
  }

  lemma OwnsSnoc(users: seq<SyncedUser>, address: string)
    requires users != []
    ensures SomebodyOwns(users, address) <==>
            SomebodyOwns(users[..|users| - 1], address) || OwnAddress(users[|users| - 1], address)
  {
    var n := |users| - 1;
    assert forall j :: 0 <= j < n ==> users[..n][j] == users[j];
  }

  lemma {:induction false} AddressesAreIndexed(users: seq<SyncedUser>, address: string, i: nat)
    requires StandsFor(users, address, i)
    ensures address in EmailIndex(users) && EmailIndex(users)[address] == users[i].id
    decreases |users|
  {
    var n := |users| - 1;
    if i < n {
      StandsBefore(users, address, i);
      LaterKeeps(users, address, i);
      AddressesAreIndexed(users[..n], address, i);
    } else if !OwnAddress(users[n], address) {
      NobodyBefore(users, address);
      NobodyIsIndexed(users[..n], address);
    }
  }

  /** The last user does not take an address that an earlier one stands for. */
  lemma LaterKeeps(users: seq<SyncedUser>, address: string, i: nat)
    requires StandsFor(users, address, i) && i < |users| - 1
    ensures var before := EmailIndex(users[..|users| - 1]);
            address in before ==> address in EmailIndex(users) && EmailIndex(users)[address] == before[address]
  {
    assert !OwnAddress(users[|users| - 1], address);
  }

  lemma NobodyBefore(users: seq<SyncedUser>, address: string)
    requires users != [] && StandsFor(users, address, |users| - 1) && !OwnAddress(users[|users| - 1], address)
    ensures var before := users[..|users| - 1];
            forall j :: 0 <= j < |before| ==> !OwnAddress(before[j], address) && !AddressAsUsername(before[j], address)
  {
  }

  lemma StandsBefore(users: seq<SyncedUser>, address: string, i: nat)
    requires StandsFor(users, address, i) && i < |users| - 1
    ensures StandsFor(users[..|users| - 1], address, i)
  {
    var n := |users| - 1;
    assert forall j :: 0 <= j < n ==> users[..n][j] == users[j];
    if SomebodyOwns(users, address) {
      assert OwnAddress(users[..n][i], address);
    } else {
      OwnsSnoc(users, address);
    }
  }

  lemma {:induction false} NobodyIsIndexed(users: seq<SyncedUser>, address: string)
    requires forall j :: 0 <= j < |users| ==> !OwnAddress(users[j], address) && !AddressAsUsername(users[j], address)
    ensures address !in EmailIndex(users)
    decreases |users|
  {
    if users != [] {
      NobodyIsIndexed(users[..|users| - 1], address);
    }
  }

  lemma {:induction false} UsernamesAreIndexed(users: seq<SyncedUser>, username: string, i: nat)
    requires GoesBy(users, username, i)
    ensures username in UsernameIndex(users) && UsernameIndex(users)[username] == users[i].id
    decreases |users|
  {
    var n := |users| - 1;
    if i < n {
      assert users[..n][i] == users[i];
      UsernamesAreIndexed(users[..n], username, i);
    }
  }

  predicate Given(candidate: Option<string>) {
    candidate.Some? && LooksLikeEmail(candidate.value)
  }

  /** Nobody is found by this candidate as an address. */
  ghost predicate NoAddress(users: seq<SyncedUser>, candidate: Option<string>) {
    Given(candidate) ==> forall u :: u in users ==> !HasAddress(u, Normal(candidate.value))
  }

  /**
   The ladder, rung by rung: the reported address before anything else, then an address given as the
   name, then the username, and a full name only when exactly one user bears it.
   */
  ghost predicate LadderFinds(users: seq<SyncedUser>, item: Item, i: nat) {
    i < |users| &&
    if !NoAddress(users, item.email) then StandsFor(users, Normal(item.email.value), i)
    else if !NoAddress(users, item.name) then StandsFor(users, Normal(item.name.value), i)
    else if item.name.None? then false
    else if exists u :: u in users && HasUsername(u, Normal(item.name.value))
    then GoesBy(users, Normal(item.name.value), i)
    else Bears(users[i], Normal(item.name.value)) && !Contested(users, Normal(item.name.value))
  }

  lemma AddressFound(index: UserIndex, users: seq<SyncedUser>, candidate: Option<string>)
    requires IndexOf(index, users) && forall u :: u in users ==> u.id != ""
    ensures ByAddress(index, candidate).None? <==> NoAddress(users, candidate)
    ensures forall i: nat :: !NoAddress(users, candidate) && StandsFor(users, Normal(candidate.value), i) ==>
              ByAddress(index, candidate) == Some(users[i].id)
  {
    AddressMatch(index, users, candidate);
    if !NoAddress(users, candidate) {
      forall i: nat | StandsFor(users, Normal(candidate.value), i)
        ensures ByAddress(index, candidate) == Some(users[i].id)
      {
        assert users[i] in users;
        AddressesAreIndexed(users, Normal(candidate.value), i);
      }
    }
  }

  lemma NameFound(index: UserIndex, users: seq<SyncedUser>, key: string, i: nat)
    requires IndexOf(index, users) && (forall u :: u in users ==> u.id != "") && i < |users|
    ensures GoesBy(users, key, i) ==> Found(index.byUsername, key) == Some(users[i].id)
    ensures (forall u :: u in users ==> !HasUsername(u, key)) ==> Found(index.byUsername, key) == None
    ensures Bears(users[i], key) && !Contested(users, key) ==>
              key !in index.ambiguous && Found(index.byFullName, key) == Some(users[i].id)
  {
    assert users[i] in users;
    HoldersAreIndexed(users, key);
    if GoesBy(users, key, i) {
      UsernamesAreIndexed(users, key, i);
    }
    if Bears(users[i], key) && !Contested(users, key) {
      assert Borne(users, key) && key in index.byFullName;
    }
  }

  /** Whoever stands on the highest rung is billed, whatever the lower ones say. */
  lemma LadderPriority(index: UserIndex, users: seq<SyncedUser>, item: Item, i: nat)
    requires IndexOf(index, users) && forall u :: u in users ==> u.id != ""
    requires LadderFinds(users, item, i)
    ensures ResolveExact(index, item) == Some(users[i].id)
  {
    AddressFound(index, users, item.email);
    AddressFound(index, users, item.name);
    if NoAddress(users, item.email) && NoAddress(users, item.name) {
      NameFound(index, users, Normal(item.name.value), i);
    }
  }

  /** Whenever the ladder finds anybody, somebody stands on its highest rung. */
  lemma LadderFindsSomebodyIff(index: UserIndex, users: seq<SyncedUser>, item: Item)
    requires IndexOf(index, users) && forall u :: u in users ==> u.id != ""
    ensures ResolveExact(index, item).Some? <==> exists i: nat :: LadderFinds(users, item, i)
  {
    if i: nat :| LadderFinds(users, item, i) {
      LadderPriority(index, users, item, i);
    }
    if ResolveExact(index, item).Some? {
      ExactMatchIffReported(index, users, item);
      if !NoAddress(users, item.email) {
        var i := WhoStandsFor(users, Normal(item.email.value));
        assert LadderFinds(users, item, i);
      } else if !NoAddress(users, item.name) {
        var i := WhoStandsFor(users, Normal(item.name.value));
        assert LadderFinds(users, item, i);
      } else {
        NamedOnly(users, item);
        var key := Normal(item.name.value);
        if exists u :: u in users && HasUsername(u, key) {
          var i := WhoGoesBy(users, key);
          assert LadderFinds(users, item, i);
        } else {
          var u :| u in users && ReportedAs(item, u, users);
          assert Bears(u, key);
          var i :| 0 <= i < |users| && users[i] == u;
          assert LadderFinds(users, item, i);
        }
      }
    }
  }

  /** Without an address that leads to anybody, whoever is reported is reported by name. */
  lemma NamedOnly(users: seq<SyncedUser>, item: Item)
    requires NoAddress(users, item.email) && NoAddress(users, item.name)
    ensures forall u :: u in users && ReportedAs(item, u, users) ==>
              && item.name.Some?
              && (HasUsername(u, Normal(item.name.value))
                  || (Bears(u, Normal(item.name.value)) && !Contested(users, Normal(item.name.value))))
  {
    forall u, address | u in users && HasAddress(u, address) ensures !NamesAddress(item, address) {
    }
  }

  lemma {:induction false} WhoStandsFor(users: seq<SyncedUser>, address: string) returns (i: nat)
    requires exists u :: u in users && HasAddress(u, address)
    ensures StandsFor(users, address, i)
  {
    if SomebodyOwns(users, address) {
      i := LastOwner(users, address);
    } else {
      var u :| u in users && HasAddress(u, address);
      var j: nat :| j < |users| && users[j] == u;
      assert !OwnAddress(users[j], address) && AddressAsUsername(users[j], address);
      i := FirstNamesake(users, address, j);
    }
  }

  lemma {:induction false} LastOwner(users: seq<SyncedUser>, address: string) returns (i: nat)
    requires SomebodyOwns(users, address)
    ensures i < |users| && OwnAddress(users[i], address)
    ensures forall j :: i < j < |users| ==> !OwnAddress(users[j], address)
    decreases |users|
  {
    var n := |users| - 1;
    if OwnAddress(users[n], address) {
      i := n;
    } else {
      OwnsSnoc(users, address);
      i := LastOwner(users[..n], address);
      assert forall j :: 0 <= j < n ==> users[..n][j] == users[j];
    }
  }

  lemma {:induction false} FirstNamesake(users: seq<SyncedUser>, address: string, upTo: nat) returns (i: nat)
    requires upTo < |users| && AddressAsUsername(users[upTo], address)
    ensures i < |users| && AddressAsUsername(users[i], address)
    ensures forall j :: 0 <= j < i ==> !AddressAsUsername(users[j], address)
    decreases upTo
  {
    if j: nat :| j < upTo && AddressAsUsername(users[j], address) {
      i := FirstNamesake(users, address, j);
    } else {
      i := upTo;
    }
  }

  lemma {:induction false} WhoGoesBy(users: seq<SyncedUser>, username: string) returns (i: nat)
    requires exists u :: u in users && HasUsername(u, username)
    ensures GoesBy(users, username, i)
    decreases |users|
  {
    var n := |users| - 1;
    if HasUsername(users[n], username) {
      i := n;
    } else {
      var u :| u in users && HasUsername(u, username);
      assert users == users[..n] + [users[n]] && u in users[..n];
      i := WhoGoesBy(users[..n], username);
      assert forall j :: 0 <= j < n ==> users[..n][j] == users[j];
    }
  }

  function SubjectStrings(item: Item): seq<string> {
    [item.subjectKey] + (if item.name.Some? then [item.name.value] else [])
      + (if item.email.Some? then [item.email.value] else [])
  }

  /** The decision without looking at pins. */
  function ResolveUnpinned(index: UserIndex, item: Item, ratio: Ratio): MatchOutcome {
    var exact := ResolveExact(index, item);
    if exact.Some? then MatchOutcome(Exact, exact, [], false)
    else Classify(IsBotSubject(SubjectStrings(item)), Tokens(SubjectStrings(item)), index.profiles, ratio)
  }

  /** The index and the matcher as one function from items to decisions. */
  function Unpinned(index: UserIndex, ratio: Ratio): Item -> MatchOutcome {
    (item: Item) => ResolveUnpinned(index, item, ratio)
  }

  // --------------------------------------------------------------- what similarity looks at

  /** A subject is compared by its key, its name and its address. */
  lemma SubjectTokensAre(item: Item, token: string)
    ensures token in Tokens(SubjectStrings(item)) <==>
            || token in TokensOf(item.subjectKey)
            || (item.name.Some? && token in TokensOf(item.name.value))
            || (item.email.Some? && token in TokensOf(item.email.value))
  {
    TokensOfMany(SubjectStrings(item), token);
    var strings := SubjectStrings(item);
    assert strings[0] == item.subjectKey;
    assert item.name.Some? ==> strings[1] == item.name.value;
    assert item.email.Some? ==> strings[|strings| - 1] == item.email.value;
  }

  /** A user is compared by full name, address, username and both names. */
  lemma ProfileTokensAre(u: SyncedUser, token: string)
    ensures var p := ProfileOf(u);
            && p.userId == u.id && p.name == u.displayName
            && (token in p.tokens <==>
                  || token in TokensOf(FullName(u)) || token in TokensOf(u.email) || token in TokensOf(u.username)
                  || token in TokensOf(u.firstName) || token in TokensOf(u.lastName))
  {
    var strings := [FullName(u), u.email, u.username, u.firstName, u.lastName];
    TokensOfMany(strings, token);
    assert strings[0] in strings && strings[1] in strings && strings[2] in strings;
    assert strings[3] in strings && strings[4] in strings;
  }

  ghost predicate ComparedAs(users: seq<SyncedUser>, p: UserProfile) {
    exists u :: u in users && ProfileOf(u) == p && p.tokens != {}
  }

  lemma ComparedOneMore(users: seq<SyncedUser>, u: SyncedUser, p: UserProfile)
    ensures ComparedAs(users + [u], p) <==> ComparedAs(users, p) || (ProfileOf(u) == p && p.tokens != {})
  {
    assert u in users + [u] && forall v :: v in users + [u] <==> v in users || v == u;
  }

  lemma OneMoreProfile(before: seq<SyncedUser>, last: SyncedUser, p: UserProfile)
    ensures p in ProfilesOf(before + [last]) <==> p in ProfilesOf(before) || (ProfileOf(last) == p && p.tokens != {})
    ensures |ProfilesOf(before + [last])| <= |ProfilesOf(before)| + 1
  {
    var users := before + [last];
    assert users[..|users| - 1] == before && users[|users| - 1] == last;
  }

  /** Everybody who can be compared is, and nobody else. */
  lemma {:induction false} EverybodyIsCompared(users: seq<SyncedUser>, p: UserProfile)
    ensures p in ProfilesOf(users) <==> ComparedAs(users, p)
    ensures |ProfilesOf(users)| <= |users|
    decreases |users|
  {
    if users == [] {
      assert ProfilesOf(users) == [];
    } else {
      var before, last := users[..|users| - 1], users[|users| - 1];
      assert users == before + [last];
      EverybodyIsCompared(before, p);
      OneMoreProfile(before, last, p);
      ComparedOneMore(before, last, p);
    }
  }

  /** The full name is both names with a space between, or the one there is. */
  lemma FullNameIs(u: SyncedUser)
    ensures u.firstName != "" && u.lastName != "" && Trimmed(u.firstName) && Trimmed(u.lastName) ==>
              FullName(u) == u.firstName + " " + u.lastName
    ensures u.firstName == "" && Trimmed(u.lastName) ==> FullName(u) == u.lastName
    ensures u.lastName == "" && Trimmed(u.firstName) ==> FullName(u) == u.firstName
  {
    if u.firstName != "" && u.lastName != "" && Trimmed(u.firstName) && Trimmed(u.lastName) {
      var name := u.firstName + " " + u.lastName;
      assert name[0] == u.firstName[0] && name[|name| - 1] == u.lastName[|u.lastName| - 1];
      StripTrimmed(name);
    } else {
      if Trimmed(u.firstName) { StripTrimmed(u.firstName); }
      if Trimmed(u.lastName) { StripTrimmed(u.lastName); }
    }
  }
}
