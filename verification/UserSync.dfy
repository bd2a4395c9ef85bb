/** Reading users page by page from the identity server, and flattening its tree of groups. */
module UserSync {
  import opened Options

  type Id = string

  const MAX_PAGES := 500

  /** A parsed user record; the details play no part in the paging. */
  datatype User = User(id: Id, details: string)

  /** A dictionary by id in order of first insertion; a later record replaces an earlier one. */
  datatype Roster = Roster(order: seq<Id>, at: map<Id, User>) {
    ghost predicate Valid() {
      && (forall i, j :: 0 <= i < j < |order| ==> order[i] != order[j])
      && (forall id :: id in order <==> id in at)
      && (forall id :: id in at ==> at[id].id == id)
    }

    function Put(user: User): (r: Roster)
      ensures |order| <= |r.order| && (|r.order| == |order| <==> user.id in at)
    {
      Roster(if user.id in at then order else order + [user.id], at[user.id := user])
    }

    function PutAll(users: seq<User>): (r: Roster)
      ensures |order| <= |r.order|
    {
      if users == [] then this else PutAll(users[..|users| - 1]).Put(users[|users| - 1])
    }

    function Users(): seq<User>
      requires Valid()
    {
      seq(|order|, i requires 0 <= i < |order| => at[order[i]])
    }
  }

  const EMPTY := Roster([], map[])

  lemma {:induction false} PutAllKeepsValid(r: Roster, users: seq<User>)
    requires r.Valid()
    ensures r.PutAll(users).Valid()
    decreases |users|
  {
    if users != [] {
      PutAllKeepsValid(r, users[..|users| - 1]);
    }
  }

  /** Of several records of one user the last counts. */
  lemma {:induction false} LastRecordCounts(r: Roster, users: seq<User>, i: nat)
    requires i < |users| && forall j :: i < j < |users| ==> users[j].id != users[i].id
    ensures users[i].id in r.PutAll(users).at && r.PutAll(users).at[users[i].id] == users[i]
    decreases |users|
  {
    if i < |users| - 1 {
      LastRecordCounts(r, users[..|users| - 1], i);
    }
  }

  /** What the server answers: at once without parameters, and then from each row offset. */
  datatype Server = Server(initial: seq<User>, reported: Option<int>, page: nat -> seq<User>)

  /** The roster when paging stops, from this offset with so many pages left. */
  function Paged(server: Server, seen: Roster, offset: nat, left: nat, reported: int): (r: Roster)
    ensures |seen.order| <= |r.order|
    decreases left, offset
  {
    if left == 0 || |seen.order| >= reported then seen
    else
      var users := server.page(offset);
      var after := seen.PutAll(users);
      if users == [] || |after.order| == |seen.order| then after
      else Paged(server, after, offset + |users|, left - 1, reported)
  }

  lemma {:induction false} PagedKeepsValid(server: Server, seen: Roster, offset: nat, left: nat, reported: int)
    requires seen.Valid()
    ensures Paged(server, seen, offset, left, reported).Valid()
    decreases left
  {
    if left > 0 && |seen.order| < reported {
      var users := server.page(offset);
      PutAllKeepsValid(seen, users);
      var after := seen.PutAll(users);
      if users != [] && |after.order| != |seen.order| {
        PagedKeepsValid(server, after, offset + |users|, left - 1, reported);
      }
    }
  }

  /** Whether the first answer already suffices. */
  predicate OneAnswer(server: Server) {
    server.reported.None? || |server.initial| >= server.reported.value
  }

  ghost function Fetched(server: Server, maxPages: nat): seq<User> {
    if OneAnswer(server) then server.initial
    else
      var first := EMPTY.PutAll(server.initial);
      PutAllKeepsValid(EMPTY, server.initial);
      PagedKeepsValid(server, first, |server.initial|, maxPages, server.reported.value);
      Paged(server, first, |server.initial|, maxPages, server.reported.value).Users()
  }

  /** The paging loop; it stops because every page but the last adds somebody not yet reported. */
  method FetchUsers(server: Server) returns (users: seq<User>, reported: Option<int>, short: bool)
    ensures users == Fetched(server, MAX_PAGES) && reported == server.reported
    ensures short <==> !OneAnswer(server) && |users| < server.reported.value
  {
    reported := server.reported;
    if reported.None? || |server.initial| >= reported.value {
      return server.initial, reported, false;
    }
    var total := reported.value;
    var seen := Remember(EMPTY, server.initial);
    PutAllKeepsValid(EMPTY, server.initial);
    var offset: nat, pages := |server.initial|, 0;
    ghost var result := Paged(server, seen, offset, MAX_PAGES, total);
    while pages < MAX_PAGES && |seen.order| < total
      invariant seen.Valid() && 0 <= pages <= MAX_PAGES
      invariant result == Paged(server, seen, offset, MAX_PAGES - pages, total)
      decreases total - |seen.order|
    {
      pages := pages + 1;
      var page := server.page(offset);
      if page == [] {
        break;
      }
      var before := |seen.order|;
      PutAllKeepsValid(seen, page);
      seen := Remember(seen, page);
      offset := offset + |page|;
      if |seen.order| == before {
        assert result == seen;
        break;
      }
    }
    assert result == seen;
    users := seen.Users();
    short := |users| < total;
  }

  method Remember(seen: Roster, users: seq<User>) returns (after: Roster)
    ensures after == seen.PutAll(users)
  {
    after := seen;
    var i := 0;
    while i < |users|
      invariant 0 <= i <= |users| && after == seen.PutAll(users[..i])
    {
      assert users[..i + 1][..i] == users[..i];
      after := after.Put(users[i]);
      i := i + 1;
    }
    assert users[..i] == users;
  }

  // ----------------------------------------------------------------- any server at all

  ghost predicate HasId(users: seq<User>, id: Id) {
    exists u :: u in users && u.id == id
  }

  lemma HasIdSnoc(users: seq<User>, user: User, id: Id)
    ensures HasId(users + [user], id) <==> HasId(users, id) || user.id == id
  {
    if HasId(users, id) {
      var u :| u in users && u.id == id;
      assert u in users + [user];
    } else if user.id == id {
      assert user in users + [user];
    }
  }

  lemma {:induction false} PutAllHolds(seen: Roster, users: seq<User>, id: Id)
    ensures id in seen.PutAll(users).at <==> id in seen.at || HasId(users, id)
    decreases |users|
  {
    if users != [] {
      var n := |users| - 1;
      PutAllHolds(seen, users[..n], id);
      HasIdSnoc(users[..n], users[n], id);
      assert users == users[..n] + [users[n]];
    }
  }

  /** Nobody is invented and nobody once seen is dropped, whatever the server answers. */
  lemma {:induction false} PagedIsSound(server: Server, seen: Roster, offset: nat, left: nat, reported: int, id: Id)
    ensures id in seen.at ==> id in Paged(server, seen, offset, left, reported).at
    ensures id in Paged(server, seen, offset, left, reported).at ==> id in seen.at || OnSomePage(server, id)
    decreases left
  {
    if left > 0 && |seen.order| < reported {
      var users := server.page(offset);
      var after := seen.PutAll(users);
      PutAllHolds(seen, users, id);
      if HasId(users, id) {
        assert OnSomePage(server, id);
      }
      if users != [] && |after.order| != |seen.order| {
        PagedIsSound(server, after, offset + |users|, left - 1, reported, id);
      }
    }
  }

  ghost predicate OnSomePage(server: Server, id: Id) {
    exists offset: nat :: HasId(server.page(offset), id)
  }

  // -------------------------------------------------------------- a faithful server

  function Least(a: nat, b: nat): nat {
    if a < b then a else b
  }

  predicate PageIs(server: Server, all: seq<User>, cap: nat, o: nat)
    requires o <= |all|
  {
    server.page(o) == all[o..Least(o + cap, |all|)]
  }

  /** A server that holds these users and serves at most `cap` of them from each offset. */
  ghost predicate Serves(server: Server, all: seq<User>, cap: nat) {
    && DistinctUsers(all)
    && server.reported == Some(|all|)
    && |server.initial| <= |all| && server.initial == all[..|server.initial|]
    && cap >= 1
    && (forall o: nat :: o <= |all| ==> PageIs(server, all, cap, o))
  }

  ghost predicate DistinctUsers(all: seq<User>) {
    forall i, j :: 0 <= i < j < |all| ==> all[i].id != all[j].id
  }

  ghost predicate Holds(r: Roster, all: seq<User>) {
    r.Valid() && |r.order| == |all| && forall i :: 0 <= i < |all| ==>
      r.order[i] == all[i].id && r.at[all[i].id] == all[i]
  }

  lemma PutNew(r: Roster, held: seq<User>, user: User)
    requires Holds(r, held) && forall i :: 0 <= i < |held| ==> held[i].id != user.id
    ensures Holds(r.Put(user), held + [user])
  {
    assert forall i :: 0 <= i < |r.order| ==> r.order[i] != user.id;
    assert user.id !in r.order && user.id !in r.at;
    assert r.Put(user) == Roster(r.order + [user.id], r.at[user.id := user]);
  }

  lemma {:induction false} HoldsAll(all: seq<User>)
    requires DistinctUsers(all)
    ensures Holds(EMPTY.PutAll(all), all)
    decreases |all|
  {
    if all != [] {
      var n := |all| - 1;
      HoldsAll(all[..n]);
      PutNew(EMPTY.PutAll(all[..n]), all[..n], all[n]);
      assert all == all[..n] + [all[n]];
    }
  }

  lemma HeldUsers(r: Roster, all: seq<User>)
    requires Holds(r, all)
    ensures r.Users() == all
  {
  }

  lemma {:induction false} PutAllAppends(r: Roster, a: seq<User>, b: seq<User>)
    ensures r.PutAll(a).PutAll(b) == r.PutAll(a + b)
    decreases |b|
  {
    if b == [] {
      assert a + b == a;
    } else {
      PutAllAppends(r, a, b[..|b| - 1]);
      assert (a + b)[..|a + b| - 1] == a + b[..|b| - 1];
    }
  }

  lemma NextPage(server: Server, seen: Roster, offset: nat, left: nat, reported: int)
    requires left > 0 && |seen.order| < |seen.PutAll(server.page(offset)).order| && |seen.order| < reported
    ensures Paged(server, seen, offset, left, reported)
            == Paged(server, seen.PutAll(server.page(offset)), offset + |server.page(offset)|, left - 1, reported)
  {
  }

  lemma HeldCount(all: seq<User>)
    requires DistinctUsers(all)
    ensures |EMPTY.PutAll(all).order| == |all|
  {
    HoldsAll(all);
  }

  lemma OnePage(server: Server, held: seq<User>, left: nat, reported: int)
    requires DistinctUsers(held + server.page(|held|)) && server.page(|held|) != [] && left > 0 && |held| < reported
    ensures var page := server.page(|held|);
            Paged(server, EMPTY.PutAll(held), |held|, left, reported)
            == Paged(server, EMPTY.PutAll(held + page), |held| + |page|, left - 1, reported)
  {
    var page := server.page(|held|);
    assert forall i :: 0 <= i < |held| ==> held[i] == (held + page)[i];
    HeldCount(held);
    HeldCount(held + page);
    PutAllAppends(EMPTY, held, page);
    NextPage(server, EMPTY.PutAll(held), |held|, left, reported);
  }

  /** How many users are read once so many pages have been. */
  function Reached(offset: nat, cap: nat, left: nat, n: nat): (r: nat)
    requires offset <= n
    ensures r <= n
    decreases left
  {
    if left == 0 || offset >= n then offset else Reached(Least(offset + cap, n), cap, left - 1, n)
  }

  lemma {:induction false} ReachedIs(offset: nat, cap: nat, left: nat, n: nat)
    requires offset <= n
    ensures Reached(offset, cap, left, n) == Least(offset + cap * left, n)
    decreases left
  {
    if left > 0 && offset < n {
      ReachedIs(Least(offset + cap, n), cap, left - 1, n);
      assert cap * left == cap * (left - 1) + cap;
    }
  }

  lemma PageTurns(server: Server, all: seq<User>, cap: nat, offset: nat, left: nat)
    requires Serves(server, all, cap) && offset < |all| && left > 0
    ensures var next := Least(offset + cap, |all|);
            Paged(server, EMPTY.PutAll(all[..offset]), offset, left, |all|)
            == Paged(server, EMPTY.PutAll(all[..next]), next, left - 1, |all|)
  {
    var next := Least(offset + cap, |all|);
    assert PageIs(server, all, cap, offset);
    assert all[..offset] + all[offset..next] == all[..next];
    assert |all[..offset]| == offset;
    OnePage(server, all[..offset], left, |all|);
  }

  lemma Stops(server: Server, seen: Roster, offset: nat, left: nat, reported: int)
    requires left == 0 || |seen.order| >= reported
    ensures Paged(server, seen, offset, left, reported) == seen
  {
  }

  lemma {:induction false} PagedReads(server: Server, all: seq<User>, cap: nat, offset: nat, left: nat)
    requires Serves(server, all, cap) && offset <= |all|
    ensures Paged(server, EMPTY.PutAll(all[..offset]), offset, left, |all|)
            == EMPTY.PutAll(all[..Reached(offset, cap, left, |all|)])
    decreases left
  {
    if left > 0 && offset < |all| {
      PageTurns(server, all, cap, offset, left);
      PagedReads(server, all, cap, Least(offset + cap, |all|), left - 1);
    } else {
      HeldCount(all[..offset]);
      Stops(server, EMPTY.PutAll(all[..offset]), offset, left, |all|);
    }
  }

  /**
   Against a faithful server the users come back in its order, as many as the page limit allows:
   everybody, without a warning, exactly when the pages suffice.
   */
  lemma FetchIsCompleteIff(server: Server, all: seq<User>, cap: nat, maxPages: nat)
    requires Serves(server, all, cap)
    ensures Fetched(server, maxPages) == all[..Least(|server.initial| + cap * maxPages, |all|)]
    ensures Fetched(server, maxPages) == all <==> |all| <= |server.initial| + cap * maxPages
  {
    var first := |server.initial|;
    ReachedIs(first, cap, maxPages, |all|);
    if first < |all| {
      PagedReads(server, all, cap, first, maxPages);
      var reached := all[..Reached(first, cap, maxPages, |all|)];
      HoldsAll(reached);
      HeldUsers(EMPTY.PutAll(reached), reached);
    }
  }

  // ---------------------------------------------------------------------------- groups

  /** A list of group entries, each with its own nested list; malformed entries hide theirs. */
  datatype Forest =
    | Nil
    | Malformed(rest: Forest)
    | Node(id: Id, name: string, path: Option<string>, children: Forest, rest: Forest)

  datatype Group = Group(id: Id, name: string, path: Option<string>, parent: Option<Id>)

  function Flat(f: Forest, parent: Option<Id>): seq<Group> {
    match f
    case Nil => []
    case Malformed(rest) => Flat(rest, parent)
    case Node(id, name, path, children, rest) =>
      [Group(id, name, path, parent)] + Flat(children, Some(id)) + Flat(rest, parent)
  }

  /** The list being filled is shared by all levels of the recursion. */
  class GroupList {
    var groups: seq<Group>

    constructor ()
      ensures groups == []
    {
      groups := [];
    }

    method Flatten(entries: Forest, parent: Option<Id>)
      modifies this
      ensures groups == old(groups) + Flat(entries, parent)
      decreases entries
    {
      var f := entries;
      while !f.Nil?
        invariant f == entries || f < entries
        invariant groups + Flat(f, parent) == old(groups) + Flat(entries, parent)
        decreases f
      {
        if f.Node? {
          groups := groups + [Group(f.id, f.name, f.path, parent)];
          Flatten(f.children, Some(f.id));
        }
        f := f.rest;
      }
    }
  }

  /** The tree without its malformed entries. */
  function Clean(f: Forest): Forest {
    match f
    case Nil => Nil
    case Malformed(rest) => Clean(rest)
    case Node(id, name, path, children, rest) => Node(id, name, path, Clean(children), Clean(rest))
  }

  lemma {:induction false} CleanIsFlattenedAlike(f: Forest, parent: Option<Id>)
    ensures Flat(Clean(f), parent) == Flat(f, parent)
    ensures Clean(Clean(f)) == Clean(f)
  {
    match f
    case Nil =>
    case Malformed(rest) => CleanIsFlattenedAlike(rest, parent);
    case Node(id, _, _, children, rest) =>
      CleanIsFlattenedAlike(children, Some(id));
      CleanIsFlattenedAlike(rest, parent);
  }

  ghost predicate DistinctIds(groups: seq<Group>) {
    forall i, j :: 0 <= i < j < |groups| ==> groups[i].id != groups[j].id
  }

  ghost predicate Avoids(groups: seq<Group>, parent: Option<Id>) {
    forall g :: g in groups ==> Some(g.id) != parent
  }

  /** Inside a subtree every parent is the root or a group of the subtree. */
  lemma {:induction false} ParentsAreInside(f: Forest, parent: Option<Id>, i: nat)
    requires i < |Flat(f, parent)|
    ensures var groups := Flat(f, parent);
            groups[i].parent == parent || exists j :: 0 <= j < i && groups[i].parent == Some(groups[j].id)
  {
    match f
    case Malformed(rest) => ParentsAreInside(rest, parent, i);
    case Node(id, name, path, children, rest) =>
      var inner := Flat(children, Some(id));
      var groups := Flat(f, parent);
      assert groups[0].id == id;
      if 0 < i <= |inner| {
        ParentsAreInside(children, Some(id), i - 1);
        if inner[i - 1].parent != Some(id) {
          var j :| 0 <= j < i - 1 && inner[i - 1].parent == Some(inner[j].id);
          assert groups[j + 1] == inner[j];
        }
      } else if i > 0 {
        var k := i - 1 - |inner|;
        var outer := Flat(rest, parent);
        ParentsAreInside(rest, parent, k);
        if outer[k].parent != parent {
          var j :| 0 <= j < k && outer[k].parent == Some(outer[j].id);
          assert groups[1 + |inner| + j] == outer[j];
        }
      }
  }

  lemma {:induction false} FirstIsARoot(f: Forest, parent: Option<Id>)
    ensures var groups := Flat(f, parent); groups != [] ==> groups[0].parent == parent
  {
    match f
    case Nil =>
    case Malformed(rest) => FirstIsARoot(rest, parent);
    case Node(_, _, _, _, _) =>
  }

  lemma OuterParentIsAbsent(f: Forest, id: Id, parent: Option<Id>)
    requires Some(id) != parent && Avoids(Flat(f, Some(id)), parent)
    ensures forall i :: 0 <= i < |Flat(f, Some(id))| ==> Flat(f, Some(id))[i].parent != parent
  {
    var groups := Flat(f, Some(id));
    forall i | 0 <= i < |groups| ensures groups[i].parent != parent {
      ParentsAreInside(f, Some(id), i);
    }
  }

  /** Where the first subtree ends is visible in the flat list: there the outer parent returns. */
  lemma SubtreesEndTogether(p: seq<Group>, q: seq<Group>, s: seq<Group>, t: seq<Group>, parent: Option<Id>)
    requires p + q == s + t
    requires forall i :: 0 <= i < |p| ==> p[i].parent != parent
    requires t != [] ==> t[0].parent == parent
    ensures |p| <= |s|
  {
    assert |s| < |p + q| ==> (p + q)[|s|] == (s + t)[|s|];
  }

  lemma SameCut(p: seq<Group>, q: seq<Group>, s: seq<Group>, t: seq<Group>)
    requires p + q == s + t && |p| == |s|
    ensures p == s && q == t
  {
    assert p == (p + q)[..|p|] && s == (s + t)[..|s|];
    assert q == (p + q)[|p|..] && t == (s + t)[|s|..];
  }

  lemma SameSplit(a: Forest, x: Forest, b: Forest, y: Forest, id: Id, parent: Option<Id>)
    requires Flat(a, Some(id)) + Flat(x, parent) == Flat(b, Some(id)) + Flat(y, parent)
    requires Some(id) != parent && Avoids(Flat(a, Some(id)), parent) && Avoids(Flat(b, Some(id)), parent)
    ensures Flat(a, Some(id)) == Flat(b, Some(id)) && Flat(x, parent) == Flat(y, parent)
  {
    var p, q, s, t := Flat(a, Some(id)), Flat(x, parent), Flat(b, Some(id)), Flat(y, parent);
    FirstIsARoot(x, parent);
    FirstIsARoot(y, parent);
    OuterParentIsAbsent(a, id, parent);
    OuterParentIsAbsent(b, id, parent);
    SubtreesEndTogether(p, q, s, t, parent);
    SubtreesEndTogether(s, t, p, q, parent);
    SameCut(p, q, s, t);
  }

  /** Equal lists under equal roots split into equal lists of children and of siblings. */
  lemma SplitsAlike(f: Forest, g: Forest, parent: Option<Id>)
    requires f.Node? && g.Node? && Flat(f, parent) == Flat(g, parent)
    requires DistinctIds(Flat(f, parent)) && Avoids(Flat(f, parent), parent)
    ensures f.id == g.id && f.name == g.name && f.path == g.path
    ensures Flat(f.children, Some(f.id)) == Flat(g.children, Some(f.id)) && Flat(f.rest, parent) == Flat(g.rest, parent)
    ensures DistinctIds(Flat(f.children, Some(f.id))) && Avoids(Flat(f.children, Some(f.id)), Some(f.id))
    ensures DistinctIds(Flat(f.rest, parent)) && Avoids(Flat(f.rest, parent), parent)
  {
    var whole := Flat(f, parent);
    NodeParts(f, parent);
    NodeParts(g, parent);
    PartsStayDistinct(whole, Flat(f.children, Some(f.id)), Flat(f.rest, parent), parent, f.id);
    PartsStayDistinct(whole, Flat(g.children, Some(f.id)), Flat(g.rest, parent), parent, f.id);
    assert whole[0] in whole;
    SameSplit(f.children, f.rest, g.children, g.rest, f.id, parent);
  }

  lemma NodeParts(f: Forest, parent: Option<Id>)
    requires f.Node?
    ensures var whole := Flat(f, parent);
            && whole != [] && whole[0] == Group(f.id, f.name, f.path, parent)
            && whole[1..] == Flat(f.children, Some(f.id)) + Flat(f.rest, parent)
  {
  }

  /** The flat list determines the tree: with distinct ids nothing of its shape is lost. */
  lemma {:induction false} FlatDeterminesTree(f: Forest, g: Forest, parent: Option<Id>)
    requires Flat(f, parent) == Flat(g, parent)
    requires DistinctIds(Flat(f, parent)) && Avoids(Flat(f, parent), parent)
    ensures Clean(f) == Clean(g)
    decreases f, g
  {
    match (f, g)
    case (Malformed(rest), _) => FlatDeterminesTree(rest, g, parent);
    case (_, Malformed(rest)) => FlatDeterminesTree(f, rest, parent);
    case (Node(_, _, _, _, _), Node(_, _, _, _, _)) =>
      SplitsAlike(f, g, parent);
      FlatDeterminesTree(f.children, g.children, Some(f.id));
      FlatDeterminesTree(f.rest, g.rest, parent);
    case _ =>
  }

  lemma PartsStayDistinct(whole: seq<Group>, p: seq<Group>, q: seq<Group>, parent: Option<Id>, id: Id)
    requires DistinctIds(whole) && Avoids(whole, parent)
    requires whole != [] && whole[0].id == id && whole[1..] == p + q
    ensures DistinctIds(p) && DistinctIds(q) && Avoids(p, Some(id)) && Avoids(p, parent) && Avoids(q, parent)
  {
    assert forall i :: 0 <= i < |p| ==> p[i] == whole[1 + i];
    assert forall i :: 0 <= i < |q| ==> q[i] == whole[1 + |p| + i];
  }
}
