/** What the list endpoints show: users by filter, and the members of a group. */
module Listings {
  import opened Wrappers
  import opened Ordering
  import opened Schemas
  import opened Model
  import opened Filters
  import opened Moments
  import opened Requests
  import C = Concurrency

  /** Walking the rows in order visits each row once, in ascending order of ID. */
  lemma InOrderVisitsEach<R(!new)>(rows: map<string, R>, idOf: R -> string)
    requires forall id | id in rows :: idOf(rows[id]) == id
    ensures forall r :: r in InOrder(rows) <==> idOf(r) in rows && rows[idOf(r)] == r
    ensures Rising(InOrder(rows), idOf)
  {
    var ks, s := SortedKeys(rows.Keys), InOrder(rows);
    assert forall i | 0 <= i < |ks| :: ks[i] in ks && s[i] == rows[ks[i]];
    forall r ensures r in s <==> idOf(r) in rows && rows[idOf(r)] == r {
      if idOf(r) in rows && rows[idOf(r)] == r {
        assert idOf(r) in ks;
        var i :| 0 <= i < |ks| && ks[i] == idOf(r);
        assert s[i] == r;
      }
    }
  }

  predicate Rising<R>(rows: seq<R>, idOf: R -> string) {
    forall i, j | 0 <= i < j < |rows| :: Less(idOf(rows[i]), idOf(rows[j]))
  }

  lemma {:induction false} SelectedMembers<R(!new)>(rows: seq<R>, keep: R -> bool)
    ensures forall r :: r in Selected(rows, keep) <==> r in rows && keep(r)
  {
    if rows != [] {
      SelectedMembers(rows[..|rows| - 1], keep);
      assert rows == rows[..|rows| - 1] + [rows[|rows| - 1]];
    }
  }

  lemma {:induction false} SelectedKeepsOrder<R(!new)>(rows: seq<R>, keep: R -> bool, idOf: R -> string)
    requires Rising(rows, idOf)
    ensures Rising(Selected(rows, keep), idOf)
  {
    hide Less;
    if rows != [] {
      var before := rows[..|rows| - 1];
      SelectedKeepsOrder(before, keep, idOf);
      forall r | r in Selected(before, keep) ensures Less(idOf(r), idOf(rows[|rows| - 1])) {
        SelectedMembers(before, keep);
        var i :| 0 <= i < |before| && before[i] == r;
        assert rows[i] == r;
      }
    }
  }

  /**
    Rows in strictly rising order of ID, each stored and wanted; a wanted row is missing
    only when the limit is reached by rows that all come before it.
  */
  ghost predicate ListsExactly<R(!new)>(shown: seq<R>, rows: map<string, R>, idOf: R -> string, keep: R -> bool,
                                        limit: int) {
    && Rising(shown, idOf)
    && (limit > 0 ==> |shown| <= limit)
    && (forall r | r in shown :: idOf(r) in rows && rows[idOf(r)] == r && keep(r))
    && (forall id | id in rows && keep(rows[id]) && rows[id] !in shown ::
          limit > 0 && |shown| == limit && forall r | r in shown :: Less(idOf(r), id))
  }

  lemma ListIsExact<R(!new)>(rows: map<string, R>, idOf: R -> string, keep: R -> bool, limit: int)
    requires forall id | id in rows :: idOf(rows[id]) == id
    ensures ListsExactly(Limited(Selected(InOrder(rows), keep), limit), rows, idOf, keep, limit)
  {
    hide Less, InOrder;
    var all := Selected(InOrder(rows), keep);
    InOrderVisitsEach(rows, idOf);
    SelectedMembers(InOrder(rows), keep);
    SelectedKeepsOrder(InOrder(rows), keep, idOf);
    var shown := Limited(all, limit);
    assert forall i | 0 <= i < |shown| :: shown[i] == all[i];
    forall id | id in rows && keep(rows[id]) && rows[id] !in shown
      ensures limit > 0 && |shown| == limit && forall r | r in shown :: Less(idOf(r), id)
    {
      var k :| 0 <= k < |all| && all[k] == rows[id];
      forall r | r in shown ensures Less(idOf(r), id) {
        var i :| 0 <= i < |shown| && shown[i] == r;
        assert all[i] == r;
      }
    }
  }

  lemma {:induction false} RisingHasNoRepeats<R(!new)>(s: seq<R>, idOf: R -> string)
    requires Rising(s, idOf)
    ensures |set r | r in s| == |s|
  {
    if s != [] {
      var k := |s| - 1;
      RisingHasNoRepeats(s[..k], idOf);
      forall i | 0 <= i < k ensures s[i] != s[k] { LessIrreflexive(idOf(s[k])); }
      assert s == s[..k] + [s[k]];
      assert (set r | r in s) == (set r | r in s[..k]) + {s[k]};
    }
  }

  lemma SmallerWithout<R>(all: set<R>, some: set<R>, r: R)
    requires some <= all && r in all && r !in some
    ensures |some| < |all|
  {
    assert |all - some| == |all| - |some| && r in all - some;
  }

  lemma ExactListsHoldTheSame<R(!new)>(s: seq<R>, t: seq<R>, rows: map<string, R>, idOf: R -> string,
                                       keep: R -> bool, limit: int)
    requires ListsExactly(s, rows, idOf, keep, limit) && ListsExactly(t, rows, idOf, keep, limit)
    ensures forall r | r in s :: r in t
  {
    hide Less;
    forall r | r in s ensures r in t {
      if r !in t {
        assert rows[idOf(r)] !in t;
        forall x | x in t ensures x in s {
          if x !in s {
            assert rows[idOf(x)] !in s;
            LessAsymmetric(idOf(x), idOf(r));
          }
        }
        SmallerWithout((set x | x in s), (set x | x in t), r);
        RisingHasNoRepeats(s, idOf);
        RisingHasNoRepeats(t, idOf);
      }
    }
  }

  /** The description leaves no choice: two lists that meet it are the same list. */
  lemma OneListIsExact<R(!new)>(s: seq<R>, t: seq<R>, rows: map<string, R>, idOf: R -> string, keep: R -> bool,
                                limit: int)
    requires ListsExactly(s, rows, idOf, keep, limit) && ListsExactly(t, rows, idOf, keep, limit)
    ensures s == t
  {
    hide Less;
    ExactListsHoldTheSame(s, t, rows, idOf, keep, limit);
    ExactListsHoldTheSame(t, s, rows, idOf, keep, limit);
    var ids := seq(|s|, i requires 0 <= i < |s| => idOf(s[i]));
    var jds := seq(|t|, i requires 0 <= i < |t| => idOf(t[i]));
    forall k ensures k in ids <==> k in jds {
      if k in ids {
        var i :| 0 <= i < |s| && ids[i] == k;
        assert s[i] in t;
        var j :| 0 <= j < |t| && t[j] == s[i];
        assert jds[j] == k;
      }
      if k in jds {
        var j :| 0 <= j < |t| && jds[j] == k;
        assert t[j] in s;
        var i :| 0 <= i < |s| && s[i] == t[j];
        assert ids[i] == k;
      }
    }
    AscendingUnique(ids, jds);
    assert |s| == |ids| == |jds| == |t|;
    forall i | 0 <= i < |s| ensures s[i] == t[i] {
      assert ids[i] == jds[i] && s[i] in s && t[i] in t;
      assert rows[idOf(s[i])] == s[i] && rows[idOf(t[i])] == t[i];
    }
  }

  /** A user list shows exactly the first users that meet the filter, as many as the limit says. */
  lemma UserListIsExact(cfg: Config, m: Rows, filter: string, limit: string, now: nat)
    requires Inv(m) && (filter == "" || ParseUserFilter(filter).Some?)
    ensures var f := if filter == "" then None else ParseUserFilter(filter);
            var (m', resp) := ServeUser(cfg, m, BrowseUsers(filter, limit), now);
            && m' == m && resp.status == 200 && resp.body.Users?
            && ListsExactly(resp.body.users, m.users, (u: User) => u.id, UserTest(f), LimitOf(limit))
  {
    hide ParseUserFilter, UserMatches, Limited, Selected, ListsExactly;
    var f := if filter == "" then None else ParseUserFilter(filter);
    ListIsExact(m.users, (u: User) => u.id, UserTest(f), LimitOf(limit));
  }

  lemma AppListIsExact(cfg: Config, m: Rows, filter: string, limit: string, now: nat)
    requires Inv(m) && (filter == "" || ParseAppFilter(filter).Some?)
    ensures var f := if filter == "" then None else ParseAppFilter(filter);
            var (m', resp) := ServeApp(cfg, m, BrowseApps(filter, limit), now);
            && m' == m && resp.status == 200 && resp.body.Apps?
            && ListsExactly(resp.body.apps, m.apps, (a: App) => a.id, AppTest(f), LimitOf(limit))
  {
    hide ParseAppFilter, AppMatches, Limited, Selected, ListsExactly;
    var f := if filter == "" then None else ParseAppFilter(filter);
    ListIsExact(m.apps, (a: App) => a.id, AppTest(f), LimitOf(limit));
  }

  /** A group list shows the first groups whose lower-cased name starts with the lower-cased query. */
  lemma GroupListIsExact(cfg: Config, m: Rows, q: string, limit: string, now: nat)
    requires Inv(m)
    ensures var (m', resp) := ServeGroup(cfg, m, BrowseGroups("", q, limit), now);
            && m' == m && resp.status == 200 && resp.body.Groups?
            && ListsExactly(resp.body.groups, m.groups, (g: Group) => g.id, GroupTest(cfg.lower, q), LimitOf(limit))
  {
    hide Limited, Selected, ListsExactly;
    ListIsExact(m.groups, (g: Group) => g.id, GroupTest(cfg.lower, q), LimitOf(limit));
  }

  // The same without the parsing: what a request for a list is shown.

  function Min(a: nat, b: nat): nat { if a <= b then a else b }

  ghost function WantedIds<R>(rows: map<string, R>, keep: R -> bool): set<string> {
    set id | id in rows && keep(rows[id])
  }

  /**
    Stored and wanted rows in rising order of ID: all of them when there is no limit, and
    otherwise as many of the first as it says.
  */
  ghost predicate ShowsFirst<R(!new)>(shown: seq<R>, rows: map<string, R>, idOf: R -> string, keep: R -> bool,
                                      limit: string) {
    && Rising(shown, idOf)
    && (forall r | r in shown :: idOf(r) in rows && rows[idOf(r)] == r && keep(r))
    && (Unlimited(limit) ==> forall id | id in WantedIds(rows, keep) :: rows[id] in shown)
    && (!Unlimited(limit) && Decimal(limit) < 9_223_372_036_854_775_808 ==>
          && |shown| == Min(Decimal(limit), |WantedIds(rows, keep)|)
          && forall id, r | id in WantedIds(rows, keep) && rows[id] !in shown && r in shown :: Less(idOf(r), id))
  }

  /** An exact list of all wanted rows has one for each ID. */
  lemma {:induction false} AllWanted<R(!new)>(shown: seq<R>, rows: map<string, R>, idOf: R -> string, ids: set<string>)
    requires Rising(shown, idOf) && forall id | id in ids :: id in rows && idOf(rows[id]) == id
    requires forall r | r in shown :: idOf(r) in ids && rows[idOf(r)] == r
    ensures |shown| <= |ids| && (|shown| == |ids| <==> forall id | id in ids :: rows[id] in shown)
  {
    RisingHasNoRepeats(shown, idOf);
    var held := set r | r in shown :: idOf(r);
    SameSize(shown, idOf, rows);
    assert held <= ids;
    if held == ids {
      forall id | id in ids ensures rows[id] in shown {
        var r :| r in shown && idOf(r) == id;
      }
    } else {
      var id :| id in ids && id !in held;
      SmallerWithout(ids, held, id);
    }
  }

  lemma {:induction false} SameSize<R(!new)>(shown: seq<R>, idOf: R -> string, rows: map<string, R>)
    requires Rising(shown, idOf)
    ensures |set r | r in shown :: idOf(r)| == |shown|
  {
    var held := set r | r in shown :: idOf(r);
    if shown != [] {
      var k := |shown| - 1;
      SameSize(shown[..k], idOf, rows);
      var before := set r | r in shown[..k] :: idOf(r);
      assert shown == shown[..k] + [shown[k]];
      assert held == before + {idOf(shown[k])};
      forall i | 0 <= i < k ensures idOf(shown[i]) != idOf(shown[k]) { LessIrreflexive(idOf(shown[k])); }
      assert idOf(shown[k]) !in before;
    }
  }

  lemma ExactShowsFirst<R(!new)>(shown: seq<R>, rows: map<string, R>, idOf: R -> string, keep: R -> bool,
                                 keep': R -> bool, limit: string)
    requires ListsExactly(shown, rows, idOf, keep, LimitOf(limit)) && forall r :: keep(r) <==> keep'(r)
    requires forall id | id in rows :: idOf(rows[id]) == id
    ensures ShowsFirst(shown, rows, idOf, keep', limit)
  {
    hide LimitOf, Less, Unlimited, Decimal;
    LimitMeans(limit);
    AllWanted(shown, rows, idOf, WantedIds(rows, keep'));
  }

  /**
    A user list is refused unless its filter is empty or names a known attribute and
    operator; otherwise it shows the first users that meet it, all of them without a limit.
  */
  lemma UsersShown(cfg: Config, m: Rows, filter: string, limit: string, now: nat)
    requires Inv(m)
    ensures var (m', resp) := ServeUser(cfg, m, BrowseUsers(filter, limit), now);
            && m' == m
            && (if GoodUserFilter(filter)
                then && resp.status == 200 && resp.body.Users? && resp.gap == ""
                     && ShowsFirst(resp.body.users, m.users, (u: User) => u.id,
                                   (u: User) => UserMeets(filter, u), limit)
                else resp == Response(400, Nothing, "MOCKTA_GAP_0001"))
  {
    hide ParseUserFilter, Limited, Selected, ListsExactly, ShowsFirst, Reads, InOrder, LimitOf, UserMatches;
    UserFilterIff(filter);
    if filter == "" || ParseUserFilter(filter).Some? {
      UserListIsExact(cfg, m, filter, limit, now);
      var f := if filter == "" then None else ParseUserFilter(filter);
      ExactShowsFirst(ServeUser(cfg, m, BrowseUsers(filter, limit), now).1.body.users, m.users, (u: User) => u.id,
                      UserTest(f), (u: User) => UserMeets(filter, u), limit);
    }
  }

  lemma AppsShown(cfg: Config, m: Rows, filter: string, limit: string, now: nat)
    requires Inv(m)
    ensures var (m', resp) := ServeApp(cfg, m, BrowseApps(filter, limit), now);
            && m' == m
            && (if GoodAppFilter(filter)
                then && resp.status == 200 && resp.body.Apps? && resp.gap == ""
                     && ShowsFirst(resp.body.apps, m.apps, (a: App) => a.id, (a: App) => AppMeets(filter, a), limit)
                else resp == Response(400, Nothing, "MOCKTA_GAP_0003"))
  {
    hide ParseAppFilter, Limited, Selected, ListsExactly, ShowsFirst, Reads, InOrder, LimitOf, AppMatches;
    AppFilterIff(filter);
    if filter == "" || ParseAppFilter(filter).Some? {
      AppListIsExact(cfg, m, filter, limit, now);
      var f := if filter == "" then None else ParseAppFilter(filter);
      ExactShowsFirst(ServeApp(cfg, m, BrowseApps(filter, limit), now).1.body.apps, m.apps, (a: App) => a.id,
                      AppTest(f), (a: App) => AppMeets(filter, a), limit);
    }
  }

  /** The group's name starts with the query, both lower-cased. */
  ghost predicate Queried(cfg: Config, q: string, g: Group) { exists rest :: cfg.lower(g.name) == cfg.lower(q) + rest }

  /** A group list refuses every filter, and shows the first groups whose name starts with the query. */
  lemma GroupsShown(cfg: Config, m: Rows, filter: string, q: string, limit: string, now: nat)
    requires Inv(m)
    ensures var (m', resp) := ServeGroup(cfg, m, BrowseGroups(filter, q, limit), now);
            && m' == m
            && (if filter == ""
                then && resp.status == 200 && resp.body.Groups? && resp.gap == ""
                     && ShowsFirst(resp.body.groups, m.groups, (g: Group) => g.id,
                                   (g: Group) => Queried(cfg, q, g), limit)
                else resp == Response(400, Nothing, "MOCKTA_GAP_0002"))
  {
    hide Limited, Selected, ListsExactly, ShowsFirst, InOrder, LimitOf;
    if filter == "" {
      GroupListIsExact(cfg, m, q, limit, now);
      var keep, keep' := GroupTest(cfg.lower, q), (g: Group) => Queried(cfg, q, g);
      forall g ensures keep(g) <==> keep'(g) { StartsIff(cfg.lower(q), cfg.lower(g.name)); }
      ExactShowsFirst(ServeGroup(cfg, m, BrowseGroups(filter, q, limit), now).1.body.groups, m.groups,
                      (g: Group) => g.id, keep, keep', limit);
    }
  }

  function LoginFilter(login: string): string { Print(Filter("login", "eq", login)) }

  lemma LoginFilterParses(login: string)
    ensures LoginFilter(login) != "" && ParseUserFilter(LoginFilter(login)) == Some(Filter("login", "eq", login))
  {
    ParseOfPrint(Filter("login", "eq", login));
  }

  lemma {:induction false} AtMostOneSelected(rows: seq<User>, keep: User -> bool)
    requires forall i, j | 0 <= i < |rows| && 0 <= j < |rows| && keep(rows[i]) && keep(rows[j]) :: i == j
    ensures |Selected(rows, keep)| <= 1
  {
    if rows != [] {
      var before := rows[..|rows| - 1];
      AtMostOneSelected(before, keep);
      SelectedMembers(before, keep);
      if keep(rows[|rows| - 1]) {
        forall u | u in before ensures !keep(u) {
          var i :| 0 <= i < |before| && before[i] == u;
          assert rows[i] == u;
        }
        if Selected(before, keep) != [] { HasAnElement(Selected(before, keep)); }
      }
    }
  }

  lemma HasAnElement<R>(s: seq<R>)
    requires s != []
    ensures exists r :: r in s
  {
    assert s[0] in s;
  }

  /** Listing by login eq "L" shows exactly the row the login index finds, or nothing. */
  lemma LoginListIsTheLookup(cfg: Config, m: Rows, login: string, now: nat)
    requires Inv(m)
    ensures ServeUser(cfg, m, BrowseUsers(LoginFilter(login), ""), now)
         == (m, Shown(Users(if ByLogin(m, login).Some? then [ByLogin(m, login).value] else [])))
  {
    hide Less, InOrder, Selected, SplitFilter, Print, ByLogin;
    LoginFilterParses(login);
    var keep := UserTest(Some(Filter("login", "eq", login)));
    var all := InOrder(m.users);
    assert forall u :: keep(u) <==> u.login == login;
    InOrderVisitsEach(m.users, (u: User) => u.id);
    SelectedMembers(all, keep);
    forall i, j | 0 <= i < |all| && 0 <= j < |all| && keep(all[i]) && keep(all[j]) ensures i == j {
      assert all[i] in all && all[j] in all;
      assert all[i].id == all[j].id;
      LessIrreflexive(all[i].id);
    }
    AtMostOneSelected(all, keep);
    OneOrNone(m, login, Selected(all, keep));
  }

  lemma OneOrNone(m: Rows, login: string, shown: seq<User>)
    requires Inv(m) && |shown| <= 1
    requires forall u :: u in shown <==> u.id in m.users && m.users[u.id] == u && u.login == login
    ensures shown == if ByLogin(m, login).Some? then [ByLogin(m, login).value] else []
  {
    assert shown != [] ==> shown[0] in shown;
    if ByLogin(m, login).Some? {
      assert ByLogin(m, login).value in shown;
    }
  }

  // The members of a group.

  lemma {:induction false} FoundAreNamed(rows: seq<Membership>, moments: seq<Rows>)
    requires |rows| == |moments|
    requires forall i | 0 <= i < |rows| :: RowsKeyed(moments[i])
    ensures forall u | u in UsersFound(rows, moments) ::
              exists i :: 0 <= i < |rows| && rows[i].userId == u.id
                          && u.id in moments[i].users && moments[i].users[u.id] == u
  {
    hide RowsKeyed;
    if rows != [] {
      var k := |rows| - 1;
      FoundAreNamed(rows[..k], moments[..k]);
      KeyedUser(moments[k], rows[k].userId);
      forall u | u in UsersFound(rows, moments)
        ensures exists i :: 0 <= i < |rows| && rows[i].userId == u.id
                            && u.id in moments[i].users && moments[i].users[u.id] == u
      {
        if u in UsersFound(rows[..k], moments[..k]) {
          var i :| 0 <= i < k && rows[..k][i].userId == u.id && u.id in moments[..k][i].users
                   && moments[..k][i].users[u.id] == u;
          assert rows[i].userId == u.id;
        } else {
          assert rows[k].userId == u.id;
        }
      }
    }
  }

  lemma KeyedUser(m: Rows, id: string)
    requires RowsKeyed(m)
    ensures id in m.users ==> m.users[id].id == id
  {
  }

  /** In order of ID, so each at most once. */
  predicate ById(users: seq<User>) {
    forall i, j | 0 <= i < j < |users| :: Less(users[i].id, users[j].id)
  }

  lemma {:induction false} FoundInOrder(rows: seq<Membership>, moments: seq<Rows>)
    requires |rows| == |moments|
    requires forall i | 0 <= i < |rows| :: RowsKeyed(moments[i])
    requires forall i, j | 0 <= i < j < |rows| :: Less(rows[i].userId, rows[j].userId)
    ensures ById(UsersFound(rows, moments))
  {
    hide RowsKeyed, Less;
    if rows != [] {
      var k := |rows| - 1;
      FoundInOrder(rows[..k], moments[..k]);
      FoundAreNamed(rows[..k], moments[..k]);
      KeyedUser(moments[k], rows[k].userId);
      var before := UsersFound(rows[..k], moments[..k]);
      forall u | u in before ensures Less(u.id, rows[k].userId) {
        var i :| 0 <= i < k && rows[..k][i].userId == u.id;
        assert rows[i].userId == u.id;
      }
      AppendInOrder(before, UsersFound(rows, moments), rows[k].userId);
    }
  }

  lemma AppendInOrder(before: seq<User>, out: seq<User>, uid: string)
    requires ById(before) && forall u | u in before :: Less(u.id, uid)
    requires out == before || (|out| == |before| + 1 && out[..|before|] == before && out[|before|].id == uid)
    ensures ById(out)
  {
    if out != before {
      forall i, j | 0 <= i < j < |out| ensures Less(out[i].id, out[j].id) {
        assert out[i] == before[i] && before[i] in before;
        assert j < |before| ==> out[j] == out[..|before|][j] == before[j];
      }
    }
  }

  predicate StillThere(rows: seq<Membership>, moments: seq<Rows>, i: nat)
    requires |rows| == |moments| && i < |rows|
  {
    rows[i].userId in moments[i].users
  }

  lemma {:induction false} FoundAllIff(rows: seq<Membership>, moments: seq<Rows>)
    requires |rows| == |moments|
    ensures |UsersFound(rows, moments)| == |rows| <==> forall i | 0 <= i < |rows| :: StillThere(rows, moments, i)
    ensures |UsersFound(rows, moments)| == |rows| ==>
              forall i | 0 <= i < |rows| ::
                StillThere(rows, moments, i) && UsersFound(rows, moments)[i] == moments[i].users[rows[i].userId]
  {
    if rows != [] {
      var k := |rows| - 1;
      FoundAllIff(rows[..k], moments[..k]);
      forall i | 0 <= i < k ensures StillThere(rows[..k], moments[..k], i) <==> StillThere(rows, moments, i) { }
      assert StillThere(rows, moments, k) <==> rows[k].userId in moments[k].users;
    }
  }

  /** The memberships of a group come in order of user ID, each user once. */
  lemma MembersInOrder(m: Rows, gid: string)
    requires RowsKeyed(m)
    ensures var rows := MembersOf(m, gid);
            && (forall i | 0 <= i < |rows| :: rows[i].groupId == gid && (gid, rows[i].userId) in m.members
                                            && m.members[(gid, rows[i].userId)] == rows[i])
            && (forall i, j | 0 <= i < j < |rows| :: Less(rows[i].userId, rows[j].userId))
            && (forall uid | (gid, uid) in m.members :: m.members[(gid, uid)] in rows)
  {
    var ids, rows := SortedKeys(MemberIds(m, gid)), MembersOf(m, gid);
    assert forall i | 0 <= i < |ids| :: ids[i] in ids && rows[i] == m.members[(gid, ids[i])];
    forall uid | (gid, uid) in m.members ensures m.members[(gid, uid)] in rows {
      assert (gid, uid).1 in MemberIds(m, gid);
      assert uid in ids;
      var i :| 0 <= i < |ids| && ids[i] == uid;
      assert rows[i] == m.members[(gid, uid)];
    }
  }

  /** One user for each row, in the same order. */
  predicate EachShown(rows: seq<Membership>, shown: seq<User>, users: map<string, User>) {
    && |shown| == |rows|
    && forall i | 0 <= i < |rows| :: rows[i].userId in users && shown[i] == users[rows[i].userId]
  }

  /**
    Run alone, listing a group's members returns one user for each membership, in order;
    the branch that skips a missing user is never taken.
  */
  lemma AloneNothingIsSkipped(m: Rows, gid: string)
    requires Inv(m)
    ensures EachShown(MembersOf(m, gid), MemberUsers(m, gid), m.users)
  {
    hide MembersOf, RowsKeyed, LoginsDiffer, NamesDiffer, UsersFound, Less;
    var rows := MembersOf(m, gid);
    var moments := seq(|rows|, _ => m);
    MembersInOrder(m, gid);
    FoundAllIff(rows, moments);
    forall i | 0 <= i < |rows| ensures StillThere(rows, moments, i) { }
  }

  /**
    Under any interleaving, with each lookup made in the rows of a later moment, the list
    holds only users who were members when the memberships were read, in order of ID;
    it is complete exactly when each of them still existed when it was looked up.
  */
  lemma InterleavedMembers(snapshot: Rows, gid: string, moments: seq<Rows>)
    requires Inv(snapshot) && |moments| == |MembersOf(snapshot, gid)|
    requires forall i | 0 <= i < |moments| :: Inv(moments[i])
    ensures var rows := MembersOf(snapshot, gid);
            var out := UsersFound(rows, moments);
            && (forall u | u in out :: (gid, u.id) in snapshot.members)
            && ById(out)
            && (|out| == |rows| <==> forall i | 0 <= i < |rows| :: StillThere(rows, moments, i))
  {
    var rows := MembersOf(snapshot, gid);
    MembersInOrder(snapshot, gid);
    FoundAreNamed(rows, moments);
    FoundInOrder(rows, moments);
    FoundAllIff(rows, moments);
  }

  // The list as the handler makes it in a run of the store: one ListMembers call, then one GetUser call a row.

  lemma {:induction false} AnswersAreFound(rows: seq<Membership>, moments: seq<Rows>, replies: seq<Reply>)
    requires |rows| == |moments| == |replies|
    requires forall i | 0 <= i < |rows| :: replies[i] == ApplyUser(GetUser(rows[i].userId), moments[i]).1
    ensures UsersAnswered(replies) == UsersFound(rows, moments)
    ensures forall i | 0 <= i < |rows| :: replies[i].OneUser? <==> StillThere(rows, moments, i)
  {
    if rows != [] {
      var k := |rows| - 1;
      AnswersAreFound(rows[..k], moments[..k], replies[..k]);
      assert forall i | 0 <= i < k :: StillThere(rows[..k], moments[..k], i) <==> StillThere(rows, moments, i);
    }
  }

  /**
    In every run of the store, whatever else goes on: the users that a ListMembers call and
    one GetUser call for each of its rows answer were all members when the memberships were
    read, each comes once, and none is missing exactly when every GetUser found its user.
  */
  lemma MembersInARun(moves: seq<C.Move>, gid: string, lister: nat, rows: seq<Membership>, getters: seq<nat>,
                      replies: seq<Reply>)
    requires C.CanRun(C.INIT, moves)
    requires Answered(C.Run(C.INIT, moves), lister, OnMembers(ListMembers(gid)), ManyMembers(rows))
    requires |rows| == |getters| == |replies|
    requires forall i | 0 <= i < |rows| ::
               Answered(C.Run(C.INIT, moves), getters[i], OnUsers(GetUser(rows[i].userId)), replies[i])
    ensures var s := C.Run(C.INIT, moves);
            var out := UsersAnswered(replies);
            && InEffect(s, lister)
            && rows == MembersOf(Moment(s, lister), gid)
            && (forall u | u in out :: (gid, u.id) in Moment(s, lister).members)
            && ById(out)
            && (|out| == |rows| <==> forall i | 0 <= i < |rows| :: replies[i].OneUser?)
  {
    hide Inv, MembersOf, UsersFound, UsersAnswered, C.Do, C.Enabled, C.CanRun, C.Run, Moment, MomentAfter;
    var s := C.Run(C.INIT, moves);
    AnswerAtItsMoment(moves, lister, OnMembers(ListMembers(gid)), ManyMembers(rows));
    forall i | 0 <= i < |rows|
      ensures InEffect(s, getters[i])
      ensures replies[i] == ApplyUser(GetUser(rows[i].userId), Moment(s, getters[i])).1 && Inv(Moment(s, getters[i]))
    {
      AnswerAtItsMoment(moves, getters[i], OnUsers(GetUser(rows[i].userId)), replies[i]);
    }
    var moments := seq(|rows|, i requires 0 <= i < |rows| => Moment(s, getters[i]));
    AnswersAreFound(rows, moments, replies);
    InterleavedMembers(Moment(s, lister), gid, moments);
  }

  // The other lists in a run: one call for all rows, then the handler's filter and limit.

  /** Whatever else goes on, a user list is exact for the rows at the moment of its one read. */
  lemma UserListInARun(moves: seq<C.Move>, c: nat, users: seq<User>, keep: User -> bool, limit: int)
    requires C.CanRun(C.INIT, moves)
    requires Answered(C.Run(C.INIT, moves), c, OnUsers(ListUsers(0)), ManyUsers(users))
    ensures var s := C.Run(C.INIT, moves);
            && InEffect(s, c)
            && ListsExactly(Limited(Selected(users, keep), limit), Moment(s, c).users, (u: User) => u.id, keep, limit)
  {
    hide ListsExactly, Selected, InOrder, C.CanRun, C.Run, Moment, MomentAfter;
    AnswerAtItsMoment(moves, c, OnUsers(ListUsers(0)), ManyUsers(users));
    ListIsExact(Moment(C.Run(C.INIT, moves), c).users, (u: User) => u.id, keep, limit);
  }

  lemma AppListInARun(moves: seq<C.Move>, c: nat, apps: seq<App>, keep: App -> bool, limit: int)
    requires C.CanRun(C.INIT, moves)
    requires Answered(C.Run(C.INIT, moves), c, OnApps(ListApps(0)), ManyApps(apps))
    ensures var s := C.Run(C.INIT, moves);
            && InEffect(s, c)
            && ListsExactly(Limited(Selected(apps, keep), limit), Moment(s, c).apps, (a: App) => a.id, keep, limit)
  {
    hide ListsExactly, Selected, InOrder, C.CanRun, C.Run, Moment, MomentAfter;
    AnswerAtItsMoment(moves, c, OnApps(ListApps(0)), ManyApps(apps));
    ListIsExact(Moment(C.Run(C.INIT, moves), c).apps, (a: App) => a.id, keep, limit);
  }

  lemma GroupListInARun(moves: seq<C.Move>, c: nat, groups: seq<Group>, keep: Group -> bool, limit: int)
    requires C.CanRun(C.INIT, moves)
    requires Answered(C.Run(C.INIT, moves), c, OnGroups(ListGroups(0)), ManyGroups(groups))
    ensures var s := C.Run(C.INIT, moves);
            && InEffect(s, c)
            && ListsExactly(Limited(Selected(groups, keep), limit), Moment(s, c).groups,
                            (g: Group) => g.id, keep, limit)
  {
    hide ListsExactly, Selected, InOrder, C.CanRun, C.Run, Moment, MomentAfter;
    AnswerAtItsMoment(moves, c, OnGroups(ListGroups(0)), ManyGroups(groups));
    ListIsExact(Moment(C.Run(C.INIT, moves), c).groups, (g: Group) => g.id, keep, limit);
  }
}
