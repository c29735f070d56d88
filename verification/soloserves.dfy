/**
  The handler programs of CopyOnRead, each run alone, leave in the tables and show to the
  client what Requests.Serve says of their requests.
*/
module SoloServes {
  import opened Ordering
  import opened Schemas
  import opened Ids
  import opened Requests
  import opened RoundTrips
  import opened Listings
  import opened CopyOnRead
  import opened Serial
  import M = Model

  // The rows of the model as a table of contents.

  predicate InStore(m: M.Rows, place: Place) {
    match place
    case InUsers(id) => id in m.users
    case InGroups(id) => id in m.groups
    case InApps(id) => id in m.apps
    case InMembers(gid, uid) => (gid, uid) in m.members
    case InAudit(n) => n in m.audit
  }

  function StoredAt(m: M.Rows, place: Place): Struct
    requires InStore(m, place)
  {
    match place
    case InUsers(id) => UserRow(m.users[id])
    case InGroups(id) => GroupRow(m.groups[id])
    case InApps(id) => AppRow(m.apps[id])
    case InMembers(gid, uid) => MemberRow(m.members[(gid, uid)])
    case InAudit(n) => EntryRow(m.audit[n])
  }

  /** The table holds the rows and nothing else. */
  ghost predicate Shelves(table: Shelf, m: M.Rows) {
    && (forall place :: place in table <==> InStore(m, place))
    && (forall place | place in table && InStore(m, place) :: table[place] == StoredAt(m, place))
  }

  lemma UserShelved(table: Shelf, m: M.Rows, u: User)
    requires Shelves(table, m)
    ensures Shelves(table[InUsers(u.id) := UserRow(u)], m.(users := m.users[u.id := u]))
  {
  }

  lemma GroupShelved(table: Shelf, m: M.Rows, g: Group)
    requires Shelves(table, m)
    ensures Shelves(table[InGroups(g.id) := GroupRow(g)], m.(groups := m.groups[g.id := g]))
  {
  }

  lemma AppShelved(table: Shelf, m: M.Rows, a: App)
    requires Shelves(table, m)
    ensures Shelves(table[InApps(a.id) := AppRow(a)], m.(apps := m.apps[a.id := a]))
  {
  }

  lemma MemberShelved(table: Shelf, m: M.Rows, r: Membership)
    requires Shelves(table, m)
    ensures Shelves(table[InMembers(r.groupId, r.userId) := MemberRow(r)],
                    m.(members := m.members[(r.groupId, r.userId) := r]))
  {
  }

  lemma UserUnshelved(table: Shelf, m: M.Rows, id: string)
    requires Shelves(table, m)
    ensures Shelves(ErasedFrom(table, InUsers(id)), M.WithoutUser(m, id))
  {
  }

  lemma GroupUnshelved(table: Shelf, m: M.Rows, id: string)
    requires Shelves(table, m)
    ensures Shelves(ErasedFrom(table, InGroups(id)), M.WithoutGroup(m, id))
  {
  }

  lemma AppUnshelved(table: Shelf, m: M.Rows, id: string)
    requires Shelves(table, m)
    ensures Shelves(ErasedFrom(table, InApps(id)), m.(apps := m.apps - {id}))
  {
  }

  lemma MemberUnshelved(table: Shelf, m: M.Rows, gid: string, uid: string)
    requires Shelves(table, m)
    ensures Shelves(ErasedFrom(table, InMembers(gid, uid)), m.(members := m.members - {(gid, uid)}))
  {
  }

  // The programs and the requests.

  /** Whether the checks on the request and the insert succeed. */
  predicate Passes(h: Handler, resp: Response) {
    if h.AddMember? then resp.status == 204 else resp.status !in {400, 409, 500, 501}
  }

  function ShownIn(resp: Response): seq<Struct> {
    match resp.body
    case TheUser(u) => [UserRow(u)]
    case TheGroup(g) => [GroupRow(g)]
    case TheApp(a) => [AppRow(a)]
    case _ => []
  }

  /** The program, alone, leaves the rows the request leaves, and shows what it is answered. */
  ghost predicate Does(h: Handler, shelf: Shelf, m': M.Rows, resp: Response) {
    exists table :: Ends(Start(CodeOf(h), shelf), Passes(h, resp), table, ShownIn(resp)) && Shelves(table, m')
  }

  ghost function UserHandler(cfg: Config, m: M.Rows, req: UserRequest, now: nat): Handler
    requires !req.BrowseUsers?
  {
    match req
    case PostUser(body, activate) => CopyOnRead.CreateUser(NewUser(cfg, ProfileOf(body), activate, now))
    case FetchUser(key) =>
      GetOne(InUsers(if key !in m.users && M.ByLogin(m, key).Some? then M.ByLogin(m, key).value.id else key))
    case PutUser(id, body) =>
      var p := ProfileOf(body); CopyOnRead.UpdateUser(id, p.login, p.email, p.raw, now)
    case ActivateUser(id) => UserLifecycle(id, ACTIVE, now)
    case DeactivateUser(id) => UserLifecycle(id, DEPROVISIONED, now)
    case DropUser(id) => CopyOnRead.DeleteUser(id, now)
  }

  // What an update makes of the row it has read.

  lemma MadeFromUser(u: User, login: string, email: string, profile: string, now: nat)
    ensures MadeOf(UserFrom(0, login, email, profile, now), map[0 := UserRow(u)])
         == UserRow(u.(login := login, email := email, profile := profile, updatedAt := now))
  {
  }

  lemma MadeFromGroup(g: Group, name: string, description: string, profile: string)
    ensures MadeOf(GroupFrom(0, name, description, profile), map[0 := GroupRow(g)])
         == GroupRow(g.(name := if name == "" then g.name else name, description := description, profile := profile))
  {
  }

  lemma MadeFromApp(a: App, name: string, labelText: string, settings: string)
    ensures MadeOf(AppFrom(0, name, labelText, settings), map[0 := AppRow(a)])
         == AppRow(a.(name := FirstNonEmpty(name, a.name), labelText := FirstNonEmpty(labelText, a.labelText),
                      settings := settings))
  {
  }

  lemma PostUserDoes(cfg: Config, m: M.Rows, shelf: Shelf, body: UserBody, activate: bool, now: nat)
    requires Shelves(shelf, m) && M.Inv(m)
    ensures var (m', resp) := ServeUser(cfg, m, PostUser(body, activate), now);
            Does(UserHandler(cfg, m, PostUser(body, activate), now), shelf, m', resp)
  {
    hide Shelves, NewID, Ends, TwoSided;
    ValidatedIff(cfg.strict, body);
    var u := NewUser(cfg, ProfileOf(body), activate, now);
    CreateEnds(UserRow(u), shelf);
    UserShelved(shelf, m, u);
    hide Validated, M.ByLogin;
  }

  lemma PutUserDoes(cfg: Config, m: M.Rows, shelf: Shelf, id: string, body: UserBody, now: nat)
    requires Shelves(shelf, m) && M.Inv(m)
    ensures var (m', resp) := ServeUser(cfg, m, PutUser(id, body), now);
            Does(UserHandler(cfg, m, PutUser(id, body), now), shelf, m', resp)
  {
    hide Ends, TwoSided, M.NoDanglingMembers, M.LoginsDiffer, M.NamesDiffer;
    ValidatedIff(cfg.strict, body);
    var p := ProfileOf(body);
    EditEnds(InUsers(id), UserFrom(0, p.login, p.email, p.raw, now), shelf);
    if id in m.users {
      var u := m.users[id].(login := p.login, email := p.email, profile := p.raw, updatedAt := now);
      MadeFromUser(m.users[id], p.login, p.email, p.raw, now);
      UserShelved(shelf, m, u);
    }
    hide Made, MadeOf, Shelves, Validated, M.ByLogin;
  }

  lemma FlipUserDoes(cfg: Config, m: M.Rows, shelf: Shelf, id: string, target: string, now: nat, m': M.Rows,
                     resp: Response)
    requires Shelves(shelf, m) && M.Inv(m)
    requires if id in m.users then m' == Flipped(m, id, target, now) && resp.status in {200, 204} && resp.body.Nothing?
             else m' == m && resp == Plain(404)
    ensures Does(UserLifecycle(id, target, now), shelf, m', resp)
  {
    hide Ends, M.NoDanglingMembers, M.LoginsDiffer, M.NamesDiffer;
    var found := Assign(0, Status(target), Assign(0, UpdatedAt(now), Put(0, End, End)));
    if id in m.users {
      var u := m.users[id].(status := target, updatedAt := now);
      FlipEnds(Solo(found, map[0 := shelf[InUsers(id)]], shelf, shelf, [], []), Status(target), UpdatedAt(now),
               UserRow(u), true);
      UserShelved(shelf, m, u);
      ReadEnds(InUsers(id), found, shelf, true, shelf[InUsers(id) := UserRow(u)], []);
    } else {
      ReadEnds(InUsers(id), found, shelf, true, shelf, []);
    }
    hide Shelves;
  }

  /** What a DELETE does with the user it has read. */
  lemma DeleteEnds(s: Solo, u: User, now: nat)
    requires 0 in s.vals && s.vals[0] == UserRow(u)
    requires s.code == IfStatus(0, DEPROVISIONED, Erase(InUsers(u.id), End),
                                Assign(0, Status(DEPROVISIONED), Assign(0, UpdatedAt(now), Put(0, End, End))))
    ensures Ends(s, true,
                 if u.status == DEPROVISIONED then ErasedFrom(s.table, InUsers(u.id))
                 else s.table[InUsers(u.id) := UserRow(u.(status := DEPROVISIONED, updatedAt := now))], s.shown)
  {
    hide Ends, ErasedFrom;
    if u.status == DEPROVISIONED {
      EraseEnds(Next(s, true), InUsers(u.id), true);
      OneStep(s, true, ErasedFrom(s.table, InUsers(u.id)), s.shown);
    } else {
      var row := UserRow(u.(status := DEPROVISIONED, updatedAt := now));
      FlipEnds(Next(s, true), Status(DEPROVISIONED), UpdatedAt(now), row, true);
      OneStep(s, true, s.table[InUsers(u.id) := row], s.shown);
    }
  }

  lemma DropUserDoes(cfg: Config, m: M.Rows, shelf: Shelf, id: string, now: nat)
    requires Shelves(shelf, m) && M.Inv(m)
    ensures var (m', resp) := ServeUser(cfg, m, DropUser(id), now);
            Does(UserHandler(cfg, m, DropUser(id), now), shelf, m', resp)
  {
    hide Ends, M.NoDanglingMembers, M.LoginsDiffer, M.NamesDiffer, ErasedFrom;
    var flip := Assign(0, Status(DEPROVISIONED), Assign(0, UpdatedAt(now), Put(0, End, End)));
    var found := IfStatus(0, DEPROVISIONED, Erase(InUsers(id), End), flip);
    if id in m.users {
      var u := m.users[id];
      UserUnshelved(shelf, m, id);
      UserShelved(shelf, m, u.(status := DEPROVISIONED, updatedAt := now));
      DeleteEnds(Solo(found, map[0 := shelf[InUsers(id)]], shelf, shelf, [], []), u, now);
      hide Shelves;
      ReadEnds(InUsers(id), found, shelf, true,
               if u.status == DEPROVISIONED then ErasedFrom(shelf, InUsers(id))
               else shelf[InUsers(id) := UserRow(u.(status := DEPROVISIONED, updatedAt := now))], []);
    } else {
      ReadEnds(InUsers(id), found, shelf, true, shelf, []);
    }
    hide Shelves;
  }

  lemma GetDoes(m: M.Rows, shelf: Shelf, place: Place, resp: Response)
    requires Shelves(shelf, m)
    requires ShownIn(resp) == if InStore(m, place) then [StoredAt(m, place)] else []
    ensures Does(GetOne(place), shelf, m, resp)
  {
    hide Ends;
    if place in shelf {
      ShowEnds(Solo(Show(0, End), map[0 := shelf[place]], shelf, shelf, [], []), Passes(GetOne(place), resp));
      assert [] + [shelf[place]] == [shelf[place]];
    }
    ReadEnds(place, Show(0, End), shelf, Passes(GetOne(place), resp), shelf, ShownIn(resp));
    hide Shelves;
  }

  lemma FetchUserDoes(cfg: Config, m: M.Rows, shelf: Shelf, key: string, now: nat)
    requires Shelves(shelf, m) && M.Inv(m)
    ensures var (m', resp) := ServeUser(cfg, m, FetchUser(key), now);
            Does(UserHandler(cfg, m, FetchUser(key), now), shelf, m', resp)
  {
    hide Does, Shelves;
    UserFetched(cfg, m, key, now);
    GetDoes(m, shelf, UserHandler(cfg, m, FetchUser(key), now).place, ServeUser(cfg, m, FetchUser(key), now).1);
  }

  /** Each request for one user leaves and shows what its program, run alone on pointers, leaves and shows. */
  lemma UserProgramsServe(cfg: Config, m: M.Rows, shelf: Shelf, req: UserRequest, now: nat)
    requires Shelves(shelf, m) && M.Inv(m) && !req.BrowseUsers?
    ensures var (m', resp) := ServeUser(cfg, m, req, now);
            Does(UserHandler(cfg, m, req, now), shelf, m', resp)
  {
    hide Does, Shelves, M.Inv;
    match req
    case PostUser(body, activate) => PostUserDoes(cfg, m, shelf, body, activate, now);
    case FetchUser(key) => FetchUserDoes(cfg, m, shelf, key, now);
    case PutUser(id, body) => PutUserDoes(cfg, m, shelf, id, body, now);
    case ActivateUser(id) =>
      var (m', resp) := ServeUser(cfg, m, req, now);
      FlipUserDoes(cfg, m, shelf, id, ACTIVE, now, m', resp);
    case DeactivateUser(id) =>
      var (m', resp) := ServeUser(cfg, m, req, now);
      FlipUserDoes(cfg, m, shelf, id, DEPROVISIONED, now, m', resp);
    case DropUser(id) => DropUserDoes(cfg, m, shelf, id, now);
  }

  // Groups and memberships.

  function GroupHandler(cfg: Config, req: GroupRequest, now: nat): Handler
    requires !req.BrowseGroups? && !req.BrowseMembers?
  {
    match req
    case PostGroup(body) =>
      var b := if body.MalformedGroup? then GroupFields("", "", "", "") else body;
      CopyOnRead.CreateGroup(Group(NewID(cfg.sha, KIND_GROUP, b.name), b.name, OKTA_GROUP, b.description, b.raw, now))
    case FetchGroup(id) => GetOne(InGroups(id))
    case PutGroup(id, body) =>
      if body.MalformedGroup? then CopyOnRead.UpdateGroup(id, "", "", "")
      else CopyOnRead.UpdateGroup(id, body.name, body.description, body.raw)
    case DropGroup(id) => DropOne(InGroups(id))
    case PutMember(gid, uid) => AddMember(Membership(gid, uid, now))
    case DropMember(gid, uid) => DropOne(InMembers(gid, uid))
  }

  lemma PostGroupDoes(cfg: Config, m: M.Rows, shelf: Shelf, body: GroupBody, now: nat)
    requires Shelves(shelf, m) && M.Inv(m)
    ensures var (m', resp) := ServeGroup(cfg, m, PostGroup(body), now);
            Does(GroupHandler(cfg, PostGroup(body), now), shelf, m', resp)
  {
    hide Ends, NewID, M.Inv, Shelves;
    var g := GroupHandler(cfg, PostGroup(body), now).group;
    CreateEnds(GroupRow(g), shelf);
    GroupShelved(shelf, m, g);
  }

  lemma PutGroupDoes(cfg: Config, m: M.Rows, shelf: Shelf, id: string, body: GroupBody, now: nat)
    requires Shelves(shelf, m) && M.Inv(m)
    ensures var (m', resp) := ServeGroup(cfg, m, PutGroup(id, body), now);
            Does(GroupHandler(cfg, PutGroup(id, body), now), shelf, m', resp)
  {
    hide Ends, M.NoDanglingMembers, M.LoginsDiffer, M.NamesDiffer;
    var h := GroupHandler(cfg, PutGroup(id, body), now);
    var k := GroupFrom(0, h.name, h.description, h.profile);
    EditEnds(InGroups(id), k, shelf);
    if id in m.groups && body.GroupFields? {
      var name := if body.name == "" then m.groups[id].name else body.name;
      var g := m.groups[id].(name := name, description := body.description, profile := body.raw);
      MadeFromGroup(m.groups[id], body.name, body.description, body.raw);
      GroupShelved(shelf, m, g);
    }
    hide Made, MadeOf, Shelves;
  }

  lemma DropDoes(h: Handler, shelf: Shelf, m': M.Rows, resp: Response)
    requires h.DropOne? && Shelves(ErasedFrom(shelf, h.place), m') && ShownIn(resp) == []
    ensures Does(h, shelf, m', resp)
  {
    hide Shelves, ErasedFrom, Ends;
    EraseEnds(Start(CodeOf(h), shelf), h.place, Passes(h, resp));
  }

  lemma DropGroupDoes(cfg: Config, m: M.Rows, shelf: Shelf, id: string, now: nat)
    requires Shelves(shelf, m) && M.Inv(m)
    ensures var (m', resp) := ServeGroup(cfg, m, DropGroup(id), now);
            Does(DropOne(InGroups(id)), shelf, m', resp)
  {
    hide Does;
    GroupUnshelved(shelf, m, id);
    if id !in m.groups { assert M.WithoutGroup(m, id) == m; }
    var (m', resp) := ServeGroup(cfg, m, DropGroup(id), now);
    DropDoes(DropOne(InGroups(id)), shelf, m', resp);
  }

  lemma DropMemberDoes(cfg: Config, m: M.Rows, shelf: Shelf, gid: string, uid: string, now: nat)
    requires Shelves(shelf, m)
    ensures var (m', resp) := ServeGroup(cfg, m, DropMember(gid, uid), now);
            Does(DropOne(InMembers(gid, uid)), shelf, m', resp)
  {
    hide Does;
    MemberUnshelved(shelf, m, gid, uid);
    if (gid, uid) !in m.members { assert m.members - {(gid, uid)} == m.members; }
    var (m', resp) := ServeGroup(cfg, m, DropMember(gid, uid), now);
    DropDoes(DropOne(InMembers(gid, uid)), shelf, m', resp);
  }

  /** Joining two stored rows; for any others the insert fails. */
  lemma PutMemberDoes(cfg: Config, m: M.Rows, shelf: Shelf, gid: string, uid: string, now: nat)
    requires Shelves(shelf, m)
    ensures var (m', resp) := ServeGroup(cfg, m, PutMember(gid, uid), now);
            Does(AddMember(Membership(gid, uid, now)), shelf, m', resp)
  {
    hide Ends, Shelves, CodeOf;
    MemberShelved(shelf, m, Membership(gid, uid, now));
    AddMemberEnds(Membership(gid, uid, now), shelf, gid in m.groups && uid in m.users);
  }

  /** The same for the requests for one group or membership. */
  lemma GroupProgramsServe(cfg: Config, m: M.Rows, shelf: Shelf, req: GroupRequest, now: nat)
    requires Shelves(shelf, m) && M.Inv(m) && !req.BrowseGroups? && !req.BrowseMembers?
    ensures var (m', resp) := ServeGroup(cfg, m, req, now);
            Does(GroupHandler(cfg, req, now), shelf, m', resp)
  {
    hide Does, Shelves, M.Inv;
    match req
    case PostGroup(body) => PostGroupDoes(cfg, m, shelf, body, now);
    case FetchGroup(id) => GetDoes(m, shelf, InGroups(id), ServeGroup(cfg, m, req, now).1);
    case PutGroup(id, body) => PutGroupDoes(cfg, m, shelf, id, body, now);
    case DropGroup(id) => DropGroupDoes(cfg, m, shelf, id, now);
    case PutMember(gid, uid) => PutMemberDoes(cfg, m, shelf, gid, uid, now);
    case DropMember(gid, uid) => DropMemberDoes(cfg, m, shelf, gid, uid, now);
  }

  // Apps.

  function AppHandler(cfg: Config, req: AppRequest, now: nat): Handler
    requires !req.BrowseApps?
  {
    match req
    case PostApp(body) =>
      var b := if body.MalformedApp? then AppFields("", "", "", "") else body;
      CopyOnRead.CreateApp(App(NewID(cfg.sha, KIND_APP, b.labelText), FirstNonEmpty(b.name, b.labelText), b.labelText,
                               ACTIVE, b.signOnMode, b.settings, now))
    case FetchApp(id) => GetOne(InApps(id))
    case PutApp(id, body) =>
      if body.MalformedApp? then CopyOnRead.UpdateApp(id, "", "", "")
      else CopyOnRead.UpdateApp(id, body.name, body.labelText, body.settings)
    case ActivateApp(id) => AppLifecycle(id, ACTIVE)
    case DeactivateApp(id) => AppLifecycle(id, INACTIVE)
    case DropApp(id) => CopyOnRead.DeleteApp(id)
  }

  lemma PostAppDoes(cfg: Config, m: M.Rows, shelf: Shelf, body: AppBody, now: nat)
    requires Shelves(shelf, m)
    ensures var (m', resp) := ServeApp(cfg, m, PostApp(body), now);
            Does(AppHandler(cfg, PostApp(body), now), shelf, m', resp)
  {
    hide Ends, NewID, Shelves, FirstNonEmpty;
    var a := AppHandler(cfg, PostApp(body), now).app;
    CreateEnds(AppRow(a), shelf);
    AppShelved(shelf, m, a);
  }

  lemma PutAppDoes(cfg: Config, m: M.Rows, shelf: Shelf, id: string, body: AppBody, now: nat)
    requires Shelves(shelf, m) && M.Inv(m)
    ensures var (m', resp) := ServeApp(cfg, m, PutApp(id, body), now);
            Does(AppHandler(cfg, PutApp(id, body), now), shelf, m', resp)
  {
    hide Ends, M.NoDanglingMembers, M.LoginsDiffer, M.NamesDiffer;
    var h := AppHandler(cfg, PutApp(id, body), now);
    var k := AppFrom(0, h.name, h.labelText, h.settings);
    EditEnds(InApps(id), k, shelf);
    if id in m.apps && body.AppFields? {
      var was := m.apps[id];
      var a := was.(name := FirstNonEmpty(body.name, was.name),
                    labelText := FirstNonEmpty(body.labelText, was.labelText), settings := body.settings);
      MadeFromApp(was, body.name, body.labelText, body.settings);
      AppShelved(shelf, m, a);
    }
    hide Made, MadeOf, Shelves, FirstNonEmpty;
  }

  lemma FlipAppDoes(m: M.Rows, shelf: Shelf, id: string, target: string, m': M.Rows, resp: Response)
    requires Shelves(shelf, m) && M.Inv(m)
    requires if id in m.apps
             then && m' == m.(apps := m.apps[id := m.apps[id].(status := target)])
                  && resp.status in {200, 204} && resp.body.Nothing?
             else m' == m && resp == Plain(404)
    ensures Does(AppLifecycle(id, target), shelf, m', resp)
  {
    hide Ends, M.NoDanglingMembers, M.LoginsDiffer, M.NamesDiffer;
    var found := Assign(0, Status(target), Put(0, End, End));
    if id in m.apps {
      var a := m.apps[id].(status := target);
      StatusEnds(Solo(found, map[0 := shelf[InApps(id)]], shelf, shelf, [], []), Status(target), AppRow(a), true);
      AppShelved(shelf, m, a);
      ReadEnds(InApps(id), found, shelf, true, shelf[InApps(id) := AppRow(a)], []);
    } else {
      ReadEnds(InApps(id), found, shelf, true, shelf, []);
    }
    hide Shelves;
  }

  lemma DropAppDoes(cfg: Config, m: M.Rows, shelf: Shelf, id: string, now: nat)
    requires Shelves(shelf, m)
    ensures var (m', resp) := ServeApp(cfg, m, DropApp(id), now);
            Does(CopyOnRead.DeleteApp(id), shelf, m', resp)
  {
    hide Ends, ErasedFrom;
    var found := IfStatus(0, INACTIVE, Erase(InApps(id), End), End);
    var (m', resp) := ServeApp(cfg, m, DropApp(id), now);
    var ok := Passes(CopyOnRead.DeleteApp(id), resp);
    if id in m.apps {
      var s := Solo(found, map[0 := shelf[InApps(id)]], shelf, shelf, [], []);
      var gone := m.apps[id].status == INACTIVE;
      var table := if gone then ErasedFrom(shelf, InApps(id)) else shelf;
      if gone { EraseEnds(Next(s, ok), InApps(id), ok); } else { EndEnds(Next(s, ok), ok); }
      OneStep(s, ok, table, []);
      AppUnshelved(shelf, m, id);
      ReadEnds(InApps(id), found, shelf, ok, table, []);
    } else {
      ReadEnds(InApps(id), found, shelf, ok, shelf, []);
    }
    hide Shelves;
  }

  /** The same for the requests for one app. */
  lemma AppProgramsServe(cfg: Config, m: M.Rows, shelf: Shelf, req: AppRequest, now: nat)
    requires Shelves(shelf, m) && M.Inv(m) && !req.BrowseApps?
    ensures var (m', resp) := ServeApp(cfg, m, req, now);
            Does(AppHandler(cfg, req, now), shelf, m', resp)
  {
    hide Does, Shelves, M.Inv;
    var (m', resp) := ServeApp(cfg, m, req, now);
    match req
    case PostApp(body) => PostAppDoes(cfg, m, shelf, body, now);
    case FetchApp(id) => GetDoes(m, shelf, InApps(id), resp);
    case PutApp(id, body) => PutAppDoes(cfg, m, shelf, id, body, now);
    case ActivateApp(id) => FlipAppDoes(m, shelf, id, ACTIVE, m', resp);
    case DeactivateApp(id) => FlipAppDoes(m, shelf, id, INACTIVE, m', resp);
    case DropApp(id) => DropAppDoes(cfg, m, shelf, id, now);
  }

  // Lists.

  lemma {:induction false} AllFound(table: Shelf, places: seq<Place>)
    requires forall i | 0 <= i < |places| :: places[i] in table
    ensures FoundAt(table, places) == seq(|places|, i requires 0 <= i < |places| => table[places[i]])
  {
    if places != [] {
      assert forall i | 0 <= i < |places| - 1 :: places[1..][i] == places[i + 1];
      AllFound(table, places[1..]);
    }
  }

  /** It changes nothing and returns these. */
  predicate Returns(h: Handler, table: Shelf, kept: seq<Struct>) {
    var e := Finish(Start(CodeOf(h), table), true);
    e.table == table && e.shown == [] && e.kept == kept
  }

  function UserRows(users: seq<User>): seq<Struct> {
    seq(|users|, i requires 0 <= i < |users| => UserRow(users[i]))
  }

  function GroupPlaces(ids: seq<string>): seq<Place> {
    seq(|ids|, i requires 0 <= i < |ids| => InGroups(ids[i]))
  }

  function AppPlaces(ids: seq<string>): seq<Place> {
    seq(|ids|, i requires 0 <= i < |ids| => InApps(ids[i]))
  }

  // The programs of the lists return all rows in order of ID, which the handlers then filter and cut.

  lemma UserListReturns(m: M.Rows, shelf: Shelf)
    requires Shelves(shelf, m)
    ensures var rows := M.InOrder(m.users);
            Returns(ListRows(UserPlaces(SortedKeys(m.users.Keys))), shelf,
                    seq(|rows|, i requires 0 <= i < |rows| => UserRow(rows[i])))
  {
    hide Finish, CodeOf;
    var ids := SortedKeys(m.users.Keys);
    assert forall i | 0 <= i < |ids| :: ids[i] in ids;
    ListRowsEnds(UserPlaces(ids), shelf, true);
    AllFound(shelf, UserPlaces(ids));
  }

  lemma GroupListReturns(m: M.Rows, shelf: Shelf)
    requires Shelves(shelf, m)
    ensures var rows := M.InOrder(m.groups);
            Returns(ListRows(GroupPlaces(SortedKeys(m.groups.Keys))), shelf,
                    seq(|rows|, i requires 0 <= i < |rows| => GroupRow(rows[i])))
  {
    hide Finish, CodeOf;
    var ids := SortedKeys(m.groups.Keys);
    assert forall i | 0 <= i < |ids| :: ids[i] in ids;
    ListRowsEnds(GroupPlaces(ids), shelf, true);
    AllFound(shelf, GroupPlaces(ids));
  }

  lemma AppListReturns(m: M.Rows, shelf: Shelf)
    requires Shelves(shelf, m)
    ensures var rows := M.InOrder(m.apps);
            Returns(ListRows(AppPlaces(SortedKeys(m.apps.Keys))), shelf,
                    seq(|rows|, i requires 0 <= i < |rows| => AppRow(rows[i])))
  {
    hide Finish, CodeOf;
    var ids := SortedKeys(m.apps.Keys);
    assert forall i | 0 <= i < |ids| :: ids[i] in ids;
    ListRowsEnds(AppPlaces(ids), shelf, true);
    AllFound(shelf, AppPlaces(ids));
  }

  function UserIds(rows: seq<Membership>): seq<string> {
    seq(|rows|, i requires 0 <= i < |rows| => rows[i].userId)
  }

  lemma MembershipsFound(m: M.Rows, shelf: Shelf, gid: string)
    requires Shelves(shelf, m) && M.RowsKeyed(m)
    ensures var rows := M.MembersOf(m, gid);
            FoundAt(shelf, Members(gid, UserIds(rows)))
            == seq(|rows|, i requires 0 <= i < |rows| => MemberRow(rows[i]))
  {
    hide M.MembersOf, FoundAt;
    var rows := M.MembersOf(m, gid);
    var places := Members(gid, UserIds(rows));
    MembersInOrder(m, gid);
    forall i | 0 <= i < |rows| ensures places[i] in shelf && shelf[places[i]] == MemberRow(rows[i]) {
      assert (gid, rows[i].userId) in m.members;
    }
    AllFound(shelf, places);
  }

  lemma UserOnShelf(m: M.Rows, shelf: Shelf, id: string)
    requires Shelves(shelf, m) && id in m.users
    ensures InUsers(id) in shelf && shelf[InUsers(id)] == UserRow(m.users[id])
  {
  }

  lemma UsersFoundAt(shelf: Shelf, uids: seq<string>, users: seq<User>)
    requires |uids| == |users|
    requires forall i | 0 <= i < |uids| :: InUsers(uids[i]) in shelf && shelf[InUsers(uids[i])] == UserRow(users[i])
    ensures FoundAt(shelf, UserPlaces(uids)) == UserRows(users)
  {
    AllFound(shelf, UserPlaces(uids));
  }

  lemma MembersFound(m: M.Rows, shelf: Shelf, gid: string)
    requires Shelves(shelf, m) && M.Inv(m)
    ensures FoundAt(shelf, UserPlaces(UserIds(M.MembersOf(m, gid)))) == UserRows(MemberUsers(m, gid))
  {
    hide M.MembersOf, MemberUsers, FoundAt, M.Inv, Shelves, UserPlaces, UserRows;
    AloneNothingIsSkipped(m, gid);
    var rows, users := M.MembersOf(m, gid), MemberUsers(m, gid);
    var uids := UserIds(rows);
    forall i | 0 <= i < |rows|
      ensures InUsers(uids[i]) in shelf && shelf[InUsers(uids[i])] == UserRow(users[i])
    {
      UserOnShelf(m, shelf, rows[i].userId);
    }
    UsersFoundAt(shelf, uids, users);
  }

  /** That of the member list returns the memberships it has walked and then the users BrowseMembers answers. */
  lemma MemberProgramReturns(cfg: Config, m: M.Rows, shelf: Shelf, gid: string, now: nat)
    requires Shelves(shelf, m) && M.Inv(m) && gid in m.groups
    ensures var rows := M.MembersOf(m, gid);
            var resp := ServeGroup(cfg, m, BrowseMembers(gid), now).1;
            && resp.body.Users?
            && Returns(ListMembers(gid, UserIds(rows)), shelf,
                       seq(|rows|, i requires 0 <= i < |rows| => MemberRow(rows[i])) + UserRows(resp.body.users))
  {
    hide Finish, CodeOf, M.MembersOf, M.MemberIds, MemberUsers, M.LoginsDiffer, M.NamesDiffer, FoundAt, Members,
         UserPlaces, UserIds, UserRows;
    MembershipsFound(m, shelf, gid);
    MembersFound(m, shelf, gid);
    ListMembersEnds(gid, UserIds(M.MembersOf(m, gid)), shelf, true);
  }
}
