/**
  The request handlers, each a short program over the store's methods, proved to serve
  what Requests.Serve says.
*/
module Handlers {
  import opened Wrappers
  import opened Schemas
  import opened Model
  import opened Stores
  import opened Ids
  import opened Filters
  import opened Requests

  // The loop the list handlers share.

  lemma {:induction false} SelectedSplits<R>(rows: seq<R>, keep: R -> bool, i: nat)
    requires i <= |rows|
    ensures Selected(rows[..i], keep) <= Selected(rows, keep)
    decreases |rows|
  {
    if i == |rows| {
      assert rows[..i] == rows;
    } else {
      var before := rows[..|rows| - 1];
      SelectedSplits(before, keep, i);
      assert before[..i] == rows[..i];
    }
  }

  method Pick<R>(rows: seq<R>, keep: R -> bool, limit: int) returns (out: seq<R>)
    ensures out == Limited(Selected(rows, keep), limit)
  {
    out := [];
    var i := 0;
    while i < |rows|
      invariant 0 <= i <= |rows| && out == Selected(rows[..i], keep)
      invariant limit > 0 ==> |out| < limit
    {
      var row := rows[i];
      i := i + 1;
      assert rows[..i][..i - 1] == rows[..i - 1];
      if !keep(row) {
        continue;
      }
      out := out + [row];
      if limit > 0 && |out| >= limit {
        SelectedSplits(rows, keep, i);
        return;
      }
    }
    assert rows[..|rows|] == rows;
  }

  // Users

  method UsersCreate(s: Store, cfg: Config, body: UserBody, activate: bool, now: nat) returns (resp: Response)
    requires s.Valid()
    modifies s`db
    ensures s.Valid()
    ensures (View(s.db), resp) == ServeUser(cfg, old(View(s.db)), PostUser(body, activate), now)
  {
    hide ConsistentDb, Inv, NewID;
    var profile := Validated(cfg.strict, body);
    if profile.None? {
      return Plain(400);
    }
    var status := PROVISIONED;
    if !activate {
      status := STAGED;
    }
    var p := profile.value;
    var u := User(NewID(cfg.sha, KIND_USER, p.login), p.login, p.email, status, p.raw, now, now);
    var err := s.CreateUser(u);
    if err != Done {
      return StoreError(err);
    }
    return Shown(TheUser(u));
  }

  method UsersGet(s: Store, cfg: Config, key: string, now: nat) returns (resp: Response)
    requires s.Valid()
    ensures (View(s.db), resp) == ServeUser(cfg, View(s.db), FetchUser(key), now)
  {
    var r := s.GetUser(key);
    if r == NotFound {
      r := s.GetUserByLogin(key);
    }
    if !r.OneUser? {
      return StoreError(r);
    }
    return Shown(TheUser(r.user));
  }

  method UsersUpdate(s: Store, cfg: Config, id: string, body: UserBody, now: nat) returns (resp: Response)
    requires s.Valid()
    modifies s`db
    ensures s.Valid()
    ensures (View(s.db), resp) == ServeUser(cfg, old(View(s.db)), PutUser(id, body), now)
  {
    hide ConsistentDb, LoginsDiffer, NamesDiffer, NoDanglingMembers, InOrder, Selected, ByLogin, LooksValid;
    var r := s.GetUser(id);
    if !r.OneUser? {
      return StoreError(r);
    }
    var existing := r.user;
    var profile := Validated(cfg.strict, body);
    if profile.None? {
      return Plain(400);
    }
    var p := profile.value;
    var updated := User(existing.id, p.login, p.email, existing.status, p.raw, existing.createdAt, now);
    var err := s.UpdateUser(updated);
    if err != Done {
      return StoreError(err);
    }
    return Shown(TheUser(updated));
  }

  method UserLifecycle(s: Store, cfg: Config, id: string, target: string, now: nat) returns (resp: Response)
    requires s.Valid() && (target == ACTIVE || target == DEPROVISIONED)
    modifies s`db
    ensures s.Valid()
    ensures (View(s.db), resp)
         == ServeUser(cfg, old(View(s.db)), if target == ACTIVE then ActivateUser(id) else DeactivateUser(id), now)
  {
    hide ConsistentDb, NamesDiffer, NoDanglingMembers, InOrder, Selected, ByLogin;
    var r := s.GetUser(id);
    if !r.OneUser? {
      return StoreError(r);
    }
    var u := r.user;
    u := u.(status := target);
    u := u.(updatedAt := now);
    var err := s.UpdateUser(u);
    if err != Done {
      return StoreError(err);
    }
    return Plain(200);
  }

  method UsersDelete(s: Store, cfg: Config, id: string, now: nat) returns (resp: Response)
    requires s.Valid()
    modifies s`db
    ensures s.Valid()
    ensures (View(s.db), resp) == ServeUser(cfg, old(View(s.db)), DropUser(id), now)
  {
    hide ConsistentDb, NamesDiffer, NoDanglingMembers, InOrder, Selected, ByLogin;
    var r := s.GetUser(id);
    if !r.OneUser? {
      return StoreError(r);
    }
    var u := r.user;
    if u.status != DEPROVISIONED {
      u := u.(status := DEPROVISIONED);
      u := u.(updatedAt := now);
      var err := s.UpdateUser(u);
      if err != Done {
        return StoreError(err);
      }
      return Plain(204);
    }
    var err := s.DeleteUser(id);
    if err != Done {
      return StoreError(err);
    }
    return Plain(204);
  }

  method UsersList(s: Store, cfg: Config, filter: string, limitText: string, now: nat) returns (resp: Response)
    requires s.Valid()
    ensures (View(s.db), resp) == ServeUser(cfg, View(s.db), BrowseUsers(filter, limitText), now)
  {
    var limit := ParseLimit(limitText);
    var pred: Option<Filter> := None;
    if filter != "" {
      pred := ParseUserFilter(filter);
      if pred.None? {
        return Gapped(400, GAP_USER_FILTER);
      }
    }
    var all := s.ListUsers(0);
    var out := Pick(all.users, UserTest(pred), limit);
    return Shown(Users(out));
  }

  // Groups

  method GroupsCreate(s: Store, cfg: Config, body: GroupBody, now: nat) returns (resp: Response)
    requires s.Valid()
    modifies s`db
    ensures s.Valid()
    ensures (View(s.db), resp) == ServeGroup(cfg, old(View(s.db)), PostGroup(body), now)
  {
    hide ConsistentDb, Inv;
    if body.MalformedGroup? {
      return Plain(400);
    }
    match body.kind {
      case "" =>
      case "OKTA_GROUP" =>
      case "APP_GROUP" => return Gapped(501, GAP_APP_GROUP);
      case "BUILT_IN" => return Gapped(501, GAP_BUILT_IN);
      case _ => return Plain(400);
    }
    if body.name == "" {
      return Plain(400);
    }
    var g := Group(NewID(cfg.sha, KIND_GROUP, body.name), body.name, OKTA_GROUP, body.description, body.raw, now);
    var err := s.CreateGroup(g);
    if err != Done {
      return StoreError(err);
    }
    return Shown(TheGroup(g));
  }

  method GroupsUpdate(s: Store, cfg: Config, id: string, body: GroupBody, now: nat) returns (resp: Response)
    requires s.Valid()
    modifies s`db
    ensures s.Valid()
    ensures (View(s.db), resp) == ServeGroup(cfg, old(View(s.db)), PutGroup(id, body), now)
  {
    hide ConsistentDb, LoginsDiffer, NamesDiffer, NoDanglingMembers, InOrder, Selected;
    var r := s.GetGroup(id);
    if !r.OneGroup? {
      return StoreError(r);
    }
    var existing := r.group;
    if body.MalformedGroup? {
      return Plain(400);
    }
    if body.kind != "" && body.kind != existing.kind {
      return Plain(400);
    }
    var name := body.name;
    if name == "" {
      name := existing.name;
    }
    var updated := Group(existing.id, name, existing.kind, body.description, body.raw, existing.createdAt);
    var err := s.UpdateGroup(updated);
    if err != Done {
      return StoreError(err);
    }
    return Shown(TheGroup(updated));
  }

  method GroupsDelete(s: Store, cfg: Config, id: string, now: nat) returns (resp: Response)
    requires s.Valid()
    modifies s`db
    ensures s.Valid()
    ensures (View(s.db), resp) == ServeGroup(cfg, old(View(s.db)), DropGroup(id), now)
  {
    var err := s.DeleteGroup(id);
    if err != Done {
      return StoreError(err);
    }
    return Plain(204);
  }

  method GroupsList(s: Store, cfg: Config, filter: string, q: string, limitText: string, now: nat)
    returns (resp: Response)
    requires s.Valid()
    ensures (View(s.db), resp) == ServeGroup(cfg, View(s.db), BrowseGroups(filter, q, limitText), now)
  {
    if filter != "" {
      return Gapped(400, GAP_GROUP_FILTER);
    }
    var limit := ParseLimit(limitText);
    var all := s.ListGroups(0);
    var out := Pick(all.groups, GroupTest(cfg.lower, q), limit);
    return Shown(Groups(out));
  }

  method MembershipAdd(s: Store, cfg: Config, gid: string, uid: string, now: nat) returns (resp: Response)
    requires s.Valid()
    modifies s`db
    ensures s.Valid()
    ensures (View(s.db), resp) == ServeGroup(cfg, old(View(s.db)), PutMember(gid, uid), now)
  {
    var err := s.AddGroupMembership(Membership(gid, uid, now));
    if err != Done {
      return StoreError(err);
    }
    return Plain(204);
  }

  method MembershipRemove(s: Store, cfg: Config, gid: string, uid: string, now: nat) returns (resp: Response)
    requires s.Valid()
    modifies s`db
    ensures s.Valid()
    ensures (View(s.db), resp) == ServeGroup(cfg, old(View(s.db)), DropMember(gid, uid), now)
  {
    var err := s.RemoveGroupMembership(gid, uid);
    if err != Done {
      return StoreError(err);
    }
    return Plain(204);
  }

  method MembershipList(s: Store, cfg: Config, gid: string, now: nat) returns (resp: Response)
    requires s.Valid()
    ensures (View(s.db), resp) == ServeGroup(cfg, View(s.db), BrowseMembers(gid), now)
  {
    hide ConsistentDb, Inv;
    var g := s.GetGroup(gid);
    if !g.OneGroup? {
      return StoreError(g);
    }
    var listed := s.ListGroupMembers(gid);
    var members := listed.rows;
    var out: seq<User> := [];
    ghost var rows := View(s.db);
    ghost var moments := seq(|members|, _ => rows);
    for i := 0 to |members|
      invariant out == UsersFound(members[..i], moments[..i])
    {
      assert members[..i + 1][..i] == members[..i] && moments[..i + 1][..i] == moments[..i];
      var r := s.GetUser(members[i].userId);
      if !r.OneUser? {
        continue;
      }
      out := out + [r.user];
    }
    assert members[..|members|] == members && moments[..|members|] == moments;
    return Shown(Users(out));
  }

  // Apps

  method AppsCreate(s: Store, cfg: Config, body: AppBody, now: nat) returns (resp: Response)
    requires s.Valid()
    modifies s`db
    ensures s.Valid()
    ensures (View(s.db), resp) == ServeApp(cfg, old(View(s.db)), PostApp(body), now)
  {
    hide ConsistentDb, LoginsDiffer, NamesDiffer, NoDanglingMembers, InOrder, Selected;
    if body.MalformedApp? {
      return Plain(400);
    }
    if body.signOnMode != SAML {
      return Gapped(501, GAP_NON_SAML);
    }
    if body.labelText == "" {
      return Plain(400);
    }
    var a := App(NewID(cfg.sha, KIND_APP, body.labelText), FirstNonEmpty(body.name, body.labelText),
                 body.labelText, ACTIVE, body.signOnMode, body.settings, now);
    var err := s.CreateApp(a);
    if err != Done {
      return StoreError(err);
    }
    return Shown(TheApp(a));
  }

  method AppsUpdate(s: Store, cfg: Config, id: string, body: AppBody, now: nat) returns (resp: Response)
    requires s.Valid()
    modifies s`db
    ensures s.Valid()
    ensures (View(s.db), resp) == ServeApp(cfg, old(View(s.db)), PutApp(id, body), now)
  {
    var r := s.GetApp(id);
    if !r.OneApp? {
      return StoreError(r);
    }
    var existing := r.app;
    if body.MalformedApp? {
      return Plain(400);
    }
    if body.signOnMode != "" && body.signOnMode != existing.signOnMode {
      return Plain(400);
    }
    var updated := App(existing.id, FirstNonEmpty(body.name, existing.name),
                       FirstNonEmpty(body.labelText, existing.labelText), existing.status, existing.signOnMode,
                       body.settings, existing.createdAt);
    var err := s.UpdateApp(updated);
    if err != Done {
      return StoreError(err);
    }
    return Shown(TheApp(updated));
  }

  method AppLifecycle(s: Store, cfg: Config, id: string, target: string, now: nat) returns (resp: Response)
    requires s.Valid() && (target == ACTIVE || target == INACTIVE)
    modifies s`db
    ensures s.Valid()
    ensures (View(s.db), resp)
         == ServeApp(cfg, old(View(s.db)), if target == ACTIVE then ActivateApp(id) else DeactivateApp(id), now)
  {
    var r := s.GetApp(id);
    if !r.OneApp? {
      return StoreError(r);
    }
    var a := r.app;
    a := a.(status := target);
    var err := s.UpdateApp(a);
    if err != Done {
      return StoreError(err);
    }
    return Plain(200);
  }

  method AppsDelete(s: Store, cfg: Config, id: string, now: nat) returns (resp: Response)
    requires s.Valid()
    modifies s`db
    ensures s.Valid()
    ensures (View(s.db), resp) == ServeApp(cfg, old(View(s.db)), DropApp(id), now)
  {
    var r := s.GetApp(id);
    if !r.OneApp? {
      return StoreError(r);
    }
    if r.app.status != INACTIVE {
      return Plain(400);
    }
    var err := s.DeleteApp(r.app.id);
    if err != Done {
      return StoreError(err);
    }
    return Plain(204);
  }

  method AppsList(s: Store, cfg: Config, filter: string, limitText: string, now: nat) returns (resp: Response)
    requires s.Valid()
    ensures (View(s.db), resp) == ServeApp(cfg, View(s.db), BrowseApps(filter, limitText), now)
  {
    var limit := ParseLimit(limitText);
    var pred: Option<Filter> := None;
    if filter != "" {
      pred := ParseAppFilter(filter);
      if pred.None? {
        return Gapped(400, GAP_APP_FILTER);
      }
    }
    var all := s.ListApps(0);
    var out := Pick(all.apps, AppTest(pred), limit);
    return Shown(Apps(out));
  }
}
