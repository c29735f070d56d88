/**
  What the stored rows say about the profiles they were given, over every run of
  requests, and what a rename changes for later lookups. Decoding a profile is a parameter.
*/
module Profiles {
  import opened Wrappers
  import opened Schemas
  import opened Model
  import opened Ids
  import opened Filters
  import opened Requests
  import opened Audited
  import opened Traces

  /** What decoding finds in a raw profile. */
  datatype Reader = Reader(loginOf: string -> string, emailOf: string -> string, nameOf: string -> string)

  predicate HonestUser(rd: Reader, body: UserBody) {
    body.UserProfile? ==> body.login == rd.loginOf(body.raw) && body.email == rd.emailOf(body.raw)
  }

  predicate HonestGroup(rd: Reader, body: GroupBody) {
    body.GroupFields? ==> body.name == rd.nameOf(body.raw)
  }

  predicate HonestUserRequest(rd: Reader, req: UserRequest) {
    req.PostUser? || req.PutUser? ==> HonestUser(rd, req.body)
  }

  predicate HonestGroupRequest(rd: Reader, req: GroupRequest) {
    req.PostGroup? || req.PutGroup? ==> HonestGroup(rd, req.body)
  }

  predicate Honest(rd: Reader, req: Request) {
    match req
    case ForUsers(r) => HonestUserRequest(rd, r)
    case ForGroups(r) => HonestGroupRequest(rd, r)
    case _ => true
  }

  predicate UserAgrees(rd: Reader, u: User) {
    && u.login == rd.loginOf(u.profile) && u.email == rd.emailOf(u.profile)
    && u.status in {STAGED, PROVISIONED, ACTIVE, DEPROVISIONED}
  }

  /** A group may outlive the name in its profile: an update without a name keeps the old one. */
  predicate GroupAgrees(rd: Reader, g: Group) {
    g.kind == OKTA_GROUP && (g.name == rd.nameOf(g.profile) || rd.nameOf(g.profile) == "")
  }

  predicate AppAgrees(a: App) { a.signOnMode == SAML && a.status in {ACTIVE, INACTIVE} }

  ghost predicate Agree(rd: Reader, m: Rows) {
    && (forall id | id in m.users :: UserAgrees(rd, m.users[id]))
    && (forall id | id in m.groups :: GroupAgrees(rd, m.groups[id]))
    && (forall id | id in m.apps :: AppAgrees(m.apps[id]))
  }

  lemma StoredAgrees(rd: Reader, m: Rows, u: User)
    requires Agree(rd, m) && UserAgrees(rd, u)
    ensures Agree(rd, Stored(m, u).0)
  {
  }

  lemma AgreesAt(rd: Reader, m: Rows, id: string)
    requires Agree(rd, m) && id in m.users
    ensures UserAgrees(rd, m.users[id])
  {
  }

  lemma FlippedAgrees(rd: Reader, m: Rows, id: string, status: string, now: nat)
    requires Agree(rd, m) && id in m.users && status in {ACTIVE, DEPROVISIONED}
    ensures Agree(rd, Flipped(m, id, status, now))
  {
  }

  lemma WithoutUserAgrees(rd: Reader, m: Rows, id: string)
    requires Agree(rd, m)
    ensures Agree(rd, WithoutUser(m, id))
  {
  }

  lemma UserRequestAgrees(cfg: Config, rd: Reader, m: Rows, req: UserRequest, now: nat)
    requires Agree(rd, m) && HonestUserRequest(rd, req)
    ensures Agree(rd, ServeUser(cfg, m, req, now).0)
  {
    hide NewID, InOrder, Selected, LooksValid, ByLogin, ParseUserFilter, LimitOf, Flipped, Agree;
    match req
    case PostUser(body, activate) =>
      if body.UserProfile? { StoredAgrees(rd, m, NewUser(cfg, body, activate, now)); }
    case ActivateUser(id) => if id in m.users { FlippedAgrees(rd, m, id, ACTIVE, now); }
    case DeactivateUser(id) => if id in m.users { FlippedAgrees(rd, m, id, DEPROVISIONED, now); }
    case DropUser(id) =>
      if id in m.users {
        FlippedAgrees(rd, m, id, DEPROVISIONED, now);
        WithoutUserAgrees(rd, m, id);
      }
    case PutUser(id, body) =>
      if id in m.users && body.UserProfile? {
        AgreesAt(rd, m, id);
        var u := m.users[id].(login := body.login, email := body.email, profile := body.raw, updatedAt := now);
        StoredAgrees(rd, m, u);
      }
    case _ =>
  }

  lemma GroupRequestAgrees(cfg: Config, rd: Reader, m: Rows, req: GroupRequest, now: nat)
    requires Agree(rd, m) && HonestGroupRequest(rd, req)
    ensures Agree(rd, ServeGroup(cfg, m, req, now).0)
  {
    hide NewID, InOrder, Selected, NameTaken, LimitOf, MemberUsers;
  }

  lemma AppRequestAgrees(cfg: Config, rd: Reader, m: Rows, req: AppRequest, now: nat)
    requires Agree(rd, m)
    ensures Agree(rd, ServeApp(cfg, m, req, now).0)
  {
    hide NewID, InOrder, Selected, ParseAppFilter, LimitOf;
  }

  lemma HitAgrees(cfg: Config, rd: Reader, sys: System, hit: Hit)
    requires Agree(rd, sys.rows) && Honest(rd, hit.req)
    ensures Agree(rd, ServeHit(cfg, sys, hit).0.rows)
  {
    hide ServeUser, ServeGroup, ServeApp, UserAgrees, GroupAgrees, AppAgrees;
    match hit.req
    case ForUsers(r) => UserRequestAgrees(cfg, rd, sys.rows, r, hit.now);
    case ForGroups(r) => GroupRequestAgrees(cfg, rd, sys.rows, r, hit.now);
    case ForApps(r) => AppRequestAgrees(cfg, rd, sys.rows, r, hit.now);
    case _ =>
  }

  /**
    After any run every user has the login and e-mail of its own stored profile, every
    group the name of its profile unless that profile has none, and every status, group
    type and sign-on mode is one of those the program implements.
  */
  lemma {:induction false} RowsAgreeWithProfiles(cfg: Config, rd: Reader, hits: seq<Hit>)
    requires forall i | 0 <= i < |hits| :: Honest(rd, hits[i].req)
    ensures Agree(rd, After(cfg, FRESH, hits).rows)
    decreases |hits|
  {
    hide ServeHit, Agree, Honest;
    if hits == [] {
      assert Agree(rd, FRESH.rows) by { NothingAgrees(rd); }
    } else {
      var before, k := hits[..|hits| - 1], |hits| - 1;
      assert forall i | 0 <= i < |before| :: before[i] == hits[i];
      RowsAgreeWithProfiles(cfg, rd, before);
      HitAgrees(cfg, rd, After(cfg, FRESH, before), hits[k]);
    }
  }

  lemma NothingAgrees(rd: Reader)
    ensures Agree(rd, NOTHING)
  {
  }

  /** After an update the group has its profile's name exactly when that profile has one. */
  lemma GroupKeepsNameIff(cfg: Config, rd: Reader, m: Rows, id: string, body: GroupBody, now: nat)
    requires Inv(m) && id in m.groups && HonestGroup(rd, body)
    requires ServeGroup(cfg, m, PutGroup(id, body), now).1.status == 200
    ensures var g := ServeGroup(cfg, m, PutGroup(id, body), now).0.groups[id];
            && (g.name == rd.nameOf(g.profile) <==> rd.nameOf(body.raw) != "")
            && (rd.nameOf(body.raw) == "" ==> g.name == m.groups[id].name)
            && g.(name := "", description := "", profile := "")
               == m.groups[id].(name := "", description := "", profile := "")
  {
    hide NewID, InOrder, Selected, NameTaken;
  }

  const NAMED := GroupFields("", "{name}", "a", "")
  const NAMELESS := GroupFields("", "{}", "", "")

  function Sending(req: GroupRequest): Hit { Hit(ForGroups(req), true, "", "", 1) }

  /** A group created under a name and then put without one has a profile it does not agree with. */
  lemma NamelessPutKeepsName(cfg: Config, rd: Reader)
    requires HonestGroup(rd, NAMED) && HonestGroup(rd, NAMELESS)
    ensures var id := NewID(cfg.sha, KIND_GROUP, "a");
            var m := After(cfg, FRESH, [Sending(PostGroup(NAMED)), Sending(PutGroup(id, NAMELESS))]).rows;
            id in m.groups && m.groups[id].name == "a" && rd.nameOf(m.groups[id].profile) == ""
  {
    hide NewID;
    var id := NewID(cfg.sha, KIND_GROUP, "a");
    var first, second := Sending(PostGroup(NAMED)), Sending(PutGroup(id, NAMELESS));
    assert [first, second][..1] == [first] && [first][..0] == [];
    assert After(cfg, FRESH, [first]) == ServeHit(cfg, After(cfg, FRESH, []), first).0;
    var s1 := ServeHit(cfg, FRESH, first).0;
    assert s1.rows.groups == map[id := Group(id, "a", OKTA_GROUP, "", "{name}", 1)];
  }

  // Lookups after a rename.

  /** A lookup tries the key as an ID, then as a login, and fails exactly when it is neither. */
  lemma FetchFinds(cfg: Config, m: Rows, key: string, now: nat)
    requires Inv(m)
    ensures var (m', resp) := ServeUser(cfg, m, FetchUser(key), now);
            && m' == m
            && (resp.status == 404 <==> key !in m.users && forall id | id in m.users :: m.users[id].login != key)
            && (key in m.users ==> resp == Shown(TheUser(m.users[key])))
            && (forall id | id in m.users && m.users[id].login == key && key !in m.users ::
                  resp == Shown(TheUser(m.users[id])))
  {
    forall id | id in m.users && m.users[id].login == key ensures ByLogin(m, key) == Some(m.users[id]) {
      ByLoginIsTheRow(m, id);
    }
  }

  /**
    After a rename the row is found under its old ID and its new login, its old login is
    free, its status and creation time are kept, and no other user has changed.
  */
  lemma RenameMovesTheLogin(cfg: Config, m: Rows, id: string, body: UserBody, now: nat, later: nat)
    requires Inv(m) && id in m.users && body.UserProfile?
    requires ServeUser(cfg, m, PutUser(id, body), now).1.status == 200
    ensures var m' := ServeUser(cfg, m, PutUser(id, body), now).0;
            var oldLogin := m.users[id].login;
            && m'.users.Keys == m.users.Keys && m'.users - {id} == m.users - {id}
            && m'.users[id]
               == m.users[id].(login := body.login, email := body.email, profile := body.raw, updatedAt := now)
            && ServeUser(cfg, m', FetchUser(id), later).1 == Shown(TheUser(m'.users[id]))
            && (body.login !in m.users ==>
                  ServeUser(cfg, m', FetchUser(body.login), later).1 == Shown(TheUser(m'.users[id])))
            && (oldLogin != body.login && oldLogin !in m.users ==>
                  ServeUser(cfg, m', FetchUser(oldLogin), later).1 == Plain(404))
  {
    hide ServeUser;
    Updated(cfg, m, id, body, now);
    var m' := ServeUser(cfg, m, PutUser(id, body), now).0;
    PutUserKeepsInv(m, m'.users[id]);
    FetchFinds(cfg, m', id, later);
    FetchFinds(cfg, m', body.login, later);
    var oldLogin := m.users[id].login;
    if oldLogin != body.login && oldLogin !in m.users {
      forall k | k in m'.users ensures m'.users[k].login != oldLogin {
        if k != id { assert m.users[k].login != m.users[id].login; }
      }
      FetchFinds(cfg, m', oldLogin, later);
      NotFoundIsPlain(cfg, m', oldLogin, later);
    }
  }

  lemma Updated(cfg: Config, m: Rows, id: string, body: UserBody, now: nat)
    requires Inv(m) && id in m.users && body.UserProfile?
    requires ServeUser(cfg, m, PutUser(id, body), now).1.status == 200
    ensures var u := m.users[id].(login := body.login, email := body.email, profile := body.raw, updatedAt := now);
            && ServeUser(cfg, m, PutUser(id, body), now).0 == m.(users := m.users[id := u])
            && Storable(u) && !LoginTaken(m, u.login, id)
  {
  }

  lemma NotFoundIsPlain(cfg: Config, m: Rows, key: string, now: nat)
    requires ServeUser(cfg, m, FetchUser(key), now).1.status == 404
    ensures ServeUser(cfg, m, FetchUser(key), now).1 == Plain(404)
  {
  }
}
