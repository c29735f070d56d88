/**
  What each request does to the stored rows and what it answers, when requests run one at
  a time. Decoding is outside the model: a request carries the outcome of decoding its
  body. Responses are a status, the rows in the payload, and the gap ID header.
*/
module Requests {
  import opened Wrappers
  import opened Schemas
  import opened Model
  import opened Ids
  import opened Filters
  import opened Gaps

  /** The mode, the digest function, and the lower-casing of strings. */
  datatype Config = Config(strict: bool, sha: Hash, lower: string -> string)

  const STAGED := "STAGED"
  const PROVISIONED := "PROVISIONED"
  const ACTIVE := "ACTIVE"
  const DEPROVISIONED := "DEPROVISIONED"
  const INACTIVE := "INACTIVE"

  const OKTA_GROUP := "OKTA_GROUP"
  const APP_GROUP := "APP_GROUP"
  const BUILT_IN := "BUILT_IN"

  const SAML := "SAML_2_0"

  const GAP_USER_FILTER := "MOCKTA_GAP_0001"
  const GAP_GROUP_FILTER := "MOCKTA_GAP_0002"
  const GAP_APP_FILTER := "MOCKTA_GAP_0003"
  const GAP_APP_GROUP := "MOCKTA_GAP_0004"
  const GAP_BUILT_IN := "MOCKTA_GAP_0005"
  const GAP_NON_SAML := "MOCKTA_GAP_0006"

  datatype UserBody = MalformedUser | NoProfile | UserProfile(raw: string, login: string, email: string)

  datatype GroupBody = MalformedGroup | GroupFields(kind: string, raw: string, name: string, description: string)

  datatype AppBody = MalformedApp | AppFields(name: string, labelText: string, signOnMode: string, settings: string)

  datatype UserRequest =
    | PostUser(body: UserBody, activate: bool) | FetchUser(key: string) | PutUser(id: string, body: UserBody)
    | ActivateUser(id: string) | DeactivateUser(id: string) | DropUser(id: string)
    | BrowseUsers(filter: string, limit: string)

  datatype GroupRequest =
    | PostGroup(body: GroupBody) | FetchGroup(id: string) | PutGroup(id: string, body: GroupBody)
    | DropGroup(id: string) | BrowseGroups(filter: string, q: string, limit: string)
    | PutMember(gid: string, uid: string) | DropMember(gid: string, uid: string) | BrowseMembers(gid: string)

  datatype AppRequest =
    | PostApp(body: AppBody) | FetchApp(id: string) | PutApp(id: string, body: AppBody)
    | ActivateApp(id: string) | DeactivateApp(id: string) | DropApp(id: string)
    | BrowseApps(filter: string, limit: string)

  datatype Request =
    | ForUsers(users: UserRequest) | ForGroups(groups: GroupRequest) | ForApps(apps: AppRequest)
    | ResetAll
    | Unrouted(verb: string, path: string)

  datatype Body =
    | Nothing | TheUser(user: User) | TheGroup(group: Group) | TheApp(app: App)
    | Users(users: seq<User>) | Groups(groups: seq<Group>) | Apps(apps: seq<App>)

  datatype Response = Response(status: nat, body: Body, gap: string)

  function Plain(status: nat): Response { Response(status, Nothing, "") }

  function Gapped(status: nat, gap: string): Response { Response(status, Nothing, gap) }

  function Shown(body: Body): Response { Response(200, body, "") }

  /** What a handler answers to an error of the store. */
  function StoreError(r: Reply): Response {
    match r
    case NotFound => Plain(404)
    case Conflict => Plain(409)
    case _ => Plain(500)
  }

  // Login validation in strict mode.

  predicate LooksValid(s: string) {
    var at := Find(s, '@');
    0 < at < |s| - 1 && '@' !in s[at + 1..]
  }

  /** The check accepts exactly the logins with one '@', and something on each side of it. */
  lemma LooksValidIff(s: string)
    ensures LooksValid(s) <==>
              exists i | 0 < i < |s| - 1 :: s[i] == '@' && forall j | 0 <= j < |s| && j != i :: s[j] != '@'
  {
    var at := Find(s, '@');
    assert forall j | 0 <= j < at :: s[..at][j] == s[j];
    if LooksValid(s) {
      assert forall j | at < j < |s| :: s[j] == s[at + 1..][j - at - 1];
    }
    if i :| 0 < i < |s| - 1 && s[i] == '@' && forall j | 0 <= j < |s| && j != i :: s[j] != '@' {
      assert at == i;
      var tail := s[at + 1..];
      forall c | c in tail ensures c != '@' {
        var j :| 0 <= j < |tail| && tail[j] == c;
        assert s[at + 1 + j] == c;
      }
    }
  }

  /** The profile to store, or nothing when the request is refused with a 400. */
  function Validated(strict: bool, body: UserBody): Option<UserBody> {
    match body
    case MalformedUser => None
    case NoProfile => if strict then None else Some(UserProfile("", "", ""))
    case UserProfile(_, login, email) =>
      if !strict then Some(body)
      else if login == "" || email == "" || !LooksValid(login) then None
      else Some(body)
  }

  // Lists.

  function Selected<R>(rows: seq<R>, keep: R -> bool): seq<R> {
    if rows == [] then []
    else Selected(rows[..|rows| - 1], keep) + (if keep(rows[|rows| - 1]) then [rows[|rows| - 1]] else [])
  }

  function UserTest(f: Option<Filter>): User -> bool {
    (u: User) => f.None? || UserMatches(f.value, u)
  }

  function AppTest(f: Option<Filter>): App -> bool {
    (a: App) => f.None? || AppMatches(f.value, a)
  }

  function GroupTest(lower: string -> string, q: string): Group -> bool {
    (g: Group) => lower(q) == "" || lower(q) <= lower(g.name)
  }

  // Users.

  function NewUser(cfg: Config, p: UserBody, activate: bool, now: nat): User
    requires p.UserProfile?
  {
    User(NewID(cfg.sha, KIND_USER, p.login), p.login, p.email, if activate then PROVISIONED else STAGED,
         p.raw, now, now)
  }

  function Flipped(m: Rows, id: string, status: string, now: nat): Rows
    requires id in m.users
  {
    m.(users := m.users[id := m.users[id].(status := status, updatedAt := now)])
  }

  function Stored(m: Rows, u: User): (Rows, Response) {
    if LoginTaken(m, u.login, u.id) then (m, Plain(409))
    else if !Storable(u) then (m, Plain(500))
    else (m.(users := m.users[u.id := u]), Shown(TheUser(u)))
  }

  ghost function ServeUser(cfg: Config, m: Rows, req: UserRequest, now: nat): (Rows, Response) {
    match req
    case PostUser(body, activate) =>
      (match Validated(cfg.strict, body)
       case None => (m, Plain(400))
       case Some(p) =>
         var u := NewUser(cfg, p, activate, now);
         if u.id in m.users then (m, Plain(409)) else Stored(m, u))
    case FetchUser(key) =>
      if key in m.users then (m, Shown(TheUser(m.users[key])))
      else if ByLogin(m, key).Some? then (m, Shown(TheUser(ByLogin(m, key).value)))
      else (m, Plain(404))
    case PutUser(id, body) =>
      if id !in m.users then (m, Plain(404))
      else
        (match Validated(cfg.strict, body)
         case None => (m, Plain(400))
         case Some(p) =>
           Stored(m, m.users[id].(login := p.login, email := p.email, profile := p.raw, updatedAt := now)))
    case ActivateUser(id) =>
      if id in m.users then (Flipped(m, id, ACTIVE, now), Plain(200)) else (m, Plain(404))
    case DeactivateUser(id) =>
      if id in m.users then (Flipped(m, id, DEPROVISIONED, now), Plain(200)) else (m, Plain(404))
    case DropUser(id) =>
      if id !in m.users then (m, Plain(404))
      else if m.users[id].status != DEPROVISIONED then (Flipped(m, id, DEPROVISIONED, now), Plain(204))
      else (WithoutUser(m, id), Plain(204))
    case BrowseUsers(filter, limit) =>
      if filter != "" && ParseUserFilter(filter).None? then (m, Gapped(400, GAP_USER_FILTER))
      else
        var f := if filter == "" then None else ParseUserFilter(filter);
        (m, Shown(Users(Limited(Selected(InOrder(m.users), UserTest(f)), LimitOf(limit)))))
  }

  // Groups and memberships.

  function StoredGroup(m: Rows, g: Group): (Rows, Response) {
    if NameTaken(m, g.name, g.id) then (m, Plain(409))
    else if !StorableGroup(g) then (m, Plain(500))
    else (m.(groups := m.groups[g.id := g]), Shown(TheGroup(g)))
  }

  /** The users who are members of a group, in order of ID. */
  function MemberUsers(m: Rows, gid: string): seq<User> {
    UsersFound(MembersOf(m, gid), seq(|MembersOf(m, gid)|, _ => m))
  }

  /** One lookup per membership, each in the rows of its own moment; a missing user is skipped. */
  function UsersFound(rows: seq<Membership>, moments: seq<Rows>): (out: seq<User>)
    requires |rows| == |moments|
    ensures |out| <= |rows|
  {
    if rows == [] then []
    else
      var before := UsersFound(rows[..|rows| - 1], moments[..|rows| - 1]);
      var uid, m := rows[|rows| - 1].userId, moments[|rows| - 1];
      if uid in m.users then before + [m.users[uid]] else before
  }

  /** The users among the answers; the others are skipped. */
  function UsersAnswered(replies: seq<Reply>): seq<User> {
    if replies == [] then []
    else
      var last := replies[|replies| - 1];
      UsersAnswered(replies[..|replies| - 1]) + if last.OneUser? then [last.user] else []
  }

  function ServeGroup(cfg: Config, m: Rows, req: GroupRequest, now: nat): (Rows, Response) {
    match req
    case PostGroup(body) =>
      if body.MalformedGroup? then (m, Plain(400))
      else if body.kind == APP_GROUP then (m, Gapped(501, GAP_APP_GROUP))
      else if body.kind == BUILT_IN then (m, Gapped(501, GAP_BUILT_IN))
      else if body.kind != "" && body.kind != OKTA_GROUP then (m, Plain(400))
      else if body.name == "" then (m, Plain(400))
      else
        var g := Group(NewID(cfg.sha, KIND_GROUP, body.name), body.name, OKTA_GROUP, body.description, body.raw, now);
        if g.id in m.groups then (m, Plain(409)) else StoredGroup(m, g)
    case FetchGroup(id) => (m, if id in m.groups then Shown(TheGroup(m.groups[id])) else Plain(404))
    case PutGroup(id, body) =>
      if id !in m.groups then (m, Plain(404))
      else if body.MalformedGroup? then (m, Plain(400))
      else if body.kind != "" && body.kind != m.groups[id].kind then (m, Plain(400))
      else
        var name := if body.name == "" then m.groups[id].name else body.name;
        StoredGroup(m, m.groups[id].(name := name, description := body.description, profile := body.raw))
    case DropGroup(id) => if id in m.groups then (WithoutGroup(m, id), Plain(204)) else (m, Plain(404))
    case BrowseGroups(filter, q, limit) =>
      if filter != "" then (m, Gapped(400, GAP_GROUP_FILTER))
      else (m, Shown(Groups(Limited(Selected(InOrder(m.groups), GroupTest(cfg.lower, q)), LimitOf(limit)))))
    case PutMember(gid, uid) =>
      if gid in m.groups && uid in m.users
      then (m.(members := m.members[(gid, uid) := Membership(gid, uid, now)]), Plain(204))
      else (m, Plain(404))
    case DropMember(gid, uid) =>
      if (gid, uid) in m.members then (m.(members := m.members - {(gid, uid)}), Plain(204)) else (m, Plain(404))
    case BrowseMembers(gid) =>
      if gid in m.groups then (m, Shown(Users(MemberUsers(m, gid)))) else (m, Plain(404))
  }

  // Apps.

  function FirstNonEmpty(a: string, b: string): string { if a != "" then a else b }

  function ServeApp(cfg: Config, m: Rows, req: AppRequest, now: nat): (Rows, Response) {
    match req
    case PostApp(body) =>
      if body.MalformedApp? then (m, Plain(400))
      else if body.signOnMode != SAML then (m, Gapped(501, GAP_NON_SAML))
      else if body.labelText == "" then (m, Plain(400))
      else
        var a := App(NewID(cfg.sha, KIND_APP, body.labelText), FirstNonEmpty(body.name, body.labelText),
                     body.labelText, ACTIVE, body.signOnMode, body.settings, now);
        if a.id in m.apps then (m, Plain(409)) else (m.(apps := m.apps[a.id := a]), Shown(TheApp(a)))
    case FetchApp(id) => (m, if id in m.apps then Shown(TheApp(m.apps[id])) else Plain(404))
    case PutApp(id, body) =>
      if id !in m.apps then (m, Plain(404))
      else if body.MalformedApp? then (m, Plain(400))
      else if body.signOnMode != "" && body.signOnMode != m.apps[id].signOnMode then (m, Plain(400))
      else
        var stored := m.apps[id];
        var a := stored.(name := FirstNonEmpty(body.name, stored.name),
                       labelText := FirstNonEmpty(body.labelText, stored.labelText), settings := body.settings);
        (m.(apps := m.apps[id := a]), Shown(TheApp(a)))
    case ActivateApp(id) =>
      if id in m.apps then (m.(apps := m.apps[id := m.apps[id].(status := ACTIVE)]), Plain(200)) else (m, Plain(404))
    case DeactivateApp(id) =>
      if id in m.apps then (m.(apps := m.apps[id := m.apps[id].(status := INACTIVE)]), Plain(200)) else (m, Plain(404))
    case DropApp(id) =>
      if id !in m.apps then (m, Plain(404))
      else if m.apps[id].status != INACTIVE then (m, Plain(400))
      else (m.(apps := m.apps - {id}), Plain(204))
    case BrowseApps(filter, limit) =>
      if filter != "" && ParseAppFilter(filter).None? then (m, Gapped(400, GAP_APP_FILTER))
      else
        var f := if filter == "" then None else ParseAppFilter(filter);
        (m, Shown(Apps(Limited(Selected(InOrder(m.apps), AppTest(f)), LimitOf(limit)))))
  }

  ghost function Serve(cfg: Config, m: Rows, req: Request, now: nat): (Rows, Response) {
    match req
    case ForUsers(r) => ServeUser(cfg, m, r, now)
    case ForGroups(r) => ServeGroup(cfg, m, r, now)
    case ForApps(r) => ServeApp(cfg, m, r, now)
    case ResetAll => (NOTHING, Plain(204))
    case Unrouted(verb, path) => (m, Gapped(501, Lookup(REGISTRY, verb, path).0))
  }
}
