/**
  Creation: that nothing else adds an ID, and when an ID becomes some user's login: in strict mode never.
*/
module Creation {
  import opened Schemas
  import opened Model
  import opened Ids
  import opened Filters
  import opened Requests
  import opened Audited
  import opened Traces

  /** No request but a creation adds a user, and then under the ID of the login it is given. */
  lemma OnlyCreationAddsAnId(cfg: Config, sys: System, hit: Hit, id: string)
    requires RowsKeyed(sys.rows) && id !in sys.rows.users && id in ServeHit(cfg, sys, hit).0.rows.users
    ensures Posts(hit) && hit.req.users.body.UserProfile?
            && id == NewID(cfg.sha, KIND_USER, hit.req.users.body.login)
  {
    hide ServeUser, ServeHit, NewID;
    HitUsers(cfg, sys, hit);
    if hit.authorized && hit.req.ForUsers? { ComesAndGoes(cfg, sys.rows, hit.req.users, hit.now, id); }
  }

  // Strict mode: an ID is never also a login.

  ghost predicate StrictRows(m: Rows) {
    forall id | id in m.users :: '@' !in id && LooksValid(m.users[id].login)
  }

  lemma StrictStepUser(cfg: Config, m: Rows, req: UserRequest, now: nat)
    requires cfg.strict && StrictRows(m) && RowsKeyed(m)
    ensures StrictRows(ServeUser(cfg, m, req, now).0)
  {
    hide LooksValid, LoginTaken, InOrder, Selected;
  }

  lemma StrictStep(cfg: Config, sys: System, hit: Hit)
    requires cfg.strict && StrictRows(sys.rows) && RowsKeyed(sys.rows)
    ensures StrictRows(ServeHit(cfg, sys, hit).0.rows)
  {
    hide ServeUser, ServeHit, LooksValid;
    HitUsers(cfg, sys, hit);
    if hit.authorized && hit.req.ForUsers? { StrictStepUser(cfg, sys.rows, hit.req.users, hit.now); }
  }

  lemma {:induction false} StrictRun(cfg: Config, hits: seq<Hit>)
    requires cfg.strict
    ensures StrictRows(After(cfg, FRESH, hits).rows)
    decreases |hits|
  {
    hide ServeHit, StrictRows, RowsKeyed;
    if hits == [] {
      EmptyIsStrict();
    } else {
      FreshKeepsInv(cfg, hits[..|hits| - 1]);
      StrictRun(cfg, hits[..|hits| - 1]);
      StrictStep(cfg, After(cfg, FRESH, hits[..|hits| - 1]), hits[|hits| - 1]);
    }
  }

  lemma EmptyIsStrict()
    ensures StrictRows(FRESH.rows)
  {
  }

  /**
    After any run in strict mode a key that is some user's ID is no user's login: the lookup
    names one user at most.
  */
  lemma KeyNamesOneUser(cfg: Config, hits: seq<Hit>, key: string)
    requires cfg.strict
    ensures var m := After(cfg, FRESH, hits).rows;
            key in m.users ==> ByLogin(m, key).None?
  {
    hide After;
    StrictRun(cfg, hits);
    FreshKeepsInv(cfg, hits);
    var m := After(cfg, FRESH, hits).rows;
    LooksValidIff(key);
    forall id | id in m.users && m.users[id].login == key ensures '@' in key {
      assert LooksValid(key);
      var i :| 0 < i < |key| - 1 && key[i] == '@';
    }
  }

  function Posting(login: string, email: string): Hit {
    Hit(ForUsers(PostUser(UserProfile("", login, email), true)), true, "POST", "/api/v1/users", 1)
  }

  /** Without strict mode it can: a user may take another's ID as login, and is then not found by it. */
  lemma PermissiveKeyNamesTwo(cfg: Config, login: string)
    requires !cfg.strict && login != ""
    requires var id := NewID(cfg.sha, KIND_USER, login); login != id && NewID(cfg.sha, KIND_USER, id) != id
    ensures var key := NewID(cfg.sha, KIND_USER, login);
            var m := After(cfg, FRESH, [Posting(login, "a"), Posting(key, "b")]).rows;
            && key in m.users && m.users[key].login == login
            && ByLogin(m, key).Some? && ByLogin(m, key).value.id != key
  {
    hide NewID, ByLogin;
    var key := NewID(cfg.sha, KIND_USER, login);
    var first, second := Posting(login, "a"), Posting(key, "b");
    assert key != "" by { IdNotEmpty(cfg.sha, login); }
    var s1 := ServeHit(cfg, FRESH, first).0;
    assert [first, second][..1] == [first] && [first][..0] == [];
    assert After(cfg, FRESH, [first]) == ServeHit(cfg, After(cfg, FRESH, []), first).0;
    assert s1.rows.users == map[key := NewUser(cfg, UserProfile("", login, "a"), true, 1)];
    var s2 := ServeHit(cfg, s1, second).0;
    var other := NewID(cfg.sha, KIND_USER, key);
    assert other in s2.rows.users && s2.rows.users[other].login == key;
    FreshKeepsInv(cfg, [first, second]);
    ByLoginIsTheRow(s2.rows, other);
  }

  /** Some key is one user's ID and another user's login. */
  ghost predicate Clash(m: Rows) {
    exists a, b :: Clashes(m, a, b)
  }

  predicate Clashes(m: Rows, a: string, b: string) {
    a in m.users && b in m.users && a != b && m.users[b].login == a
  }

  /** Without a clash the lookup never finds by ID a user other than the one found by login, and with one it does. */
  lemma ClashIsTheLookup(m: Rows)
    requires Inv(m)
    ensures Clash(m) <==> exists key :: key in m.users && ByLogin(m, key).Some? && ByLogin(m, key).value.id != key
  {
    if a, b :| Clashes(m, a, b) {
      ByLoginIsTheRow(m, b);
    }
    if key :| key in m.users && ByLogin(m, key).Some? && ByLogin(m, key).value.id != key {
      var b :| b in m.users && m.users[b].login == key && ByLogin(m, key).value == m.users[b];
      assert Clashes(m, key, b);
    }
  }

  /** An accepted update brings the first clash exactly when the new login is the ID of another stored user. */
  lemma UpdateClashesIff(cfg: Config, m: Rows, id: string, body: UserBody, now: nat)
    requires Inv(m) && !Clash(m) && body.UserProfile?
    requires ServeUser(cfg, m, PutUser(id, body), now).1.status == 200
    ensures Clash(ServeUser(cfg, m, PutUser(id, body), now).0) <==> body.login in m.users && body.login != id
  {
    hide LooksValid, LoginTaken;
    var m' := ServeUser(cfg, m, PutUser(id, body), now).0;
    if body.login in m.users && body.login != id { assert Clashes(m', body.login, id); }
    if a, b :| Clashes(m', a, b) { assert b != id ==> Clashes(m, a, b); }
  }

  /** An accepted creation brings the first clash exactly when its login is a stored ID or its ID is a stored login. */
  lemma CreationClashesIff(cfg: Config, m: Rows, body: UserBody, activate: bool, now: nat)
    requires Inv(m) && !Clash(m) && body.UserProfile?
    requires ServeUser(cfg, m, PostUser(body, activate), now).1.status == 200
    ensures Clash(ServeUser(cfg, m, PostUser(body, activate), now).0)
       <==> body.login in m.users
            || exists b :: b in m.users && m.users[b].login == NewID(cfg.sha, KIND_USER, body.login)
  {
    hide LooksValid, LoginTaken, NewID;
    var m' := ServeUser(cfg, m, PostUser(body, activate), now).0;
    var id := NewID(cfg.sha, KIND_USER, body.login);
    if body.login in m.users { assert Clashes(m', body.login, id); }
    if b :| b in m.users && m.users[b].login == id { assert Clashes(m', id, b); }
    if a, b :| Clashes(m', a, b) { assert a != id && b != id ==> Clashes(m, a, b); }
  }

  /** No other request brings one. */
  lemma OthersBringNoClash(cfg: Config, m: Rows, req: UserRequest, now: nat)
    requires Inv(m) && !req.PostUser? && !req.PutUser?
    ensures Clash(ServeUser(cfg, m, req, now).0) ==> Clash(m)
  {
    hide LooksValid, LoginTaken, NewID, InOrder, Selected, ParseUserFilter, LimitOf;
    var m' := ServeUser(cfg, m, req, now).0;
    if a, b :| Clashes(m', a, b) { assert Clashes(m, a, b); }
  }

  lemma IdNotEmpty(sha: Hash, login: string)
    ensures NewID(sha, KIND_USER, login) != ""
  {
  }

  /** Adding a membership again keeps the pairs; it leaves the row as it was only if the time is the same. */
  lemma AddingAgain(m: Rows, r: Membership)
    requires Inv(m) && (r.groupId, r.userId) in m.members
    ensures var (m', reply) := Apply(OnMembers(AddMembership(r)), m);
            && reply == Done && m'.members.Keys == m.members.Keys
            && (m' == m <==> r.createdAt == m.members[(r.groupId, r.userId)].createdAt)
  {
    var k := (r.groupId, r.userId);
    var m' := Apply(OnMembers(AddMembership(r)), m).0;
    if m'.members == m.members { assert m'.members[k] == r; }
    if r.createdAt == m.members[k].createdAt { assert m.members[k] == r; }
  }

  // Requests that the documentation would have go otherwise.

  /** A permissive creation without a login, in an empty store, is answered 500. */
  lemma EmptyLoginIsAnError(sha: Hash, lower: string -> string, now: nat)
    ensures ServeUser(Config(false, sha, lower), NOTHING, PostUser(UserProfile("{}", "", "a@b"), true), now)
         == (NOTHING, Plain(500))
  {
    hide NewID;
  }

  /** Adding a membership a second time, one moment later, replaces its row. */
  lemma AddedAgainLater(gid: string, uid: string, m: Rows, now: nat)
    requires gid in m.groups && uid in m.users
    ensures var m1 := ApplyMember(AddMembership(Membership(gid, uid, now)), m).0;
            var m2 := ApplyMember(AddMembership(Membership(gid, uid, now + 1)), m1).0;
            m1.members[(gid, uid)].createdAt == now && m2.members[(gid, uid)].createdAt == now + 1 && m1 != m2
  {
    var m1 := ApplyMember(AddMembership(Membership(gid, uid, now)), m).0;
    var m2 := ApplyMember(AddMembership(Membership(gid, uid, now + 1)), m1).0;
    assert m1.members[(gid, uid)] != m2.members[(gid, uid)];
  }
}
