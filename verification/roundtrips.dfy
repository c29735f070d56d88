/**
  What each request answers, what it stores field by field, and what later requests show of
  it. Statuses, texts and conditions are spelled out here, without the functions that
  Requests.Serve is made of.
*/
module RoundTrips {
  import opened Wrappers
  import opened Ordering
  import opened Schemas
  import opened Model
  import opened Ids
  import opened Requests
  import opened Listings

  /** The request changes nothing and is answered with this status and nothing else. */
  predicate Only(answer: (Rows, Response), m: Rows, status: nat) { answer == (m, Response(status, Nothing, "")) }

  // Users.

  /** One '@', and something on both sides of it. */
  predicate TwoSided(s: string) {
    exists i | 0 < i < |s| - 1 :: s[i] == '@' && forall j | 0 <= j < |s| && j != i :: s[j] != '@'
  }

  /** What the mode asks of a body. */
  predicate Acceptable(strict: bool, body: UserBody) {
    !body.MalformedUser? && (strict ==> body.UserProfile? && body.email != "" && TwoSided(body.login))
  }

  function ProfileOf(body: UserBody): UserBody { if body.UserProfile? then body else UserProfile("", "", "") }

  lemma ValidatedIff(strict: bool, body: UserBody)
    ensures Validated(strict, body) == if Acceptable(strict, body) then Some(ProfileOf(body)) else None
  {
    if body.UserProfile? { LooksValidIff(body.login); }
  }

  predicate LoginHeld(m: Rows, login: string) { exists k :: k in m.users && m.users[k].login == login }

  predicate LoginHeldByOther(m: Rows, login: string, id: string) {
    exists k :: k in m.users && k != id && m.users[k].login == login
  }

  /**
    A GET by ID or by login: the user stored under that ID, or else the one with that login.
  */
  lemma UserFetched(cfg: Config, m: Rows, key: string, now: nat)
    requires Inv(m)
    ensures var answer := ServeUser(cfg, m, FetchUser(key), now);
            && (key in m.users ==> answer == (m, Response(200, TheUser(m.users[key]), "")))
            && (key !in m.users && !LoginHeld(m, key) ==> Only(answer, m, 404))
            && forall k | key !in m.users && k in m.users && m.users[k].login == key ::
                 answer == (m, Response(200, TheUser(m.users[k]), ""))
  {
    forall k | key !in m.users && k in m.users && m.users[k].login == key
      ensures ServeUser(cfg, m, FetchUser(key), now) == (m, Response(200, TheUser(m.users[k]), ""))
    {
      ByLoginIsTheRow(m, k);
    }
  }

  /** The row is in place of what was under its ID, nothing else has changed, and GETs by ID and by login show it. */
  ghost predicate UserStored(cfg: Config, m: Rows, answer: (Rows, Response), u: User, later: nat) {
    && answer == (m.(users := m.users[u.id := u]), Response(200, TheUser(u), ""))
    && ServeUser(cfg, answer.0, FetchUser(u.id), later) == (answer.0, Response(200, TheUser(u), ""))
    && (u.login !in answer.0.users ==>
          ServeUser(cfg, answer.0, FetchUser(u.login), later) == (answer.0, Response(200, TheUser(u), "")))
  }

  lemma StoredIsShown(cfg: Config, m: Rows, u: User, later: nat)
    requires Inv(m) && u.id != "" && u.login != "" && u.email != "" && !LoginHeldByOther(m, u.login, u.id)
    ensures UserStored(cfg, m, (m.(users := m.users[u.id := u]), Response(200, TheUser(u), "")), u, later)
  {
    hide Inv;
    var m' := m.(users := m.users[u.id := u]);
    PutUserKeepsInv(m, u);
    UserFetched(cfg, m', u.id, later);
    UserFetched(cfg, m', u.login, later);
    assert m'.users[u.id].login == u.login;
  }

  /** A POST is refused with 400, 409 or 500, or stores the user it describes, which GETs then show. */
  lemma UserPosted(cfg: Config, m: Rows, body: UserBody, activate: bool, now: nat, later: nat)
    requires Inv(m)
    ensures var answer := ServeUser(cfg, m, PostUser(body, activate), now);
            var p := ProfileOf(body);
            var id := NewID(cfg.sha, "user", p.login);
            if !Acceptable(cfg.strict, body) then Only(answer, m, 400)
            else if id in m.users || LoginHeld(m, p.login) then Only(answer, m, 409)
            else if p.login == "" || p.email == "" then Only(answer, m, 500)
            else UserStored(cfg, m, answer,
                            User(id, p.login, p.email, if activate then "PROVISIONED" else "STAGED", p.raw, now, now),
                            later)
  {
    hide NewID, Inv, UserStored, TwoSided, Validated, ByLogin;
    ValidatedIff(cfg.strict, body);
    if Acceptable(cfg.strict, body) {
      var u := NewUser(cfg, ProfileOf(body), activate, now);
      if u.id !in m.users && !LoginHeld(m, u.login) && u.login != "" && u.email != "" {
        StoredIsShown(cfg, m, u, later);
      }
    }
  }

  /** A PUT replaces login, e-mail, profile and update time, and keeps ID, status and creation time. */
  lemma UserPut(cfg: Config, m: Rows, id: string, body: UserBody, now: nat, later: nat)
    requires Inv(m)
    ensures var answer := ServeUser(cfg, m, PutUser(id, body), now);
            var p := ProfileOf(body);
            if id !in m.users then Only(answer, m, 404)
            else if !Acceptable(cfg.strict, body) then Only(answer, m, 400)
            else if LoginHeldByOther(m, p.login, id) then Only(answer, m, 409)
            else if p.login == "" || p.email == "" then Only(answer, m, 500)
            else UserStored(cfg, m, answer,
                            User(id, p.login, p.email, m.users[id].status, p.raw, m.users[id].createdAt, now), later)
  {
    hide NewID, UserStored, TwoSided, Validated, ByLogin, NoDanglingMembers, LoginsDiffer, NamesDiffer;
    ValidatedIff(cfg.strict, body);
    if id in m.users && Acceptable(cfg.strict, body) {
      var p := ProfileOf(body);
      var u := User(id, p.login, p.email, m.users[id].status, p.raw, m.users[id].createdAt, now);
      assert m.users[id].(login := p.login, email := p.email, profile := p.raw, updatedAt := now) == u;
      if !LoginHeldByOther(m, p.login, id) && u.login != "" && u.email != "" { StoredIsShown(cfg, m, u, later); }
    }
  }

  /** The status and the update time change, and nothing else does. */
  ghost predicate UserFlips(m: Rows, answer: (Rows, Response), id: string, status: string, now: nat, code: nat)
    requires id in m.users
  {
    var u := m.users[id];
    Only(answer, m.(users := m.users[id := User(id, u.login, u.email, status, u.profile, u.createdAt, now)]), code)
  }

  lemma UserActivated(cfg: Config, m: Rows, id: string, now: nat)
    requires Inv(m)
    ensures var on := ServeUser(cfg, m, ActivateUser(id), now);
            var off := ServeUser(cfg, m, DeactivateUser(id), now);
            if id in m.users
            then UserFlips(m, on, id, "ACTIVE", now, 200) && UserFlips(m, off, id, "DEPROVISIONED", now, 200)
            else Only(on, m, 404) && Only(off, m, 404)
  {
  }

  /** A DELETE deprovisions, and once deprovisioned removes the user with all its memberships. */
  lemma UserDropped(cfg: Config, m: Rows, id: string, now: nat, later: nat)
    requires Inv(m)
    ensures var answer := ServeUser(cfg, m, DropUser(id), now);
            var m' := answer.0;
            if id !in m.users then Only(answer, m, 404)
            else if m.users[id].status != "DEPROVISIONED" then UserFlips(m, answer, id, "DEPROVISIONED", now, 204)
            else && answer.1 == Response(204, Nothing, "")
                 && m'.users == m.users - {id} && m'.groups == m.groups && m'.apps == m.apps && m'.audit == m.audit
                 && (forall k :: k in m'.members <==> k in m.members && k.1 != id)
                 && (forall k | k in m'.members :: m'.members[k] == m.members[k])
                 && (!LoginHeld(m, id) ==> Only(ServeUser(cfg, m', FetchUser(id), later), m', 404))
  {
    if id in m.users && m.users[id].status == "DEPROVISIONED" {
      WithoutUserKeepsInv(m, id);
      UserFetched(cfg, WithoutUser(m, id), id, later);
    }
  }

  // Groups and memberships.

  predicate NameHeldByOther(m: Rows, name: string, id: string) {
    exists k :: k in m.groups && k != id && m.groups[k].name == name
  }

  lemma GroupFetched(cfg: Config, m: Rows, id: string, now: nat)
    ensures var answer := ServeGroup(cfg, m, FetchGroup(id), now);
            if id in m.groups then answer == (m, Response(200, TheGroup(m.groups[id]), "")) else Only(answer, m, 404)
  {
  }

  ghost predicate GroupStored(cfg: Config, m: Rows, answer: (Rows, Response), g: Group, later: nat) {
    && answer == (m.(groups := m.groups[g.id := g]), Response(200, TheGroup(g), ""))
    && ServeGroup(cfg, answer.0, FetchGroup(g.id), later) == (answer.0, Response(200, TheGroup(g), ""))
  }

  lemma GroupPosted(cfg: Config, m: Rows, body: GroupBody, now: nat, later: nat)
    ensures var answer := ServeGroup(cfg, m, PostGroup(body), now);
            if body.MalformedGroup? then Only(answer, m, 400)
            else if body.kind == "APP_GROUP" then answer == (m, Response(501, Nothing, "MOCKTA_GAP_0004"))
            else if body.kind == "BUILT_IN" then answer == (m, Response(501, Nothing, "MOCKTA_GAP_0005"))
            else if body.kind !in {"", "OKTA_GROUP"} || body.name == "" then Only(answer, m, 400)
            else
              var id := NewID(cfg.sha, "group", body.name);
              if id in m.groups || NameHeldByOther(m, body.name, id) then Only(answer, m, 409)
              else GroupStored(cfg, m, answer,
                               Group(id, body.name, "OKTA_GROUP", body.description, body.raw, now), later)
  {
    hide NewID;
  }

  /** A PUT keeps ID, type and creation time, and the name when it gives none. */
  lemma GroupPut(cfg: Config, m: Rows, id: string, body: GroupBody, now: nat, later: nat)
    requires Inv(m)
    ensures var answer := ServeGroup(cfg, m, PutGroup(id, body), now);
            if id !in m.groups then Only(answer, m, 404)
            else if body.MalformedGroup? || body.kind !in {"", m.groups[id].kind} then Only(answer, m, 400)
            else
              var was := m.groups[id];
              var name := if body.name == "" then was.name else body.name;
              if NameHeldByOther(m, name, id) then Only(answer, m, 409)
              else GroupStored(cfg, m, answer,
                               Group(id, name, was.kind, body.description, body.raw, was.createdAt), later)
  {
    hide NoDanglingMembers, LoginsDiffer, NamesDiffer;
  }

  /** A DELETE removes the group with all its memberships. */
  lemma GroupDropped(cfg: Config, m: Rows, id: string, now: nat, later: nat)
    ensures var answer := ServeGroup(cfg, m, DropGroup(id), now);
            var m' := answer.0;
            if id !in m.groups then Only(answer, m, 404)
            else && answer.1 == Response(204, Nothing, "")
                 && m'.groups == m.groups - {id} && m'.users == m.users && m'.apps == m.apps && m'.audit == m.audit
                 && (forall k :: k in m'.members <==> k in m.members && k.0 != id)
                 && (forall k | k in m'.members :: m'.members[k] == m.members[k])
                 && Only(ServeGroup(cfg, m', FetchGroup(id), later), m', 404)
  {
  }

  /** The members of a group in order of ID, each once: the users joined to it. */
  lemma MembersShown(cfg: Config, m: Rows, gid: string, now: nat)
    requires Inv(m)
    ensures var answer := ServeGroup(cfg, m, BrowseMembers(gid), now);
            if gid !in m.groups then Only(answer, m, 404)
            else && answer.0 == m && answer.1.status == 200 && answer.1.gap == "" && answer.1.body.Users?
                 && Rising(answer.1.body.users, (u: User) => u.id)
                 && forall u :: u in answer.1.body.users <==> (gid, u.id) in m.members && m.users[u.id] == u
  {
    hide MembersOf, MemberUsers, Less;
    if gid in m.groups {
      var rows, users := MembersOf(m, gid), MemberUsers(m, gid);
      AloneNothingIsSkipped(m, gid);
      MembersInOrder(m, gid);
      assert forall i | 0 <= i < |rows| :: users[i].id == rows[i].userId;
      forall u ensures u in users <==> (gid, u.id) in m.members && m.users[u.id] == u {
        if (gid, u.id) in m.members && m.users[u.id] == u {
          assert m.members[(gid, u.id)] in rows;
          var i :| 0 <= i < |rows| && rows[i] == m.members[(gid, u.id)];
          assert users[i] == u;
        }
        if u in users {
          var i :| 0 <= i < |users| && users[i] == u;
          assert rows[i].userId == u.id;
        }
      }
    }
  }

  /** A PUT of a membership joins the two, with this time, also when they were joined before; a DELETE parts them. */
  lemma MemberPutAndDropped(cfg: Config, m: Rows, gid: string, uid: string, now: nat, later: nat)
    requires Inv(m)
    ensures var put := ServeGroup(cfg, m, PutMember(gid, uid), now);
            if gid !in m.groups || uid !in m.users then Only(put, m, 404)
            else && Only(put, m.(members := m.members[(gid, uid) := Membership(gid, uid, now)]), 204)
                 && Only(ServeGroup(cfg, put.0, DropMember(gid, uid), later),
                         m.(members := m.members - {(gid, uid)}), 204)
    ensures var drop := ServeGroup(cfg, m, DropMember(gid, uid), now);
            if (gid, uid) !in m.members then Only(drop, m, 404)
            else Only(drop, m.(members := m.members - {(gid, uid)}), 204)
  {
    var joined := m.members[(gid, uid) := Membership(gid, uid, now)];
    assert joined - {(gid, uid)} == m.members - {(gid, uid)};
  }

  // Apps.

  lemma AppFetched(cfg: Config, m: Rows, id: string, now: nat)
    ensures var answer := ServeApp(cfg, m, FetchApp(id), now);
            if id in m.apps then answer == (m, Response(200, TheApp(m.apps[id]), "")) else Only(answer, m, 404)
  {
  }

  ghost predicate AppStored(cfg: Config, m: Rows, answer: (Rows, Response), a: App, later: nat) {
    && answer == (m.(apps := m.apps[a.id := a]), Response(200, TheApp(a), ""))
    && ServeApp(cfg, answer.0, FetchApp(a.id), later) == (answer.0, Response(200, TheApp(a), ""))
  }

  /** An app is stored ACTIVE, under its label when it has no name. */
  lemma AppPosted(cfg: Config, m: Rows, body: AppBody, now: nat, later: nat)
    ensures var answer := ServeApp(cfg, m, PostApp(body), now);
            if body.MalformedApp? then Only(answer, m, 400)
            else if body.signOnMode != "SAML_2_0" then answer == (m, Response(501, Nothing, "MOCKTA_GAP_0006"))
            else if body.labelText == "" then Only(answer, m, 400)
            else
              var id := NewID(cfg.sha, "app", body.labelText);
              var name := if body.name == "" then body.labelText else body.name;
              if id in m.apps then Only(answer, m, 409)
              else AppStored(cfg, m, answer,
                             App(id, name, body.labelText, "ACTIVE", "SAML_2_0", body.settings, now), later)
  {
    hide NewID;
  }

  /** A PUT keeps ID, status, mode and creation time, and what it leaves empty of name and label. */
  lemma AppPut(cfg: Config, m: Rows, id: string, body: AppBody, now: nat, later: nat)
    requires Inv(m)
    ensures var answer := ServeApp(cfg, m, PutApp(id, body), now);
            if id !in m.apps then Only(answer, m, 404)
            else if body.MalformedApp? || body.signOnMode !in {"", m.apps[id].signOnMode} then Only(answer, m, 400)
            else
              var was := m.apps[id];
              var name := if body.name == "" then was.name else body.name;
              var labelText := if body.labelText == "" then was.labelText else body.labelText;
              AppStored(cfg, m, answer,
                        App(id, name, labelText, was.status, was.signOnMode, body.settings, was.createdAt), later)
  {
  }

  ghost predicate AppFlips(m: Rows, answer: (Rows, Response), id: string, status: string)
    requires id in m.apps
  {
    var a := m.apps[id];
    var flipped := App(id, a.name, a.labelText, status, a.signOnMode, a.settings, a.createdAt);
    Only(answer, m.(apps := m.apps[id := flipped]), 200)
  }

  lemma AppActivated(cfg: Config, m: Rows, id: string, now: nat)
    requires Inv(m)
    ensures var on := ServeApp(cfg, m, ActivateApp(id), now);
            var off := ServeApp(cfg, m, DeactivateApp(id), now);
            if id in m.apps then AppFlips(m, on, id, "ACTIVE") && AppFlips(m, off, id, "INACTIVE")
            else Only(on, m, 404) && Only(off, m, 404)
  {
  }

  /** Only an INACTIVE app is removed. */
  lemma AppDropped(cfg: Config, m: Rows, id: string, now: nat, later: nat)
    ensures var answer := ServeApp(cfg, m, DropApp(id), now);
            if id !in m.apps then Only(answer, m, 404)
            else if m.apps[id].status != "INACTIVE" then Only(answer, m, 400)
            else && Only(answer, m.(apps := m.apps - {id}), 204)
                 && Only(ServeApp(cfg, answer.0, FetchApp(id), later), answer.0, 404)
  {
  }
}
