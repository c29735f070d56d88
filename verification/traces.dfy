/**
  Properties of whole runs of requests, one at a time: what a user's and an app's status
  says about the past, when a row can appear and disappear, and what the lists show.
*/
module Traces {
  import opened Schemas
  import opened Model
  import opened Ids
  import opened Filters
  import opened Requests
  import opened Audited

  // Every request keeps the invariant.

  lemma StoredKeepsInv(m: Rows, u: User)
    requires Inv(m)
    ensures Inv(Stored(m, u).0)
  {
    if !LoginTaken(m, u.login, u.id) && Storable(u) { PutUserKeepsInv(m, u); }
  }

  lemma FlippedKeepsInv(m: Rows, id: string, status: string, now: nat)
    requires Inv(m) && id in m.users
    ensures Inv(Flipped(m, id, status, now))
  {
    PutUserKeepsInv(m, m.users[id].(status := status, updatedAt := now));
  }

  lemma StoredGroupKeepsInv(m: Rows, g: Group)
    requires Inv(m)
    ensures Inv(StoredGroup(m, g).0)
  {
    if !NameTaken(m, g.name, g.id) && StorableGroup(g) { PutGroupKeepsInv(m, g); }
  }

  lemma ServeUserKeepsInv(cfg: Config, m: Rows, req: UserRequest, now: nat)
    requires Inv(m)
    ensures Inv(ServeUser(cfg, m, req, now).0)
  {
    hide Inv, Stored, NewUser, Flipped, WithoutUser, InOrder, Selected;
    match req
    case PostUser(body, activate) =>
      var p := Validated(cfg.strict, body);
      if p.Some? { StoredKeepsInv(m, NewUser(cfg, p.value, activate, now)); }
    case PutUser(id, body) =>
      var p := Validated(cfg.strict, body);
      if p.Some? && id in m.users {
        StoredKeepsInv(m, m.users[id].(login := p.value.login, email := p.value.email,
                                       profile := p.value.raw, updatedAt := now));
      }
    case ActivateUser(id) => if id in m.users { FlippedKeepsInv(m, id, ACTIVE, now); }
    case DeactivateUser(id) => if id in m.users { FlippedKeepsInv(m, id, DEPROVISIONED, now); }
    case DropUser(id) =>
      if id in m.users {
        FlippedKeepsInv(m, id, DEPROVISIONED, now);
        WithoutUserKeepsInv(m, id);
      }
    case FetchUser(_) =>
    case BrowseUsers(_, _) =>
  }

  lemma ServeGroupKeepsInv(cfg: Config, m: Rows, req: GroupRequest, now: nat)
    requires Inv(m)
    ensures Inv(ServeGroup(cfg, m, req, now).0)
  {
    hide Inv, StoredGroup, NewID, WithoutGroup, InOrder, Selected, MemberUsers;
    match req
    case PostGroup(body) =>
      if !body.MalformedGroup? {
        StoredGroupKeepsInv(m, Group(NewID(cfg.sha, KIND_GROUP, body.name), body.name, OKTA_GROUP,
                                     body.description, body.raw, now));
      }
    case PutGroup(id, body) =>
      if !body.MalformedGroup? && id in m.groups {
        var name := if body.name == "" then m.groups[id].name else body.name;
        StoredGroupKeepsInv(m, m.groups[id].(name := name, description := body.description, profile := body.raw));
      }
    case DropGroup(id) => if id in m.groups { WithoutGroupKeepsInv(m, id); }
    case PutMember(gid, uid) => MemberOpKeepsInv(AddMembership(Membership(gid, uid, now)), m);
    case DropMember(gid, uid) => MemberOpKeepsInv(RemoveMembership(gid, uid), m);
    case FetchGroup(_) =>
    case BrowseGroups(_, _, _) =>
    case BrowseMembers(_) =>
  }

  lemma ServeAppKeepsInv(cfg: Config, m: Rows, req: AppRequest, now: nat)
    requires Inv(m)
    ensures Inv(ServeApp(cfg, m, req, now).0)
  {
    hide NewID, InOrder, Selected;
    var m' := ServeApp(cfg, m, req, now).0;
    assert m' == m.(apps := m'.apps);
  }

  lemma ServeKeepsInv(cfg: Config, m: Rows, req: Request, now: nat)
    requires Inv(m)
    ensures Inv(Serve(cfg, m, req, now).0)
  {
    hide ServeUser, ServeGroup, ServeApp;
    match req
    case ForUsers(r) => ServeUserKeepsInv(cfg, m, r, now);
    case ForGroups(r) => ServeGroupKeepsInv(cfg, m, r, now);
    case ForApps(r) => ServeAppKeepsInv(cfg, m, r, now);
    case ResetAll =>
    case Unrouted(_, _) =>
  }

  // Runs.

  ghost function After(cfg: Config, sys: System, hits: seq<Hit>): System {
    if hits == [] then sys
    else ServeHit(cfg, After(cfg, sys, hits[..|hits| - 1]), hits[|hits| - 1]).0
  }

  lemma {:induction false} RunKeepsInv(cfg: Config, sys: System, hits: seq<Hit>)
    requires Inv(sys.rows)
    ensures Inv(After(cfg, sys, hits).rows)
    decreases |hits|
  {
    hide Serve, Inv;
    if hits != [] {
      var before, hit := After(cfg, sys, hits[..|hits| - 1]), hits[|hits| - 1];
      RunKeepsInv(cfg, sys, hits[..|hits| - 1]);
      ServeKeepsInv(cfg, before.rows, hit.req, hit.now);
      var (m, resp) := Inner(cfg, before.rows, hit);
      AuditKeepsInv(m, EntryFor(hit, resp, After(cfg, sys, hits).seqNo));
    }
  }

  lemma AuditKeepsInv(m: Rows, e: AuditEntry)
    requires Inv(m)
    ensures Inv(m.(audit := m.audit[e.id := e]))
  {
  }

  // Users.

  predicate Does(hit: Hit, r: UserRequest) { hit.authorized && hit.req == ForUsers(r) }

  predicate Deprovisions(hit: Hit, id: string) { Does(hit, DeactivateUser(id)) || Does(hit, DropUser(id)) }

  predicate Posts(hit: Hit) { hit.authorized && hit.req.ForUsers? && hit.req.users.PostUser? }

  predicate Fresh(status: string) { status == STAGED || status == PROVISIONED }

  lemma StatusAfter(cfg: Config, m: Rows, req: UserRequest, now: nat, id: string)
    requires RowsKeyed(m)
    ensures var m' := ServeUser(cfg, m, req, now).0;
            id in m.users && id in m'.users ==>
              m'.users[id].status == if req == ActivateUser(id) then ACTIVE
                                     else if req == DeactivateUser(id) || req == DropUser(id) then DEPROVISIONED
                                     else m.users[id].status
  {
    hide NewID, InOrder, Selected, LoginTaken, LooksValid, ByLogin, ParseUserFilter, LimitOf, Limited, UserTest;
  }

  lemma ComesAndGoes(cfg: Config, m: Rows, req: UserRequest, now: nat, id: string)
    requires RowsKeyed(m)
    ensures var m' := ServeUser(cfg, m, req, now).0;
            && (id in m'.users && id !in m.users ==>
                  req.PostUser? && Fresh(m'.users[id].status) && req.body.UserProfile?
                  && id == NewID(cfg.sha, KIND_USER, req.body.login))
            && (id in m.users && id !in m'.users ==> req == DropUser(id) && m.users[id].status == DEPROVISIONED)
  {
    hide NewID, InOrder, Selected, LoginTaken, LooksValid, ByLogin, ParseUserFilter, LimitOf, Limited;
  }

  lemma GroupRequestKeepsUsers(cfg: Config, m: Rows, req: GroupRequest, now: nat)
    ensures ServeGroup(cfg, m, req, now).0.users == m.users
  {
    hide NewID, InOrder, Selected, NameTaken, LimitOf, Limited, MemberUsers, StorableGroup;
  }

  lemma AppRequestKeepsUsers(cfg: Config, m: Rows, req: AppRequest, now: nat)
    ensures ServeApp(cfg, m, req, now).0.users == m.users
  {
    hide NewID, InOrder, Selected;
  }

  /** Only user requests and resets touch the users. */
  lemma HitUsers(cfg: Config, sys: System, hit: Hit)
    ensures ServeHit(cfg, sys, hit).0.rows.users
         == if ResetsLog(hit) then map[]
            else if hit.authorized && hit.req.ForUsers? then ServeUser(cfg, sys.rows, hit.req.users, hit.now).0.users
            else sys.rows.users
  {
    hide ServeUser, ServeGroup, ServeApp;
    match hit.req
    case ForGroups(r) => GroupRequestKeepsUsers(cfg, sys.rows, r, hit.now);
    case ForApps(r) => AppRequestKeepsUsers(cfg, sys.rows, r, hit.now);
    case _ =>
  }

  /** What one request does to one user's status, and when the row can appear or go. */
  lemma StatusStep(cfg: Config, sys: System, hit: Hit, id: string)
    requires RowsKeyed(sys.rows)
    ensures var m, m' := sys.rows, ServeHit(cfg, sys, hit).0.rows;
            && (id in m'.users && id in m.users ==>
                  m'.users[id].status == if Does(hit, ActivateUser(id)) then ACTIVE
                                         else if Deprovisions(hit, id) then DEPROVISIONED
                                         else m.users[id].status)
            && (id in m'.users && id !in m.users ==> Posts(hit) && Fresh(m'.users[id].status))
            && (id in m.users && id !in m'.users ==>
                  ResetsLog(hit) || (Does(hit, DropUser(id)) && m.users[id].status == DEPROVISIONED))
  {
    hide ServeUser, ServeHit;
    HitUsers(cfg, sys, hit);
    if hit.authorized && hit.req.ForUsers? {
      StatusAfter(cfg, sys.rows, hit.req.users, hit.now, id);
      ComesAndGoes(cfg, sys.rows, hit.req.users, hit.now, id);
    }
  }

  ghost predicate LiveThrough(cfg: Config, sys: System, hits: seq<Hit>, from: nat, id: string) {
    forall i | from <= i <= |hits| :: id in After(cfg, sys, hits[..i]).rows.users
  }

  /** Hit j deprovisioned the user, who has been there and has not been activated since. */
  ghost predicate CauseAt(cfg: Config, sys: System, hits: seq<Hit>, j: nat, id: string) {
    && j < |hits| && Deprovisions(hits[j], id)
    && LiveThrough(cfg, sys, hits, j, id)
    && forall i | j < i < |hits| :: !Does(hits[i], ActivateUser(id))
  }

  lemma FreshKeepsInv(cfg: Config, hits: seq<Hit>)
    ensures Inv(After(cfg, FRESH, hits).rows) && RowsKeyed(After(cfg, FRESH, hits).rows)
  {
    hide Serve, After;
    RunKeepsInv(cfg, FRESH, hits);
  }

  lemma LiveOneMore(cfg: Config, sys: System, hits: seq<Hit>, from: nat, id: string)
    requires hits != [] && id in After(cfg, sys, hits).rows.users
    requires from < |hits| ==> LiveThrough(cfg, sys, hits[..|hits| - 1], from, id)
    ensures LiveThrough(cfg, sys, hits, from, id)
  {
    hide ServeHit, After;
    var before := hits[..|hits| - 1];
    forall i | from <= i <= |hits| ensures id in After(cfg, sys, hits[..i]).rows.users {
      if i < |hits| { assert hits[..i] == before[..i]; } else { assert hits[..i] == hits; }
    }
  }

  lemma CauseOneMore(cfg: Config, sys: System, hits: seq<Hit>, j: nat, id: string)
    requires hits != [] && CauseAt(cfg, sys, hits[..|hits| - 1], j, id)
    requires id in After(cfg, sys, hits).rows.users && !Does(hits[|hits| - 1], ActivateUser(id))
    ensures CauseAt(cfg, sys, hits, j, id)
  {
    hide LiveThrough, After, Deprovisions;
    var before := hits[..|hits| - 1];
    assert forall i | 0 <= i < |before| :: before[i] == hits[i];
    LiveOneMore(cfg, sys, hits, j, id);
  }

  lemma {:induction false} DeprovisionedHasACause(cfg: Config, hits: seq<Hit>, id: string)
    requires id in After(cfg, FRESH, hits).rows.users
    requires After(cfg, FRESH, hits).rows.users[id].status == DEPROVISIONED
    ensures exists j: nat :: CauseAt(cfg, FRESH, hits, j, id)
    decreases |hits|
  {
    hide ServeHit, Inv, RowsKeyed;
    assert hits != [];
    var before, k := hits[..|hits| - 1], |hits| - 1;
    FreshKeepsInv(cfg, before);
    StatusStep(cfg, After(cfg, FRESH, before), hits[k], id);
    if Deprovisions(hits[k], id) {
      assert before[..k] == before;
      LiveOneMore(cfg, FRESH, hits, k, id);
      assert CauseAt(cfg, FRESH, hits, k, id);
    } else {
      hide LiveThrough, Deprovisions, After;
      DeprovisionedHasACause(cfg, before, id);
      var j: nat :| CauseAt(cfg, FRESH, before, j, id);
      CauseOneMore(cfg, FRESH, hits, j, id);
    }
  }

  /**
    A request removes a user only if it is a reset or a DELETE of that user, and in the
    latter case a deactivate or an earlier DELETE came after its creation and after its
    last activate.
  */
  lemma RemovalWasPrepared(cfg: Config, hits: seq<Hit>, hit: Hit, id: string)
    requires id in After(cfg, FRESH, hits).rows.users
    requires id !in ServeHit(cfg, After(cfg, FRESH, hits), hit).0.rows.users
    ensures ResetsLog(hit) || (Does(hit, DropUser(id)) && exists j: nat :: CauseAt(cfg, FRESH, hits, j, id))
  {
    hide ServeHit, Inv, RowsKeyed;
    FreshKeepsInv(cfg, hits);
    StatusStep(cfg, After(cfg, FRESH, hits), hit, id);
    if !ResetsLog(hit) { DeprovisionedHasACause(cfg, hits, id); }
  }

  /** STAGED and PROVISIONED are never entered again while the row lives. */
  lemma {:induction false} NeverFreshAgain(cfg: Config, hits: seq<Hit>, from: nat, id: string)
    requires from <= |hits| && LiveThrough(cfg, FRESH, hits, from, id)
    requires !Fresh(After(cfg, FRESH, hits[..from]).rows.users[id].status)
    ensures id in After(cfg, FRESH, hits).rows.users && !Fresh(After(cfg, FRESH, hits).rows.users[id].status)
    decreases |hits|
  {
    hide ServeHit, Inv, RowsKeyed;
    if from == |hits| {
      assert hits[..from] == hits;
    } else {
      var before, k := hits[..|hits| - 1], |hits| - 1;
      forall i | from <= i <= |before| ensures id in After(cfg, FRESH, before[..i]).rows.users {
        assert before[..i] == hits[..i];
      }
      assert before[..from] == hits[..from];
      NeverFreshAgain(cfg, before, from, id);
      FreshKeepsInv(cfg, before);
      assert hits[..|hits|] == hits;
      StatusStep(cfg, After(cfg, FRESH, before), hits[k], id);
    }
  }

  /** Two DELETEs in a row remove the user and its memberships, from any status, and nothing else. */
  lemma TwoDeletesRemove(cfg: Config, m: Rows, id: string, now: nat, later: nat)
    requires id in m.users
    ensures var (m1, r1) := ServeUser(cfg, m, DropUser(id), now);
            var (m2, r2) := ServeUser(cfg, m1, DropUser(id), later);
            && r1 == Plain(204)
            && r2 == Plain(if m.users[id].status == DEPROVISIONED then 404 else 204)
            && m2 == WithoutUser(m, id)
            && id !in m2.users && forall k | k in m2.members :: k.1 != id
  {
    var m1 := ServeUser(cfg, m, DropUser(id), now).0;
    if m.users[id].status != DEPROVISIONED {
      assert m1.users - {id} == m.users - {id};
    }
  }

  // Apps.

  /**
    An app disappears only in a reset, or by a DELETE while it is INACTIVE; only the lifecycle
    requests change that status.
  */
  lemma AppStep(cfg: Config, m: Rows, req: AppRequest, now: nat, id: string)
    ensures var m' := ServeApp(cfg, m, req, now).0;
            && (id in m.apps && id !in m'.apps ==> req == DropApp(id) && m.apps[id].status == INACTIVE)
            && (id in m.apps && id in m'.apps ==>
                  m'.apps[id].status == (match req
                                         case ActivateApp(k) => if k == id then ACTIVE else m.apps[id].status
                                         case DeactivateApp(k) => if k == id then INACTIVE else m.apps[id].status
                                         case _ => m.apps[id].status)
                  && m'.apps[id].signOnMode == m.apps[id].signOnMode)
            && (id !in m.apps && id in m'.apps ==> req.PostApp? && m'.apps[id].status == ACTIVE)
  {
    hide NewID, InOrder, Selected, LoginsDiffer, NamesDiffer, NoDanglingMembers;
  }

  lemma UserRequestKeepsApps(cfg: Config, m: Rows, req: UserRequest, now: nat)
    ensures ServeUser(cfg, m, req, now).0.apps == m.apps
  {
    hide NewID, InOrder, Selected, LoginTaken;
  }

  lemma GroupRequestKeepsApps(cfg: Config, m: Rows, req: GroupRequest, now: nat)
    ensures ServeGroup(cfg, m, req, now).0.apps == m.apps
  {
    hide NewID, InOrder, Selected, NameTaken, LimitOf, Limited, MemberUsers, StorableGroup;
  }

  predicate DoesApp(hit: Hit, r: AppRequest) { hit.authorized && hit.req == ForApps(r) }

  /** What one request of any kind does to one app's status, and when the row can appear or go. */
  lemma AppStatusStep(cfg: Config, sys: System, hit: Hit, id: string)
    ensures var m, m' := sys.rows, ServeHit(cfg, sys, hit).0.rows;
            && (id in m'.apps && id in m.apps ==>
                  m'.apps[id].status == if DoesApp(hit, ActivateApp(id)) then ACTIVE
                                        else if DoesApp(hit, DeactivateApp(id)) then INACTIVE
                                        else m.apps[id].status)
            && (id in m'.apps && id !in m.apps ==> m'.apps[id].status == ACTIVE)
            && (id in m.apps && id !in m'.apps ==>
                  ResetsLog(hit) || (DoesApp(hit, DropApp(id)) && m.apps[id].status == INACTIVE))
  {
    hide ServeUser, ServeGroup, ServeApp;
    match hit.req
    case ForUsers(r) => UserRequestKeepsApps(cfg, sys.rows, r, hit.now);
    case ForGroups(r) => GroupRequestKeepsApps(cfg, sys.rows, r, hit.now);
    case ForApps(r) => AppStep(cfg, sys.rows, r, hit.now, id);
    case _ =>
  }

  ghost predicate AppLiveThrough(cfg: Config, sys: System, hits: seq<Hit>, from: nat, id: string) {
    forall i | from <= i <= |hits| :: id in After(cfg, sys, hits[..i]).rows.apps
  }

  /** Hit j deactivated the app, which has been there and has not been activated since. */
  ghost predicate AppCauseAt(cfg: Config, sys: System, hits: seq<Hit>, j: nat, id: string) {
    && j < |hits| && DoesApp(hits[j], DeactivateApp(id))
    && AppLiveThrough(cfg, sys, hits, j, id)
    && forall i | j < i < |hits| :: !DoesApp(hits[i], ActivateApp(id))
  }

  lemma AppLiveOneMore(cfg: Config, sys: System, hits: seq<Hit>, from: nat, id: string)
    requires hits != [] && id in After(cfg, sys, hits).rows.apps
    requires from < |hits| ==> AppLiveThrough(cfg, sys, hits[..|hits| - 1], from, id)
    ensures AppLiveThrough(cfg, sys, hits, from, id)
  {
    hide ServeHit, After;
    var before := hits[..|hits| - 1];
    forall i | from <= i <= |hits| ensures id in After(cfg, sys, hits[..i]).rows.apps {
      if i < |hits| { assert hits[..i] == before[..i]; } else { assert hits[..i] == hits; }
    }
  }

  lemma AppCauseOneMore(cfg: Config, sys: System, hits: seq<Hit>, j: nat, id: string)
    requires hits != [] && AppCauseAt(cfg, sys, hits[..|hits| - 1], j, id)
    requires id in After(cfg, sys, hits).rows.apps && !DoesApp(hits[|hits| - 1], ActivateApp(id))
    ensures AppCauseAt(cfg, sys, hits, j, id)
  {
    hide AppLiveThrough, After;
    var before := hits[..|hits| - 1];
    assert forall i | 0 <= i < |before| :: before[i] == hits[i];
    AppLiveOneMore(cfg, sys, hits, j, id);
  }

  /** An INACTIVE app was deactivated after its creation and after its last activate. */
  lemma {:induction false} InactiveHasACause(cfg: Config, hits: seq<Hit>, id: string)
    requires id in After(cfg, FRESH, hits).rows.apps && After(cfg, FRESH, hits).rows.apps[id].status == INACTIVE
    ensures exists j: nat :: AppCauseAt(cfg, FRESH, hits, j, id)
    decreases |hits|
  {
    hide ServeHit;
    assert hits != [];
    var before, k := hits[..|hits| - 1], |hits| - 1;
    AppStatusStep(cfg, After(cfg, FRESH, before), hits[k], id);
    if DoesApp(hits[k], DeactivateApp(id)) {
      DeactivateNeedsTheApp(cfg, After(cfg, FRESH, before), hits[k], id);
      assert before[..k] == before;
      AppLiveOneMore(cfg, FRESH, hits, k, id);
      assert AppCauseAt(cfg, FRESH, hits, k, id);
    } else {
      hide AppLiveThrough, After;
      InactiveHasACause(cfg, before, id);
      var j: nat :| AppCauseAt(cfg, FRESH, before, j, id);
      AppCauseOneMore(cfg, FRESH, hits, j, id);
    }
  }

  lemma DeactivateNeedsTheApp(cfg: Config, sys: System, hit: Hit, id: string)
    requires DoesApp(hit, DeactivateApp(id)) && id in ServeHit(cfg, sys, hit).0.rows.apps
    ensures id in sys.rows.apps
  {
    hide NewID, InOrder, Selected;
  }

  /**
    A request removes an app only if it is a reset or a DELETE of that app, and in the
    latter case a deactivate came after its creation and after its last activate.
  */
  lemma AppRemovalHasACause(cfg: Config, hits: seq<Hit>, hit: Hit, id: string)
    requires id in After(cfg, FRESH, hits).rows.apps
    requires id !in ServeHit(cfg, After(cfg, FRESH, hits), hit).0.rows.apps
    ensures ResetsLog(hit) || (DoesApp(hit, DropApp(id)) && exists j: nat :: AppCauseAt(cfg, FRESH, hits, j, id))
  {
    hide ServeHit;
    AppStatusStep(cfg, After(cfg, FRESH, hits), hit, id);
    if !ResetsLog(hit) { InactiveHasACause(cfg, hits, id); }
  }
}
