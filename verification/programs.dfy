/**
  Each handler as the sequence of store calls it makes: what it does next, given the
  answers so far. Run with nothing in between, a handler does what Requests.Serve says;
  in Network the same programs run with their calls interleaved.
*/
module Programs {
  import opened Audited
  import opened Filters
  import opened Gaps
  import opened Ids
  import opened Listings
  import opened Model
  import opened Requests
  import opened Schemas
  import opened Wrappers

  datatype Action = Ask(op: Op) | Answer(resp: Response)

  function Told(r: Reply, ok: Response): Action { Answer(if r == Done then ok else StoreError(r)) }

  function FlipNext(id: string, status: string, ok: Response, now: nat, rs: seq<Reply>): Action {
    if rs == [] then Ask(OnUsers(UserOp.GetUser(id)))
    else if !rs[0].OneUser? then Answer(StoreError(rs[0]))
    else if |rs| == 1 then Ask(OnUsers(UserOp.UpdateUser(rs[0].user.(status := status, updatedAt := now))))
    else Told(rs[1], ok)
  }

  function PutUserNext(cfg: Config, id: string, body: UserBody, now: nat, rs: seq<Reply>): Action {
    if rs == [] then Ask(OnUsers(UserOp.GetUser(id)))
    else if !rs[0].OneUser? then Answer(StoreError(rs[0]))
    else
      match Validated(cfg.strict, body)
      case None => Answer(Plain(400))
      case Some(p) =>
        var u := rs[0].user.(login := p.login, email := p.email, profile := p.raw, updatedAt := now);
        if |rs| == 1 then Ask(OnUsers(UserOp.UpdateUser(u))) else Told(rs[1], Shown(TheUser(u)))
  }

  function DropUserNext(id: string, now: nat, rs: seq<Reply>): Action {
    if |rs| > 0 && rs[0].OneUser? && rs[0].user.status == DEPROVISIONED then
      if |rs| == 1 then Ask(OnUsers(UserOp.DeleteUser(id))) else Told(rs[1], Plain(204))
    else FlipNext(id, DEPROVISIONED, Plain(204), now, rs)
  }

  function UserNext(cfg: Config, req: UserRequest, now: nat, rs: seq<Reply>): Action {
    match req
    case PostUser(body, activate) =>
      (match Validated(cfg.strict, body)
       case None => Answer(Plain(400))
       case Some(p) =>
         var u := NewUser(cfg, p, activate, now);
         if rs == [] then Ask(OnUsers(UserOp.CreateUser(u))) else Told(rs[0], Shown(TheUser(u))))
    case FetchUser(key) =>
      if rs == [] then Ask(OnUsers(UserOp.GetUser(key)))
      else if rs[0].OneUser? then Answer(Shown(TheUser(rs[0].user)))
      else if rs[0] != NotFound then Answer(StoreError(rs[0]))
      else if |rs| == 1 then Ask(OnUsers(UserOp.GetUserByLogin(key)))
      else Answer(if rs[1].OneUser? then Shown(TheUser(rs[1].user)) else StoreError(rs[1]))
    case PutUser(id, body) => PutUserNext(cfg, id, body, now, rs)
    case ActivateUser(id) => FlipNext(id, ACTIVE, Plain(200), now, rs)
    case DeactivateUser(id) => FlipNext(id, DEPROVISIONED, Plain(200), now, rs)
    case DropUser(id) => DropUserNext(id, now, rs)
    case BrowseUsers(filter, limit) =>
      if filter != "" && ParseUserFilter(filter).None? then Answer(Gapped(400, GAP_USER_FILTER))
      else if rs == [] then Ask(OnUsers(UserOp.ListUsers(0)))
      else if !rs[0].ManyUsers? then Answer(StoreError(rs[0]))
      else
        var f := if filter == "" then None else ParseUserFilter(filter);
        Answer(Shown(Users(Limited(Selected(rs[0].users, UserTest(f)), LimitOf(limit)))))
  }

  function PutGroupNext(id: string, body: GroupBody, rs: seq<Reply>): Action {
    if rs == [] then Ask(OnGroups(GroupOp.GetGroup(id)))
    else if !rs[0].OneGroup? then Answer(StoreError(rs[0]))
    else if body.MalformedGroup? then Answer(Plain(400))
    else
      var x := rs[0].group;
      if body.kind != "" && body.kind != x.kind then Answer(Plain(400))
      else
        var name := if body.name == "" then x.name else body.name;
        var g := x.(name := name, description := body.description, profile := body.raw);
        if |rs| == 1 then Ask(OnGroups(GroupOp.UpdateGroup(g))) else Told(rs[1], Shown(TheGroup(g)))
  }

  /** The memberships, then one lookup for each of them. */
  function MembersNext(gid: string, rs: seq<Reply>): Action {
    if rs == [] then Ask(OnGroups(GroupOp.GetGroup(gid)))
    else if !rs[0].OneGroup? then Answer(StoreError(rs[0]))
    else if |rs| == 1 then Ask(OnMembers(ListMembers(gid)))
    else if !rs[1].ManyMembers? then Answer(StoreError(rs[1]))
    else if |rs| - 2 < |rs[1].rows| then Ask(OnUsers(UserOp.GetUser(rs[1].rows[|rs| - 2].userId)))
    else Answer(Shown(Users(UsersAnswered(rs[2..2 + |rs[1].rows|]))))
  }

  function GroupNext(cfg: Config, req: GroupRequest, now: nat, rs: seq<Reply>): Action {
    match req
    case PostGroup(body) =>
      if body.MalformedGroup? then Answer(Plain(400))
      else if body.kind == APP_GROUP then Answer(Gapped(501, GAP_APP_GROUP))
      else if body.kind == BUILT_IN then Answer(Gapped(501, GAP_BUILT_IN))
      else if body.kind != "" && body.kind != OKTA_GROUP then Answer(Plain(400))
      else if body.name == "" then Answer(Plain(400))
      else
        var g := Group(NewID(cfg.sha, KIND_GROUP, body.name), body.name, OKTA_GROUP, body.description, body.raw, now);
        if rs == [] then Ask(OnGroups(GroupOp.CreateGroup(g))) else Told(rs[0], Shown(TheGroup(g)))
    case FetchGroup(id) =>
      if rs == [] then Ask(OnGroups(GroupOp.GetGroup(id)))
      else Answer(if rs[0].OneGroup? then Shown(TheGroup(rs[0].group)) else StoreError(rs[0]))
    case PutGroup(id, body) => PutGroupNext(id, body, rs)
    case DropGroup(id) => if rs == [] then Ask(OnGroups(GroupOp.DeleteGroup(id))) else Told(rs[0], Plain(204))
    case BrowseGroups(filter, q, limit) =>
      if filter != "" then Answer(Gapped(400, GAP_GROUP_FILTER))
      else if rs == [] then Ask(OnGroups(GroupOp.ListGroups(0)))
      else if !rs[0].ManyGroups? then Answer(StoreError(rs[0]))
      else Answer(Shown(Groups(Limited(Selected(rs[0].groups, GroupTest(cfg.lower, q)), LimitOf(limit)))))
    case PutMember(gid, uid) =>
      if rs == [] then Ask(OnMembers(AddMembership(Membership(gid, uid, now)))) else Told(rs[0], Plain(204))
    case DropMember(gid, uid) =>
      if rs == [] then Ask(OnMembers(RemoveMembership(gid, uid))) else Told(rs[0], Plain(204))
    case BrowseMembers(gid) => MembersNext(gid, rs)
  }

  function AppFlipNext(id: string, status: string, rs: seq<Reply>): Action {
    if rs == [] then Ask(OnApps(AppOp.GetApp(id)))
    else if !rs[0].OneApp? then Answer(StoreError(rs[0]))
    else if |rs| == 1 then Ask(OnApps(AppOp.UpdateApp(rs[0].app.(status := status))))
    else Told(rs[1], Plain(200))
  }

  function PutAppNext(id: string, body: AppBody, rs: seq<Reply>): Action {
    if rs == [] then Ask(OnApps(AppOp.GetApp(id)))
    else if !rs[0].OneApp? then Answer(StoreError(rs[0]))
    else if body.MalformedApp? then Answer(Plain(400))
    else
      var x := rs[0].app;
      if body.signOnMode != "" && body.signOnMode != x.signOnMode then Answer(Plain(400))
      else
        var a := x.(name := FirstNonEmpty(body.name, x.name), labelText := FirstNonEmpty(body.labelText, x.labelText),
                    settings := body.settings);
        if |rs| == 1 then Ask(OnApps(AppOp.UpdateApp(a))) else Told(rs[1], Shown(TheApp(a)))
  }

  function DropAppNext(id: string, rs: seq<Reply>): Action {
    if rs == [] then Ask(OnApps(AppOp.GetApp(id)))
    else if !rs[0].OneApp? then Answer(StoreError(rs[0]))
    else if rs[0].app.status != INACTIVE then Answer(Plain(400))
    else if |rs| == 1 then Ask(OnApps(AppOp.DeleteApp(rs[0].app.id)))
    else Told(rs[1], Plain(204))
  }

  function AppNext(cfg: Config, req: AppRequest, now: nat, rs: seq<Reply>): Action {
    match req
    case PostApp(body) =>
      if body.MalformedApp? then Answer(Plain(400))
      else if body.signOnMode != SAML then Answer(Gapped(501, GAP_NON_SAML))
      else if body.labelText == "" then Answer(Plain(400))
      else
        var a := App(NewID(cfg.sha, KIND_APP, body.labelText), FirstNonEmpty(body.name, body.labelText),
                     body.labelText, ACTIVE, body.signOnMode, body.settings, now);
        if rs == [] then Ask(OnApps(AppOp.CreateApp(a))) else Told(rs[0], Shown(TheApp(a)))
    case FetchApp(id) =>
      if rs == [] then Ask(OnApps(AppOp.GetApp(id)))
      else Answer(if rs[0].OneApp? then Shown(TheApp(rs[0].app)) else StoreError(rs[0]))
    case PutApp(id, body) => PutAppNext(id, body, rs)
    case ActivateApp(id) => AppFlipNext(id, ACTIVE, rs)
    case DeactivateApp(id) => AppFlipNext(id, INACTIVE, rs)
    case DropApp(id) => DropAppNext(id, rs)
    case BrowseApps(filter, limit) =>
      if filter != "" && ParseAppFilter(filter).None? then Answer(Gapped(400, GAP_APP_FILTER))
      else if rs == [] then Ask(OnApps(AppOp.ListApps(0)))
      else if !rs[0].ManyApps? then Answer(StoreError(rs[0]))
      else
        var f := if filter == "" then None else ParseAppFilter(filter);
        Answer(Shown(Apps(Limited(Selected(rs[0].apps, AppTest(f)), LimitOf(limit)))))
  }

  /** What the handler of a request does after these answers: the next store call, or the response. */
  function RequestNext(cfg: Config, req: Request, now: nat, rs: seq<Reply>): Action {
    match req
    case ForUsers(r) => UserNext(cfg, r, now, rs)
    case ForGroups(r) => GroupNext(cfg, r, now, rs)
    case ForApps(r) => AppNext(cfg, r, now, rs)
    case ResetAll => if rs == [] then Ask(Reset) else Told(rs[0], Plain(204))
    case Unrouted(verb, path) => Answer(Gapped(501, Lookup(REGISTRY, verb, path).0))
  }

  function InnerNext(cfg: Config, hit: Hit, rs: seq<Reply>): Action {
    if hit.authorized then RequestNext(cfg, hit.req, hit.now, rs) else Answer(Plain(401))
  }

  /** With the middleware: once the handler has answered, one append to the audit log. */
  function Next(cfg: Config, hit: Hit, rs: seq<Reply>): Action {
    if rs != [] && InnerNext(cfg, hit, rs[..|rs| - 1]).Answer? then InnerNext(cfg, hit, rs[..|rs| - 1])
    else
      match InnerNext(cfg, hit, rs)
      case Ask(op) => Ask(op)
      case Answer(resp) => Ask(InsertAudit(EntryFor(hit, resp, 0)))
  }

  // Run with nothing in between.

  /** The calls of a handler, each answered from the rows the one before left. */
  ghost predicate Alone(cfg: Config, req: Request, now: nat, ms: seq<Rows>, rs: seq<Reply>) {
    && |ms| == |rs| + 1
    && forall k | 0 <= k < |rs| :: AloneAt(cfg, req, now, ms, rs, k)
  }

  ghost predicate AloneAt(cfg: Config, req: Request, now: nat, ms: seq<Rows>, rs: seq<Reply>, k: nat)
    requires k < |rs| && |ms| == |rs| + 1
  {
    var a := RequestNext(cfg, req, now, rs[..k]);
    a.Ask? && (ms[k + 1], rs[k]) == Apply(a.op, ms[k])
  }

  /** Two calls at the most, except for one lookup for each member of a group. */
  lemma ProgramsEnd(cfg: Config, req: Request, now: nat, rs: seq<Reply>)
    requires RequestNext(cfg, req, now, rs).Ask?
    ensures |rs| < 2 || (req.ForGroups? && req.groups.BrowseMembers? && rs[1].ManyMembers? && |rs| < 2 + |rs[1].rows|)
  {
    hide Limited, Selected, LimitOf, ParseUserFilter, ParseAppFilter, NewID, Validated, UsersAnswered;
  }

  lemma UserReadsAlone(cfg: Config, req: UserRequest, now: nat, ms: seq<Rows>, rs: seq<Reply>)
    requires Alone(cfg, ForUsers(req), now, ms, rs) && Inv(ms[0]) && UserNext(cfg, req, now, rs).Answer?
    requires req.FetchUser? || req.BrowseUsers?
    ensures (ms[|rs|], UserNext(cfg, req, now, rs).resp) == ServeUser(cfg, ms[0], req, now)
  {
    hide Selected, LimitOf, ParseUserFilter, NewID, Validated, InOrder, ByLogin, NoDanglingMembers, NamesDiffer;
    ShortAlone(cfg, ForUsers(req), now, ms, rs);
  }

  lemma UserFormsAlone(cfg: Config, req: UserRequest, now: nat, ms: seq<Rows>, rs: seq<Reply>)
    requires Alone(cfg, ForUsers(req), now, ms, rs) && Inv(ms[0]) && UserNext(cfg, req, now, rs).Answer?
    requires req.PostUser? || req.PutUser?
    ensures (ms[|rs|], UserNext(cfg, req, now, rs).resp) == ServeUser(cfg, ms[0], req, now)
  {
    hide Selected, LimitOf, ParseUserFilter, NewID, Validated, InOrder, ByLogin, NoDanglingMembers, NamesDiffer;
    ShortAlone(cfg, ForUsers(req), now, ms, rs);
  }

  lemma UserFlipsAlone(cfg: Config, req: UserRequest, now: nat, ms: seq<Rows>, rs: seq<Reply>)
    requires Alone(cfg, ForUsers(req), now, ms, rs) && Inv(ms[0]) && UserNext(cfg, req, now, rs).Answer?
    requires req.ActivateUser? || req.DeactivateUser? || req.DropUser?
    ensures (ms[|rs|], UserNext(cfg, req, now, rs).resp) == ServeUser(cfg, ms[0], req, now)
  {
    hide Selected, LimitOf, ParseUserFilter, NewID, Validated, InOrder, ByLogin, NoDanglingMembers, NamesDiffer;
    ShortAlone(cfg, ForUsers(req), now, ms, rs);
  }

  lemma UserRequestAlone(cfg: Config, req: UserRequest, now: nat, ms: seq<Rows>, rs: seq<Reply>)
    requires Alone(cfg, ForUsers(req), now, ms, rs) && Inv(ms[0]) && UserNext(cfg, req, now, rs).Answer?
    ensures (ms[|rs|], UserNext(cfg, req, now, rs).resp) == ServeUser(cfg, ms[0], req, now)
  {
    hide Alone, Inv, UserNext, ServeUser;
    if req.FetchUser? || req.BrowseUsers? {
      UserReadsAlone(cfg, req, now, ms, rs);
    } else if req.PostUser? || req.PutUser? {
      UserFormsAlone(cfg, req, now, ms, rs);
    } else {
      UserFlipsAlone(cfg, req, now, ms, rs);
    }
  }

  /** The first two calls, spelled out. */
  lemma ShortAlone(cfg: Config, req: Request, now: nat, ms: seq<Rows>, rs: seq<Reply>)
    requires Alone(cfg, req, now, ms, rs) && !(req.ForGroups? && req.groups.BrowseMembers?)
    ensures rs == [] || rs == [rs[0]] || (|rs| == 2 && rs == [rs[0], rs[1]])
    ensures |rs| > 0 ==>
              && RequestNext(cfg, req, now, []).Ask?
              && (ms[1], rs[0]) == Apply(RequestNext(cfg, req, now, []).op, ms[0])
    ensures |rs| > 1 ==> RequestNext(cfg, req, now, [rs[0]]).Ask?
                         && (ms[2], rs[1]) == Apply(RequestNext(cfg, req, now, [rs[0]]).op, ms[1])
  {
    hide RequestNext, Apply;
    if |rs| > 0 { assert AloneAt(cfg, req, now, ms, rs, 0) && rs[..0] == []; }
    if |rs| > 1 { assert AloneAt(cfg, req, now, ms, rs, 1) && rs[..1] == [rs[0]]; }
    if |rs| > 2 {
      assert AloneAt(cfg, req, now, ms, rs, 2);
      ProgramsEnd(cfg, req, now, rs[..2]);
    }
  }

  lemma GroupFormsAlone(cfg: Config, req: GroupRequest, now: nat, ms: seq<Rows>, rs: seq<Reply>)
    requires Alone(cfg, ForGroups(req), now, ms, rs) && Inv(ms[0]) && GroupNext(cfg, req, now, rs).Answer?
    requires req.PostGroup? || req.PutGroup?
    ensures (ms[|rs|], GroupNext(cfg, req, now, rs).resp) == ServeGroup(cfg, ms[0], req, now)
  {
    hide Selected, LimitOf, NewID, InOrder, MembersOf, MemberUsers, NoDanglingMembers, LoginsDiffer;
    ShortAlone(cfg, ForGroups(req), now, ms, rs);
  }

  lemma OtherGroupsAlone(cfg: Config, req: GroupRequest, now: nat, ms: seq<Rows>, rs: seq<Reply>)
    requires Alone(cfg, ForGroups(req), now, ms, rs) && Inv(ms[0]) && GroupNext(cfg, req, now, rs).Answer?
    requires !req.PostGroup? && !req.PutGroup? && !req.BrowseMembers?
    ensures (ms[|rs|], GroupNext(cfg, req, now, rs).resp) == ServeGroup(cfg, ms[0], req, now)
  {
    hide Selected, LimitOf, NewID, InOrder, MembersOf, MemberUsers, NoDanglingMembers, LoginsDiffer;
    ShortAlone(cfg, ForGroups(req), now, ms, rs);
  }

  lemma GroupRequestAlone(cfg: Config, req: GroupRequest, now: nat, ms: seq<Rows>, rs: seq<Reply>)
    requires Alone(cfg, ForGroups(req), now, ms, rs) && Inv(ms[0]) && GroupNext(cfg, req, now, rs).Answer?
    requires !req.BrowseMembers?
    ensures (ms[|rs|], GroupNext(cfg, req, now, rs).resp) == ServeGroup(cfg, ms[0], req, now)
  {
    hide Alone, Inv, GroupNext, ServeGroup;
    if req.PostGroup? || req.PutGroup? {
      GroupFormsAlone(cfg, req, now, ms, rs);
    } else {
      OtherGroupsAlone(cfg, req, now, ms, rs);
    }
  }

  lemma AppFormsAlone(cfg: Config, req: AppRequest, now: nat, ms: seq<Rows>, rs: seq<Reply>)
    requires Alone(cfg, ForApps(req), now, ms, rs) && Inv(ms[0]) && AppNext(cfg, req, now, rs).Answer?
    requires req.PostApp? || req.PutApp?
    ensures (ms[|rs|], AppNext(cfg, req, now, rs).resp) == ServeApp(cfg, ms[0], req, now)
  {
    hide Selected, LimitOf, ParseAppFilter, NewID, InOrder, NoDanglingMembers, LoginsDiffer, NamesDiffer;
    ShortAlone(cfg, ForApps(req), now, ms, rs);
  }

  lemma OtherAppsAlone(cfg: Config, req: AppRequest, now: nat, ms: seq<Rows>, rs: seq<Reply>)
    requires Alone(cfg, ForApps(req), now, ms, rs) && Inv(ms[0]) && AppNext(cfg, req, now, rs).Answer?
    requires !req.PostApp? && !req.PutApp?
    ensures (ms[|rs|], AppNext(cfg, req, now, rs).resp) == ServeApp(cfg, ms[0], req, now)
  {
    hide Selected, LimitOf, ParseAppFilter, NewID, InOrder, NoDanglingMembers, LoginsDiffer, NamesDiffer;
    ShortAlone(cfg, ForApps(req), now, ms, rs);
  }

  lemma AppRequestAlone(cfg: Config, req: AppRequest, now: nat, ms: seq<Rows>, rs: seq<Reply>)
    requires Alone(cfg, ForApps(req), now, ms, rs) && Inv(ms[0]) && AppNext(cfg, req, now, rs).Answer?
    ensures (ms[|rs|], AppNext(cfg, req, now, rs).resp) == ServeApp(cfg, ms[0], req, now)
  {
    hide Alone, Inv, AppNext, ServeApp;
    if req.PostApp? || req.PutApp? {
      AppFormsAlone(cfg, req, now, ms, rs);
    } else {
      OtherAppsAlone(cfg, req, now, ms, rs);
    }
  }

  /** Listing members only reads, so alone every call sees the same rows. */
  lemma {:induction false} MembersSeeOneState(cfg: Config, gid: string, now: nat, ms: seq<Rows>, rs: seq<Reply>, k: nat)
    requires Alone(cfg, ForGroups(BrowseMembers(gid)), now, ms, rs) && k <= |rs|
    ensures ms[k] == ms[0]
  {
    hide MembersOf;
    if k > 0 {
      MembersSeeOneState(cfg, gid, now, ms, rs, k - 1);
      assert AloneAt(cfg, ForGroups(BrowseMembers(gid)), now, ms, rs, k - 1);
    }
  }

  /** What each call of the member list asked and was answered. */
  lemma MemberCalls(cfg: Config, gid: string, now: nat, ms: seq<Rows>, rs: seq<Reply>, k: nat)
    requires Alone(cfg, ForGroups(BrowseMembers(gid)), now, ms, rs) && k < |rs|
    ensures k == 0 ==> rs[0] == ApplyGroup(GroupOp.GetGroup(gid), ms[0]).1
    ensures k > 0 ==> rs[0].OneGroup?
    ensures k == 1 ==> rs[1] == ManyMembers(MembersOf(ms[0], gid))
    ensures k > 1 ==> rs[1].ManyMembers? && k - 2 < |rs[1].rows|
                      && rs[k] == ApplyUser(UserOp.GetUser(rs[1].rows[k - 2].userId), ms[0]).1
  {
    hide MembersOf;
    MembersSeeOneState(cfg, gid, now, ms, rs, k);
    assert AloneAt(cfg, ForGroups(BrowseMembers(gid)), now, ms, rs, k);
  }

  lemma MembersAlone(cfg: Config, gid: string, now: nat, ms: seq<Rows>, rs: seq<Reply>)
    requires Alone(cfg, ForGroups(BrowseMembers(gid)), now, ms, rs) && MembersNext(gid, rs).Answer?
    ensures (ms[|rs|], MembersNext(gid, rs).resp) == ServeGroup(cfg, ms[0], BrowseMembers(gid), now)
  {
    hide MembersOf, UsersAnswered, UsersFound, AloneAt, LimitOf, Limited, Selected, InOrder, NewID;
    MembersSeeOneState(cfg, gid, now, ms, rs, |rs|);
    if |rs| > 0 { MemberCalls(cfg, gid, now, ms, rs, 0); }
    if |rs| > 1 {
      MemberCalls(cfg, gid, now, ms, rs, 1);
      MemberCalls(cfg, gid, now, ms, rs, |rs| - 1);
      var rows := MembersOf(ms[0], gid);
      assert |rs| == 2 + |rows|;
      var found := rs[2..];
      forall i | 0 <= i < |rows| ensures found[i] == ApplyUser(UserOp.GetUser(rows[i].userId), ms[0]).1 {
        MemberCalls(cfg, gid, now, ms, rs, i + 2);
      }
      AnswersAreFound(rows, seq(|rows|, _ => ms[0]), found);
      assert rs[2..2 + |rows|] == found;
    }
  }

  /** A handler whose calls are answered with nothing in between changes the rows and responds as Serve says. */
  lemma AloneServes(cfg: Config, req: Request, now: nat, ms: seq<Rows>, rs: seq<Reply>)
    requires Alone(cfg, req, now, ms, rs) && Inv(ms[0]) && RequestNext(cfg, req, now, rs).Answer?
    ensures (ms[|rs|], RequestNext(cfg, req, now, rs).resp) == Serve(cfg, ms[0], req, now)
  {
    hide ServeUser, ServeGroup, ServeApp, Alone, UserNext, AppNext, Inv, Lookup;
    match req
    case ForUsers(r) => UserRequestAlone(cfg, r, now, ms, rs);
    case ForGroups(r) =>
      if r.BrowseMembers? { MembersAlone(cfg, r.gid, now, ms, rs); } else { GroupRequestAlone(cfg, r, now, ms, rs); }
    case ForApps(r) => AppRequestAlone(cfg, r, now, ms, rs);
    case ResetAll => ResetServes(cfg, now, ms, rs);
    case Unrouted(_, _) => UnroutedServes(cfg, req, now, ms, rs);
  }

  lemma ResetServes(cfg: Config, now: nat, ms: seq<Rows>, rs: seq<Reply>)
    requires Alone(cfg, ResetAll, now, ms, rs) && RequestNext(cfg, ResetAll, now, rs).Answer?
    ensures (ms[|rs|], RequestNext(cfg, ResetAll, now, rs).resp) == (NOTHING, Plain(204))
  {
    ShortAlone(cfg, ResetAll, now, ms, rs);
  }

  lemma UnroutedServes(cfg: Config, req: Request, now: nat, ms: seq<Rows>, rs: seq<Reply>)
    requires Alone(cfg, req, now, ms, rs) && req.Unrouted?
    ensures rs == []
  {
    ShortAlone(cfg, req, now, ms, rs);
  }

  // With the middleware.

  /** A rejected request asks the store for nothing but its append, whose entry says 401, and is answered 401. */
  lemma RejectedOnlyAppends(cfg: Config, hit: Hit, r: Reply)
    requires !hit.authorized
    ensures Next(cfg, hit, []) == Ask(InsertAudit(AuditEntry(0, hit.now, hit.verb, hit.path, 401, "")))
    ensures Next(cfg, hit, [r]) == Answer(Response(401, Nothing, ""))
  {
    assert [r][..0] == [];
  }

  /** The same calls as in Alone, of a request with its middleware up to the append. */
  ghost predicate AloneHit(cfg: Config, hit: Hit, ms: seq<Rows>, rs: seq<Reply>) {
    && |ms| == |rs| + 1
    && forall k | 0 <= k < |rs| :: AloneCall(cfg, hit, ms, rs, k)
  }

  ghost predicate AloneCall(cfg: Config, hit: Hit, ms: seq<Rows>, rs: seq<Reply>, k: nat)
    requires k < |rs| && |ms| == |rs| + 1
  {
    var a := Next(cfg, hit, rs[..k]);
    a.Ask? && !a.op.InsertAudit? && (ms[k + 1], rs[k]) == Apply(a.op, ms[k])
  }

  lemma NextIsInner(cfg: Config, hit: Hit, rs: seq<Reply>)
    requires var a := Next(cfg, hit, rs); a.Ask? && !a.op.InsertAudit?
    ensures InnerNext(cfg, hit, rs) == Next(cfg, hit, rs) && hit.authorized
  {
    hide RequestNext;
  }

  lemma InnerAlone(cfg: Config, hit: Hit, ms: seq<Rows>, rs: seq<Reply>)
    requires AloneHit(cfg, hit, ms, rs)
    ensures hit.authorized ==> Alone(cfg, hit.req, hit.now, ms, rs)
    ensures !hit.authorized ==> rs == []
  {
    hide RequestNext, Apply;
    forall k | 0 <= k < |rs| ensures hit.authorized && AloneAt(cfg, hit.req, hit.now, ms, rs, k) {
      assert AloneCall(cfg, hit, ms, rs, k);
      NextIsInner(cfg, hit, rs[..k]);
    }
    if rs != [] {
      assert AloneCall(cfg, hit, ms, rs, 0);
      NextIsInner(cfg, hit, rs[..0]);
    }
  }

  /**
    A request with its middleware, its calls answered with nothing in between: once it asks
    for its append, the rows apart from the log are those ServeHit leaves, the entry is the
    one ServeHit adds, and so is the answer that follows.
  */
  lemma AloneHits(cfg: Config, sys: System, hit: Hit, ms: seq<Rows>, rs: seq<Reply>, r: Reply)
    requires AloneHit(cfg, hit, ms, rs) && ms[0] == sys.rows && Inv(sys.rows)
    requires Next(cfg, hit, rs).Ask? && Next(cfg, hit, rs).op.InsertAudit?
    ensures var (sys', resp) := ServeHit(cfg, sys, hit);
            var e := Next(cfg, hit, rs).op.entry;
            && sys'.rows == ms[|rs|].(audit := ms[|rs|].audit[sys'.seqNo := e.(id := sys'.seqNo)])
            && Next(cfg, hit, rs + [r]) == Answer(resp)
  {
    hide RequestNext, Serve, Alone, AloneHit, Inv;
    InnerAlone(cfg, hit, ms, rs);
    HandlersNeverAppend(cfg, hit.req, hit.now, rs);
    assert (rs + [r])[..|rs|] == rs;
    if hit.authorized { AloneServes(cfg, hit.req, hit.now, ms, rs); }
  }

  lemma HandlersNeverAppend(cfg: Config, req: Request, now: nat, rs: seq<Reply>)
    ensures var a := RequestNext(cfg, req, now, rs); a.Ask? ==> !a.op.InsertAudit?
  {
    hide NewID, LimitOf, ParseUserFilter, ParseAppFilter, Limited, Selected, UsersAnswered, Validated, Lookup;
  }
}
