/**
  What the rows keep when the transactions of many handlers interleave freely: each write
  is made from a request and from rows read in earlier transactions, which may be out of
  date by then.
*/
module Interleaved {
  import opened Concurrency
  import opened Creation
  import opened Ids
  import opened Model
  import opened Profiles
  import opened Requests
  import opened Schemas
  import opened Survival
  import opened Wrappers

  /** Where a handler took the row it writes from: a request alone, or a read at an earlier event and a request. */
  datatype Cause =
    | Nowhere
    | UserBuilt(userBody: UserBody, activate: bool, now: nat)
    | UserFlipped(j: nat, status: string, now: nat)
    | UserEdited(j: nat, userBody: UserBody, now: nat)
    | UserDropped(j: nat)
    | GroupBuilt(groupBody: GroupBody, now: nat)
    | GroupEdited(j: nat, groupBody: GroupBody)
    | AppBuilt(appBody: AppBody, now: nat)
    | AppFlipped(j: nat, status: string)
    | AppEdited(j: nat, appBody: AppBody)
    | AppDropped(j: nat)

  predicate ReadsUser(log: seq<Event>, j: nat, i: nat) {
    j < i <= |log| && log[j].op.OnUsers? && log[j].op.users.GetUser? && log[j].reply.OneUser?
  }

  predicate ReadsGroup(log: seq<Event>, j: nat, i: nat) {
    j < i <= |log| && log[j].op.OnGroups? && log[j].op.groups.GetGroup? && log[j].reply.OneGroup?
  }

  predicate ReadsApp(log: seq<Event>, j: nat, i: nat) {
    j < i <= |log| && log[j].op.OnApps? && log[j].op.apps.GetApp? && log[j].reply.OneApp?
  }

  predicate UserMade(cfg: Config, rd: Option<Reader>, log: seq<Event>, i: nat, c: Cause, u: User)
    requires i < |log|
  {
    match c
    case UserBuilt(body, activate, now) =>
      && Validated(cfg.strict, body).Some? && (rd.Some? ==> HonestUser(rd.value, body))
      && u == NewUser(cfg, Validated(cfg.strict, body).value, activate, now)
    case UserFlipped(j, status, now) =>
      && ReadsUser(log, j, i) && status in {ACTIVE, DEPROVISIONED}
      && u == log[j].reply.user.(status := status, updatedAt := now)
    case UserEdited(j, body, now) =>
      && ReadsUser(log, j, i) && Validated(cfg.strict, body).Some? && (rd.Some? ==> HonestUser(rd.value, body))
      && var p := Validated(cfg.strict, body).value;
         u == log[j].reply.user.(login := p.login, email := p.email, profile := p.raw, updatedAt := now)
    case _ => false
  }

  predicate GroupMade(cfg: Config, rd: Option<Reader>, log: seq<Event>, i: nat, c: Cause, g: Group)
    requires i < |log|
  {
    match c
    case GroupBuilt(body, now) =>
      && body.GroupFields? && (rd.Some? ==> HonestGroup(rd.value, body))
      && g == Group(NewID(cfg.sha, KIND_GROUP, body.name), body.name, OKTA_GROUP, body.description, body.raw, now)
    case GroupEdited(j, body) =>
      && ReadsGroup(log, j, i) && body.GroupFields? && (rd.Some? ==> HonestGroup(rd.value, body))
      && var x := log[j].reply.group;
         g == x.(name := if body.name == "" then x.name else body.name,
                  description := body.description, profile := body.raw)
    case _ => false
  }

  predicate AppMade(cfg: Config, log: seq<Event>, i: nat, c: Cause, a: App)
    requires i < |log|
  {
    match c
    case AppBuilt(body, now) =>
      && body.AppFields? && body.signOnMode == SAML
      && a == App(NewID(cfg.sha, KIND_APP, body.labelText), FirstNonEmpty(body.name, body.labelText), body.labelText,
                  ACTIVE, body.signOnMode, body.settings, now)
    case AppFlipped(j, status) =>
      ReadsApp(log, j, i) && status in {ACTIVE, INACTIVE} && a == log[j].reply.app.(status := status)
    case AppEdited(j, body) =>
      && ReadsApp(log, j, i) && body.AppFields?
      && var x := log[j].reply.app;
         a == x.(name := FirstNonEmpty(body.name, x.name), labelText := FirstNonEmpty(body.labelText, x.labelText),
                 settings := body.settings)
    case _ => false
  }

  /** Event i is a write or a delete as some handler makes it, or none of a user's, a group's or an app's row. */
  predicate Issued(cfg: Config, rd: Option<Reader>, log: seq<Event>, i: nat, c: Cause)
    requires i < |log|
  {
    match log[i].op
    case OnUsers(CreateUser(u)) => c.UserBuilt? && UserMade(cfg, rd, log, i, c, u)
    case OnUsers(UpdateUser(u)) => !c.UserBuilt? && UserMade(cfg, rd, log, i, c, u)
    case OnUsers(DeleteUser(id)) =>
      && c.UserDropped? && ReadsUser(log, c.j, i) && log[c.j].op == OnUsers(GetUser(id))
      && log[c.j].reply.user.status == DEPROVISIONED
    case OnGroups(CreateGroup(g)) => c.GroupBuilt? && GroupMade(cfg, rd, log, i, c, g)
    case OnGroups(UpdateGroup(g)) => !c.GroupBuilt? && GroupMade(cfg, rd, log, i, c, g)
    case OnApps(CreateApp(a)) => c.AppBuilt? && AppMade(cfg, log, i, c, a)
    case OnApps(UpdateApp(a)) => !c.AppBuilt? && AppMade(cfg, log, i, c, a)
    case OnApps(DeleteApp(id)) =>
      && c.AppDropped? && ReadsApp(log, c.j, i) && id == log[c.j].reply.app.id
      && log[c.j].reply.app.status == INACTIVE
    case _ => true
  }

  predicate FromHandlers(cfg: Config, rd: Option<Reader>, log: seq<Event>, causes: seq<Cause>) {
    |causes| == |log| && forall i | 0 <= i < |log| :: Issued(cfg, rd, log, i, causes[i])
  }

  // What every row keeps.

  predicate UserFine(cfg: Config, rd: Option<Reader>, u: User) {
    && (cfg.strict ==> '@' !in u.id && LooksValid(u.login))
    && (rd.Some? ==> UserAgrees(rd.value, u))
  }

  predicate GroupFine(rd: Option<Reader>, g: Group) { rd.Some? ==> GroupAgrees(rd.value, g) }

  ghost predicate AllFine(cfg: Config, rd: Option<Reader>, m: Rows) {
    && (forall id | id in m.users :: UserFine(cfg, rd, m.users[id]))
    && (forall id | id in m.groups :: GroupFine(rd, m.groups[id]))
    && (forall id | id in m.apps :: AppAgrees(m.apps[id]))
  }

  lemma UserWriteIsFine(cfg: Config, rd: Option<Reader>, m: Rows, u: User)
    requires AllFine(cfg, rd, m) && (Storable(u) ==> UserFine(cfg, rd, u))
    ensures AllFine(cfg, rd, ApplyUser(UserOp.CreateUser(u), m).0)
    ensures AllFine(cfg, rd, ApplyUser(UserOp.UpdateUser(u), m).0)
  {
    hide UserFine, GroupFine, AppAgrees, LoginTaken;
  }

  lemma GroupWriteIsFine(cfg: Config, rd: Option<Reader>, m: Rows, g: Group)
    requires AllFine(cfg, rd, m) && (StorableGroup(g) ==> GroupFine(rd, g))
    ensures AllFine(cfg, rd, ApplyGroup(GroupOp.CreateGroup(g), m).0)
    ensures AllFine(cfg, rd, ApplyGroup(GroupOp.UpdateGroup(g), m).0)
  {
    hide UserFine, GroupFine, AppAgrees, NameTaken;
  }

  lemma AppWriteIsFine(cfg: Config, rd: Option<Reader>, m: Rows, a: App)
    requires AllFine(cfg, rd, m) && AppAgrees(a)
    ensures AllFine(cfg, rd, ApplyApp(AppOp.CreateApp(a), m).0) && AllFine(cfg, rd, ApplyApp(AppOp.UpdateApp(a), m).0)
  {
    hide UserFine, GroupFine, AppAgrees;
  }

  predicate WritesRow(op: Op) {
    match op
    case OnUsers(o) => o.CreateUser? || o.UpdateUser?
    case OnGroups(o) => o.CreateGroup? || o.UpdateGroup?
    case OnApps(o) => o.CreateApp? || o.UpdateApp?
    case _ => false
  }

  lemma OthersStayFine(cfg: Config, rd: Option<Reader>, m: Rows, op: Op)
    requires AllFine(cfg, rd, m) && !WritesRow(op)
    ensures AllFine(cfg, rd, Apply(op, m).0)
  {
    hide UserFine, GroupFine, AppAgrees, InOrder, MembersOf, ByLogin;
  }

  /** What a handler makes of a fine row that it read, or of a request, is fine again once it can be stored. */
  lemma MadeUserIsFine(cfg: Config, rd: Option<Reader>, log: seq<Event>, i: nat, c: Cause, u: User)
    requires i < |log| && UserMade(cfg, rd, log, i, c, u) && Storable(u)
    requires (c.UserFlipped? || c.UserEdited?) ==> UserFine(cfg, rd, log[c.j].reply.user)
    ensures UserFine(cfg, rd, u)
  {
    hide LooksValid;
  }

  lemma MadeGroupIsFine(cfg: Config, rd: Option<Reader>, log: seq<Event>, i: nat, c: Cause, g: Group)
    requires i < |log| && GroupMade(cfg, rd, log, i, c, g)
    requires c.GroupEdited? ==> GroupFine(rd, log[c.j].reply.group)
    ensures GroupFine(rd, g)
  {
    hide NewID;
  }

  lemma MadeAppIsFine(cfg: Config, log: seq<Event>, i: nat, c: Cause, a: App)
    requires i < |log| && AppMade(cfg, log, i, c, a)
    requires (c.AppFlipped? || c.AppEdited?) ==> AppAgrees(log[c.j].reply.app)
    ensures AppAgrees(a)
  {
    hide NewID;
  }

  /** A row that event j read was stored when it was read, and fine. */
  lemma ReadIsFine(cfg: Config, rd: Option<Reader>, log: seq<Event>, j: nat, i: nat)
    requires Truthful(log) && j < i <= |log| && AllFine(cfg, rd, Replay(log[..j]))
    ensures ReadsUser(log, j, i) ==> UserFine(cfg, rd, log[j].reply.user)
    ensures ReadsGroup(log, j, i) ==> GroupFine(rd, log[j].reply.group)
    ensures ReadsApp(log, j, i) ==> AppAgrees(log[j].reply.app)
  {
    hide UserFine, GroupFine, AppAgrees, Replay;
    assert log[j].reply == Apply(log[j].op, Replay(log[..j])).1;
  }

  /** The earlier event a write goes back to, if any. */
  function ReadAt(c: Cause): Option<nat> {
    match c
    case UserFlipped(j, _, _) => Some(j)
    case UserEdited(j, _, _) => Some(j)
    case GroupEdited(j, _) => Some(j)
    case AppFlipped(j, _) => Some(j)
    case AppEdited(j, _) => Some(j)
    case _ => None
  }

  lemma WriteIsFine(cfg: Config, rd: Option<Reader>, log: seq<Event>, i: nat, c: Cause)
    requires Truthful(log) && i < |log| && Issued(cfg, rd, log, i, c) && AllFine(cfg, rd, Replay(log[..i]))
    requires ReadAt(c).Some? && ReadAt(c).value < i ==> AllFine(cfg, rd, Replay(log[..ReadAt(c).value]))
    ensures AllFine(cfg, rd, Apply(log[i].op, Replay(log[..i])).0)
  {
    hide UserFine, GroupFine, AppAgrees, AllFine, Truthful, Replay, UserMade, GroupMade, AppMade, ApplyUser,
         ApplyGroup, ApplyApp;
    var m := Replay(log[..i]);
    if ReadAt(c).Some? && ReadAt(c).value < i { ReadIsFine(cfg, rd, log, ReadAt(c).value, i); }
    match log[i].op
    case OnUsers(CreateUser(u)) => UserWritten(cfg, rd, log, i, c, u);
    case OnUsers(UpdateUser(u)) => UserWritten(cfg, rd, log, i, c, u);
    case OnGroups(CreateGroup(g)) => GroupWritten(cfg, rd, log, i, c, g);
    case OnGroups(UpdateGroup(g)) => GroupWritten(cfg, rd, log, i, c, g);
    case OnApps(CreateApp(a)) => AppWritten(cfg, rd, log, i, c, a);
    case OnApps(UpdateApp(a)) => AppWritten(cfg, rd, log, i, c, a);
    case _ => OthersStayFine(cfg, rd, m, log[i].op);
  }

  /** The row the cause goes back to is fine. */
  predicate ReadFine(cfg: Config, rd: Option<Reader>, log: seq<Event>, i: nat, c: Cause) {
    ReadAt(c).Some? && ReadAt(c).value < i <= |log| ==>
      var j := ReadAt(c).value;
      && (ReadsUser(log, j, i) ==> UserFine(cfg, rd, log[j].reply.user))
      && (ReadsGroup(log, j, i) ==> GroupFine(rd, log[j].reply.group))
      && (ReadsApp(log, j, i) ==> AppAgrees(log[j].reply.app))
  }

  lemma UserWritten(cfg: Config, rd: Option<Reader>, log: seq<Event>, i: nat, c: Cause, u: User)
    requires i < |log| && UserMade(cfg, rd, log, i, c, u) && ReadFine(cfg, rd, log, i, c)
    requires AllFine(cfg, rd, Replay(log[..i]))
    ensures AllFine(cfg, rd, ApplyUser(UserOp.CreateUser(u), Replay(log[..i])).0)
    ensures AllFine(cfg, rd, ApplyUser(UserOp.UpdateUser(u), Replay(log[..i])).0)
  {
    hide UserFine, GroupFine, AppAgrees, AllFine, Replay, ApplyUser, NewUser, Validated;
    if Storable(u) { MadeUserIsFine(cfg, rd, log, i, c, u); }
    UserWriteIsFine(cfg, rd, Replay(log[..i]), u);
  }

  lemma GroupWritten(cfg: Config, rd: Option<Reader>, log: seq<Event>, i: nat, c: Cause, g: Group)
    requires i < |log| && GroupMade(cfg, rd, log, i, c, g) && ReadFine(cfg, rd, log, i, c)
    requires AllFine(cfg, rd, Replay(log[..i]))
    ensures AllFine(cfg, rd, ApplyGroup(GroupOp.CreateGroup(g), Replay(log[..i])).0)
    ensures AllFine(cfg, rd, ApplyGroup(GroupOp.UpdateGroup(g), Replay(log[..i])).0)
  {
    hide UserFine, GroupFine, AppAgrees, AllFine, Replay, ApplyGroup, NewID;
    MadeGroupIsFine(cfg, rd, log, i, c, g);
    GroupWriteIsFine(cfg, rd, Replay(log[..i]), g);
  }

  lemma AppWritten(cfg: Config, rd: Option<Reader>, log: seq<Event>, i: nat, c: Cause, a: App)
    requires i < |log| && AppMade(cfg, log, i, c, a) && ReadFine(cfg, rd, log, i, c)
    requires AllFine(cfg, rd, Replay(log[..i]))
    ensures AllFine(cfg, rd, ApplyApp(AppOp.CreateApp(a), Replay(log[..i])).0)
    ensures AllFine(cfg, rd, ApplyApp(AppOp.UpdateApp(a), Replay(log[..i])).0)
  {
    hide UserFine, GroupFine, AppAgrees, AllFine, Replay, ApplyApp, NewID;
    MadeAppIsFine(cfg, log, i, c, a);
    AppWriteIsFine(cfg, rd, Replay(log[..i]), a);
  }

  lemma {:induction false} PrefixesAreFine(cfg: Config, rd: Option<Reader>, log: seq<Event>, causes: seq<Cause>, n: nat)
    requires Truthful(log) && FromHandlers(cfg, rd, log, causes) && n <= |log|
    ensures AllFine(cfg, rd, Replay(log[..n]))
    decreases n
  {
    hide AllFine, Truthful, Issued, Apply;
    if n == 0 {
      NothingIsFine(cfg, rd);
    } else {
      var i := n - 1;
      PrefixesAreFine(cfg, rd, log, causes, i);
      var c := causes[i];
      if ReadAt(c).Some? && ReadAt(c).value < i { PrefixesAreFine(cfg, rd, log, causes, ReadAt(c).value); }
      WriteIsFine(cfg, rd, log, i, c);
      assert log[..n][..i] == log[..i] && log[..n][i] == log[i];
    }
  }

  lemma NothingIsFine(cfg: Config, rd: Option<Reader>)
    ensures AllFine(cfg, rd, NOTHING)
  {
  }

  lemma StrictNames(cfg: Config, m: Rows, key: string)
    requires cfg.strict && Model.Inv(m) && AllFine(cfg, None, m)
    ensures key in m.users ==> ByLogin(m, key).None?
    ensures !Clash(m)
  {
    hide LooksValid;
    forall id | id in m.users ensures '@' in m.users[id].login && '@' !in id {
      LooksValidIff(m.users[id].login);
      assert UserFine(cfg, None, m.users[id]);
    }
  }

  /** Call a returned Done, call b took effect later, and nothing removed the row in between. */
  predicate TakesEffectAfter(kind: Kind, s: State, a: nat, b: nat, id: string) {
    && a in s.calls && s.calls[a].phase == Returned(Done) && s.calls[a].effect.Some?
    && b in s.calls && s.calls[b].phase.Returned? && s.calls[b].effect.Some?
    && s.calls[a].effect.value < s.calls[b].effect.value <= |s.log|
    && Spared(kind, s.log[..s.calls[b].effect.value], s.calls[a].effect.value + 1, id)
  }

  /**
    The login a user was created with stays refused to creations under every interleaving,
    whatever renames come in between, until that user is deleted or the store is reset.
  */
  lemma OriginalLoginStaysTaken(cfg: Config, moves: seq<Move>, a: nat, b: nat, p: UserBody, q: UserBody,
                                early: bool, late: bool, first: nat, second: nat)
    requires CanRun(INIT, moves) && p.UserProfile? && q.UserProfile? && p.login == q.login
    requires TakesEffectAfter(AUser, Run(INIT, moves), a, b, NewID(cfg.sha, KIND_USER, p.login))
    requires Run(INIT, moves).calls[a].op == OnUsers(UserOp.CreateUser(NewUser(cfg, p, early, first)))
    requires Run(INIT, moves).calls[b].op == OnUsers(UserOp.CreateUser(NewUser(cfg, q, late, second)))
    ensures Run(INIT, moves).calls[b].phase.reply == Conflict
  {
    hide NewID, Spared, CanRun, Run, Do, Enabled;
    TakenIdIsRefusedInRuns(AUser, moves, a, b, NewID(cfg.sha, KIND_USER, p.login));
  }

  /** The same for groups and the name they were created with. */
  lemma OriginalNameStaysTaken(cfg: Config, moves: seq<Move>, a: nat, b: nat, g: Group, h: Group, name: string)
    requires CanRun(INIT, moves) && g.id == h.id == NewID(cfg.sha, KIND_GROUP, name)
    requires TakesEffectAfter(AGroup, Run(INIT, moves), a, b, NewID(cfg.sha, KIND_GROUP, name))
    requires Run(INIT, moves).calls[a].op == OnGroups(GroupOp.CreateGroup(g))
    requires Run(INIT, moves).calls[b].op == OnGroups(GroupOp.CreateGroup(h))
    ensures Run(INIT, moves).calls[b].phase.reply == Conflict
  {
    hide NewID, Spared, CanRun, Run, Do, Enabled;
    TakenIdIsRefusedInRuns(AGroup, moves, a, b, NewID(cfg.sha, KIND_GROUP, name));
  }
}
