/**
  What overlapping requests can do to a row's status: a write puts back what its request
  read. A PUT keeps the status, and only DEPROVISIONED users and INACTIVE apps are removed,
  exactly as far as the row was not last written with another status since the read.
*/
module Overlap {
  import opened Concurrency
  import opened Interleaved
  import opened Model
  import opened Profiles
  import opened Requests
  import opened Schemas
  import opened Traces
  import opened Wrappers

  /** Operations that can change one user's row. */
  predicate TouchesUser(op: Op, id: string) {
    match op
    case OnUsers(CreateUser(u)) => u.id == id
    case OnUsers(UpdateUser(u)) => u.id == id
    case OnUsers(DeleteUser(k)) => k == id
    case Reset => true
    case _ => false
  }

  predicate TouchesApp(op: Op, id: string) {
    match op
    case OnApps(CreateApp(a)) => a.id == id
    case OnApps(UpdateApp(a)) => a.id == id
    case OnApps(DeleteApp(k)) => k == id
    case Reset => true
    case _ => false
  }

  predicate SameUser(m: Rows, m': Rows, id: string) {
    (id in m.users <==> id in m'.users) && (id in m.users ==> m'.users[id] == m.users[id])
  }

  predicate SameApp(m: Rows, m': Rows, id: string) {
    (id in m.apps <==> id in m'.apps) && (id in m.apps ==> m'.apps[id] == m.apps[id])
  }

  lemma UserOpsLeave(o: UserOp, m: Rows, id: string)
    ensures !TouchesUser(OnUsers(o), id) ==> SameUser(m, ApplyUser(o, m).0, id)
    ensures SameApp(m, ApplyUser(o, m).0, id)
  {
    hide InOrder, ByLogin, LoginTaken, Limited;
  }

  lemma AppOpsLeave(o: AppOp, m: Rows, id: string)
    ensures !TouchesApp(OnApps(o), id) ==> SameApp(m, ApplyApp(o, m).0, id)
    ensures SameUser(m, ApplyApp(o, m).0, id)
  {
    hide InOrder, Limited;
  }

  lemma OthersLeaveUser(op: Op, m: Rows, id: string)
    requires !TouchesUser(op, id)
    ensures SameUser(m, Apply(op, m).0, id)
  {
    hide InOrder, MembersOf, NameTaken, Limited, ApplyUser, ApplyApp;
    match op
    case OnUsers(o) => UserOpsLeave(o, m, id);
    case OnApps(o) => AppOpsLeave(o, m, id);
    case _ =>
  }

  lemma OthersLeaveApp(op: Op, m: Rows, id: string)
    requires !TouchesApp(op, id)
    ensures SameApp(m, Apply(op, m).0, id)
  {
    hide InOrder, MembersOf, NameTaken, Limited, ApplyUser, ApplyApp;
    match op
    case OnUsers(o) => UserOpsLeave(o, m, id);
    case OnApps(o) => AppOpsLeave(o, m, id);
    case _ =>
  }

  lemma ReplayNext(log: seq<Event>, i: nat)
    requires i < |log|
    ensures Replay(log[..i + 1]) == Apply(log[i].op, Replay(log[..i])).0
  {
    assert log[..i + 1][..i] == log[..i];
  }

  lemma {:induction false} UntouchedUserStays(log: seq<Event>, j: nat, i: nat, id: string)
    requires j <= i <= |log| && forall k | j <= k < i :: !TouchesUser(log[k].op, id)
    ensures SameUser(Replay(log[..j]), Replay(log[..i]), id)
    decreases i
  {
    hide Apply, Replay;
    if j < i {
      UntouchedUserStays(log, j, i - 1, id);
      ReplayNext(log, i - 1);
      OthersLeaveUser(log[i - 1].op, Replay(log[..i - 1]), id);
    }
  }

  lemma {:induction false} UntouchedAppStays(log: seq<Event>, j: nat, i: nat, id: string)
    requires j <= i <= |log| && forall k | j <= k < i :: !TouchesApp(log[k].op, id)
    ensures SameApp(Replay(log[..j]), Replay(log[..i]), id)
    decreases i
  {
    hide Apply, Replay;
    if j < i {
      UntouchedAppStays(log, j, i - 1, id);
      ReplayNext(log, i - 1);
      OthersLeaveApp(log[i - 1].op, Replay(log[..i - 1]), id);
    }
  }

  /** A read saw the stored row, under its own ID. */
  lemma ReadUserIsStored(log: seq<Event>, j: nat, i: nat)
    requires Truthful(log) && ReadsUser(log, j, i)
    ensures var (m, u) := (Replay(log[..j]), log[j].reply.user);
            && u.id in m.users && m.users[u.id] == u && log[j].op == OnUsers(UserOp.GetUser(u.id))
  {
    hide Replay;
    assert log[j].reply == Apply(log[j].op, Replay(log[..j])).1;
    ReplayKeepsRows(log[..j]);
  }

  lemma ReadAppIsStored(log: seq<Event>, j: nat, i: nat)
    requires Truthful(log) && ReadsApp(log, j, i)
    ensures var (m, a) := (Replay(log[..j]), log[j].reply.app);
            && a.id in m.apps && m.apps[a.id] == a && log[j].op == OnApps(AppOp.GetApp(a.id))
  {
    hide Replay;
    assert log[j].reply == Apply(log[j].op, Replay(log[..j])).1;
    ReplayKeepsRows(log[..j]);
  }

  /** The event wrote this user's row. */
  predicate WritesUser(e: Event, id: string) {
    e.reply == Done && e.op.OnUsers? && (e.op.users.CreateUser? || e.op.users.UpdateUser?) && e.op.users.user.id == id
  }

  predicate RemovesUser(e: Event, id: string) {
    e.op.Reset? || (e.reply == Done && e.op == OnUsers(UserOp.DeleteUser(id)))
  }

  /** Event w, after j and before i, is the last that wrote the row, and nothing removed it since. */
  predicate LastUserWrite(log: seq<Event>, j: nat, w: nat, i: nat, id: string) {
    && j < w < i <= |log| && WritesUser(log[w], id)
    && forall l | w < l < i :: !WritesUser(log[l], id) && !RemovesUser(log[l], id)
  }

  lemma UserNext(log: seq<Event>, i: nat, id: string)
    requires Truthful(log) && i < |log|
    ensures WritesUser(log[i], id) ==>
              id in Replay(log[..i + 1]).users && Replay(log[..i + 1]).users[id] == log[i].op.users.user
    ensures RemovesUser(log[i], id) ==> id !in Replay(log[..i + 1]).users
    ensures !WritesUser(log[i], id) && !RemovesUser(log[i], id) ==> SameUser(Replay(log[..i]), Replay(log[..i + 1]), id)
  {
    hide Replay, InOrder, MembersOf, ByLogin, LoginTaken, NameTaken, Limited;
    ReplayNext(log, i);
    assert log[i].reply == Apply(log[i].op, Replay(log[..i])).1;
    if !TouchesUser(log[i].op, id) { OthersLeaveUser(log[i].op, Replay(log[..i]), id); }
  }

  /** The row at event i is as the last write since j left it, or if there is none as it was after j. */
  lemma {:induction false} UserSince(log: seq<Event>, j: nat, i: nat, id: string)
    requires Truthful(log) && j < i <= |log| && id in Replay(log[..i]).users
    ensures forall w: nat | LastUserWrite(log, j, w, i, id) :: Replay(log[..i]).users[id] == log[w].op.users.user
    ensures (exists w: nat :: LastUserWrite(log, j, w, i, id)) || SameUser(Replay(log[..j + 1]), Replay(log[..i]), id)
    decreases i
  {
    hide Replay, WritesUser, RemovesUser, Truthful;
    if j + 1 < i {
      var e := i - 1;
      UserNext(log, e, id);
      if WritesUser(log[e], id) {
        assert LastUserWrite(log, j, e, i, id);
        forall w: nat | LastUserWrite(log, j, w, i, id) ensures w == e { }
      } else {
        UserSince(log, j, e, id);
        forall w: nat ensures LastUserWrite(log, j, w, i, id) <==> LastUserWrite(log, j, w, e, id) { }
      }
    }
  }

  /** Since event j the user was written, and last with another status than this. */
  ghost predicate UserRestated(log: seq<Event>, j: nat, i: nat, id: string, status: string) {
    exists w: nat :: LastUserWrite(log, j, w, i, id) && log[w].op.users.user.status != status
  }

  /** The event wrote this app's row. */
  predicate WritesApp(e: Event, id: string) {
    e.reply == Done && e.op.OnApps? && (e.op.apps.CreateApp? || e.op.apps.UpdateApp?) && e.op.apps.app.id == id
  }

  predicate RemovesApp(e: Event, id: string) {
    e.op.Reset? || (e.reply == Done && e.op == OnApps(AppOp.DeleteApp(id)))
  }

  /** Event w, after j and before i, is the last that wrote the row, and nothing removed it since. */
  predicate LastAppWrite(log: seq<Event>, j: nat, w: nat, i: nat, id: string) {
    && j < w < i <= |log| && WritesApp(log[w], id)
    && forall l | w < l < i :: !WritesApp(log[l], id) && !RemovesApp(log[l], id)
  }

  lemma AppNext(log: seq<Event>, i: nat, id: string)
    requires Truthful(log) && i < |log|
    ensures WritesApp(log[i], id) ==>
              id in Replay(log[..i + 1]).apps && Replay(log[..i + 1]).apps[id] == log[i].op.apps.app
    ensures RemovesApp(log[i], id) ==> id !in Replay(log[..i + 1]).apps
    ensures !WritesApp(log[i], id) && !RemovesApp(log[i], id) ==> SameApp(Replay(log[..i]), Replay(log[..i + 1]), id)
  {
    hide Replay, InOrder, MembersOf, ByLogin, LoginTaken, NameTaken, Limited;
    ReplayNext(log, i);
    assert log[i].reply == Apply(log[i].op, Replay(log[..i])).1;
    if !TouchesApp(log[i].op, id) { OthersLeaveApp(log[i].op, Replay(log[..i]), id); }
  }

  /** The row at event i is as the last write since j left it, or if there is none as it was after j. */
  lemma {:induction false} AppSince(log: seq<Event>, j: nat, i: nat, id: string)
    requires Truthful(log) && j < i <= |log| && id in Replay(log[..i]).apps
    ensures forall w: nat | LastAppWrite(log, j, w, i, id) :: Replay(log[..i]).apps[id] == log[w].op.apps.app
    ensures (exists w: nat :: LastAppWrite(log, j, w, i, id)) || SameApp(Replay(log[..j + 1]), Replay(log[..i]), id)
    decreases i
  {
    hide Replay, WritesApp, RemovesApp, Truthful;
    if j + 1 < i {
      var e := i - 1;
      AppNext(log, e, id);
      if WritesApp(log[e], id) {
        assert LastAppWrite(log, j, e, i, id);
        forall w: nat | LastAppWrite(log, j, w, i, id) ensures w == e { }
      } else {
        AppSince(log, j, e, id);
        forall w: nat ensures LastAppWrite(log, j, w, i, id) <==> LastAppWrite(log, j, w, e, id) { }
      }
    }
  }

  /** Since event j the app was written, and last with another status than this. */
  ghost predicate AppRestated(log: seq<Event>, j: nat, i: nat, id: string, status: string) {
    exists w: nat :: LastAppWrite(log, j, w, i, id) && log[w].op.apps.app.status != status
  }

  /** What an accepted update leaves. */
  lemma UpdatedRow(log: seq<Event>, i: nat, u: User)
    requires Truthful(log) && i < |log| && log[i].op == OnUsers(UserOp.UpdateUser(u)) && log[i].reply == Done
    ensures u.id in Replay(log[..i]).users
    ensures Replay(log[..i + 1]).users == Replay(log[..i]).users[u.id := u]
  {
    hide Replay, LoginTaken;
    ReplayNext(log, i);
    assert log[i].reply == Apply(log[i].op, Replay(log[..i])).1;
  }

  lemma DeletedRow(log: seq<Event>, i: nat, id: string)
    requires Truthful(log) && i < |log| && log[i].reply == Done
    requires log[i].op == OnUsers(UserOp.DeleteUser(id)) || log[i].op == OnApps(AppOp.DeleteApp(id))
    ensures log[i].op.OnUsers? ==> id in Replay(log[..i]).users && id !in Replay(log[..i + 1]).users
    ensures log[i].op.OnApps? ==> id in Replay(log[..i]).apps && id !in Replay(log[..i + 1]).apps
  {
    hide Replay;
    ReplayNext(log, i);
    assert log[i].reply == Apply(log[i].op, Replay(log[..i])).1;
  }

  /**
    An accepted PUT, written at event i from a read at event j, changes the user's status if
    and only if between the two the row was written, and last with another status.
  */
  lemma PutChangesStatusIff(cfg: Config, rd: Option<Reader>, log: seq<Event>, causes: seq<Cause>, i: nat, u: User)
    requires Truthful(log) && FromHandlers(cfg, rd, log, causes) && i < |log|
    requires log[i].op == OnUsers(UserOp.UpdateUser(u)) && log[i].reply == Done && causes[i].UserEdited?
    ensures var j := causes[i].j;
            && j < i
            && var (read, before) := (Replay(log[..j]).users, Replay(log[..i]).users);
               var after := Replay(log[..i + 1]).users;
               && u.id in read && u.id in before && u.id in after && after[u.id].status == read[u.id].status
               && (after[u.id].status != before[u.id].status <==> UserRestated(log, j, i, u.id, read[u.id].status))
  {
    hide Replay, Truthful, LastUserWrite;
    assert Issued(cfg, rd, log, i, causes[i]);
    ReadUserIsStored(log, causes[i].j, i);
    UpdatedRow(log, i, u);
    RestatedSince(log, causes[i].j, i, u.id);
  }

  /** From a read at event j on, a stored user's status is another one exactly when it was so restated. */
  lemma RestatedSince(log: seq<Event>, j: nat, i: nat, id: string)
    requires Truthful(log) && j < i <= |log| && log[j].op == OnUsers(UserOp.GetUser(id))
    requires id in Replay(log[..j]).users && id in Replay(log[..i]).users
    ensures var status := Replay(log[..j]).users[id].status;
            Replay(log[..i]).users[id].status != status <==> UserRestated(log, j, i, id, status)
  {
    hide Replay, Truthful, LastUserWrite;
    UserSince(log, j, i, id);
    UntouchedUserStays(log, j, j + 1, id);
  }

  lemma RestatedAppSince(log: seq<Event>, j: nat, i: nat, id: string)
    requires Truthful(log) && j < i <= |log| && log[j].op == OnApps(AppOp.GetApp(id))
    requires id in Replay(log[..j]).apps && id in Replay(log[..i]).apps
    ensures var status := Replay(log[..j]).apps[id].status;
            Replay(log[..i]).apps[id].status != status <==> AppRestated(log, j, i, id, status)
  {
    hide Replay, Truthful, LastAppWrite;
    AppSince(log, j, i, id);
    UntouchedAppStays(log, j, j + 1, id);
  }

  /**
    A DELETE removes a user that is not DEPROVISIONED if and only if, since the DELETE read
    it as DEPROVISIONED, the row was written, and last with another status.
  */
  lemma DropsLiveUserIff(cfg: Config, rd: Option<Reader>, log: seq<Event>, causes: seq<Cause>, i: nat, id: string)
    requires Truthful(log) && FromHandlers(cfg, rd, log, causes) && i < |log|
    requires log[i].op == OnUsers(UserOp.DeleteUser(id)) && log[i].reply == Done
    ensures causes[i].UserDropped? && causes[i].j < i
    ensures id in Replay(log[..i]).users && id !in Replay(log[..i + 1]).users
    ensures Replay(log[..i]).users[id].status != DEPROVISIONED <==> UserRestated(log, causes[i].j, i, id, DEPROVISIONED)
  {
    hide Replay, Truthful, LastUserWrite;
    assert Issued(cfg, rd, log, i, causes[i]);
    ReadUserIsStored(log, causes[i].j, i);
    DeletedRow(log, i, id);
    RestatedSince(log, causes[i].j, i, id);
  }

  /** The same for an app that is not INACTIVE. */
  lemma DropsLiveAppIff(cfg: Config, rd: Option<Reader>, log: seq<Event>, causes: seq<Cause>, i: nat, id: string)
    requires Truthful(log) && FromHandlers(cfg, rd, log, causes) && i < |log|
    requires log[i].op == OnApps(AppOp.DeleteApp(id)) && log[i].reply == Done
    ensures causes[i].AppDropped? && causes[i].j < i
    ensures id in Replay(log[..i]).apps && id !in Replay(log[..i + 1]).apps
    ensures Replay(log[..i]).apps[id].status != INACTIVE <==> AppRestated(log, causes[i].j, i, id, INACTIVE)
  {
    hide Replay, Truthful, LastAppWrite;
    assert Issued(cfg, rd, log, i, causes[i]);
    ReadAppIsStored(log, causes[i].j, i);
    DeletedRow(log, i, id);
    RestatedAppSince(log, causes[i].j, i, id);
  }

  /** An accepted PUT of this user that read STAGED or PROVISIONED. */
  ghost predicate StalePut(log: seq<Event>, causes: seq<Cause>, i: nat, id: string)
    requires i < |log| && |causes| == |log|
  {
    && log[i].op.OnUsers? && log[i].op.users.UpdateUser? && log[i].op.users.user.id == id && log[i].reply == Done
    && causes[i].UserEdited? && causes[i].j < i
    && id in Replay(log[..causes[i].j]).users && Fresh(Replay(log[..causes[i].j]).users[id].status)
  }

  /**
    A live user that is neither STAGED nor PROVISIONED becomes so again at event i if and
    only if that is an accepted PUT whose read still saw it so; since the read the row was
    then written with another status.
  */
  lemma FreshAgainIff(cfg: Config, rd: Option<Reader>, log: seq<Event>, causes: seq<Cause>, i: nat, id: string)
    requires Truthful(log) && FromHandlers(cfg, rd, log, causes) && i < |log|
    requires id in Replay(log[..i]).users && !Fresh(Replay(log[..i]).users[id].status)
    ensures (id in Replay(log[..i + 1]).users && Fresh(Replay(log[..i + 1]).users[id].status))
       <==> StalePut(log, causes, i, id)
    ensures StalePut(log, causes, i, id) ==>
              UserRestated(log, causes[i].j, i, id, Replay(log[..causes[i].j]).users[id].status)
  {
    hide Replay, Truthful, LastUserWrite, Apply;
    assert Issued(cfg, rd, log, i, causes[i]);
    ReplayNext(log, i);
    if log[i].op.OnUsers? && log[i].op.users.UpdateUser? && log[i].op.users.user.id == id && log[i].reply == Done {
      UpdatedRow(log, i, log[i].op.users.user);
      ReadUserIsStored(log, causes[i].j, i);
      if ReadsUser(log, causes[i].j, i) { RestatedSince(log, causes[i].j, i, id); }
    } else {
      QuietForFresh(log, i, id);
    }
  }

  /** Any other event leaves the row's status, or removes the row. */
  lemma QuietForFresh(log: seq<Event>, i: nat, id: string)
    requires Truthful(log) && i < |log| && id in Replay(log[..i]).users
    requires !(log[i].op.OnUsers? && log[i].op.users.UpdateUser? && log[i].op.users.user.id == id
               && log[i].reply == Done)
    ensures id in Replay(log[..i + 1]).users ==> Replay(log[..i + 1]).users[id] == Replay(log[..i]).users[id]
  {
    hide Replay, InOrder, MembersOf, ByLogin, LoginTaken, NameTaken, Limited;
    ReplayNext(log, i);
    assert log[i].reply == Apply(log[i].op, Replay(log[..i])).1;
    if !TouchesUser(log[i].op, id) { OthersLeaveUser(log[i].op, Replay(log[..i]), id); }
  }
}
