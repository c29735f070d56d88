/**
  The store as its callers see it: a record of maps, and each store operation as one
  atomic step on that record.
*/
module Model {
  import opened Wrappers
  import opened Ordering
  import opened MemDB
  import opened Schemas

  datatype Rows = Rows(users: map<string, User>, groups: map<string, Group>, apps: map<string, App>,
                       members: map<Pair, Membership>, audit: map<nat, AuditEntry>)

  const NOTHING := Rows(map[], map[], map[], map[], map[])

  function View(d: Db): Rows {
    Rows(d.users.rows, d.groups.rows, d.apps.rows, d.members.rows, d.audit.rows)
  }

  datatype UserOp =
    | CreateUser(user: User) | GetUser(id: string) | GetUserByLogin(login: string)
    | UpdateUser(user: User) | DeleteUser(id: string) | ListUsers(limit: int)

  datatype GroupOp =
    | CreateGroup(group: Group) | GetGroup(id: string) | UpdateGroup(group: Group)
    | DeleteGroup(id: string) | ListGroups(limit: int)

  datatype MemberOp =
    | AddMembership(row: Membership) | RemoveMembership(gid: string, uid: string) | ListMembers(gid: string)

  datatype AppOp =
    | CreateApp(app: App) | GetApp(id: string) | UpdateApp(app: App) | DeleteApp(id: string) | ListApps(limit: int)

  datatype Op =
    | OnUsers(users: UserOp) | OnGroups(groups: GroupOp) | OnMembers(members: MemberOp) | OnApps(apps: AppOp)
    | InsertAudit(entry: AuditEntry) | ReadGap(gapId: string) | ReadGaps
    | Reset

  datatype Reply =
    | Done | NotFound | Conflict | Internal
    | OneUser(user: User) | OneGroup(group: Group) | OneApp(app: App)
    | ManyUsers(users: seq<User>) | ManyGroups(groups: seq<Group>) | ManyApps(apps: seq<App>)
    | ManyMembers(rows: seq<Membership>)
    | ManyEntries(entries: seq<AuditEntry>) | ManyGaps(gaps: seq<string>)

  predicate Storable(u: User) { u.id != "" && u.login != "" && u.email != "" }

  predicate StorableGroup(g: Group) { g.id != "" && g.name != "" && g.kind != "" }

  predicate StorableApp(a: App) { a.id != "" && a.labelText != "" && a.signOnMode != "" }

  /** A user other than id holds the login. */
  predicate LoginTaken(m: Rows, login: string, id: string) {
    exists k | k in m.users && k != id :: m.users[k].login == login
  }

  predicate NameTaken(m: Rows, name: string, id: string) {
    exists k | k in m.groups && k != id :: m.groups[k].name == name
  }

  ghost function ByLogin(m: Rows, login: string): Option<User> {
    if exists k :: k in m.users && m.users[k].login == login
    then var k :| k in m.users && m.users[k].login == login; Some(m.users[k])
    else None
  }

  function InOrder<R>(rows: map<string, R>): (s: seq<R>)
    ensures |s| == |rows|
  {
    var ks := SortedKeys(rows.Keys);
    seq(|ks|, i requires 0 <= i < |ks| => assert ks[i] in ks; rows[ks[i]])
  }

  function Limited<R>(s: seq<R>, limit: int): seq<R> {
    if 0 < limit < |s| then s[..limit] else s
  }

  function MemberIds(m: Rows, gid: string): set<string> {
    set k | k in m.members && k.0 == gid :: k.1
  }

  /** The memberships of one group, in order of user ID. */
  function MembersOf(m: Rows, gid: string): (s: seq<Membership>)
    ensures |s| == |MemberIds(m, gid)|
  {
    var ids := SortedKeys(MemberIds(m, gid));
    seq(|ids|, i requires 0 <= i < |ids| => assert ids[i] in ids; m.members[(gid, ids[i])])
  }

  function GapIds(m: Rows): set<string> {
    set n | n in m.audit && m.audit[n].gapId != "" :: m.audit[n].gapId
  }

  function EntriesOfGap(m: Rows, g: string): set<nat> {
    set n | n in m.audit && m.audit[n].gapId == g
  }

  /** The entries with one gap ID, in order of number. */
  function GapEntries(m: Rows, g: string): seq<AuditEntry> {
    if g == "" then []
    else
      var ids := SortedNats(EntriesOfGap(m, g));
      seq(|ids|, i requires 0 <= i < |ids| => assert ids[i] in ids; m.audit[ids[i]])
  }

  function WithoutUser(m: Rows, id: string): Rows {
    m.(users := m.users - {id}, members := map k | k in m.members && k.1 != id :: m.members[k])
  }

  function WithoutGroup(m: Rows, id: string): Rows {
    m.(groups := m.groups - {id}, members := map k | k in m.members && k.0 != id :: m.members[k])
  }

  ghost function ApplyUser(op: UserOp, m: Rows): (Rows, Reply) {
    match op
    case CreateUser(u) =>
      if u.id in m.users || LoginTaken(m, u.login, u.id) then (m, Conflict)
      else if !Storable(u) then (m, Internal)
      else (m.(users := m.users[u.id := u]), Done)
    case GetUser(id) => (m, if id in m.users then OneUser(m.users[id]) else NotFound)
    case GetUserByLogin(login) =>
      (m, if ByLogin(m, login).Some? then OneUser(ByLogin(m, login).value) else NotFound)
    case UpdateUser(u) =>
      if u.id !in m.users then (m, NotFound)
      else if LoginTaken(m, u.login, u.id) then (m, Conflict)
      else if !Storable(u) then (m, Internal)
      else (m.(users := m.users[u.id := u]), Done)
    case DeleteUser(id) => if id in m.users then (WithoutUser(m, id), Done) else (m, NotFound)
    case ListUsers(limit) => (m, ManyUsers(Limited(InOrder(m.users), limit)))
  }

  function ApplyGroup(op: GroupOp, m: Rows): (Rows, Reply) {
    match op
    case CreateGroup(g) =>
      if g.id in m.groups || NameTaken(m, g.name, g.id) then (m, Conflict)
      else if !StorableGroup(g) then (m, Internal)
      else (m.(groups := m.groups[g.id := g]), Done)
    case GetGroup(id) => (m, if id in m.groups then OneGroup(m.groups[id]) else NotFound)
    case UpdateGroup(g) =>
      if g.id !in m.groups then (m, NotFound)
      else if NameTaken(m, g.name, g.id) then (m, Conflict)
      else if !StorableGroup(g) then (m, Internal)
      else (m.(groups := m.groups[g.id := g]), Done)
    case DeleteGroup(id) => if id in m.groups then (WithoutGroup(m, id), Done) else (m, NotFound)
    case ListGroups(limit) => (m, ManyGroups(Limited(InOrder(m.groups), limit)))
  }

  function ApplyMember(op: MemberOp, m: Rows): (Rows, Reply) {
    match op
    case AddMembership(r) =>
      if r.groupId !in m.groups || r.userId !in m.users then (m, NotFound)
      else (m.(members := m.members[(r.groupId, r.userId) := r]), Done)
    case RemoveMembership(gid, uid) =>
      if (gid, uid) !in m.members then (m, NotFound)
      else (m.(members := m.members - {(gid, uid)}), Done)
    case ListMembers(gid) => (m, ManyMembers(MembersOf(m, gid)))
  }

  function ApplyApp(op: AppOp, m: Rows): (Rows, Reply) {
    match op
    case CreateApp(a) =>
      if a.id in m.apps then (m, Conflict)
      else if !StorableApp(a) then (m, Internal)
      else (m.(apps := m.apps[a.id := a]), Done)
    case GetApp(id) => (m, if id in m.apps then OneApp(m.apps[id]) else NotFound)
    case UpdateApp(a) =>
      if a.id !in m.apps then (m, NotFound)
      else if !StorableApp(a) then (m, Internal)
      else (m.(apps := m.apps[a.id := a]), Done)
    case DeleteApp(id) => if id in m.apps then (m.(apps := m.apps - {id}), Done) else (m, NotFound)
    case ListApps(limit) => (m, ManyApps(Limited(InOrder(m.apps), limit)))
  }

  /** What each operation does to the rows, and what it answers. */
  ghost function Apply(op: Op, m: Rows): (Rows, Reply) {
    match op
    case OnUsers(o) => ApplyUser(o, m)
    case OnGroups(o) => ApplyGroup(o, m)
    case OnMembers(o) => ApplyMember(o, m)
    case OnApps(o) => ApplyApp(o, m)
    case InsertAudit(e) => (m.(audit := m.audit[e.id := e]), Done)
    case ReadGap(g) => (m, ManyEntries(GapEntries(m, g)))
    case ReadGaps => (m, ManyGaps(SortedKeys(GapIds(m))))
    case Reset => (NOTHING, Done)
  }

  ghost predicate LoginsDiffer(m: Rows) {
    forall a, b | a in m.users && b in m.users && m.users[a].login == m.users[b].login :: a == b
  }

  ghost predicate NamesDiffer(m: Rows) {
    forall a, b | a in m.groups && b in m.groups && m.groups[a].name == m.groups[b].name :: a == b
  }

  /** Each membership joins a stored group and a stored user. */
  ghost predicate NoDanglingMembers(m: Rows) {
    forall k | k in m.members :: k.0 in m.groups && k.1 in m.users
  }

  ghost predicate RowsKeyed(m: Rows) {
    && (forall id | id in m.users :: m.users[id].id == id && Storable(m.users[id]))
    && (forall id | id in m.groups :: m.groups[id].id == id && StorableGroup(m.groups[id]))
    && (forall id | id in m.apps :: m.apps[id].id == id && StorableApp(m.apps[id]))
    && (forall k | k in m.members :: (m.members[k].groupId, m.members[k].userId) == k && k.0 != "" && k.1 != "")
    && (forall n | n in m.audit :: m.audit[n].id == n)
  }

  ghost predicate Inv(m: Rows) {
    RowsKeyed(m) && LoginsDiffer(m) && NamesDiffer(m) && NoDanglingMembers(m)
  }

  lemma PutUserKeepsInv(m: Rows, u: User)
    requires Inv(m) && Storable(u) && !LoginTaken(m, u.login, u.id)
    ensures Inv(m.(users := m.users[u.id := u]))
  {
  }

  lemma PutGroupKeepsInv(m: Rows, g: Group)
    requires Inv(m) && StorableGroup(g) && !NameTaken(m, g.name, g.id)
    ensures Inv(m.(groups := m.groups[g.id := g]))
  {
  }

  lemma ChangeMembersKeepsInv(m: Rows, m': Rows)
    requires Inv(m) && m' == m.(users := m'.users, groups := m'.groups, members := m'.members)
    requires forall id | id in m'.users :: id in m.users && m'.users[id] == m.users[id]
    requires forall id | id in m'.groups :: id in m.groups && m'.groups[id] == m.groups[id]
    requires forall k | k in m'.members ::
               && (m'.members[k].groupId, m'.members[k].userId) == k
               && k.0 in m'.groups && k.1 in m'.users
    ensures Inv(m')
  {
  }

  lemma WithoutUserKeepsInv(m: Rows, id: string)
    requires Inv(m)
    ensures Inv(WithoutUser(m, id))
  {
    ChangeMembersKeepsInv(m, WithoutUser(m, id));
  }

  lemma WithoutGroupKeepsInv(m: Rows, id: string)
    requires Inv(m)
    ensures Inv(WithoutGroup(m, id))
  {
    ChangeMembersKeepsInv(m, WithoutGroup(m, id));
  }

  lemma UserOpKeepsInv(op: UserOp, m: Rows)
    requires Inv(m)
    ensures Inv(ApplyUser(op, m).0)
  {
    if ApplyUser(op, m).1 == Done {
      match op
      case CreateUser(u) => PutUserKeepsInv(m, u);
      case UpdateUser(u) => PutUserKeepsInv(m, u);
      case DeleteUser(id) => WithoutUserKeepsInv(m, id);
    }
  }

  lemma GroupOpKeepsInv(op: GroupOp, m: Rows)
    requires Inv(m)
    ensures Inv(ApplyGroup(op, m).0)
  {
    if ApplyGroup(op, m).1 == Done {
      match op
      case CreateGroup(g) => PutGroupKeepsInv(m, g);
      case UpdateGroup(g) => PutGroupKeepsInv(m, g);
      case DeleteGroup(id) => WithoutGroupKeepsInv(m, id);
    }
  }

  lemma AddKeepsInv(r: Membership, m: Rows)
    requires Inv(m) && r.groupId in m.groups && r.userId in m.users
    ensures Inv(m.(members := m.members[(r.groupId, r.userId) := r]))
  {
    hide LoginsDiffer, NamesDiffer;
    ChangeMembersKeepsInv(m, m.(members := m.members[(r.groupId, r.userId) := r]));
  }

  lemma RemoveKeepsInv(k: Pair, m: Rows)
    requires Inv(m)
    ensures Inv(m.(members := m.members - {k}))
  {
    hide LoginsDiffer, NamesDiffer;
    ChangeMembersKeepsInv(m, m.(members := m.members - {k}));
  }

  lemma MemberOpKeepsInv(op: MemberOp, m: Rows)
    requires Inv(m)
    ensures Inv(ApplyMember(op, m).0)
  {
    hide Inv, MembersOf;
    match op
    case AddMembership(r) => if r.groupId in m.groups && r.userId in m.users { AddKeepsInv(r, m); }
    case RemoveMembership(gid, uid) => RemoveKeepsInv((gid, uid), m);
    case ListMembers(_) =>
  }

  lemma AppOpKeepsInv(op: AppOp, m: Rows)
    requires Inv(m)
    ensures Inv(ApplyApp(op, m).0)
  {
    hide InOrder, MembersOf, LoginTaken, NameTaken;
    var m' := ApplyApp(op, m).0;
    assert m' == m.(apps := m'.apps);
  }

  /** Every operation keeps the invariant, whatever it is given. */
  lemma ApplyKeepsInv(op: Op, m: Rows)
    requires Inv(m)
    ensures Inv(Apply(op, m).0)
  {
    match op
    case OnUsers(o) => UserOpKeepsInv(o, m);
    case OnGroups(o) => GroupOpKeepsInv(o, m);
    case OnMembers(o) => MemberOpKeepsInv(o, m);
    case OnApps(o) => AppOpKeepsInv(o, m);
    case _ =>
  }

  lemma ByLoginIsTheRow(m: Rows, id: string)
    requires LoginsDiffer(m) && id in m.users
    ensures ByLogin(m, m.users[id].login) == Some(m.users[id])
  {
  }

  /** The entries of a gap are those in the log with that gap ID, in order of number. */
  lemma GapEntriesAre(m: Rows, g: string)
    requires Inv(m)
    ensures var out := GapEntries(m, g);
            && Increasing(seq(|out|, i requires 0 <= i < |out| => out[i].id))
            && forall e :: e in out <==> g != "" && e.gapId == g && e in m.audit.Values
  {
    if g != "" {
      hide RowsKeyed, LoginsDiffer, NamesDiffer, NoDanglingMembers;
      var ids, out := SortedNats(EntriesOfGap(m, g)), GapEntries(m, g);
      assert forall k | 0 <= k < |ids| :: ids[k] in ids && out[k] == m.audit[ids[k]];
      RowsOfIds(m, g, ids, out);
    }
  }

  lemma RowsOfIds(m: Rows, g: string, ids: seq<nat>, out: seq<AuditEntry>)
    requires Inv(m) && Increasing(ids) && |out| == |ids| && forall n: nat :: n in ids <==> n in EntriesOfGap(m, g)
    requires forall k | 0 <= k < |ids| :: ids[k] in m.audit && out[k] == m.audit[ids[k]]
    ensures Increasing(seq(|out|, i requires 0 <= i < |out| => out[i].id))
    ensures forall e :: e in out <==> e.gapId == g && e in m.audit.Values
  {
    hide LoginsDiffer, NamesDiffer, NoDanglingMembers;
    forall e ensures e in out <==> e.gapId == g && e in m.audit.Values {
      if e.gapId == g && e in m.audit.Values {
        var n :| n in m.audit && m.audit[n] == e;
        assert n in EntriesOfGap(m, g);
        var k :| 0 <= k < |ids| && ids[k] == n;
        assert out[k] == e;
      }
      if e in out {
        var k :| 0 <= k < |out| && out[k] == e;
        assert ids[k] in ids;
      }
    }
  }

  /** A database value whose indexes are exact and whose rows keep the invariant. */
  ghost predicate Good(d: Db) {
    ConsistentDb(d) && Inv(View(d))
  }

  /**
    The contract of a transaction: started on a good database it leaves a good one, and
    on the rows it is exactly the operation's atomic step.
  */
  ghost predicate Performs(op: Op, d: Db, d': Db, r: Reply) {
    Good(d) ==> Good(d') && (View(d'), r) == Apply(op, View(d))
  }

  lemma SchemasAdmit()
    ensures forall u: User :: Admissible(USERS, u) <==> Storable(u)
    ensures forall g: Group :: Admissible(GROUPS, g) <==> StorableGroup(g)
    ensures forall a: App :: Admissible(APPS, a) <==> StorableApp(a)
    ensures forall r: Membership :: Admissible(MEMBERSHIPS, r) <==> r.groupId != "" && r.userId != ""
    ensures forall e: AuditEntry :: Admissible(AUDIT_LOG, e)
  {
    forall u: User ensures Admissible(USERS, u) <==> Storable(u) {
      if Admissible(USERS, u) {
        assert USERS.indexes[LOGIN].value(u) != "" && USERS.indexes[EMAIL].value(u) != "";
      }
    }
    forall g: Group ensures Admissible(GROUPS, g) <==> StorableGroup(g) {
      if Admissible(GROUPS, g) {
        assert GROUPS.indexes[NAME].value(g) != "" && GROUPS.indexes[TYPE].value(g) != "";
      }
    }
    forall a: App ensures Admissible(APPS, a) <==> StorableApp(a) {
      if Admissible(APPS, a) {
        assert APPS.indexes[LABEL].value(a) != "" && APPS.indexes[SIGN_ON_MODE].value(a) != "";
      }
    }
    forall r: Membership ensures Admissible(MEMBERSHIPS, r) <==> r.groupId != "" && r.userId != "" {
    }
  }

  lemma EmptyIsGood()
    ensures Good(EmptyDb()) && View(EmptyDb()) == NOTHING
  {
    EmptyConsistent(USERS);
    EmptyConsistent(GROUPS);
    EmptyConsistent(APPS);
    EmptyConsistent(MEMBERSHIPS);
    EmptyConsistent(AUDIT_LOG);
  }

  /** The rows determine the whole database: two good databases with the same rows are equal. */
  lemma RowsDetermineDb(d: Db, e: Db)
    requires Good(d) && Good(e) && View(d) == View(e)
    ensures d == e
  {
    RowsDetermineIndexes(USERS, d.users, e.users);
    RowsDetermineIndexes(GROUPS, d.groups, e.groups);
    RowsDetermineIndexes(APPS, d.apps, e.apps);
    RowsDetermineIndexes(MEMBERSHIPS, d.members, e.members);
    RowsDetermineIndexes(AUDIT_LOG, d.audit, e.audit);
  }

  /** Every operation has an outcome on every good database, and only one. */
  lemma OutcomeExists(op: Op, d: Db)
    requires Good(d)
    ensures exists d' :: Performs(op, d, d', Apply(op, View(d)).1)
  {
    var m := Apply(op, View(d)).0;
    ApplyKeepsInv(op, View(d));
    HasGoodDb(m);
    var d' :| Good(d') && View(d') == m;
    assert Performs(op, d, d', Apply(op, View(d)).1);
  }

  lemma HasGoodUsers(m: Rows) returns (t: Table<string, User>)
    requires Inv(m)
    ensures Consistent(USERS, t) && t.rows == m.users
  {
    SchemasAdmit();
    HasConsistentTable(USERS, m.users);
    t :| Consistent(USERS, t) && t.rows == m.users;
  }

  lemma HasGoodGroups(m: Rows) returns (t: Table<string, Group>)
    requires Inv(m)
    ensures Consistent(GROUPS, t) && t.rows == m.groups
  {
    SchemasAdmit();
    HasConsistentTable(GROUPS, m.groups);
    t :| Consistent(GROUPS, t) && t.rows == m.groups;
  }

  lemma HasGoodApps(m: Rows) returns (t: Table<string, App>)
    requires Inv(m)
    ensures Consistent(APPS, t) && t.rows == m.apps
  {
    SchemasAdmit();
    HasConsistentTable(APPS, m.apps);
    t :| Consistent(APPS, t) && t.rows == m.apps;
  }

  lemma HasGoodMembers(m: Rows) returns (t: Table<Pair, Membership>)
    requires Inv(m)
    ensures Consistent(MEMBERSHIPS, t) && t.rows == m.members
  {
    SchemasAdmit();
    HasConsistentTable(MEMBERSHIPS, m.members);
    t :| Consistent(MEMBERSHIPS, t) && t.rows == m.members;
  }

  lemma HasGoodAudit(m: Rows) returns (t: Table<nat, AuditEntry>)
    requires Inv(m)
    ensures Consistent(AUDIT_LOG, t) && t.rows == m.audit
  {
    HasConsistentTable(AUDIT_LOG, m.audit);
    t :| Consistent(AUDIT_LOG, t) && t.rows == m.audit;
  }

  /** Every set of rows that keeps the invariant is the content of some good database. */
  lemma HasGoodDb(m: Rows)
    requires Inv(m)
    ensures exists d :: Good(d) && View(d) == m
  {
    hide Consistent, Inv;
    var users := HasGoodUsers(m);
    var groups := HasGoodGroups(m);
    var apps := HasGoodApps(m);
    var members := HasGoodMembers(m);
    var audit := HasGoodAudit(m);
    var d := Db(users, groups, apps, members, audit);
    assert ConsistentDb(d) && View(d) == m;
  }
}
