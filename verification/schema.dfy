/** The five tables: row types, which indexes each has, and what a database holds. */
module Schemas {
  import opened MemDB

  datatype User = User(id: string, login: string, email: string, status: string, profile: string,
                       createdAt: nat, updatedAt: nat)

  datatype Group = Group(id: string, name: string, kind: string, description: string, profile: string,
                         createdAt: nat)

  datatype App = App(id: string, name: string, labelText: string, status: string, signOnMode: string,
                     settings: string, createdAt: nat)

  datatype Membership = Membership(groupId: string, userId: string, createdAt: nat)

  datatype AuditEntry = AuditEntry(id: nat, ts: nat, verb: string, path: string, status: nat, gapId: string)

  type Pair = (string, string)

  const LOGIN: nat := 0
  const EMAIL: nat := 1
  const USERS: Schema<string, User> :=
    Schema((u: User) => u.id, (u: User) => u.id != "",
           [Index(true, false, (u: User) => u.login),
            Index(false, false, (u: User) => u.email)])

  const NAME: nat := 0
  const TYPE: nat := 1
  const GROUPS: Schema<string, Group> :=
    Schema((g: Group) => g.id, (g: Group) => g.id != "",
           [Index(true, false, (g: Group) => g.name),
            Index(false, false, (g: Group) => g.kind)])

  const LABEL: nat := 0
  const SIGN_ON_MODE: nat := 1
  const APPS: Schema<string, App> :=
    Schema((a: App) => a.id, (a: App) => a.id != "",
           [Index(false, false, (a: App) => a.labelText),
            Index(false, false, (a: App) => a.signOnMode)])

  const GROUP_ID: nat := 0
  const USER_ID: nat := 1
  const MEMBERSHIPS: Schema<Pair, Membership> :=
    Schema((r: Membership) => (r.groupId, r.userId), (r: Membership) => r.groupId != "" && r.userId != "",
           [Index(false, false, (r: Membership) => r.groupId),
            Index(false, false, (r: Membership) => r.userId)])

  const GAP_ID: nat := 0
  const AUDIT_LOG: Schema<nat, AuditEntry> :=
    Schema((e: AuditEntry) => e.id, (e: AuditEntry) => true,
           [Index(false, true, (e: AuditEntry) => e.gapId)])

  datatype Db = Db(users: Table<string, User>, groups: Table<string, Group>, apps: Table<string, App>,
                   members: Table<Pair, Membership>, audit: Table<nat, AuditEntry>)

  predicate ShapedDb(d: Db) {
    && Shaped(USERS, d.users) && Shaped(GROUPS, d.groups) && Shaped(APPS, d.apps)
    && Shaped(MEMBERSHIPS, d.members) && Shaped(AUDIT_LOG, d.audit)
  }

  function EmptyDb(): (d: Db)
    ensures ShapedDb(d)
  {
    Db(Empty(USERS), Empty(GROUPS), Empty(APPS), Empty(MEMBERSHIPS), Empty(AUDIT_LOG))
  }

  /** Every index of every table is the exact inverse of its rows. */
  ghost predicate ConsistentDb(d: Db) {
    && Consistent(USERS, d.users) && Consistent(GROUPS, d.groups) && Consistent(APPS, d.apps)
    && Consistent(MEMBERSHIPS, d.members) && Consistent(AUDIT_LOG, d.audit)
  }
}
