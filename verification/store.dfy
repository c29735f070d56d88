/**
  The store's methods: each runs one transaction on a private copy of the database and
  either commits it or drops it. Every method is proved to perform its atomic step, with
  all indexes left exact.
*/
module Stores {
  import opened Wrappers
  import opened Ordering
  import opened MemDB
  import opened Schemas
  import opened Model

  const COUNTER_RANGE: nat := 0x1_0000_0000_0000_0000

  /** The 64-bit counter's next value. */
  function Next(n: nat): nat { (n + 1) % COUNTER_RANGE }

  // What a write does to a good database.

  lemma FirstLogin(d: Db, login: string)
    requires Good(d)
    ensures First(d.users, LOGIN, login) == ByLogin(View(d), login)
  {
    if login == "" {
      FirstOfNothing(USERS, d.users, LOGIN);
    } else {
      FirstFindsTheRow(USERS, d.users, LOGIN, login);
    }
  }

  lemma FirstName(d: Db, name: string)
    requires Good(d)
    ensures First(d.groups, NAME, name).None? <==> forall k | k in d.groups.rows :: d.groups.rows[k].name != name
    ensures First(d.groups, NAME, name).Some? ==>
              var g := First(d.groups, NAME, name).value;
              g.id in d.groups.rows && d.groups.rows[g.id] == g && g.name == name
  {
    if name == "" {
      FirstOfNothing(GROUPS, d.groups, NAME);
    } else {
      FirstFindsTheRow(GROUPS, d.groups, NAME, name);
    }
  }

  lemma InsertUser(d: Db, u: User)
    requires Good(d) && !LoginTaken(View(d), u.login, u.id)
    ensures Insert(USERS, d.users, u).None? <==> !Storable(u)
    ensures Storable(u) ==>
              var d' := d.(users := Insert(USERS, d.users, u).value);
              Good(d') && View(d') == View(d).(users := View(d).users[u.id := u])
  {
    SchemasAdmit();
    if Storable(u) {
      InsertKeepsIndexesIff(USERS, d.users, u);
      PutUserKeepsInv(View(d), u);
    }
  }

  lemma InsertGroup(d: Db, g: Group)
    requires Good(d) && !NameTaken(View(d), g.name, g.id)
    ensures Insert(GROUPS, d.groups, g).None? <==> !StorableGroup(g)
    ensures StorableGroup(g) ==>
              var d' := d.(groups := Insert(GROUPS, d.groups, g).value);
              Good(d') && View(d') == View(d).(groups := View(d).groups[g.id := g])
  {
    SchemasAdmit();
    if StorableGroup(g) {
      InsertKeepsIndexesIff(GROUPS, d.groups, g);
      PutGroupKeepsInv(View(d), g);
    }
  }

  lemma InsertApp(d: Db, a: App)
    requires Good(d)
    ensures Insert(APPS, d.apps, a).None? <==> !StorableApp(a)
    ensures StorableApp(a) ==>
              var d' := d.(apps := Insert(APPS, d.apps, a).value);
              Good(d') && View(d') == View(d).(apps := View(d).apps[a.id := a])
  {
    SchemasAdmit();
    if StorableApp(a) {
      InsertKeepsIndexesIff(APPS, d.apps, a);
    }
  }

  /** Deleting the rows of one user through the user index leaves exactly the other rows. */
  lemma CascadeUser(d: Db, id: string)
    requires Consistent(MEMBERSHIPS, d.members) && id != ""
    ensures Consistent(MEMBERSHIPS, DeleteAll(MEMBERSHIPS, d.members, USER_ID, id))
    ensures DeleteAll(MEMBERSHIPS, d.members, USER_ID, id).rows
         == map k | k in d.members.rows && k.1 != id :: d.members.rows[k]
  {
    DeleteAllKeepsIndexes(MEMBERSHIPS, d.members, USER_ID, id);
  }

  lemma CascadeGroup(d: Db, id: string)
    requires Consistent(MEMBERSHIPS, d.members) && id != ""
    ensures Consistent(MEMBERSHIPS, DeleteAll(MEMBERSHIPS, d.members, GROUP_ID, id))
    ensures DeleteAll(MEMBERSHIPS, d.members, GROUP_ID, id).rows
         == map k | k in d.members.rows && k.0 != id :: d.members.rows[k]
  {
    DeleteAllKeepsIndexes(MEMBERSHIPS, d.members, GROUP_ID, id);
  }

  lemma DeleteOneUser(d: Db, id: string)
    requires Good(d) && id in d.users.rows
    ensures var d' := d.(users := Delete(USERS, d.users, id),
                         members := DeleteAll(MEMBERSHIPS, d.members, USER_ID, id));
            Good(d') && View(d') == WithoutUser(View(d), id)
  {
    DeleteKeepsIndexes(USERS, d.users, id);
    CascadeUser(d, id);
    WithoutUserKeepsInv(View(d), id);
  }

  lemma DeleteOneGroup(d: Db, id: string)
    requires Good(d) && id in d.groups.rows
    ensures var d' := d.(groups := Delete(GROUPS, d.groups, id),
                         members := DeleteAll(MEMBERSHIPS, d.members, GROUP_ID, id));
            Good(d') && View(d') == WithoutGroup(View(d), id)
  {
    DeleteKeepsIndexes(GROUPS, d.groups, id);
    CascadeGroup(d, id);
    WithoutGroupKeepsInv(View(d), id);
  }

  lemma PutMembership(d: Db, r: Membership)
    requires Consistent(MEMBERSHIPS, d.members) && r.groupId != "" && r.userId != ""
    ensures Insert(MEMBERSHIPS, d.members, r).Some?
    ensures Consistent(MEMBERSHIPS, Insert(MEMBERSHIPS, d.members, r).value)
  {
    SchemasAdmit();
    InsertKeepsIndexesIff(MEMBERSHIPS, d.members, r);
  }

  /** The walk over an index, in order of user ID, that lists one group's memberships. */
  function Walk(t: Table<Pair, Membership>, gid: string): (s: seq<Membership>)
    requires |t.entries| == |MEMBERSHIPS.indexes|
    requires forall k | k in Listed(t, GROUP_ID, gid) :: k in t.rows && k.0 == gid
  {
    var ids := SortedKeys(set k | k in Listed(t, GROUP_ID, gid) :: k.1);
    seq(|ids|, i requires 0 <= i < |ids| => assert ids[i] in ids; t.rows[(gid, ids[i])])
  }

  lemma WalkIsMembersOf(d: Db, gid: string)
    requires Good(d)
    ensures forall k | k in Listed(d.members, GROUP_ID, gid) :: k in d.members.rows && k.0 == gid
    ensures Walk(d.members, gid) == MembersOf(View(d), gid)
  {
    if gid != "" {
      ListedExactly(MEMBERSHIPS, d.members, GROUP_ID, gid);
    } else {
      assert Exact(MEMBERSHIPS, MEMBERSHIPS.indexes[GROUP_ID], d.members.rows, d.members.entries[GROUP_ID]);
    }
    hide Exact, Inv;
    assert (set k | k in Listed(d.members, GROUP_ID, gid) :: k.1) == MemberIds(View(d), gid);
  }

  lemma WalkAnswers(d: Db, gid: string, out: seq<Membership>)
    requires Good(d) && out == MembersOf(View(d), gid)
    ensures Performs(OnMembers(ListMembers(gid)), d, d, ManyMembers(out))
  {
    hide MembersOf, ConsistentDb, Inv;
  }

  lemma GapListing(d: Db, gapId: string)
    requires Good(d)
    ensures Listed(d.audit, GAP_ID, gapId) == if gapId == "" then {} else EntriesOfGap(View(d), gapId)
  {
    if gapId != "" {
      ListedExactly(AUDIT_LOG, d.audit, GAP_ID, gapId);
    } else {
      assert Exact(AUDIT_LOG, AUDIT_LOG.indexes[GAP_ID], d.audit.rows, d.audit.entries[GAP_ID]);
    }
  }

  lemma GoodRows(d: Db)
    requires Good(d)
    ensures Inv(View(d)) && |d.audit.entries| == |AUDIT_LOG.indexes|
  {
  }

  lemma GapAnswers(d: Db, gapId: string, out: seq<AuditEntry>)
    requires Good(d) && out == GapEntries(View(d), gapId)
    ensures Performs(ReadGap(gapId), d, d, ManyEntries(out))
  {
    hide GapEntries, ConsistentDb, Inv;
  }

  /** The loop of every list operation: copy until the walk or the limit ends. */
  method Listing<R>(it: seq<R>, limit: int) returns (out: seq<R>)
    ensures out == Limited(it, limit)
  {
    out := [];
    var i := 0;
    while i < |it|
      invariant 0 <= i <= |it| && out == it[..i]
      invariant limit > 0 ==> i < limit
      decreases |it| - i
    {
      out := out + [it[i]];
      i := i + 1;
      if limit > 0 && |out| >= limit {
        assert out == it[..i];
        return;
      }
    }
  }

  /** The loop over a walk: the rows under these IDs, in the same order. */
  method RowsAt(rows: map<nat, AuditEntry>, ids: seq<nat>) returns (out: seq<AuditEntry>)
    requires forall n | n in ids :: n in rows
    ensures |out| == |ids| && forall k | 0 <= k < |ids| :: ids[k] in rows && out[k] == rows[ids[k]]
  {
    out := [];
    for i := 0 to |ids|
      invariant |out| == i
      invariant forall k | 0 <= k < i :: ids[k] in rows && out[k] == rows[ids[k]]
    {
      assert ids[i] in ids;
      out := out + [rows[ids[i]]];
    }
  }

  class Store {
    var db: Db
    var auditSeq: nat

    ghost predicate Valid()
      reads this
    {
      Good(db)
    }

    constructor ()
      ensures Valid() && View(db) == NOTHING && auditSeq == 0
    {
      db := EmptyDb();
      auditSeq := 0;
      EmptyIsGood();
    }

    method Reset()
      requires Valid()
      modifies this
      ensures Valid() && Performs(Op.Reset, old(db), db, Done) && auditSeq == 0
    {
      var replacement := EmptyDb();
      db := replacement;
      auditSeq := 0;
      EmptyIsGood();
    }

    // Users

    method CreateUser(u: User) returns (r: Reply)
      requires Valid()
      modifies this`db
      ensures Valid() && Performs(OnUsers(UserOp.CreateUser(u)), old(db), db, r)
    {
      var txn := db;
      FirstLogin(txn, u.login);
      var existing := First(txn.users, LOGIN, u.login);
      if existing.Some? {
        return Conflict;
      }
      if u.id in txn.users.rows {
        return Conflict;
      }
      InsertUser(txn, u);
      var inserted := Insert(USERS, txn.users, u);
      if inserted.None? {
        return Internal;
      }
      db := txn.(users := inserted.value);
      return Done;
    }

    method GetUser(id: string) returns (r: Reply)
      requires Valid()
      ensures Performs(OnUsers(UserOp.GetUser(id)), db, db, r)
    {
      var txn := db;
      if id !in txn.users.rows {
        return NotFound;
      }
      return OneUser(txn.users.rows[id]);
    }

    method GetUserByLogin(login: string) returns (r: Reply)
      requires Valid()
      ensures Performs(OnUsers(UserOp.GetUserByLogin(login)), db, db, r)
    {
      var txn := db;
      FirstLogin(txn, login);
      var raw := First(txn.users, LOGIN, login);
      if raw.None? {
        return NotFound;
      }
      return OneUser(raw.value);
    }

    method UpdateUser(u: User) returns (r: Reply)
      requires Valid()
      modifies this`db
      ensures Valid() && Performs(OnUsers(UserOp.UpdateUser(u)), old(db), db, r)
    {
      var txn := db;
      if u.id !in txn.users.rows {
        return NotFound;
      }
      var existing := txn.users.rows[u.id];
      FirstLogin(txn, u.login);
      if existing.login != u.login {
        var other := First(txn.users, LOGIN, u.login);
        if other.Some? && other.value.id != u.id {
          return Conflict;
        }
      }
      InsertUser(txn, u);
      var inserted := Insert(USERS, txn.users, u);
      if inserted.None? {
        return Internal;
      }
      db := txn.(users := inserted.value);
      return Done;
    }

    method DeleteUser(id: string) returns (r: Reply)
      requires Valid()
      modifies this`db
      ensures Valid() && Performs(OnUsers(UserOp.DeleteUser(id)), old(db), db, r)
    {
      var txn := db;
      if id !in txn.users.rows {
        return NotFound;
      }
      DeleteOneUser(txn, id);
      txn := txn.(users := Delete(USERS, txn.users, id));
      txn := txn.(members := DeleteAll(MEMBERSHIPS, txn.members, USER_ID, id));
      db := txn;
      return Done;
    }

    method ListUsers(limit: int) returns (r: Reply)
      requires Valid()
      ensures Performs(OnUsers(UserOp.ListUsers(limit)), db, db, r)
    {
      var it := InOrder(db.users.rows);
      var out := Listing(it, limit);
      return ManyUsers(out);
    }

    // Groups

    method CreateGroup(g: Group) returns (r: Reply)
      requires Valid()
      modifies this`db
      ensures Valid() && Performs(OnGroups(GroupOp.CreateGroup(g)), old(db), db, r)
    {
      var txn := db;
      FirstName(txn, g.name);
      var existing := First(txn.groups, NAME, g.name);
      if existing.Some? {
        return Conflict;
      }
      if g.id in txn.groups.rows {
        return Conflict;
      }
      InsertGroup(txn, g);
      var inserted := Insert(GROUPS, txn.groups, g);
      if inserted.None? {
        return Internal;
      }
      db := txn.(groups := inserted.value);
      return Done;
    }

    method GetGroup(id: string) returns (r: Reply)
      requires Valid()
      ensures Performs(OnGroups(GroupOp.GetGroup(id)), db, db, r)
    {
      var txn := db;
      if id !in txn.groups.rows {
        return NotFound;
      }
      return OneGroup(txn.groups.rows[id]);
    }

    method UpdateGroup(g: Group) returns (r: Reply)
      requires Valid()
      modifies this`db
      ensures Valid() && Performs(OnGroups(GroupOp.UpdateGroup(g)), old(db), db, r)
    {
      var txn := db;
      if g.id !in txn.groups.rows {
        return NotFound;
      }
      var existing := txn.groups.rows[g.id];
      FirstName(txn, g.name);
      if existing.name != g.name {
        var other := First(txn.groups, NAME, g.name);
        if other.Some? && other.value.id != g.id {
          return Conflict;
        }
      }
      InsertGroup(txn, g);
      var inserted := Insert(GROUPS, txn.groups, g);
      if inserted.None? {
        return Internal;
      }
      db := txn.(groups := inserted.value);
      return Done;
    }

    method DeleteGroup(id: string) returns (r: Reply)
      requires Valid()
      modifies this`db
      ensures Valid() && Performs(OnGroups(GroupOp.DeleteGroup(id)), old(db), db, r)
    {
      var txn := db;
      if id !in txn.groups.rows {
        return NotFound;
      }
      DeleteOneGroup(txn, id);
      txn := txn.(groups := Delete(GROUPS, txn.groups, id));
      txn := txn.(members := DeleteAll(MEMBERSHIPS, txn.members, GROUP_ID, id));
      db := txn;
      return Done;
    }

    method ListGroups(limit: int) returns (r: Reply)
      requires Valid()
      ensures Performs(OnGroups(GroupOp.ListGroups(limit)), db, db, r)
    {
      var it := InOrder(db.groups.rows);
      var out := Listing(it, limit);
      return ManyGroups(out);
    }

    // Memberships

    method AddGroupMembership(row: Membership) returns (r: Reply)
      requires Valid()
      modifies this`db
      ensures Valid() && Performs(OnMembers(AddMembership(row)), old(db), db, r)
    {
      var txn := db;
      if row.groupId !in txn.groups.rows {
        return NotFound;
      }
      if row.userId !in txn.users.rows {
        return NotFound;
      }
      PutMembership(txn, row);
      MemberOpKeepsInv(AddMembership(row), View(txn));
      var inserted := Insert(MEMBERSHIPS, txn.members, row);
      db := txn.(members := inserted.value);
      return Done;
    }

    method RemoveGroupMembership(gid: string, uid: string) returns (r: Reply)
      requires Valid()
      modifies this`db
      ensures Valid() && Performs(OnMembers(RemoveMembership(gid, uid)), old(db), db, r)
    {
      var txn := db;
      if (gid, uid) !in txn.members.rows {
        return NotFound;
      }
      DeleteKeepsIndexes(MEMBERSHIPS, txn.members, (gid, uid));
      MemberOpKeepsInv(RemoveMembership(gid, uid), View(txn));
      db := txn.(members := Delete(MEMBERSHIPS, txn.members, (gid, uid)));
      return Done;
    }

    method ListGroupMembers(gid: string) returns (r: Reply)
      requires Valid()
      ensures Performs(OnMembers(ListMembers(gid)), db, db, r)
    {
      WalkIsMembersOf(db, gid);
      var it := Walk(db.members, gid);
      var out := Listing(it, 0);
      WalkAnswers(db, gid, out);
      return ManyMembers(out);
    }

    // Apps

    method CreateApp(a: App) returns (r: Reply)
      requires Valid()
      modifies this`db
      ensures Valid() && Performs(OnApps(AppOp.CreateApp(a)), old(db), db, r)
    {
      var txn := db;
      if a.id in txn.apps.rows {
        return Conflict;
      }
      InsertApp(txn, a);
      var inserted := Insert(APPS, txn.apps, a);
      if inserted.None? {
        return Internal;
      }
      db := txn.(apps := inserted.value);
      return Done;
    }

    method GetApp(id: string) returns (r: Reply)
      requires Valid()
      ensures Performs(OnApps(AppOp.GetApp(id)), db, db, r)
    {
      var txn := db;
      if id !in txn.apps.rows {
        return NotFound;
      }
      return OneApp(txn.apps.rows[id]);
    }

    method UpdateApp(a: App) returns (r: Reply)
      requires Valid()
      modifies this`db
      ensures Valid() && Performs(OnApps(AppOp.UpdateApp(a)), old(db), db, r)
    {
      var txn := db;
      if a.id !in txn.apps.rows {
        return NotFound;
      }
      InsertApp(txn, a);
      var inserted := Insert(APPS, txn.apps, a);
      if inserted.None? {
        return Internal;
      }
      db := txn.(apps := inserted.value);
      return Done;
    }

    method DeleteApp(id: string) returns (r: Reply)
      requires Valid()
      modifies this`db
      ensures Valid() && Performs(OnApps(AppOp.DeleteApp(id)), old(db), db, r)
    {
      var txn := db;
      if id !in txn.apps.rows {
        return NotFound;
      }
      DeleteKeepsIndexes(APPS, txn.apps, id);
      AppOpKeepsInv(AppOp.DeleteApp(id), View(txn));
      db := txn.(apps := Delete(APPS, txn.apps, id));
      return Done;
    }

    method ListApps(limit: int) returns (r: Reply)
      requires Valid()
      ensures Performs(OnApps(AppOp.ListApps(limit)), db, db, r)
    {
      var it := InOrder(db.apps.rows);
      var out := Listing(it, limit);
      return ManyApps(out);
    }

    // Audit log

    /** Stamps the entry unless the caller did and gives it the next number, before any transaction is open. */
    method NumberEntry(e: AuditEntry, now: nat) returns (numbered: AuditEntry)
      modifies this`auditSeq
      ensures auditSeq == Next(old(auditSeq))
      ensures numbered == e.(id := auditSeq, ts := if e.ts == 0 then now else e.ts)
    {
      numbered := e;
      if numbered.ts == 0 {
        numbered := numbered.(ts := now);
      }
      auditSeq := Next(auditSeq);
      numbered := numbered.(id := auditSeq);
    }

    /** Inserts the entry under the number it has, whatever the counter is by now. */
    method InsertEntry(stored: AuditEntry)
      requires Valid()
      modifies this`db
      ensures Valid() && Performs(InsertAudit(stored), old(db), db, Done)
    {
      var txn := db;
      SchemasAdmit();
      InsertKeepsIndexesIff(AUDIT_LOG, txn.audit, stored);
      ApplyKeepsInv(InsertAudit(stored), View(txn));
      var inserted := Insert(AUDIT_LOG, txn.audit, stored);
      db := txn.(audit := inserted.value);
    }

    /** The two one after the other, as the call does it; between them other calls may come. */
    method AppendAudit(e: AuditEntry, now: nat) returns (stored: AuditEntry)
      requires Valid()
      modifies this
      ensures auditSeq == Next(old(auditSeq))
      ensures stored == e.(id := auditSeq, ts := if e.ts == 0 then now else e.ts)
      ensures Valid() && Performs(InsertAudit(stored), old(db), db, Done)
    {
      stored := NumberEntry(e, now);
      InsertEntry(stored);
    }

    /** The entries the gap index lists under a gap ID, in order of entry ID. */
    method AuditByGap(gapId: string) returns (out: seq<AuditEntry>)
      requires Valid()
      ensures Increasing(seq(|out|, i requires 0 <= i < |out| => out[i].id))
      ensures forall e :: e in out <==> gapId != "" && e.gapId == gapId && e in db.audit.rows.Values
      ensures Performs(ReadGap(gapId), db, db, ManyEntries(out))
    {
      GapListing(db, gapId);
      GoodRows(db);
      var ids := SortedNats(Listed(db.audit, GAP_ID, gapId));
      out := RowsAt(db.audit.rows, ids);
      assert out == GapEntries(View(db), gapId);
      hide Listed, GapEntries, Good, Performs;
      GapEntriesAre(View(db), gapId);
      GapAnswers(db, gapId, out);
    }

    /** The distinct gap IDs in the log, sorted. */
    method GapsHit() returns (out: seq<string>)
      requires Valid()
      ensures Ascending(out)
      ensures forall g :: g in out <==> g in GapIds(View(db))
      ensures Performs(ReadGaps, db, db, ManyGaps(out))
    {
      var todo := db.audit.entries[GAP_ID].Keys;
      var seen: set<string> := {};
      assert Exact(AUDIT_LOG, AUDIT_LOG.indexes[GAP_ID], db.audit.rows, db.audit.entries[GAP_ID]);
      while todo != {}
        invariant todo <= db.audit.entries[GAP_ID].Keys
        invariant seen <= GapIds(View(db))
        invariant forall e | e in db.audit.entries[GAP_ID].Keys - todo :: db.audit.entries[GAP_ID][e].gapId in seen
        decreases |todo|
      {
        var e :| e in todo;
        todo := todo - {e};
        var entry := db.audit.entries[GAP_ID][e];
        if entry.gapId == "" {
          continue;
        }
        seen := seen + {entry.gapId};
      }
      forall g | g in GapIds(View(db)) ensures g in seen {
        var n :| n in db.audit.rows && db.audit.rows[n].gapId == g;
        assert EntryOf(AUDIT_LOG.indexes[GAP_ID], n, db.audit.rows[n]) in db.audit.entries[GAP_ID];
      }
      assert seen == GapIds(View(db));
      out := SortedKeys(seen);
    }
  }

  function SizeSum(m: Rows, gaps: seq<string>): nat {
    if gaps == [] then 0 else |EntriesOfGap(m, gaps[0])| + SizeSum(m, gaps[1..])
  }

  function EntriesWithin(m: Rows, gaps: seq<string>): set<nat> {
    set n | n in m.audit && m.audit[n].gapId in gaps
  }

  lemma {:induction false} SizesAddUp(m: Rows, gaps: seq<string>)
    requires Ascending(gaps)
    ensures SizeSum(m, gaps) == |EntriesWithin(m, gaps)|
  {
    var all := EntriesWithin(m, gaps);
    if gaps == [] {
      assert all == {};
    } else {
      SizesAddUp(m, gaps[1..]);
      var first, rest := EntriesOfGap(m, gaps[0]), EntriesWithin(m, gaps[1..]);
      forall n | n in m.audit ensures n in all <==> n in first || n in rest
        ensures !(n in first && n in rest)
      {
        TailMembers(gaps, m.audit[n].gapId);
      }
      assert all == first + rest;
      assert first !! rest;
    }
  }

  /**
    The gap report is a partition: the entries of the gaps hit are disjoint, and their
    sizes add up to the number of entries that carry a gap ID at all.
  */
  lemma GapsPartitionTheLog(m: Rows, gaps: seq<string>)
    requires Ascending(gaps) && forall g :: g in gaps <==> g in GapIds(m)
    ensures forall i, j | 0 <= i < j < |gaps| :: EntriesOfGap(m, gaps[i]) !! EntriesOfGap(m, gaps[j])
    ensures SizeSum(m, gaps) == |set n | n in m.audit && m.audit[n].gapId != ""|
  {
    SizesAddUp(m, gaps);
    assert EntriesWithin(m, gaps) == set n | n in m.audit && m.audit[n].gapId != "";
    forall i, j | 0 <= i < j < |gaps| ensures EntriesOfGap(m, gaps[i]) !! EntriesOfGap(m, gaps[j]) {
      if gaps[i] == gaps[j] { AscendingDistinct(gaps, i, j); }
    }
  }

  /**
    The database's own insert does not keep logins apart: without the store's check a
    second user takes the login over, and the first is no longer found by it.
  */
  lemma UncheckedInsertBreaksLogin(d: Db, u: User, v: User)
    requires Good(d) && u.id in d.users.rows && d.users.rows[u.id] == u
    requires v.id != u.id && Storable(v) && v.login == u.login
    ensures var t := Insert(USERS, d.users, v).value;
            !Consistent(USERS, t) && t.rows[u.id] == u && First(t, LOGIN, u.login) == Some(v)
  {
    SchemasAdmit();
    InsertKeepsIndexesIff(USERS, d.users, v);
    assert !Vacant(USERS, USERS.indexes[LOGIN], d.users.rows, v);
  }
}
