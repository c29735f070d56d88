/**
  Rows and their IDs under every interleaving of operations: a row stays until something
  deletes it, no update adds or removes an ID, and an ID in use is refused to every create.
*/
module Survival {
  import opened Model
  import opened Concurrency

  datatype Kind = AUser | AGroup | AnApp

  predicate Stored(kind: Kind, m: Rows, id: string) {
    match kind
    case AUser => id in m.users
    case AGroup => id in m.groups
    case AnApp => id in m.apps
  }

  predicate Creates(kind: Kind, op: Op, id: string) {
    match kind
    case AUser => op.OnUsers? && op.users.CreateUser? && op.users.user.id == id
    case AGroup => op.OnGroups? && op.groups.CreateGroup? && op.groups.group.id == id
    case AnApp => op.OnApps? && op.apps.CreateApp? && op.apps.app.id == id
  }

  predicate Removes(kind: Kind, op: Op, id: string) {
    op.Reset? ||
    match kind
    case AUser => op == OnUsers(DeleteUser(id))
    case AGroup => op == OnGroups(DeleteGroup(id))
    case AnApp => op == OnApps(DeleteApp(id))
  }

  /** Only a create that is answered Done adds an ID, only a reset or a delete of it removes one. */
  lemma StoredAfter(kind: Kind, op: Op, m: Rows, id: string)
    ensures Stored(kind, Apply(op, m).0, id)
       <==> !Removes(kind, op, id) && (Stored(kind, m, id) || (Creates(kind, op, id) && Apply(op, m).1 == Done))
    ensures Creates(kind, op, id) && Stored(kind, m, id) ==> Apply(op, m).1 == Conflict
  {
    hide Stored, Removes, Creates, ApplyUser, ApplyGroup, ApplyMember, ApplyApp;
    match op
    case OnUsers(o) => UsersAfter(kind, o, m, id);
    case OnGroups(o) => GroupsAfter(kind, o, m, id);
    case OnMembers(o) => MembersAfter(kind, o, m, id);
    case OnApps(o) => AppsAfter(kind, o, m, id);
    case _ => OthersAfter(kind, op, m, id);
  }

  /** What StoredAfter says of one operation and its outcome. */
  predicate Follows(kind: Kind, op: Op, m: Rows, m': Rows, r: Reply, id: string) {
    && (Stored(kind, m', id)
        <==> !Removes(kind, op, id) && (Stored(kind, m, id) || (Creates(kind, op, id) && r == Done)))
    && (Creates(kind, op, id) && Stored(kind, m, id) ==> r == Conflict)
  }

  lemma UsersAfter(kind: Kind, o: UserOp, m: Rows, id: string)
    ensures Follows(kind, OnUsers(o), m, ApplyUser(o, m).0, ApplyUser(o, m).1, id)
  {
    hide InOrder, LoginTaken, ByLogin;
  }

  lemma GroupsAfter(kind: Kind, o: GroupOp, m: Rows, id: string)
    ensures Follows(kind, OnGroups(o), m, ApplyGroup(o, m).0, ApplyGroup(o, m).1, id)
  {
    hide InOrder, Limited, NameTaken, StorableGroup;
  }

  lemma MembersAfter(kind: Kind, o: MemberOp, m: Rows, id: string)
    ensures Follows(kind, OnMembers(o), m, ApplyMember(o, m).0, ApplyMember(o, m).1, id)
  {
    hide MembersOf;
  }

  /** The IDs of the apps after an operation on apps. */
  lemma AppIdsAfter(o: AppOp, m: Rows)
    ensures var (m', r) := ApplyApp(o, m);
            && m'.users == m.users && m'.groups == m.groups
            && m'.apps.Keys == (if o.CreateApp? && r == Done then m.apps.Keys + {o.app.id}
                                else if o.DeleteApp? then m.apps.Keys - {o.id}
                                else m.apps.Keys)
            && (o.CreateApp? && o.app.id in m.apps ==> r == Conflict)
  {
    hide InOrder, Limited, StorableApp;
    if o.DeleteApp? && o.id !in m.apps {
      assert m.apps.Keys - {o.id} == m.apps.Keys;
    }
  }

  lemma AppsAfter(kind: Kind, o: AppOp, m: Rows, id: string)
    ensures Follows(kind, OnApps(o), m, ApplyApp(o, m).0, ApplyApp(o, m).1, id)
  {
    hide ApplyApp;
    AppIdsAfter(o, m);
  }

  lemma OthersAfter(kind: Kind, op: Op, m: Rows, id: string)
    requires op.InsertAudit? || op.ReadGap? || op.ReadGaps? || op.Reset?
    ensures Follows(kind, op, m, Apply(op, m).0, Apply(op, m).1, id)
  {
  }

  /** The log holds nothing from event i on that removes the row. */
  predicate Spared(kind: Kind, log: seq<Event>, from: nat, id: string) {
    forall i | from <= i < |log| :: !Removes(kind, log[i].op, id)
  }

  /** Through any operations, updates that rename it included, a row stays under its ID until it is removed. */
  lemma {:induction false} RowSurvives(kind: Kind, log: seq<Event>, from: nat, id: string)
    requires from <= |log| && Stored(kind, Replay(log[..from]), id) && Spared(kind, log, from, id)
    ensures Stored(kind, Replay(log), id)
    decreases |log|
  {
    hide Apply, Stored, Removes, Creates;
    if from == |log| {
      assert log[..from] == log;
    } else {
      var before, last := log[..|log| - 1], log[|log| - 1];
      assert before[..from] == log[..from];
      assert forall i | from <= i < |before| :: before[i] == log[i];
      RowSurvives(kind, before, from, id);
      StoredAfter(kind, last.op, Replay(before), id);
    }
  }

  /** An ID appears only by a create that is answered Done. */
  lemma {:induction false} OnlyCreateAdds(kind: Kind, log: seq<Event>, from: nat, id: string)
    requires from <= |log| && Truthful(log)
    requires !Stored(kind, Replay(log[..from]), id) && Stored(kind, Replay(log), id)
    ensures exists i: nat :: from <= i < |log| && Creates(kind, log[i].op, id) && log[i].reply == Done
    decreases |log|
  {
    hide Apply, Stored, Removes, Creates;
    assert log[..|log|] == log;
    if from < |log| {
      var before, k := log[..|log| - 1], |log| - 1;
      assert before[..from] == log[..from] && log[..k] == before;
      StoredAfter(kind, log[k].op, Replay(before), id);
      if Stored(kind, Replay(before), id) {
        assert forall i | 0 <= i < k :: before[i] == log[i] && before[..i] == log[..i];
        OnlyCreateAdds(kind, before, from, id);
        var i: nat :| from <= i < |before| && Creates(kind, before[i].op, id) && before[i].reply == Done;
        assert Creates(kind, log[i].op, id);
      } else {
        assert Creates(kind, log[k].op, id) && log[k].reply == Done;
      }
    }
  }

  /** After a create that was answered Done, every create of the same ID is refused until the row is removed. */
  lemma TakenIdIsRefused(kind: Kind, log: seq<Event>, i: nat, j: nat, id: string)
    requires Truthful(log) && i < j < |log|
    requires Creates(kind, log[i].op, id) && log[i].reply == Done && Creates(kind, log[j].op, id)
    requires Spared(kind, log[..j], i + 1, id)
    ensures log[j].reply == Conflict
  {
    hide Apply, Stored, Removes, Creates, Replay;
    var first := log[..i + 1];
    assert first[..i] == log[..i];
    CreatedIsStored(kind, first, id);
    assert log[..j][..i + 1] == first;
    RowSurvives(kind, log[..j], i + 1, id);
    StoredAfter(kind, log[j].op, Replay(log[..j]), id);
  }

  lemma CreatedIsStored(kind: Kind, log: seq<Event>, id: string)
    requires log != [] && Creates(kind, log[|log| - 1].op, id) && log[|log| - 1].reply == Done
    requires log[|log| - 1].reply == Apply(log[|log| - 1].op, Replay(log[..|log| - 1])).1
    ensures Stored(kind, Replay(log), id)
  {
    hide Apply, Stored;
    var last := log[|log| - 1];
    StoredAfter(kind, last.op, Replay(log[..|log| - 1]), id);
    CreateRemovesNothing(kind, last.op, id);
  }

  lemma CreateRemovesNothing(kind: Kind, op: Op, id: string)
    requires Creates(kind, op, id)
    ensures !Removes(kind, op, id)
  {
  }

  /**
    Two creates of one ID succeed in a run only if something removed the row in between:
    under every interleaving, when a create of the ID has returned Done, any other create
    of it that takes effect later, before a delete of it or a reset, returns Conflict.
  */
  lemma TakenIdIsRefusedInRuns(kind: Kind, moves: seq<Move>, a: nat, b: nat, id: string)
    requires CanRun(INIT, moves)
    requires var s := Run(INIT, moves);
             && a in s.calls && s.calls[a].phase == Returned(Done) && Creates(kind, s.calls[a].op, id)
             && b in s.calls && s.calls[b].phase.Returned? && Creates(kind, s.calls[b].op, id)
             && s.calls[a].effect.Some? && s.calls[b].effect.Some?
             && s.calls[a].effect.value < s.calls[b].effect.value <= |s.log|
             && Spared(kind, s.log[..s.calls[b].effect.value], s.calls[a].effect.value + 1, id)
    ensures Run(INIT, moves).calls[b].phase.reply == Conflict
  {
    hide Apply, Replay, Truthful, Do, Enabled, Creates, Spared, Good, CanRun, Run;
    EveryRunIsLinear(moves);
    var s := Run(INIT, moves);
    TakenIdIsRefused(kind, s.log, s.calls[a].effect.value, s.calls[b].effect.value, id);
  }

  /**
    In every run the rows of the current instance hold an ID only if a create of it took effect
    and was answered Done.
  */
  lemma IdsComeFromCreates(kind: Kind, moves: seq<Move>, id: string)
    requires CanRun(INIT, moves) && Run(INIT, moves).current < |Run(INIT, moves).dbs|
    requires Stored(kind, View(Run(INIT, moves).dbs[Run(INIT, moves).current].root), id)
    ensures exists i: nat ::
              && i < |Run(INIT, moves).log| && Creates(kind, Run(INIT, moves).log[i].op, id)
              && Run(INIT, moves).log[i].reply == Done
  {
    hide Apply, Truthful, Do, Enabled, Creates, Good, CanRun, Run;
    EveryRunIsLinear(moves);
    var log := Run(INIT, moves).log;
    assert log[..0] == [];
    OnlyCreateAdds(kind, log, 0, id);
  }

  // The same for the values that must be unique.

  predicate HoldsName(kind: Kind, m: Rows, id: string, name: string) {
    match kind
    case AUser => id in m.users && m.users[id].login == name
    case AGroup => id in m.groups && m.groups[id].name == name
    case AnApp => false
  }

  predicate AsksForName(kind: Kind, op: Op, id: string, name: string) {
    match kind
    case AUser => op.OnUsers? && (op.users.CreateUser? || op.users.UpdateUser?)
                  && op.users.user.login == name && op.users.user.id != id
    case AGroup => op.OnGroups? && (op.groups.CreateGroup? || op.groups.UpdateGroup?)
                   && op.groups.group.name == name && op.groups.group.id != id
    case AnApp => false
  }

  /** While a row holds a login or a group name, no create and no update gives it to another row. */
  lemma HeldNameIsRefused(kind: Kind, log: seq<Event>, i: nat, id: string, name: string)
    requires Truthful(log) && i < |log|
    requires HoldsName(kind, Replay(log[..i]), id, name) && AsksForName(kind, log[i].op, id, name)
    ensures log[i].reply == Conflict || log[i].reply == NotFound
    ensures Replay(log[..i + 1]) == Replay(log[..i])
  {
    assert log[..i + 1][..i] == log[..i];
  }
}
