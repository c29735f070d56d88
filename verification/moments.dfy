/** The one moment at which a call of a run takes effect, and what its answer says of the rows there. */
module Moments {
  import opened Concurrency
  import opened Model
  import opened Schemas

  predicate Answered(s: State, c: nat, op: Op, reply: Reply) {
    c in s.calls && s.calls[c].op == op && s.calls[c].phase == Returned(reply)
  }

  predicate InEffect(s: State, c: nat) {
    c in s.calls && s.calls[c].effect.Some? && s.calls[c].effect.value < |s.log|
  }

  /** The rows of the run's log just before call c took effect. */
  ghost function Moment(s: State, c: nat): Rows
    requires InEffect(s, c)
  {
    Replay(s.log[..s.calls[c].effect.value])
  }

  /** The rows just after it. */
  ghost function MomentAfter(s: State, c: nat): Rows
    requires InEffect(s, c)
  {
    Replay(s.log[..s.calls[c].effect.value + 1])
  }

  /** A finished call has changed the rows and answered as its operation does on the rows of its moment. */
  lemma AnswerAtItsMoment(moves: seq<Move>, c: nat, op: Op, reply: Reply)
    requires CanRun(INIT, moves) && Answered(Run(INIT, moves), c, op, reply)
    ensures var s := Run(INIT, moves);
            InEffect(s, c) && (MomentAfter(s, c), reply) == Apply(op, Moment(s, c)) && Model.Inv(Moment(s, c))
  {
    hide Apply, Model.Inv, Do, Enabled, Good, CanRun, Run;
    EveryRunIsLinear(moves);
    var s := Run(INIT, moves);
    var i := s.calls[c].effect.value;
    ReplayKeepsRows(s.log[..i]);
    assert s.log[..i + 1][..i] == s.log[..i];
  }

  /**
    In any run a create of a user is answered Done if and only if neither its ID nor its
    login is taken at its moment and no index value is missing; it then adds that row and
    changes nothing else. Otherwise it changes nothing, and the answer says which it was.
  */
  lemma UserCreationAtItsMoment(moves: seq<Move>, c: nat, u: User, reply: Reply)
    requires CanRun(INIT, moves) && Answered(Run(INIT, moves), c, OnUsers(CreateUser(u)), reply)
    ensures var s := Run(INIT, moves);
            && InEffect(s, c)
            && var (m, m') := (Moment(s, c), MomentAfter(s, c));
               var taken := u.id in m.users || exists k :: k in m.users && m.users[k].login == u.login;
               && (reply == Done <==> !taken && u.id != "" && u.login != "" && u.email != "")
               && (reply == Conflict <==> taken)
               && reply in {Done, Conflict, Internal}
               && (if reply == Done then u.id !in m.users && m' == m.(users := m.users[u.id := u]) else m' == m)
  {
    hide CanRun, Run, Moment, MomentAfter;
    AnswerAtItsMoment(moves, c, OnUsers(CreateUser(u)), reply);
  }

  /** The same for a group, its ID and its name. */
  lemma GroupCreationAtItsMoment(moves: seq<Move>, c: nat, g: Group, reply: Reply)
    requires CanRun(INIT, moves) && Answered(Run(INIT, moves), c, OnGroups(CreateGroup(g)), reply)
    ensures var s := Run(INIT, moves);
            && InEffect(s, c)
            && var (m, m') := (Moment(s, c), MomentAfter(s, c));
               var taken := g.id in m.groups || exists k :: k in m.groups && m.groups[k].name == g.name;
               && (reply == Done <==> !taken && g.id != "" && g.name != "" && g.kind != "")
               && (reply == Conflict <==> taken)
               && reply in {Done, Conflict, Internal}
               && (if reply == Done then g.id !in m.groups && m' == m.(groups := m.groups[g.id := g]) else m' == m)
  {
    hide CanRun, Run, Moment, MomentAfter;
    AnswerAtItsMoment(moves, c, OnGroups(CreateGroup(g)), reply);
  }

  /** In any run a gap report is exactly the entries with that gap ID at its moment. */
  lemma GapReportAtItsMoment(moves: seq<Move>, c: nat, gapId: string, reply: Reply)
    requires CanRun(INIT, moves) && Answered(Run(INIT, moves), c, ReadGap(gapId), reply)
    ensures var s := Run(INIT, moves);
            && InEffect(s, c) && reply.ManyEntries?
            && forall e :: e in reply.entries <==> gapId != "" && e.gapId == gapId && e in Moment(s, c).audit.Values
  {
    hide CanRun, Run, Moment, MomentAfter, Model.Inv, GapEntries;
    AnswerAtItsMoment(moves, c, ReadGap(gapId), reply);
    GapEntriesAre(Moment(Run(INIT, moves), c), gapId);
  }

  /** And the list of gaps is exactly those that occur in the log at its moment. */
  lemma GapsAtTheirMoment(moves: seq<Move>, c: nat, reply: Reply)
    requires CanRun(INIT, moves) && Answered(Run(INIT, moves), c, ReadGaps, reply)
    ensures var s := Run(INIT, moves);
            && InEffect(s, c) && reply.ManyGaps?
            && forall g :: g in reply.gaps <==> g in GapIds(Moment(s, c))
  {
    hide CanRun, Run, Moment, MomentAfter, Model.Inv;
    AnswerAtItsMoment(moves, c, ReadGaps, reply);
  }
}
