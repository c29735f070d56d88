/**
  Runs of overlapping requests in which the lifecycle does not hold: a PUT brings STAGED
  back, and a DELETE removes an ACTIVE user and an ACTIVE app.
*/
module Races {
  import opened Audited
  import opened Concurrency
  import opened Ids
  import opened Model
  import opened Network
  import opened Programs
  import opened Requests
  import opened Schemas
  import opened Wrappers

  // One store call, with nothing else going on.

  predicate Calm(s: State) {
    s.current < |s.dbs| && s.readers == {} && s.announced.None? && s.dbs[s.current].holder.None?
  }

  ghost function Now(s: State): Rows
    requires s.current < |s.dbs|
  {
    View(s.dbs[s.current].root)
  }

  /** What a call made alone has done. */
  ghost predicate Made(s: State, s': State, c: nat, op: Op, reply: Reply)
    requires s.current < |s.dbs|
  {
    && Invariant(s') && Sane(s') && Calm(s')
    && c in s'.calls && s'.calls == s.calls[c := s'.calls[c]] && s'.calls[c].phase == Returned(reply)
    && (Now(s'), reply) == Apply(op, Now(s))
  }

  predicate NoInvoke(moves: seq<Move>) { forall i | 0 <= i < |moves| :: !moves[i].Invoke? }

  lemma {:induction false} MovesJoin(s: State, moves: seq<Move>, mv: Move)
    requires CanRun(s, moves) && Sane(Run(s, moves)) && Enabled(Run(s, moves), mv)
    ensures CanRun(s, moves + [mv]) && Run(s, moves + [mv]) == Do(Run(s, moves), mv)
  {
    ReachesOneMore(s, moves, mv);
  }

  ghost predicate Led(s: State, moves: seq<Move>, t: State) {
    CanRun(s, moves) && Run(s, moves) == t && NoInvoke(moves) && Invariant(t) && Sane(t)
  }

  lemma One(s: State, moves: seq<Move>, t: State, mv: Move) returns (moves': seq<Move>, t': State)
    requires Led(s, moves, t) && Enabled(t, mv) && !mv.Invoke?
    ensures t' == Do(t, mv) && Led(s, moves', t')
  {
    hide Do, Enabled, Invariant, Sane, CanRun, Run;
    moves', t' := moves + [mv], Do(t, mv);
    MovesJoin(s, moves, mv);
    StepKeepsInvariant(t, mv);
  }

  lemma ReadAlone(s: State, c: nat) returns (moves: seq<Move>, t: State)
    requires Invariant(s) && Sane(s) && Calm(s) && c in s.calls && s.calls[c].phase.Start? && IsRead(s.calls[c].op)
    ensures Led(s, moves, t)
    ensures Made(s, t, c, s.calls[c].op, Apply(s.calls[c].op, Now(s)).1)
  {
    hide Good, Invariant, Replay, Truthful, Performs, Apply, Led;
    StartsLed(s);
    moves, t := One(s, [], s, Advance(c));
    assert t.calls[c].phase.Reading?;
    moves, t := One(s, moves, t, Advance(c));
    assert t.calls[c].phase.Snapped? && t.calls[c].phase.view == s.dbs[s.current].root;
    moves, t := One(s, moves, t, Advance(c));
    assert t.calls[c].phase.Scanning? && t.calls[c].phase.view == s.dbs[s.current].root;
    moves, t := One(s, moves, t, Advance(c));
    LedHolds(s, moves, t);
    ReadsChangeNothing(s.calls[c].op, Now(s));
  }

  lemma StartsLed(s: State)
    requires Invariant(s) && Sane(s)
    ensures Led(s, [], s)
  {
  }

  lemma LedHolds(s: State, moves: seq<Move>, t: State)
    requires Led(s, moves, t)
    ensures Invariant(t) && Sane(t)
  {
  }

  lemma WriteAlone(s: State, c: nat) returns (moves: seq<Move>, t: State)
    requires Invariant(s) && Sane(s) && Calm(s) && c in s.calls && s.calls[c].phase.Start?
    requires !IsRead(s.calls[c].op) && !s.calls[c].op.Reset?
    ensures Led(s, moves, t)
    ensures Made(s, t, c, s.calls[c].op, Apply(s.calls[c].op, Now(s)).1)
  {
    hide Good, Invariant, Replay, Truthful, Apply, Led, Performs;
    var op, base := s.calls[c].op, s.dbs[s.current].root;
    StartsLed(s);
    moves, t := One(s, [], s, Advance(c));
    assert t.calls[c].phase.Reading?;
    moves, t := One(s, moves, t, Advance(c));
    assert t.calls[c].phase == Opened(s.current, base);
    moves, t := One(s, moves, t, Advance(c));
    assert t.calls[c].phase == Writing(s.current, base);
    CurrentIsGood(s);
    OutcomeExists(op, base);
    var root :| Performs(op, base, root, Apply(op, View(base)).1);
    moves, t := One(s, moves, t, Commit(c, root));
    LedHolds(s, moves, t);
    PerformsView(op, base, root);
  }

  lemma CurrentIsGood(s: State)
    requires Invariant(s)
    ensures Good(s.dbs[s.current].root)
  {
  }

  lemma PerformsView(op: Op, base: Db, root: Db)
    requires Good(base) && Performs(op, base, root, Apply(op, View(base)).1)
    ensures View(root) == Apply(op, View(base)).0
  {
  }

  // One call of a request.

  /** A state of a run with no call open. */
  ghost predicate Still(cfg: Config, n: Net) {
    NetInv(cfg, n) && Calm(n.s) && forall c | c in n.s.calls :: Over(n.s, c)
  }

  /** What a request has been told so far. */
  function Told(n: Net, t: nat): seq<Reply>
    requires t in n.tasks && AllOver(n.s, n.tasks[t].asked)
  {
    Replies(n.s, n.tasks[t].asked)
  }

  /** Request t is there, with this hit, and has had these replies. */
  ghost predicate Has(n: Net, t: nat, hit: Hit, rs: seq<Reply>) {
    t in n.tasks && n.tasks[t].hit == hit && AllOver(n.s, n.tasks[t].asked) && Told(n, t) == rs
  }

  ghost predicate Follows(cfg: Config, n: Net, steps: seq<Step>, n': Net) {
    Runs(cfg, n, steps) && Outcome(cfg, n, steps) == n'
  }

  lemma {:induction false} RunsJoin(cfg: Config, n: Net, first: seq<Step>, second: seq<Step>)
    requires Runs(cfg, n, first) && Runs(cfg, Outcome(cfg, n, first), second)
    ensures Runs(cfg, n, first + second)
    ensures Outcome(cfg, n, first + second) == Outcome(cfg, Outcome(cfg, n, first), second)
    decreases |first|
  {
    hide CanStep, After;
    if first == [] {
      assert first + second == second;
    } else {
      RunsJoin(cfg, After(cfg, n, first[0]), first[1..], second);
      assert (first + second)[1..] == first[1..] + second;
    }
  }

  lemma OneStep(cfg: Config, n: Net, step: Step)
    requires CanStep(cfg, n, step)
    ensures Follows(cfg, n, [step], After(cfg, n, step))
  {
    hide CanStep, After;
    var next := After(cfg, n, step);
    assert Runs(cfg, next, []) && Outcome(cfg, next, []) == next;
    assert [step][1..] == [] && [step][0] == step;
    assert Runs(cfg, n, [step]);
  }

  /** The steps of a call that is under way are steps of the run. */
  lemma {:induction false} WorkRuns(cfg: Config, n: Net, moves: seq<Move>) returns (steps: seq<Step>)
    requires Invariant(n.s) && Sane(n.s) && CanRun(n.s, moves) && NoInvoke(moves)
    ensures Follows(cfg, n, steps, n.(s := Run(n.s, moves)))
    decreases |moves|
  {
    hide Invariant, Do, Enabled;
    if moves == [] {
      steps := [];
    } else {
      StepKeepsInvariant(n.s, moves[0]);
      var next := n.(s := Do(n.s, moves[0]));
      assert CanStep(cfg, n, Work(moves[0])) && After(cfg, n, Work(moves[0])) == next;
      var rest := WorkRuns(cfg, next, moves[1..]);
      OneStep(cfg, n, Work(moves[0]));
      RunsJoin(cfg, n, [Work(moves[0])], rest);
      steps := [Work(moves[0])] + rest;
    }
  }

  lemma JoinFollows(cfg: Config, n: Net, first: seq<Step>, m: Net, second: seq<Step>, n': Net)
    requires Follows(cfg, n, first, m) && Follows(cfg, m, second, n')
    ensures Follows(cfg, n, first + second, n')
  {
    hide CanStep, After;
    RunsJoin(cfg, n, first, second);
  }

  lemma FollowsKeeps(cfg: Config, n: Net, steps: seq<Step>, n': Net)
    requires NetInv(cfg, n) && Follows(cfg, n, steps, n')
    ensures NetInv(cfg, n')
  {
    hide NetInv, CanStep, After;
    RunKeepsNet(cfg, n, steps);
  }

  /** A new request. */
  lemma Comes(cfg: Config, n: Net, t: nat, hit: Hit) returns (steps: seq<Step>, n': Net)
    requires Still(cfg, n) && t !in n.tasks
    ensures Follows(cfg, n, steps, n') && Still(cfg, n') && Now(n'.s) == Now(n.s)
    ensures n'.tasks == n.tasks[t := Task(hit, [])] && n'.s == n.s
  {
    hide Invariant, AskedOk, Next;
    steps := [Arrive(t, hit)];
    n' := After(cfg, n, Arrive(t, hit));
    OneStep(cfg, n, Arrive(t, hit));
    FollowsKeeps(cfg, n, steps, n');
  }

  predicate Simple(op: Op) { !op.InsertAudit? && !op.Reset? }

  /** Request t makes its next call, and it is answered before anything else happens. */
  lemma Calls(cfg: Config, n: Net, t: nat, rs: seq<Reply>, op: Op) returns (steps: seq<Step>, n': Net)
    requires Still(cfg, n) && t in n.tasks && Has(n, t, n.tasks[t].hit, rs)
    requires Next(cfg, n.tasks[t].hit, rs) == Ask(op) && Simple(op)
    ensures Follows(cfg, n, steps, n') && Still(cfg, n') && n'.tasks.Keys == n.tasks.Keys
    ensures Now(n'.s) == Apply(op, Now(n.s)).0
    ensures Has(n', t, n.tasks[t].hit, rs + [Apply(op, Now(n.s)).1])
    ensures forall u, hit, qs | u != t && Has(n, u, hit, qs) :: Has(n', u, hit, qs)
  {
    hide Invariant, AskedOk, Next, Apply, Do, Enabled, Follows;
    var c := NewCall(n.s);
    var m := After(cfg, n, Issue(t, c));
    OneStep(cfg, n, Issue(t, c));
    IssueKeeps(cfg, n, t, c);
    IssueIs(cfg, n, t, c, op);
    NetInvIs(cfg, m);
    var moves, s';
    if IsRead(op) {
      moves, s' := ReadAlone(m.s, c);
    } else {
      moves, s' := WriteAlone(m.s, c);
    }
    LedParts(m.s, moves, s');
    var work := WorkRuns(cfg, m, moves);
    n' := m.(s := s');
    steps := [Issue(t, c)] + work;
    JoinFollows(cfg, n, [Issue(t, c)], m, work, n');
    FollowsKeeps(cfg, n, steps, n');
    AfterCall(cfg, n, m, n', t, c, rs, op);
  }

  lemma LedParts(s: State, moves: seq<Move>, t: State)
    requires Led(s, moves, t)
    ensures CanRun(s, moves) && Run(s, moves) == t && NoInvoke(moves)
  {
  }

  lemma NetInvIs(cfg: Config, n: Net)
    requires NetInv(cfg, n)
    ensures Invariant(n.s) && Sane(n.s)
  {
  }

  /** A name for a call that is not in use. */
  lemma NewCall(s: State) returns (c: nat)
    ensures c !in s.calls
  {
    c := Above(s.calls.Keys);
  }

  lemma {:induction false} Above(keys: set<nat>) returns (c: nat)
    ensures forall k | k in keys :: k < c
    decreases |keys|
  {
    c := 0;
    if keys != {} {
      var k :| k in keys;
      c := Above(keys - {k});
      if c <= k { c := k + 1; }
      assert forall j | j in keys :: j == k || j in keys - {k};
    }
  }

  lemma IssueIs(cfg: Config, n: Net, t: nat, c: nat, op: Op)
    requires CanStep(cfg, n, Issue(t, c)) && Next(cfg, n.tasks[t].hit, Replies(n.s, n.tasks[t].asked)) == Ask(op)
    requires Simple(op) && Calm(n.s)
    ensures var m := After(cfg, n, Issue(t, c));
            && m.s.calls == n.s.calls[c := m.s.calls[c]] && c in m.s.calls
            && m.s.calls[c].op == op && m.s.calls[c].phase.Start?
            && Calm(m.s) && Now(m.s) == Now(n.s)
            && m.tasks == n.tasks[t := n.tasks[t].(asked := n.tasks[t].asked + [c])]
  {
    hide Next, Apply, Performs;
  }

  lemma AfterCall(cfg: Config, n: Net, m: Net, n': Net, t: nat, c: nat, rs: seq<Reply>, op: Op)
    requires Still(cfg, n) && NetInv(cfg, n') && t in n.tasks && c !in n.s.calls && Has(n, t, n.tasks[t].hit, rs)
    requires m.tasks == n.tasks[t := n.tasks[t].(asked := n.tasks[t].asked + [c])] && n'.tasks == m.tasks
    requires c in m.s.calls && m.s.calls == n.s.calls[c := m.s.calls[c]] && Calm(m.s) && Now(m.s) == Now(n.s)
    requires Made(m.s, n'.s, c, op, Apply(op, Now(m.s)).1)
    ensures Still(cfg, n') && Now(n'.s) == Apply(op, Now(n.s)).0
    ensures Has(n', t, n.tasks[t].hit, rs + [Apply(op, Now(n.s)).1])
    ensures forall u, hit, qs | u != t && Has(n, u, hit, qs) :: Has(n', u, hit, qs)
  {
    hide Invariant, AskedOk, Next, Apply, NetInv, Sane;
    assert n'.s.calls == n.s.calls[c := n'.s.calls[c]];
    var asked := n.tasks[t].asked;
    forall k | k in n'.s.calls ensures Over(n'.s, k) { assert k != c ==> Over(n.s, k); }
    assert AllOver(n'.s, asked + [c]) by { Extends(n.s, n'.s, asked, c); }
    Extends(n.s, n'.s, asked, c);
    forall u, hit, qs | u != t && Has(n, u, hit, qs) ensures Has(n', u, hit, qs) {
      Extends(n.s, n'.s, n.tasks[u].asked, c);
    }
  }

  lemma Extends(s: State, s': State, asked: seq<nat>, c: nat)
    requires AllOver(s, asked) && c !in s.calls && c in s'.calls && s'.calls == s.calls[c := s'.calls[c]] && Over(s', c)
    ensures AllOver(s', asked) && Replies(s', asked) == Replies(s, asked)
    ensures AllOver(s', asked + [c]) && Replies(s', asked + [c]) == Replies(s, asked) + [s'.calls[c].phase.reply]
  {
    forall i | 0 <= i < |asked| ensures Over(s', asked[i]) && s'.calls[asked[i]] == s.calls[asked[i]] {
      assert Over(s, asked[i]);
    }
  }

  // Whole requests, as far as they go.

  /** A request that has had its first call answered. */
  lemma Asks(cfg: Config, n: Net, t: nat, hit: Hit, op: Op) returns (steps: seq<Step>, n': Net)
    requires Still(cfg, n) && t !in n.tasks && Next(cfg, hit, []) == Ask(op) && Simple(op)
    ensures Follows(cfg, n, steps, n') && Still(cfg, n') && n'.tasks.Keys == n.tasks.Keys + {t}
    ensures Now(n'.s) == Apply(op, Now(n.s)).0 && Has(n', t, hit, [Apply(op, Now(n.s)).1])
    ensures forall u, h, qs | u != t && Has(n, u, h, qs) :: Has(n', u, h, qs)
  {
    hide Invariant, AskedOk, Next, Apply, Follows, NetInv;
    var first, m := Comes(cfg, n, t, hit);
    assert Has(m, t, hit, []);
    forall u, h, qs | u != t && Has(n, u, h, qs) ensures Has(m, u, h, qs) { }
    var second;
    second, n' := Calls(cfg, m, t, [], op);
    steps := first + second;
    JoinFollows(cfg, n, first, m, second, n');
    assert [] + [Apply(op, Now(m.s)).1] == [Apply(op, Now(n.s)).1];
  }

  /** A request that reads a row and then writes, both at once. */
  lemma AsksTwice(cfg: Config, n: Net, t: nat, hit: Hit, op: Op, write: Op) returns (steps: seq<Step>, n': Net)
    requires Still(cfg, n) && t !in n.tasks && Next(cfg, hit, []) == Ask(op) && Simple(op) && Simple(write)
    requires Apply(op, Now(n.s)).0 == Now(n.s) && Next(cfg, hit, [Apply(op, Now(n.s)).1]) == Ask(write)
    ensures Follows(cfg, n, steps, n') && Still(cfg, n') && n'.tasks.Keys == n.tasks.Keys + {t}
    ensures Now(n'.s) == Apply(write, Now(n.s)).0
    ensures forall u, h, qs | u != t && Has(n, u, h, qs) :: Has(n', u, h, qs)
  {
    hide Invariant, AskedOk, Next, Apply, Follows, NetInv;
    var first, m := Asks(cfg, n, t, hit, op);
    var second;
    second, n' := Calls(cfg, m, t, [Apply(op, Now(n.s)).1], write);
    steps := first + second;
    JoinFollows(cfg, n, first, m, second, n');
  }

  function Sent(req: Request, now: nat): Hit { Hit(req, true, "", "", now) }

  predicate Accepted(cfg: Config, body: UserBody) {
    body.UserProfile? && Validated(cfg.strict, body) == Some(body) && body.login != "" && body.email != ""
  }

  function UserAt(cfg: Config, body: UserBody, status: string, made: nat, changed: nat): User
    requires body.UserProfile?
  {
    User(NewID(cfg.sha, KIND_USER, body.login), body.login, body.email, status, body.raw, made, changed)
  }

  ghost predicate OnlyUser(n: Net, u: User) {
    n.s.current < |n.s.dbs| && Now(n.s) == NOTHING.(users := map[u.id := u])
  }

  lemma StillQuiet(cfg: Config)
    ensures Still(cfg, QUIET) && Now(QUIET.s) == NOTHING
  {
    QuietInv(cfg);
    EmptyIsGood();
  }

  /** The store holds one user, created with activate=false. */
  lemma Posted(cfg: Config, body: UserBody) returns (steps: seq<Step>, n: Net)
    requires Accepted(cfg, body)
    ensures Follows(cfg, QUIET, steps, n) && Still(cfg, n) && n.tasks.Keys == {0}
    ensures OnlyUser(n, UserAt(cfg, body, STAGED, 1, 1))
  {
    hide Invariant, AskedOk, Follows, NetInv, NewID, Next, QUIET;
    StillQuiet(cfg);
    var u, hit := UserAt(cfg, body, STAGED, 1, 1), Sent(ForUsers(PostUser(body, false)), 1);
    PostAsks(cfg, body, hit);
    NoTasks();
    steps, n := Asks(cfg, QUIET, 0, hit, OnUsers(UserOp.CreateUser(u)));
  }

  lemma NoTasks()
    ensures QUIET.tasks == map[]
  {
  }

  lemma PostAsks(cfg: Config, body: UserBody, hit: Hit)
    requires Accepted(cfg, body) && hit == Sent(ForUsers(PostUser(body, false)), 1)
    ensures Next(cfg, hit, []) == Ask(OnUsers(UserOp.CreateUser(UserAt(cfg, body, STAGED, 1, 1))))
  {
    hide NewID;
  }

  /** What the requests on the one user ask for. */
  lemma ReadFirst(cfg: Config, id: string, req: UserRequest, now: nat)
    requires req in {ActivateUser(id), DeactivateUser(id), DropUser(id)} || (req.PutUser? && req.id == id)
    ensures Next(cfg, Sent(ForUsers(req), now), []) == Ask(OnUsers(UserOp.GetUser(id)))
  {
  }

  lemma FlipSecond(cfg: Config, id: string, u: User, active: bool, now: nat)
    ensures Next(cfg, Sent(ForUsers(if active then ActivateUser(id) else DeactivateUser(id)), now), [OneUser(u)])
         == Ask(OnUsers(UserOp.UpdateUser(u.(status := if active then ACTIVE else DEPROVISIONED, updatedAt := now))))
  {
    assert [OneUser(u)][..0] == [];
  }

  lemma PutSecond(cfg: Config, id: string, u: User, body: UserBody, now: nat)
    requires Accepted(cfg, body)
    ensures Next(cfg, Sent(ForUsers(PutUser(id, body)), now), [OneUser(u)])
         == Ask(OnUsers(UserOp.UpdateUser(
                 u.(login := body.login, email := body.email, profile := body.raw, updatedAt := now))))
  {
    assert [OneUser(u)][..0] == [];
  }

  lemma DropSecond(cfg: Config, id: string, u: User, now: nat)
    requires u.status == DEPROVISIONED
    ensures Next(cfg, Sent(ForUsers(DropUser(id)), now), [OneUser(u)]) == Ask(OnUsers(UserOp.DeleteUser(id)))
  {
    assert [OneUser(u)][..0] == [];
  }

  lemma OneUserReads(m: Rows, u: User)
    requires m == NOTHING.(users := map[u.id := u])
    ensures Apply(OnUsers(UserOp.GetUser(u.id)), m) == (m, OneUser(u))
  {
  }

  lemma OneUserWrites(m: Rows, u: User, u': User)
    requires m == NOTHING.(users := map[u.id := u]) && u'.id == u.id && Storable(u')
    ensures Apply(OnUsers(UserOp.UpdateUser(u')), m) == (NOTHING.(users := map[u.id := u']), Done)
  {
    assert m.users[u.id := u'] == map[u.id := u'];
  }

  /** A whole activate or deactivate of the one user, with nothing in between. */
  lemma Flips(cfg: Config, n: Net, t: nat, u: User, active: bool, now: nat) returns (steps: seq<Step>, n': Net)
    requires Still(cfg, n) && t !in n.tasks && OnlyUser(n, u) && Storable(u)
    ensures Follows(cfg, n, steps, n') && Still(cfg, n') && n'.tasks.Keys == n.tasks.Keys + {t}
    ensures OnlyUser(n', u.(status := if active then ACTIVE else DEPROVISIONED, updatedAt := now))
    ensures forall v, h, qs | v != t && Has(n, v, h, qs) :: Has(n', v, h, qs)
  {
    hide Invariant, AskedOk, Follows, NetInv, Next, Apply, Has;
    var req := if active then ActivateUser(u.id) else DeactivateUser(u.id);
    var u' := u.(status := if active then ACTIVE else DEPROVISIONED, updatedAt := now);
    ReadFirst(cfg, u.id, req, now);
    OneUserReads(Now(n.s), u);
    FlipSecond(cfg, u.id, u, active, now);
    OneUserWrites(Now(n.s), u, u');
    steps, n' := AsksTwice(cfg, n, t, Sent(ForUsers(req), now),
                           OnUsers(UserOp.GetUser(u.id)), OnUsers(UserOp.UpdateUser(u')));
  }

  /**
    A PUT that reads the user before an activate and writes after it: for any accepted body
    there is a state of a run where the user is ACTIVE, and from it a run to one where it is
    STAGED again, with no request on the way but the PUT.
  */
  lemma PutBringsStagedBack(cfg: Config, body: UserBody)
    returns (before: seq<Step>, n: Net, after: seq<Step>, n': Net)
    requires Accepted(cfg, body)
    ensures Follows(cfg, QUIET, before, n) && Follows(cfg, n, after, n')
    ensures OnlyUser(n, UserAt(cfg, body, ACTIVE, 1, 3)) && OnlyUser(n', UserAt(cfg, body, STAGED, 1, 2))
  {
    hide Invariant, AskedOk, Follows, NetInv, Next, Apply, Has, NewID, QUIET;
    var u, put := UserAt(cfg, body, STAGED, 1, 1), Sent(ForUsers(PutUser(UserAt(cfg, body, STAGED, 1, 1).id, body)), 2);
    var s1, n1 := Posted(cfg, body);
    ReadFirst(cfg, u.id, put.req.users, 2);
    OneUserReads(Now(n1.s), u);
    var s2, n2 := Asks(cfg, n1, 1, put, OnUsers(UserOp.GetUser(u.id)));
    var s3, n3 := Flips(cfg, n2, 2, u, true, 3);
    JoinFollows(cfg, QUIET, s1, n1, s2, n2);
    JoinFollows(cfg, QUIET, s1 + s2, n2, s3, n3);
    before, n := s1 + s2 + s3, n3;
    PutSecond(cfg, u.id, u, body, 2);
    var active, back := UserAt(cfg, body, ACTIVE, 1, 3), UserAt(cfg, body, STAGED, 1, 2);
    OneUserWrites(Now(n3.s), active, back);
    HasTask(n3, 1, put, [OneUser(u)]);
    after, n' := Calls(cfg, n3, 1, [OneUser(u)], OnUsers(UserOp.UpdateUser(back)));
  }

  lemma HasTask(n: Net, t: nat, hit: Hit, rs: seq<Reply>)
    requires Has(n, t, hit, rs)
    ensures t in n.tasks && n.tasks[t].hit == hit
  {
  }

  /**
    A DELETE that reads the user as DEPROVISIONED before an activate and deletes after it:
    there is a state of a run where the user is ACTIVE, and from it a run to one without it,
    with no request on the way but the DELETE.
  */
  lemma DropRemovesActiveUser(cfg: Config, body: UserBody)
    returns (before: seq<Step>, n: Net, after: seq<Step>, n': Net)
    requires Accepted(cfg, body)
    ensures Follows(cfg, QUIET, before, n) && Follows(cfg, n, after, n')
    ensures OnlyUser(n, UserAt(cfg, body, ACTIVE, 1, 4))
    ensures n'.s.current < |n'.s.dbs| && Now(n'.s).users == map[]
  {
    hide Invariant, AskedOk, Follows, NetInv, Next, Apply, Has, NewID, QUIET;
    var u := UserAt(cfg, body, STAGED, 1, 1);
    var gone, drop := UserAt(cfg, body, DEPROVISIONED, 1, 2), Sent(ForUsers(DropUser(u.id)), 3);
    var s1, n1 := Posted(cfg, body);
    var s2, n2 := Flips(cfg, n1, 1, u, false, 2);
    ReadFirst(cfg, u.id, drop.req.users, 3);
    OneUserReads(Now(n2.s), gone);
    var s3, n3 := Asks(cfg, n2, 2, drop, OnUsers(UserOp.GetUser(u.id)));
    var s4, n4 := Flips(cfg, n3, 3, gone, true, 4);
    JoinFollows(cfg, QUIET, s1, n1, s2, n2);
    JoinFollows(cfg, QUIET, s1 + s2, n2, s3, n3);
    JoinFollows(cfg, QUIET, s1 + s2 + s3, n3, s4, n4);
    before, n := s1 + s2 + s3 + s4, n4;
    DropSecond(cfg, u.id, gone, 3);
    HasTask(n4, 2, drop, [OneUser(gone)]);
    after, n' := Calls(cfg, n4, 2, [OneUser(gone)], OnUsers(UserOp.DeleteUser(u.id)));
    OneUserDeleted(Now(n4.s), UserAt(cfg, body, ACTIVE, 1, 4));
  }

  lemma OneUserDeleted(m: Rows, u: User)
    requires m == NOTHING.(users := map[u.id := u])
    ensures Apply(OnUsers(UserOp.DeleteUser(u.id)), m).0.users == map[]
  {
  }

  // The same for an app.

  function AppAt(cfg: Config, body: AppBody, status: string): App
    requires body.AppFields?
  {
    App(NewID(cfg.sha, KIND_APP, body.labelText), FirstNonEmpty(body.name, body.labelText), body.labelText, status,
        body.signOnMode, body.settings, 1)
  }

  predicate AcceptedApp(body: AppBody) { body.AppFields? && body.signOnMode == SAML && body.labelText != "" }

  ghost predicate OnlyApp(n: Net, a: App) {
    n.s.current < |n.s.dbs| && Now(n.s) == NOTHING.(apps := map[a.id := a])
  }

  lemma PostedApp(cfg: Config, body: AppBody) returns (steps: seq<Step>, n: Net)
    requires AcceptedApp(body)
    ensures Follows(cfg, QUIET, steps, n) && Still(cfg, n) && n.tasks.Keys == {0}
    ensures OnlyApp(n, AppAt(cfg, body, ACTIVE))
  {
    hide Invariant, AskedOk, Follows, NetInv, NewID, Next, QUIET;
    StillQuiet(cfg);
    var a, hit := AppAt(cfg, body, ACTIVE), Sent(ForApps(PostApp(body)), 1);
    PostAppAsks(cfg, body, hit);
    NoTasks();
    steps, n := Asks(cfg, QUIET, 0, hit, OnApps(AppOp.CreateApp(a)));
    FirstApp(a);
  }

  lemma FirstApp(a: App)
    requires StorableApp(a)
    ensures Apply(OnApps(AppOp.CreateApp(a)), NOTHING).0 == NOTHING.(apps := map[a.id := a])
  {
  }

  lemma PostAppAsks(cfg: Config, body: AppBody, hit: Hit)
    requires AcceptedApp(body) && hit == Sent(ForApps(PostApp(body)), 1)
    ensures Next(cfg, hit, []) == Ask(OnApps(AppOp.CreateApp(AppAt(cfg, body, ACTIVE))))
    ensures StorableApp(AppAt(cfg, body, ACTIVE))
  {
    hide NewID;
  }

  lemma ReadAppFirst(cfg: Config, id: string, req: AppRequest, now: nat)
    requires req in {ActivateApp(id), DeactivateApp(id), DropApp(id)}
    ensures Next(cfg, Sent(ForApps(req), now), []) == Ask(OnApps(AppOp.GetApp(id)))
  {
  }

  lemma FlipAppSecond(cfg: Config, id: string, a: App, active: bool, now: nat)
    ensures Next(cfg, Sent(ForApps(if active then ActivateApp(id) else DeactivateApp(id)), now), [OneApp(a)])
         == Ask(OnApps(AppOp.UpdateApp(a.(status := if active then ACTIVE else INACTIVE))))
  {
    assert [OneApp(a)][..0] == [];
  }

  lemma DropAppSecond(cfg: Config, id: string, a: App, now: nat)
    requires a.status == INACTIVE
    ensures Next(cfg, Sent(ForApps(DropApp(id)), now), [OneApp(a)]) == Ask(OnApps(AppOp.DeleteApp(a.id)))
  {
    assert [OneApp(a)][..0] == [];
  }

  lemma OneAppReads(m: Rows, a: App)
    requires m == NOTHING.(apps := map[a.id := a])
    ensures Apply(OnApps(AppOp.GetApp(a.id)), m) == (m, OneApp(a))
    ensures Apply(OnApps(AppOp.DeleteApp(a.id)), m).0.apps == map[]
  {
  }

  lemma OneAppWrites(m: Rows, a: App, a': App)
    requires m == NOTHING.(apps := map[a.id := a]) && a'.id == a.id && StorableApp(a')
    ensures Apply(OnApps(AppOp.UpdateApp(a')), m) == (NOTHING.(apps := map[a.id := a']), Done)
  {
    assert m.apps[a.id := a'] == map[a.id := a'];
  }

  lemma FlipsApp(cfg: Config, n: Net, t: nat, a: App, active: bool, now: nat) returns (steps: seq<Step>, n': Net)
    requires Still(cfg, n) && t !in n.tasks && OnlyApp(n, a) && StorableApp(a)
    ensures Follows(cfg, n, steps, n') && Still(cfg, n') && n'.tasks.Keys == n.tasks.Keys + {t}
    ensures OnlyApp(n', a.(status := if active then ACTIVE else INACTIVE))
    ensures forall v, h, qs | v != t && Has(n, v, h, qs) :: Has(n', v, h, qs)
  {
    hide Invariant, AskedOk, Follows, NetInv, Next, Apply, Has;
    var req := if active then ActivateApp(a.id) else DeactivateApp(a.id);
    var a' := a.(status := if active then ACTIVE else INACTIVE);
    ReadAppFirst(cfg, a.id, req, now);
    OneAppReads(Now(n.s), a);
    FlipAppSecond(cfg, a.id, a, active, now);
    OneAppWrites(Now(n.s), a, a');
    steps, n' := AsksTwice(cfg, n, t, Sent(ForApps(req), now), OnApps(AppOp.GetApp(a.id)), OnApps(AppOp.UpdateApp(a')));
  }

  /**
    A DELETE that reads the app as INACTIVE before an activate and deletes after it: there is
    a state of a run where the app is ACTIVE, and from it a run to one without it, with no
    request on the way but the DELETE.
  */
  lemma DropRemovesActiveApp(cfg: Config, body: AppBody)
    returns (before: seq<Step>, n: Net, after: seq<Step>, n': Net)
    requires AcceptedApp(body)
    ensures Follows(cfg, QUIET, before, n) && Follows(cfg, n, after, n')
    ensures OnlyApp(n, AppAt(cfg, body, ACTIVE))
    ensures n'.s.current < |n'.s.dbs| && Now(n'.s).apps == map[]
  {
    hide Invariant, AskedOk, Follows, NetInv, Next, Apply, Has, NewID, QUIET;
    var a, idle := AppAt(cfg, body, ACTIVE), AppAt(cfg, body, INACTIVE);
    var drop := Sent(ForApps(DropApp(a.id)), 3);
    var s1, n1 := PostedApp(cfg, body);
    PostAppAsks(cfg, body, Sent(ForApps(PostApp(body)), 1));
    var s2, n2 := FlipsApp(cfg, n1, 1, a, false, 2);
    ReadAppFirst(cfg, a.id, drop.req.apps, 3);
    OneAppReads(Now(n2.s), idle);
    var s3, n3 := Asks(cfg, n2, 2, drop, OnApps(AppOp.GetApp(a.id)));
    var s4, n4 := FlipsApp(cfg, n3, 3, idle, true, 4);
    JoinFollows(cfg, QUIET, s1, n1, s2, n2);
    JoinFollows(cfg, QUIET, s1 + s2, n2, s3, n3);
    JoinFollows(cfg, QUIET, s1 + s2 + s3, n3, s4, n4);
    before, n := s1 + s2 + s3 + s4, n4;
    DropAppSecond(cfg, a.id, idle, 3);
    HasTask(n4, 2, drop, [OneApp(idle)]);
    after, n' := Calls(cfg, n4, 2, [OneApp(idle)], OnApps(AppOp.DeleteApp(a.id)));
    OneAppReads(Now(n4.s), a);
  }
}
