/**
  Requests in flight. Each request runs its program, one store call after the other, and the
  calls of all requests interleave over the store machine. What a write says of earlier
  reads is derived here from the programs.
*/
module Network {
  import opened Audited
  import opened Concurrency
  import opened Creation
  import opened Filters
  import opened Gaps
  import opened Ids
  import opened Interleaved
  import opened Model
  import opened Profiles
  import opened Programs
  import opened Requests
  import opened Wrappers

  /** A request and the calls it has made, in order. */
  datatype Task = Task(hit: Hit, asked: seq<nat>)

  /** Which call of which request a store call is; a ghost record. */
  datatype Origin = Origin(task: nat, at: nat)

  datatype Net = Net(s: State, tasks: map<nat, Task>, origins: map<nat, Origin>)

  const QUIET := Net(INIT, map[], map[])

  datatype Step =
    | Arrive(task: nat, hit: Hit)
    | Issue(task: nat, call: nat)    // the request makes its next call
    | Work(move: Move)               // a call goes on

  predicate Over(s: State, c: nat) { c in s.calls && s.calls[c].phase.Returned? }

  predicate AllOver(s: State, asked: seq<nat>) { forall i | 0 <= i < |asked| :: Over(s, asked[i]) }

  function Replies(s: State, asked: seq<nat>): seq<Reply>
    requires AllOver(s, asked)
  {
    seq(|asked|, i requires 0 <= i < |asked| => assert Over(s, asked[i]); s.calls[asked[i]].phase.reply)
  }

  ghost predicate CanStep(cfg: Config, n: Net, step: Step) {
    Sane(n.s) &&
    match step
    case Arrive(t, _) => t !in n.tasks
    case Issue(t, c) =>
      && t in n.tasks && c !in n.s.calls && AllOver(n.s, n.tasks[t].asked)
      && Next(cfg, n.tasks[t].hit, Replies(n.s, n.tasks[t].asked)).Ask?
    case Work(mv) => !mv.Invoke? && Enabled(n.s, mv)
  }

  ghost function After(cfg: Config, n: Net, step: Step): Net
    requires CanStep(cfg, n, step)
  {
    match step
    case Arrive(t, hit) => n.(tasks := n.tasks[t := Task(hit, [])])
    case Issue(t, c) =>
      var task := n.tasks[t];
      var op := Next(cfg, task.hit, Replies(n.s, task.asked)).op;
      Net(Do(n.s, Invoke(c, op)), n.tasks[t := task.(asked := task.asked + [c])],
          n.origins[c := Origin(t, |task.asked|)])
    case Work(mv) => n.(s := Do(n.s, mv))
  }

  // What holds in every state of every run.

  /** The operation a call has is the one its program asked for; an append has its number filled in. */
  predicate Matches(op: Op, a: Action) { a.Ask? && SameButNumber(a.op, op) }

  ghost predicate AskedOk(cfg: Config, n: Net, t: nat, k: nat) {
    t in n.tasks && k < |n.tasks[t].asked| ==>
      var (hit, asked) := (n.tasks[t].hit, n.tasks[t].asked);
      && asked[k] in n.s.calls && asked[k] in n.origins && n.origins[asked[k]] == Origin(t, k)
      && AllOver(n.s, asked[..k])
      && Matches(n.s.calls[asked[k]].op, Next(cfg, hit, Replies(n.s, asked[..k])))
      && forall j | 0 <= j < k :: Before(n.s, asked[j], asked[k])
  }

  /** Call a had returned when call b was made. */
  predicate Before(s: State, a: nat, b: nat) {
    && a in s.calls && b in s.calls && s.calls[a].returnedAt.Some?
    && s.calls[a].returnedAt.value <= s.calls[b].invokedAt
  }

  predicate OriginOk(n: Net, c: nat) {
    c in n.s.calls ==>
      && c in n.origins && n.origins[c].task in n.tasks
      && n.origins[c].at < |n.tasks[n.origins[c].task].asked|
      && n.tasks[n.origins[c].task].asked[n.origins[c].at] == c
  }

  ghost predicate NetInv(cfg: Config, n: Net) {
    && Invariant(n.s) && Sane(n.s)
    && (forall t: nat, k: nat {:trigger AskedOk(cfg, n, t, k)} :: AskedOk(cfg, n, t, k))
    && (forall c: nat {:trigger OriginOk(n, c)} :: OriginOk(n, c))
  }

  /** A call keeps its operation, but for the number of an append. */
  predicate OpStays(s: State, s': State, c: nat) {
    c in s.calls ==>
      c in s'.calls && SameButNumber(s.calls[c].op, s'.calls[c].op)
  }

  lemma OpsStay(s: State, mv: Move, c: nat)
    requires Invariant(s) && Sane(s) && Enabled(s, mv) && !mv.Invoke?
    ensures OpStays(s, Do(s, mv), c) && (c in Do(s, mv).calls ==> c in s.calls)
  {
    hide RootsOk, LocksOk, LogOk, Apply, Performs, Swap, Concurrency.Answer, PhaseOk, EffectOk;
    if mv.Advance? && s.calls[mv.who].phase.Locked? {
      SwapKeepsOps(s, mv.who);
    } else {
      assert CallOk(s, mv.who);
      OneMovesIn(s, mv, Do(s, mv));
    }
  }

  /** What is over stays as it was: the replies given, and who came before whom. */
  lemma PastStays(s: State, s': State, asked: seq<nat>)
    requires Later(s, s') && AllOver(s, asked)
    ensures AllOver(s', asked) && Replies(s', asked) == Replies(s, asked)
  {
    forall i | 0 <= i < |asked| ensures Over(s', asked[i]) && s'.calls[asked[i]] == s.calls[asked[i]] {
      assert Over(s, asked[i]) && Remembers(s, s', asked[i]);
    }
  }

  lemma AskedStays(cfg: Config, n: Net, n': Net, t: nat, k: nat)
    requires Later(n.s, n'.s) && AskedOk(cfg, n, t, k)
    requires t in n.tasks && k < |n.tasks[t].asked| && t in n'.tasks && n'.tasks[t].hit == n.tasks[t].hit
    requires n.tasks[t].asked <= n'.tasks[t].asked
    requires OpStays(n.s, n'.s, n.tasks[t].asked[k])
    requires forall c | c in n.origins :: c in n'.origins && n'.origins[c] == n.origins[c]
    ensures AskedOk(cfg, n', t, k)
  {
    hide Next;
    var asked := n.tasks[t].asked;
    assert n'.tasks[t].asked[..k] == asked[..k] && n'.tasks[t].asked[k] == asked[k];
    PastStays(n.s, n'.s, asked[..k]);
    forall j | 0 <= j < k ensures Before(n'.s, asked[j], asked[k]) {
      assert Before(n.s, asked[j], asked[k]) && asked[..k][j] == asked[j] && Over(n.s, asked[j]);
      assert Remembers(n.s, n'.s, asked[j]) && Remembers(n.s, n'.s, asked[k]);
    }
  }

  lemma WorkKeeps(cfg: Config, n: Net, mv: Move)
    requires NetInv(cfg, n) && CanStep(cfg, n, Work(mv))
    ensures NetInv(cfg, After(cfg, n, Work(mv)))
  {
    hide Invariant, Do, Enabled, Next, AskedOk, Later;
    var n' := After(cfg, n, Work(mv));
    StepKeepsInvariant(n.s, mv);
    StepIsLater(n.s, mv);
    forall c: nat ensures OriginOk(n', c) {
      assert OriginOk(n, c);
      OpsStay(n.s, mv, c);
    }
    forall t: nat, k: nat ensures AskedOk(cfg, n', t, k) {
      assert AskedOk(cfg, n, t, k);
      if t in n.tasks && k < |n.tasks[t].asked| {
        OpsStay(n.s, mv, n.tasks[t].asked[k]);
        AskedStays(cfg, n, n', t, k);
      } else {
        NothingAsked(cfg, n', t, k);
      }
    }
  }

  lemma NothingAsked(cfg: Config, n: Net, t: nat, k: nat)
    requires !(t in n.tasks && k < |n.tasks[t].asked|)
    ensures AskedOk(cfg, n, t, k)
  {
  }

  lemma ArriveKeeps(cfg: Config, n: Net, t: nat, hit: Hit)
    requires NetInv(cfg, n) && CanStep(cfg, n, Arrive(t, hit))
    ensures NetInv(cfg, After(cfg, n, Arrive(t, hit)))
  {
    hide Invariant, Next, Later, Remembers;
    var n' := After(cfg, n, Arrive(t, hit));
    forall c: nat ensures OriginOk(n', c) { assert OriginOk(n, c); }
    forall u: nat, k: nat ensures AskedOk(cfg, n', u, k) { assert AskedOk(cfg, n, u, k); }
  }

  lemma IssueKeeps(cfg: Config, n: Net, t: nat, c: nat)
    requires NetInv(cfg, n) && CanStep(cfg, n, Issue(t, c))
    ensures NetInv(cfg, After(cfg, n, Issue(t, c)))
  {
    hide Invariant, Next, AskedOk, Later;
    var n' := After(cfg, n, Issue(t, c));
    var op := Next(cfg, n.tasks[t].hit, Replies(n.s, n.tasks[t].asked)).op;
    StepKeepsInvariant(n.s, Invoke(c, op));
    StepIsLater(n.s, Invoke(c, op));
    forall d: nat ensures OriginOk(n', d) { assert OriginOk(n, d); }
    forall u: nat, k: nat ensures AskedOk(cfg, n', u, k) {
      assert AskedOk(cfg, n, u, k);
      if u == t && k == |n.tasks[t].asked| {
        NewlyAsked(cfg, n, t, c);
      } else if u in n.tasks && k < |n.tasks[u].asked| {
        AskedIsOld(cfg, n, u, k);
        OldAsked(cfg, n, n', u, k, c);
      } else {
        NothingAsked(cfg, n', u, k);
      }
    }
  }

  lemma AskedIsOld(cfg: Config, n: Net, t: nat, k: nat)
    requires AskedOk(cfg, n, t, k) && t in n.tasks && k < |n.tasks[t].asked|
    ensures n.tasks[t].asked[k] in n.s.calls
  {
  }

  /** As AskedStays, when the one new origin is that of a call that was not there before. */
  lemma OldAsked(cfg: Config, n: Net, n': Net, t: nat, k: nat, c: nat)
    requires Later(n.s, n'.s) && AskedOk(cfg, n, t, k) && c !in n.s.calls
    requires t in n.tasks && k < |n.tasks[t].asked| && t in n'.tasks && n'.tasks[t].hit == n.tasks[t].hit
    requires n.tasks[t].asked <= n'.tasks[t].asked
    requires forall d | d in n.s.calls :: d in n'.s.calls && n'.s.calls[d] == n.s.calls[d]
    requires forall d | d in n.origins && d != c :: d in n'.origins && n'.origins[d] == n.origins[d]
    ensures AskedOk(cfg, n', t, k)
  {
    hide Next;
    var asked := n.tasks[t].asked;
    assert n'.tasks[t].asked[..k] == asked[..k] && n'.tasks[t].asked[k] == asked[k];
    PastStays(n.s, n'.s, asked[..k]);
    forall j | 0 <= j < k ensures Before(n'.s, asked[j], asked[k]) { assert Before(n.s, asked[j], asked[k]); }
  }

  lemma NewlyAsked(cfg: Config, n: Net, t: nat, c: nat)
    requires NetInv(cfg, n) && CanStep(cfg, n, Issue(t, c))
    ensures AskedOk(cfg, After(cfg, n, Issue(t, c)), t, |n.tasks[t].asked|)
  {
    hide Next, Later, LocksOk, LogOk, RootsOk, PhaseOk, Apply;
    var n', asked := After(cfg, n, Issue(t, c)), n.tasks[t].asked;
    var k := |asked|;
    assert n'.tasks[t].asked[..k] == asked;
    forall i | 0 <= i < k ensures Over(n'.s, asked[i]) && n'.s.calls[asked[i]] == n.s.calls[asked[i]] {
      assert Over(n.s, asked[i]);
    }
    assert Replies(n'.s, asked) == Replies(n.s, asked);
    forall j | 0 <= j < k ensures Before(n'.s, asked[j], c) {
      assert Over(n.s, asked[j]) && CallOk(n.s, asked[j]);
    }
  }

  lemma StepKeepsNet(cfg: Config, n: Net, step: Step)
    requires NetInv(cfg, n) && CanStep(cfg, n, step)
    ensures NetInv(cfg, After(cfg, n, step))
  {
    hide NetInv, CanStep, After;
    match step
    case Arrive(t, hit) => ArriveKeeps(cfg, n, t, hit);
    case Issue(t, c) => IssueKeeps(cfg, n, t, c);
    case Work(mv) => WorkKeeps(cfg, n, mv);
  }

  ghost predicate Runs(cfg: Config, n: Net, steps: seq<Step>)
    decreases |steps|
  {
    steps == [] || (CanStep(cfg, n, steps[0]) && Runs(cfg, After(cfg, n, steps[0]), steps[1..]))
  }

  ghost function Outcome(cfg: Config, n: Net, steps: seq<Step>): Net
    requires Runs(cfg, n, steps)
    decreases |steps|
  {
    if steps == [] then n else Outcome(cfg, After(cfg, n, steps[0]), steps[1..])
  }

  lemma {:induction false} RunKeepsNet(cfg: Config, n: Net, steps: seq<Step>)
    requires NetInv(cfg, n) && Runs(cfg, n, steps)
    ensures NetInv(cfg, Outcome(cfg, n, steps))
    decreases |steps|
  {
    hide NetInv, CanStep, After;
    if steps != [] {
      StepKeepsNet(cfg, n, steps[0]);
      RunKeepsNet(cfg, After(cfg, n, steps[0]), steps[1..]);
    }
  }

  lemma QuietInv(cfg: Config)
    ensures NetInv(cfg, QUIET)
  {
    InitInvariant();
    InvariantIsSane(INIT);
  }

  // Where the writes in the log come from.

  function CauseFrom(hit: Hit, op: Op, j: nat): Cause {
    match hit.req
    case ForUsers(PostUser(body, activate)) => UserBuilt(body, activate, hit.now)
    case ForUsers(PutUser(_, body)) => UserEdited(j, body, hit.now)
    case ForUsers(ActivateUser(_)) => UserFlipped(j, ACTIVE, hit.now)
    case ForUsers(DeactivateUser(_)) => UserFlipped(j, DEPROVISIONED, hit.now)
    case ForUsers(DropUser(_)) =>
      if op.OnUsers? && op.users.DeleteUser? then UserDropped(j) else UserFlipped(j, DEPROVISIONED, hit.now)
    case ForGroups(PostGroup(body)) => GroupBuilt(body, hit.now)
    case ForGroups(PutGroup(_, body)) => GroupEdited(j, body)
    case ForApps(PostApp(body)) => AppBuilt(body, hit.now)
    case ForApps(PutApp(_, body)) => AppEdited(j, body)
    case ForApps(ActivateApp(_)) => AppFlipped(j, ACTIVE)
    case ForApps(DeactivateApp(_)) => AppFlipped(j, INACTIVE)
    case ForApps(DropApp(_)) => AppDropped(j)
    case _ => Nowhere
  }

  predicate HonestIf(rd: Option<Reader>, req: Request) { rd.Some? ==> Honest(rd.value, req) }

  /** Event i is what the request asks for after these replies, and event j its first call with the first of them. */
  predicate Asks(cfg: Config, req: Request, now: nat, rs: seq<Reply>, log: seq<Event>, i: nat, j: nat) {
    && i < |log| && RequestNext(cfg, req, now, rs) == Ask(log[i].op)
    && (rs != [] ==> j < i && log[j].reply == rs[0] && RequestNext(cfg, req, now, []) == Ask(log[j].op))
  }

  lemma UserEventIsIssued(cfg: Config, rd: Option<Reader>, req: UserRequest, hit: Hit, rs: seq<Reply>, log: seq<Event>,
                          i: nat, j: nat)
    requires hit.req == ForUsers(req) && HonestIf(rd, hit.req) && Asks(cfg, hit.req, hit.now, rs, log, i, j)
    ensures Issued(cfg, rd, log, i, CauseFrom(hit, log[i].op, j))
  {
    hide NewID, LimitOf, ParseUserFilter, Limited, Selected, LooksValid;
    ProgramsEnd(cfg, hit.req, hit.now, rs);
  }

  lemma GroupEventIsIssued(cfg: Config, rd: Option<Reader>, req: GroupRequest, hit: Hit, rs: seq<Reply>,
                           log: seq<Event>,
                           i: nat, j: nat)
    requires hit.req == ForGroups(req) && HonestIf(rd, hit.req) && Asks(cfg, hit.req, hit.now, rs, log, i, j)
    ensures Issued(cfg, rd, log, i, CauseFrom(hit, log[i].op, j))
  {
    hide NewID, LimitOf, Limited, Selected, UsersAnswered;
    ProgramsEnd(cfg, hit.req, hit.now, rs);
  }

  lemma AppEventIsIssued(cfg: Config, rd: Option<Reader>, req: AppRequest, hit: Hit, rs: seq<Reply>, log: seq<Event>,
                         i: nat, j: nat)
    requires hit.req == ForApps(req) && Asks(cfg, hit.req, hit.now, rs, log, i, j)
    ensures Issued(cfg, rd, log, i, CauseFrom(hit, log[i].op, j))
  {
    hide NewID, LimitOf, ParseAppFilter, Limited, Selected;
    ProgramsEnd(cfg, hit.req, hit.now, rs);
  }

  /** A request that is answered without any store call is answered so whatever it is told. */
  lemma AnsweredAtOnce(cfg: Config, req: Request, now: nat, rs: seq<Reply>)
    requires RequestNext(cfg, req, now, []).Answer?
    ensures RequestNext(cfg, req, now, rs).Answer?
  {
    hide NewID, LimitOf, ParseUserFilter, ParseAppFilter, Limited, Selected, UsersAnswered, Validated, Lookup;
  }

  /** What a request with its middleware asks for is either its append or what its handler asks for. */
  lemma AsksOrAppends(cfg: Config, hit: Hit, rs: seq<Reply>, op: Op)
    requires Matches(op, Next(cfg, hit, rs))
    ensures op.InsertAudit? || (hit.authorized && RequestNext(cfg, hit.req, hit.now, rs) == Ask(op))
  {
    hide RequestNext;
  }

  lemma EventIsIssued(cfg: Config, rd: Option<Reader>, hit: Hit, rs: seq<Reply>, log: seq<Event>, i: nat, j: nat)
    requires i < |log| && HonestIf(rd, hit.req) && Matches(log[i].op, Next(cfg, hit, rs))
    requires rs != [] ==> j < i && log[j].reply == rs[0] && Matches(log[j].op, Next(cfg, hit, []))
    ensures Issued(cfg, rd, log, i, CauseFrom(hit, log[i].op, j))
  {
    hide Next, RequestNext, CauseFrom, UserMade, GroupMade, AppMade, HonestIf;
    AsksOrAppends(cfg, hit, rs, log[i].op);
    if !log[i].op.InsertAudit? {
      if rs != [] {
        AsksOrAppends(cfg, hit, [], log[j].op);
        FirstIsNoAppend(cfg, hit, rs, log[j].op);
      }
      match hit.req
      case ForUsers(r) => UserEventIsIssued(cfg, rd, r, hit, rs, log, i, j);
      case ForGroups(r) => GroupEventIsIssued(cfg, rd, r, hit, rs, log, i, j);
      case ForApps(r) => AppEventIsIssued(cfg, rd, r, hit, rs, log, i, j);
      case _ => OtherEvents(cfg, hit, rs, log[i].op);
    }
  }

  lemma FirstIsNoAppend(cfg: Config, hit: Hit, rs: seq<Reply>, first: Op)
    requires Matches(first, Next(cfg, hit, [])) && hit.authorized && RequestNext(cfg, hit.req, hit.now, rs).Ask?
    ensures !first.InsertAudit?
  {
    if RequestNext(cfg, hit.req, hit.now, []).Answer? { AnsweredAtOnce(cfg, hit.req, hit.now, rs); }
    HandlersNeverAppend(cfg, hit.req, hit.now, []);
  }

  lemma OtherEvents(cfg: Config, hit: Hit, rs: seq<Reply>, op: Op)
    requires RequestNext(cfg, hit.req, hit.now, rs) == Ask(op) && (hit.req.ResetAll? || hit.req.Unrouted?)
    ensures op == Op.Reset
  {
  }

  ghost function CauseAt(n: Net, i: nat): Cause
    requires i < |n.s.log|
  {
    var c := n.s.log[i].who;
    if c in n.origins && n.origins[c].task in n.tasks && n.tasks[n.origins[c].task].asked != [] then
      var task := n.tasks[n.origins[c].task];
      var first := task.asked[0];
      CauseFrom(task.hit, n.s.log[i].op,
                if first in n.s.calls && n.s.calls[first].effect.Some? then n.s.calls[first].effect.value else 0)
    else Nowhere
  }

  ghost function CausesOf(n: Net): seq<Cause> { seq(|n.s.log|, i requires 0 <= i < |n.s.log| => CauseAt(n, i)) }

  predicate HonestHits(rd: Option<Reader>, n: Net) { forall t | t in n.tasks :: HonestIf(rd, n.tasks[t].hit.req) }

  /** The call of event i, and the request it belongs to. */
  lemma EventHasOrigin(cfg: Config, n: Net, i: nat)
    requires NetInv(cfg, n) && i < |n.s.log|
    ensures var c := n.s.log[i].who;
            && c in n.s.calls && n.s.calls[c].op == n.s.log[i].op && n.s.calls[c].effect == Some(i)
            && n.s.calls[c].invokedAt <= i
            && OriginOk(n, c) && AskedOk(cfg, n, n.origins[c].task, n.origins[c].at)
  {
    hide Apply, Good, Replay, Truthful, Next, AskedOk, LocksOk, RootsOk;
    assert EventOk(n.s, i) && CallOk(n.s, n.s.log[i].who);
  }

  /** A call that has returned is in the log before its return, with its reply. */
  lemma ReturnedIsLogged(s: State, c: nat)
    requires Invariant(s) && Over(s, c)
    ensures var call := s.calls[c];
            && call.effect.Some? && call.returnedAt.Some? && call.effect.value < call.returnedAt.value <= |s.log|
            && s.log[call.effect.value] == Event(c, call.op, call.phase.reply)
  {
    hide Apply, Good, Replay, Truthful, LocksOk, RootsOk, LogOk;
    assert CallOk(s, c);
  }

  lemma NetEventIsIssued(cfg: Config, rd: Option<Reader>, n: Net, i: nat)
    requires NetInv(cfg, n) && HonestHits(rd, n) && i < |n.s.log|
    ensures Issued(cfg, rd, n.s.log, i, CauseAt(n, i))
  {
    hide Invariant, Next, Issued, CauseFrom, AskedOk, HonestIf, Honest;
    EventHasOrigin(cfg, n, i);
    var c := n.s.log[i].who;
    var t, k := n.origins[c].task, n.origins[c].at;
    var hit, asked := n.tasks[t].hit, n.tasks[t].asked;
    AskedSaid(cfg, n, t, k);
    var rs := Replies(n.s, asked[..k]);
    if k > 0 {
      var first := asked[0];
      assert asked[..k][0] == first && Over(n.s, first);
      assert AskedOk(cfg, n, t, 0);
      AskedSaid(cfg, n, t, 0);
      assert asked[..0] == [] && Replies(n.s, []) == [];
      ReturnedIsLogged(n.s, first);
      FirstComesBefore(cfg, n, t, k);
      EventIsIssued(cfg, rd, hit, rs, n.s.log, i, n.s.calls[first].effect.value);
    } else {
      assert asked[..0] == [];
      EventIsIssued(cfg, rd, hit, rs, n.s.log, i,
                    if n.s.calls[asked[0]].effect.Some? then n.s.calls[asked[0]].effect.value else 0);
    }
  }

  lemma AskedSaid(cfg: Config, n: Net, t: nat, k: nat)
    requires AskedOk(cfg, n, t, k) && t in n.tasks && k < |n.tasks[t].asked|
    ensures var (hit, asked) := (n.tasks[t].hit, n.tasks[t].asked);
            && asked[k] in n.s.calls && AllOver(n.s, asked[..k])
            && Matches(n.s.calls[asked[k]].op, Next(cfg, hit, Replies(n.s, asked[..k])))
  {
    hide Next;
  }

  lemma FirstComesBefore(cfg: Config, n: Net, t: nat, k: nat)
    requires AskedOk(cfg, n, t, k) && t in n.tasks && 0 < k < |n.tasks[t].asked|
    ensures Before(n.s, n.tasks[t].asked[0], n.tasks[t].asked[k])
  {
    hide Next;
  }

  /**
    However requests interleave, every write in the log is one that some handler makes from a
    request and an earlier read.
  */
  lemma LogIsFromHandlers(cfg: Config, rd: Option<Reader>, n: Net)
    requires NetInv(cfg, n) && HonestHits(rd, n)
    ensures FromHandlers(cfg, rd, n.s.log, CausesOf(n))
  {
    hide NetInv, Issued, HonestHits, CauseAt;
    forall i | 0 <= i < |n.s.log| ensures Issued(cfg, rd, n.s.log, i, CausesOf(n)[i]) {
      NetEventIsIssued(cfg, rd, n, i);
    }
  }

  // Results for all runs of all requests.

  ghost function RowsOf(n: Net): Rows
    requires n.s.current < |n.s.dbs|
  {
    View(n.s.dbs[n.s.current].root)
  }

  /** Every run is equivalent to its log, and its log is from handlers. */
  lemma RunsAreFromHandlers(cfg: Config, rd: Option<Reader>, steps: seq<Step>)
    requires Runs(cfg, QUIET, steps) && HonestHits(rd, Outcome(cfg, QUIET, steps))
    ensures var n := Outcome(cfg, QUIET, steps);
            && n.s.current < |n.s.dbs| && RowsOf(n) == Replay(n.s.log) && Model.Inv(RowsOf(n))
            && Truthful(n.s.log) && FromHandlers(cfg, rd, n.s.log, CausesOf(n))
  {
    hide Runs, Outcome, FromHandlers, CausesOf, HonestHits, Truthful, Replay, AskedOk, OriginOk, Model.Inv;
    QuietInv(cfg);
    RunKeepsNet(cfg, QUIET, steps);
    LogIsFromHandlers(cfg, rd, Outcome(cfg, QUIET, steps));
    ReplayKeepsRows(Outcome(cfg, QUIET, steps).s.log);
  }

  lemma RowsAreFine(cfg: Config, rd: Option<Reader>, steps: seq<Step>)
    requires Runs(cfg, QUIET, steps) && HonestHits(rd, Outcome(cfg, QUIET, steps))
    ensures var n := Outcome(cfg, QUIET, steps);
            n.s.current < |n.s.dbs| && Model.Inv(RowsOf(n)) && AllFine(cfg, rd, RowsOf(n))
  {
    hide Runs, Outcome, FromHandlers, CausesOf, HonestHits, Truthful, Replay, AllFine, Model.Inv;
    RunsAreFromHandlers(cfg, rd, steps);
    var n := Outcome(cfg, QUIET, steps);
    PrefixesAreFine(cfg, rd, n.s.log, CausesOf(n), |n.s.log|);
    assert n.s.log[..|n.s.log|] == n.s.log;
  }

  /**
    In strict mode, however the calls of requests and resets interleave, no key is one user's ID
    and another's login.
  */
  lemma KeyNamesOneUserInFlight(cfg: Config, steps: seq<Step>, key: string)
    requires cfg.strict && Runs(cfg, QUIET, steps)
    ensures var n := Outcome(cfg, QUIET, steps);
            && n.s.current < |n.s.dbs|
            && (key in RowsOf(n).users ==> ByLogin(RowsOf(n), key).None?)
            && !Clash(RowsOf(n))
  {
    hide Runs, Outcome, AllFine, Model.Inv;
    RowsAreFine(cfg, None, steps);
    StrictNames(cfg, RowsOf(Outcome(cfg, QUIET, steps)), key);
  }

  /**
    However they interleave, every stored user has the login and e-mail of its own stored
    profile, every group the name of its profile unless that has none, and all statuses,
    group types and sign-on modes are implemented ones.
  */
  lemma RowsAgreeInFlight(cfg: Config, rd: Reader, steps: seq<Step>)
    requires Runs(cfg, QUIET, steps) && HonestHits(Some(rd), Outcome(cfg, QUIET, steps))
    ensures var n := Outcome(cfg, QUIET, steps);
            n.s.current < |n.s.dbs| && Agree(rd, RowsOf(n))
  {
    hide Runs, Outcome, HonestHits, Model.Inv;
    RowsAreFine(cfg, Some(rd), steps);
  }

  // What the audit log says of requests in flight.

  /** The request makes its append once its handler has answered, and nothing after it. */
  lemma AppendIsLast(cfg: Config, hit: Hit, rs: seq<Reply>, op: Op, r: Reply)
    requires Matches(op, Next(cfg, hit, rs))
    ensures op.InsertAudit? <==> InnerNext(cfg, hit, rs).Answer?
    ensures op.InsertAudit? ==>
              && Records(op.entry, hit, InnerNext(cfg, hit, rs).resp)
              && Next(cfg, hit, rs + [r]) == Answer(InnerNext(cfg, hit, rs).resp)
  {
    hide RequestNext;
    HandlersNeverAppend(cfg, hit.req, hit.now, rs);
    assert (rs + [r])[..|rs|] == rs;
    if rs != [] && InnerNext(cfg, hit, rs[..|rs| - 1]).Answer? { assert false; }
  }

  /** The call's effect is in the log at this place and at no other. */
  predicate LoggedOnce(s: State, c: nat, i: nat) {
    i < |s.log| && s.log[i].who == c && forall j | 0 <= j < |s.log| && s.log[j].who == c :: j == i
  }

  lemma AskedOne(cfg: Config, n: Net, t: nat, k: nat)
    requires NetInv(cfg, n) && t in n.tasks && AllOver(n.s, n.tasks[t].asked) && k < |n.tasks[t].asked|
    ensures var (hit, asked) := (n.tasks[t].hit, n.tasks[t].asked);
            asked[k] in n.s.calls && Matches(n.s.calls[asked[k]].op, Next(cfg, hit, Replies(n.s, asked)[..k]))
  {
    hide Invariant, Next;
    assert AskedOk(cfg, n, t, k);
    var asked := n.tasks[t].asked;
    assert Replies(n.s, asked)[..k] == Replies(n.s, asked[..k]);
  }

  lemma OneAppend(cfg: Config, n: Net, t: nat, k: nat)
    requires NetInv(cfg, n) && t in n.tasks && AllOver(n.s, n.tasks[t].asked) && k < |n.tasks[t].asked|
    requires Next(cfg, n.tasks[t].hit, Replies(n.s, n.tasks[t].asked)).Answer?
    ensures var (hit, asked, rs) := (n.tasks[t].hit, n.tasks[t].asked, Replies(n.s, n.tasks[t].asked));
            && asked[k] in n.s.calls && (n.s.calls[asked[k]].op.InsertAudit? <==> k == |asked| - 1)
            && (k == |asked| - 1 ==> Records(n.s.calls[asked[k]].op.entry, hit, Next(cfg, hit, rs).resp))
  {
    hide NetInv, Next, InnerNext, Matches, Records;
    var (hit, asked, rs) := (n.tasks[t].hit, n.tasks[t].asked, Replies(n.s, n.tasks[t].asked));
    AskedOne(cfg, n, t, k);
    AppendIsLast(cfg, hit, rs[..k], n.s.calls[asked[k]].op, rs[k]);
    assert rs[..k] + [rs[k]] == rs[..k + 1];
    if k == |asked| - 1 {
      assert rs[..k + 1] == rs;
      AnswerNeedsOne(cfg, hit, rs);
    } else {
      AskedOne(cfg, n, t, k + 1);
      MatchesAsk(n.s.calls[asked[k + 1]].op, Next(cfg, hit, rs[..k + 1]));
    }
  }

  lemma MatchesAsk(op: Op, a: Action)
    requires Matches(op, a)
    ensures a.Ask?
  {
  }

  /** A request is not answered before its append, so its handler had answered before the last call. */
  lemma AnswerNeedsOne(cfg: Config, hit: Hit, rs: seq<Reply>)
    requires Next(cfg, hit, rs).Answer?
    ensures rs != [] && InnerNext(cfg, hit, rs[..|rs| - 1]).Answer?
  {
    hide InnerNext;
  }

  lemma OnceInTheLog(cfg: Config, n: Net, c: nat)
    requires NetInv(cfg, n) && Over(n.s, c)
    ensures exists i: nat :: LoggedOnce(n.s, c, i) && n.s.log[i].op == n.s.calls[c].op
  {
    hide Invariant, Next;
    ReturnedIsLogged(n.s, c);
    var i := n.s.calls[c].effect.value;
    forall j | 0 <= j < |n.s.log| && n.s.log[j].who == c ensures j == i { EventHasOrigin(cfg, n, j); }
    assert LoggedOnce(n.s, c, i);
  }

  lemma AnsweredIsLogged(cfg: Config, n: Net, t: nat)
    requires NetInv(cfg, n) && t in n.tasks && AllOver(n.s, n.tasks[t].asked)
    requires Next(cfg, n.tasks[t].hit, Replies(n.s, n.tasks[t].asked)).Answer?
    ensures var (hit, asked) := (n.tasks[t].hit, n.tasks[t].asked);
            && asked != []
            && (forall k | 0 <= k < |asked| ::
                  asked[k] in n.s.calls && (n.s.calls[asked[k]].op.InsertAudit? <==> k == |asked| - 1))
            && exists i: nat :: LoggedOnce(n.s, asked[|asked| - 1], i) && n.s.log[i].op.InsertAudit?
                 && Records(n.s.log[i].op.entry, hit, Next(cfg, hit, Replies(n.s, asked)).resp)
  {
    hide NetInv, Next, InnerNext, Records;
    var asked := n.tasks[t].asked;
    AnswerNeedsOne(cfg, n.tasks[t].hit, Replies(n.s, asked));
    forall k: nat | k < |asked|
      ensures asked[k] in n.s.calls && (n.s.calls[asked[k]].op.InsertAudit? <==> k == |asked| - 1)
    {
      OneAppend(cfg, n, t, k);
    }
    OneAppend(cfg, n, t, |asked| - 1);
    assert Over(n.s, asked[|asked| - 1]);
    OnceInTheLog(cfg, n, asked[|asked| - 1]);
  }

  /**
    However requests overlap, a request with an answer has exactly one append among its
    calls, its last; that is in the log once, and records the status and gap of the answer.
  */
  lemma AnsweredRequestsAreLogged(cfg: Config, steps: seq<Step>, t: nat)
    requires Runs(cfg, QUIET, steps) && t in Outcome(cfg, QUIET, steps).tasks
    requires var n := Outcome(cfg, QUIET, steps); AllOver(n.s, n.tasks[t].asked)
    requires var n := Outcome(cfg, QUIET, steps); Next(cfg, n.tasks[t].hit, Replies(n.s, n.tasks[t].asked)).Answer?
    ensures var n := Outcome(cfg, QUIET, steps);
            var (hit, asked) := (n.tasks[t].hit, n.tasks[t].asked);
            && asked != []
            && (forall k | 0 <= k < |asked| ::
                  asked[k] in n.s.calls && (n.s.calls[asked[k]].op.InsertAudit? <==> k == |asked| - 1))
            && exists i: nat :: LoggedOnce(n.s, asked[|asked| - 1], i) && n.s.log[i].op.InsertAudit?
                 && Records(n.s.log[i].op.entry, hit, Next(cfg, hit, Replies(n.s, asked)).resp)
  {
    hide Runs, Outcome, NetInv, Next, InnerNext, Invariant, Records;
    QuietInv(cfg);
    RunKeepsNet(cfg, QUIET, steps);
    AnsweredIsLogged(cfg, Outcome(cfg, QUIET, steps), t);
  }

  /** However requests overlap, a rejected one makes no store call but its append, which says 401. */
  lemma RejectedInFlight(cfg: Config, steps: seq<Step>, t: nat, k: nat)
    requires Runs(cfg, QUIET, steps) && t in Outcome(cfg, QUIET, steps).tasks
    requires !Outcome(cfg, QUIET, steps).tasks[t].hit.authorized && k < |Outcome(cfg, QUIET, steps).tasks[t].asked|
    ensures var n := Outcome(cfg, QUIET, steps);
            var (hit, asked) := (n.tasks[t].hit, n.tasks[t].asked);
            && k == 0 && asked[0] in n.s.calls && n.s.calls[asked[0]].op.InsertAudit?
            && Records(n.s.calls[asked[0]].op.entry, hit, Response(401, Nothing, ""))
  {
    hide Runs, Outcome, Invariant, Next;
    QuietInv(cfg);
    RunKeepsNet(cfg, QUIET, steps);
    var n := Outcome(cfg, QUIET, steps);
    var (hit, asked) := (n.tasks[t].hit, n.tasks[t].asked);
    assert AskedOk(cfg, n, t, k) && AskedOk(cfg, n, t, 0);
    assert asked[..0] == [] && Replies(n.s, []) == [];
    if k > 0 {
      RejectedThenAnswers(cfg, hit, Replies(n.s, asked[..k]));
    }
    RejectedOnlyAppends(cfg, hit, Done);
  }

  lemma RejectedThenAnswers(cfg: Config, hit: Hit, rs: seq<Reply>)
    requires !hit.authorized && rs != []
    ensures Next(cfg, hit, rs).Answer?
  {
  }
}
