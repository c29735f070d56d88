/**
  The store under concurrent callers: the read-write mutex around the database pointer,
  the writer lock inside each database instance, and the swap that Reset performs while
  transactions are still open.

  Each call runs the program of its operation one atomic action at a time, and the calls
  interleave freely. The log, the number of clears, and who took a number or opened a
  transaction when, are ghost records: the log receives each operation at the moment it
  takes effect. What a transaction does between opening and committing is bound by
  Performs, the contract the store's methods are proved against.

  Assumed of Go's sync.RWMutex: a reader waits while a writer is announced; a writer is
  announced one at a time, and gets the lock once no reader holds it. Assumed of the
  database: one write transaction at a time per instance, from opening to commit or abort;
  a read transaction is a snapshot.
*/
module Concurrency {
  import opened Wrappers
  import opened Schemas
  import opened Model
  import opened Stores

  datatype Phase =
    | Numbering                          // about to take an audit number
    | Start                              // about to lock the mutex
    | Reading                            // holds the mutex for reading, about to open a transaction
    | Opened(inst: nat, base: Db)        // write transaction open, mutex still held
    | Writing(inst: nat, base: Db)       // write transaction open, mutex released
    | Snapped(view: Db)                  // read transaction open, mutex still held
    | Scanning(view: Db)                 // read transaction open, mutex released
    | Announced                          // waits for the readers to leave
    | Locked                             // holds the mutex for writing
    | Swapped                            // new instance installed
    | Cleared                            // audit counter back at zero
    | Returned(reply: Reply)

  datatype Call = Call(op: Op, phase: Phase, invokedAt: nat, effect: Option<nat>, returnedAt: Option<nat>)

  datatype Instance = Instance(root: Db, holder: Option<nat>)

  datatype Event = Event(who: nat, op: Op, reply: Reply)

  datatype State = State(
    calls: map<nat, Call>,
    readers: set<nat>, announced: Option<nat>,
    current: nat, dbs: seq<Instance>,
    auditSeq: nat, taken: nat,
    clears: nat,               // how often the audit counter was put back to zero
    eras: map<nat, nat>,       // for each number taken, how many clears came before
    openedOn: map<nat, nat>,     // for each write transaction, the instance it opened on
    log: seq<Event>)

  const INIT := State(map[], {}, None, 0, [Instance(EmptyDb(), None)], 0, 0, 0, map[], map[], [])

  predicate IsRead(op: Op) {
    match op
    case OnUsers(o) => o.GetUser? || o.GetUserByLogin? || o.ListUsers?
    case OnGroups(o) => o.GetGroup? || o.ListGroups?
    case OnMembers(o) => o.ListMembers?
    case OnApps(o) => o.GetApp? || o.ListApps?
    case ReadGap(_) => true
    case ReadGaps => true
    case _ => false
  }

  ghost function Answer(op: Op, d: Db): Reply { Apply(op, View(d)).1 }

  datatype Move =
    | Invoke(who: nat, op: Op)
    | Advance(who: nat)
    | Commit(who: nat, root: Db)

  predicate Sane(s: State) {
    s.current < |s.dbs| && forall c | c in s.calls ::
      var p := s.calls[c].phase;
      && (p.Opened? || p.Writing? ==> p.inst < |s.dbs|)
      && (p.Numbering? ==> s.calls[c].op.InsertAudit?)
      && (s.dbs[s.current].holder.Some? ==> s.dbs[s.current].holder.value in s.calls)
  }

  ghost predicate Enabled(s: State, mv: Move)
    requires Sane(s)
  {
    match mv
    case Invoke(c, _) => c !in s.calls
    case Advance(c) =>
      c in s.calls &&
      (match s.calls[c].phase
       case Start => s.announced.None?
       case Reading => IsRead(s.calls[c].op) || s.dbs[s.current].holder.None?
       case Announced => s.readers == {}
       case Writing(_, _) => false
       case Returned(_) => false
       case _ => true)
    case Commit(c, root) =>
      && c in s.calls && s.calls[c].phase.Writing?
      && Performs(s.calls[c].op, s.calls[c].phase.base, root, Answer(s.calls[c].op, s.calls[c].phase.base))
  }

  ghost function Took(s: State, c: nat, reply: Reply): State
    requires c in s.calls
  {
    s.(log := s.log + [Event(c, s.calls[c].op, reply)],
       calls := s.calls[c := s.calls[c].(effect := Some(|s.log|))])
  }

  function InPhase(s: State, c: nat, p: Phase): State
    requires c in s.calls
  {
    s.(calls := s.calls[c := s.calls[c].(phase := p)])
  }

  function Back(s: State, c: nat, r: Reply): State
    requires c in s.calls
  {
    s.(calls := s.calls[c := s.calls[c].(phase := Returned(r), returnedAt := Some(|s.log|))])
  }

  function TakeNumber(s: State, c: nat): State
    requires c in s.calls && s.calls[c].op.InsertAudit?
  {
    var n := Next(s.auditSeq);
    var op := InsertAudit(s.calls[c].op.entry.(id := n));
    s.(calls := s.calls[c := s.calls[c].(op := op, phase := Start)],
       auditSeq := n, taken := s.taken + 1, eras := s.eras[c := s.clears])
  }

  /** The writer still open on the instance about to be replaced takes effect first. */
  ghost function Helped(s: State): State
    requires Sane(s)
  {
    var i := s.dbs[s.current];
    if i.holder.Some? && i.holder.value in s.calls
    then Took(s, i.holder.value, Answer(s.calls[i.holder.value].op, i.root))
    else s
  }

  ghost function Swap(s: State, c: nat): State
    requires Sane(s) && c in s.calls
  {
    var t := InPhase(Took(Helped(s), c, Done), c, Swapped);
    t.(dbs := t.dbs + [Instance(EmptyDb(), None)], current := |t.dbs|)
  }

  /** The transaction commits or aborts, leaves its instance with this root, and the call returns. */
  ghost function Closed(s: State, c: nat, root: Db): State
    requires Sane(s) && c in s.calls && s.calls[c].phase.Writing?
  {
    var call := s.calls[c];
    var d := call.phase.inst;
    var reply := Answer(call.op, call.phase.base);
    var t := s.(dbs := s.dbs[d := Instance(root, None)]);
    if d == s.current then Back(Took(t, c, reply), c, reply) else Back(t, c, reply)
  }

  function Invoked(s: State, c: nat, op: Op): State {
    var first := if op.InsertAudit? then Numbering else Start;
    s.(calls := s.calls[c := Call(op, first, |s.log|, None, None)])
  }

  /** Past the mutex for reading, or announced as its next writer. */
  function Entered(s: State, c: nat): State
    requires c in s.calls
  {
    if s.calls[c].op.Reset? then InPhase(s, c, Announced).(announced := Some(c))
    else InPhase(s, c, Reading).(readers := s.readers + {c})
  }

  ghost function Snapshot(s: State, c: nat): State
    requires Sane(s) && c in s.calls
  {
    var root := s.dbs[s.current].root;
    InPhase(Took(s, c, Answer(s.calls[c].op, root)), c, Snapped(root))
  }

  function Begun(s: State, c: nat): State
    requires Sane(s) && c in s.calls
  {
    var i := s.dbs[s.current];
    InPhase(s, c, Opened(s.current, i.root)).(dbs := s.dbs[s.current := i.(holder := Some(c))],
                                              openedOn := s.openedOn[c := s.current])
  }

  function Unlocked(s: State, c: nat, p: Phase): State
    requires c in s.calls
  {
    InPhase(s, c, p).(readers := s.readers - {c})
  }

  function Zeroed(s: State, c: nat): State
    requires c in s.calls
  {
    InPhase(s, c, Cleared).(auditSeq := 0, clears := s.clears + 1)
  }

  ghost function Do(s: State, mv: Move): State
    requires Sane(s) && Enabled(s, mv)
  {
    match mv
    case Invoke(c, op) => Invoked(s, c, op)
    case Commit(c, root) => Closed(s, c, root)
    case Advance(c) =>
      match s.calls[c].phase
      case Numbering => TakeNumber(s, c)
      case Start => Entered(s, c)
      case Reading => if IsRead(s.calls[c].op) then Snapshot(s, c) else Begun(s, c)
      case Opened(d, base) => Unlocked(s, c, Writing(d, base))
      case Snapped(view) => Unlocked(s, c, Scanning(view))
      case Scanning(view) => Back(s, c, Answer(s.calls[c].op, view))
      case Announced => InPhase(s, c, Locked)
      case Locked => Swap(s, c)
      case Swapped => Zeroed(s, c)
      case Cleared => Back(s, c, Done).(announced := None)
      case Writing(_, _) => s
      case Returned(_) => s
  }

  // The order of effects, replayed on the record of maps.

  ghost function Replay(log: seq<Event>): Rows {
    if log == [] then NOTHING else Apply(log[|log| - 1].op, Replay(log[..|log| - 1])).0
  }

  /** Every event answered what the operation answers when the log is run one at a time. */
  ghost predicate Truthful(log: seq<Event>) {
    forall i | 0 <= i < |log| :: log[i].reply == Apply(log[i].op, Replay(log[..i])).1
  }

  lemma {:induction false} ReplayKeepsRows(log: seq<Event>)
    ensures Model.Inv(Replay(log))
    decreases |log|
  {
    if log != [] {
      ReplayKeepsRows(log[..|log| - 1]);
      ApplyKeepsInv(log[|log| - 1].op, Replay(log[..|log| - 1]));
    }
  }

  // The invariant.

  predicate HoldsRead(p: Phase) { p.Reading? || p.Opened? || p.Snapped? }

  predicate HoldsExclusive(p: Phase) { p.Locked? || p.Swapped? || p.Cleared? }

  predicate HasEffect(p: Phase, current: nat) {
    p.Snapped? || p.Scanning? || p.Swapped? || p.Cleared? || p.Returned? || (p.Writing? && p.inst != current)
  }

  ghost predicate PhaseOk(s: State, call: Call) {
    match call.phase
    case Numbering => call.op.InsertAudit?
    case Start => true
    case Reading => !call.op.Reset?
    case Opened(d, base) =>
      d == s.current && d < |s.dbs| && base == s.dbs[d].root && !call.op.Reset? && !IsRead(call.op)
    case Writing(d, base) => d < |s.dbs| && base == s.dbs[d].root && !call.op.Reset? && !IsRead(call.op)
    case Snapped(view) => IsRead(call.op) && Good(view)
    case Scanning(view) => IsRead(call.op) && Good(view)
    case Returned(_) => true
    case _ => call.op.Reset?
  }

  /** The answer the call will give, or has given. */
  ghost predicate Promised(call: Call, r: Reply) {
    match call.phase
    case Writing(_, base) => r == Answer(call.op, base)
    case Snapped(view) => r == Answer(call.op, view)
    case Scanning(view) => r == Answer(call.op, view)
    case Returned(reply) => r == reply
    case _ => r == Done
  }

  ghost predicate EffectOk(s: State, c: nat, call: Call) {
    && call.invokedAt <= |s.log|
    && (call.effect.Some? <==> HasEffect(call.phase, s.current))
    && (call.effect.Some? ==>
          var i := call.effect.value;
          && call.invokedAt <= i < |s.log|
          && s.log[i].who == c && s.log[i].op == call.op
          && Promised(call, s.log[i].reply))
    && (call.phase.Returned? ==>
          call.returnedAt.Some? && call.effect.value < call.returnedAt.value <= |s.log|)
  }

  predicate WantsExclusive(p: Phase) { p.Announced? || HoldsExclusive(p) }

  predicate WriteOpen(p: Phase) { p.Opened? || p.Writing? }

  predicate ReadsNow(s: State, c: nat) { c in s.calls && HoldsRead(s.calls[c].phase) }

  predicate ResetsNow(s: State, c: nat) { c in s.calls && WantsExclusive(s.calls[c].phase) }

  predicate WritesOn(s: State, d: nat, c: nat) {
    c in s.calls && WriteOpen(s.calls[c].phase) && s.calls[c].phase.inst == d
  }

  predicate HeldBy(s: State, d: nat, c: nat) { d < |s.dbs| && s.dbs[d].holder == Some(c) }

  /** Who holds which lock can be read off the phases, and the other way round. */
  ghost predicate LocksOk(s: State) {
    && (forall c: nat {:trigger ReadsNow(s, c)} :: c in s.readers <==> ReadsNow(s, c))
    && (forall c: nat {:trigger ResetsNow(s, c)} :: s.announced == Some(c) <==> ResetsNow(s, c))
    && (forall c: nat {:trigger ResetsNow(s, c)} ::
          c in s.calls && HoldsExclusive(s.calls[c].phase) ==> s.readers == {})
    && (forall d: nat, c: nat {:trigger HeldBy(s, d, c)} {:trigger WritesOn(s, d, c)} ::
          HeldBy(s, d, c) <==> WritesOn(s, d, c))
  }

  ghost predicate CallOk(s: State, c: nat) {
    c in s.calls ==> PhaseOk(s, s.calls[c]) && EffectOk(s, c, s.calls[c])
  }

  ghost predicate CallsOk(s: State) {
    forall c: nat {:trigger CallOk(s, c)} :: CallOk(s, c)
  }

  ghost predicate EventOk(s: State, i: nat) {
    i < |s.log| ==> s.log[i].who in s.calls && s.calls[s.log[i].who].effect == Some(i)
  }

  ghost predicate LogOk(s: State) {
    && (forall i: nat {:trigger EventOk(s, i)} :: EventOk(s, i))
    && Truthful(s.log)
  }

  ghost predicate RootsOk(s: State) {
    && |s.dbs| == s.current + 1
    && (forall d | 0 <= d < |s.dbs| :: Good(s.dbs[d].root))
    && View(s.dbs[s.current].root) == Replay(s.log)
  }

  ghost predicate Invariant(s: State) {
    RootsOk(s) && LocksOk(s) && CallsOk(s) && LogOk(s)
  }

  lemma InvariantIsSane(s: State)
    requires Invariant(s)
    ensures Sane(s)
  {
    forall c | c in s.calls ensures PhaseOk(s, s.calls[c]) { assert CallOk(s, c); }
    var h := s.dbs[s.current].holder;
    if h.Some? {
      assert HeldBy(s, s.current, h.value);
      assert WritesOn(s, s.current, h.value);
    }
  }

  lemma ReplayOneMore(log: seq<Event>, e: Event)
    ensures Replay(log + [e]) == Apply(e.op, Replay(log)).0
    ensures Truthful(log) && e.reply == Apply(e.op, Replay(log)).1 ==> Truthful(log + [e])
  {
    var log' := log + [e];
    assert log'[..|log|] == log;
    forall i | 0 <= i < |log| ensures log'[..i] == log[..i] {
    }
  }

  lemma ReadsChangeNothing(op: Op, m: Rows)
    requires IsRead(op)
    ensures Apply(op, m).0 == m
  {
  }

  lemma InitInvariant()
    ensures Invariant(INIT)
  {
    EmptyIsGood();
  }

  /** A call that a step does not touch keeps its part of the invariant. */
  lemma Untouched(s: State, s': State, c: nat, call: Call)
    requires PhaseOk(s, call) && EffectOk(s, c, call)
    requires s.log <= s'.log && s.current == s'.current && |s.dbs| <= |s'.dbs|
    requires WriteOpen(call.phase) ==> s'.dbs[call.phase.inst].root == s.dbs[call.phase.inst].root
    ensures PhaseOk(s', call) && EffectOk(s', c, call)
  {
    hide Apply, Good;
    if call.effect.Some? {
      assert s'.log[call.effect.value] == s.log[call.effect.value];
    }
  }

  ghost predicate SamePhase(s: State, s': State, k: nat) {
    (k in s.calls <==> k in s'.calls) && (k in s.calls ==> s'.calls[k].phase == s.calls[k].phase)
  }

  ghost predicate HolderFollows(s: State, s': State, c: nat, d: nat) {
    var before := if d < |s.dbs| then s.dbs[d].holder else None;
    if WritesOn(s', d, c) then d < |s'.dbs| && s'.dbs[d].holder == Some(c) && (before.None? || before == Some(c))
    else (if d < |s'.dbs| then s'.dbs[d].holder else None) == if before == Some(c) then None else before
  }

  /** A step of one call moves that call's locks as its phase says, and no others. */
  lemma LocksFollow(s: State, s': State, c: nat)
    requires LocksOk(s)
    requires forall k: nat {:trigger SamePhase(s, s', k)} :: k != c ==> SamePhase(s, s', k)
    requires s'.readers == if ReadsNow(s', c) then s.readers + {c} else s.readers - {c}
    requires ReadsNow(s', c) && !ReadsNow(s, c) ==> s.announced.None?
    requires s'.announced == if ResetsNow(s', c) then Some(c) else if s.announced == Some(c) then None else s.announced
    requires ResetsNow(s', c) ==> s.announced.None? || s.announced == Some(c)
    requires c in s'.calls && HoldsExclusive(s'.calls[c].phase) ==> s'.readers == {}
    requires forall d: nat {:trigger HolderFollows(s, s', c, d)} :: HolderFollows(s, s', c, d)
    ensures LocksOk(s')
  {
    forall k: nat
      ensures k in s'.readers <==> ReadsNow(s', k)
      ensures s'.announced == Some(k) <==> ResetsNow(s', k)
      ensures k in s'.calls && HoldsExclusive(s'.calls[k].phase) ==> s'.readers == {}
    {
      assert ReadsNow(s, k) <==> k in s.readers;
      assert ResetsNow(s, k) <==> s.announced == Some(k);
      assert ReadsNow(s, c) <==> c in s.readers;
      assert k != c ==> SamePhase(s, s', k);
    }
    forall d: nat, k: nat ensures HeldBy(s', d, k) <==> WritesOn(s', d, k) {
      assert HolderFollows(s, s', c, d);
      assert HeldBy(s, d, k) <==> WritesOn(s, d, k);
      assert k != c ==> SamePhase(s, s', k);
    }
  }

  /** The shape of every step: one call moves, the rest keep their calls. */
  lemma StepKeeps(s: State, s': State, c: nat)
    requires LocksOk(s) && CallsOk(s) && s.log <= s'.log && s.current == s'.current && |s.dbs| == |s'.dbs|
    requires forall d | 0 <= d < |s.dbs| :: s'.dbs[d].root == s.dbs[d].root || HeldBy(s, d, c)
    requires c in s'.calls && s'.calls.Keys == s.calls.Keys + {c}
    requires forall k | k in s.calls && k != c :: s'.calls[k] == s.calls[k]
    requires CallOk(s', c)
    ensures CallsOk(s')
  {
    hide Apply, Good, Replay, Truthful;
    forall k: nat ensures CallOk(s', k) {
      assert CallOk(s, k);
      if k != c && k in s.calls {
        if WriteOpen(s.calls[k].phase) {
          assert WritesOn(s, s.calls[k].phase.inst, k);
          assert HeldBy(s, s.calls[k].phase.inst, k);
        }
        Untouched(s, s', k, s.calls[k]);
      }
    }
  }

  lemma EventsStay(s: State, s': State)
    requires LogOk(s) && s'.log == s.log
    requires forall k | k in s.calls :: k in s'.calls && s'.calls[k].effect == s.calls[k].effect
    ensures LogOk(s')
  {
    hide Apply, Replay;
    forall i: nat ensures EventOk(s', i) { assert EventOk(s, i); }
  }

  lemma InvokeKeeps(s: State, c: nat, op: Op)
    requires Invariant(s) && c !in s.calls
    ensures Invariant(Invoked(s, c, op))
  {
    hide Apply, Good, Replay, Truthful;
    var s' := Invoked(s, c, op);
    assert CallOk(s', c);
    StepKeeps(s, s', c);
    EventsStay(s, s');
    assert !ReadsNow(s, c) && !ResetsNow(s, c);
    forall d: nat ensures HolderFollows(s, s', c, d) {
      assert !WritesOn(s, d, c) && !HeldBy(s, d, c);
    }
    LocksFollow(s, s', c);
  }

  /** A step that logs nothing and keeps every instance keeps the invariant. */
  lemma QuietStep(s: State, s': State, c: nat)
    requires Invariant(s) && c in s.calls && c in s'.calls && s'.calls.Keys == s.calls.Keys
    requires s'.log == s.log && s'.dbs == s.dbs && s'.current == s.current
    requires forall k | k in s.calls && k != c :: s'.calls[k] == s.calls[k]
    requires s'.calls[c].effect == s.calls[c].effect && CallOk(s', c)
    requires forall d: nat :: WritesOn(s', d, c) <==> WritesOn(s, d, c)
    requires s'.readers == if ReadsNow(s', c) then s.readers + {c} else s.readers - {c}
    requires ReadsNow(s', c) && !ReadsNow(s, c) ==> s.announced.None?
    requires s'.announced == if ResetsNow(s', c) then Some(c) else if ResetsNow(s, c) then None else s.announced
    requires ResetsNow(s', c) && !ResetsNow(s, c) ==> s.announced.None?
    requires HoldsExclusive(s'.calls[c].phase) ==> s'.readers == {}
    ensures Invariant(s')
  {
    hide Apply, Good, Replay, Truthful;
    StepKeeps(s, s', c);
    EventsStay(s, s');
    assert ResetsNow(s, c) <==> s.announced == Some(c);
    forall d: nat ensures HolderFollows(s, s', c, d) {
      assert WritesOn(s, d, c) <==> HeldBy(s, d, c);
    }
    LocksFollow(s, s', c);
  }

  lemma NumberKeeps(s: State, c: nat)
    requires Invariant(s) && c in s.calls && s.calls[c].phase.Numbering? && s.calls[c].op.InsertAudit?
    ensures Invariant(TakeNumber(s, c))
  {
    hide Apply, Good, Replay, Truthful;
    var s' := TakeNumber(s, c);
    assert CallOk(s, c);
    assert CallOk(s', c);
    assert (ReadsNow(s, c) <==> c in s.readers) && (ResetsNow(s, c) <==> s.announced == Some(c));
    QuietStep(s, s', c);
  }

  lemma EnterKeeps(s: State, c: nat)
    requires Invariant(s) && c in s.calls && s.calls[c].phase.Start? && s.announced.None?
    ensures Invariant(Entered(s, c))
  {
    hide Apply, Good, Replay, Truthful;
    var s' := Entered(s, c);
    assert CallOk(s, c);
    assert CallOk(s', c);
    assert (ReadsNow(s, c) <==> c in s.readers) && (ResetsNow(s, c) <==> s.announced == Some(c));
    QuietStep(s, s', c);
  }

  lemma UnlockKeeps(s: State, c: nat, d: nat, base: Db)
    requires Invariant(s) && c in s.calls && s.calls[c].phase == Opened(d, base)
    ensures Invariant(Unlocked(s, c, Writing(d, base)))
  {
    hide Apply, Good, Replay, Truthful;
    var s' := Unlocked(s, c, Writing(d, base));
    assert CallOk(s, c);
    assert CallOk(s', c);
    assert (ReadsNow(s, c) <==> c in s.readers) && (ResetsNow(s, c) <==> s.announced == Some(c));
    QuietStep(s, s', c);
  }

  lemma ScanKeeps(s: State, c: nat, view: Db)
    requires Invariant(s) && c in s.calls && s.calls[c].phase == Snapped(view)
    ensures Invariant(Unlocked(s, c, Scanning(view)))
  {
    hide Apply, Good, Replay, Truthful;
    var s' := Unlocked(s, c, Scanning(view));
    assert CallOk(s, c);
    assert CallOk(s', c);
    assert (ReadsNow(s, c) <==> c in s.readers) && (ResetsNow(s, c) <==> s.announced == Some(c));
    QuietStep(s, s', c);
  }

  lemma ReturnKeeps(s: State, c: nat, view: Db)
    requires Invariant(s) && c in s.calls && s.calls[c].phase == Scanning(view)
    ensures Invariant(Back(s, c, Answer(s.calls[c].op, view)))
  {
    hide Apply, Good, Replay, Truthful;
    var s' := Back(s, c, Answer(s.calls[c].op, view));
    assert CallOk(s, c);
    assert CallOk(s', c);
    assert (ReadsNow(s, c) <==> c in s.readers) && (ResetsNow(s, c) <==> s.announced == Some(c));
    QuietStep(s, s', c);
  }

  lemma LockKeeps(s: State, c: nat)
    requires Invariant(s) && c in s.calls && s.calls[c].phase.Announced? && s.readers == {}
    ensures Invariant(InPhase(s, c, Locked))
  {
    hide Apply, Good, Replay, Truthful;
    var s' := InPhase(s, c, Locked);
    assert CallOk(s, c);
    assert CallOk(s', c);
    assert (ReadsNow(s, c) <==> c in s.readers) && (ResetsNow(s, c) <==> s.announced == Some(c));
    QuietStep(s, s', c);
  }

  lemma ZeroKeeps(s: State, c: nat)
    requires Invariant(s) && c in s.calls && s.calls[c].phase.Swapped?
    ensures Invariant(Zeroed(s, c))
  {
    hide Apply, Good, Replay, Truthful;
    var s' := Zeroed(s, c);
    assert CallOk(s, c);
    assert CallOk(s', c);
    assert (ReadsNow(s, c) <==> c in s.readers) && (ResetsNow(s, c) <==> s.announced == Some(c));
    QuietStep(s, s', c);
  }

  lemma LeaveKeeps(s: State, c: nat)
    requires Invariant(s) && c in s.calls && s.calls[c].phase.Cleared?
    ensures Invariant(Back(s, c, Done).(announced := None))
  {
    hide Apply, Good, Replay, Truthful;
    var s' := Back(s, c, Done).(announced := None);
    assert CallOk(s, c);
    assert CallOk(s', c);
    assert (ReadsNow(s, c) <==> c in s.readers) && (ResetsNow(s, c) <==> s.announced == Some(c));
    QuietStep(s, s', c);
  }

  // Steps that take effect.

  lemma TookKeepsLog(s: State, s': State, c: nat, reply: Reply)
    requires LogOk(s) && c in s.calls && s.calls[c].effect.None?
    requires reply == Apply(s.calls[c].op, Replay(s.log)).1
    requires s'.log == s.log + [Event(c, s.calls[c].op, reply)]
    requires s'.calls.Keys == s.calls.Keys && s'.calls[c].effect == Some(|s.log|)
    requires forall k | k in s.calls && k != c :: s'.calls[k].effect == s.calls[k].effect
    ensures LogOk(s')
    ensures Replay(s'.log) == Apply(s.calls[c].op, Replay(s.log)).0
  {
    hide Apply, Replay;
    ReplayOneMore(s.log, Event(c, s.calls[c].op, reply));
    forall i: nat ensures EventOk(s', i) { assert EventOk(s, i); }
  }

  lemma SnapshotKeeps(s: State, c: nat)
    requires Invariant(s) && Sane(s) && c in s.calls && s.calls[c].phase.Reading? && IsRead(s.calls[c].op)
    ensures Invariant(Snapshot(s, c))
  {
    hide Apply, Good, Replay, Truthful;
    var s' := Snapshot(s, c);
    assert CallOk(s, c);
    assert CallOk(s', c);
    StepKeeps(s, s', c);
    TookKeepsLog(s, s', c, Answer(s.calls[c].op, s.dbs[s.current].root));
    ReadsChangeNothing(s.calls[c].op, Replay(s.log));
    assert (ReadsNow(s, c) <==> c in s.readers) && (ResetsNow(s, c) <==> s.announced == Some(c));
    forall d: nat ensures HolderFollows(s, s', c, d) {
      assert WritesOn(s, d, c) <==> HeldBy(s, d, c);
    }
    LocksFollow(s, s', c);
  }

  lemma BeginKeeps(s: State, c: nat)
    requires Invariant(s) && Sane(s) && c in s.calls && s.calls[c].phase.Reading? && !IsRead(s.calls[c].op)
    requires s.dbs[s.current].holder.None?
    ensures Invariant(Begun(s, c))
  {
    hide Apply, Good, Replay, Truthful;
    var s' := Begun(s, c);
    assert CallOk(s, c);
    assert CallOk(s', c);
    StepKeeps(s, s', c);
    EventsStay(s, s');
    assert (ReadsNow(s, c) <==> c in s.readers) && (ResetsNow(s, c) <==> s.announced == Some(c));
    forall d: nat ensures HolderFollows(s, s', c, d) {
      assert WritesOn(s, d, c) <==> HeldBy(s, d, c);
    }
    LocksFollow(s, s', c);
  }

  lemma CloseKeeps(s: State, c: nat, root: Db)
    requires Invariant(s) && Sane(s) && c in s.calls && s.calls[c].phase.Writing?
    requires Performs(s.calls[c].op, s.calls[c].phase.base, root, Answer(s.calls[c].op, s.calls[c].phase.base))
    ensures Invariant(Closed(s, c, root))
  {
    hide Apply, Good, Replay, Truthful, Performs, PhaseOk, EffectOk, LocksOk, IsRead;
    var s', call := Closed(s, c, root), s.calls[c];
    assert WritesOn(s, call.phase.inst, c) && HeldBy(s, call.phase.inst, c) by { Holding(s, c); }
    CloseLogs(s, c, root);
    CloseCall(s, c, root);
    StepKeeps(s, s', c);
    CloseReleases(s, c, root);
  }

  lemma Holding(s: State, c: nat)
    requires LocksOk(s) && c in s.calls && WriteOpen(s.calls[c].phase)
    ensures WritesOn(s, s.calls[c].phase.inst, c) && HeldBy(s, s.calls[c].phase.inst, c)
  {
    assert WritesOn(s, s.calls[c].phase.inst, c);
  }

  lemma CloseLogs(s: State, c: nat, root: Db)
    requires RootsOk(s) && LogOk(s) && CallsOk(s) && Sane(s) && c in s.calls && s.calls[c].phase.Writing?
    requires Performs(s.calls[c].op, s.calls[c].phase.base, root, Answer(s.calls[c].op, s.calls[c].phase.base))
    ensures RootsOk(Closed(s, c, root)) && LogOk(Closed(s, c, root))
  {
    hide Apply, Good, Replay, Truthful, Performs;
    var s', call := Closed(s, c, root), s.calls[c];
    assert CallOk(s, c);
    CommitOutcome(call.op, call.phase.base, root);
    if call.phase.inst == s.current {
      TookKeepsLog(s, s', c, Answer(call.op, call.phase.base));
    } else {
      EventsStay(s, s');
    }
  }

  lemma CloseCall(s: State, c: nat, root: Db)
    requires CallsOk(s) && Sane(s) && c in s.calls && s.calls[c].phase.Writing?
    ensures CallOk(Closed(s, c, root), c)
  {
    hide Apply, Good;
    assert CallOk(s, c);
  }

  lemma CloseReleases(s: State, c: nat, root: Db)
    requires LocksOk(s) && Sane(s) && c in s.calls && s.calls[c].phase.Writing?
    ensures LocksOk(Closed(s, c, root))
  {
    hide Answer;
    var s' := Closed(s, c, root);
    assert (ReadsNow(s, c) <==> c in s.readers) && (ResetsNow(s, c) <==> s.announced == Some(c));
    forall d: nat ensures HolderFollows(s, s', c, d) {
      assert WritesOn(s, d, c) <==> HeldBy(s, d, c);
    }
    LocksFollow(s, s', c);
  }

  lemma CommitOutcome(op: Op, base: Db, root: Db)
    requires Good(base) && Performs(op, base, root, Answer(op, base))
    ensures Good(root) && View(root) == Apply(op, View(base)).0
  {
  }

  // The swap.

  /** Only the one writer whose transaction is open can still commit to the instance being replaced. */
  lemma AtMostOneWriterLeft(s: State, c: nat)
    requires Invariant(s) && c in s.calls && HoldsExclusive(s.calls[c].phase)
    ensures forall k | k in s.calls :: !HoldsRead(s.calls[k].phase)
    ensures forall d: nat, a: nat, b: nat :: WritesOn(s, d, a) && WritesOn(s, d, b) ==> a == b
    ensures forall d: nat, a: nat :: WritesOn(s, d, a) ==> s.calls[a].phase.Writing? && HeldBy(s, d, a)
  {
    assert ResetsNow(s, c);
    forall k | k in s.calls ensures !HoldsRead(s.calls[k].phase) { assert !ReadsNow(s, k); }
    forall d: nat, a: nat, b: nat | WritesOn(s, d, a) && WritesOn(s, d, b) ensures a == b {
      assert HeldBy(s, d, a) && HeldBy(s, d, b);
    }
  }

  /** Call k took effect as the one new event, with the answer its open transaction will give. */
  ghost predicate HelpedCall(s: State, h: State, k: nat)
    requires Sane(s) && k in s.calls && k in h.calls
  {
    && h.calls[k].effect == Some(|s.log|)
    && h.log == s.log + [Event(k, s.calls[k].op, Answer(s.calls[k].op, s.dbs[s.current].root))]
  }

  lemma HelpedOk(s: State, c: nat)
    requires Invariant(s) && Sane(s) && c in s.calls && s.calls[c].phase.Locked?
    ensures var h := Helped(s);
            && LogOk(h) && s.log <= h.log && h.calls.Keys == s.calls.Keys && h.calls[c] == s.calls[c]
            && forall k: nat | k in s.calls ::
                 && h.calls[k].(effect := None) == s.calls[k].(effect := None)
                 && (WritesOn(s, s.current, k) ==> HelpedCall(s, h, k))
                 && (!WritesOn(s, s.current, k) ==> h.calls[k] == s.calls[k])
  {
    hide Apply, Good, Replay, Truthful;
    AtMostOneWriterLeft(s, c);
    var i := s.dbs[s.current];
    forall k: nat ensures WritesOn(s, s.current, k) <==> i.holder == Some(k) {
      assert WritesOn(s, s.current, k) <==> HeldBy(s, s.current, k);
    }
    if i.holder.Some? {
      var w := i.holder.value;
      assert CallOk(s, w) && WritesOn(s, s.current, w);
      TookKeepsLog(s, Helped(s), w, Answer(s.calls[w].op, i.root));
    }
  }

  lemma SwapKeeps(s: State, c: nat)
    requires Invariant(s) && Sane(s) && c in s.calls && s.calls[c].phase.Locked?
    ensures Invariant(Swap(s, c))
  {
    hide Apply, Good, Replay, Truthful, LocksOk, CallsOk;
    var h, s' := Helped(s), Swap(s, c);
    HelpedOk(s, c);
    LockedResets(s, c);
    SwapLog(h, c);
    EventsStay(Took(h, c, Done), s');
    EmptyIsGood();
    SwapCalls(s, c);
    SwapLocks(s, c);
  }

  lemma LockedResets(s: State, c: nat)
    requires CallsOk(s) && c in s.calls && s.calls[c].phase.Locked?
    ensures s.calls[c].op.Reset? && s.calls[c].effect.None?
  {
    assert CallOk(s, c);
  }

  lemma SwapCalls(s: State, c: nat)
    requires Invariant(s) && Sane(s) && c in s.calls && s.calls[c].phase.Locked?
    ensures CallsOk(Swap(s, c))
  {
    hide Apply, Good, Replay, Truthful;
    var h, s' := Helped(s), Swap(s, c);
    HelpedOk(s, c);
    AtMostOneWriterLeft(s, c);
    assert CallOk(s, c);
    forall k: nat ensures CallOk(s', k) {
      assert CallOk(s, k);
      if k in s.calls && k != c { SwapCall(s, h, s', c, k); }
    }
  }

  lemma SwapLocks(s: State, c: nat)
    requires Invariant(s) && Sane(s) && c in s.calls && s.calls[c].phase.Locked?
    ensures LocksOk(Swap(s, c))
  {
    hide Apply, Good, Replay, Truthful, CallsOk, LogOk;
    var h, s' := Helped(s), Swap(s, c);
    HelpedOk(s, c);
    assert (ReadsNow(s, c) <==> c in s.readers) && (ResetsNow(s, c) <==> s.announced == Some(c));
    forall d: nat ensures HolderFollows(s, s', c, d) {
      assert WritesOn(s, d, c) <==> HeldBy(s, d, c);
    }
    LocksFollow(s, s', c);
  }

  lemma SwapLog(h: State, c: nat)
    requires LogOk(h) && c in h.calls && h.calls[c].op.Reset? && h.calls[c].effect.None?
    ensures LogOk(Took(h, c, Done)) && Replay(Took(h, c, Done).log) == NOTHING
  {
    TookKeepsLog(h, Took(h, c, Done), c, Done);
  }

  lemma SwapCall(s: State, h: State, s': State, c: nat, k: nat)
    requires Sane(s) && k in s.calls && k != c && CallOk(s, k) && !HoldsRead(s.calls[k].phase)
    requires |s.dbs| == s.current + 1 == s'.current && |s'.dbs| == |s.dbs| + 1 && s'.dbs[..|s.dbs|] == s.dbs
    requires k in h.calls && k in s'.calls && s'.calls[k] == h.calls[k] && s.log <= h.log <= s'.log
    requires h.calls[k].(effect := None) == s.calls[k].(effect := None)
    requires WritesOn(s, s.current, k) ==> HelpedCall(s, h, k)
    requires !WritesOn(s, s.current, k) ==> h.calls[k] == s.calls[k]
    ensures CallOk(s', k)
  {
    hide Apply;
    var call := s.calls[k];
    if call.effect.Some? {
      assert s'.log[call.effect.value] == s.log[call.effect.value];
    }
    if WriteOpen(call.phase) {
      assert s'.dbs[call.phase.inst] == s'.dbs[..|s.dbs|][call.phase.inst];
    }
    if WritesOn(s, s.current, k) {
      assert s'.log[|s.log|] == h.log[|s.log|];
    }
  }

  /** Every step of every call keeps the invariant. */
  lemma StepKeepsInvariant(s: State, mv: Move)
    requires Invariant(s) && Sane(s) && Enabled(s, mv)
    ensures Invariant(Do(s, mv)) && Sane(Do(s, mv))
  {
    hide Invariant, Answer, Performs, TakeNumber, Entered, Snapshot, Begun, Unlocked, Back, InPhase, Swap, Zeroed,
         Closed, Invoked;
    match mv
    case Invoke(c, op) => InvokeKeeps(s, c, op); InvariantIsSane(Do(s, mv));
    case Commit(c, root) => CloseKeeps(s, c, root); InvariantIsSane(Do(s, mv));
    case Advance(c) => AdvanceKeeps(s, c); InvariantIsSane(Do(s, mv));
  }

  lemma AdvanceKeeps(s: State, c: nat)
    requires Invariant(s) && Sane(s) && Enabled(s, Advance(c))
    ensures Invariant(Do(s, Advance(c)))
  {
    hide Invariant, Answer, Performs, TakeNumber, Entered, Snapshot, Begun, Unlocked, Back, InPhase, Swap, Zeroed,
         Closed, Invoked;
    match s.calls[c].phase
    case Numbering => NumberKeeps(s, c);
    case Start => EnterKeeps(s, c);
    case Reading => if IsRead(s.calls[c].op) { SnapshotKeeps(s, c); } else { BeginKeeps(s, c); }
    case Opened(d, base) => UnlockKeeps(s, c, d, base);
    case Snapped(view) => ScanKeeps(s, c, view);
    case Scanning(view) => ReturnKeeps(s, c, view);
    case Announced => LockKeeps(s, c);
    case Locked => SwapKeeps(s, c);
    case Swapped => ZeroKeeps(s, c);
    case Cleared => LeaveKeeps(s, c);
  }

  /** The same operation, except that an append may bring another number. */
  predicate SameButNumber(a: Op, b: Op) {
    a == b || (a.InsertAudit? && b.InsertAudit? && b.entry == a.entry.(id := b.entry.id))
  }

  /** One call moves: its record changes forwards, and no other record changes at all. */
  ghost predicate OneMoves(s: State, s': State, c: nat) {
    && s'.calls.Keys == s.calls.Keys + {c}
    && s.log <= s'.log && s'.current == s.current && s.taken <= s'.taken
    && (forall k | k in s.calls && k != c :: s'.calls[k] == s.calls[k])
    && if c in s.calls
       then !s.calls[c].phase.Returned? && s'.calls[c].invokedAt == s.calls[c].invokedAt
            && SameButNumber(s.calls[c].op, s'.calls[c].op)
            && (s.calls[c].effect.Some? ==> s'.calls[c].effect == s.calls[c].effect)
       else s'.calls[c].invokedAt == |s.log|
  }

  lemma OneMovesIn(s: State, mv: Move, t: State)
    requires CallOk(s, mv.who) && Sane(s) && Enabled(s, mv) && t == Do(s, mv)
    requires mv.Advance? ==> !s.calls[mv.who].phase.Locked?
    ensures OneMoves(s, t, mv.who)
  {
    hide Apply, Good, Performs, Answer, TakeNumber, Entered, Snapshot, Begun, Unlocked, Back, Swap, Zeroed, CallOk,
         OneMoves;
    match mv
    case Invoke(c, op) => InvokeMovesOne(s, c, op);
    case Commit(c, root) => CloseMovesOne(s, c, root);
    case Advance(c) =>
      match s.calls[c].phase {
        case Numbering => NumberMovesOne(s, c);
        case Start => EnterMovesOne(s, c);
        case Reading => OpenMovesOne(s, c);
        case Opened(d, base) => UnlockMovesOne(s, c, Writing(d, base));
        case Snapped(view) => UnlockMovesOne(s, c, Scanning(view));
        case Scanning(view) => BackMovesOne(s, c, Answer(s.calls[c].op, view), s.announced);
        case Announced => PhaseMovesOne(s, c, Locked);
        case Swapped => ZeroMovesOne(s, c);
        case Cleared => BackMovesOne(s, c, Done, None);
      }
  }

  lemma InvokeMovesOne(s: State, c: nat, op: Op)
    requires c !in s.calls
    ensures OneMoves(s, Invoked(s, c, op), c)
  {
  }

  lemma CloseMovesOne(s: State, c: nat, root: Db)
    requires CallOk(s, c) && Sane(s) && c in s.calls && s.calls[c].phase.Writing?
    ensures OneMoves(s, Closed(s, c, root), c)
  {
    hide Apply, Good, Answer;
  }

  lemma NumberMovesOne(s: State, c: nat)
    requires c in s.calls && s.calls[c].op.InsertAudit? && !s.calls[c].phase.Returned?
    ensures OneMoves(s, TakeNumber(s, c), c)
  {
  }

  lemma EnterMovesOne(s: State, c: nat)
    requires c in s.calls && !s.calls[c].phase.Returned?
    ensures OneMoves(s, Entered(s, c), c)
  {
  }

  lemma OpenMovesOne(s: State, c: nat)
    requires CallOk(s, c) && Sane(s) && c in s.calls && s.calls[c].phase.Reading?
    ensures OneMoves(s, Snapshot(s, c), c) && OneMoves(s, Begun(s, c), c)
  {
    hide Apply, Good, Answer;
  }

  lemma UnlockMovesOne(s: State, c: nat, p: Phase)
    requires c in s.calls && !s.calls[c].phase.Returned?
    ensures OneMoves(s, Unlocked(s, c, p), c)
  {
  }

  lemma BackMovesOne(s: State, c: nat, r: Reply, announced: Option<nat>)
    requires c in s.calls && !s.calls[c].phase.Returned?
    ensures OneMoves(s, Back(s, c, r), c) && OneMoves(s, Back(s, c, r).(announced := announced), c)
  {
  }

  lemma PhaseMovesOne(s: State, c: nat, p: Phase)
    requires c in s.calls && !s.calls[c].phase.Returned?
    ensures OneMoves(s, InPhase(s, c, p), c)
  {
  }

  lemma ZeroMovesOne(s: State, c: nat)
    requires c in s.calls && !s.calls[c].phase.Returned?
    ensures OneMoves(s, Zeroed(s, c), c)
  {
  }

  /** The calls that do not move keep their phase and operation. */
  ghost predicate OthersStay(s: State, s': State, c: nat) {
    && s'.calls.Keys == s.calls.Keys + {c}
    && forall k | k in s.calls && k != c :: s'.calls[k].phase == s.calls[k].phase && s'.calls[k].op == s.calls[k].op
  }

  lemma SwapKeepsOps(s: State, c: nat)
    requires Invariant(s) && Sane(s) && c in s.calls && s.calls[c].phase.Locked?
    ensures Swap(s, c).calls.Keys == s.calls.Keys
    ensures forall k | k in s.calls :: Swap(s, c).calls[k].op == s.calls[k].op
  {
    hide Apply, Good, Replay, Truthful, LocksOk, CallsOk, LogOk;
    HelpedOk(s, c);
    var h := Helped(s);
    forall k | k in s.calls ensures h.calls[k].op == s.calls[k].op {
      assert h.calls[k].(effect := None) == s.calls[k].(effect := None);
    }
  }

  lemma SwapLeavesOthers(s: State, c: nat)
    requires Invariant(s) && Sane(s) && c in s.calls && s.calls[c].phase.Locked?
    ensures OthersStay(s, Swap(s, c), c)
  {
    hide Apply, Good, Replay, Truthful;
    HelpedOk(s, c);
    var h, s' := Helped(s), Swap(s, c);
    forall k | k in s.calls && k != c
      ensures s'.calls[k].phase == s.calls[k].phase && s'.calls[k].op == s.calls[k].op
    {
      assert h.calls[k].(effect := None) == s.calls[k].(effect := None);
    }
  }

  lemma StepLeavesOthers(s: State, mv: Move)
    requires Invariant(s) && Sane(s) && Enabled(s, mv)
    ensures OthersStay(s, Do(s, mv), mv.who)
  {
    hide RootsOk, LocksOk, LogOk, Apply, Performs, Swap, Answer, PhaseOk, EffectOk;
    if mv.Advance? && s.calls[mv.who].phase.Locked? {
      SwapLeavesOthers(s, mv.who);
    } else {
      assert CallOk(s, mv.who);
      OneMovesIn(s, mv, Do(s, mv));
    }
  }

  // Whole runs.

  ghost predicate CanRun(s: State, moves: seq<Move>)
    decreases |moves|
  {
    moves == [] || (Sane(s) && Enabled(s, moves[0]) && CanRun(Do(s, moves[0]), moves[1..]))
  }

  ghost function Run(s: State, moves: seq<Move>): State
    requires CanRun(s, moves)
    decreases |moves|
  {
    if moves == [] then s else Run(Do(s, moves[0]), moves[1..])
  }

  ghost predicate Reaches(s: State, t: State) {
    exists moves :: CanRun(s, moves) && Run(s, moves) == t
  }

  lemma {:induction false} ReachesOneMore(s: State, moves: seq<Move>, mv: Move)
    requires CanRun(s, moves) && Sane(Run(s, moves)) && Enabled(Run(s, moves), mv)
    ensures CanRun(s, moves + [mv]) && Run(s, moves + [mv]) == Do(Run(s, moves), mv)
    decreases |moves|
  {
    hide Do, Enabled, Sane;
    var all := moves + [mv];
    if moves == [] {
      assert all[0] == mv && all[1..] == [];
      assert CanRun(Do(s, mv), []);
    } else {
      assert all[0] == moves[0] && all[1..] == moves[1..] + [mv];
      ReachesOneMore(Do(s, moves[0]), moves[1..], mv);
    }
  }

  /** A reachable state, one step on. */
  lemma Step(s: State, mv: Move) returns (t: State)
    requires Reaches(INIT, s) && Invariant(s) && Sane(s) && Enabled(s, mv)
    ensures t == Do(s, mv) && Reaches(INIT, t) && Invariant(t) && Sane(t)
  {
    hide Do, Enabled, Sane, Invariant;
    var moves :| CanRun(INIT, moves) && Run(INIT, moves) == s;
    ReachesOneMore(INIT, moves, mv);
    StepKeepsInvariant(s, mv);
    t := Do(s, mv);
    assert CanRun(INIT, moves + [mv]) && Run(INIT, moves + [mv]) == t;
  }

  /** What one state remembers of an earlier one about call k. */
  ghost predicate Remembers(s: State, s': State, k: nat) {
    && (k in s.calls ==>
          && k in s'.calls
          && (s.calls[k].effect.Some? ==> s'.calls[k].effect == s.calls[k].effect)
          && (s.calls[k].phase.Returned? ==> s'.calls[k] == s.calls[k]))
    && (k in s'.calls && k !in s.calls ==> s'.calls[k].invokedAt >= |s.log|)
    && (k in s.calls && k in s'.calls ==> s'.calls[k].invokedAt == s.calls[k].invokedAt)
  }

  ghost predicate Later(s: State, s': State) {
    && s.log <= s'.log && s.current <= s'.current
    && forall k: nat {:trigger Remembers(s, s', k)} :: Remembers(s, s', k)
  }

  lemma OneMovesIsLater(s: State, s': State, c: nat)
    requires OneMoves(s, s', c)
    ensures Later(s, s')
  {
    forall k: nat ensures Remembers(s, s', k) { }
  }

  lemma SwapIsLater(s: State, c: nat)
    requires Invariant(s) && Sane(s) && c in s.calls && s.calls[c].phase.Locked?
    ensures Later(s, Swap(s, c))
  {
    hide Apply, Good, Replay, Truthful, CallsOk, LocksOk;
    HelpedOk(s, c);
    forall k: nat ensures Remembers(s, Swap(s, c), k) { SwapRemembers(s, c, k); }
  }

  lemma SwapRemembers(s: State, c: nat, k: nat)
    requires Invariant(s) && Sane(s) && c in s.calls && s.calls[c].phase.Locked?
    ensures Remembers(s, Swap(s, c), k)
  {
    hide Apply, Good, Replay, Truthful, LogOk, RootsOk, LocksOk;
    var h := Helped(s);
    HelpedOk(s, c);
    assert CallOk(s, c) && CallOk(s, k);
    assert k in s.calls ==> h.calls[k].(effect := None) == s.calls[k].(effect := None);
  }

  lemma StepIsLater(s: State, mv: Move)
    requires Invariant(s) && Sane(s) && Enabled(s, mv)
    ensures Later(s, Do(s, mv))
  {
    hide RootsOk, LocksOk, LogOk, Apply, Performs, Swap, Answer, Later, PhaseOk, EffectOk;
    if mv.Advance? && s.calls[mv.who].phase.Locked? {
      SwapIsLater(s, mv.who);
    } else {
      assert CallOk(s, mv.who);
      OneMovesIn(s, mv, Do(s, mv));
      OneMovesIsLater(s, Do(s, mv), mv.who);
    }
  }

  lemma {:induction false} RunIsSafe(s: State, moves: seq<Move>)
    requires Invariant(s) && CanRun(s, moves)
    ensures Invariant(Run(s, moves)) && Later(s, Run(s, moves))
    decreases |moves|
  {
    hide Invariant, Do, Enabled, Performs;
    if moves != [] {
      var next := Do(s, moves[0]);
      StepKeepsInvariant(s, moves[0]);
      StepIsLater(s, moves[0]);
      RunIsSafe(next, moves[1..]);
      LaterIsTransitive(s, next, Run(s, moves));
    } else {
      assert Later(s, s);
    }
  }

  lemma LaterIsTransitive(s: State, t: State, u: State)
    requires Later(s, t) && Later(t, u)
    ensures Later(s, u)
  {
    forall k: nat ensures Remembers(s, u, k) {
      assert Remembers(s, t, k) && Remembers(t, u, k);
    }
  }

  /**
    Every run is equivalent to running its log one operation at a time on the record of
    maps: the answers are the ones given, each finished call is in it exactly once, and
    the current instance holds the outcome. In every instance and every open snapshot, all
    indexes are exact and each membership joins a stored group and a stored user.
  */
  lemma EveryRunIsLinear(moves: seq<Move>)
    requires CanRun(INIT, moves)
    ensures var s := Run(INIT, moves);
            && Truthful(s.log)
            && s.current < |s.dbs| && View(s.dbs[s.current].root) == Replay(s.log)
            && (forall d | 0 <= d < |s.dbs| :: Good(s.dbs[d].root))
            && (forall c | c in s.calls && (s.calls[c].phase.Snapped? || s.calls[c].phase.Scanning?) ::
                  Good(s.calls[c].phase.view))
            && (forall c | c in s.calls && s.calls[c].phase.Returned? ::
                  && s.calls[c].effect.Some? && s.calls[c].effect.value < |s.log|
                  && s.log[s.calls[c].effect.value] == Event(c, s.calls[c].op, s.calls[c].phase.reply))
            && (forall i, j | 0 <= i < j < |s.log| :: s.log[i].who != s.log[j].who)
  {
    hide Apply, Good, Replay, Truthful, Performs, Do;
    InitInvariant();
    RunIsSafe(INIT, moves);
    var s := Run(INIT, moves);
    forall c | c in s.calls ensures CallOk(s, c) { }
    forall i, j | 0 <= i < j < |s.log| ensures s.log[i].who != s.log[j].who {
      assert EventOk(s, i) && EventOk(s, j);
    }
  }

  /** A call that returned before another was made also takes effect before it. */
  lemma RealTimeOrder(before: seq<Move>, after: seq<Move>, a: nat, b: nat)
    requires CanRun(INIT, before) && CanRun(Run(INIT, before), after)
    requires var s := Run(INIT, before); a in s.calls && s.calls[a].phase.Returned? && b !in s.calls
    requires var t := Run(Run(INIT, before), after); b in t.calls && t.calls[b].effect.Some?
    ensures var t := Run(Run(INIT, before), after);
            a in t.calls && t.calls[a].effect.Some? && t.calls[a].effect.value < t.calls[b].effect.value
  {
    hide Apply, Good, Replay, Truthful, Performs, Do;
    InitInvariant();
    RunIsSafe(INIT, before);
    var s := Run(INIT, before);
    RunIsSafe(s, after);
    var t := Run(s, after);
    assert CallOk(s, a) && CallOk(t, b);
    assert Remembers(s, t, a) && Remembers(s, t, b);
  }

  /** A writer caught by the swap takes effect just before the Reset, and the Reset just after. */
  lemma WriterCountsBeforeReset(s: State, c: nat)
    requires Invariant(s) && Sane(s) && Enabled(s, Advance(c)) && s.calls[c].phase.Locked?
    ensures var s' := Do(s, Advance(c));
            match s.dbs[s.current].holder
            case None => s'.log == s.log + [Event(c, Reset, Done)]
            case Some(w) =>
              && w in s.calls
              && s'.log == s.log + [Event(w, s.calls[w].op, Answer(s.calls[w].op, s.dbs[s.current].root)),
                                    Event(c, Reset, Done)]
  {
    hide Apply, Good, Replay, Truthful;
    HelpedOk(s, c);
    assert CallOk(s, c);
  }

  /** What a writer commits to a replaced instance is never visible: not now, and in no later state. */
  lemma LateCommitIsInvisible(s: State, c: nat, root: Db, after: seq<Move>)
    requires Invariant(s) && Sane(s) && Enabled(s, Commit(c, root)) && s.calls[c].phase.inst != s.current
    requires CanRun(Do(s, Commit(c, root)), after)
    ensures var s' := Do(s, Commit(c, root));
            s'.current == s.current && s'.dbs[s.current] == s.dbs[s.current] && s'.log == s.log
    ensures Run(Do(s, Commit(c, root)), after).current != s.calls[c].phase.inst
  {
    hide Apply, Good, Replay, Truthful;
    assert CallOk(s, c);
    StepKeepsInvariant(s, Commit(c, root));
    RunIsSafe(Do(s, Commit(c, root)), after);
  }
}
