/** No reachable state of the two locks is stuck, and every call can be brought to its end. */
module Progress {
  import opened Wrappers
  import opened Schemas
  import opened Model
  import opened Concurrency

  predicate Finished(s: State) {
    forall c | c in s.calls :: s.calls[c].phase.Returned?
  }

  predicate InnerStep(p: Phase) {
    p.Numbering? || p.Opened? || p.Snapped? || p.Scanning? || HoldsExclusive(p)
  }

  /**
    Some unfinished call can always move: whoever waits for the writer lock holds the mutex
    for reading, and whoever holds the writer lock never asks for the mutex again.
  */
  lemma NoDeadlock(s: State)
    requires Invariant(s) && Sane(s) && !Finished(s)
    ensures exists mv: Move :: !mv.Invoke? && Enabled(s, mv)
  {
    hide Apply, Good, Replay, Truthful, Performs;
    if c :| c in s.calls && InnerStep(s.calls[c].phase) {
      assert Enabled(s, Advance(c));
    } else if c :| c in s.calls && s.calls[c].phase.Writing? {
      CommitPossible(s, c);
    } else if c :| c in s.calls && s.calls[c].phase.Reading? {
      if s.dbs[s.current].holder.Some? { HolderWrites(s, s.current, s.dbs[s.current].holder.value); }
      assert Enabled(s, Advance(c));
    } else if c :| c in s.calls && s.calls[c].phase.Announced? {
      forall r | r in s.readers ensures ReadsNow(s, r) { assert ReadsNow(s, r); }
      assert Enabled(s, Advance(c));
    } else {
      var c :| c in s.calls && !s.calls[c].phase.Returned?;
      if s.announced.Some? { AnnouncedResets(s, s.announced.value); }
      assert Enabled(s, Advance(c));
    }
  }

  lemma HolderWrites(s: State, d: nat, c: nat)
    requires LocksOk(s) && d < |s.dbs| && s.dbs[d].holder == Some(c)
    ensures WritesOn(s, d, c)
  {
    assert HeldBy(s, d, c);
  }

  lemma AnnouncedResets(s: State, c: nat)
    requires LocksOk(s) && s.announced == Some(c)
    ensures ResetsNow(s, c)
  {
  }

  lemma CommitPossible(s: State, c: nat)
    requires Invariant(s) && Sane(s) && c in s.calls && s.calls[c].phase.Writing?
    ensures exists mv: Move :: !mv.Invoke? && Enabled(s, mv)
  {
    var op, base := s.calls[c].op, s.calls[c].phase.base;
    assert CallOk(s, c);
    OutcomeExists(op, base);
    var root :| Performs(op, base, root, Apply(op, View(base)).1);
    assert Enabled(s, Commit(c, root));
  }

  // How much work is left.

  function Rank(p: Phase): nat {
    match p
    case Numbering => 6
    case Start => 5
    case Reading => 4
    case Announced => 4
    case Opened(_, _) => 3
    case Snapped(_) => 3
    case Locked => 3
    case Writing(_, _) => 2
    case Scanning(_) => 2
    case Swapped => 2
    case Cleared => 1
    case Returned(_) => 0
  }

  ghost function Left(calls: map<nat, Call>): nat
    decreases |calls|
  {
    if calls == map[] then 0
    else var c :| c in calls; Rank(calls[c].phase) + Left(calls - {c})
  }

  lemma {:induction false} LeftSplits(calls: map<nat, Call>, c: nat)
    requires c in calls
    ensures Left(calls) == Rank(calls[c].phase) + Left(calls - {c})
    decreases |calls|
  {
    var d :| d in calls && Left(calls) == Rank(calls[d].phase) + Left(calls - {d});
    if d != c {
      LeftSplits(calls - {d}, c);
      LeftSplits(calls - {c}, d);
      assert calls - {d} - {c} == calls - {c} - {d};
    }
  }

  lemma {:induction false} LeftSame(m: map<nat, Call>, n: map<nat, Call>)
    requires m.Keys == n.Keys && forall k | k in m :: m[k].phase == n[k].phase
    ensures Left(m) == Left(n)
    decreases |m|
  {
    if m == map[] {
      assert n == map[];
    } else {
      var c :| c in m;
      LeftSplits(m, c);
      LeftSplits(n, c);
      LeftSame(m - {c}, n - {c});
    }
  }

  lemma LeftDrops(m: map<nat, Call>, n: map<nat, Call>, c: nat)
    requires m.Keys == n.Keys && c in m && Rank(n[c].phase) < Rank(m[c].phase)
    requires forall k | k in m && k != c :: m[k].phase == n[k].phase
    ensures Left(n) < Left(m)
  {
    LeftSplits(m, c);
    LeftSplits(n, c);
    LeftSame(m - {c}, n - {c});
  }

  lemma MoverDescends(s: State, mv: Move, t: State)
    requires Sane(s) && Enabled(s, mv) && !mv.Invoke? && t == Do(s, mv) && mv.who in t.calls
    ensures mv.who in s.calls && Rank(t.calls[mv.who].phase) < Rank(s.calls[mv.who].phase)
  {
    hide Apply, Performs, Answer, TakeNumber, Entered, Snapshot, Begun, Unlocked, Back, InPhase, Swap, Zeroed, Closed;
    match mv
    case Commit(c, root) => ClosedRank(s, c, root);
    case Advance(c) =>
      match s.calls[c].phase {
        case Numbering => EntryRanks(s, c);
        case Start => EntryRanks(s, c);
        case Reading => OpenRanks(s, c);
        case Opened(d, base) => UnlockedRank(s, c, Writing(d, base));
        case Snapped(view) => UnlockedRank(s, c, Scanning(view));
        case Scanning(view) => BackRank(s, c, Answer(s.calls[c].op, view));
        case Announced => InPhaseRank(s, c, Locked);
        case Locked => SwapRank(s, c);
        case Swapped => InPhaseRank(s, c, Cleared);
        case Cleared => BackRank(s, c, Done);
      }
  }

  lemma ClosedRank(s: State, c: nat, root: Db)
    requires Sane(s) && c in s.calls && s.calls[c].phase.Writing?
    ensures c in Closed(s, c, root).calls && Rank(Closed(s, c, root).calls[c].phase) == 0
  {
    hide Apply, Answer;
  }

  lemma EntryRanks(s: State, c: nat)
    requires c in s.calls
    ensures c in Entered(s, c).calls && Rank(Entered(s, c).calls[c].phase) == 4
    ensures s.calls[c].op.InsertAudit? ==> c in TakeNumber(s, c).calls && Rank(TakeNumber(s, c).calls[c].phase) == 5
  {
  }

  lemma OpenRanks(s: State, c: nat)
    requires Sane(s) && c in s.calls
    ensures c in Snapshot(s, c).calls && Rank(Snapshot(s, c).calls[c].phase) == 3
    ensures c in Begun(s, c).calls && Rank(Begun(s, c).calls[c].phase) == 3
  {
    hide Apply, Answer;
  }

  lemma UnlockedRank(s: State, c: nat, p: Phase)
    requires c in s.calls
    ensures c in Unlocked(s, c, p).calls && Rank(Unlocked(s, c, p).calls[c].phase) == Rank(p)
  {
  }

  lemma InPhaseRank(s: State, c: nat, p: Phase)
    requires c in s.calls
    ensures c in InPhase(s, c, p).calls && Rank(InPhase(s, c, p).calls[c].phase) == Rank(p)
    ensures p.Cleared? ==> c in Zeroed(s, c).calls && Rank(Zeroed(s, c).calls[c].phase) == Rank(p)
  {
  }

  lemma BackRank(s: State, c: nat, r: Reply)
    requires c in s.calls
    ensures c in Back(s, c, r).calls && Rank(Back(s, c, r).calls[c].phase) == 0
  {
  }

  lemma SwapRank(s: State, c: nat)
    requires Sane(s) && c in s.calls
    ensures c in Swap(s, c).calls && Rank(Swap(s, c).calls[c].phase) == 2
  {
    hide Apply, Answer, Helped;
    assert c in Helped(s).calls by { HelpedHas(s, c); }
  }

  lemma HelpedHas(s: State, c: nat)
    requires Sane(s) && c in s.calls
    ensures c in Helped(s).calls
  {
    hide Apply, Answer;
  }

  lemma StepUsesWork(s: State, mv: Move)
    requires Invariant(s) && Sane(s) && Enabled(s, mv) && !mv.Invoke?
    ensures Left(Do(s, mv).calls) < Left(s.calls)
  {
    hide Invariant, Do, Enabled;
    StepLeavesOthers(s, mv);
    MoverDescends(s, mv, Do(s, mv));
    LeftDrops(s.calls, Do(s, mv).calls, mv.who);
  }

  /** Without new calls no schedule is longer than the work left. */
  lemma {:induction false} SchedulesEnd(s: State, moves: seq<Move>)
    requires Invariant(s) && CanRun(s, moves) && forall i | 0 <= i < |moves| :: !moves[i].Invoke?
    ensures |moves| <= Left(s.calls)
    decreases |moves|
  {
    hide Invariant, Do, Enabled;
    if moves != [] {
      StepUsesWork(s, moves[0]);
      StepKeepsInvariant(s, moves[0]);
      SchedulesEnd(Do(s, moves[0]), moves[1..]);
    }
  }

  ghost predicate FinishesBy(s: State, moves: seq<Move>) {
    && CanRun(s, moves) && Finished(Run(s, moves))
    && forall i | 0 <= i < |moves| :: !moves[i].Invoke?
  }

  /** From every reachable state all open calls can be finished; with SchedulesEnd, keeping on moving does it. */
  lemma {:induction false} EveryCallCanFinish(s: State)
    requires Invariant(s) && Sane(s)
    ensures exists moves :: FinishesBy(s, moves)
    decreases Left(s.calls)
  {
    hide Invariant, Do, Enabled;
    if Finished(s) {
      assert FinishesBy(s, []);
    } else {
      NoDeadlock(s);
      var mv: Move :| !mv.Invoke? && Enabled(s, mv);
      StepUsesWork(s, mv);
      StepKeepsInvariant(s, mv);
      EveryCallCanFinish(Do(s, mv));
      var rest :| FinishesBy(Do(s, mv), rest);
      var moves := [mv] + rest;
      assert moves[0] == mv && moves[1..] == rest;
      assert FinishesBy(s, moves);
    }
  }
}
