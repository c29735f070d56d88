/**
  Audit numbers under concurrent appends and resets. The number is taken before the
  transaction is opened, so a Reset can come between the two. The numbers in the table are
  exactly 1 to the counter if and only if that happened to none of the appends in it.
*/
module AuditOrder {
  import opened Wrappers
  import opened Schemas
  import opened Model
  import opened Stores
  import opened Concurrency
  import opened Progress

  // Logs: what the appends since the last reset leave in the table.

  function Resets(log: seq<Event>): nat {
    if log == [] then 0 else Resets(log[..|log| - 1]) + if log[|log| - 1].op.Reset? then 1 else 0
  }

  lemma {:induction false} ResetsRise(log: seq<Event>, i: nat)
    requires i <= |log|
    ensures Resets(log[..i]) <= Resets(log)
    decreases |log|
  {
    if i < |log| {
      var before := log[..|log| - 1];
      ResetsRise(before, i);
      assert before[..i] == log[..i];
    } else {
      assert log[..i] == log;
    }
  }

  predicate Appends(e: Event) { e.op.InsertAudit? }

  /** No reset comes after event i. */
  predicate SinceReset(log: seq<Event>, i: nat) { i < |log| && Resets(log[..i]) == Resets(log) }

  predicate AppendOf(log: seq<Event>, n: nat, i: nat) {
    i < |log| && SinceReset(log, i) && Appends(log[i]) && log[i].op.entry.id == n
  }

  ghost predicate AppendedBy(log: seq<Event>, n: nat) { exists i: nat :: AppendOf(log, n, i) }

  predicate Holds(m: Rows, e: AuditEntry) { e.id in m.audit && m.audit[e.id] == e }

  ghost predicate DistinctAppends(log: seq<Event>) {
    forall i: nat, j: nat | SinceReset(log, i) && SinceReset(log, j) && Appends(log[i]) && Appends(log[j]) ::
      log[i].op.entry.id == log[j].op.entry.id ==> i == j
  }

  lemma AuditAfter(op: Op, m: Rows)
    ensures Apply(op, m).0.audit == if op.Reset? then map[]
                                    else if op.InsertAudit? then m.audit[op.entry.id := op.entry]
                                    else m.audit
  {
  }

  lemma SinceResetBefore(log: seq<Event>, i: nat)
    requires log != []
    ensures var before := log[..|log| - 1];
            SinceReset(log, i) <==> !log[|log| - 1].op.Reset? && (i == |log| - 1 || SinceReset(before, i))
  {
    var before := log[..|log| - 1];
    if i < |log| {
      assert before[..i] == log[..i];
      ResetsRise(before, i);
    }
  }

  lemma {:induction false} AppendsFillTheTable(log: seq<Event>)
    ensures forall n: nat :: n in Replay(log).audit <==> AppendedBy(log, n)
    decreases |log|
  {
    hide Apply, SinceReset;
    if log == [] {
      assert forall n: nat :: !AppendedBy(log, n);
    } else {
      var last, before := log[|log| - 1], log[..|log| - 1];
      AppendsFillTheTable(before);
      AuditAfter(last.op, Replay(before));
      forall n: nat ensures n in Replay(log).audit <==> AppendedBy(log, n) { AppendedOneMore(log, n); }
    }
  }

  lemma AppendedOneMore(log: seq<Event>, n: nat)
    requires log != []
    ensures var last, before := log[|log| - 1], log[..|log| - 1];
            AppendedBy(log, n) <==>
              !last.op.Reset? && (AppendedBy(before, n) || (Appends(last) && last.op.entry.id == n))
  {
    hide Resets, SinceReset;
    var last, before := log[|log| - 1], log[..|log| - 1];
    assert forall i: nat | i < |before| :: before[i] == log[i];
    forall i: nat ensures SinceReset(log, i) <==> !last.op.Reset? && (i == |log| - 1 || SinceReset(before, i))
      ensures SinceReset(before, i) ==> i < |before|
    {
      SinceResetBefore(log, i);
      SinceInRange(before, i);
    }
    if AppendedBy(before, n) && !last.op.Reset? {
      var i: nat :| AppendOf(before, n, i);
      assert AppendOf(log, n, i);
    }
    if AppendedBy(log, n) {
      var i: nat :| AppendOf(log, n, i);
      assert i < |before| ==> AppendOf(before, n, i);
    }
    if !last.op.Reset? && Appends(last) && last.op.entry.id == n {
      assert AppendOf(log, n, |log| - 1);
    }
  }

  lemma SinceInRange(log: seq<Event>, i: nat)
    ensures SinceReset(log, i) ==> i < |log|
  {
  }

  /** Each append since the last reset whose number no other one has is still in the table as it was made. */
  lemma {:induction false} DistinctAppendsAreKept(log: seq<Event>, i: nat)
    requires DistinctAppends(log) && SinceReset(log, i) && Appends(log[i])
    ensures Holds(Replay(log), log[i].op.entry)
    decreases |log|
  {
    hide Apply, Resets, SinceReset;
    SinceInRange(log, i);
    var last, k := log[|log| - 1], |log| - 1;
    var before := log[..k];
    AuditAfter(last.op, Replay(before));
    SinceResetBefore(log, i);
    SinceResetBefore(log, k);
    if i < k {
      DistinctBefore(log);
      assert before[i] == log[i];
      DistinctAppendsAreKept(before, i);
      if Appends(last) { assert last.op.entry.id != log[i].op.entry.id; }
    }
  }

  lemma DistinctBefore(log: seq<Event>)
    requires log != [] && DistinctAppends(log) && !log[|log| - 1].op.Reset?
    ensures DistinctAppends(log[..|log| - 1])
  {
    hide Resets, SinceReset;
    var before := log[..|log| - 1];
    forall i: nat, j: nat | SinceReset(before, i) && SinceReset(before, j)
      ensures i < |before| && j < |before| && SinceReset(log, i) && SinceReset(log, j)
              && before[i] == log[i] && before[j] == log[j]
    {
      SinceResetBefore(log, i);
      SinceResetBefore(log, j);
      SinceInRange(before, i);
      SinceInRange(before, j);
    }
  }

  /** With distinct numbers, no append finds its number in the table: nothing is overwritten. */
  lemma {:induction false} NothingOverwritten(log: seq<Event>, i: nat)
    requires DistinctAppends(log) && SinceReset(log, i) && Appends(log[i])
    ensures log[i].op.entry.id !in Replay(log[..i]).audit
    decreases |log|
  {
    hide Resets, SinceReset, Replay;
    SinceInRange(log, i);
    var k := |log| - 1;
    var before := log[..k];
    SinceResetBefore(log, i);
    SinceResetBefore(log, k);
    if i < k {
      DistinctBefore(log);
      assert before[i] == log[i] && before[..i] == log[..i];
      NothingOverwritten(before, i);
    } else {
      AppendsFillTheTable(before);
      assert forall j | 0 <= j < k :: before[j] == log[j];
      if AppendedBy(before, log[k].op.entry.id) {
        var j: nat :| AppendOf(before, log[k].op.entry.id, j);
        SinceResetBefore(log, j);
      }
    }
  }

  // States: who took which number, and when.

  /** The call has taken its number. */
  predicate Numbered(s: State, c: nat) {
    c in s.calls && s.calls[c].op.InsertAudit? && !s.calls[c].phase.Numbering?
  }

  function NumberOf(s: State, c: nat): nat
    requires Numbered(s, c)
  {
    s.calls[c].op.entry.id
  }

  /** It has taken it after the last time the counter was cleared. */
  predicate Recent(s: State, c: nat) { Numbered(s, c) && c in s.eras && s.eras[c] == s.clears }

  ghost predicate InUse(s: State, n: nat) {
    exists c: nat :: Recent(s, c) && NumberOf(s, c) == n
  }

  /** The numbers taken since the last clear are exactly 1 to the counter, each by one call. */
  ghost predicate NumbersOk(s: State) {
    && s.auditSeq <= s.taken
    && (s.clears == 0 ==> s.auditSeq == s.taken)
    && (forall n: nat {:trigger InUse(s, n)} :: InUse(s, n) <==> 1 <= n <= s.auditSeq)
    && (forall c, d {:trigger Recent(s, c), Recent(s, d)} ::
          Recent(s, c) && Recent(s, d) && NumberOf(s, c) == NumberOf(s, d) ==> c == d)
  }

  predicate SwapPending(s: State) {
    s.announced.Some? && s.announced.value in s.calls && s.calls[s.announced.value].phase.Swapped?
  }

  /** Each swap is one reset in the log, and the clear that belongs to it comes next. */
  predicate ClearsOk(s: State) {
    s.current == Resets(s.log) && s.clears + (if SwapPending(s) then 1 else 0) == s.current
  }

  /** An append opens no earlier than it is numbered, and takes effect between the resets around its instance. */
  predicate AppendOk(s: State, c: nat) {
    Numbered(s, c) ==>
      var call := s.calls[c];
      && c in s.eras && s.eras[c] <= s.clears
      && (WriteOpen(call.phase) || call.phase.Returned? ==>
            c in s.openedOn && s.eras[c] <= s.openedOn[c] <= s.current)
      && (WriteOpen(call.phase) ==> s.openedOn[c] == call.phase.inst)
      && (call.effect.Some? ==>
            call.effect.value <= |s.log| && c in s.openedOn && s.openedOn[c] == Resets(s.log[..call.effect.value]))
  }

  ghost predicate AppendsOk(s: State) { forall c: nat {:trigger AppendOk(s, c)} :: AppendOk(s, c) }

  ghost predicate EraInv(s: State) { NumbersOk(s) && ClearsOk(s) && AppendsOk(s) }

  ghost predicate SameRecent(s: State, s': State, k: nat) {
    && (Recent(s, k) <==> Recent(s', k))
    && (Recent(s, k) ==> NumberOf(s', k) == NumberOf(s, k))
  }

  lemma NumbersStay(s: State, s': State)
    requires NumbersOk(s) && s'.auditSeq == s.auditSeq && s'.taken == s.taken && s'.clears == s.clears
    requires forall k: nat {:trigger SameRecent(s, s', k)} :: SameRecent(s, s', k)
    ensures NumbersOk(s')
  {
    forall n: nat ensures InUse(s', n) <==> 1 <= n <= s'.auditSeq {
      assert InUse(s, n) <==> 1 <= n <= s.auditSeq;
      if InUse(s, n) {
        var c: nat :| Recent(s, c) && NumberOf(s, c) == n;
        assert SameRecent(s, s', c);
      }
      if InUse(s', n) {
        var c: nat :| Recent(s', c) && NumberOf(s', c) == n;
        assert SameRecent(s, s', c);
      }
    }
    forall c, d | Recent(s', c) && Recent(s', d) && NumberOf(s', c) == NumberOf(s', d) ensures c == d {
      assert SameRecent(s, s', c) && SameRecent(s, s', d);
    }
  }

  lemma OneMoreNumber(s: State, c: nat)
    requires NumbersOk(s) && c in s.calls && s.calls[c].op.InsertAudit? && s.calls[c].phase.Numbering?
    requires s.taken + 1 < COUNTER_RANGE
    ensures NumbersOk(TakeNumber(s, c))
  {
    var s' := TakeNumber(s, c);
    assert Recent(s', c) && NumberOf(s', c) == s.auditSeq + 1;
    forall k: nat | k != c ensures SameRecent(s, s', k) { }
    forall n: nat ensures InUse(s', n) <==> 1 <= n <= s'.auditSeq {
      assert InUse(s, n) <==> 1 <= n <= s.auditSeq;
      if InUse(s, n) {
        var k: nat :| Recent(s, k) && NumberOf(s, k) == n;
        assert SameRecent(s, s', k);
      }
      if InUse(s', n) {
        var k: nat :| Recent(s', k) && NumberOf(s', k) == n;
        assert k != c ==> SameRecent(s, s', k);
      }
    }
    forall a, b | Recent(s', a) && Recent(s', b) && NumberOf(s', a) == NumberOf(s', b) ensures a == b {
      assert a != c ==> SameRecent(s, s', a) && InUse(s, NumberOf(s, a));
      assert b != c ==> SameRecent(s, s', b) && InUse(s, NumberOf(s, b));
    }
  }

  // Every step keeps this.

  lemma NumberKeepsEras(s: State, c: nat)
    requires EraInv(s) && c in s.calls && s.calls[c].op.InsertAudit? && s.calls[c].phase.Numbering?
    requires s.taken + 1 < COUNTER_RANGE && s.calls[c].effect.None?
    ensures EraInv(TakeNumber(s, c))
  {
    hide NumbersOk, Resets;
    OneMoreNumber(s, c);
    forall k: nat ensures AppendOk(TakeNumber(s, c), k) { assert AppendOk(s, k); }
  }

  lemma LongerLog(s: State, s': State, k: nat)
    requires AppendOk(s, k) && s.log <= s'.log && s.current <= s'.current && s.clears <= s'.clears
    requires k in s.calls && k in s'.calls && s'.calls[k] == s.calls[k]
    requires (k in s.eras <==> k in s'.eras) && (k in s.openedOn <==> k in s'.openedOn)
    requires (k in s.eras ==> s'.eras[k] == s.eras[k]) && (k in s.openedOn ==> s'.openedOn[k] == s.openedOn[k])
    ensures AppendOk(s', k)
  {
    hide Resets;
    var e := s.calls[k].effect;
    assert e.Some? && e.value <= |s.log| ==> s'.log[..e.value] == s.log[..e.value];
  }

  /** A step of one call that neither takes a number nor clears the counter. */
  lemma QuietEra(s: State, s': State, c: nat)
    requires EraInv(s) && OneMoves(s, s', c)
    requires s'.auditSeq == s.auditSeq && s'.taken == s.taken && s'.clears == s.clears && s'.eras == s.eras
    requires forall k | k != c :: (k in s.openedOn <==> k in s'.openedOn)
    requires forall k | k != c && k in s.openedOn :: s'.openedOn[k] == s.openedOn[k]
    requires Numbered(s, c) <==> Numbered(s', c)
    requires Numbered(s, c) ==> NumberOf(s', c) == NumberOf(s, c)
    requires AppendOk(s', c) && ClearsOk(s')
    ensures EraInv(s')
  {
    hide Resets, ClearsOk, NumbersOk;
    forall k: nat ensures SameRecent(s, s', k) { }
    NumbersStay(s, s');
    forall k: nat ensures AppendOk(s', k) {
      assert AppendOk(s, k);
      if k != c && k in s.calls { LongerLog(s, s', k); }
    }
  }

  lemma EventAdds(log: seq<Event>, e: Event)
    ensures Resets(log + [e]) == Resets(log) + if e.op.Reset? then 1 else 0
    ensures (log + [e])[..|log|] == log
  {
    assert (log + [e])[..|log|] == log;
  }

  lemma CloseKeepsEras(s: State, c: nat, root: Db)
    requires Invariant(s) && Sane(s) && EraInv(s) && c in s.calls && s.calls[c].phase.Writing?
    ensures EraInv(Closed(s, c, root))
  {
    hide Apply, Good, Answer, Resets, Replay, Truthful, NumbersOk;
    var s', call := Closed(s, c, root), s.calls[c];
    assert CallOk(s, c) && AppendOk(s, c);
    CloseMovesOne(s, c, root);
    EventAdds(s.log, Event(c, call.op, Answer(call.op, call.phase.base)));
    assert s.log[..|s.log|] == s.log;
    assert ResetsNow(s, c) <==> s.announced == Some(c);
    QuietEra(s, s', c);
  }

  lemma SnapshotKeepsEras(s: State, c: nat)
    requires Invariant(s) && Sane(s) && EraInv(s) && c in s.calls && s.calls[c].phase.Reading? && IsRead(s.calls[c].op)
    ensures EraInv(Snapshot(s, c))
  {
    hide Apply, Good, Answer, Resets, Replay, Truthful, NumbersOk;
    assert CallOk(s, c);
    OpenMovesOne(s, c);
    EventAdds(s.log, Event(c, s.calls[c].op, Answer(s.calls[c].op, s.dbs[s.current].root)));
    assert ResetsNow(s, c) <==> s.announced == Some(c);
    QuietEra(s, Snapshot(s, c), c);
  }

  lemma BeginKeepsEras(s: State, c: nat)
    requires Invariant(s) && Sane(s) && EraInv(s) && c in s.calls && s.calls[c].phase.Reading?
    ensures EraInv(Begun(s, c))
  {
    hide Apply, Good, Resets, Replay, Truthful, NumbersOk;
    assert CallOk(s, c) && AppendOk(s, c);
    OpenMovesOne(s, c);
    assert ResetsNow(s, c) <==> s.announced == Some(c);
    QuietEra(s, Begun(s, c), c);
  }

  lemma ZeroKeepsEras(s: State, c: nat)
    requires Invariant(s) && EraInv(s) && c in s.calls && s.calls[c].phase.Swapped?
    ensures EraInv(Zeroed(s, c))
  {
    hide Apply, Good, Resets, Replay, Truthful;
    var s' := Zeroed(s, c);
    assert ResetsNow(s, c) <==> s.announced == Some(c);
    assert CallOk(s, c);
    forall k: nat ensures AppendOk(s', k) && !Recent(s', k) {
      assert AppendOk(s, k);
    }
  }

  lemma SwapKeepsEras(s: State, c: nat)
    requires Invariant(s) && Sane(s) && EraInv(s) && c in s.calls && s.calls[c].phase.Locked?
    ensures EraInv(Swap(s, c))
  {
    hide Apply, Good, Replay, Truthful, Answer, Resets, NumbersOk;
    var s' := Swap(s, c);
    SwapLeavesOthers(s, c);
    assert CallOk(s, c);
    assert ResetsNow(s, c) <==> s.announced == Some(c);
    forall k: nat ensures SameRecent(s, s', k) { }
    NumbersStay(s, s');
    SwapCounts(s, c);
    forall k: nat ensures AppendOk(s', k) {
      if Numbered(s', k) { SwapKeepsAppend(s, c, k); }
    }
  }

  lemma SwapCounts(s: State, c: nat)
    requires Invariant(s) && Sane(s) && ClearsOk(s) && c in s.calls && s.calls[c].phase.Locked?
    ensures ClearsOk(Swap(s, c))
  {
    hide Apply, Good, Replay, Truthful, Resets, LogOk, Helped;
    HelpedOk(s, c);
    HelpedCounts(s);
    assert CallOk(s, c);
    assert ResetsNow(s, c) <==> s.announced == Some(c);
    EventAdds(Helped(s).log, Event(c, s.calls[c].op, Done));
  }

  lemma HelpedCounts(s: State)
    requires Invariant(s) && Sane(s)
    ensures Resets(Helped(s).log) == Resets(s.log)
    ensures Helped(s).announced == s.announced && Helped(s).current == s.current
            && Helped(s).clears == s.clears && Helped(s).dbs == s.dbs
  {
    hide Apply, Good, Replay, Truthful, Resets;
    var i := s.dbs[s.current];
    if i.holder.Some? {
      var w := i.holder.value;
      assert HeldBy(s, s.current, w) && WritesOn(s, s.current, w) && CallOk(s, w);
      EventAdds(s.log, Event(w, s.calls[w].op, Answer(s.calls[w].op, i.root)));
    }
  }

  lemma SwapKeepsAppend(s: State, c: nat, k: nat)
    requires Invariant(s) && Sane(s) && EraInv(s) && c in s.calls && s.calls[c].phase.Locked?
    requires k in s.calls && k != c && s.calls[k].op.InsertAudit?
    ensures AppendOk(Swap(s, c), k)
  {
    hide Apply, Good, Replay, Truthful, Answer, Resets, NumbersOk;
    HelpedOk(s, c);
    var h, s' := Helped(s), Swap(s, c);
    assert AppendOk(s, k) && CallOk(s, k);
    assert h.calls[k].(effect := None) == s.calls[k].(effect := None);
    if WritesOn(s, s.current, k) {
      assert s'.log[..|s.log|] == s.log;
    } else {
      LongerLog(s, s', k);
    }
  }

  lemma NumberStepKeepsEras(s: State, c: nat)
    requires Invariant(s) && EraInv(s) && c in s.calls && s.calls[c].op.InsertAudit? && s.calls[c].phase.Numbering?
    requires TakeNumber(s, c).taken < COUNTER_RANGE
    ensures EraInv(TakeNumber(s, c))
  {
    hide Apply, Good, Replay, Truthful, EraInv;
    assert CallOk(s, c);
    NumberKeepsEras(s, c);
  }

  /** Only call c moves, and it opens nothing, takes no effect and is no pending swap before or after. */
  predicate OnlyLocks(s: State, s': State, c: nat) {
    && s'.log == s.log && s'.openedOn == s.openedOn && s'.eras == s.eras
    && s'.auditSeq == s.auditSeq && s'.taken == s.taken && s'.clears == s.clears
    && c in s'.calls && s'.calls[c].op == (if c in s.calls then s.calls[c].op else s'.calls[c].op)
    && (Numbered(s', c) ==> Numbered(s, c) && s'.calls[c].effect == s.calls[c].effect)
    && (Numbered(s, c) ==> Numbered(s', c) && !s'.calls[c].phase.Returned?)
    && (WriteOpen(s'.calls[c].phase) ==>
          c in s.calls && WriteOpen(s.calls[c].phase) && s'.calls[c].phase.inst == s.calls[c].phase.inst)
    && (SwapPending(s') <==> SwapPending(s))
  }

  /** Steps that touch nothing but the locks and the call that moves. */
  lemma LockKeepsEras(s: State, s': State, c: nat)
    requires EraInv(s) && OneMoves(s, s', c) && OnlyLocks(s, s', c)
    ensures EraInv(s')
  {
    hide Resets, NumbersOk;
    assert AppendOk(s, c);
    QuietEra(s, s', c);
  }

  lemma InvokeKeepsEras(s: State, c: nat, op: Op)
    requires Invariant(s) && EraInv(s) && c !in s.calls
    ensures EraInv(Invoked(s, c, op))
  {
    hide Apply, Good, Replay, Truthful, EraInv;
    assert !ResetsNow(s, c);
    InvokeMovesOne(s, c, op);
    LockKeepsEras(s, Invoked(s, c, op), c);
  }

  lemma EnterKeepsEras(s: State, c: nat)
    requires Invariant(s) && EraInv(s) && c in s.calls && s.calls[c].phase.Start? && s.announced.None?
    ensures EraInv(Entered(s, c))
  {
    hide Invariant, EraInv;
    EnterMovesOne(s, c);
    LockKeepsEras(s, Entered(s, c), c);
  }

  lemma UnlockKeepsEras(s: State, c: nat, d: nat, base: Db)
    requires Invariant(s) && EraInv(s) && c in s.calls && s.calls[c].phase == Opened(d, base)
    ensures EraInv(Unlocked(s, c, Writing(d, base)))
  {
    hide Apply, Good, Replay, Truthful, EraInv;
    assert ResetsNow(s, c) <==> s.announced == Some(c);
    UnlockMovesOne(s, c, Writing(d, base));
    LockKeepsEras(s, Unlocked(s, c, Writing(d, base)), c);
  }

  lemma ScanKeepsEras(s: State, c: nat, view: Db)
    requires Invariant(s) && EraInv(s) && c in s.calls && s.calls[c].phase == Snapped(view)
    ensures EraInv(Unlocked(s, c, Scanning(view)))
  {
    hide Apply, Good, Replay, Truthful, EraInv;
    assert ResetsNow(s, c) <==> s.announced == Some(c);
    UnlockMovesOne(s, c, Scanning(view));
    LockKeepsEras(s, Unlocked(s, c, Scanning(view)), c);
  }

  lemma ReturnKeepsEras(s: State, c: nat, view: Db)
    requires Invariant(s) && EraInv(s) && c in s.calls && s.calls[c].phase == Scanning(view)
    ensures EraInv(Back(s, c, Answer(s.calls[c].op, view)))
  {
    hide Apply, Good, Replay, Truthful, EraInv, Answer;
    assert CallOk(s, c);
    assert ResetsNow(s, c) <==> s.announced == Some(c);
    BackMovesOne(s, c, Answer(s.calls[c].op, view), s.announced);
    LockKeepsEras(s, Back(s, c, Answer(s.calls[c].op, view)), c);
  }

  lemma LockedKeepsEras(s: State, c: nat)
    requires Invariant(s) && EraInv(s) && c in s.calls && s.calls[c].phase.Announced?
    ensures EraInv(InPhase(s, c, Locked))
  {
    hide Apply, Good, Replay, Truthful, EraInv;
    assert ResetsNow(s, c) <==> s.announced == Some(c);
    PhaseMovesOne(s, c, Locked);
    LockKeepsEras(s, InPhase(s, c, Locked), c);
  }

  lemma LeaveKeepsEras(s: State, c: nat)
    requires Invariant(s) && EraInv(s) && c in s.calls && s.calls[c].phase.Cleared?
    ensures EraInv(Back(s, c, Done).(announced := None))
  {
    hide Apply, Good, Replay, Truthful, EraInv;
    assert CallOk(s, c);
    assert ResetsNow(s, c) <==> s.announced == Some(c);
    BackMovesOne(s, c, Done, None);
    LockKeepsEras(s, Back(s, c, Done).(announced := None), c);
  }

  lemma StepKeepsEras(s: State, mv: Move)
    requires Invariant(s) && Sane(s) && Enabled(s, mv) && EraInv(s) && Do(s, mv).taken < COUNTER_RANGE
    ensures EraInv(Do(s, mv))
  {
    hide Invariant, EraInv, Performs, Answer, Closed, Swap, Snapshot, Begun, Zeroed, TakeNumber, Invoked, Entered,
         Unlocked, Back, InPhase;
    match mv
    case Invoke(c, op) => InvokeKeepsEras(s, c, op);
    case Commit(c, root) => CloseKeepsEras(s, c, root);
    case Advance(c) =>
      match s.calls[c].phase {
        case Numbering => NumberStepKeepsEras(s, c);
        case Start => EnterKeepsEras(s, c);
        case Reading => if IsRead(s.calls[c].op) { SnapshotKeepsEras(s, c); } else { BeginKeepsEras(s, c); }
        case Opened(d, base) => UnlockKeepsEras(s, c, d, base);
        case Snapped(view) => ScanKeepsEras(s, c, view);
        case Scanning(view) => ReturnKeepsEras(s, c, view);
        case Announced => LockedKeepsEras(s, c);
        case Locked => SwapKeepsEras(s, c);
        case Swapped => ZeroKeepsEras(s, c);
        case Cleared => LeaveKeepsEras(s, c);
      }
  }

  lemma {:induction false} RunKeepsEras(s: State, moves: seq<Move>)
    requires Invariant(s) && CanRun(s, moves) && EraInv(s) && Run(s, moves).taken < COUNTER_RANGE
    ensures EraInv(Run(s, moves))
    decreases |moves|
  {
    hide Invariant, Do, Enabled, EraInv;
    if moves != [] {
      StepKeepsInvariant(s, moves[0]);
      TakenRises(Do(s, moves[0]), moves[1..]);
      StepKeepsEras(s, moves[0]);
      RunKeepsEras(Do(s, moves[0]), moves[1..]);
    }
  }

  lemma {:induction false} TakenRises(s: State, moves: seq<Move>)
    requires Invariant(s) && CanRun(s, moves)
    ensures s.taken <= Run(s, moves).taken
    decreases |moves|
  {
    hide Invariant, Do, Enabled;
    if moves != [] {
      StepKeepsInvariant(s, moves[0]);
      StepTakes(s, moves[0]);
      TakenRises(Do(s, moves[0]), moves[1..]);
    }
  }

  lemma StepTakes(s: State, mv: Move)
    requires Invariant(s) && Sane(s) && Enabled(s, mv)
    ensures s.taken <= Do(s, mv).taken
  {
    hide Apply, Performs, Answer, Good, Replay, Truthful, Swap, PhaseOk, EffectOk;
    if mv.Advance? && s.calls[mv.who].phase.Locked? {
      SwapTakesNone(s, mv.who);
    } else {
      assert CallOk(s, mv.who);
      OneMovesIn(s, mv, Do(s, mv));
    }
  }

  lemma SwapTakesNone(s: State, c: nat)
    requires Sane(s) && c in s.calls
    ensures Swap(s, c).taken == s.taken
  {
    hide Apply, Answer;
  }

  lemma RunHasEras(moves: seq<Move>)
    requires CanRun(INIT, moves) && Run(INIT, moves).taken < COUNTER_RANGE
    ensures Invariant(Run(INIT, moves)) && EraInv(Run(INIT, moves))
  {
    hide Invariant, Do, Enabled, CanRun, Run;
    InitInvariant();
    assert forall n: nat :: !InUse(INIT, n);
    RunIsSafe(INIT, moves);
    RunKeepsEras(INIT, moves);
  }

  // The main result.

  /** The append's transaction was opened on the instance that is current now. */
  predicate OpenedOnCurrent(s: State, c: nat) {
    Numbered(s, c) && c in s.openedOn && s.openedOn[c] == s.current
  }

  ghost predicate WrittenBy(s: State, n: nat) {
    exists c: nat :: OpenedOnCurrent(s, c) && NumberOf(s, c) == n
  }

  ghost predicate NumbersDiffer(s: State) {
    forall c: nat, d: nat | OpenedOnCurrent(s, c) && OpenedOnCurrent(s, d) ::
      NumberOf(s, c) == NumberOf(s, d) ==> c == d
  }

  ghost function Table(s: State): map<nat, AuditEntry>
    requires s.current < |s.dbs|
  {
    View(s.dbs[s.current].root).audit
  }

  ghost predicate CountsUp(s: State)
    requires s.current < |s.dbs|
  {
    forall n: nat :: n in Table(s) <==> 1 <= n <= s.auditSeq
  }

  /** No append on the current instance took its number before the last clear. */
  ghost predicate NoneStraddles(s: State) {
    forall c: nat | OpenedOnCurrent(s, c) :: Recent(s, c)
  }

  lemma FinishedAppend(s: State, c: nat)
    requires Invariant(s) && EraInv(s) && Finished(s) && Numbered(s, c)
    ensures s.calls[c].effect.Some? && s.calls[c].effect.value < |s.log|
    ensures var i := s.calls[c].effect.value;
            && s.log[i].op == s.calls[c].op
            && (SinceReset(s.log, i) <==> OpenedOnCurrent(s, c))
    ensures Recent(s, c) ==> OpenedOnCurrent(s, c)
  {
    hide Apply, Good, Replay, Truthful, NumbersOk, LocksOk, LogOk, Resets;
    assert CallOk(s, c) && AppendOk(s, c);
  }

  /** When all calls are finished, the table holds the numbers of the appends that opened on its instance. */
  lemma FinishedTable(s: State)
    requires Invariant(s) && EraInv(s) && Finished(s)
    ensures forall n: nat :: n in Table(s) <==> WrittenBy(s, n)
    ensures NumbersDiffer(s) ==>
              forall c: nat | OpenedOnCurrent(s, c) ::
                s.calls[c].op.entry.id in Table(s) && Table(s)[s.calls[c].op.entry.id] == s.calls[c].op.entry
  {
    hide Apply, Good, Replay, Truthful, NumbersOk, EraInv, SinceReset, CallsOk, LocksOk;
    AppendsFillTheTable(s.log);
    forall n: nat ensures n in Table(s) <==> WrittenBy(s, n) { AppendedIsWritten(s, n); }
    if NumbersDiffer(s) {
      FinishedLogIsDistinct(s);
      forall c: nat | OpenedOnCurrent(s, c) ensures Holds(Replay(s.log), s.calls[c].op.entry) {
        FinishedAppend(s, c);
        DistinctAppendsAreKept(s.log, s.calls[c].effect.value);
      }
    }
  }

  /** An append in the log belongs to a call, and is in effect where the call says. */
  lemma EventOfAppend(s: State, i: nat)
    requires Invariant(s) && i < |s.log| && Appends(s.log[i])
    ensures var c := s.log[i].who; Numbered(s, c) && s.calls[c].op == s.log[i].op && s.calls[c].effect == Some(i)
  {
    hide Apply, Good, Replay, Truthful;
    assert EventOk(s, i) && CallOk(s, s.log[i].who);
  }

  lemma AppendedIsWritten(s: State, n: nat)
    requires Invariant(s) && EraInv(s) && Finished(s)
    ensures AppendedBy(s.log, n) <==> WrittenBy(s, n)
  {
    hide Invariant, EraInv, SinceReset, Finished;
    if AppendedBy(s.log, n) {
      var i: nat :| AppendOf(s.log, n, i);
      EventOfAppend(s, i);
      FinishedAppend(s, s.log[i].who);
    }
    if WrittenBy(s, n) {
      var c: nat :| OpenedOnCurrent(s, c) && NumberOf(s, c) == n;
      FinishedAppend(s, c);
      assert AppendOf(s.log, n, s.calls[c].effect.value);
    }
  }

  lemma FinishedLogIsDistinct(s: State)
    requires Invariant(s) && EraInv(s) && Finished(s) && NumbersDiffer(s)
    ensures DistinctAppends(s.log)
  {
    hide Invariant, EraInv, SinceReset, Finished;
    forall i: nat, j: nat | SinceReset(s.log, i) && SinceReset(s.log, j) && i < |s.log| && j < |s.log|
                            && Appends(s.log[i]) && Appends(s.log[j]) && s.log[i].op.entry.id == s.log[j].op.entry.id
      ensures i == j
    {
      EventOfAppend(s, i);
      EventOfAppend(s, j);
      FinishedAppend(s, s.log[i].who);
      FinishedAppend(s, s.log[j].who);
    }
    forall i: nat ensures SinceReset(s.log, i) ==> i < |s.log| { SinceInRange(s.log, i); }
  }

  /**
    Whatever resets a run holds, once its calls are finished: the appends that opened on
    the current instance have distinct numbers and its table holds exactly 1 to the counter,
    if and only if none of them took its number before the last clear. Every entry is then
    in the table as its caller numbered it.
  */
  lemma NumbersAreCompleteIff(moves: seq<Move>)
    requires CanRun(INIT, moves) && Run(INIT, moves).taken < COUNTER_RANGE && Finished(Run(INIT, moves))
    ensures var s := Run(INIT, moves);
            && s.current < |s.dbs|
            && (NumbersDiffer(s) && CountsUp(s) <==> NoneStraddles(s))
            && (NoneStraddles(s) ==>
                  forall c: nat | OpenedOnCurrent(s, c) ::
                    NumberOf(s, c) in Table(s) && Table(s)[NumberOf(s, c)] == s.calls[c].op.entry)
  {
    hide Invariant, Do, Enabled, CanRun, Run, EraInv;
    RunHasEras(moves);
    CompleteIff(Run(INIT, moves));
  }

  lemma CompleteIff(s: State)
    requires Invariant(s) && EraInv(s) && Finished(s)
    ensures s.current < |s.dbs|
    ensures NumbersDiffer(s) && CountsUp(s) <==> NoneStraddles(s)
    ensures NoneStraddles(s) ==>
              forall c: nat | OpenedOnCurrent(s, c) ::
                NumberOf(s, c) in Table(s) && Table(s)[NumberOf(s, c)] == s.calls[c].op.entry
  {
    hide Apply, Good, Replay, Truthful, LocksOk, LogOk, CallsOk, Finished, Table, ClearsOk, AppendsOk;
    FinishedTable(s);
    forall c: nat | Recent(s, c) ensures OpenedOnCurrent(s, c) { FinishedAppend(s, c); }
    if NoneStraddles(s) {
      forall n: nat ensures n in Table(s) <==> 1 <= n <= s.auditSeq {
        assert InUse(s, n) <==> 1 <= n <= s.auditSeq;
        assert WrittenBy(s, n) <==> InUse(s, n);
      }
    }
    if NumbersDiffer(s) && CountsUp(s) {
      forall c: nat | OpenedOnCurrent(s, c) ensures Recent(s, c) {
        assert WrittenBy(s, NumberOf(s, c));
        assert InUse(s, NumberOf(s, c));
        var d: nat :| Recent(s, d) && NumberOf(s, d) == NumberOf(s, c);
        assert OpenedOnCurrent(s, d);
      }
    }
  }

  // Without any reset the condition always holds.

  predicate NoReset(s: State) {
    forall c | c in s.calls :: !s.calls[c].op.Reset?
  }

  lemma {:induction false} NoneInLog(log: seq<Event>)
    requires forall i | 0 <= i < |log| :: !log[i].op.Reset?
    ensures Resets(log) == 0
  {
    if log != [] { NoneInLog(log[..|log| - 1]); }
  }

  lemma NoResetNoEra(s: State)
    requires Invariant(s) && EraInv(s) && NoReset(s)
    ensures s.current == 0 && s.clears == 0 && s.auditSeq == s.taken
    ensures forall c: nat | Numbered(s, c) :: Recent(s, c)
  {
    hide Apply, Good, Replay, Truthful, Resets;
    forall i | 0 <= i < |s.log| ensures !s.log[i].op.Reset? {
      assert EventOk(s, i) && CallOk(s, s.log[i].who);
    }
    NoneInLog(s.log);
    forall c: nat | Numbered(s, c) ensures Recent(s, c) { assert AppendOk(s, c); }
  }

  /**
    Without a Reset, and with fewer than 2^64 appends, concurrent appends get the numbers
    1 to n, each once, overwrite nothing, and once all calls are finished the table holds
    exactly the entries 1 to n, each as its caller numbered it.
  */
  lemma AppendsAreComplete(moves: seq<Move>)
    requires CanRun(INIT, moves)
    requires NoReset(Run(INIT, moves)) && Run(INIT, moves).taken < COUNTER_RANGE
    ensures var s := Run(INIT, moves);
            && NumbersOk(s) && s.auditSeq == s.taken
            && (forall c: nat | Numbered(s, c) :: Recent(s, c))
            && DistinctAppends(s.log)
            && s.current < |s.dbs|
            && (Finished(s) ==>
                  && (forall n: nat :: n in Table(s) <==> 1 <= n <= s.taken)
                  && (forall c: nat | Numbered(s, c) ::
                        NumberOf(s, c) in Table(s) && Table(s)[NumberOf(s, c)] == s.calls[c].op.entry))
  {
    hide Apply, Good, Replay, Truthful, Do, Enabled, CanRun, Run, SinceReset, Table, LocksOk, CallsOk, AppendsOk;
    RunHasEras(moves);
    var s := Run(INIT, moves);
    NoResetNoEra(s);
    forall i: nat, j: nat | SinceReset(s.log, i) && SinceReset(s.log, j) && i < |s.log| && j < |s.log|
                            && Appends(s.log[i]) && Appends(s.log[j]) && s.log[i].op.entry.id == s.log[j].op.entry.id
      ensures i == j
    {
      EventOfAppend(s, i);
      EventOfAppend(s, j);
    }
    forall i: nat ensures SinceReset(s.log, i) ==> i < |s.log| { SinceInRange(s.log, i); }
    if Finished(s) {
      CompleteIff(s);
      forall c: nat | Numbered(s, c) ensures OpenedOnCurrent(s, c) { FinishedAppend(s, c); }
    }
  }

  // Two runs with a reset: one that is harmless, one that loses an entry.

  ghost predicate Idle(s: State) {
    && Reaches(INIT, s) && Invariant(s) && Sane(s) && s.current < |s.dbs|
    && s.readers == {} && s.announced.None? && s.dbs[s.current].holder.None?
  }

  /** The same state, as far as the other calls and the audit numbers are concerned. */
  ghost predicate OnlyMoved(s: State, t: State, c: nat) {
    && c in s.calls && c in t.calls && t.calls[c].op == s.calls[c].op
    && t.calls == s.calls[c := t.calls[c]]
    && t.auditSeq == s.auditSeq && t.clears == s.clears && t.eras == s.eras
  }

  lemma BeginAlone(s: State, c: nat) returns (t: State)
    requires Idle(s) && c in s.calls && s.calls[c].phase.Start? && s.calls[c].op.InsertAudit?
    ensures Reaches(INIT, t) && Invariant(t) && Sane(t) && OnlyMoved(s, t, c)
    ensures t.readers == {} && t.announced.None? && t.current == s.current && t.openedOn == s.openedOn[c := s.current]
    ensures t.current < |t.dbs| && t.calls[c].phase == Writing(s.current, s.dbs[s.current].root)
  {
    hide Good, Invariant, Replay, Truthful, Reaches, Performs, Apply;
    t := Step(s, Advance(c));
    assert t.calls[c].phase.Reading?;
    t := Step(t, Advance(c));
    assert t.calls[c].phase.Opened?;
    t := Step(t, Advance(c));
  }

  lemma AppendAlone(s: State, c: nat) returns (t: State)
    requires Idle(s) && c in s.calls && s.calls[c].phase.Start? && s.calls[c].op.InsertAudit?
    ensures Idle(t) && OnlyMoved(s, t, c) && t.calls[c].phase == Returned(Done)
    ensures t.current == s.current && t.openedOn == s.openedOn[c := s.current]
    ensures Table(t) == var e := s.calls[c].op.entry; Table(s)[e.id := e]
  {
    hide Good, Invariant, Replay, Truthful, Reaches;
    var op, base := s.calls[c].op, s.dbs[s.current].root;
    t := BeginAlone(s, c);
    RootIsGood(s);
    OutcomeExists(op, base);
    var root :| Performs(op, base, root, Apply(op, View(base)).1);
    t := Step(t, Commit(c, root));
  }

  lemma RootIsGood(s: State)
    requires Invariant(s)
    ensures Good(s.dbs[s.current].root)
  {
  }

  lemma LockAlone(s: State, c: nat) returns (t: State)
    requires Idle(s) && c in s.calls && s.calls[c].phase.Start? && s.calls[c].op.Reset?
    ensures Reaches(INIT, t) && Invariant(t) && Sane(t) && OnlyMoved(s, t, c) && t.calls[c].phase.Locked?
    ensures t.readers == {} && t.announced == Some(c) && t.current == s.current < |t.dbs| && t.openedOn == s.openedOn
    ensures t.dbs[t.current].holder.None?
  {
    hide Good, Invariant, Replay, Truthful, Reaches, Performs, Apply;
    t := Step(s, Advance(c));
    assert t.calls[c].phase.Announced?;
    t := Step(t, Advance(c));
  }

  lemma ResetAlone(s: State, c: nat) returns (t: State)
    requires Idle(s) && c in s.calls && s.calls[c].phase.Start? && s.calls[c].op.Reset?
    ensures Idle(t) && t.auditSeq == 0 && c in t.calls && t.calls == s.calls[c := t.calls[c]]
    ensures t.calls[c].op == Reset && t.calls[c].phase.Returned?
    ensures t.clears == s.clears + 1 && t.eras == s.eras && t.openedOn == s.openedOn
    ensures Table(t) == map[]
  {
    hide Good, Invariant, Replay, Truthful, Reaches, Performs, Apply;
    t := LockAlone(s, c);
    t := Step(t, Advance(c));
    assert t.calls[c].phase.Swapped?;
    t := Step(t, Advance(c));
    assert t.calls[c].phase.Cleared?;
    t := Step(t, Advance(c));
  }

  lemma Number(s: State, c: nat, e: AuditEntry) returns (t: State)
    requires Idle(s) && c !in s.calls
    ensures Idle(t) && t.calls.Keys == s.calls.Keys + {c} && forall k | k in s.calls :: t.calls[k] == s.calls[k]
    ensures t.calls[c].phase.Start? && t.calls[c].op == InsertAudit(e.(id := Next(s.auditSeq)))
    ensures t.auditSeq == Next(s.auditSeq) && Table(t) == Table(s) && t.current == s.current
    ensures t.clears == s.clears && t.eras == s.eras[c := s.clears] && t.openedOn == s.openedOn
  {
    hide Good, Invariant, Replay, Truthful, Reaches;
    t := Step(s, Invoke(c, InsertAudit(e)));
    t := Step(t, Advance(c));
  }

  lemma InitIsIdle()
    ensures Idle(INIT)
  {
    InitInvariant();
    InvariantIsSane(INIT);
    assert CanRun(INIT, []) && Run(INIT, []) == INIT;
  }

  lemma InvokeReset(s: State, c: nat) returns (t: State)
    requires Idle(s) && c !in s.calls
    ensures Idle(t) && t.calls.Keys == s.calls.Keys + {c} && forall k | k in s.calls :: t.calls[k] == s.calls[k]
    ensures t.calls[c].phase.Start? && t.calls[c].op == Reset
    ensures t.auditSeq == s.auditSeq && t.clears == s.clears && t.eras == s.eras && t.openedOn == s.openedOn
  {
    hide Good, Invariant, Replay, Truthful, Reaches, Apply;
    t := Step(s, Invoke(c, Reset));
  }

  /** Two appends hold the number 1, one from before a reset and one from after it. */
  lemma NumberTwice(first: AuditEntry, second: AuditEntry) returns (s: State)
    ensures Idle(s) && Table(s) == map[]
    ensures 0 in s.calls && s.calls[0].op == InsertAudit(first.(id := 1)) && s.calls[0].phase.Start?
    ensures 2 in s.calls && s.calls[2].op == InsertAudit(second.(id := 1)) && s.calls[2].phase.Start?
    ensures 0 in s.eras && s.eras[0] != s.clears
  {
    hide Good, Invariant, Replay, Truthful, Reaches, Apply, Sane, View;
    InitIsIdle();
    s := Number(INIT, 0, first);
    s := InvokeReset(s, 1);
    s := ResetAlone(s, 1);
    s := Number(s, 2, second);
  }

  ghost predicate SecondIsLost(t: State, first: AuditEntry, second: AuditEntry) {
    && t.current < |t.dbs| && Table(t) == map[1 := first.(id := 1)]
    && 0 in t.calls && t.calls[0].op == InsertAudit(first.(id := 1)) && t.calls[0].phase == Returned(Done)
    && 2 in t.calls && t.calls[2].op == InsertAudit(second.(id := 1)) && t.calls[2].phase == Returned(Done)
    && OpenedOnCurrent(t, 0) && !Recent(t, 0)
  }

  /**
    With a Reset between taking a number and using it, two appends get the same number
    and the later commit replaces the other's entry: for any two entries there is a run
    that returns from both appends and stores only one. The append numbered before the
    clear has opened on the new instance.
  */
  lemma ResetCanLoseAnEntry(first: AuditEntry, second: AuditEntry)
    ensures exists t: State :: Reaches(INIT, t) && SecondIsLost(t, first, second)
  {
    hide Good, Invariant, Replay, Truthful, Reaches, Apply, Sane, View;
    var s := NumberTwice(first, second);
    s := AppendAlone(s, 2);
    s := AppendAlone(s, 0);
    assert Table(s) == map[1 := first.(id := 1)];
    assert SecondIsLost(s, first, second);
  }

  /** A Reset that has returned before the append takes its number does no harm. */
  lemma ResetCanBeHarmless(entry: AuditEntry)
    ensures exists t: State ::
              && Reaches(INIT, t) && t.current < |t.dbs| && !NoReset(t)
              && t.auditSeq == 1 && Table(t) == map[1 := entry.(id := 1)]
  {
    hide Good, Invariant, Replay, Truthful, Reaches, Apply, Sane, View, RootsOk, LocksOk, CallsOk, LogOk;
    InitIsIdle();
    var s := InvokeReset(INIT, 0);
    s := ResetAlone(s, 0);
    s := Number(s, 1, entry);
    s := AppendAlone(s, 1);
    assert Table(s) == map[1 := entry.(id := 1)] && 0 in s.calls && s.calls[0].op.Reset?;
  }
}
