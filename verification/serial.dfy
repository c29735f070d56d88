/**
  The handler programs of CopyOnRead, run without interruption. Pointers then make no
  difference: a program does what its statements say of plain values, and with that it stores
  and shows what Requests.Serve says.
*/
module Serial {
  import opened Schemas
  import opened Requests
  import opened CopyOnRead

  /** A table by its contents. */
  type Shelf = map<Place, Struct>

  /** A program on values: its variables hold structs, not pointers. */
  datatype Solo = Solo(code: Code, vals: map<nat, Struct>, view: Shelf, table: Shelf, shown: seq<Struct>,
                       kept: seq<Struct>)

  function ValueOf(v: nat, vals: map<nat, Struct>): Struct { if v in vals then vals[v] else BLANK }

  function MadeOf(k: Maker, vals: map<nat, Struct>): Struct { Made(k, map v | v in vals :: v, vals) }

  function ErasedFrom(table: Shelf, place: Place): Shelf {
    map k | k in table && k != place
            && !(k.InMembers? && (place == InUsers(k.uid) || place == InGroups(k.gid))) :: table[k]
  }

  /** One statement; every check and every insert has this outcome. */
  function Next(s: Solo, ok: bool): Solo {
    match s.code
    case End => s
    case Begin(r) => s.(code := r, view := s.table)
    case Copy(v, place, f, m) =>
      if place in s.view then s.(code := f, vals := s.vals[v := s.view[place]]) else s.(code := m)
    case New(v, k, r) => s.(code := r, vals := s.vals[v := MadeOf(k, s.vals)])
    case Assign(v, f, r) => s.(code := r, vals := s.vals[v := Assigned(ValueOf(v, s.vals), f)])
    case IfStatus(v, status, y, n) => s.(code := if HasStatus(ValueOf(v, s.vals), status) then y else n)
    case Either(y, n) => s.(code := if ok then y else n)
    case Put(v, t, r) =>
      if ok then s.(code := t, table := s.table[PlaceOf(ValueOf(v, s.vals)) := ValueOf(v, s.vals)])
      else s.(code := r)
    case Erase(place, r) => s.(code := r, table := ErasedFrom(s.table, place))
    case Wipe(r) => s.(code := r, table := map[])
    case Keep(v, r) => s.(code := r, kept := s.kept + [ValueOf(v, s.vals)])
    case Show(v, r) => s.(code := r, shown := s.shown + [ValueOf(v, s.vals)])
    case Alias(v, place, r) => s.(code := r)
  }

  function Size(c: Code): nat {
    match c
    case End => 0
    case Begin(r) => 1 + Size(r)
    case Copy(_, _, f, m) => 1 + Size(f) + Size(m)
    case New(_, _, r) => 1 + Size(r)
    case Assign(_, _, r) => 1 + Size(r)
    case IfStatus(_, _, y, n) => 1 + Size(y) + Size(n)
    case Either(y, n) => 1 + Size(y) + Size(n)
    case Put(_, s, r) => 1 + Size(s) + Size(r)
    case Erase(_, r) => 1 + Size(r)
    case Wipe(r) => 1 + Size(r)
    case Keep(_, r) => 1 + Size(r)
    case Show(_, r) => 1 + Size(r)
    case Alias(_, _, r) => 1 + Size(r)
  }

  function Finish(s: Solo, ok: bool): Solo
    decreases Size(s.code)
  {
    if s.code.End? then s else Finish(Next(s, ok), ok)
  }

  // The program on pointers does the same.

  predicate NeverKeeps(c: Code) {
    match c
    case End => true
    case Begin(r) => NeverKeeps(r)
    case Copy(_, _, f, m) => NeverKeeps(f) && NeverKeeps(m)
    case New(_, _, r) => NeverKeeps(r)
    case Assign(_, _, r) => NeverKeeps(r)
    case IfStatus(_, _, y, n) => NeverKeeps(y) && NeverKeeps(n)
    case Either(y, n) => NeverKeeps(y) && NeverKeeps(n)
    case Put(_, s, r) => NeverKeeps(s) && NeverKeeps(r)
    case Erase(_, r) => NeverKeeps(r)
    case Wipe(r) => NeverKeeps(r)
    case Show(_, r) => NeverKeeps(r)
    case Keep(_, _) => false
    case Alias(_, _, _) => false
  }

  function ContentsOf(heap: Heap, rows: Rows): Shelf { map k | k in rows && rows[k] in heap :: heap[rows[k]] }

  function ValuesOf(heap: Heap, vars: Vars): map<nat, Struct> { map v | v in vars && vars[v] in heap :: heap[vars[v]] }

  function Pointed(heap: Heap, ptr: nat): Struct { if ptr in heap then heap[ptr] else BLANK }

  function PointedAll(heap: Heap, ptrs: seq<nat>): seq<Struct> {
    seq(|ptrs|, i requires 0 <= i < |ptrs| => Pointed(heap, ptrs[i]))
  }

  /** What the program is, seen without pointers. */
  function Seen(w: World, p: nat): Solo
    requires p in w.procs
  {
    var q := w.procs[p];
    Solo(q.code, ValuesOf(w.heap, q.vars), ContentsOf(w.heap, q.view), ContentsOf(w.heap, w.table), q.shown,
         PointedAll(w.heap, q.kept))
  }

  /** It is one of many well-behaved programs, and either only reads or returns no list. */
  ghost predicate Sound(w: World, p: nat) {
    && Separate(w) && p in w.procs && (forall ptr | ptr in w.procs[p].kept :: ptr in w.heap)
    && (OnlyReads(w.procs[p].code) || (NeverKeeps(w.procs[p].code) && w.procs[p].kept == []))
  }

  /** A new struct changes nothing that was there. */
  lemma FreshChangesNothing(heap: Heap, rows: Rows, vars: Vars, ptrs: seq<nat>, ptr: nat, row: Struct)
    requires ptr !in heap
    requires (forall k | k in rows :: rows[k] in heap) && (forall v | v in vars :: vars[v] in heap)
    requires forall x | x in ptrs :: x in heap
    ensures ContentsOf(heap[ptr := row], rows) == ContentsOf(heap, rows)
    ensures ValuesOf(heap[ptr := row], vars) == ValuesOf(heap, vars)
    ensures PointedAll(heap[ptr := row], ptrs) == PointedAll(heap, ptrs)
  {
    forall i | 0 <= i < |ptrs| ensures ptrs[i] in heap && ptrs[i] != ptr { assert ptrs[i] in ptrs; }
  }

  lemma PointersHold(w: World, p: nat)
    requires Sound(w, p)
    ensures var q := w.procs[p];
            && (forall k | k in w.table :: w.table[k] in w.heap) && (forall k | k in q.view :: q.view[k] in w.heap)
            && forall v | v in q.vars :: q.vars[v] in w.heap
  {
    hide Tame, Unshared, OnlyReads, NeverKeeps;
    assert ProcOk(w, p);
  }

  lemma BindingCommutes(w: World, p: nat, v: nat, ptr: nat, row: Struct, rest: Code)
    requires Sound(w, p) && ptr !in w.heap
    ensures Seen(Bound(w, p, v, ptr, row, rest), p)
         == Seen(w, p).(code := rest, vals := Seen(w, p).vals[v := row])
  {
    PointersHold(w, p);
    hide Separate, OnlyReads, NeverKeeps, ContentsOf, ValuesOf, PointedAll;
    var q := w.procs[p];
    FreshChangesNothing(w.heap, q.view, q.vars, q.kept, ptr, row);
    FreshChangesNothing(w.heap, w.table, q.vars, q.kept, ptr, row);
    BoundValue(w.heap[ptr := row], q.vars, v, ptr);
  }

  lemma BoundValue(heap: Heap, vars: Vars, v: nat, ptr: nat)
    requires ptr in heap
    ensures ValuesOf(heap, vars[v := ptr]) == ValuesOf(heap, vars)[v := heap[ptr]]
  {
  }

  lemma WriteIsUnseen(heap: Heap, rows: Rows, ptr: nat, x: Struct)
    requires ptr in heap && forall k | k in rows :: rows[k] != ptr
    ensures ContentsOf(heap[ptr := x], rows) == ContentsOf(heap, rows)
  {
  }

  lemma WrittenValue(heap: Heap, vars: Vars, v: nat, x: Struct)
    requires v in vars && vars[v] in heap && forall u | u in vars && vars[u] == vars[v] :: u == v
    ensures ValuesOf(heap[vars[v] := x], vars) == ValuesOf(heap, vars)[v := x]
    ensures ValueOf(v, ValuesOf(heap, vars)) == heap[vars[v]]
  {
  }

  /** No table, no open transaction and no other variable of the program has the struct it writes to. */
  lemma WritesItsOwn(w: World, p: nat, v: nat)
    requires Sound(w, p) && w.procs[p].code.Assign? && w.procs[p].code.v == v
    ensures var q := w.procs[p];
            && v in q.vars && q.kept == []
            && (forall k | k in w.table :: w.table[k] != q.vars[v])
            && (forall k | k in q.view :: q.view[k] != q.vars[v])
            && forall u | u in q.vars && q.vars[u] == q.vars[v] :: u == v
  {
    assert ProcOk(w, p);
    var q := w.procs[p];
    assert v in Owned(w, p) && Holds(w, p, v, q.vars[v]);
    forall u | u in q.vars && q.vars[u] == q.vars[v] ensures u == v { assert Holds(w, p, u, q.vars[v]); }
  }

  lemma WritingCommutes(w: World, p: nat, v: nat, f: Field, rest: Code)
    requires Sound(w, p) && w.procs[p].code == Assign(v, f, rest)
    requires v in w.procs[p].vars && w.procs[p].vars[v] in w.heap
    ensures Seen(Wrote(w, p, v, f, rest), p)
         == Seen(w, p).(code := rest, vals := Seen(w, p).vals[v := Assigned(ValueOf(v, Seen(w, p).vals), f)])
  {
    WritesItsOwn(w, p, v);
    hide Sound, Assigned, ContentsOf, ValuesOf, ValueOf;
    var q := w.procs[p];
    var ptr := q.vars[v];
    WriteIsUnseen(w.heap, q.view, ptr, Assigned(w.heap[ptr], f));
    WriteIsUnseen(w.heap, w.table, ptr, Assigned(w.heap[ptr], f));
    WrittenValue(w.heap, q.vars, v, Assigned(w.heap[ptr], f));
    assert PointedAll(w.heap, []) == PointedAll(w.heap[ptr := Assigned(w.heap[ptr], f)], []);
  }

  lemma MakingCommutes(k: Maker, vars: Vars, heap: Heap)
    requires forall v | v in vars :: vars[v] in heap
    ensures Made(k, vars, heap) == MadeOf(k, ValuesOf(heap, vars))
  {
  }

  lemma InsertingCommutes(w: World, p: nat, v: nat, rest: Code)
    requires Sound(w, p) && v in w.procs[p].vars && w.procs[p].vars[v] in w.heap
    ensures var row := ValueOf(v, Seen(w, p).vals);
            Seen(Inserted(w, p, v, rest), p)
            == Seen(w, p).(code := rest, table := Seen(w, p).table[PlaceOf(row) := row])
  {
    hide Tame, PlaceOf;
    var ptr := w.procs[p].vars[v];
    var place := PlaceOf(w.heap[ptr]);
    assert ContentsOf(w.heap, w.table[place := ptr]) == ContentsOf(w.heap, w.table)[place := w.heap[ptr]];
  }

  lemma ErasingCommutes(heap: Heap, rows: Rows, place: Place)
    ensures ContentsOf(heap, Erased(rows, place)) == ErasedFrom(ContentsOf(heap, rows), place)
  {
  }

  /** The program stays sound. */
  lemma StaysSound(w: World, p: nat, ok: bool, ptr: nat)
    requires Sound(w, p) && Enabled(w, Go(p, ok, ptr))
    ensures Sound(Do(w, Go(p, ok, ptr)), p)
  {
    StepKeepsSeparate(w, Go(p, ok, ptr));
    PointersHold(w, p);
    hide Separate, Tame, Made, Assigned, PlaceOf, HasStatus, Erased;
    match w.procs[p].code {
      case Keep(v, _) => assert w.procs[p].vars[v] in w.heap;
      case Alias(_, _, _) => assert false;
      case _ =>
    }
  }

  lemma LookingCommutes(w: World, p: nat, ok: bool, ptr: nat)
    requires Sound(w, p) && Enabled(w, Go(p, ok, ptr))
    requires match w.procs[p].code
             case IfStatus(_, _, _, _) => true
             case Keep(_, _) => true
             case Show(_, _) => true
             case _ => false
    ensures var w' := Do(w, Go(p, ok, ptr)); p in w'.procs && Seen(w', p) == Next(Seen(w, p), ok)
  {
    PointersHold(w, p);
    hide Sound, HasStatus, ContentsOf, PointedAll;
    var q := w.procs[p];
    if q.code.Keep? { KeepingCommutes(w.heap, q.kept, q.vars[q.code.v]); }
  }

  lemma MovingCommutes(w: World, p: nat, ok: bool, ptr: nat)
    requires p in w.procs && Enabled(w, Go(p, ok, ptr))
    requires match w.procs[p].code
             case Begin(_) => true
             case Copy(_, place, _, _) => place !in w.procs[p].view
             case Either(_, _) => true
             case Put(_, _, _) => !ok
             case Erase(_, _) => true
             case Wipe(_) => true
             case _ => false
    ensures var w' := Do(w, Go(p, ok, ptr)); p in w'.procs && Seen(w', p) == Next(Seen(w, p), ok)
  {
    hide Erased, ErasedFrom, ValuesOf, PointedAll;
    if w.procs[p].code.Erase? { ErasingCommutes(w.heap, w.table, w.procs[p].code.place); }
  }

  /** Each statement of a program alone is the same statement on values. */
  lemma StepCommutes(w: World, p: nat, ok: bool, ptr: nat)
    requires Sound(w, p) && Enabled(w, Go(p, ok, ptr))
    ensures var w' := Do(w, Go(p, ok, ptr)); p in w'.procs && Seen(w', p) == Next(Seen(w, p), ok)
  {
    PointersHold(w, p);
    var q := w.procs[p];
    match q.code {
      case Copy(v, place, f, _) =>
        if place in q.view {
          hide Sound, Bound;
          BindingCommutes(w, p, v, ptr, w.heap[q.view[place]], f);
          assert SeenView(w, p, place);
        } else {
          MovingCommutes(w, p, ok, ptr);
        }
      case New(v, k, r) =>
        hide Sound, Bound, Made, MadeOf, ValuesOf;
        MakingCommutes(k, q.vars, w.heap);
        BindingCommutes(w, p, v, ptr, Made(k, q.vars, w.heap), r);
      case Assign(v, f, r) =>
        hide Sound, Wrote;
        WritingCommutes(w, p, v, f, r);
      case Put(v, s, _) =>
        hide Sound, Inserted;
        if ok { InsertingCommutes(w, p, v, s); } else { MovingCommutes(w, p, ok, ptr); }
      case IfStatus(_, _, _, _) => LookingCommutes(w, p, ok, ptr);
      case Keep(_, _) => LookingCommutes(w, p, ok, ptr);
      case Show(_, _) => LookingCommutes(w, p, ok, ptr);
      case Alias(_, _, _) => assert false;
      case _ => MovingCommutes(w, p, ok, ptr);
    }
  }

  predicate SeenView(w: World, p: nat, place: Place)
    requires p in w.procs
  {
    var q := w.procs[p];
    place in q.view && q.view[place] in w.heap && place in Seen(w, p).view
    && Seen(w, p).view[place] == w.heap[q.view[place]]
  }

  lemma KeepingCommutes(heap: Heap, kept: seq<nat>, ptr: nat)
    ensures PointedAll(heap, kept + [ptr]) == PointedAll(heap, kept) + [Pointed(heap, ptr)]
  {
  }

  predicate AllBy(steps: seq<Step>, p: nat, ok: bool) {
    forall i | 0 <= i < |steps| :: steps[i].Go? && steps[i].p == p && steps[i].choice == ok
  }

  /** A program that runs to its end without interruption ends as it does on values. */
  lemma {:induction false} RunCommutes(w: World, p: nat, ok: bool, steps: seq<Step>)
    requires Sound(w, p) && AllBy(steps, p, ok) && CanRun(w, steps)
    requires p in Run(w, steps).procs && Run(w, steps).procs[p].code.End?
    ensures Seen(Run(w, steps), p) == Finish(Seen(w, p), ok)
    decreases |steps|
  {
    if steps != [] {
      hide Sound, Do, Enabled;
      assert steps[0].Go?;
      StaysSound(w, p, ok, steps[0].ptr);
      StepCommutes(w, p, ok, steps[0].ptr);
      NotEnded(w, p, ok, steps[0].ptr);
      RunCommutes(Do(w, steps[0]), p, ok, steps[1..]);
    }
  }

  lemma NotEnded(w: World, p: nat, ok: bool, ptr: nat)
    requires Enabled(w, Go(p, ok, ptr))
    ensures p in w.procs && !Seen(w, p).code.End?
  {
  }

  function Start(code: Code, table: Shelf): Solo { Solo(code, map[], map[], table, [], []) }

  lemma HandlersAreSound(w: World, p: nat, h: Handler)
    requires Separate(w) && Enabled(w, Spawn(p, CodeOf(h)))
    ensures var w' := Do(w, Spawn(p, CodeOf(h)));
            Sound(w', p) && Seen(w', p) == Start(CodeOf(h), ContentsOf(w.heap, w.table))
  {
    HandlersAreTame(h);
    StepKeepsSeparate(w, Spawn(p, CodeOf(h)));
    if h.ListRows? || h.ListMembers? { ListsOnlyRead(h); } else { OthersNeverKeep(h); }
    hide CodeOf, Separate, OnlyReads, NeverKeeps;
  }

  lemma EndsNeverKeep(v: nat, k: Maker)
    ensures NeverKeeps(Put(v, End, End)) && NeverKeeps(Show(v, End))
    ensures NeverKeeps(Either(New(v, k, Put(v, Show(v, End), End)), End))
  {
    assert NeverKeeps(End) && NeverKeeps(Show(v, End));
    assert NeverKeeps(Put(v, Show(v, End), End));
    assert NeverKeeps(New(v, k, Put(v, Show(v, End), End)));
  }

  lemma FlipsNeverKeep(f: Field, g: Field)
    ensures NeverKeeps(Assign(0, f, Assign(0, g, Put(0, End, End)))) && NeverKeeps(Assign(0, f, Put(0, End, End)))
  {
    EndsNeverKeep(0, Literal(BLANK));
    assert NeverKeeps(Assign(0, g, Put(0, End, End)));
  }

  lemma OthersNeverKeep(h: Handler)
    requires !h.ListRows? && !h.ListMembers?
    ensures NeverKeeps(CodeOf(h))
  {
    EndsNeverKeep(0, Literal(BLANK));
    match h
    case CreateUser(row) => EndsNeverKeep(0, Literal(UserRow(row)));
    case CreateGroup(group) => EndsNeverKeep(0, Literal(GroupRow(group)));
    case CreateApp(app) => EndsNeverKeep(0, Literal(AppRow(app)));
    case UpdateUser(id, login, email, profile, now) => EndsNeverKeep(1, UserFrom(0, login, email, profile, now));
    case UpdateGroup(id, name, description, profile) => EndsNeverKeep(1, GroupFrom(0, name, description, profile));
    case UpdateApp(id, name, labelText, settings) => EndsNeverKeep(1, AppFrom(0, name, labelText, settings));
    case UserLifecycle(id, target, now) => FlipsNeverKeep(Status(target), UpdatedAt(now));
    case DeleteUser(id, now) =>
      FlipsNeverKeep(Status(DEPROVISIONED), UpdatedAt(now));
      assert NeverKeeps(Erase(InUsers(id), End));
    case DeleteApp(id) => assert NeverKeeps(Erase(InApps(id), End));
    case GetOne(place) => assert NeverKeeps(Copy(0, place, Show(0, End), End));
    case AppLifecycle(id, target) => FlipsNeverKeep(Status(target), Status(target));
    case AppendAudit(entry, now, n) => FlipsNeverKeep(Ts(now), Number(n)); FlipsNeverKeep(Number(n), Number(n));
    case _ =>
  }

  /**
    After any run of handlers, a handler that then runs from start to end without
    interruption leaves the contents of the tables, and shows and returns, what its
    statements do on values.
  */
  lemma AloneIsSolo(before: seq<Step>, p: nat, h: Handler, ok: bool, steps: seq<Step>)
    requires HandlersOnly(before) && CanRun(START, before) && Enabled(Run(START, before), Spawn(p, CodeOf(h)))
    requires var w := Do(Run(START, before), Spawn(p, CodeOf(h)));
             && AllBy(steps, p, ok) && CanRun(w, steps)
             && p in Run(w, steps).procs && Run(w, steps).procs[p].code.End?
    ensures var w := Run(START, before);
            Seen(Run(Do(w, Spawn(p, CodeOf(h))), steps), p)
            == Finish(Start(CodeOf(h), ContentsOf(w.heap, w.table)), ok)
  {
    hide CodeOf, HandlersOnly, Run, CanRun, Enabled, Tame, Finish, Sound, Seen;
    StartIsSeparate();
    HandlersOnlyAreTame(before);
    TameRunsKeepRows(START, before);
    var w := Run(START, before);
    HandlersAreSound(w, p, h);
    RunCommutes(Do(w, Spawn(p, CodeOf(h))), p, ok, steps);
  }

  // What the programs do on values.

  /** It leaves this table and shows these structs. */
  predicate Ends(s: Solo, ok: bool, table: Shelf, shown: seq<Struct>) {
    Finish(s, ok).table == table && Finish(s, ok).shown == shown
  }

  lemma OneStep(s: Solo, ok: bool, table: Shelf, shown: seq<Struct>)
    requires !s.code.End? && Ends(Next(s, ok), ok, table, shown)
    ensures Ends(s, ok, table, shown)
  {
  }

  /** An insert at the end of a program, and the response after it. */
  lemma PutEnds(s: Solo, v: nat, row: Struct)
    requires v in s.vals && s.vals[v] == row
    requires s.code == Put(v, End, End) || s.code == Put(v, Show(v, End), End)
    ensures Ends(s, true, s.table[PlaceOf(row) := row], s.shown + if s.code.stored.Show? then [row] else [])
    ensures Ends(s, false, s.table, s.shown)
  {
    hide PlaceOf;
    var t := Next(s, true);
    assert Finish(s, false) == Finish(Next(s, false), false) == Next(s, false);
    assert Finish(s, true) == Finish(t, true);
    if t.code.Show? { assert Finish(t, true) == Finish(Next(t, true), true) == Next(t, true); }
  }

  lemma CreateEnds(row: Struct, table: Shelf)
    ensures var s := Start(Either(New(0, Literal(row), Put(0, Show(0, End), End)), End), table);
            Ends(s, true, table[PlaceOf(row) := row], [row]) && Ends(s, false, table, [])
  {
    hide PlaceOf, Finish;
    var s := Start(Either(New(0, Literal(row), Put(0, Show(0, End), End)), End), table);
    var s1 := Next(s, true);
    PutEnds(Next(s1, true), 0, row);
    OneStep(s1, true, table[PlaceOf(row) := row], [row]);
    OneStep(s, true, table[PlaceOf(row) := row], [row]);
    EndEnds(Next(s, false), false);
    OneStep(s, false, table, []);
  }

  lemma EndEnds(s: Solo, ok: bool)
    requires s.code.End?
    ensures Ends(s, ok, s.table, s.shown)
  {
  }

  /** A program that reads a row and goes on with it. */
  lemma ReadEnds(place: Place, found: Code, shelf: Shelf, ok: bool, table: Shelf, shown: seq<Struct>)
    requires place in shelf ==> Ends(Solo(found, map[0 := shelf[place]], shelf, shelf, [], []), ok, table, shown)
    requires place !in shelf ==> table == shelf && shown == []
    ensures Ends(Start(Begin(Copy(0, place, found, End)), shelf), ok, table, shown)
  {
    hide Finish;
    var s := Start(Begin(Copy(0, place, found, End)), shelf);
    var s1 := Next(s, ok);
    if place in shelf {
      assert Next(s1, ok) == Solo(found, map[0 := shelf[place]], shelf, shelf, [], []);
    } else {
      EndEnds(Next(s1, ok), ok);
    }
    OneStep(s1, ok, table, shown);
    OneStep(s, ok, table, shown);
  }

  lemma EditEnds(place: Place, k: Maker, shelf: Shelf)
    ensures var s := Start(Begin(Copy(0, place, Either(New(1, k, Put(1, Show(1, End), End)), End), End)), shelf);
            && Ends(s, false, shelf, [])
            && (place !in shelf ==> Ends(s, true, shelf, []))
            && (place in shelf ==>
                  var row := MadeOf(k, map[0 := shelf[place]]);
                  Ends(s, true, shelf[PlaceOf(row) := row], [row]))
  {
    hide PlaceOf, Finish, MadeOf, Made;
    var found := Either(New(1, k, Put(1, Show(1, End), End)), End);
    if place in shelf {
      var row := MadeOf(k, map[0 := shelf[place]]);
      var s := Solo(found, map[0 := shelf[place]], shelf, shelf, [], []);
      var s1 := Next(s, true);
      PutEnds(Next(s1, true), 1, row);
      OneStep(s1, true, shelf[PlaceOf(row) := row], [row]);
      OneStep(s, true, shelf[PlaceOf(row) := row], [row]);
      EndEnds(Next(s, false), false);
      OneStep(s, false, shelf, []);
      ReadEnds(place, found, shelf, true, shelf[PlaceOf(row) := row], [row]);
    } else {
      ReadEnds(place, found, shelf, true, shelf, []);
    }
    ReadEnds(place, found, shelf, false, shelf, []);
  }

  lemma FlipEnds(s: Solo, f: Field, g: Field, row: Struct, ok: bool)
    requires 0 in s.vals && s.code == Assign(0, f, Assign(0, g, Put(0, End, End)))
    requires row == Assigned(Assigned(s.vals[0], f), g)
    ensures Ends(s, ok, if ok then s.table[PlaceOf(row) := row] else s.table, s.shown)
  {
    hide PlaceOf, Finish, Assigned;
    var table := if ok then s.table[PlaceOf(row) := row] else s.table;
    var s1 := Next(s, ok);
    PutEnds(Next(s1, ok), 0, row);
    OneStep(s1, ok, table, s.shown);
    OneStep(s, ok, table, s.shown);
  }

  lemma StatusEnds(s: Solo, f: Field, row: Struct, ok: bool)
    requires 0 in s.vals && s.code == Assign(0, f, Put(0, End, End)) && row == Assigned(s.vals[0], f)
    ensures Ends(s, ok, if ok then s.table[PlaceOf(row) := row] else s.table, s.shown)
  {
    hide PlaceOf, Finish, Assigned;
    PutEnds(Next(s, ok), 0, row);
    OneStep(s, ok, if ok then s.table[PlaceOf(row) := row] else s.table, s.shown);
  }

  lemma EraseEnds(s: Solo, place: Place, ok: bool)
    requires s.code == Erase(place, End)
    ensures Ends(s, ok, ErasedFrom(s.table, place), s.shown)
  {
    hide Finish, ErasedFrom;
    EndEnds(Next(s, ok), ok);
    OneStep(s, ok, ErasedFrom(s.table, place), s.shown);
  }

  lemma ShowEnds(s: Solo, ok: bool)
    requires s.code == Show(0, End) && 0 in s.vals
    ensures Ends(s, ok, s.table, s.shown + [s.vals[0]])
  {
    hide Finish;
    EndEnds(Next(s, ok), ok);
    OneStep(s, ok, s.table, s.shown + [s.vals[0]]);
  }

  lemma AddMemberEnds(r: Membership, shelf: Shelf, ok: bool)
    ensures Ends(Start(CodeOf(AddMember(r)), shelf), ok,
                 if ok then shelf[InMembers(r.groupId, r.userId) := MemberRow(r)] else shelf, [])
  {
    hide Ends;
    var s := Start(CodeOf(AddMember(r)), shelf);
    PutEnds(Next(s, ok), 0, MemberRow(r));
    assert [] + [] == Next(s, ok).shown;
    OneStep(s, ok, if ok then shelf[InMembers(r.groupId, r.userId) := MemberRow(r)] else shelf, []);
  }

  /** The audit append numbers its own entry, stamps it unless it has a time, and inserts it. */
  lemma AppendEnds(entry: AuditEntry, now: nat, n: nat, shelf: Shelf)
    ensures var e := entry.(id := n, ts := if entry.ts == 0 then now else entry.ts);
            Ends(Start(CodeOf(AppendAudit(entry, now, n)), shelf), true, shelf[InAudit(n) := EntryRow(e)], [])
  {
    hide Ends;
    var e := entry.(id := n, ts := if entry.ts == 0 then now else entry.ts);
    var s := Start(CodeOf(AppendAudit(entry, now, n)), shelf);
    var s1 := Next(s, true);
    assert s1.vals == map[0 := EntryRow(entry)] && s1.table == shelf && s1.shown == [];
    if entry.ts == 0 {
      FlipEnds(s1, Ts(now), Number(n), EntryRow(e), true);
    } else {
      StatusEnds(s1, Number(n), EntryRow(e), true);
    }
    OneStep(s, true, shelf[InAudit(n) := EntryRow(e)], []);
  }

  lemma ResetEnds(shelf: Shelf)
    ensures Ends(Start(CodeOf(CopyOnRead.ResetAll), shelf), true, map[], [])
  {
    hide Ends;
    var s := Start(CodeOf(CopyOnRead.ResetAll), shelf);
    EndEnds(Next(s, true), true);
    OneStep(s, true, map[], []);
  }

  // Lists.

  /** The rows at these places, where there are any. */
  function FoundAt(table: Shelf, places: seq<Place>): seq<Struct> {
    if places == [] then []
    else (if places[0] in table then [table[places[0]]] else []) + FoundAt(table, places[1..])
  }

  lemma Onwards(s: Solo, ok: bool)
    requires !s.code.End?
    ensures Finish(s, ok) == Finish(Next(s, ok), ok)
  {
  }

  /** One turn of the loop. */
  function Turned(s: Solo, v: nat, place: Place): Solo {
    if place in s.view then s.(vals := s.vals[v := s.view[place]], kept := s.kept + [s.view[place]]) else s
  }

  lemma OneTurn(s: Solo, v: nat, place: Place, more: Code, ok: bool)
    ensures Finish(s.(code := Copy(v, place, Keep(v, more), more)), ok)
         == Finish(Turned(s, v, place).(code := more), ok)
  {
    hide Finish;
    var s0 := s.(code := Copy(v, place, Keep(v, more), more));
    Onwards(s0, ok);
    if place in s.view { Onwards(Next(s0, ok), ok); }
  }

  lemma TurnFinds(s: Solo, v: nat, places: seq<Place>)
    requires places != []
    ensures Turned(s, v, places[0]).kept + FoundAt(s.view, places[1..]) == s.kept + FoundAt(s.view, places)
  {
    var rest := FoundAt(s.view, places[1..]);
    if places[0] in s.view {
      Joins(s.kept, [s.view[places[0]]], rest);
      assert FoundAt(s.view, places) == [s.view[places[0]]] + rest;
    } else {
      assert FoundAt(s.view, places) == rest;
    }
  }

  lemma Joins(a: seq<Struct>, b: seq<Struct>, c: seq<Struct>)
    ensures (a + b) + c == a + (b + c)
  {
  }

  lemma {:induction false} CopiesEnd(s: Solo, v: nat, places: seq<Place>, rest: Code, ok: bool)
    returns (vals: map<nat, Struct>)
    ensures Finish(s.(code := Copies(v, places, rest)), ok)
         == Finish(s.(code := rest, vals := vals, kept := s.kept + FoundAt(s.view, places)), ok)
    decreases |places|
  {
    hide Finish, Next;
    if places == [] {
      vals := s.vals;
      assert s.kept + [] == s.kept;
    } else {
      hide FoundAt;
      OneTurn(s, v, places[0], Copies(v, places[1..], rest), ok);
      var t := Turned(s, v, places[0]);
      vals := CopiesEnd(t, v, places[1..], rest, ok);
      TurnFinds(s, v, places);
    }
  }

  function UserPlaces(uids: seq<string>): seq<Place> {
    seq(|uids|, i requires 0 <= i < |uids| => InUsers(uids[i]))
  }

  lemma {:induction false} LookupsEnd(s: Solo, v: nat, uids: seq<string>, ok: bool)
    ensures var e := Finish(s.(code := Lookups(v, uids)), ok);
            e.table == s.table && e.shown == s.shown && e.kept == s.kept + FoundAt(s.table, UserPlaces(uids))
    decreases |uids|
  {
    if uids == [] {
      assert s.kept + [] == s.kept;
    } else {
      hide Finish;
      var more := Lookups(v, uids[1..]);
      var s0 := s.(code := Lookups(v, uids));
      Onwards(s0, ok);
      OneTurn(s.(view := s.table), v, InUsers(uids[0]), more, ok);
      var t := Turned(s.(view := s.table), v, InUsers(uids[0]));
      LookupsEnd(t, v, uids[1..], ok);
      assert UserPlaces(uids)[1..] == UserPlaces(uids[1..]);
      TurnFinds(s.(view := s.table), v, UserPlaces(uids));
    }
  }

  /** A list leaves everything as it is and returns the rows at the places it walks. */
  lemma ListRowsEnds(places: seq<Place>, table: Shelf, ok: bool)
    ensures var e := Finish(Start(CodeOf(ListRows(places)), table), ok);
            e.table == table && e.shown == [] && e.kept == FoundAt(table, places)
  {
    var s := Start(CodeOf(ListRows(places)), table);
    Onwards(s, ok);
    var vals := CopiesEnd(Next(s, ok), 0, places, End, ok);
    assert [] + FoundAt(table, places) == FoundAt(table, places);
  }

  /** The member list returns the memberships, and then those of the users who are there. */
  lemma ListMembersEnds(gid: string, uids: seq<string>, table: Shelf, ok: bool)
    requires InGroups(gid) in table
    ensures var e := Finish(Start(CodeOf(ListMembers(gid, uids)), table), ok);
            && e.table == table && e.shown == []
            && e.kept == FoundAt(table, Members(gid, uids)) + FoundAt(table, UserPlaces(uids))
  {
    hide Finish;
    var s := Start(CodeOf(ListMembers(gid, uids)), table);
    var s1 := Next(s, ok);
    var s2 := Next(s1, ok);
    var s3 := Next(s2, ok);
    Onwards(s, ok);
    Onwards(s1, ok);
    Onwards(s2, ok);
    var vals := CopiesEnd(s3, 1, Members(gid, uids), Lookups(2, uids), ok);
    assert [] + FoundAt(table, Members(gid, uids)) == FoundAt(table, Members(gid, uids));
    LookupsEnd(s3.(vals := vals, kept := FoundAt(table, Members(gid, uids))), 2, uids, ok);
  }
}
