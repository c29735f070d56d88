/**
  Who writes to which struct. The database holds pointers to structs and reads hand out
  pointers to copies. The handlers run here as programs over an explicit heap, one
  statement at a time and freely interleaved; an assignment goes through the local pointer,
  whoever else holds it. That no stored struct ever changes is a fact about these programs:
  none of them writes to a struct after inserting it, nor to one it has not copied or built.

  Profiles and settings are values here: the programs share those byte slices and write to
  none of them.
*/
module CopyOnRead {
  import opened Requests
  import opened Schemas

  datatype Struct =
    | UserRow(user: User) | GroupRow(group: Group) | AppRow(app: App)
    | MemberRow(member: Membership) | EntryRow(entry: AuditEntry)

  datatype Place =
    | InUsers(id: string) | InGroups(id: string) | InApps(id: string)
    | InMembers(gid: string, uid: string) | InAudit(n: nat)

  type Rows = map<Place, nat>

  function PlaceOf(x: Struct): Place {
    match x
    case UserRow(u) => InUsers(u.id)
    case GroupRow(g) => InGroups(g.id)
    case AppRow(a) => InApps(a.id)
    case MemberRow(m) => InMembers(m.groupId, m.userId)
    case EntryRow(e) => InAudit(e.id)
  }

  // The statements that matter.

  datatype Field = Status(status: string) | UpdatedAt(now: nat) | Ts(now: nat) | Number(n: nat)

  function Assigned(x: Struct, f: Field): Struct {
    match (x, f)
    case (UserRow(u), Status(s)) => UserRow(u.(status := s))
    case (UserRow(u), UpdatedAt(t)) => UserRow(u.(updatedAt := t))
    case (AppRow(a), Status(s)) => AppRow(a.(status := s))
    case (EntryRow(e), Ts(t)) => EntryRow(e.(ts := t))
    case (EntryRow(e), Number(n)) => EntryRow(e.(id := n))
    case _ => x
  }

  /** A struct literal; an update takes some fields from the struct it read. */
  datatype Maker =
    | Literal(row: Struct)
    | UserFrom(v: nat, login: string, email: string, profile: string, now: nat)
    | GroupFrom(v: nat, name: string, description: string, profile: string)
    | AppFrom(v: nat, name: string, labelText: string, settings: string)

  type Vars = map<nat, nat>
  type Heap = map<nat, Struct>

  function Made(k: Maker, vars: Vars, heap: Heap): Struct {
    match k
    case Literal(row) => row
    case UserFrom(v, login, email, profile, now) =>
      (match Read(v, vars, heap)
       case UserRow(u) => UserRow(u.(login := login, email := email, profile := profile, updatedAt := now))
       case x => x)
    case GroupFrom(v, name, description, profile) =>
      (match Read(v, vars, heap)
       case GroupRow(g) =>
         GroupRow(g.(name := if name == "" then g.name else name, description := description, profile := profile))
       case x => x)
    case AppFrom(v, name, labelText, settings) =>
      (match Read(v, vars, heap)
       case AppRow(a) =>
         AppRow(a.(name := FirstNonEmpty(name, a.name), labelText := FirstNonEmpty(labelText, a.labelText),
                   settings := settings))
       case x => x)
  }

  const BLANK := MemberRow(Membership("", "", 0))

  function Read(v: nat, vars: Vars, heap: Heap): Struct {
    if v in vars && vars[v] in heap then heap[vars[v]] else BLANK
  }

  /** What is left of a program to run. */
  datatype Code =
    | End
    | Begin(rest: Code)                                      // open a read transaction
    | Copy(v: nat, place: Place, found: Code, missing: Code) // v := a copy of the row there
    | New(v: nat, maker: Maker, rest: Code)                  // v := a new struct
    | Assign(v: nat, field: Field, rest: Code)               // write a field through v
    | IfStatus(v: nat, status: string, yes: Code, no: Code)  // read through v
    | Either(yes: Code, no: Code)                            // a check on the request alone
    | Put(v: nat, stored: Code, refused: Code)               // insert the struct of v and commit, or fail
    | Erase(place: Place, rest: Code)                        // delete and commit
    | Wipe(rest: Code)                                       // replace the database
    | Keep(v: nat, rest: Code)                               // append v to the slice to return
    | Show(v: nat, rest: Code)                               // read through v for the response
    | Alias(v: nat, place: Place, rest: Code)                // v := the stored pointer; in no handler

  // The handlers.

  datatype Handler =
    | CreateUser(row: User)
    | UpdateUser(id: string, login: string, email: string, profile: string, now: nat)
    | UserLifecycle(id: string, target: string, now: nat)
    | DeleteUser(id: string, now: nat)
    | CreateGroup(group: Group)
    | UpdateGroup(id: string, name: string, description: string, profile: string)
    | AddMember(member: Membership)
    | CreateApp(app: App)
    | UpdateApp(id: string, name: string, labelText: string, settings: string)
    | AppLifecycle(id: string, target: string)
    | DeleteApp(id: string)
    | GetOne(place: Place)
    | DropOne(place: Place)
    | ListRows(places: seq<Place>)
    | ListMembers(gid: string, uids: seq<string>)
    | AppendAudit(entry: AuditEntry, now: nat, n: nat)
    | ResetAll

  /** The loop of a list: copy each row the walk meets and append it. */
  function Copies(v: nat, places: seq<Place>, rest: Code): Code {
    if places == [] then rest
    else
      var more := Copies(v, places[1..], rest);
      Copy(v, places[0], Keep(v, more), more)
  }

  /** The loop that looks up each member in a transaction of its own. */
  function Lookups(v: nat, uids: seq<string>): Code {
    if uids == [] then End
    else Begin(Copy(v, InUsers(uids[0]), Keep(v, Lookups(v, uids[1..])), Lookups(v, uids[1..])))
  }

  function CodeOf(h: Handler): Code {
    match h
    case CreateUser(row) => Either(New(0, Literal(UserRow(row)), Put(0, Show(0, End), End)), End)
    case UpdateUser(id, login, email, profile, now) =>
      Begin(Copy(0, InUsers(id),
                 Either(New(1, UserFrom(0, login, email, profile, now), Put(1, Show(1, End), End)), End), End))
    case UserLifecycle(id, target, now) =>
      Begin(Copy(0, InUsers(id), Assign(0, Status(target), Assign(0, UpdatedAt(now), Put(0, End, End))), End))
    case DeleteUser(id, now) =>
      Begin(Copy(0, InUsers(id),
                 IfStatus(0, DEPROVISIONED,
                          Erase(InUsers(id), End),
                          Assign(0, Status(DEPROVISIONED), Assign(0, UpdatedAt(now), Put(0, End, End)))), End))
    case CreateGroup(group) => Either(New(0, Literal(GroupRow(group)), Put(0, Show(0, End), End)), End)
    case UpdateGroup(id, name, description, profile) =>
      Begin(Copy(0, InGroups(id),
                 Either(New(1, GroupFrom(0, name, description, profile), Put(1, Show(1, End), End)), End), End))
    case AddMember(member) => New(0, Literal(MemberRow(member)), Put(0, End, End))
    case CreateApp(app) => Either(New(0, Literal(AppRow(app)), Put(0, Show(0, End), End)), End)
    case UpdateApp(id, name, labelText, settings) =>
      Begin(Copy(0, InApps(id),
                 Either(New(1, AppFrom(0, name, labelText, settings), Put(1, Show(1, End), End)), End), End))
    case AppLifecycle(id, target) => Begin(Copy(0, InApps(id), Assign(0, Status(target), Put(0, End, End)), End))
    case DeleteApp(id) =>
      Begin(Copy(0, InApps(id), IfStatus(0, INACTIVE, Erase(InApps(id), End), End), End))
    case GetOne(place) => Begin(Copy(0, place, Show(0, End), End))
    case DropOne(place) => Erase(place, End)
    case ListRows(places) => Begin(Copies(0, places, End))
    case ListMembers(gid, uids) =>
      Begin(Copy(0, InGroups(gid), Begin(Copies(1, Members(gid, uids), Lookups(2, uids))), End))
    case AppendAudit(entry, now, n) =>
      var insert := Assign(0, Number(n), Put(0, End, End));
      New(0, Literal(EntryRow(entry)), if entry.ts == 0 then Assign(0, Ts(now), insert) else insert)
    case ResetAll => Wipe(End)
  }

  function Members(gid: string, uids: seq<string>): seq<Place> {
    seq(|uids|, i requires 0 <= i < |uids| => InMembers(gid, uids[i]))
  }

  // What a reader of the programs can check.

  predicate Writes(c: Code) {
    match c
    case End => false
    case Assign(_, _, _) => true
    case Begin(r) => Writes(r)
    case Copy(_, _, f, m) => Writes(f) || Writes(m)
    case New(_, _, r) => Writes(r)
    case IfStatus(_, _, y, n) => Writes(y) || Writes(n)
    case Either(y, n) => Writes(y) || Writes(n)
    case Put(_, s, r) => Writes(s) || Writes(r)
    case Erase(_, r) => Writes(r)
    case Wipe(r) => Writes(r)
    case Keep(_, r) => Writes(r)
    case Show(_, r) => Writes(r)
    case Alias(_, _, r) => Writes(r)
  }

  /** No statement after an insert is an assignment. */
  predicate StopsWriting(c: Code) {
    match c
    case Put(_, s, r) => !Writes(s) && !Writes(r)
    case Begin(r) => StopsWriting(r)
    case Copy(_, _, f, m) => StopsWriting(f) && StopsWriting(m)
    case New(_, _, r) => StopsWriting(r)
    case Assign(_, _, r) => StopsWriting(r)
    case IfStatus(_, _, y, n) => StopsWriting(y) && StopsWriting(n)
    case Either(y, n) => StopsWriting(y) && StopsWriting(n)
    case Erase(_, r) => StopsWriting(r)
    case Wipe(r) => StopsWriting(r)
    case Keep(_, r) => StopsWriting(r)
    case Show(_, r) => StopsWriting(r)
    case Alias(_, _, r) => StopsWriting(r)
    case End => true
  }

  /** Every assignment goes to a variable that holds a copy or a new struct not yet inserted. */
  predicate Tame(c: Code, mine: set<nat>) {
    match c
    case End => true
    case Begin(r) => Tame(r, mine)
    case Copy(v, _, f, m) => Tame(f, mine + {v}) && Tame(m, mine)
    case New(v, _, r) => Tame(r, mine + {v})
    case Assign(v, _, r) => v in mine && Tame(r, mine)
    case IfStatus(_, _, y, n) => Tame(y, mine) && Tame(n, mine)
    case Either(y, n) => Tame(y, mine) && Tame(n, mine)
    case Put(v, s, r) => Tame(s, mine - {v}) && Tame(r, mine)
    case Erase(_, r) => Tame(r, mine)
    case Wipe(r) => Tame(r, mine)
    case Keep(_, r) => Tame(r, mine)
    case Show(_, r) => Tame(r, mine)
    case Alias(v, _, r) => Tame(r, mine - {v})
  }

  lemma {:induction false} CopiesAreTame(v: nat, places: seq<Place>, rest: Code, mine: set<nat>)
    requires Tame(rest, mine) && Tame(rest, mine + {v}) && !Writes(rest)
    ensures Tame(Copies(v, places, rest), mine) && Tame(Copies(v, places, rest), mine + {v})
    ensures !Writes(Copies(v, places, rest))
    decreases |places|
  {
    if places != [] {
      CopiesAreTame(v, places[1..], rest, mine);
      assert mine + {v} + {v} == mine + {v};
    }
  }

  lemma {:induction false} LookupsAreTame(v: nat, uids: seq<string>, mine: set<nat>)
    ensures Tame(Lookups(v, uids), mine) && !Writes(Lookups(v, uids))
    decreases |uids|
  {
    if uids != [] {
      var more, place := Lookups(v, uids[1..]), InUsers(uids[0]);
      LookupsAreTame(v, uids[1..], mine);
      LookupsAreTame(v, uids[1..], mine + {v});
      assert Tame(Keep(v, more), mine + {v}) && !Writes(Keep(v, more));
      assert Tame(Copy(v, place, Keep(v, more), more), mine) && !Writes(Copy(v, place, Keep(v, more), more));
    }
  }

  lemma {:induction false} SilentStopsWriting(c: Code)
    requires !Writes(c)
    ensures StopsWriting(c)
    decreases c
  {
    match c
    case Copy(_, _, f, m) => SilentStopsWriting(f); SilentStopsWriting(m);
    case IfStatus(_, _, y, n) => SilentStopsWriting(y); SilentStopsWriting(n);
    case Either(y, n) => SilentStopsWriting(y); SilentStopsWriting(n);
    case Begin(r) => SilentStopsWriting(r);
    case New(_, _, r) => SilentStopsWriting(r);
    case Erase(_, r) => SilentStopsWriting(r);
    case Wipe(r) => SilentStopsWriting(r);
    case Keep(_, r) => SilentStopsWriting(r);
    case Show(_, r) => SilentStopsWriting(r);
    case Alias(_, _, r) => SilentStopsWriting(r);
    case _ =>
  }

  /** No handler writes to anything after an insert, and none writes to a struct that is not its own. */
  lemma HandlersAreTame(h: Handler)
    ensures StopsWriting(CodeOf(h)) && Tame(CodeOf(h), {})
  {
    match h
    case ListRows(places) => ListIsTame(places);
    case ListMembers(gid, uids) => MemberListIsTame(gid, uids);
    case CreateUser(_) => UserHandlersAreTame(h);
    case UpdateUser(_, _, _, _, _) => UserHandlersAreTame(h);
    case UserLifecycle(_, _, _) => UserHandlersAreTame(h);
    case DeleteUser(_, _) => UserHandlersAreTame(h);
    case _ => OtherHandlersAreTame(h);
  }

  /** A program that is tame from a set of own variables and never writes after an insert. */
  predicate Fine(c: Code, mine: set<nat>) { StopsWriting(c) && Tame(c, mine) }

  lemma PutIsFine(v: nat, mine: set<nat>)
    ensures Fine(Put(v, End, End), mine) && Fine(Put(v, Show(v, End), End), mine)
  {
  }

  lemma TouchIsFine(v: nat, f: Field, c: Code, mine: set<nat>)
    requires v in mine && Fine(c, mine)
    ensures Fine(Assign(v, f, c), mine)
  {
  }

  /** Copy, then the rest or nothing. */
  lemma GetIsFine(v: nat, place: Place, c: Code)
    requires Fine(c, {v})
    ensures Fine(Begin(Copy(v, place, c, End)), {})
  {
    assert {} + {v} == {v};
    assert Fine(Copy(v, place, c, End), {});
  }

  lemma BuildIsFine(v: nat, k: Maker, mine: set<nat>)
    ensures Fine(New(v, k, Put(v, End, End)), mine)
    ensures Fine(Either(New(v, k, Put(v, Show(v, End), End)), End), mine)
  {
    PutIsFine(v, mine + {v});
    assert Fine(New(v, k, Put(v, Show(v, End), End)), mine);
  }

  lemma StampIsFine(f: Field, g: Field)
    ensures Fine(Assign(0, f, Put(0, End, End)), {0}) && Fine(Assign(0, g, Assign(0, f, Put(0, End, End))), {0})
  {
    PutIsFine(0, {0});
    TouchIsFine(0, f, Put(0, End, End), {0});
    TouchIsFine(0, g, Assign(0, f, Put(0, End, End)), {0});
  }

  lemma UserHandlersAreTame(h: Handler)
    requires h.CreateUser? || h.UpdateUser? || h.UserLifecycle? || h.DeleteUser?
    ensures Fine(CodeOf(h), {})
  {
    hide Fine;
    match h
    case CreateUser(row) => BuildIsFine(0, Literal(UserRow(row)), {});
    case UpdateUser(id, login, email, profile, now) =>
      var k := UserFrom(0, login, email, profile, now);
      BuildIsFine(1, k, {0});
      GetIsFine(0, InUsers(id), Either(New(1, k, Put(1, Show(1, End), End)), End));
    case UserLifecycle(id, target, now) =>
      StampIsFine(UpdatedAt(now), Status(target));
      GetIsFine(0, InUsers(id), Assign(0, Status(target), Assign(0, UpdatedAt(now), Put(0, End, End))));
    case DeleteUser(id, now) =>
      StampIsFine(UpdatedAt(now), Status(DEPROVISIONED));
      var flip := Assign(0, Status(DEPROVISIONED), Assign(0, UpdatedAt(now), Put(0, End, End)));
      DropIsFine(InUsers(id), DEPROVISIONED, flip);
      GetIsFine(0, InUsers(id), IfStatus(0, DEPROVISIONED, Erase(InUsers(id), End), flip));
  }

  lemma DropIsFine(place: Place, status: string, c: Code)
    requires Fine(c, {0})
    ensures Fine(IfStatus(0, status, Erase(place, End), c), {0})
  {
  }

  lemma OtherHandlersAreTame(h: Handler)
    requires !h.ListRows? && !h.ListMembers? && !(h.CreateUser? || h.UpdateUser? || h.UserLifecycle? || h.DeleteUser?)
    ensures Fine(CodeOf(h), {})
  {
    hide Fine;
    match h
    case CreateGroup(group) => BuildIsFine(0, Literal(GroupRow(group)), {});
    case UpdateGroup(id, name, description, profile) =>
      var k := GroupFrom(0, name, description, profile);
      BuildIsFine(1, k, {0});
      GetIsFine(0, InGroups(id), Either(New(1, k, Put(1, Show(1, End), End)), End));
    case AddMember(member) => BuildIsFine(0, Literal(MemberRow(member)), {});
    case CreateApp(app) => BuildIsFine(0, Literal(AppRow(app)), {});
    case UpdateApp(id, name, labelText, settings) =>
      var k := AppFrom(0, name, labelText, settings);
      BuildIsFine(1, k, {0});
      GetIsFine(0, InApps(id), Either(New(1, k, Put(1, Show(1, End), End)), End));
    case AppLifecycle(id, target) =>
      StampIsFine(Status(target), Status(target));
      GetIsFine(0, InApps(id), Assign(0, Status(target), Put(0, End, End)));
    case DeleteApp(id) =>
      SmallOnesAreFine(InApps(id));
      DropIsFine(InApps(id), INACTIVE, End);
      GetIsFine(0, InApps(id), IfStatus(0, INACTIVE, Erase(InApps(id), End), End));
    case GetOne(place) =>
      SmallOnesAreFine(place);
      GetIsFine(0, place, Show(0, End));
    case DropOne(place) => SmallOnesAreFine(place);
    case AppendAudit(entry, now, n) =>
      StampIsFine(Number(n), Ts(now));
      FreshIsFine(Literal(EntryRow(entry)), Assign(0, Number(n), Put(0, End, End)));
      FreshIsFine(Literal(EntryRow(entry)), Assign(0, Ts(now), Assign(0, Number(n), Put(0, End, End))));
    case ResetAll => SmallOnesAreFine(InAudit(0));
  }

  lemma SmallOnesAreFine(place: Place)
    ensures Fine(End, {0}) && Fine(Show(0, End), {0}) && Fine(Erase(place, End), {}) && Fine(Wipe(End), {})
  {
  }

  lemma FreshIsFine(k: Maker, c: Code)
    requires Fine(c, {0})
    ensures Fine(New(0, k, c), {})
  {
    assert {} + {0} == {0};
  }

  lemma ListIsTame(places: seq<Place>)
    ensures var c := CodeOf(ListRows(places)); StopsWriting(c) && Tame(c, {})
  {
    CopiesAreTame(0, places, End, {});
    SilentStopsWriting(CodeOf(ListRows(places)));
  }

  lemma MemberListIsTame(gid: string, uids: seq<string>)
    ensures var c := CodeOf(ListMembers(gid, uids)); StopsWriting(c) && Tame(c, {})
  {
    LookupsAreTame(2, uids, {0});
    LookupsAreTame(2, uids, {0, 1});
    assert {0} + {1} == {0, 1};
    CopiesAreTame(1, Members(gid, uids), Lookups(2, uids), {0});
    var copies := Copies(1, Members(gid, uids), Lookups(2, uids));
    SilentStopsWriting(copies);
    assert Fine(Begin(copies), {0});
    GetIsFine(0, InGroups(gid), Begin(copies));
  }

  // The machine.

  /** A running program, its local variables, the transaction it reads, and what it returns. */
  datatype Proc = Proc(code: Code, vars: Vars, view: Rows, kept: seq<nat>, shown: seq<Struct>)

  datatype World = World(heap: Heap, table: Rows, procs: map<nat, Proc>, everStored: set<nat>)

  const START := World(map[], map[], map[], {})

  datatype Step =
    | Spawn(p: nat, code: Code)
    | Go(p: nat, choice: bool, ptr: nat)

  predicate Enabled(w: World, s: Step) {
    match s
    case Spawn(p, _) => p !in w.procs
    case Go(p, choice, ptr) =>
      p in w.procs && ptr !in w.heap
      && var q := w.procs[p];
         match q.code
         case End => false
         case Copy(_, place, _, _) => place in q.view ==> q.view[place] in w.heap
         case Assign(v, _, _) => v in q.vars && q.vars[v] in w.heap
         case IfStatus(v, _, _, _) => v in q.vars && q.vars[v] in w.heap
         case Put(v, _, _) => v in q.vars && q.vars[v] in w.heap
         case Keep(v, _) => v in q.vars
         case Show(v, _) => v in q.vars && q.vars[v] in w.heap
         case Alias(_, place, _) => place in q.view
         case _ => true
  }

  function With(w: World, p: nat, q: Proc): World { w.(procs := w.procs[p := q]) }

  function Bound(w: World, p: nat, v: nat, ptr: nat, row: Struct, rest: Code): World
    requires p in w.procs
  {
    var q := w.procs[p];
    With(w, p, q.(code := rest, vars := q.vars[v := ptr])).(heap := w.heap[ptr := row])
  }

  function Wrote(w: World, p: nat, v: nat, f: Field, rest: Code): World
    requires p in w.procs && v in w.procs[p].vars && w.procs[p].vars[v] in w.heap
  {
    var ptr := w.procs[p].vars[v];
    With(w, p, w.procs[p].(code := rest)).(heap := w.heap[ptr := Assigned(w.heap[ptr], f)])
  }

  function Inserted(w: World, p: nat, v: nat, rest: Code): World
    requires p in w.procs && v in w.procs[p].vars && w.procs[p].vars[v] in w.heap
  {
    var ptr := w.procs[p].vars[v];
    With(w, p, w.procs[p].(code := rest)).(table := w.table[PlaceOf(w.heap[ptr]) := ptr],
                                           everStored := w.everStored + {ptr})
  }

  /** Without the row, and for a user or a group without its memberships. */
  function Erased(table: Rows, place: Place): Rows {
    map k | k in table && k != place
            && !(k.InMembers? && (place == InUsers(k.uid) || place == InGroups(k.gid))) :: table[k]
  }

  function HasStatus(x: Struct, status: string): bool {
    match x
    case UserRow(u) => u.status == status
    case AppRow(a) => a.status == status
    case _ => false
  }

  function Do(w: World, s: Step): World
    requires Enabled(w, s)
  {
    match s
    case Spawn(p, code) => With(w, p, Proc(code, map[], map[], [], []))
    case Go(p, choice, ptr) =>
      var q := w.procs[p];
      match q.code
      case Begin(r) => With(w, p, q.(code := r, view := w.table))
      case Copy(v, place, f, m) =>
        if place in q.view then Bound(w, p, v, ptr, w.heap[q.view[place]], f) else With(w, p, q.(code := m))
      case New(v, k, r) => Bound(w, p, v, ptr, Made(k, q.vars, w.heap), r)
      case Assign(v, f, r) => Wrote(w, p, v, f, r)
      case IfStatus(v, status, y, n) =>
        With(w, p, q.(code := if HasStatus(w.heap[q.vars[v]], status) then y else n))
      case Either(y, n) => With(w, p, q.(code := if choice then y else n))
      case Put(v, s, r) => if choice then Inserted(w, p, v, s) else With(w, p, q.(code := r))
      case Erase(place, r) => With(w, p, q.(code := r)).(table := Erased(w.table, place))
      case Wipe(r) => With(w, p, q.(code := r)).(table := map[])
      case Keep(v, r) => With(w, p, q.(code := r, kept := q.kept + [q.vars[v]]))
      case Show(v, r) => With(w, p, q.(code := r, shown := q.shown + [w.heap[q.vars[v]]]))
      case Alias(v, place, r) => With(w, p, q.(code := r, vars := q.vars[v := q.view[place]]))
  }

  predicate CanRun(w: World, steps: seq<Step>)
    decreases |steps|
  {
    steps == [] || (Enabled(w, steps[0]) && CanRun(Do(w, steps[0]), steps[1..]))
  }

  function Run(w: World, steps: seq<Step>): World
    requires CanRun(w, steps)
    decreases |steps|
  {
    if steps == [] then w else Run(Do(w, steps[0]), steps[1..])
  }

  // The invariant.

  ghost predicate Stored(w: World, rows: Rows) { forall k | k in rows :: rows[k] in w.everStored }

  /** The variables of p that hold a struct never inserted. */
  function Owned(w: World, p: nat): set<nat>
    requires p in w.procs
  {
    set v | v in w.procs[p].vars && w.procs[p].vars[v] !in w.everStored
  }

  predicate Holds(w: World, p: nat, v: nat, ptr: nat) {
    p in w.procs && v in w.procs[p].vars && w.procs[p].vars[v] == ptr
  }

  ghost predicate Unshared(w: World) {
    forall p, v, q, u, ptr {:trigger Holds(w, p, v, ptr), Holds(w, q, u, ptr)} ::
      Holds(w, p, v, ptr) && Holds(w, q, u, ptr) && ptr !in w.everStored ==> p == q && v == u
  }

  ghost predicate ProcOk(w: World, p: nat) {
    p in w.procs ==>
      && Stored(w, w.procs[p].view)
      && (forall v | v in w.procs[p].vars :: w.procs[p].vars[v] in w.heap)
      && Tame(w.procs[p].code, Owned(w, p))
  }

  ghost predicate Separate(w: World) {
    && w.everStored <= w.heap.Keys && Stored(w, w.table) && Unshared(w)
    && forall p {:trigger ProcOk(w, p)} :: ProcOk(w, p)
  }

  /** Nothing that was ever stored is different. */
  predicate KeepsStored(w: World, w': World) {
    && w.everStored <= w'.everStored
    && forall ptr | ptr in w.everStored && ptr in w.heap :: ptr in w'.heap && w'.heap[ptr] == w.heap[ptr]
  }

  lemma {:induction false} TameMore(c: Code, a: set<nat>, b: set<nat>)
    requires a <= b && Tame(c, a)
    ensures Tame(c, b)
    decreases c
  {
    match c
    case End =>
    case Begin(r) => TameMore(r, a, b);
    case Copy(v, _, f, m) => TameMore(f, a + {v}, b + {v}); TameMore(m, a, b);
    case New(v, _, r) => TameMore(r, a + {v}, b + {v});
    case Assign(v, _, r) => TameMore(r, a, b);
    case IfStatus(_, _, y, n) => TameMore(y, a, b); TameMore(n, a, b);
    case Either(y, n) => TameMore(y, a, b); TameMore(n, a, b);
    case Put(v, s, r) => TameMore(s, a - {v}, b - {v}); TameMore(r, a, b);
    case Erase(_, r) => TameMore(r, a, b);
    case Wipe(r) => TameMore(r, a, b);
    case Keep(_, r) => TameMore(r, a, b);
    case Show(_, r) => TameMore(r, a, b);
    case Alias(v, _, r) => TameMore(r, a - {v}, b - {v});
  }

  /** A step that leaves the heap and what is stored alone, and no variable but perhaps one alias. */
  lemma PlainStep(w: World, w': World, p: nat)
    requires Separate(w) && w'.heap == w.heap && w'.everStored == w.everStored && Stored(w, w'.table)
    requires p in w'.procs
    requires forall q | q != p ::
               (q in w.procs <==> q in w'.procs) && (q in w.procs ==> w'.procs[q] == w.procs[q])
    requires forall v | v in w'.procs[p].vars ::
               w'.procs[p].vars[v] in w.everStored
               || (p in w.procs && v in w.procs[p].vars && w'.procs[p].vars[v] == w.procs[p].vars[v])
    requires Stored(w, w'.procs[p].view) && Tame(w'.procs[p].code, Owned(w', p))
    ensures Separate(w') && KeepsStored(w, w')
  {
    hide Tame;
    forall q ensures ProcOk(w', q) {
      assert ProcOk(w, q);
      if q in w.procs && q != p { assert Owned(w', q) == Owned(w, q); }
    }
    forall a: nat, v: nat, b: nat, u: nat, r: nat | Holds(w', a, v, r) && Holds(w', b, u, r) && r !in w'.everStored
      ensures a == b && v == u
    {
      assert Holds(w, a, v, r) && Holds(w, b, u, r);
    }
  }

  lemma BindKeeps(w: World, p: nat, v: nat, ptr: nat, row: Struct, rest: Code)
    requires Separate(w) && p in w.procs && ptr !in w.heap && Tame(rest, Owned(w, p) + {v})
    ensures Separate(Bound(w, p, v, ptr, row, rest)) && KeepsStored(w, Bound(w, p, v, ptr, row, rest))
  {
    hide Tame;
    var w' := Bound(w, p, v, ptr, row, rest);
    forall q ensures ProcOk(w', q) {
      assert ProcOk(w, q);
      if q == p {
        TameMore(rest, Owned(w, p) + {v}, Owned(w', p));
      } else if q in w.procs {
        assert Owned(w', q) == Owned(w, q);
      }
    }
    forall a: nat, x: nat, b: nat, y: nat, r: nat | Holds(w', a, x, r) && Holds(w', b, y, r) && r !in w'.everStored
      ensures a == b && x == y
    {
      assert ProcOk(w, a) && ProcOk(w, b);
      assert (a, x) != (p, v) ==> Holds(w, a, x, r);
      assert (b, y) != (p, v) ==> Holds(w, b, y, r);
    }
  }

  /** The assignment is to a struct of its own, so nothing stored changes. */
  lemma WriteKeeps(w: World, p: nat, v: nat, f: Field, rest: Code)
    requires Separate(w) && p in w.procs && w.procs[p].code == Assign(v, f, rest)
    requires v in w.procs[p].vars && w.procs[p].vars[v] in w.heap
    ensures Separate(Wrote(w, p, v, f, rest)) && KeepsStored(w, Wrote(w, p, v, f, rest))
  {
    var w' := Wrote(w, p, v, f, rest);
    assert ProcOk(w, p);
    assert v in Owned(w, p);
    forall q ensures ProcOk(w', q) {
      assert ProcOk(w, q);
      if q in w.procs { assert Owned(w', q) == Owned(w, q); }
    }
    forall a: nat, x: nat, b: nat, y: nat, r: nat | Holds(w', a, x, r) && Holds(w', b, y, r) && r !in w'.everStored
      ensures a == b && x == y
    {
      assert Holds(w, a, x, r) && Holds(w, b, y, r);
    }
  }

  lemma InsertKeeps(w: World, p: nat, v: nat, rest: Code)
    requires Separate(w) && p in w.procs && v in w.procs[p].vars && w.procs[p].vars[v] in w.heap
    requires Tame(rest, Owned(w, p) - {v})
    ensures Separate(Inserted(w, p, v, rest)) && KeepsStored(w, Inserted(w, p, v, rest))
  {
    hide Tame;
    var w', ptr := Inserted(w, p, v, rest), w.procs[p].vars[v];
    assert Holds(w, p, v, ptr);
    forall q ensures ProcOk(w', q) {
      assert ProcOk(w, q);
      if q in w.procs {
        forall u | u in Owned(w, q) && (q, u) != (p, v) ensures u in Owned(w', q) {
          assert Holds(w, q, u, w.procs[q].vars[u]);
          assert w.procs[q].vars[u] == ptr ==> Holds(w, q, u, ptr);
        }
        if q == p {
          TameMore(rest, Owned(w, p) - {v}, Owned(w', p));
        } else {
          TameMore(w.procs[q].code, Owned(w, q), Owned(w', q));
        }
      }
    }
    forall a: nat, x: nat, b: nat, y: nat, r: nat | Holds(w', a, x, r) && Holds(w', b, y, r) && r !in w'.everStored
      ensures a == b && x == y
    {
      assert Holds(w, a, x, r) && Holds(w, b, y, r);
    }
  }

  predicate StartsTame(s: Step) { s.Spawn? ==> Tame(s.code, {}) }

  lemma StepKeepsSeparate(w: World, s: Step)
    requires Separate(w) && Enabled(w, s) && StartsTame(s)
    ensures Separate(Do(w, s)) && KeepsStored(w, Do(w, s))
  {
    hide Separate, Unshared, Stored, KeepsStored, Made, Bound, Wrote, Inserted;
    match s
    case Spawn(p, code) => SpawnKeeps(w, p, code);
    case Go(p, choice, ptr) =>
      ProcIsOk(w, p);
      match w.procs[p].code {
        case Copy(v, place, f, m) =>
          if place in w.procs[p].view { BindKeeps(w, p, v, ptr, w.heap[w.procs[p].view[place]], f); }
          else { QuietKeeps(w, p, choice, ptr); }
        case New(v, k, r) => BindKeeps(w, p, v, ptr, Made(k, w.procs[p].vars, w.heap), r);
        case Assign(v, f, r) => WriteKeeps(w, p, v, f, r);
        case Put(v, stored, refused) =>
          if choice { InsertKeeps(w, p, v, stored); } else { QuietKeeps(w, p, choice, ptr); }
        case Alias(_, _, _) => AliasKeeps(w, p, choice, ptr);
        case _ => QuietKeeps(w, p, choice, ptr);
      }
  }

  lemma ProcIsOk(w: World, p: nat)
    requires Separate(w)
    ensures ProcOk(w, p)
  {
  }

  lemma SpawnKeeps(w: World, p: nat, code: Code)
    requires Separate(w) && Enabled(w, Spawn(p, code)) && Tame(code, {})
    ensures Separate(Do(w, Spawn(p, code))) && KeepsStored(w, Do(w, Spawn(p, code)))
  {
    hide Unshared, KeepsStored;
    var w' := Do(w, Spawn(p, code));
    assert Owned(w', p) == {};
    PlainStep(w, w', p);
  }

  /** The statements that change no variable and no struct. */
  lemma QuietKeeps(w: World, p: nat, choice: bool, ptr: nat)
    requires Separate(w) && Enabled(w, Go(p, choice, ptr))
    requires var q := w.procs[p];
             match q.code
             case New(_, _, _) => false
             case Assign(_, _, _) => false
             case Alias(_, _, _) => false
             case Copy(_, place, _, _) => place !in q.view
             case Put(_, _, _) => !choice
             case _ => true
    ensures Separate(Do(w, Go(p, choice, ptr))) && KeepsStored(w, Do(w, Go(p, choice, ptr)))
  {
    hide Unshared, KeepsStored, HasStatus;
    var w' := Do(w, Go(p, choice, ptr));
    assert ProcOk(w, p);
    SameOwned(w, w', p);
    PlainStep(w, w', p);
  }

  lemma AliasKeeps(w: World, p: nat, choice: bool, ptr: nat)
    requires Separate(w) && Enabled(w, Go(p, choice, ptr)) && w.procs[p].code.Alias?
    ensures Separate(Do(w, Go(p, choice, ptr))) && KeepsStored(w, Do(w, Go(p, choice, ptr)))
  {
    hide Unshared, KeepsStored;
    var w', code := Do(w, Go(p, choice, ptr)), w.procs[p].code;
    assert ProcOk(w, p);
    TameMore(code.rest, Owned(w, p) - {code.v}, Owned(w', p));
    PlainStep(w, w', p);
  }

  lemma SameOwned(w: World, w': World, p: nat)
    requires p in w.procs && p in w'.procs && w'.procs[p].vars == w.procs[p].vars && w'.everStored == w.everStored
    ensures Owned(w', p) == Owned(w, p)
  {
  }

  // The results.

  predicate AllTame(steps: seq<Step>) { forall i | 0 <= i < |steps| :: StartsTame(steps[i]) }

  ghost predicate HandlersOnly(steps: seq<Step>) {
    forall i | 0 <= i < |steps| && steps[i].Spawn? :: exists h :: steps[i].code == CodeOf(h)
  }

  lemma HandlersOnlyAreTame(steps: seq<Step>)
    requires HandlersOnly(steps)
    ensures AllTame(steps)
  {
    hide Tame, CodeOf;
    forall i | 0 <= i < |steps| ensures StartsTame(steps[i]) {
      if steps[i].Spawn? {
        var h :| steps[i].code == CodeOf(h);
        HandlersAreTame(h);
      }
    }
  }

  lemma {:induction false} TameRunsKeepRows(w: World, steps: seq<Step>)
    requires Separate(w) && CanRun(w, steps) && AllTame(steps)
    ensures Separate(Run(w, steps)) && KeepsStored(w, Run(w, steps))
    decreases |steps|
  {
    hide Separate, Do, Enabled, StartsTame;
    if steps != [] {
      StepKeepsSeparate(w, steps[0]);
      assert forall i | 0 <= i < |steps| - 1 :: steps[1..][i] == steps[i + 1];
      TameRunsKeepRows(Do(w, steps[0]), steps[1..]);
      SeparateInHeap(w);
      SeparateInHeap(Do(w, steps[0]));
    }
  }

  lemma SeparateInHeap(w: World)
    requires Separate(w)
    ensures w.everStored <= w.heap.Keys
  {
  }

  lemma StartIsSeparate()
    ensures Separate(START)
  {
  }

  /**
    However many handlers run and however their statements interleave: a struct that has
    been stored keeps its contents through the rest of the run.
  */
  lemma StoredRowsNeverChange(before: seq<Step>, after: seq<Step>)
    requires HandlersOnly(before) && HandlersOnly(after)
    requires CanRun(START, before) && CanRun(Run(START, before), after)
    ensures var w := Run(START, before);
            w.everStored <= w.heap.Keys && KeepsStored(w, Run(w, after))
  {
    hide Separate, Do, Enabled, AllTame, HandlersOnly, KeepsStored;
    StartIsSeparate();
    HandlersOnlyAreTame(before);
    HandlersOnlyAreTame(after);
    TameRunsKeepRows(START, before);
    TameRunsKeepRows(Run(START, before), after);
    SeparateInHeap(Run(START, before));
  }

  /** The rows a transaction sees, by value. */
  function Seen(w: World, rows: Rows): map<Place, Struct> {
    map k | k in rows && rows[k] in w.heap :: w.heap[rows[k]]
  }

  /** The same rows now and later: all of them are there, with the contents they had. */
  predicate HoldsStill(w: World, w': World, rows: Rows) {
    Seen(w, rows).Keys == rows.Keys && Seen(w', rows) == Seen(w, rows)
  }

  /** Every open read transaction and the committed table go on showing the same rows with the same contents. */
  lemma SnapshotsHoldStill(before: seq<Step>, after: seq<Step>)
    requires HandlersOnly(before) && HandlersOnly(after)
    requires CanRun(START, before) && CanRun(Run(START, before), after)
    ensures var w := Run(START, before);
            && HoldsStill(w, Run(w, after), w.table)
            && forall p | p in w.procs :: HoldsStill(w, Run(w, after), w.procs[p].view)
  {
    hide Do, Enabled, AllTame, HandlersOnly, CanRun, Run, Tame;
    StoredRowsNeverChange(before, after);
    StartIsSeparate();
    HandlersOnlyAreTame(before);
    TameRunsKeepRows(START, before);
    var w := Run(START, before);
    forall p | p in w.procs ensures Stored(w, w.procs[p].view) { assert ProcOk(w, p); }
  }

  /** What a read hands out is a copy: a pointer nothing stored uses, to the contents of the row. */
  lemma ReadsHandOutCopies(before: seq<Step>, p: nat, choice: bool, ptr: nat)
    requires HandlersOnly(before) && CanRun(START, before)
    requires Enabled(Run(START, before), Go(p, choice, ptr)) && Run(START, before).procs[p].code.Copy?
    requires var q := Run(START, before).procs[p]; q.code.place in q.view
    ensures var w := Run(START, before);
            var (q, w') := (w.procs[p], Do(w, Go(p, choice, ptr)));
            var got := w'.procs[p].vars[q.code.v];
            && got !in w'.everStored && w'.heap[got] == w.heap[q.view[q.code.place]]
            && forall k | k in w'.table :: w'.table[k] != got
  {
    hide HandlersOnly, CanRun, Run, Tame;
    StartIsSeparate();
    HandlersOnlyAreTame(before);
    TameRunsKeepRows(START, before);
  }

  // The answer of a list or a lookup belongs to its request.

  /** Copies, reads and returns, and nothing else. */
  predicate OnlyReads(c: Code) {
    match c
    case End => true
    case Begin(r) => OnlyReads(r)
    case Copy(_, _, f, m) => OnlyReads(f) && OnlyReads(m)
    case Either(y, n) => OnlyReads(y) && OnlyReads(n)
    case Keep(_, r) => OnlyReads(r)
    case Show(_, r) => OnlyReads(r)
    case _ => false
  }

  lemma {:induction false} CopiesOnlyRead(v: nat, places: seq<Place>, rest: Code)
    requires OnlyReads(rest)
    ensures OnlyReads(Copies(v, places, rest))
    decreases |places|
  {
    if places != [] {
      CopiesOnlyRead(v, places[1..], rest);
      assert OnlyReads(Keep(v, Copies(v, places[1..], rest)));
    }
  }

  lemma {:induction false} LookupsOnlyRead(v: nat, uids: seq<string>)
    ensures OnlyReads(Lookups(v, uids))
    decreases |uids|
  {
    if uids != [] {
      LookupsOnlyRead(v, uids[1..]);
      var more := Lookups(v, uids[1..]);
      assert OnlyReads(Keep(v, more));
      assert OnlyReads(Copy(v, InUsers(uids[0]), Keep(v, more), more));
    }
  }

  lemma ListsOnlyRead(h: Handler)
    requires h.ListRows? || h.ListMembers?
    ensures OnlyReads(CodeOf(h))
  {
    match h
    case ListRows(places) => CopiesOnlyRead(0, places, End);
    case ListMembers(gid, uids) =>
      LookupsOnlyRead(2, uids);
      var copies := Copies(1, Members(gid, uids), Lookups(2, uids));
      CopiesOnlyRead(1, Members(gid, uids), Lookups(2, uids));
      assert OnlyReads(Begin(copies));
      assert OnlyReads(Copy(0, InGroups(gid), Begin(copies), End));
  }

  /** What program p can reach through its variables and the slice it will return. */
  predicate Reaches(w: World, p: nat, ptr: nat) {
    p in w.procs && ((exists v | v in w.procs[p].vars :: w.procs[p].vars[v] == ptr) || ptr in w.procs[p].kept)
  }

  /** It only reads, and what it can reach is in no table, was in none, and no other program's variable holds it. */
  ghost predicate Private(w: World, p: nat) {
    && p in w.procs && OnlyReads(w.procs[p].code)
    && (forall ptr {:trigger Reaches(w, p, ptr)} :: Reaches(w, p, ptr) ==> ptr in w.heap && ptr !in w.everStored)
    && (forall q, v, ptr {:trigger Holds(w, q, v, ptr)} :: Holds(w, q, v, ptr) && q != p ==> !Reaches(w, p, ptr))
  }

  /** The contents of the pointers kept so far do not change, and they stay kept. */
  predicate KeepsAnswer(w: World, w': World, p: nat) {
    && p in w.procs && p in w'.procs && w.procs[p].kept <= w'.procs[p].kept
    && forall ptr | ptr in w.procs[p].kept && ptr in w.heap :: ptr in w'.heap && w'.heap[ptr] == w.heap[ptr]
  }

  /** A reading statement binds a fresh copy, keeps a variable's pointer, or neither. */
  ghost predicate ReadStep(w: World, w': World, p: nat, ptr: nat) {
    && p in w.procs && p in w'.procs && w'.everStored == w.everStored && OnlyReads(w'.procs[p].code)
    && (forall q :: q != p ==> (q in w'.procs <==> q in w.procs) && (q in w.procs ==> w'.procs[q] == w.procs[q]))
    && var (q, q') := (w.procs[p], w'.procs[p]);
       || (q'.vars == q.vars && w'.heap == w.heap
           && (q'.kept == q.kept || exists v | v in q.vars :: q'.kept == q.kept + [q.vars[v]]))
       || (ptr !in w.heap && ptr in w'.heap && w'.heap == w.heap[ptr := w'.heap[ptr]]
           && q'.kept == q.kept
           && forall v | v in q'.vars :: q'.vars[v] == ptr || (v in q.vars && q'.vars[v] == q.vars[v]))
  }

  lemma ReadersOnlyRead(w: World, choice: bool, ptr: nat, p: nat)
    requires p in w.procs && OnlyReads(w.procs[p].code) && Enabled(w, Go(p, choice, ptr))
    ensures ReadStep(w, Do(w, Go(p, choice, ptr)), p, ptr)
  {
    hide Tame, Made, Wrote, Inserted, HasStatus;
    match w.procs[p].code
    case Begin(_) =>
    case Copy(_, place, _, _) => if place in w.procs[p].view { } else { }
    case Either(_, _) =>
    case Keep(v, _) => assert w.procs[p].vars[v] == w.procs[p].vars[v];
    case Show(_, _) =>
  }

  /** The program's own step binds a new pointer or none. */
  lemma OwnStepKeepsPrivate(w: World, choice: bool, ptr: nat, p: nat)
    requires Separate(w) && Private(w, p) && Enabled(w, Go(p, choice, ptr))
    ensures Private(Do(w, Go(p, choice, ptr)), p) && KeepsAnswer(w, Do(w, Go(p, choice, ptr)), p)
  {
    hide Tame, Do, Enabled;
    var w' := Do(w, Go(p, choice, ptr));
    ReadersOnlyRead(w, choice, ptr, p);
    forall x ensures Reaches(w', p, x) ==> (x == ptr && ptr !in w.heap && x in w'.heap) || Reaches(w, p, x) { }
    forall q: nat, v: nat, x: nat | Holds(w', q, v, x) && q != p ensures !Reaches(w', p, x) {
      assert Holds(w, q, v, x) && ProcOk(w, q);
    }
    forall x | x in w.procs[p].kept ensures Reaches(w, p, x) { }
  }

  /** Another program can touch only what its own variables hold, or a struct that is new or stored. */
  lemma OtherStepKeepsPrivate(w: World, s: Step, p: nat)
    requires Separate(w) && Private(w, p) && Enabled(w, s) && s.p != p
    ensures Private(Do(w, s), p) && KeepsAnswer(w, Do(w, s), p)
  {
    hide Tame, Made, Assigned, PlaceOf, HasStatus;
    var w', q := Do(w, s), s.p;
    assert w'.procs[p] == w.procs[p];
    forall x ensures Reaches(w', p, x) <==> Reaches(w, p, x) { }
    if q in w.procs {
      assert ProcOk(w, q);
      forall v | v in w.procs[q].vars ensures !Reaches(w, p, w.procs[q].vars[v]) {
        assert Holds(w, q, v, w.procs[q].vars[v]);
      }
    }
    forall r: nat, v: nat, x: nat | Holds(w', r, v, x) && r != p ensures !Reaches(w', p, x) {
      if Holds(w, r, v, x) {
        assert !Reaches(w, p, x);
      } else {
        NewlyHeld(w, s, r, v, x);
        assert Reaches(w, p, x) ==> x in w.heap && x !in w.everStored;
      }
    }
  }

  /** A pointer that a variable comes to hold was free before, or stored. */
  lemma NewlyHeld(w: World, s: Step, r: nat, v: nat, x: nat)
    requires Separate(w) && Enabled(w, s) && Holds(Do(w, s), r, v, x) && !Holds(w, r, v, x)
    ensures x !in w.heap || x in w.everStored
  {
    hide Tame, Made, Assigned, PlaceOf, HasStatus;
    if s.p in w.procs { assert ProcOk(w, s.p); }
  }

  lemma {:induction false} RunKeepsPrivate(w: World, steps: seq<Step>, p: nat)
    requires Separate(w) && Private(w, p) && CanRun(w, steps) && AllTame(steps)
    ensures Private(Run(w, steps), p) && KeepsAnswer(w, Run(w, steps), p)
    decreases |steps|
  {
    if steps != [] {
      hide Separate, Private, Do, Enabled, StartsTame, Reaches, KeepsAnswer;
      var s, next := steps[0], Do(w, steps[0]);
      StepKeepsSeparate(w, s);
      PrivateStep(w, s, p);
      assert forall i | 0 <= i < |steps| - 1 :: steps[1..][i] == steps[i + 1];
      RunKeepsPrivate(next, steps[1..], p);
      AnswersJoin(w, next, Run(w, steps), p);
    }
  }

  lemma PrivateStep(w: World, s: Step, p: nat)
    requires Separate(w) && Private(w, p) && Enabled(w, s)
    ensures Private(Do(w, s), p) && KeepsAnswer(w, Do(w, s), p)
  {
    hide Separate, Do, KeepsAnswer;
    if s.p == p { OwnStepKeepsPrivate(w, s.choice, s.ptr, p); } else { OtherStepKeepsPrivate(w, s, p); }
  }

  lemma AnswersJoin(w: World, next: World, w': World, p: nat)
    requires Private(w, p) && KeepsAnswer(w, next, p) && KeepsAnswer(next, w', p)
    ensures KeepsAnswer(w, w', p)
  {
    var kept := w.procs[p].kept;
    assert kept <= next.procs[p].kept <= w'.procs[p].kept;
    forall ptr | ptr in kept && ptr in w.heap ensures ptr in w'.heap && w'.heap[ptr] == w.heap[ptr] {
      assert ptr in next.procs[p].kept;
    }
  }

  /**
    Through a whole run among any other handlers, every pointer in the slice a list returns
    is its own: no table and no other program's variable ever holds it, and the copy behind
    it never changes.
  */
  lemma ListAnswersArePrivate(before: seq<Step>, p: nat, h: Handler, middle: seq<Step>, after: seq<Step>)
    requires HandlersOnly(before) && HandlersOnly(middle) && HandlersOnly(after) && (h.ListRows? || h.ListMembers?)
    requires CanRun(START, before) && Enabled(Run(START, before), Spawn(p, CodeOf(h)))
    requires CanRun(Do(Run(START, before), Spawn(p, CodeOf(h))), middle)
    requires CanRun(Run(Do(Run(START, before), Spawn(p, CodeOf(h))), middle), after)
    ensures var w := Run(Do(Run(START, before), Spawn(p, CodeOf(h))), middle);
            var w' := Run(w, after);
            && KeepsAnswer(w, w', p)
            && forall ptr | ptr in w'.procs[p].kept ::
                 && ptr in w'.heap && ptr !in w'.everStored && (forall k | k in w'.table :: w'.table[k] != ptr)
                 && forall q, v | q in w'.procs && q != p && v in w'.procs[q].vars :: w'.procs[q].vars[v] != ptr
  {
    hide CodeOf, HandlersOnly, Run, CanRun, Enabled, Tame, OnlyReads, KeepsAnswer, AllTame;
    StartIsSeparate();
    HandlersOnlyAreTame(before);
    HandlersOnlyAreTame(middle);
    HandlersOnlyAreTame(after);
    TameRunsKeepRows(START, before);
    var w0 := Run(START, before);
    var w1 := Do(w0, Spawn(p, CodeOf(h)));
    HandlersAreTame(h);
    ListsOnlyRead(h);
    StepKeepsSeparate(w0, Spawn(p, CodeOf(h)));
    SpawnedIsPrivate(w0, p, CodeOf(h));
    TameRunsKeepRows(w1, middle);
    RunKeepsPrivate(w1, middle, p);
    var w := Run(w1, middle);
    TameRunsKeepRows(w, after);
    RunKeepsPrivate(w, after, p);
    PrivateAnswer(w, Run(w, after), p);
  }

  lemma SpawnedIsPrivate(w: World, p: nat, code: Code)
    requires Separate(w) && Enabled(w, Spawn(p, code)) && OnlyReads(code)
    ensures Private(Do(w, Spawn(p, code)), p)
  {
  }

  lemma PrivateAnswer(w: World, w': World, p: nat)
    requires Private(w, p) && Separate(w') && Private(w', p) && KeepsAnswer(w, w', p)
    ensures KeepsAnswer(w, w', p)
    ensures forall ptr | ptr in w'.procs[p].kept ::
              && ptr in w'.heap && ptr !in w'.everStored && (forall k | k in w'.table :: w'.table[k] != ptr)
              && forall q, v | q in w'.procs && q != p && v in w'.procs[q].vars :: w'.procs[q].vars[v] != ptr
  {
    hide OnlyReads, Tame;
    forall ptr | ptr in w.procs[p].kept ensures Reaches(w, p, ptr) { }
    forall ptr | ptr in w'.procs[p].kept
      ensures ptr in w'.heap && ptr !in w'.everStored && (forall k | k in w'.table :: w'.table[k] != ptr)
      ensures forall q, v | q in w'.procs && q != p && v in w'.procs[q].vars :: w'.procs[q].vars[v] != ptr
    {
      assert Reaches(w', p, ptr);
      forall q, v | q in w'.procs && q != p && v in w'.procs[q].vars ensures w'.procs[q].vars[v] != ptr {
        assert Holds(w', q, v, w'.procs[q].vars[v]);
      }
    }
  }

  // What the programs must not do.

  /** A create that writes to its struct after the insert. */
  function LateWriter(row: User, target: string): Code {
    New(0, Literal(UserRow(row)), Put(0, Assign(0, Status(target), End), End))
  }

  /** The committed table holds this user. */
  predicate UserIs(w: World, u: User) {
    InUsers(u.id) in w.table && w.table[InUsers(u.id)] in w.heap && w.heap[w.table[InUsers(u.id)]] == UserRow(u)
  }

  /** It changes the stored row, in the table and in a transaction opened before the write. */
  lemma LateWriteShows(row: User, target: string) returns (early: seq<Step>, late: seq<Step>)
    requires row.status != target
    ensures !StopsWriting(LateWriter(row, target)) && !Tame(LateWriter(row, target), {})
    ensures CanRun(START, early) && CanRun(Run(START, early), late)
    ensures var w, w' := Run(START, early), Run(Run(START, early), late);
            && UserIs(w, row) && UserIs(w', row.(status := target))
            && 1 in w.procs && !HoldsStill(w, w', w.procs[1].view)
  {
    var code, reader := LateWriter(row, target), CodeOf(GetOne(InUsers(row.id)));
    assert !Tame(Put(0, Assign(0, Status(target), End), End), {} + {0});
    var w3 := LateStored(row, target);
    var w4 := Do(w3, Spawn(1, reader));
    var w5 := Do(w4, Go(1, true, 2));
    var w6 := Do(w5, Go(0, true, 2));
    early := [Spawn(0, code), Go(0, true, 1), Go(0, true, 2)] + [Spawn(1, reader), Go(1, true, 2)];
    late := [Go(0, true, 2)];
    RunTwo(w3, w4, w5, Spawn(1, reader), Go(1, true, 2));
    RunJoins(START, [Spawn(0, code), Go(0, true, 1), Go(0, true, 2)], [Spawn(1, reader), Go(1, true, 2)]);
    RunOne(w5, w6, Go(0, true, 2));
    LateSeen(row, target, w5, w6);
  }

  /** The state after the insert, before the write that comes too late. */
  lemma LateStored(row: User, target: string) returns (w: World)
    ensures CanRun(START, [Spawn(0, LateWriter(row, target)), Go(0, true, 1), Go(0, true, 2)])
    ensures w == Run(START, [Spawn(0, LateWriter(row, target)), Go(0, true, 1), Go(0, true, 2)])
    ensures w.heap == map[1 := UserRow(row)] && w.table == map[InUsers(row.id) := 1]
    ensures w.procs == map[0 := Proc(Assign(0, Status(target), End), map[0 := 1], map[], [], [])]
  {
    var code := LateWriter(row, target);
    var w1 := Do(START, Spawn(0, code));
    var w2 := Do(w1, Go(0, true, 1));
    w := Do(w2, Go(0, true, 2));
    RunOne(START, w1, Spawn(0, code));
    RunTwo(w1, w2, w, Go(0, true, 1), Go(0, true, 2));
    RunJoins(START, [Spawn(0, code)], [Go(0, true, 1), Go(0, true, 2)]);
    assert [Spawn(0, code)] + [Go(0, true, 1), Go(0, true, 2)] == [Spawn(0, code), Go(0, true, 1), Go(0, true, 2)];
  }

  lemma LateSeen(row: User, target: string, w: World, w': World)
    requires row.status != target && w.heap == map[1 := UserRow(row)] && w.table == map[InUsers(row.id) := 1]
    requires 1 in w.procs && w.procs[1].view == w.table && w'.table == w.table
    requires w'.heap == map[1 := UserRow(row.(status := target))]
    ensures UserIs(w, row) && UserIs(w', row.(status := target)) && !HoldsStill(w, w', w.procs[1].view)
  {
    assert Seen(w, w.table)[InUsers(row.id)] != Seen(w', w.table)[InUsers(row.id)];
  }

  lemma RunOne(w: World, w': World, s: Step)
    requires Enabled(w, s) && w' == Do(w, s)
    ensures CanRun(w, [s]) && Run(w, [s]) == w'
  {
    assert [s][1..] == [];
  }

  lemma RunTwo(w: World, w1: World, w2: World, a: Step, b: Step)
    requires Enabled(w, a) && w1 == Do(w, a) && Enabled(w1, b) && w2 == Do(w1, b)
    ensures CanRun(w, [a, b]) && Run(w, [a, b]) == w2
  {
    RunOne(w1, w2, b);
    assert [a, b][1..] == [b];
  }

  lemma {:induction false} RunJoins(w: World, first: seq<Step>, second: seq<Step>)
    requires CanRun(w, first) && CanRun(Run(w, first), second)
    ensures CanRun(w, first + second) && Run(w, first + second) == Run(Run(w, first), second)
    decreases |first|
  {
    hide Do, Enabled;
    if first == [] {
      assert first + second == second;
    } else {
      RunJoins(Do(w, first[0]), first[1..], second);
      assert (first + second)[1..] == first[1..] + second;
    }
  }

  /** Had the read handed out the stored pointer itself, a lifecycle request would change open transactions. */
  lemma AliasWouldShow(w: World, p: nat, place: Place, target: string, ptr: nat)
    requires p in w.procs && w.procs[p].code == Alias(0, place, Assign(0, Status(target), End)) && ptr !in w.heap
    requires place in w.procs[p].view && w.procs[p].view[place] in w.heap
    requires var x := w.heap[w.procs[p].view[place]]; x.UserRow? && x.user.status != target
    ensures !Tame(w.procs[p].code, {})
    ensures Enabled(w, Go(p, true, ptr)) && Enabled(Do(w, Go(p, true, ptr)), Go(p, true, ptr))
    ensures var w' := Do(Do(w, Go(p, true, ptr)), Go(p, true, ptr)); !HoldsStill(w, w', w.procs[p].view)
  {
    var w' := Do(Do(w, Go(p, true, ptr)), Go(p, true, ptr));
    assert Seen(w', w.procs[p].view)[place] != Seen(w, w.procs[p].view)[place];
  }
}
