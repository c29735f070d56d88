/** The query parameters of the list endpoints: the filter expression and the limit. */
module Filters {
  import opened Wrappers
  import opened Schemas

  datatype Filter = Filter(attr: string, op: string, value: string)

  // The grammar (a subset of the filter form in section 3.4.2.2 of RFC 7644).

  function Find(s: string, c: char): (i: nat)
    ensures i <= |s| && c !in s[..i]
    ensures i < |s| ==> s[i] == c
    ensures i == |s| ==> c !in s
  {
    if s == "" || s[0] == c then 0
    else
      var i := Find(s[1..], c) + 1;
      assert s[..i] == [s[0]] + s[1..][..i - 1] && s == [s[0]] + s[1..];
      i
  }

  /** At most n parts; the last one keeps any further separators. */
  function SplitN(s: string, sep: char, n: nat): seq<string>
    requires n > 0
  {
    var i := Find(s, sep);
    if n == 1 || i == |s| then [s] else [s[..i]] + SplitN(s[i + 1..], sep, n - 1)
  }

  function SplitFilter(s: string): Option<Filter> {
    var parts := SplitN(s, ' ', 3);
    if |parts| != 3 then None
    else
      var v := parts[2];
      if |v| < 2 || v[0] != '"' || v[|v| - 1] != '"' then None
      else Some(Filter(parts[0], parts[1], v[1..|v| - 1]))
  }

  predicate SpaceFree(f: Filter) { ' ' !in f.attr && ' ' !in f.op }

  function Print(f: Filter): string {
    f.attr + " " + f.op + " " + "\"" + f.value + "\""
  }

  lemma FindSkips(a: string, b: string, c: char)
    requires c !in a
    ensures Find(a + [c] + b, c) == |a|
  {
    var s := a + [c] + b;
    var i := Find(s, c);
    assert s[|a|] == c && forall k | 0 <= k < |a| :: s[k] == a[k];
    assert forall k | 0 <= k < i :: s[..i][k] == s[k];
  }

  /** Whatever the value holds, quotes and spaces included, what is printed is read back. */
  lemma ParseOfPrint(f: Filter)
    requires SpaceFree(f)
    ensures SplitFilter(Print(f)) == Some(f)
  {
    hide SplitN, Print;
    var quoted := "\"" + f.value + "\"";
    PrintParts(f);
    SplitsAfter(f.attr, f.op + " " + quoted, 3);
    SplitsAfter(f.op, quoted, 2);
    SplitsInOne(quoted);
    QuotesComeOff(f.value);
  }

  lemma PrintParts(f: Filter)
    ensures Print(f) == f.attr + " " + (f.op + " " + ("\"" + f.value + "\""))
  {
  }

  lemma QuotesComeOff(value: string)
    ensures var v := "\"" + value + "\"";
            |v| >= 2 && v[0] == '"' && v[|v| - 1] == '"' && v[1..|v| - 1] == value
  {
  }

  lemma SplitsAfter(a: string, rest: string, n: nat)
    requires ' ' !in a && n > 1
    ensures SplitN(a + " " + rest, ' ', n) == [a] + SplitN(rest, ' ', n - 1)
  {
    var s := a + [' '] + rest;
    FindSkips(a, rest, ' ');
    assert s[..|a|] == a && s[|a| + 1..] == rest;
  }

  lemma SplitsInTwo(s: string, n: nat)
    requires n > 1
    ensures |SplitN(s, ' ', n)| > 1 <==> Find(s, ' ') < |s|
    ensures var i := Find(s, ' '); i < |s| ==> SplitN(s, ' ', n) == [s[..i]] + SplitN(s[i + 1..], ' ', n - 1)
  {
  }

  lemma SplitsInThree(s: string)
    requires |SplitN(s, ' ', 3)| == 3
    ensures var i := Find(s, ' ');
            && i < |s|
            && var rest := s[i + 1..]; var j := Find(rest, ' ');
            j < |rest| && SplitN(s, ' ', 3) == [s[..i], rest[..j], rest[j + 1..]]
  {
    SplitsInTwo(s, 3);
    var rest := s[Find(s, ' ') + 1..];
    SplitsInTwo(rest, 2);
    var tail := SplitN(rest, ' ', 2);
    hide SplitN, Find;
    assert |tail| == 2;
    SplitsInOne(rest[Find(rest, ' ') + 1..]);
  }

  lemma SplitsInOne(s: string)
    ensures SplitN(s, ' ', 1) == [s]
  {
  }

  /** Every expression that is accepted is the print of what was read. */
  lemma PrintOfParse(s: string)
    requires SplitFilter(s).Some?
    ensures SpaceFree(SplitFilter(s).value) && Print(SplitFilter(s).value) == s
  {
    hide SplitN, Print, Find;
    SplitsInThree(s);
    var i := Find(s, ' ');
    var j := Find(s[i + 1..], ' ');
    Reassembled(s, i, j, SplitFilter(s).value);
  }

  lemma Reassembled(s: string, i: nat, j: nat, f: Filter)
    requires i < |s| && s[i] == ' ' && j < |s| - i - 1 && s[i + 1 + j] == ' '
    requires var v := s[i + 1..][j + 1..];
             |v| >= 2 && v[0] == '"' && v[|v| - 1] == '"' && f == Filter(s[..i], s[i + 1..][..j], v[1..|v| - 1])
    ensures Print(f) == s
  {
    var rest := s[i + 1..];
    var v := rest[j + 1..];
    assert s == s[..i] + " " + rest;
    assert rest == rest[..j] + " " + v;
    assert v == "\"" + v[1..|v| - 1] + "\"";
  }

  // Filters on users and apps.

  predicate Matches(op: string, held: string, value: string) {
    if op == "eq" then held == value else value <= held
  }

  predicate KnownOp(op: string) { op == "eq" || op == "sw" }

  function UserAttr(attr: string, u: User): Option<string> {
    match attr
    case "id" => Some(u.id)
    case "login" => Some(u.login)
    case "profile.login" => Some(u.login)
    case "email" => Some(u.email)
    case "profile.email" => Some(u.email)
    case "status" => Some(u.status)
    case _ => None
  }

  predicate KnownUserAttr(attr: string) {
    attr in {"id", "login", "profile.login", "email", "profile.email", "status"}
  }

  function ParseUserFilter(s: string): Option<Filter> {
    match SplitFilter(s)
    case None => None
    case Some(f) => if KnownUserAttr(f.attr) && KnownOp(f.op) then Some(f) else None
  }

  predicate UserMatches(f: Filter, u: User) {
    match UserAttr(f.attr, u)
    case None => false
    case Some(held) => Matches(f.op, held, f.value)
  }

  function AppAttr(attr: string, a: App): Option<string> {
    match attr
    case "id" => Some(a.id)
    case "label" => Some(a.labelText)
    case "name" => Some(a.name)
    case "status" => Some(a.status)
    case "signOnMode" => Some(a.signOnMode)
    case _ => None
  }

  predicate KnownAppAttr(attr: string) {
    attr in {"id", "label", "name", "status", "signOnMode"}
  }

  function ParseAppFilter(s: string): Option<Filter> {
    match SplitFilter(s)
    case None => None
    case Some(f) => if KnownAppAttr(f.attr) && KnownOp(f.op) then Some(f) else None
  }

  predicate AppMatches(f: Filter, a: App) {
    match AppAttr(f.attr, a)
    case None => false
    case Some(held) => Matches(f.op, held, f.value)
  }

  // What an expression selects.

  /** The expression consists of these three parts. */
  predicate Reads(s: string, attr: string, op: string, value: string) {
    ' ' !in attr && ' ' !in op && s == attr + " " + op + " \"" + value + "\""
  }

  /** Reading an expression finds its three parts, and it is refused exactly when it has none. */
  lemma SplitFilterIff(s: string)
    ensures forall attr, op, value :: Reads(s, attr, op, value) <==> SplitFilter(s) == Some(Filter(attr, op, value))
  {
    hide SplitFilter;
    if SplitFilter(s).Some? { PrintOfParse(s); }
    forall attr, op, value ensures Reads(s, attr, op, value) <==> SplitFilter(s) == Some(Filter(attr, op, value)) {
      var f := Filter(attr, op, value);
      assert Print(f) == attr + " " + op + " \"" + value + "\"";
      if Reads(s, attr, op, value) { ParseOfPrint(f); }
    }
  }

  ghost predicate GoodUserFilter(s: string) {
    s == "" || exists attr, op, value ::
                 && Reads(s, attr, op, value) && op in {"eq", "sw"}
                 && attr in {"id", "login", "profile.login", "email", "profile.email", "status"}
  }

  ghost predicate GoodAppFilter(s: string) {
    s == "" || exists attr, op, value ::
                 && Reads(s, attr, op, value) && op in {"eq", "sw"}
                 && attr in {"id", "label", "name", "status", "signOnMode"}
  }

  ghost predicate Holds(op: string, held: string, value: string) {
    (op == "eq" && held == value) || (op == "sw" && exists rest :: held == value + rest)
  }

  ghost predicate UserHolds(attr: string, op: string, value: string, u: User) {
    || (attr == "id" && Holds(op, u.id, value))
    || (attr in {"login", "profile.login"} && Holds(op, u.login, value))
    || (attr in {"email", "profile.email"} && Holds(op, u.email, value))
    || (attr == "status" && Holds(op, u.status, value))
  }

  ghost predicate AppHolds(attr: string, op: string, value: string, a: App) {
    || (attr == "id" && Holds(op, a.id, value))
    || (attr == "label" && Holds(op, a.labelText, value))
    || (attr == "name" && Holds(op, a.name, value))
    || (attr == "status" && Holds(op, a.status, value))
    || (attr == "signOnMode" && Holds(op, a.signOnMode, value))
  }

  /** The user meets the expression; with an empty one every user does. */
  ghost predicate UserMeets(s: string, u: User) {
    s == "" || exists attr, op, value :: Reads(s, attr, op, value) && UserHolds(attr, op, value, u)
  }

  ghost predicate AppMeets(s: string, a: App) {
    s == "" || exists attr, op, value :: Reads(s, attr, op, value) && AppHolds(attr, op, value, a)
  }

  lemma StartsIff(start: string, s: string)
    ensures start <= s <==> exists rest :: s == start + rest
  {
    if start <= s { assert s == start + s[|start|..]; }
  }

  lemma MatchesIff(op: string, held: string, value: string)
    requires op in {"eq", "sw"}
    ensures Matches(op, held, value) <==> Holds(op, held, value)
  {
    StartsIff(value, held);
  }

  /** A user filter is refused unless it names a known attribute and operator, and selects the users that meet it. */
  lemma UserFilterIff(s: string)
    ensures GoodUserFilter(s) <==> s == "" || ParseUserFilter(s).Some?
    ensures s != "" && ParseUserFilter(s).Some? ==>
              forall u :: UserMatches(ParseUserFilter(s).value, u) <==> UserMeets(s, u)
  {
    hide SplitFilter, Matches, Holds;
    SplitFilterIff(s);
    if ParseUserFilter(s).Some? {
      var f := ParseUserFilter(s).value;
      assert Reads(s, f.attr, f.op, f.value);
      forall u ensures UserMatches(f, u) <==> UserHolds(f.attr, f.op, f.value, u) {
        MatchesIff(f.op, UserAttr(f.attr, u).value, f.value);
      }
      forall u ensures s != "" ==> (UserMeets(s, u) <==> UserHolds(f.attr, f.op, f.value, u)) {
        forall attr, op, value | Reads(s, attr, op, value) ensures Filter(attr, op, value) == f { }
      }
    }
  }

  lemma AppFilterIff(s: string)
    ensures GoodAppFilter(s) <==> s == "" || ParseAppFilter(s).Some?
    ensures s != "" && ParseAppFilter(s).Some? ==>
              forall a :: AppMatches(ParseAppFilter(s).value, a) <==> AppMeets(s, a)
  {
    hide SplitFilter, Matches, Holds;
    SplitFilterIff(s);
    if ParseAppFilter(s).Some? {
      var f := ParseAppFilter(s).value;
      assert Reads(s, f.attr, f.op, f.value);
      forall a ensures AppMatches(f, a) <==> AppHolds(f.attr, f.op, f.value, a) {
        MatchesIff(f.op, AppAttr(f.attr, a).value, f.value);
      }
      forall a ensures s != "" ==> (AppMeets(s, a) <==> AppHolds(f.attr, f.op, f.value, a)) {
        forall attr, op, value | Reads(s, attr, op, value) ensures Filter(attr, op, value) == f { }
      }
    }
  }

  // The limit.

  const TWO63: int := 0x8000_0000_0000_0000
  const TWO64: int := 0x1_0000_0000_0000_0000

  /** The value a 64-bit signed integer holds after an overflowing operation. */
  function Wrap(n: int): (w: int)
    ensures -TWO63 <= w < TWO63
    ensures -TWO63 <= n < TWO63 ==> w == n
  {
    (n + TWO63) % TWO64 - TWO63
  }

  predicate Digit(c: char) { '0' <= c <= '9' }

  predicate AllDigits(s: string) { forall i | 0 <= i < |s| :: Digit(s[i]) }

  function Decimal(s: string): nat
    requires AllDigits(s)
  {
    if s == "" then 0 else 10 * Decimal(s[..|s| - 1]) + (s[|s| - 1] - '0') as nat
  }

  lemma WrapStep(a: int, d: int)
    requires 0 <= d < 10
    ensures Wrap(Wrap(a) * 10 + d) == Wrap(a * 10 + d)
  {
    var k := (a + TWO63) / TWO64;
    assert Wrap(a) == a - k * TWO64;
    var x := a * 10 + d + TWO63;
    assert Wrap(a) * 10 + d + TWO63 == x - 10 * k * TWO64;
    ModShift(x, 10 * k);
  }

  lemma ModShift(x: int, k: int)
    ensures (x - k * TWO64) % TWO64 == x % TWO64
  {
    var q, r := x / TWO64, x % TWO64;
    assert x - k * TWO64 == (q - k) * TWO64 + r;
  }

  function LimitOf(s: string): int {
    if s != "" && AllDigits(s) then Wrap(Decimal(s)) else 0
  }

  /** Reads the limit digit by digit in 64-bit arithmetic; anything but digits means no limit. */
  method ParseLimit(s: string) returns (n: int)
    ensures n == LimitOf(s)
    ensures s != "" && AllDigits(s) && Decimal(s) < TWO63 ==> n == Decimal(s)
    ensures s == "" || (exists i :: 0 <= i < |s| && !('0' <= s[i] <= '9')) ==> n == 0
  {
    if s == "" {
      return 0;
    }
    n := 0;
    for i := 0 to |s|
      invariant AllDigits(s[..i]) && n == Wrap(Decimal(s[..i]))
    {
      var c := s[i];
      if c < '0' || c > '9' {
        return 0;
      }
      var d := (c - '0') as int;
      assert s[..i + 1][..i] == s[..i];
      WrapStep(Decimal(s[..i]), d);
      n := Wrap(n * 10 + d);
    }
    assert s[..|s|] == s;
  }

  /** A limit is no limit when it is empty, holds anything but digits, or is zero. */
  predicate Unlimited(s: string) {
    s == "" || (exists i :: 0 <= i < |s| && !('0' <= s[i] <= '9')) || Decimal(s) == 0
  }

  lemma MultiplesLeaveNothing(k: int)
    ensures k * TWO64 % TWO64 == 0
  {
    ModShift(0, -k);
  }

  lemma WrapDiffersByMultiples(n: int)
    ensures (n - Wrap(n)) % TWO64 == 0
  {
    var q, r := (n + TWO63) / TWO64, (n + TWO63) % TWO64;
    assert n - Wrap(n) == q * TWO64;
    MultiplesLeaveNothing(q);
  }

  lemma LimitMeans(s: string)
    ensures Unlimited(s) ==> LimitOf(s) == 0
    ensures !Unlimited(s) && Decimal(s) < 9_223_372_036_854_775_808 ==> LimitOf(s) == Decimal(s) > 0
    ensures s != "" && AllDigits(s) ==>
              && -9_223_372_036_854_775_808 <= LimitOf(s) < 9_223_372_036_854_775_808
              && (Decimal(s) - LimitOf(s)) % 18_446_744_073_709_551_616 == 0
  {
    if s != "" && AllDigits(s) {
      WrapDiffersByMultiples(Decimal(s));
      hide Wrap, Decimal;
    }
  }

  lemma TenTimes(x: nat, k: nat)
    ensures 10 * (x * Tens(k)) == x * Tens(k + 1)
  {
  }

  /** The value of a digit string: each digit its own, and each place ten times the one after it. */
  lemma {:induction false} DecimalPlaces(a: string, b: string)
    requires AllDigits(a) && AllDigits(b)
    ensures Decimal(a + b) == Decimal(a) * Tens(|b|) + Decimal(b)
    ensures |b| == 1 ==> Decimal(b) == (b[0] - '0') as nat
    decreases |b|
  {
    if b == "" {
      assert a + b == a;
    } else {
      var k := |b| - 1;
      DecimalPlaces(a, b[..k]);
      assert (a + b)[..|a + b| - 1] == a + b[..k];
      hide Decimal;
      TenTimes(Decimal(a), k);
      if k == 0 { assert b[..k] == ""; }
    }
  }

  function Tens(k: nat): nat { if k == 0 then 1 else 10 * Tens(k - 1) }

  lemma {:induction false} PrefixesAreSmaller(s: string, i: nat)
    requires AllDigits(s) && i <= |s|
    ensures Decimal(s[..i]) <= Decimal(s)
    decreases |s| - i
  {
    if i < |s| {
      PrefixesAreSmaller(s, i + 1);
      assert s[..i + 1][..i] == s[..i];
    } else {
      assert s[..i] == s;
    }
  }

  /**
    The limit is the number written exactly when that number is below 2^63, and then no
    step of the loop overflows either.
  */
  lemma LimitExactIff(s: string)
    requires s != "" && AllDigits(s)
    ensures LimitOf(s) == Decimal(s) <==> Decimal(s) < TWO63
    ensures Decimal(s) < TWO63 ==> forall i | 0 <= i <= |s| :: Wrap(Decimal(s[..i])) == Decimal(s[..i])
  {
    forall i | 0 <= i <= |s| ensures Decimal(s[..i]) <= Decimal(s) {
      PrefixesAreSmaller(s, i);
    }
  }

  /** The decimal digits of a number. */
  function Written(n: nat): (s: string)
    ensures s != "" && AllDigits(s)
  {
    if n < 10 then ['0' + n as char] else Written(n / 10) + ['0' + (n % 10) as char]
  }

  lemma {:induction false} WrittenIsRead(n: nat)
    ensures Decimal(Written(n)) == n
  {
    if n >= 10 {
      WrittenIsRead(n / 10);
      var s := Written(n);
      assert s[..|s| - 1] == Written(n / 10) && s[|s| - 1] == '0' + (n % 10) as char;
    } else {
      assert Written(n)[..0] == "";
    }
  }

  /** A limit that is written out is read as itself exactly when it is below 2^63; 2^63 itself is read as no limit. */
  lemma LimitsComeBackIff(n: nat)
    ensures LimitOf(Written(n)) == n <==> n < TWO63
    ensures LimitOf(Written(TWO63)) == -TWO63
  {
    WrittenIsRead(n);
    LimitExactIff(Written(n));
    WrittenIsRead(TWO63);
  }
}
