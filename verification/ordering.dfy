/**
  The byte-wise order in which an index is walked, and the ascending listing of a
  finite set of keys. A character stands for one byte of a Go string.
*/
module Ordering {

  predicate Less(a: string, b: string) {
    if b == "" then false
    else if a == "" then true
    else a[0] < b[0] || (a[0] == b[0] && Less(a[1..], b[1..]))
  }

  /** The strings agree up to n, where the first ends before the second or has the smaller byte. */
  predicate DivergeAt(a: string, b: string, n: nat) {
    n <= |a| && n <= |b| && a[..n] == b[..n] && (if n < |a| then n < |b| && a[n] < b[n] else n < |b|)
  }

  /** The order is decided where the strings first differ; a proper prefix comes first. */
  lemma {:induction false} LessIff(a: string, b: string)
    ensures Less(a, b) <==> exists n: nat :: DivergeAt(a, b, n)
  {
    if a != "" && b != "" && a[0] == b[0] {
      LessIff(a[1..], b[1..]);
      if n: nat :| DivergeAt(a[1..], b[1..], n) {
        assert a[..n + 1] == [a[0]] + a[1..][..n] && b[..n + 1] == [b[0]] + b[1..][..n];
        assert DivergeAt(a, b, n + 1);
      }
      if n: nat :| DivergeAt(a, b, n) {
        assert n > 0;
        assert a[1..][..n - 1] == a[..n][1..] && b[1..][..n - 1] == b[..n][1..];
        assert DivergeAt(a[1..], b[1..], n - 1);
      }
    } else {
      assert DivergeAt(a, b, 0) <==> Less(a, b);
      forall n: nat | 0 < n <= |a| && n <= |b| ensures a[..n] != b[..n] {
        assert a[..n][0] == a[0] && b[..n][0] == b[0];
      }
    }
  }

  lemma {:induction false} LessTotal(a: string, b: string)
    ensures a == b || Less(a, b) || Less(b, a)
  {
    if a != "" && b != "" && a[0] == b[0] {
      LessTotal(a[1..], b[1..]);
      assert a == [a[0]] + a[1..] && b == [b[0]] + b[1..];
    }
  }

  lemma {:induction false} LessTransitive(a: string, b: string, c: string)
    requires Less(a, b) && Less(b, c)
    ensures Less(a, c)
  {
    if a != "" && a[0] == b[0] && b[0] == c[0] {
      LessTransitive(a[1..], b[1..], c[1..]);
    }
  }

  lemma {:induction false} LessIrreflexive(a: string)
    ensures !Less(a, a)
  {
    if a != "" {
      LessIrreflexive(a[1..]);
    }
  }

  lemma LessAsymmetric(a: string, b: string)
    requires Less(a, b)
    ensures !Less(b, a)
  {
    if Less(b, a) {
      LessTransitive(a, b, a);
      LessIrreflexive(a);
    }
  }

  predicate Ascending(s: seq<string>) {
    forall i, j | 0 <= i < j < |s| :: Less(s[i], s[j])
  }

  predicate IsLeast(k: string, keys: set<string>) {
    k in keys && forall x | x in keys :: x == k || Less(k, x)
  }

  lemma {:induction false} LeastExists(keys: set<string>)
    requires keys != {}
    ensures exists k :: IsLeast(k, keys)
    decreases |keys|
  {
    var x :| x in keys;
    if keys == {x} {
      assert IsLeast(x, keys);
    } else {
      var rest := keys - {x};
      assert keys == rest + {x};
      LeastExists(rest);
      var k :| IsLeast(k, rest);
      LessTotal(k, x);
      if Less(x, k) {
        forall y | y in keys ensures y == x || Less(x, y) {
          if y != x && y != k {
            LessTransitive(x, k, y);
          }
        }
        assert IsLeast(x, keys);
      } else {
        assert IsLeast(k, keys);
      }
    }
  }

  lemma LeastUnique(keys: set<string>)
    ensures forall j, k | IsLeast(j, keys) && IsLeast(k, keys) :: j == k
  {
    forall j, k | IsLeast(j, keys) && IsLeast(k, keys) ensures j == k {
      if j != k {
        LessAsymmetric(j, k);
      }
    }
  }

  function LeastOf(keys: set<string>): (k: string)
    requires keys != {}
    ensures k in keys && IsLeast(k, keys)
  {
    LeastExists(keys);
    LeastUnique(keys);
    var k :| k in keys && IsLeast(k, keys);
    k
  }

  /** The keys in ascending order, each once. */
  function SortedKeys(keys: set<string>): (s: seq<string>)
    ensures |s| == |keys|
    ensures forall k :: k in s <==> k in keys
    ensures Ascending(s)
    decreases |keys|
  {
    if keys == {} then []
    else
      var k := LeastOf(keys);
      var rest := SortedKeys(keys - {k});
      assert forall i | 0 <= i < |rest| :: rest[i] in rest;
      [k] + rest
  }

  /** Two ascending sequences over the same keys are the same sequence. */
  lemma {:induction false} AscendingUnique(s: seq<string>, t: seq<string>)
    requires Ascending(s) && Ascending(t)
    requires forall k :: k in s <==> k in t
    ensures s == t
  {
    assert s != [] ==> s[0] in s;
    assert t != [] ==> t[0] in t;
    if s != [] && t != [] {
      HeadIsLeast(s);
      HeadIsLeast(t);
      assert s[0] in t && t[0] in s;
      if s[0] != t[0] { LessAsymmetric(s[0], t[0]); }
      forall k ensures k in s[1..] <==> k in t[1..] {
        TailMembers(s, k);
        TailMembers(t, k);
      }
      AscendingUnique(s[1..], t[1..]);
      assert s == [s[0]] + s[1..] && t == [t[0]] + t[1..];
    }
  }

  lemma HeadIsLeast(s: seq<string>)
    requires Ascending(s) && s != []
    ensures forall k | k in s :: k == s[0] || Less(s[0], k)
  {
  }

  lemma TailMembers(s: seq<string>, k: string)
    requires Ascending(s) && s != []
    ensures k in s[1..] <==> k in s && k != s[0]
  {
    LessIrreflexive(s[0]);
    assert s == [s[0]] + s[1..];
  }

  /** An ascending sequence names each key once. */
  lemma AscendingDistinct(s: seq<string>, i: nat, j: nat)
    requires Ascending(s) && i < |s| && j < |s| && s[i] == s[j]
    ensures i == j
  {
    LessIrreflexive(s[i]);
  }

  predicate IsLeastNat(k: nat, keys: set<nat>) {
    k in keys && forall x | x in keys :: k <= x
  }

  lemma {:induction false} LeastNatExists(keys: set<nat>)
    requires keys != {}
    ensures exists k :: IsLeastNat(k, keys)
    decreases |keys|
  {
    var x: nat :| x in keys;
    if keys == {x} {
      assert IsLeastNat(x, keys);
    } else {
      var rest := keys - {x};
      assert keys == rest + {x};
      LeastNatExists(rest);
      var k: nat :| IsLeastNat(k, rest);
      assert IsLeastNat(if k <= x then k else x, keys);
    }
  }

  lemma LeastNatUnique(keys: set<nat>)
    ensures forall j, k | IsLeastNat(j, keys) && IsLeastNat(k, keys) :: j == k
  {
  }

  predicate Increasing(s: seq<nat>) {
    forall i, j | 0 <= i < j < |s| :: s[i] < s[j]
  }

  function LeastNat(keys: set<nat>): (k: nat)
    requires keys != {}
    ensures IsLeastNat(k, keys)
  {
    LeastNatExists(keys);
    LeastNatUnique(keys);
    var k: nat :| k in keys && IsLeastNat(k, keys);
    k
  }

  lemma PrependIncreasing(k: nat, keys: set<nat>, rest: seq<nat>)
    requires IsLeastNat(k, keys) && Increasing(rest)
    requires forall x :: x in rest <==> x in keys - {k}
    ensures Increasing([k] + rest)
    ensures forall x :: x in [k] + rest <==> x in keys
  {
    var s := [k] + rest;
    forall i, j | 0 <= i < j < |s| ensures s[i] < s[j] {
      assert s[j] == rest[j - 1] && rest[j - 1] in rest;
    }
  }

  /** The numbers in increasing order, each once. */
  function SortedNats(keys: set<nat>): (s: seq<nat>)
    ensures |s| == |keys|
    ensures forall k :: k in s <==> k in keys
    ensures Increasing(s)
    decreases |keys|
  {
    if keys == {} then []
    else
      var k := LeastNat(keys);
      var rest := SortedNats(keys - {k});
      PrependIncreasing(k, keys, rest);
      [k] + rest
  }
}
