/**
  Deterministic identifiers: the first twenty base32 characters (RFC 4648, section 6) of a
  SHA-256 digest. The digest function is a parameter; nothing is assumed about it.
*/
module Ids {

  type Byte = x: int | 0 <= x < 256

  type Digest = d: seq<Byte> | |d| == 32 witness seq(32, _ => 0)

  type Hash = string -> Digest

  const ID_LENGTH: nat := 20

  const ALPHABET: string := "ABCDEFGHIJKLMNOPQRSTUVWXYZ234567"

  const KIND_USER := "user"
  const KIND_GROUP := "group"
  const KIND_APP := "app"

  /** The lowest k bits of a number, highest first. */
  function LowBits(n: nat, k: nat): (bits: seq<bool>)
    ensures |bits| == k
  {
    if k == 0 then [] else LowBits(n / 2, k - 1) + [n % 2 == 1]
  }

  function ByteBits(b: Byte): (bits: seq<bool>)
    ensures |bits| == 8
  {
    LowBits(b, 8)
  }

  function Bits(d: seq<Byte>): (bits: seq<bool>)
    ensures |bits| == 8 * |d|
  {
    if d == [] then [] else ByteBits(d[0]) + Bits(d[1..])
  }

  function Bit(b: bool): nat { if b then 1 else 0 }

  /** The number five bits stand for, highest first. */
  function Quintet(b: seq<bool>): (n: nat)
    requires |b| == 5
    ensures n < 32
  {
    16 * Bit(b[0]) + 8 * Bit(b[1]) + 4 * Bit(b[2]) + 2 * Bit(b[3]) + Bit(b[4])
  }

  function Symbol(n: nat): (c: char)
    requires n < 32
  {
    if n < 26 then 'A' + n as char else '2' + (n - 26) as char
  }

  predicate InAlphabet(c: char) { 'A' <= c <= 'Z' || '2' <= c <= '7' }

  /** Unpadded base32: one symbol for each five bits, the last group filled up with zeros. */
  function Base32(bits: seq<bool>): (s: string)
    ensures |s| == (|bits| + 4) / 5
    ensures forall c | c in s :: InAlphabet(c)
  {
    if bits == [] then ""
    else if |bits| < 5 then [Symbol(Quintet(bits + seq(5 - |bits|, _ => false)))]
    else [Symbol(Quintet(bits[..5]))] + Base32(bits[5..])
  }

  function UpperChar(c: char): char {
    if 'a' <= c <= 'z' then c - 'a' + 'A' else c
  }

  function Upper(s: string): (u: string)
    ensures |u| == |s|
  {
    seq(|s|, i requires 0 <= i < |s| => UpperChar(s[i]))
  }

  /** The encoding is upper case already. */
  lemma UpperKeeps(s: string)
    requires forall c | c in s :: InAlphabet(c)
    ensures Upper(s) == s
  {
    forall i | 0 <= i < |s| ensures Upper(s)[i] == s[i] {
      assert s[i] in s;
    }
  }

  function HashInput(kind: string, key: string): string { kind + ['\0'] + key }

  /** Always twenty symbols of the alphabet, whatever the digest is. */
  function NewID(sha: Hash, kind: string, key: string): (id: string)
    ensures |id| == ID_LENGTH
    ensures forall c | c in id :: InAlphabet(c)
    ensures '@' !in id && id != ""
  {
    var encoded := Base32(Bits(sha(HashInput(kind, key))));
    UpperKeeps(encoded);
    Upper(encoded)[..ID_LENGTH]
  }

  lemma SymbolsSpellTheAlphabet(n: nat)
    requires n < 32
    ensures ALPHABET[n] == Symbol(n)
  {
  }

  lemma SymbolsDiffer(m: nat, n: nat)
    requires m < 32 && n < 32 && Symbol(m) == Symbol(n)
    ensures m == n
  {
  }

  lemma QuintetsDiffer(a: seq<bool>, b: seq<bool>)
    requires |a| == |b| == 5 && Quintet(a) == Quintet(b)
    ensures a == b
  {
    assert a == [a[0], a[1], a[2], a[3], a[4]] && b == [b[0], b[1], b[2], b[3], b[4]];
  }

  /** The first n symbols say exactly what the first 5n bits say. */
  lemma {:induction false} SymbolsTellBits(a: seq<bool>, b: seq<bool>, n: nat)
    requires |a| == |b| && 5 * n <= |a|
    ensures Base32(a)[..n] == Base32(b)[..n] <==> a[..5 * n] == b[..5 * n]
  {
    if n > 0 {
      SymbolsTellBits(a[5..], b[5..], n - 1);
      var p, q := Base32(a[5..])[..n - 1], Base32(b[5..])[..n - 1];
      assert Base32(a)[..n] == [Symbol(Quintet(a[..5]))] + p;
      assert Base32(b)[..n] == [Symbol(Quintet(b[..5]))] + q;
      assert a[..5 * n] == a[..5] + a[5..][..5 * (n - 1)];
      assert b[..5 * n] == b[..5] + b[5..][..5 * (n - 1)];
      if Base32(a)[..n] == Base32(b)[..n] {
        assert Symbol(Quintet(a[..5])) == Base32(a)[..n][0] == Symbol(Quintet(b[..5]));
        assert p == Base32(a)[..n][1..] == Base32(b)[..n][1..] == q;
        SymbolsDiffer(Quintet(a[..5]), Quintet(b[..5]));
        QuintetsDiffer(a[..5], b[..5]);
      }
      if a[..5 * n] == b[..5 * n] {
        assert a[..5] == a[..5 * n][..5] == b[..5 * n][..5] == b[..5];
        assert a[5..][..5 * (n - 1)] == a[..5 * n][5..] == b[..5 * n][5..] == b[5..][..5 * (n - 1)];
      }
    }
  }

  /** Two identifiers are the same exactly when the first hundred digest bits agree. */
  lemma SameIdIffSameHundredBits(sha: Hash, kind: string, key: string, kind': string, key': string)
    ensures NewID(sha, kind, key) == NewID(sha, kind', key')
       <==> Bits(sha(HashInput(kind, key)))[..100] == Bits(sha(HashInput(kind', key')))[..100]
  {
    var a, b := Bits(sha(HashInput(kind, key))), Bits(sha(HashInput(kind', key')));
    UpperKeeps(Base32(a));
    UpperKeeps(Base32(b));
    SymbolsTellBits(a, b, ID_LENGTH);
  }

  /** The separator keeps kind and key apart: any bytes may follow it, none of them is lost. */
  lemma HashInputDetermines(kind: string, key: string, kind': string, key': string)
    requires '\0' !in kind && '\0' !in kind'
    requires HashInput(kind, key) == HashInput(kind', key')
    ensures kind == kind' && key == key'
  {
    var s := HashInput(kind, key);
    assert s[|kind|] == '\0' && forall i | 0 <= i < |kind| :: s[i] == kind[i] && kind[i] in kind;
    assert s[|kind'|] == '\0' && forall i | 0 <= i < |kind'| :: s[i] == kind'[i] && kind'[i] in kind';
    assert |kind| == |kind'|;
    assert kind == s[..|kind|] && kind' == s[..|kind'|];
    assert key == s[|kind| + 1..] && key' == s[|kind'| + 1..];
  }

  // What number an identifier is.

  /** The number these digits write in a base, highest first. */
  function Number(base: nat, digits: seq<nat>): nat {
    if digits == [] then 0 else base * Number(base, digits[..|digits| - 1]) + digits[|digits| - 1]
  }

  /** The place of a symbol in the alphabet. */
  function Worth(c: char): (n: nat)
    requires InAlphabet(c)
    ensures n < 32 && ALPHABET[n] == c
  {
    if c >= 'A' then (c - 'A') as nat else 26 + (c - '2') as nat
  }

  function Worths(s: string): (n: seq<nat>)
    requires forall c | c in s :: InAlphabet(c)
    ensures |n| == |s|
  {
    seq(|s|, i requires 0 <= i < |s| => assert s[i] in s; Worth(s[i]))
  }

  function BitDigits(bits: seq<bool>): (n: seq<nat>)
    ensures |n| == |bits|
  {
    seq(|bits|, i requires 0 <= i < |bits| => Bit(bits[i]))
  }

  lemma NextDigit(base: nat, digits: seq<nat>, d: nat)
    ensures Number(base, digits + [d]) == base * Number(base, digits) + d
  {
    assert (digits + [d])[..|digits|] == digits;
  }

  lemma NextBit(bits: seq<bool>, b: bool)
    ensures Number(2, BitDigits(bits + [b])) == 2 * Number(2, BitDigits(bits)) + Bit(b)
  {
    assert BitDigits(bits + [b]) == BitDigits(bits) + [Bit(b)];
    NextDigit(2, BitDigits(bits), Bit(b));
  }

  lemma NextFour(bits: seq<bool>, b: seq<bool>)
    requires |b| == 4
    ensures Number(2, BitDigits(bits + b))
         == 16 * Number(2, BitDigits(bits)) + 8 * Bit(b[0]) + 4 * Bit(b[1]) + 2 * Bit(b[2]) + Bit(b[3])
  {
    hide Number, BitDigits;
    NextBit(bits, b[0]);
    NextBit(bits + [b[0]], b[1]);
    NextBit(bits + [b[0]] + [b[1]], b[2]);
    NextBit(bits + [b[0]] + [b[1]] + [b[2]], b[3]);
    assert bits + b == bits + [b[0]] + [b[1]] + [b[2]] + [b[3]];
  }

  function Power(base: nat, k: nat): nat { if k == 0 then 1 else base * Power(base, k - 1) }

  lemma Doubled(p: nat, m: nat, n: nat)
    ensures 2 * (p * m + n / 2) + Bit(n % 2 == 1) == (2 * p) * m + n
  {
  }

  lemma {:induction false} NextLowBits(bits: seq<bool>, n: nat, k: nat)
    requires n < Power(2, k)
    ensures Number(2, BitDigits(bits + LowBits(n, k))) == Power(2, k) * Number(2, BitDigits(bits)) + n
  {
    hide Number, BitDigits;
    if k == 0 {
      assert bits + [] == bits;
    } else {
      NextLowBits(bits, n / 2, k - 1);
      NextBit(bits + LowBits(n / 2, k - 1), n % 2 == 1);
      assert bits + LowBits(n, k) == bits + LowBits(n / 2, k - 1) + [n % 2 == 1];
      Doubled(Power(2, k - 1), Number(2, BitDigits(bits)), n);
    }
  }

  lemma NextByte(bits: seq<bool>, b: Byte)
    ensures Number(2, BitDigits(bits + ByteBits(b))) == 256 * Number(2, BitDigits(bits)) + b
  {
    hide Number, BitDigits, LowBits;
    assert Power(2, 8) == 256;
    NextLowBits(bits, b, 8);
  }

  lemma {:induction false} BitsAppend(d: seq<Byte>, b: Byte)
    ensures Bits(d + [b]) == Bits(d) + ByteBits(b)
  {
    if d == [] {
      assert [b][1..] == [];
    } else {
      BitsAppend(d[1..], b);
      assert (d + [b])[1..] == d[1..] + [b];
    }
  }

  lemma {:induction false} BitsAreTheNumber(d: seq<Byte>)
    ensures Number(2, BitDigits(Bits(d))) == Number(256, d)
  {
    if d != [] {
      var k := |d| - 1;
      BitsAreTheNumber(d[..k]);
      BitsAppend(d[..k], d[k]);
      assert d == d[..k] + [d[k]];
      NextByte(Bits(d[..k]), d[k]);
      NextDigit(256, d[..k], d[k]);
    }
  }

  lemma {:induction false} SymbolAt(bits: seq<bool>, i: nat)
    requires 5 * i + 5 <= |bits|
    ensures Base32(bits)[i] == Symbol(Quintet(bits[5 * i..5 * i + 5]))
  {
    if i > 0 {
      SymbolAt(bits[5..], i - 1);
      assert bits[5..][5 * (i - 1)..5 * (i - 1) + 5] == bits[5 * i..5 * i + 5];
    }
  }

  lemma NextQuintet(bits: seq<bool>, five: seq<bool>)
    requires |five| == 5
    ensures Number(2, BitDigits(bits + five)) == 32 * Number(2, BitDigits(bits)) + Worth(Symbol(Quintet(five)))
  {
    hide Number, BitDigits;
    NextFour(bits, five[..4]);
    NextBit(bits + five[..4], five[4]);
    assert bits + five == bits + five[..4] + [five[4]];
    SymbolsSpellTheAlphabet(Quintet(five));
  }

  lemma NextSymbol(s: string, n: nat)
    requires n < |s| && forall c | c in s :: InAlphabet(c)
    ensures s[n] in s
    ensures Number(32, Worths(s[..n + 1])) == 32 * Number(32, Worths(s[..n])) + Worth(s[n])
  {
    assert s[..n + 1] == s[..n] + [s[n]];
    assert Worths(s[..n + 1]) == Worths(s[..n]) + [Worth(s[n])];
    NextDigit(32, Worths(s[..n]), Worth(s[n]));
  }

  /** One more symbol adds to its number what five more bits add to theirs. */
  lemma OneMoreSymbol(bits: seq<bool>, s: string, n: nat, k: nat)
    requires s == Base32(bits) && k == 5 * n && k + 5 <= |bits| && n < |s|
    ensures Number(32, Worths(s[..n + 1])) - 32 * Number(32, Worths(s[..n]))
         == Number(2, BitDigits(bits[..k + 5])) - 32 * Number(2, BitDigits(bits[..k]))
  {
    hide Number, Worths, Quintet, Worth, Symbol, BitDigits;
    SymbolAt(bits, n);
    hide Base32;
    assert bits[..k + 5] == bits[..k] + bits[k..k + 5];
    NextQuintet(bits[..k], bits[k..k + 5]);
    NextSymbol(s, n);
  }

  lemma {:induction false} SymbolsAreTheNumber(bits: seq<bool>, s: string, n: nat, k: nat)
    requires s == Base32(bits) && k == 5 * n && k <= |bits| && n <= |s|
    ensures Number(32, Worths(s[..n])) == Number(2, BitDigits(bits[..k]))
  {
    if n > 0 {
      hide Number, Worths, Base32, BitDigits;
      SymbolsAreTheNumber(bits, s, n - 1, k - 5);
      OneMoreSymbol(bits, s, n - 1, k - 5);
    } else {
      assert s[..n] == "" && bits[..k] == [];
    }
  }

  lemma {:induction false} BitsOfPrefix(d: seq<Byte>, n: nat)
    requires n <= |d|
    ensures Bits(d)[..8 * n] == Bits(d[..n])
  {
    if n > 0 {
      BitsOfPrefix(d[1..], n - 1);
      assert d[..n][1..] == d[1..][..n - 1];
      assert Bits(d)[..8 * n] == ByteBits(d[0]) + Bits(d[1..])[..8 * (n - 1)];
    }
  }

  /**
    An identifier, read as a number in base 32 with each symbol worth its place in the
    alphabet, is the first hundred bits of the digest: its first thirteen bytes, as a number
    in base 256, less the last four bits.
  */
  lemma IdIsTheNumber(sha: Hash, kind: string, key: string)
    ensures Number(32, Worths(NewID(sha, kind, key))) == Number(256, sha(kind + "\0" + key)[..13]) / 16
  {
    hide Number, Worths, Base32, BitDigits;
    var d := sha(HashInput(kind, key));
    assert d == sha(kind + "\0" + key) by { assert HashInput(kind, key) == kind + "\0" + key; }
    var bits := Bits(d);
    UpperKeeps(Base32(bits));
    SymbolsAreTheNumber(bits, Base32(bits), 20, 100);
    BitsAreTheNumber(d[..13]);
    BitsOfPrefix(d, 13);
    assert bits[..104] == bits[..100] + bits[100..104];
    NextFour(bits[..100], bits[100..104]);
  }
}
