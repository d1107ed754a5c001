/** Positional notation: digit sequences, most significant first, and their values. */
module Digits {

  ghost function Pow(base: nat, e: nat): nat {
    if e == 0 then 1 else base * Pow(base, e - 1)
  }

  ghost function Value(base: nat, digits: seq<nat>): nat {
    if digits == [] then 0
    else Value(base, digits[..|digits| - 1]) * base + digits[|digits| - 1]
  }

  ghost predicate AllBelow(base: nat, digits: seq<nat>) {
    forall d | d in digits :: d < base
  }

  // No leading zero: the one way to write a number.
  ghost predicate Canonical(base: nat, digits: seq<nat>) {
    AllBelow(base, digits) && (digits != [] ==> digits[0] != 0)
  }

  lemma {:induction false} ValueSnoc(base: nat, digits: seq<nat>, d: nat)
    ensures Value(base, digits + [d]) == Value(base, digits) * base + d
  {
    assert (digits + [d])[..|digits|] == digits;
  }

  // The two bases in use.
  ghost predicate IsBase(base: nat) {
    base == 58 || base == 256
  }

  lemma {:induction false} DivideBack(q: nat, d: nat, base: nat)
    requires IsBase(base) && d < base
    ensures (q * base + d) / base == q && (q * base + d) % base == d
  {
    if base == 58 {
      assert (q * 58 + d) / 58 == q;
    } else {
      assert (q * 256 + d) / 256 == q;
    }
  }

  lemma {:induction false} CanonicalPrefix(base: nat, digits: seq<nat>)
    requires Canonical(base, digits) && digits != []
    ensures Canonical(base, digits[..|digits| - 1])
  {
    var p := digits[..|digits| - 1];
    assert forall d | d in p :: d in digits;
    assert p != [] ==> p[0] == digits[0];
  }

  // A canonical sequence that is not empty has a positive value.
  lemma {:induction false} CanonicalPositive(base: nat, digits: seq<nat>)
    requires IsBase(base) && Canonical(base, digits) && digits != []
    ensures 0 < Value(base, digits)
  {
    var n := |digits| - 1;
    CanonicalPrefix(base, digits);
    if n > 0 {
      CanonicalPositive(base, digits[..n]);
      assert Value(base, digits[..n]) * base > 0;
    } else {
      assert digits[..0] == [];
    }
  }

  // Two canonical sequences with the same value are the same.
  lemma {:induction false} CanonicalUnique(base: nat, a: seq<nat>, b: seq<nat>)
    requires IsBase(base) && Canonical(base, a) && Canonical(base, b) && Value(base, a) == Value(base, b)
    ensures a == b
  {
    if a != [] { CanonicalPositive(base, a); }
    if b != [] { CanonicalPositive(base, b); }
    if a != [] && b != [] {
      var m, n := |a| - 1, |b| - 1;
      assert a[m] in a && b[n] in b;
      CanonicalPrefix(base, a);
      CanonicalPrefix(base, b);
      DivideBack(Value(base, a[..m]), a[m], base);
      DivideBack(Value(base, b[..n]), b[n], base);
      CanonicalUnique(base, a[..m], b[..n]);
      assert a == a[..m] + [a[m]] && b == b[..n] + [b[n]];
    }
  }

  // The one way to write a number.
  ghost function CanonicalOf(base: nat, n: nat): (digits: seq<nat>)
    requires IsBase(base)
    ensures Canonical(base, digits) && Value(base, digits) == n
    ensures n > 0 ==> digits != []
  {
    if n == 0 then []
    else
      var most := CanonicalOf(base, Quotient(n, base));
      ValueSnoc(base, most, Remainder(n, base));
      most + [Remainder(n, base)]
  }

  function Quotient(n: nat, base: nat): (q: nat)
    requires IsBase(base)
    ensures n > 0 ==> q < n
    ensures n == q * base + Remainder(n, base)
  {
    if base == 58 then n / 58 else n / 256
  }

  function Remainder(n: nat, base: nat): (d: nat)
    requires IsBase(base)
    ensures d < base
  {
    if base == 58 then n % 58 else n % 256
  }

  // A prefix counts for its value times the weight of what follows.
  lemma {:induction false} ValueSplit(base: nat, digits: seq<nat>, i: nat)
    requires i < |digits|
    ensures Value(base, digits[..i + 1]) * Pow(base, |digits| - i - 1)
         == Value(base, digits[..i]) * Pow(base, |digits| - i) + digits[i] * Pow(base, |digits| - i - 1)
  {
    var w := Pow(base, |digits| - i - 1);
    assert digits[..i + 1] == digits[..i] + [digits[i]];
    ValueSnoc(base, digits[..i], digits[i]);
    var v := Value(base, digits[..i]);
    assert (v * base + digits[i]) * w == v * (base * w) + digits[i] * w;
  }

  function Reverse(s: seq<nat>): seq<nat> {
    seq(|s|, i requires 0 <= i < |s| => s[|s| - 1 - i])
  }

  lemma {:induction false} ReverseSnoc(s: seq<nat>, d: nat)
    ensures Reverse(s + [d]) == [d] + Reverse(s)
  {
  }
}
