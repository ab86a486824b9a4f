/** Numbers in a positional notation, and how large they get. */
module Radix {

  function Pow(b: nat, e: nat): nat {
    if e == 0 then 1 else Pow(b, e - 1) * b
  }

  lemma {:induction false} PowPositive(b: nat, e: nat)
    requires b > 0
    ensures Pow(b, e) > 0
  {
    if e > 0 { PowPositive(b, e - 1); }
  }

  lemma {:induction false} PowAdd(b: nat, m: nat, n: nat)
    ensures Pow(b, m + n) == Pow(b, m) * Pow(b, n)
    decreases n
  {
    if n > 0 {
      PowAdd(b, m, n - 1);
      assert Pow(b, m + n) == Pow(b, m + n - 1) * b;
      Associate(Pow(b, m), Pow(b, n - 1), b);
    }
  }

  lemma Associate(a: int, b: int, c: int)
    ensures a * b * c == a * (b * c)
  {
  }

  lemma {:induction false} PowPow(b: nat, m: nat, n: nat)
    ensures Pow(Pow(b, m), n) == Pow(b, m * n)
    decreases n
  {
    if n == 0 {
      assert m * n == 0;
    } else {
      PowPow(b, m, n - 1);
      PowAdd(b, m * (n - 1), m);
      assert m * (n - 1) + m == m * n;
    }
  }

  lemma {:induction false} PowMonotone(a: nat, b: nat, e: nat)
    requires a <= b
    ensures Pow(a, e) <= Pow(b, e)
  {
    if e > 0 {
      PowMonotone(a, b, e - 1);
      Multiply(Pow(a, e - 1), Pow(b, e - 1), a, b);
    }
  }

  /** A product with a non-zero factor is at least as large as the other factor. */
  lemma Magnitude(x: int, m: int)
    ensures x >= 1 && m >= 0 ==> x * m >= m
    ensures x <= -1 && m >= 0 ==> x * m <= -m
  {
    assert x * m == (x - 1) * m + m;
    assert x * m == (x + 1) * m - m;
  }

  lemma Multiply(x: nat, y: nat, a: nat, b: nat)
    requires x <= y && a <= b
    ensures x * a <= y * b
  {
    assert x * a <= y * a;
    assert y * a <= y * b;
  }

  lemma {:induction false} PowGrows(b: nat, m: nat, n: nat)
    requires b > 0 && m <= n
    ensures Pow(b, m) <= Pow(b, n)
  {
    PowAdd(b, m, n - m);
    PowPositive(b, n - m);
    Multiply(Pow(b, m), Pow(b, m), 1, Pow(b, n - m));
  }

  lemma {:induction false} PowStrict(a: nat, b: nat, e: nat)
    requires a < b && e > 0
    ensures Pow(a, e) < Pow(b, e)
  {
    PowMonotone(a, b, e - 1);
    PowPositive(b, e - 1);
    MultiplyStrict(Pow(a, e - 1), Pow(b, e - 1), a, b);
  }

  lemma MultiplyStrict(x: nat, y: nat, a: nat, b: nat)
    requires x <= y && a < b && 0 < y
    ensures x * a < y * b
  {
    Multiply(x, y, a, a);
    Multiply(1, y, b - a, b - a);
    assert y * b == y * a + y * (b - a);
  }

  /** If b^p is at least a^q, a number of n digits in base a fits in m digits of base b when q*m >= p*n. */
  lemma {:induction false} Fits(a: nat, b: nat, p: nat, q: nat, n: nat, m: nat)
    requires b > 0 && q > 0 && Pow(b, p) >= Pow(a, q) && q * m >= p * n
    ensures Pow(a, n) <= Pow(b, m)
  {
    PowPow(b, m, q);
    PowPow(a, n, q);
    PowPow(b, p, n);
    PowPow(a, q, n);
    assert m * q == q * m && n * q == q * n;
    PowGrows(b, p * n, q * m);
    PowMonotone(Pow(a, q), Pow(b, p), n);
    if Pow(a, n) > Pow(b, m) {
      PowStrict(Pow(b, m), Pow(a, n), q);
    }
  }

  // --------------------------------------------------------------------- digit sequences

  predicate Digits(b: nat, ds: seq<nat>) { forall i | 0 <= i < |ds| :: ds[i] < b }

  /** The number a sequence of digits stands for, most significant first. */
  function Value(b: nat, ds: seq<nat>): nat {
    if ds == [] then 0 else Value(b, ds[..|ds| - 1]) * b + ds[|ds| - 1]
  }

  lemma {:induction false} ValueFirst(b: nat, d: nat, ds: seq<nat>)
    ensures Value(b, [d] + ds) == d * Pow(b, |ds|) + Value(b, ds)
    decreases |ds|
  {
    if ds == [] {
      assert [d] + ds == [d] && [d][..0] == [];
    } else {
      var init := ds[..|ds| - 1];
      ValueFirst(b, d, init);
      assert ([d] + ds)[..|ds|] == [d] + init;
      Associate(d, Pow(b, |init|), b);
      Distribute(d * Pow(b, |init|), Value(b, init), b);
    }
  }

  lemma Distribute(x: int, y: int, b: int)
    ensures (x + y) * b == x * b + y * b
  {
  }

  /** Leading zeros do not change the value. */
  lemma {:induction false} ValueZeros(b: nat, ds: seq<nat>, n: nat)
    requires n <= |ds| && forall i | 0 <= i < n :: ds[i] == 0
    ensures Value(b, ds) == Value(b, ds[n..])
    decreases n
  {
    if n == 0 {
      assert ds[0..] == ds;
    } else {
      assert ds == [ds[0]] + ds[1..];
      ValueFirst(b, ds[0], ds[1..]);
      assert ds[1..][n - 1..] == ds[n..];
      ValueZeros(b, ds[1..], n - 1);
    }
  }

  lemma {:induction false} ValueBound(b: nat, ds: seq<nat>)
    requires Digits(b, ds)
    ensures Value(b, ds) < Pow(b, |ds|)
    decreases |ds|
  {
    if ds != [] {
      var init := ds[..|ds| - 1];
      ValueBound(b, init);
      assert (Value(b, init) + 1) * b <= Pow(b, |init|) * b by { Multiply(Value(b, init) + 1, Pow(b, |init|), b, b); }
      Distribute(Value(b, init), 1, b);
    }
  }

  /** The shortest digits of a number. */
  function Canonical(b: nat, n: nat): seq<nat>
    requires b >= 2
    decreases n
  {
    if n == 0 then [] else Canonical(b, Quotient(n, b)) + [n % b]
  }

  function Quotient(n: nat, b: nat): (q: nat)
    requires b >= 2
    ensures q * b + n % b == n && (n > 0 ==> q < n)
  {
    Smaller(n, b);
    n / b
  }

  lemma Smaller(n: nat, b: nat)
    requires b >= 2
    ensures n / b * b + n % b == n && (n > 0 ==> n / b < n)
  {
    var q := n / b;
    assert n == q * b + n % b;
    if q > 0 {
      assert q * 2 <= q * b by { Multiply(q, q, 2, b); }
    }
  }

  ghost predicate NoLeadingZero(ds: seq<nat>) { ds != [] ==> ds[0] != 0 }

  lemma {:induction false} CanonicalOk(b: nat, n: nat)
    requires b >= 2
    ensures Digits(b, Canonical(b, n)) && NoLeadingZero(Canonical(b, n)) && Value(b, Canonical(b, n)) == n
    decreases n
  {
    if n > 0 {
      var q := Quotient(n, b);
      CanonicalOk(b, q);
      var ds := Canonical(b, q);
      assert (ds + [n % b])[..|ds|] == ds;
      if ds == [] {
        assert q == 0;
      }
    }
  }

  /** Digits without leading zeros are the shortest digits of their value. */
  lemma {:induction false} CanonicalUnique(b: nat, ds: seq<nat>)
    requires b >= 2 && Digits(b, ds) && NoLeadingZero(ds)
    ensures Canonical(b, Value(b, ds)) == ds
    decreases |ds|
  {
    if ds != [] {
      var init, d := ds[..|ds| - 1], ds[|ds| - 1];
      CanonicalUnique(b, init);
      DivMod(Value(b, init), b, d);
      NonZero(b, ds);
      assert ds == init + [d];
    }
  }

  lemma DivMod(q: nat, b: nat, r: nat)
    requires r < b && b >= 2
    ensures Quotient(q * b + r, b) == q && (q * b + r) % b == r
  {
    var n := q * b + r;
    var x := n / b - q;
    assert n / b * b + n % b == n;
    Distribute(q, x, b);
    assert x * b + n % b == r;
    Magnitude(x, b);
  }

  lemma {:induction false} NonZero(b: nat, ds: seq<nat>)
    requires b >= 2 && ds != [] && ds[0] != 0
    ensures Value(b, ds) > 0
  {
    assert ds == [ds[0]] + ds[1..];
    ValueFirst(b, ds[0], ds[1..]);
    PowPositive(b, |ds| - 1);
    Multiply(1, ds[0], 1, Pow(b, |ds| - 1));
  }
}
