/** The number of bits of a 256-bit integer, and division. */
module ArithDivide {
  import opened Radix
  import opened Arith256
  import opened ArithShift

  // ------------------------------------------------------------------------------ bits

  /** `n` is the position of the highest bit of `v` plus one. */
  ghost predicate BitLength(v: nat, n: nat) {
    if v == 0 then n == 0 else n > 0 && Pow(2, n - 1) <= v < Pow(2, n)
  }

  lemma {:induction false} TopLimb(s: seq<nat>, pos: nat, b: nat)
    requires Limbs(s) && pos < WIDTH && (forall j | pos < j < WIDTH :: s[j] == 0)
    requires Pow(2, b) <= s[pos] < Pow(2, b + 1)
    ensures BitLength(Num(s), 32 * pos + b + 1)
  {
    hide Num, Pow;
    var x, l := s[pos], Pow(LIMB, pos);
    NumSplit(s, pos + 1);
    NumZeros(s[pos + 1..]);
    NumNext(s, pos);
    NumBound(s[..pos]);
    PowLimb(pos);
    PowAdd(2, b, 32 * pos);
    PowAdd(2, b + 1, 32 * pos);
    PowPositive(2, 32 * pos + b);
    Multiply(Pow(2, b), x, l, l);
    Multiply(x + 1, Pow(2, b + 1), l, l);
    Distribute(x, 1, l);
  }

  /** Testing bits from the top finds the highest one. */
  method HighestBit(x: nat) returns (b: nat)
    requires 0 < x < LIMB
    ensures Pow(2, b) <= x < Pow(2, b + 1)
  {
    hide Pow;
    LimbIsPower();
    b := 31;
    while b > 0
      invariant b <= 31 && x < Pow(2, b + 1)
    {
      PowPositive(2, b);
      BitTest(x, b);
      if x / Pow(2, b) % 2 == 1 {
        return;
      }
      b := b - 1;
    }
    PowSmall();
  }

  lemma PowSmall()
    ensures Pow(2, 0) == 1 && Pow(2, 1) == 2
  {
  }

  lemma BitTest(x: nat, b: nat)
    requires Pow(2, b) > 0 && x < Pow(2, b + 1)
    ensures x / Pow(2, b) % 2 == 1 <==> x >= Pow(2, b)
  {
    var p := Pow(2, b);
    assert Pow(2, b + 1) == p * 2;
    DivisionIs(x, p);
    if x / p >= 2 { Multiply(2, x / p, p, p); }
    if x >= p && x / p == 0 { assert false; }
  }

  method Bits(pn: array<nat>) returns (n: nat)
    requires Limbs(pn[..])
    ensures BitLength(Num(pn[..]), n) && n <= 256
  {
    hide Num, Pow;
    var pos := WIDTH - 1;
    while pos >= 0
      invariant -1 <= pos < WIDTH && forall j | pos < j < WIDTH :: pn[..][j] == 0
    {
      if pn[pos] != 0 {
        assert pn[..][pos] < LIMB;
        var b := HighestBit(pn[pos]);
        SmallBit(pn[pos], b);
        TopLimb(pn[..], pos, b);
        return 32 * pos + b + 1;
      }
      pos := pos - 1;
    }
    NumZeros(pn[..]);
    return 0;
  }

  lemma SmallBit(x: nat, b: nat)
    requires x < LIMB && Pow(2, b) <= x
    ensures b < 32
  {
    LimbIsPower();
    if b >= 32 { PowGrows(2, 32, b); }
  }

  // -------------------------------------------------------------------------- division

  /** Only bits from `e` up may be set. */
  ghost predicate BitsFrom(q: seq<nat>, e: nat) {
    && Limbs(q)
    && (forall j | 0 <= j < e / 32 && j < WIDTH :: q[j] == 0)
    && Pow(2, e % 32) > 0
    && (e / 32 < WIDTH ==> q[e / 32] % Pow(2, e % 32) == 0)
  }

  lemma SetBit(x: nat, b: nat)
    requires b < 32 && x < LIMB && Pow(2, b + 1) > 0 && x % Pow(2, b + 1) == 0 && Pow(2, b) > 0
    ensures BitOr(x, Pow(2, b)) == x + Pow(2, b) < LIMB && (x + Pow(2, b)) % Pow(2, b) == 0
    ensures x % Pow(2, b) == 0
  {
    hide BitOr;
    var p := Pow(2, b);
    assert Pow(2, b + 1) == p * 2;
    var z := x / (p * 2);
    DivisionIs(x, p * 2);
    OrDisjoint(p, z, b + 1);
    OrSymmetric(x, p);
    assert z * (p * 2) == (2 * z) * p;
    Distribute(2 * z, 1, p);
    ModIs(0, 2 * z + 1, x + p, p);
    ModIs(0, 2 * z, x, p);
    LimbIsPower();
    PowAdd(2, 31 - b, b + 1);
    hide Pow;
    RoomForBit(z, p, Pow(2, 31 - b), x);
  }

  lemma RoomForBit(z: nat, p: nat, w: nat, x: nat)
    requires p > 0 && w * (p * 2) == LIMB && x == z * (p * 2) && x < LIMB
    ensures x + p < LIMB
  {
    if z >= w {
      Multiply(w, z, p * 2, p * 2);
    } else {
      Multiply(z + 1, w, p * 2, p * 2);
      Distribute(z, 1, p * 2);
    }
  }

  lemma BitIsLimb(e: nat)
    requires e < 256
    ensures Pow(2, e % 32) * Pow(LIMB, e / 32) == Pow(2, e) && Pow(2, e % 32) > 0
  {
    PowLimb(e / 32);
    PowAdd(2, e % 32, 32 * (e / 32));
    PowPositive(2, e % 32);
  }

  /** Setting the next bit down adds its value. */
  lemma {:induction false} SetsBit(q: seq<nat>, e: nat)
    requires e < 256 && BitsFrom(q, e + 1)
    ensures var w := e / 32;
            var next := q[w := BitOr(q[w], Pow(2, e % 32))];
            BitsFrom(next, e) && BitsFrom(q, e) && Num(next) == Num(q) + Pow(2, e)
  {
    hide Num, BitOr, Pow;
    var w, b := e / 32, e % 32;
    BitIsLimb(e);
    PowPositive(2, b + 1);
    if b < 31 {
      assert (e + 1) / 32 == w && (e + 1) % 32 == b + 1;
    } else {
      assert (e + 1) / 32 == w + 1;
      ModIs(0, 0, 0, Pow(2, b + 1));
    }
    SetBit(q[w], b);
    NumUpdate(q, w, q[w] + Pow(2, b));
  }

  /** The state of the long division: `rem` is what is left of `n`, and quotient bits below `e` are open. */
  ghost predicate Dividing(n: nat, d: nat, q: seq<nat>, rem: nat, e: nat) {
    && BitsFrom(q, e) && n == Num(q) * d + rem && rem < d * Pow(2, e)
  }

  lemma DivideStart(n: nat, d: nat, nBits: nat, dBits: nat, zero: seq<nat>)
    requires BitLength(n, nBits) && BitLength(d, dBits) && 0 < dBits <= nBits <= 256
    requires |zero| == WIDTH && forall j | 0 <= j < WIDTH :: zero[j] == 0
    ensures Dividing(n, d, zero, n, nBits - dBits + 1) && d * Pow(2, nBits - dBits) < Pow(2, 256)
  {
    hide Num, Pow;
    var s := nBits - dBits;
    NumZeros(zero);
    PowPositive(2, (s + 1) % 32);
    ModIs(0, 0, 0, Pow(2, (s + 1) % 32));
    PowAdd(2, dBits - 1, s + 1);
    Multiply(Pow(2, dBits - 1), d, Pow(2, s + 1), Pow(2, s + 1));
    PowAdd(2, dBits, s);
    PowPositive(2, s);
    SmallProduct(d, Pow(2, dBits), Pow(2, s));
    PowGrows(2, nBits, 256);
  }

  /** One round: subtract the divisor, shifted by `e`, if it is not larger. */
  lemma DivideStep(n: nat, d: nat, q: seq<nat>, rem: nat, e: nat)
    requires e < 256 && Dividing(n, d, q, rem, e + 1)
    ensures var div := d * Pow(2, e);
            if rem >= div then Dividing(n, d, q[e / 32 := BitOr(q[e / 32], Pow(2, e % 32))], rem - div, e)
            else Dividing(n, d, q, rem, e)
  {
    hide Num, BitOr, BitsFrom;
    SetsBit(q, e);
    assert Pow(2, e + 1) == Pow(2, e) * 2;
    hide Pow;
    Associate(d, Pow(2, e), 2);
    Distribute(Num(q), Pow(2, e), d);
  }

  lemma DivideDone(n: nat, d: nat, q: seq<nat>, rem: nat)
    requires Dividing(n, d, q, rem, 0) && d > 0
    ensures Num(q) == n / d && rem == n % d
  {
    PowSmall();
    DivIs(Num(q), rem, n, d);
  }

  lemma ModulusIs()
    ensures Modulus() == Pow(2, 256)
  {
    PowLimb(WIDTH);
  }

  lemma FitsModulus(v: nat)
    requires v < Pow(2, 256)
    ensures v % Modulus() == v
  {
    ModulusIs();
  }

  lemma QuotientSmall(n: nat, d: nat, nBits: nat, dBits: nat)
    requires BitLength(n, nBits) && BitLength(d, dBits) && dBits > nBits
    ensures d > 0 && n / d == 0
  {
    if n > 0 { PowGrows(2, nBits, dBits - 1); }
    DivIs(0, n, n, d);
  }

  /** Halving undoes one doubling. */
  lemma HalfOf(d: nat, e: nat)
    requires e > 0
    ensures d * Pow(2, e) / Pow(2, 1) == d * Pow(2, e - 1)
  {
    assert Pow(2, e) == Pow(2, e - 1) * 2;
    PowSmall();
    hide Pow;
    Associate(d, Pow(2, e - 1), 2);
  }

  method NewCopy(a: array<nat>) returns (c: array<nat>)
    requires a.Length == WIDTH
    ensures fresh(c) && c[..] == a[..]
  {
    c := new nat[WIDTH](_ => 0);
    Copy(a, c);
  }

  /** `operator/=`; a zero divisor is an error, found after the number has been set to zero. */
  method DivAssign(a: array<nat>, b: array<nat>) returns (ok: bool)
    requires Limbs(a[..]) && Limbs(b[..])
    modifies a
    ensures Limbs(a[..]) && ok == (old(Num(b[..])) != 0)
    ensures ok ==> Num(a[..]) == old(Num(a[..])) / old(Num(b[..]))
    ensures !ok ==> Num(a[..]) == 0
  {
    hide Num, Pow, BitLength;
    ghost var n, d := Num(a[..]), Num(b[..]);
    var div := NewCopy(b);
    var num := NewCopy(a);
    Clear(a);
    NumZeros(a[..]);
    var numBits := Bits(num);
    var divBits := Bits(div);
    ZeroBits(d, divBits);
    if divBits == 0 {
      return false;
    }
    if divBits > numBits {
      QuotientSmall(n, d, numBits, divBits);
      return true;
    }
    LongDivide(a, num, div, numBits - divBits, numBits, divBits);
    ok := true;
  }

  lemma ZeroBits(v: nat, n: nat)
    requires BitLength(v, n)
    ensures n == 0 <==> v == 0
  {
  }

  method LongDivide(a: array<nat>, num: array<nat>, div: array<nat>, top: nat, ghost numBits: nat, ghost divBits: nat)
    requires a != num && a != div && num != div
    requires Limbs(a[..]) && Limbs(num[..]) && Limbs(div[..]) && forall j | 0 <= j < WIDTH :: a[j] == 0
    requires BitLength(Num(num[..]), numBits) && BitLength(Num(div[..]), divBits)
    requires 0 < divBits <= numBits <= 256 && top == numBits - divBits && Num(div[..]) > 0
    modifies a, num, div
    ensures Limbs(a[..]) && Num(a[..]) == old(Num(num[..])) / old(Num(div[..]))
  {
    hide Num, Pow, BitLength, Dividing, Modulus;
    ghost var n, d := Num(num[..]), Num(div[..]);
    DivideStart(n, d, numBits, divBits, a[..]);
    ShiftLeft(div, top);
    FitsModulus(d * Pow(2, top));
    var shift: int := top;
    while shift >= 0
      invariant -1 <= shift <= top && Limbs(a[..]) && Limbs(num[..]) && Limbs(div[..])
      invariant Dividing(n, d, a[..], Num(num[..]), shift + 1)
      invariant shift >= 0 ==> Num(div[..]) == d * Pow(2, shift)
    {
      DivideRound(a, num, div, shift, n, d);
      ShiftRight(div, 1);
      if shift > 0 { HalfOf(d, shift); }
      shift := shift - 1;
    }
    DivideDone(n, d, a[..], Num(num[..]));
  }

  method DivideRound(a: array<nat>, num: array<nat>, div: array<nat>, shift: nat, ghost n: nat, ghost d: nat)
    requires a != num && a != div && num != div && shift < 256
    requires Limbs(a[..]) && Limbs(num[..]) && Limbs(div[..])
    requires Dividing(n, d, a[..], Num(num[..]), shift + 1) && Num(div[..]) == d * Pow(2, shift)
    modifies a, num
    ensures Limbs(a[..]) && Limbs(num[..]) && Dividing(n, d, a[..], Num(num[..]), shift)
  {
    hide Num, Pow, Dividing, Modulus, BitOr;
    ghost var rem := Num(num[..]);
    DivideStep(n, d, a[..], rem, shift);
    var c := CompareTo(num, div);
    if c >= 0 {
      ghost var q := a[..];
      LimbsBound(num[..]);
      SubAssign(num, div);
      ModIs(rem - d * Pow(2, shift), 0, rem - d * Pow(2, shift), Modulus());
      PowPositive(2, shift % 32);
      a[shift / 32] := BitOr(a[shift / 32], Pow(2, shift % 32));
      assert a[..] == q[shift / 32 := BitOr(q[shift / 32], Pow(2, shift % 32))];
      DividingLimbs(n, d, a[..], Num(num[..]), shift);
    }
  }

  lemma DividingLimbs(n: nat, d: nat, q: seq<nat>, rem: nat, e: nat)
    requires Dividing(n, d, q, rem, e)
    ensures Limbs(q)
  {
  }
}
