/** Shifts of 256-bit integers, by any number of bits. */
module ArithShift {
  import opened Radix
  import opened Arith256

  // --------------------------------------------------------------------------- bits

  /** Bitwise or. */
  function BitOr(x: nat, y: nat): nat
    decreases x + y
  {
    if x == 0 && y == 0 then 0 else 2 * BitOr(x / 2, y / 2) + if x % 2 == 1 || y % 2 == 1 then 1 else 0
  }

  lemma {:induction false} OrZero(y: nat)
    ensures BitOr(0, y) == y
    decreases y
  {
    if y > 0 { OrZero(y / 2); }
  }

  lemma {:induction false} OrSymmetric(x: nat, y: nat)
    ensures BitOr(x, y) == BitOr(y, x)
    decreases x + y
  {
    if x + y > 0 { OrSymmetric(x / 2, y / 2); }
  }

  /** Numbers with no bit in common: or is addition. */
  lemma {:induction false} OrDisjoint(x: nat, z: nat, s: nat)
    requires x < Pow(2, s)
    ensures BitOr(x, z * Pow(2, s)) == x + z * Pow(2, s)
    decreases s
  {
    var y := z * Pow(2, s);
    if s == 0 {
      OrZero(y);
    } else {
      var h := z * Pow(2, s - 1);
      assert y == 2 * h by { Associate(z, Pow(2, s - 1), 2); }
      OrDisjoint(x / 2, z, s - 1);
      assert y / 2 == h && y % 2 == 0;
    }
  }

  lemma LimbIsPower()
    ensures Pow(2, 32) == LIMB
  {
    assert Pow(2, 8) == 256;
    PowAdd(2, 8, 8);
    PowAdd(2, 16, 16);
  }

  lemma {:induction false} PowLimb(k: nat)
    ensures Pow(LIMB, k) == Pow(2, 32 * k)
  {
    LimbIsPower();
    PowPow(2, 32, k);
  }

  /** A limb shifted left by `s`: what stays in the limb and what moves into the next. */
  lemma ShiftParts(x: nat, s: nat)
    requires s <= 32 && x < LIMB
    ensures Pow(2, 32 - s) > 0
    ensures x * Pow(2, s) == x * Pow(2, s) % LIMB + x / Pow(2, 32 - s) * LIMB
    ensures x / Pow(2, 32 - s) < Pow(2, s) && x / Pow(2, 32 - s) < LIMB
    ensures x * Pow(2, s) % LIMB == x % Pow(2, 32 - s) * Pow(2, s)
    ensures x * Pow(2, s) % LIMB + Pow(2, s) <= LIMB
  {
    hide Pow;
    var p, q := Pow(2, s), Pow(2, 32 - s);
    PowPositive(2, s);
    PowPositive(2, 32 - s);
    LimbIsPower();
    PowAdd(2, 32 - s, s);
    var hi, z := x / q, x % q;
    DivisionIs(x, q);
    Parts(x, p, q, hi, z);
  }

  lemma Parts(x: nat, p: nat, q: nat, hi: nat, z: nat)
    requires p > 0 && q > 0 && q * p == LIMB && x == hi * q + z && z < q && x < LIMB
    ensures x * p == x * p % LIMB + hi * LIMB && x * p % LIMB == z * p && hi < p && hi < LIMB && z * p + p <= LIMB
  {
    assert x * p == hi * (q * p) + z * p by {
      Distribute(hi * q, z, p);
      Associate(hi, q, p);
    }
    SmallProduct(z, q, p);
    ModIs(z * p, hi, x * p, LIMB);
    if hi >= p { Multiply(p, hi, q, q); }
  }

  lemma SmallProduct(z: nat, q: nat, p: nat)
    requires z < q && p > 0
    ensures z * p + p <= q * p
  {
    Multiply(z + 1, q, p, p);
    Distribute(z, 1, p);
  }

  // ---------------------------------------------------------------------- shifting left

  /** What one limb contributes, with uint32 truncation. */
  ghost function LeftStep(now: seq<nat>, x: nat, s: nat, k: nat, i: nat): seq<nat>
    requires |now| == WIDTH && s < 32 && i < WIDTH
  {
    PowPositive(2, 32 - s);
    var hi := if i + k + 1 < WIDTH && s != 0 then now[i + k + 1 := BitOr(now[i + k + 1], x / Pow(2, 32 - s))] else now;
    if i + k < WIDTH then hi[i + k := BitOr(hi[i + k], x * Pow(2, s) % LIMB)] else hi
  }

  ghost predicate ShiftedLeft(a: seq<nat>, s: nat, k: nat, now: seq<nat>, i: nat, lost: nat) {
    && Limbs(a) && Limbs(now) && i <= WIDTH && s < 32
    && Num(now) + lost * Modulus() == Num(a[..i]) * (Pow(2, s) * Pow(LIMB, k))
    && (i + k < WIDTH ==> now[i + k] < Pow(2, s))
    && (forall j | i + k < j < WIDTH :: now[j] == 0)
  }

  /** What is shifted out at the top by limb `i`. */
  ghost function Lost(x: nat, s: nat, k: nat, i: nat): nat
    requires s < 32
  {
    PowPositive(2, 32 - s);
    if i + k + 1 < WIDTH then 0
    else if i + k + 1 == WIDTH then x / Pow(2, 32 - s)
    else x * Pow(2, s) * Pow(LIMB, i + k - WIDTH)
  }

  /** The limb's contribution, as numbers. */
  lemma LeftAdds(now: seq<nat>, x: nat, s: nat, k: nat, i: nat)
    requires Limbs(now) && x < LIMB && s < 32 && i < WIDTH
    requires i + k < WIDTH ==> now[i + k] < Pow(2, s)
    requires forall j | i + k < j < WIDTH :: now[j] == 0
    ensures var next := LeftStep(now, x, s, k, i);
            && Limbs(next)
            && Num(next) + Lost(x, s, k, i) * Modulus() == Num(now) + x * Pow(2, s) * Pow(LIMB, i + k)
            && (i + 1 + k < WIDTH ==> next[i + 1 + k] < Pow(2, s))
            && (forall j | i + 1 + k < j < WIDTH :: next[j] == 0)
  {
    hide Num, BitOr, Pow;
    var p := Pow(2, s);
    ShiftParts(x, s);
    var hi, lo := x / Pow(2, 32 - s), x * p % LIMB;
    if i + k < WIDTH {
      OrZero(hi);
      OrDisjoint(now[i + k], x % Pow(2, 32 - s), s);
      if s == 0 { NoShift(x); }
      LeftNumbers(now, hi, lo, p, k, i, LeftStep(now, x, s, k, i), x);
    } else {
      PowAdd(LIMB, i + k - WIDTH, WIDTH);
      assert i + k - WIDTH + WIDTH == i + k;
      Associate(x * p, Pow(LIMB, i + k - WIDTH), Modulus());
    }
  }

  lemma NoShift(x: nat)
    requires x < LIMB
    ensures Pow(2, 32) > 0 && x / Pow(2, 32) == 0
  {
    LimbIsPower();
  }

  lemma LeftNumbers(now: seq<nat>, hi: nat, lo: nat, p: nat, k: nat, i: nat, next: seq<nat>, x: nat)
    requires Limbs(now) && i + k < WIDTH && x * p == lo + hi * LIMB && lo + now[i + k] < LIMB && hi < LIMB
    requires i + k + 1 < WIDTH ==> now[i + k + 1] == 0
    requires next == (if i + k + 1 < WIDTH then now[i + k + 1 := hi] else now)[i + k := now[i + k] + lo]
    ensures Limbs(next)
    ensures Num(next) + (if i + k + 1 < WIDTH then 0 else hi) * Modulus() == Num(now) + x * p * Pow(LIMB, i + k)
  {
    hide Num;
    var m := if i + k + 1 < WIDTH then now[i + k + 1 := hi] else now;
    NumUpdate(m, i + k, now[i + k] + lo);
    if i + k + 1 < WIDTH { NumUpdate(now, i + k + 1, hi); }
    assert Pow(LIMB, i + k + 1) == Pow(LIMB, i + k) * LIMB;
    hide Pow;
    PartsAt(lo, hi, Pow(LIMB, i + k), x * p);
  }

  lemma PartsAt(lo: nat, hi: nat, at: nat, xp: nat)
    requires xp == lo + hi * LIMB
    ensures xp * at == lo * at + hi * (at * LIMB)
  {
    Distribute(lo, hi * LIMB, at);
  }

  lemma LeftStarts(a: seq<nat>, s: nat, k: nat, zero: seq<nat>)
    requires Limbs(a) && s < 32 && |zero| == WIDTH && forall j | 0 <= j < WIDTH :: zero[j] == 0
    ensures ShiftedLeft(a, s, k, zero, 0, 0)
  {
    NumZeros(zero);
    NumEmpty(a);
    PowPositive(2, s);
  }

  lemma LeftKeeps(a: seq<nat>, s: nat, k: nat, now: seq<nat>, i: nat, lost: nat)
    requires ShiftedLeft(a, s, k, now, i, lost) && i < WIDTH
    ensures ShiftedLeft(a, s, k, LeftStep(now, a[i], s, k, i), i + 1, lost + Lost(a[i], s, k, i))
  {
    hide Num, Pow, Modulus, LeftStep, Lost;
    LeftAdds(now, a[i], s, k, i);
    NumNext(a, i);
    PowAdd(LIMB, i, k);
    LeftSum(Num(a[..i]), a[i], Pow(2, s), Pow(LIMB, i), Pow(LIMB, k), lost, Lost(a[i], s, k, i), Modulus());
  }

  lemma LeftSum(w: nat, x: nat, p: nat, li: nat, lk: nat, lost: nat, more: nat, m: nat)
    ensures (w + x * li) * (p * lk) == w * (p * lk) + x * p * (li * lk)
    ensures (lost + more) * m == lost * m + more * m
  {
    Distribute(w, x * li, p * lk);
    assert x * li * (p * lk) == x * p * (li * lk);
  }

  lemma {:induction false} LeftDone(a: seq<nat>, shift: nat, now: seq<nat>, lost: nat)
    requires ShiftedLeft(a, shift % 32, shift / 32, now, WIDTH, lost)
    ensures Num(now) == Num(a) * Pow(2, shift) % Modulus()
  {
    assert a[..WIDTH] == a;
    PowLimb(shift / 32);
    PowAdd(2, shift % 32, 32 * (shift / 32));
    LimbsBound(now);
    ModIs(Num(now), lost, Num(a) * Pow(2, shift), Modulus());
  }

  /** One limb of `operator<<=`. */
  method ShiftLimbLeft(pn: array<nat>, x: nat, s: nat, k: nat, i: nat)
    requires pn.Length == WIDTH && s < 32 && i < WIDTH
    modifies pn
    ensures pn[..] == LeftStep(old(pn[..]), x, s, k, i)
  {
    hide BitOr, Pow;
    PowPositive(2, 32 - s);
    if i + k + 1 < WIDTH && s != 0 {
      pn[i + k + 1] := BitOr(pn[i + k + 1], x / Pow(2, 32 - s));
    }
    if i + k < WIDTH {
      pn[i + k] := BitOr(pn[i + k], x * Pow(2, s) % LIMB);
    }
  }

  /** `operator<<=`, for any shift. */
  method ShiftLeft(pn: array<nat>, shift: nat)
    requires Limbs(pn[..])
    modifies pn
    ensures Limbs(pn[..]) && Num(pn[..]) == old(Num(pn[..])) * Pow(2, shift) % Modulus()
  {
    hide Num, Pow, LeftStep, Lost, ShiftedLeft;
    ghost var was := pn[..];
    var a := pn[..];
    var k, s := shift / 32, shift % 32;
    Clear(pn);
    LeftStarts(was, s, k, pn[..]);
    ghost var lost: nat := 0;
    for i := 0 to WIDTH
      invariant pn.Length == WIDTH && ShiftedLeft(was, s, k, pn[..], i, lost)
    {
      LeftKeeps(was, s, k, pn[..], i, lost);
      lost := lost + Lost(a[i], s, k, i);
      ShiftLimbLeft(pn, a[i], s, k, i);
    }
    LeftLimbs(was, s, k, pn[..], WIDTH, lost);
    LeftDone(was, shift, pn[..], lost);
  }

  lemma LeftLimbs(a: seq<nat>, s: nat, k: nat, now: seq<nat>, i: nat, lost: nat)
    requires ShiftedLeft(a, s, k, now, i, lost)
    ensures Limbs(now)
  {
  }

  method Clear(pn: array<nat>)
    requires pn.Length == WIDTH
    modifies pn
    ensures Limbs(pn[..]) && forall j | 0 <= j < WIDTH :: pn[j] == 0
  {
    for i := 0 to WIDTH
      invariant forall j | 0 <= j < i :: pn[j] == 0
    {
      pn[i] := 0;
    }
  }

  // --------------------------------------------------------------------- shifting right

  ghost function RightStep(now: seq<nat>, x: nat, s: nat, k: nat, i: nat): seq<nat>
    requires |now| == WIDTH && s < 32 && i < WIDTH
  {
    PowPositive(2, s);
    var lo := if i - k - 1 >= 0 && s != 0 then now[i - k - 1 := BitOr(now[i - k - 1], x * Pow(2, 32 - s) % LIMB)]
        else now;
    if i - k >= 0 then lo[i - k := BitOr(lo[i - k], x / Pow(2, s))] else lo
  }

  /** `rest` is what has been shifted out at the bottom. */
  ghost predicate ShiftedRight(a: seq<nat>, s: nat, k: nat, now: seq<nat>, i: nat, rest: nat) {
    && Limbs(a) && Limbs(now) && i <= WIDTH && s < 32
    && Num(a[..i]) == Num(now) * (Pow(2, s) * Pow(LIMB, k)) + rest
    && rest < Pow(2, s) * Pow(LIMB, k) && (i <= k ==> rest < Pow(LIMB, k))
    && (i - k - 1 >= 0 ==> now[i - k - 1] < Pow(2, 32 - s))
    && (forall j | 0 <= j < WIDTH && j >= i - k :: now[j] == 0)
  }

  lemma RightStarts(a: seq<nat>, s: nat, k: nat, zero: seq<nat>)
    requires Limbs(a) && s < 32 && |zero| == WIDTH && forall j | 0 <= j < WIDTH :: zero[j] == 0
    ensures ShiftedRight(a, s, k, zero, 0, 0)
  {
    NumZeros(zero);
    NumEmpty(a);
    PowPositive(2, s);
    PowPositive(LIMB, k);
    Multiply(1, Pow(2, s), 1, Pow(LIMB, k));
  }

  /** Limbs below the shift go to the rest. */
  lemma {:induction false} RightBelow(a: seq<nat>, s: nat, k: nat, now: seq<nat>, i: nat, rest: nat)
    returns (rest': nat)
    requires ShiftedRight(a, s, k, now, i, rest) && i < k && i < WIDTH
    ensures ShiftedRight(a, s, k, RightStep(now, a[i], s, k, i), i + 1, rest')
  {
    rest' := rest + a[i] * Pow(LIMB, i);
    assert RightStep(now, a[i], s, k, i) == now;
    NumNext(a, i);
    NumZeros(now);
    NumBound(a[..i + 1]);
    PowGrows(LIMB, i + 1, k);
    PowPositive(2, s);
    Multiply(1, Pow(2, s), Pow(LIMB, k), Pow(LIMB, k));
  }

  /** The limb at the shift is cut in two. */
  lemma {:induction false} RightAt(a: seq<nat>, s: nat, now: seq<nat>, i: nat, rest: nat) returns (rest': nat)
    requires ShiftedRight(a, s, i, now, i, rest) && i < WIDTH
    ensures ShiftedRight(a, s, i, RightStep(now, a[i], s, i, i), i + 1, rest')
  {
    hide BitOr, Num, Pow;
    PowPositive(2, s);
    PowZero();
    var x, p, l := a[i], Pow(2, s), Pow(LIMB, i);
    var hi := x / p;
    ShiftParts(x, 32 - s);
    OrZero(hi);
    assert RightStep(now, x, s, i, i) == now[0 := hi];
    NumUpdate(now, 0, hi);
    NumNext(a, i);
    NumZeros(now);
    DivisionIs(x, p);
    CutArithmetic(x, hi, x % p, p, l, rest);
    rest' := rest + x % p * l;
  }

  lemma PowZero()
    ensures Pow(LIMB, 0) == 1
  {
  }

  lemma CutArithmetic(x: nat, hi: nat, z: nat, p: nat, l: nat, rest: nat)
    requires x == hi * p + z && z < p && rest < l
    ensures rest + x * l == hi * (p * l) + (rest + z * l) && rest + z * l < p * l
  {
    Distribute(hi * p, z, l);
    Associate(hi, p, l);
    Multiply(z + 1, p, l, l);
    Distribute(z, 1, l);
  }

  /** Limbs above the shift are moved down, across two limbs. */
  lemma {:induction false} RightAbove(a: seq<nat>, s: nat, k: nat, now: seq<nat>, i: nat, rest: nat)
    requires ShiftedRight(a, s, k, now, i, rest) && k < i < WIDTH
    ensures ShiftedRight(a, s, k, RightStep(now, a[i], s, k, i), i + 1, rest)
  {
    hide BitOr, Num, Pow;
    PowPositive(2, s);
    var x, p, q := a[i], Pow(2, s), Pow(2, 32 - s);
    var j := i - k - 1;
    ShiftParts(x, 32 - s);
    var hi, lo := x / p, x * q % LIMB;
    OrDisjoint(now[j], x % p, 32 - s);
    OrZero(hi);
    if s == 0 { FullShift(x); }
    assert RightStep(now, x, s, k, i) == now[j := now[j] + lo][j + 1 := hi];
    RightNumbers(now, hi, lo, q, j, x);
    NumNext(a, i);
    PowSplits(s, k, j, i);
    AboveArithmetic(Num(now), x, p, q, Pow(LIMB, k), Pow(LIMB, j), Pow(LIMB, i), rest);
  }

  lemma FullShift(x: nat)
    ensures x * Pow(2, 32) % LIMB == 0
  {
    LimbIsPower();
    ModIs(0, x, x * LIMB, LIMB);
  }

  lemma RightNumbers(now: seq<nat>, hi: nat, lo: nat, q: nat, j: nat, x: nat)
    requires Limbs(now) && j + 1 < WIDTH && now[j + 1] == 0 && x * q == lo + hi * LIMB && lo + now[j] < LIMB
             && hi < LIMB
    ensures Num(now[j := now[j] + lo][j + 1 := hi]) == Num(now) + x * q * Pow(LIMB, j)
  {
    hide Num;
    NumUpdate(now, j, now[j] + lo);
    NumUpdate(now[j := now[j] + lo], j + 1, hi);
    assert Pow(LIMB, j + 1) == Pow(LIMB, j) * LIMB;
    hide Pow;
    PartsAt(lo, hi, Pow(LIMB, j), x * q);
  }

  lemma PowSplits(s: nat, k: nat, j: nat, i: nat)
    requires s < 32 && i == j + k + 1
    ensures Pow(LIMB, i) == Pow(2, 32 - s) * Pow(2, s) * (Pow(LIMB, j) * Pow(LIMB, k))
  {
    LimbIsPower();
    PowAdd(2, 32 - s, s);
    PowAdd(LIMB, j, k);
    assert Pow(LIMB, i) == Pow(LIMB, j + k) * LIMB;
  }

  lemma AboveArithmetic(now: nat, x: nat, p: nat, q: nat, lk: nat, lj: nat, li: nat, rest: nat)
    requires li == q * p * (lj * lk)
    ensures (now + x * q * lj) * (p * lk) + rest == now * (p * lk) + rest + x * li
  {
    Distribute(now, x * q * lj, p * lk);
    assert x * q * lj * (p * lk) == x * (q * p * (lj * lk));
  }

  lemma RightKeeps(a: seq<nat>, s: nat, k: nat, now: seq<nat>, i: nat, rest: nat) returns (rest': nat)
    requires ShiftedRight(a, s, k, now, i, rest) && i < WIDTH
    ensures ShiftedRight(a, s, k, RightStep(now, a[i], s, k, i), i + 1, rest')
  {
    hide ShiftedRight, RightStep;
    if i < k {
      rest' := RightBelow(a, s, k, now, i, rest);
    } else if i == k {
      rest' := RightAt(a, s, now, i, rest);
    } else {
      RightAbove(a, s, k, now, i, rest);
      rest' := rest;
    }
  }

  lemma DivIs(q: nat, r: nat, total: nat, m: nat)
    requires r < m && q * m + r == total
    ensures q == total / m && r == total % m
  {
    ModIs(r, q, total, m);
    DivisionIs(total, m);
    var x := total / m - q;
    Distribute(q, x, m);
    Magnitude(x, m);
  }

  lemma {:induction false} RightDone(a: seq<nat>, shift: nat, now: seq<nat>, rest: nat)
    requires ShiftedRight(a, shift % 32, shift / 32, now, WIDTH, rest)
    ensures Pow(2, shift) > 0 && Num(now) == Num(a) / Pow(2, shift)
  {
    assert a[..WIDTH] == a;
    PowLimb(shift / 32);
    PowAdd(2, shift % 32, 32 * (shift / 32));
    DivIs(Num(now), rest, Num(a), Pow(2, shift));
  }

  method ShiftLimbRight(pn: array<nat>, x: nat, s: nat, k: nat, i: nat)
    requires pn.Length == WIDTH && s < 32 && i < WIDTH
    modifies pn
    ensures pn[..] == RightStep(old(pn[..]), x, s, k, i)
  {
    hide BitOr, Pow;
    PowPositive(2, s);
    if i - k - 1 >= 0 && s != 0 {
      pn[i - k - 1] := BitOr(pn[i - k - 1], x * Pow(2, 32 - s) % LIMB);
    }
    if i - k >= 0 {
      pn[i - k] := BitOr(pn[i - k], x / Pow(2, s));
    }
  }

  /** `operator>>=`, for any shift. */
  method ShiftRight(pn: array<nat>, shift: nat)
    requires Limbs(pn[..])
    modifies pn
    ensures Pow(2, shift) > 0 && Limbs(pn[..]) && Num(pn[..]) == old(Num(pn[..])) / Pow(2, shift)
  {
    hide Num, Pow, RightStep, ShiftedRight;
    ghost var was := pn[..];
    var a := pn[..];
    var k, s := shift / 32, shift % 32;
    Clear(pn);
    RightStarts(was, s, k, pn[..]);
    ghost var rest: nat := 0;
    for i := 0 to WIDTH
      invariant pn.Length == WIDTH && ShiftedRight(was, s, k, pn[..], i, rest)
    {
      rest := RightKeeps(was, s, k, pn[..], i, rest);
      ShiftLimbRight(pn, a[i], s, k, i);
    }
    RightLimbs(was, s, k, pn[..], WIDTH, rest);
    RightDone(was, shift, pn[..], rest);
  }

  lemma RightLimbs(a: seq<nat>, s: nat, k: nat, now: seq<nat>, i: nat, rest: nat)
    requires ShiftedRight(a, s, k, now, i, rest)
    ensures Limbs(now)
  {
  }
}
