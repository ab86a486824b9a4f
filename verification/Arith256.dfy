/** 256-bit unsigned integers as eight 32-bit limbs, least significant first, updated in place. */
module Arith256 {
  import opened Radix

  const WIDTH := 8
  const LIMB := 0x1_0000_0000
  const LIMIT64 := 0x1_0000_0000_0000_0000

  ghost predicate Limbs(s: seq<nat>) { |s| == WIDTH && forall i | 0 <= i < WIDTH :: s[i] < LIMB }

  /** The number some limbs stand for. */
  ghost function Num(s: seq<nat>): nat {
    if s == [] then 0 else Num(s[..|s| - 1]) + s[|s| - 1] * Pow(LIMB, |s| - 1)
  }

  /** 2 to the 256th. */
  ghost function Modulus(): (m: nat)
    ensures m > 0
  {
    PowPositive(LIMB, WIDTH);
    Pow(LIMB, WIDTH)
  }

  // ----------------------------------------------------------------------------- limbs

  lemma {:induction false} NumBound(s: seq<nat>)
    requires forall i | 0 <= i < |s| :: s[i] < LIMB
    ensures Num(s) < Pow(LIMB, |s|)
    decreases |s|
  {
    if s != [] {
      var n := |s| - 1;
      NumBound(s[..n]);
      Multiply(s[n] + 1, LIMB, Pow(LIMB, n), Pow(LIMB, n));
      Distribute(s[n], 1, Pow(LIMB, n));
      assert Pow(LIMB, n + 1) == Pow(LIMB, n) * LIMB;
    }
  }

  lemma LimbsBound(s: seq<nat>)
    requires Limbs(s)
    ensures Num(s) < Modulus()
  {
    NumBound(s);
  }

  lemma {:induction false} NumUpdate(s: seq<nat>, i: nat, x: nat)
    requires i < |s|
    ensures Num(s[i := x]) == Num(s) + (x - s[i]) * Pow(LIMB, i)
    decreases |s|
  {
    var n := |s| - 1;
    var t := s[i := x];
    if i == n {
      assert t[..n] == s[..n];
      assert Num(t) == Num(s[..n]) + x * Pow(LIMB, n);
      assert Num(s) == Num(s[..n]) + s[n] * Pow(LIMB, n);
      Distribute(x - s[n], s[n], Pow(LIMB, n));
    } else {
      NumUpdate(s[..n], i, x);
      assert t[..n] == s[..n][i := x];
    }
  }

  /** Writing the low part of `n` to limb `i` and carrying the rest accounts for all of `n`. */
  lemma LimbStep(s: seq<nat>, i: nat, n: nat)
    requires i < |s|
    ensures Num(s[i := n % LIMB]) + n / LIMB * Pow(LIMB, i + 1) == Num(s) + (n - s[i]) * Pow(LIMB, i)
  {
    var p := Pow(LIMB, i);
    NumUpdate(s, i, n % LIMB);
    assert Pow(LIMB, i + 1) == p * LIMB;
    assert n / LIMB * (p * LIMB) == n / LIMB * LIMB * p by { Associate(n / LIMB, LIMB, p); }
    Distribute(n % LIMB - s[i], n / LIMB * LIMB, p);
    assert n % LIMB - s[i] + n / LIMB * LIMB == n - s[i];
  }

  lemma {:induction false} NumSplit(s: seq<nat>, i: nat)
    requires i <= |s|
    ensures Num(s) == Num(s[..i]) + Num(s[i..]) * Pow(LIMB, i)
    decreases |s|
  {
    if i == |s| {
      assert s[..i] == s && s[i..] == [];
    } else {
      var n := |s| - 1;
      NumSplit(s[..n], i);
      assert s[..n][..i] == s[..i] && s[i..][..n - i] == s[..n][i..];
      PowAdd(LIMB, n - i, i);
      Associate(s[n], Pow(LIMB, n - i), Pow(LIMB, i));
      Distribute(Num(s[..n][i..]), s[n] * Pow(LIMB, n - i), Pow(LIMB, i));
    }
  }

  lemma {:induction false} NumNext(s: seq<nat>, i: nat)
    requires i < |s|
    ensures Num(s[..i + 1]) == Num(s[..i]) + s[i] * Pow(LIMB, i)
  {
    assert s[..i + 1][..i] == s[..i];
  }

  lemma {:induction false} NumZeros(s: seq<nat>)
    requires forall i | 0 <= i < |s| :: s[i] == 0
    ensures Num(s) == 0
    decreases |s|
  {
    if s != [] { NumZeros(s[..|s| - 1]); }
  }

  lemma DivisionIs(w: int, m: nat)
    requires m > 0
    ensures w == w / m * m + w % m
  {
  }

  lemma ModIs(r: nat, q: int, total: int, m: nat)
    requires r < m && r + q * m == total
    ensures r == total % m
  {
    var x := total / m - q;
    assert total == total / m * m + total % m;
    Distribute(q, x, m);
    assert r == x * m + total % m;
    Magnitude(x, m);
  }

  // ------------------------------------------------------------------------- addition

  /** After `i` limbs: what has been added so far, with the carry. */
  ghost predicate Adding(was: seq<nat>, add: nat, now: seq<nat>, i: nat, carry: nat) {
    && Limbs(now) && |was| == WIDTH && i <= WIDTH && now[i..] == was[i..]
    && Num(now) + carry * Pow(LIMB, i) == Num(was) + add
  }

  lemma AddStep(was: seq<nat>, add: nat, now: seq<nat>, i: nat, carry: nat, n: nat, more: nat)
    requires Limbs(was) && i < WIDTH && Adding(was, add, now, i, carry) && n - now[i] == carry + more
    ensures Adding(was, add + more * Pow(LIMB, i), now[i := n % LIMB], i + 1, n / LIMB)
  {
    LimbStep(now, i, n);
    Distribute(carry, more, Pow(LIMB, i));
    assert now[i := n % LIMB][i + 1..] == now[i..][1..] == was[i..][1..] == was[i + 1..];
  }

  lemma AddDone(was: seq<nat>, add: nat, now: seq<nat>, carry: nat)
    requires Adding(was, add, now, WIDTH, carry)
    ensures Num(now) == (Num(was) + add) % Modulus()
  {
    LimbsBound(now);
    ModIs(Num(now), carry, Num(was) + add, Modulus());
  }

  /** The low 32 bits of `n`, into limb `i`. */
  method Store(a: array<nat>, i: nat, n: nat)
    requires Limbs(a[..]) && i < WIDTH
    modifies a
    ensures a[..] == old(a[..])[i := n % LIMB] && Limbs(a[..])
  {
    a[i] := n % LIMB;
  }

  method AddAssign(a: array<nat>, b: array<nat>)
    requires Limbs(a[..]) && Limbs(b[..])
    modifies a
    ensures Limbs(a[..]) && Num(a[..]) == (old(Num(a[..])) + old(Num(b[..]))) % Modulus()
  {
    hide Num, Pow, Adding;
    ghost var was, wasB := a[..], b[..];
    AddStart(was);
    NumEmpty(wasB);
    var carry: nat := 0;
    for i := 0 to WIDTH
      invariant Adding(was, Num(wasB[..i]), a[..], i, carry) && carry <= 1
      invariant Limbs(a[..]) && forall j | i <= j < WIDTH :: b[j] == wasB[j]
    {
      ghost var now := a[..];
      assert now[i] < LIMB && wasB[i] < LIMB;
      var n: nat := carry + a[i] + b[i];
      assert n < LIMIT64;
      AddStep(was, Num(wasB[..i]), now, i, carry, n, wasB[i]);
      NumNext(wasB, i);
      Store(a, i, n);
      carry := n / LIMB;
    }
    assert wasB[..WIDTH] == wasB;
    AddDone(was, Num(wasB), a[..], carry);
  }

  lemma AddStart(was: seq<nat>)
    requires Limbs(was)
    ensures Adding(was, 0, was, 0, 0)
  {
  }

  lemma NumEmpty(s: seq<nat>)
    ensures Num(s[..0]) == 0
  {
  }

  // ---------------------------------------------------- complement, increment, subtraction

  lemma {:induction false} ComplementNum(s: seq<nat>, t: seq<nat>)
    requires |s| == |t| && forall i | 0 <= i < |s| :: t[i] == LIMB - 1 - s[i]
    ensures Num(t) == Pow(LIMB, |s|) - 1 - Num(s)
    decreases |s|
  {
    if s != [] {
      var n := |s| - 1;
      ComplementNum(s[..n], t[..n]);
      Distribute(LIMB - 1 - s[n], s[n], Pow(LIMB, n));
      assert Pow(LIMB, n + 1) == Pow(LIMB, n) * LIMB;
    }
  }

  /** `operator~`. */
  method Complement(a: array<nat>) returns (ret: array<nat>)
    requires Limbs(a[..])
    ensures fresh(ret) && Limbs(ret[..]) && Num(ret[..]) == Modulus() - 1 - Num(a[..])
  {
    hide Num, Pow;
    ret := new nat[WIDTH](_ => 0);
    for i := 0 to WIDTH
      invariant forall j | 0 <= j < i :: ret[j] == LIMB - 1 - a[j]
    {
      assert a[..][i] < LIMB;
      ret[i] := LIMB - 1 - a[i];
    }
    ComplementNum(a[..], ret[..]);
  }

  /** Limbs below `i` have wrapped around to zero. */
  ghost predicate Counting(was: seq<nat>, now: seq<nat>, i: nat) {
    && Limbs(now) && i <= WIDTH
    && Num(now) + Pow(LIMB, i) == Num(was) + 1
  }

  lemma CountStep(was: seq<nat>, now: seq<nat>, i: nat)
    requires Counting(was, now, i) && i < WIDTH
    ensures var next := now[i := (now[i] + 1) % LIMB];
            if next[i] == 0 then Counting(was, next, i + 1) else Limbs(next) && Num(next) == Num(was) + 1
  {
    assert Pow(LIMB, i + 1) == Pow(LIMB, i) * LIMB;
    hide Num, Pow;
    NumUpdate(now, i, (now[i] + 1) % LIMB);
    Wrapped(Pow(LIMB, i));
  }

  lemma Wrapped(p: nat)
    ensures (0 - (LIMB - 1)) * p == p - p * LIMB && 1 * p == p
  {
  }

  lemma CountStart(was: seq<nat>)
    requires Limbs(was)
    ensures Counting(was, was, 0)
  {
  }

  /** `operator++`. */
  method Increment(a: array<nat>)
    requires Limbs(a[..])
    modifies a
    ensures Limbs(a[..]) && Num(a[..]) == (old(Num(a[..])) + 1) % Modulus()
  {
    hide Num, Pow, Counting;
    ghost var was := a[..];
    CountStart(was);
    var i: nat := 0;
    while i < WIDTH
      invariant i <= WIDTH && Counting(was, a[..], i) && Limbs(a[..])
    {
      CountStep(was, a[..], i);
      Store(a, i, a[i] + 1);
      if a[i] != 0 {
        LimbsBound(a[..]);
        ModIs(Num(a[..]), 0, Num(was) + 1, Modulus());
        return;
      }
      i := i + 1;
    }
    CountDone(was, a[..]);
  }

  lemma CountDone(was: seq<nat>, now: seq<nat>)
    requires Counting(was, now, WIDTH)
    ensures Num(now) == (Num(was) + 1) % Modulus()
  {
    LimbsBound(now);
    ModIs(Num(now), 1, Num(was) + 1, Modulus());
  }

  /** Unary `operator-`. */
  method Negate(a: array<nat>) returns (ret: array<nat>)
    requires Limbs(a[..])
    ensures fresh(ret) && Limbs(ret[..]) && Num(ret[..]) == (Modulus() - Num(a[..])) % Modulus()
  {
    hide Num, Modulus;
    ret := Complement(a);
    Increment(ret);
  }

  method SubAssign(a: array<nat>, b: array<nat>)
    requires Limbs(a[..]) && Limbs(b[..])
    modifies a
    ensures Limbs(a[..]) && Num(a[..]) == (old(Num(a[..])) - old(Num(b[..]))) % Modulus()
  {
    hide Num, Modulus;
    ghost var x, y := Num(a[..]), Num(b[..]);
    var n := Negate(b);
    AddAssign(a, n);
    AddNegated(x, y, Modulus());
  }

  lemma AddNegated(x: nat, y: nat, m: nat)
    requires m > 0
    ensures (x + (m - y) % m) % m == (x - y) % m
  {
    var r := (x + (m - y) % m) % m;
    var q1, q2 := (m - y) / m, (x + (m - y) % m) / m;
    assert m - y == q1 * m + (m - y) % m;
    assert x + (m - y) % m == q2 * m + r;
    assert r + (q2 + q1 - 1) * m == x - y by {
      Distribute(q2, q1 - 1, m);
      Distribute(q1, -1, m);
    }
    ModIs(r, q2 + q1 - 1, x - y, m);
  }

  // --------------------------------------------------------------------- multiplication

  /** `operator*=` with a 32-bit factor. */
  method MulAssign32(a: array<nat>, b: nat)
    requires Limbs(a[..]) && b < LIMB
    modifies a
    ensures Limbs(a[..]) && Num(a[..]) == old(Num(a[..])) * b % Modulus()
  {
    hide Num, Pow, Scaling;
    ghost var was := a[..];
    ScaleStart(was, b);
    var carry: nat := 0;
    for i := 0 to WIDTH
      invariant Scaling(was, b, a[..], i, carry) && Limbs(a[..]) && carry < LIMB
    {
      assert a[..][i] < LIMB;
      NoOverflow(carry, 0, b, a[i]);
      var n: nat := carry + b * a[i];
      assert n < LIMIT64;
      ScaleStep(was, b, a[..], i, carry, n);
      Store(a, i, n);
      carry := n / LIMB;
    }
    ScaleDone(was, b, a[..], carry);
  }

  lemma NoOverflow(carry: nat, x: nat, y: nat, z: nat)
    requires carry < LIMB && x < LIMB && y < LIMB && z < LIMB
    ensures 0 <= carry + x + y * z < LIMIT64
  {
    ProductBound(y, z);
  }

  lemma ProductBound(y: nat, z: nat)
    requires y < LIMB && z < LIMB
    ensures 0 <= y * z <= 0xffff_fffe_0000_0001
  {
    Multiply(y, 0xffff_ffff, z, 0xffff_ffff);
  }

  /** The first `i` limbs are multiplied already. */
  ghost predicate Scaling(was: seq<nat>, b: nat, now: seq<nat>, i: nat, carry: nat) {
    && Limbs(was) && Limbs(now) && i <= WIDTH && now[i..] == was[i..]
    && Num(now) + carry * Pow(LIMB, i) == Num(was) + (b - 1) * Num(was[..i])
  }

  lemma ScaleStart(was: seq<nat>, b: nat)
    requires Limbs(was)
    ensures Scaling(was, b, was, 0, 0)
  {
  }

  lemma {:induction false} ScaleStep(was: seq<nat>, b: nat, now: seq<nat>, i: nat, carry: nat, n: nat)
    requires Scaling(was, b, now, i, carry) && i < WIDTH && n == carry + b * now[i]
    ensures Scaling(was, b, now[i := n % LIMB], i + 1, n / LIMB)
  {
    var p := Pow(LIMB, i);
    var x := now[i];
    assert x == now[i..][0] == was[i];
    LimbStep(now, i, n);
    NumNext(was, i);
    assert now[i := n % LIMB][i + 1..] == now[i..][1..] == was[i + 1..];
    ScaleArithmetic(b, x, carry, p, Num(was[..i]));
  }

  lemma ScaleArithmetic(b: nat, x: nat, carry: nat, p: nat, w: nat)
    ensures (carry + b * x - x) * p == carry * p + (b - 1) * (x * p)
    ensures (b - 1) * (w + x * p) == (b - 1) * w + (b - 1) * (x * p)
  {
    Associate(b - 1, x, p);
    assert carry + b * x - x == carry + (b - 1) * x;
  }

  lemma ScaleDone(was: seq<nat>, b: nat, now: seq<nat>, carry: nat)
    requires Scaling(was, b, now, WIDTH, carry)
    ensures Num(now) == Num(was) * b % Modulus()
  {
    assert was[..WIDTH] == was;
    LimbsBound(now);
    assert Num(was) + (b - 1) * Num(was) == Num(was) * b;
    ModIs(Num(now), carry, Num(was) * b, Modulus());
  }

  /** Row `j`, after `i` columns: `x` times the low limbs of `b` has been added at `j`. */
  ghost predicate Row(start: seq<nat>, x: nat, b: seq<nat>, j: nat, now: seq<nat>, i: nat, carry: nat) {
    && Limbs(start) && Limbs(b) && Limbs(now) && i + j <= WIDTH && now[i + j..] == start[i + j..]
    && Num(now) + carry * Pow(LIMB, i + j) == Num(start) + x * Num(b[..i]) * Pow(LIMB, j)
  }

  lemma RowStart(start: seq<nat>, x: nat, b: seq<nat>, j: nat)
    requires Limbs(start) && Limbs(b) && j <= WIDTH
    ensures Row(start, x, b, j, start, 0, 0)
  {
  }

  lemma {:induction false} RowStep(start: seq<nat>, x: nat, b: seq<nat>, j: nat, now: seq<nat>, i: nat, carry: nat,
                                   n: nat)
    requires Row(start, x, b, j, now, i, carry) && i + j < WIDTH && n == carry + now[i + j] + x * b[i]
    ensures Row(start, x, b, j, now[i + j := n % LIMB], i + 1, n / LIMB)
  {
    var k := i + j;
    LimbStep(now, k, n);
    NumNext(b, i);
    PowAdd(LIMB, i, j);
    assert now[k := n % LIMB][k + 1..] == now[k..][1..] == start[k + 1..];
    RowArithmetic(carry, x, b[i], Pow(LIMB, i), Pow(LIMB, j), Num(b[..i]));
  }

  lemma RowArithmetic(carry: nat, x: nat, y: nat, p: nat, q: nat, w: nat)
    ensures (carry + x * y) * (p * q) == carry * (p * q) + x * (y * p) * q
    ensures x * (w + y * p) * q == x * w * q + x * (y * p) * q
  {
    assert x * y * (p * q) == x * (y * p) * q;
    assert x * (w + y * p) == x * w + x * (y * p);
    Distribute(x * w, x * (y * p), q);
  }

  /** The rows so far amount, modulo 2^256, to the low limbs of `a` times `b`. */
  ghost predicate Product(a: seq<nat>, b: seq<nat>, acc: seq<nat>, j: nat) {
    Limbs(a) && Limbs(b) && Limbs(acc) && j <= WIDTH && Num(acc) == Num(a[..j]) * Num(b) % Modulus()
  }

  lemma {:induction false} RowDone(a: seq<nat>, b: seq<nat>, start: seq<nat>, j: nat, now: seq<nat>, carry: nat)
    requires Product(a, b, start, j) && j < WIDTH && Row(start, a[j], b, j, now, WIDTH - j, carry)
    ensures Product(a, b, now, j + 1)
  {
    hide Num, Pow;
    var m, x, p, q := Modulus(), a[j], Pow(LIMB, j), Pow(LIMB, WIDTH - j);
    var lo, hi := Num(b[..WIDTH - j]), Num(b[WIDTH - j..]);
    NumSplit(b, WIDTH - j);
    NumNext(a, j);
    PowAdd(LIMB, WIDTH - j, j);
    LimbsBound(now);
    assert WIDTH - j + j == WIDTH;
    RowCloses(m, x, p, q, lo, hi, carry, Num(now), Num(start), Num(a[..j]), Num(b));
  }

  lemma RowCloses(m: nat, x: nat, p: nat, q: nat, lo: nat, hi: nat, carry: nat, now: nat, start: nat, w: nat, b: nat)
    requires m > 0 && m == q * p && b == lo + hi * q && start == w * b % m && now < m
             && now + carry * m == start + x * lo * p
    ensures now == (w + x * p) * b % m
  {
    var t := w * b / m;
    DivisionIs(w * b, m);
    ProductArithmetic(m, x, p, q, lo, hi, carry, t, now, start, w, b);
    ModIs(now, carry + t + x * hi, (w + x * p) * b, m);
  }

  lemma ProductArithmetic(m: nat, x: nat, p: nat, q: nat, lo: nat, hi: nat, carry: nat, t: nat, now: nat, start: nat,
                          w: nat, b: nat)
    requires m == q * p && b == lo + hi * q && w * b == t * m + start && now + carry * m == start + x * lo * p
    ensures now + (carry + t + x * hi) * m == (w + x * p) * b
  {
    Distribute(w, x * p, b);
    assert x * p * b == x * p * lo + x * p * (hi * q);
    assert x * p * (hi * q) == x * hi * (q * p);
    assert x * p * lo == x * lo * p;
    assert (carry + t + x * hi) * m == carry * m + t * m + x * hi * m;
  }

  /** `operator*=`: the rows are added up in a separate number. */
  method MulAssign(a: array<nat>, b: array<nat>)
    requires Limbs(a[..]) && Limbs(b[..])
    modifies a
    ensures Limbs(a[..]) && Num(a[..]) == old(Num(a[..])) * old(Num(b[..])) % Modulus()
  {
    hide Num, Product;
    ghost var x, y := a[..], b[..];
    var acc := new nat[WIDTH](_ => 0);
    ProductStart(x, y, acc[..]);
    for j := 0 to WIDTH
      invariant Product(x, y, acc[..], j) && Limbs(acc[..]) && a[..] == x && b[..] == y
    {
      AddRow(acc, a[j], b, j, a[..]);
    }
    assert x[..WIDTH] == x;
    Copy(acc, a);
    ProductDone(x, y, a[..]);
  }

  lemma ProductStart(a: seq<nat>, b: seq<nat>, zero: seq<nat>)
    requires Limbs(a) && Limbs(b) && |zero| == WIDTH && forall i | 0 <= i < WIDTH :: zero[i] == 0
    ensures Product(a, b, zero, 0)
  {
    NumZeros(zero);
    NumEmpty(a);
    ModIs(0, 0, 0, Modulus());
  }

  lemma ProductDone(a: seq<nat>, b: seq<nat>, acc: seq<nat>)
    requires Product(a, b, acc, WIDTH)
    ensures Num(acc) == Num(a) * Num(b) % Modulus()
  {
    assert a[..WIDTH] == a;
  }

  method AddRow(acc: array<nat>, x: nat, b: array<nat>, j: nat, ghost a: seq<nat>)
    requires acc != b && j < WIDTH && Product(a, b[..], acc[..], j) && x == a[j]
    modifies acc
    ensures Product(a, b[..], acc[..], j + 1) && Limbs(acc[..])
  {
    hide Num, Row;
    ghost var start, y := acc[..], b[..];
    assert x < LIMB;
    RowStart(start, x, y, j);
    var carry: nat := 0;
    var i: nat := 0;
    while i + j < WIDTH
      invariant i + j <= WIDTH && carry < LIMB && Row(start, x, y, j, acc[..], i, carry) && Limbs(acc[..])
    {
      assert acc[..][i + j] < LIMB && b[..][i] < LIMB;
      NoOverflow(carry, acc[i + j], x, b[i]);
      var n: nat := carry + acc[i + j] + x * b[i];
      assert n < LIMIT64;
      RowStep(start, x, y, j, acc[..], i, carry, n);
      Store(acc, i + j, n);
      carry := n / LIMB;
      i := i + 1;
    }
    RowDone(a, y, start, j, acc[..], carry);
  }

  method Copy(from: array<nat>, to: array<nat>)
    requires from.Length == to.Length == WIDTH
    modifies to
    ensures to[..] == old(from[..])
  {
    ghost var was := from[..];
    for i := 0 to WIDTH
      invariant to[..i] == was[..i] && from[..] == was
    {
      to[i] := from[i];
    }
  }

  // ------------------------------------------------------------------------ comparison

  lemma {:induction false} NumLess(a: seq<nat>, b: seq<nat>, i: nat)
    requires |a| == |b| && i < |a| && a[i + 1..] == b[i + 1..] && a[i] < b[i]
    requires forall j | 0 <= j < |a| :: a[j] < LIMB
    ensures Num(a) < Num(b)
  {
    NumSplit(a, i + 1);
    NumSplit(b, i + 1);
    NumNext(a, i);
    NumNext(b, i);
    NumBound(a[..i]);
    Multiply(a[i] + 1, b[i], Pow(LIMB, i), Pow(LIMB, i));
    Distribute(a[i], 1, Pow(LIMB, i));
  }

  method CompareTo(a: array<nat>, b: array<nat>) returns (r: int)
    requires Limbs(a[..]) && Limbs(b[..])
    ensures r == if Num(a[..]) < Num(b[..]) then -1 else if Num(a[..]) > Num(b[..]) then 1 else 0
  {
    hide Num;
    var i := WIDTH - 1;
    while i >= 0
      invariant -1 <= i < WIDTH && a[i + 1..] == b[i + 1..]
    {
      if a[i] < b[i] {
        NumLess(a[..], b[..], i);
        return -1;
      }
      if a[i] > b[i] {
        NumLess(b[..], a[..], i);
        return 1;
      }
      i := i - 1;
    }
    assert a[..] == b[..];
    return 0;
  }
}
