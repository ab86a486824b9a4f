/** Compact targets: a 23-bit mantissa, a sign and a byte exponent; and the proof a target stands for. */
module ArithCompact {
  import opened Radix
  import opened Arith256
  import opened ArithShift
  import opened ArithDivide

  const WORD_LIMIT := 0x80_0000

  // --------------------------------------------------------------------- small numbers

  lemma {:induction false} NumLow(s: seq<nat>)
    requires Limbs(s)
    ensures Num(s) == s[0] + s[1] * LIMB + Num(s[2..]) * Pow(LIMB, 2)
    ensures Num(s[2..]) == 0 <==> forall i | 2 <= i < WIDTH :: s[i] == 0
  {
    NumSplit(s, 2);
    assert s[..2][..1] == s[..1] && s[..1][..0] == [];
    assert Num(s[..1]) == s[0] * Pow(LIMB, 0);
    assert Pow(LIMB, 1) == LIMB;
    assert Num(s[..2]) == s[0] + s[1] * LIMB;
    if forall i | 2 <= i < WIDTH :: s[i] == 0 {
      NumZeros(s[2..]);
    } else {
      var i :| 2 <= i < WIDTH && s[i] != 0;
      NumPositive(s[2..], i - 2);
    }
  }

  lemma {:induction false} NumPositive(s: seq<nat>, i: nat)
    requires i < |s| && s[i] > 0
    ensures Num(s) > 0
    decreases |s|
  {
    var n := |s| - 1;
    if i < n {
      NumPositive(s[..n], i);
    } else {
      PowPositive(LIMB, n);
      Multiply(1, s[n], 1, Pow(LIMB, n));
    }
  }

  method EqualTo(pn: array<nat>, b: nat) returns (r: bool)
    requires Limbs(pn[..]) && b < LIMIT64
    ensures r == (Num(pn[..]) == b)
  {
    hide Num, Pow;
    NumLow(pn[..]);
    SquareIs();
    var i := WIDTH - 1;
    while i >= 2
      invariant 1 <= i < WIDTH && forall j | i < j < WIDTH :: pn[..][j] == 0
    {
      if pn[i] != 0 {
        TooLarge(Num(pn[..][2..]));
        return false;
      }
      i := i - 1;
    }
    assert pn[..][0] < LIMB;
    return pn[1] == b / LIMB && pn[0] == b % LIMB;
  }

  lemma SquareIs()
    ensures Pow(LIMB, 2) == LIMIT64
  {
  }

  lemma TooLarge(h: nat)
    requires h > 0
    ensures h * LIMIT64 >= LIMIT64
  {
  }

  /** A small number in limbs. */
  method FromWord(w: nat) returns (pn: array<nat>)
    requires w < LIMIT64
    ensures fresh(pn) && Limbs(pn[..]) && Num(pn[..]) == w
  {
    hide Num, Pow;
    pn := new nat[WIDTH](_ => 0);
    pn[0] := w % LIMB;
    pn[1] := w / LIMB;
    NumLow(pn[..]);
  }

  method GetLow64(pn: array<nat>) returns (w: nat)
    requires Limbs(pn[..])
    ensures w < LIMIT64 && (Num(pn[..]) < LIMIT64 ==> w == Num(pn[..]))
  {
    hide Num, Pow;
    NumLow(pn[..]);
    SquareIs();
    assert pn[..][0] < LIMB && pn[..][1] < LIMB;
    w := pn[0] + pn[1] * LIMB;
    if Num(pn[..][2..]) > 0 { TooLarge(Num(pn[..][2..])); }
  }

  // --------------------------------------------------------------- reading compact form

  function Size(c: nat): nat { c / 0x100_0000 }
  function Word(c: nat): nat { c % WORD_LIMIT }
  predicate Signed(c: nat) { c / WORD_LIMIT % 2 == 1 }

  function Bytes(n: nat): (p: nat)
    ensures p > 0
  {
    PowPositive(256, n);
    Pow(256, n)
  }

  function Divided(x: nat, b: nat): nat
    requires b > 0
  {
    x / b
  }

  function Mantissa(c: nat): nat { if Size(c) <= 3 then Divided(Word(c), Bytes(3 - Size(c))) else Word(c) }
  function Exponent(c: nat): nat { if Size(c) <= 3 then 0 else Size(c) - 3 }

  /** The number a compact form stands for, sign apart. */
  function Expanded(c: nat): nat { Mantissa(c) * Bytes(Exponent(c)) }

  lemma {:induction false} BytesAreBits(n: nat)
    ensures Bytes(n) == Pow(2, 8 * n)
  {
    assert Pow(2, 8) == 256;
    PowPow(2, 8, n);
  }

  lemma MantissaSmall(c: nat)
    ensures Mantissa(c) < WORD_LIMIT
  {
    if Size(c) <= 3 {
      var b := Bytes(3 - Size(c));
      hide Bytes;
      DivisionIs(Word(c), b);
      Multiply(Word(c) / b, Word(c) / b, 1, b);
    }
  }

  /** The flag as computed, and what it means. */
  lemma OverflowIs(c: nat)
    ensures (Mantissa(c) != 0
            && (Size(c) > 34 || (Mantissa(c) > 0xff && Size(c) > 33) || (Mantissa(c) > 0xffff && Size(c) > 32)))
       <==> Expanded(c) >= Bytes(32)
  {
    MantissaSmall(c);
    var m, e := Mantissa(c), Exponent(c);
    hide Mantissa, Bytes;
    if e >= 32 {
      BytesGrow(32, e);
      if m > 0 { Multiply(1, m, Bytes(32), Bytes(e)); }
    } else if e == 31 {
      BytesStep(31);
      Compared(m, 256, Bytes(31));
    } else if e == 30 {
      BytesStep(30);
      BytesStep(31);
      Compared(m, 0x1_0000, Bytes(30));
    } else {
      BytesStep(29);
      BytesStep(30);
      BytesStep(31);
      BytesGrow(e, 29);
      Multiply(m, 0xff_ffff, Bytes(e), Bytes(29));
    }
  }

  lemma BytesStep(n: nat)
    ensures Bytes(n + 1) == Bytes(n) * 256
  {
  }

  lemma BytesGrow(m: nat, n: nat)
    requires m <= n
    ensures Bytes(m) <= Bytes(n)
  {
    PowGrows(256, m, n);
  }

  lemma Compared(m: nat, k: nat, b: nat)
    requires b > 0
    ensures m >= k <==> m * b >= k * b
  {
    if m >= k { Multiply(k, m, b, b); } else { Multiply(m + 1, k, b, b); Distribute(m, 1, b); }
  }

  method SetCompact(c: nat) returns (pn: array<nat>, negative: bool, overflow: bool)
    requires c < LIMB
    ensures fresh(pn) && Limbs(pn[..]) && Num(pn[..]) == Expanded(c) % Modulus()
    ensures negative == (Mantissa(c) != 0 && Signed(c))
    ensures overflow == (Expanded(c) >= Modulus())
  {
    hide Num, Pow, Bytes, Modulus;
    var nSize := c / 0x100_0000;
    var nWord := c % WORD_LIMIT;
    OverflowIs(c);
    MantissaSmall(c);
    ModulusBytes();
    if nSize <= 3 {
      nWord := nWord / Bytes(3 - nSize);
      pn := FromWord(nWord);
      NoExponent(c);
    } else {
      pn := FromWord(nWord);
      BytesAreBits(nSize - 3);
      ShiftLeft(pn, 8 * (nSize - 3));
    }
    negative := nWord != 0 && c / WORD_LIMIT % 2 == 1;
    overflow := nWord != 0 && (nSize > 34 || (nWord > 0xff && nSize > 33) || (nWord > 0xffff && nSize > 32));
  }

  lemma ModulusBytes()
    ensures Modulus() == Bytes(32)
  {
    ModulusIs();
    BytesAreBits(32);
  }

  lemma NoExponent(c: nat)
    requires Size(c) <= 3
    ensures Expanded(c) == Mantissa(c) && Mantissa(c) % Modulus() == Mantissa(c)
  {
    MantissaSmall(c);
    ModulusBytes();
    BytesGrow(3, 32);
    assert Bytes(3) == 0x100_0000;
    assert Bytes(0) == 1;
    hide Mantissa, Bytes, Modulus;
    ModIs(Mantissa(c), 0, Mantissa(c), Modulus());
  }

  // --------------------------------------------------------------- writing compact form

  function ByteLength(v: nat): nat { if v == 0 then 0 else 1 + ByteLength(v / 256) }

  lemma {:induction false} ByteBounds(v: nat)
    ensures v > 0 ==> ByteLength(v) > 0 && Bytes(ByteLength(v) - 1) <= v < Bytes(ByteLength(v))
    decreases v
  {
    if v >= 256 {
      ByteBounds(v / 256);
      var n := ByteLength(v / 256);
      BytesStep(n);
      BytesStep(n - 1);
    } else if v > 0 {
      assert v / 256 == 0 && Bytes(0) == 1 && Bytes(1) == 256;
    }
  }

  lemma PowLess(a: nat, b: nat)
    requires Pow(2, a) < Pow(2, b)
    ensures a < b
  {
    if a >= b { PowGrows(2, b, a); }
  }

  lemma LengthInBytes(v: nat, n: nat)
    requires BitLength(v, n)
    ensures (n + 7) / 8 == ByteLength(v)
  {
    if v > 0 {
      ByteBounds(v);
      var k := ByteLength(v);
      BytesAreBits(k - 1);
      BytesAreBits(k);
      PowLess(8 * (k - 1), n);
      PowLess(n - 1, 8 * k);
    }
  }

  /** The three highest bytes. */
  function Leading(v: nat): nat {
    var n := ByteLength(v);
    if n <= 3 then v * Bytes(3 - n) else Divided(v, Bytes(n - 3))
  }

  /** Size and mantissa; a mantissa whose highest bit would be the sign gives up its last byte. */
  function Scaled(v: nat): (nat, nat) {
    var n, m := ByteLength(v), Leading(v);
    if m >= WORD_LIMIT then (n + 1, Divided(m, 256)) else (n, m)
  }

  function Compact(v: nat, negative: bool): nat {
    var (n, m) := Scaled(v);
    n * 0x100_0000 + m + if negative && m != 0 then WORD_LIMIT else 0
  }

  lemma LeadingSmall(v: nat)
    ensures Leading(v) < 0x100_0000
  {
    ByteBounds(v);
    var n := ByteLength(v);
    assert Bytes(3) == 0x100_0000 by { BytesStep(0); BytesStep(1); BytesStep(2); BytesZero(); }
    if n <= 3 {
      BytesAdd(n, 3 - n);
      hide Bytes;
      if v > 0 { SmallProduct(v, Bytes(n), Bytes(3 - n)); }
    } else {
      BytesAdd(3, n - 3);
      hide Bytes;
      LeadingQuotient(v, Bytes(n - 3), Bytes(3));
    }
  }

  lemma BytesZero()
    ensures Bytes(0) == 1
  {
  }

  lemma LeadingQuotient(v: nat, b: nat, m: nat)
    requires b > 0 && v < m * b
    ensures Divided(v, b) < m
  {
    DivisionIs(v, b);
    if v / b >= m { Multiply(m, v / b, b, b); }
  }

  lemma {:induction false} BytesAdd(m: nat, n: nat)
    ensures Bytes(m + n) == Bytes(m) * Bytes(n)
  {
    PowAdd(256, m, n);
  }

  lemma LengthFits(v: nat)
    requires v < Modulus()
    ensures ByteLength(v) <= 32
  {
    ByteBounds(v);
    ModulusBytes();
    if ByteLength(v) > 32 { BytesGrow(32, ByteLength(v) - 1); }
  }

  /** The highest three bytes of a number, by shifts. */
  method LeadingBytes(pn: array<nat>, nSize: nat) returns (m: nat)
    requires Limbs(pn[..]) && nSize == ByteLength(Num(pn[..]))
    ensures m == Leading(Num(pn[..]))
  {
    hide Num, Pow, Bytes, Modulus, ByteLength;
    ghost var v := Num(pn[..]);
    LeadingSmall(v);
    if nSize <= 3 {
      SmallValue(v);
      var low := GetLow64(pn);
      m := Truncated(low * Bytes(3 - nSize));
    } else {
      var bn := NewCopy(pn);
      BytesAreBits(nSize - 3);
      ShiftRight(bn, 8 * (nSize - 3));
      var low := GetLow64(bn);
      m := Truncated(low);
    }
  }

  /** Conversion to 32 bits. */
  function Truncated(x: nat): (r: nat)
    ensures x < LIMB ==> r == x
  {
    x % LIMB
  }

  lemma SmallValue(v: nat)
    requires ByteLength(v) <= 3
    ensures v < LIMIT64
  {
    ByteBounds(v);
    BytesGrow(ByteLength(v), 3);
    BytesStep(0);
    BytesStep(1);
    BytesStep(2);
    BytesZero();
  }

  method GetCompact(pn: array<nat>, negative: bool) returns (c: nat)
    requires Limbs(pn[..])
    ensures c == Compact(Num(pn[..]), negative) && c < LIMB
  {
    hide Num, Pow, Bytes, Modulus, ByteLength, BitOr, Leading;
    ghost var v := Num(pn[..]);
    LimbsBound(pn[..]);
    LengthFits(v);
    LeadingSmall(v);
    var bits := Bits(pn);
    LengthInBytes(v, bits);
    var nSize := (bits + 7) / 8;
    var nCompact := LeadingBytes(pn, nSize);
    if nCompact / WORD_LIMIT % 2 == 1 {
      nCompact := nCompact / 256;
      nSize := nSize + 1;
    }
    assert nCompact < WORD_LIMIT && nSize < 256;
    c := WithSize(nCompact, nSize, negative);
  }

  /** Puts the size and the sign in. */
  method WithSize(m: nat, nSize: nat, negative: bool) returns (c: nat)
    requires m < WORD_LIMIT && nSize < 256
    ensures c == nSize * 0x100_0000 + m + (if negative && m != 0 then WORD_LIMIT else 0)
  {
    hide BitOr;
    TopPowers();
    OrDisjoint(m, nSize, 24);
    c := BitOr(m, nSize * 0x100_0000);
    if negative && c % WORD_LIMIT != 0 {
      SignBit(m, nSize);
      c := BitOr(c, WORD_LIMIT);
    }
  }

  lemma TopPowers()
    ensures Pow(2, 24) == 0x100_0000 && Pow(2, 23) == WORD_LIMIT
  {
    assert Pow(2, 8) == 256 && Pow(2, 7) == 128;
    PowAdd(2, 8, 8);
    PowAdd(2, 16, 8);
    PowAdd(2, 16, 7);
  }

  lemma SignBit(m: nat, nSize: nat)
    requires m < WORD_LIMIT
    ensures BitOr(nSize * 0x100_0000 + m, WORD_LIMIT) == nSize * 0x100_0000 + m + WORD_LIMIT
  {
    hide BitOr;
    TopPowers();
    var rest := nSize * 2;
    OrSplit(m, rest, 1, 23);
  }

  /** Or works on high and low parts separately. */
  lemma {:induction false} OrSplit(x: nat, y: nat, z: nat, s: nat)
    requires x < Pow(2, s) && y % 2 == 0 && z == 1
    ensures BitOr(y * Pow(2, s) + x, z * Pow(2, s)) == y * Pow(2, s) + x + z * Pow(2, s)
    decreases s
  {
    if s == 0 {
      assert BitOr(y + 0, 1) == 2 * BitOr(y / 2, 0) + 1;
      OrSymmetric(y / 2, 0);
      OrZero(y / 2);
    } else {
      var p := Pow(2, s - 1);
      assert Pow(2, s) == p * 2;
      OrSplit(x / 2, y, z, s - 1);
      assert y * (p * 2) == 2 * (y * p) by { Associate(y, p, 2); }
      assert (2 * (y * p) + x) / 2 == y * p + x / 2;
    }
  }

  // ------------------------------------------------------------------------ round trip

  /** Writing a number and reading it back raises no flag and clears only its low bytes. */
  lemma CompactRoundTrip(v: nat)
    requires v < Modulus()
    ensures var c := Compact(v, false);
            var b := Bytes(Exponent(c));
            && c < LIMB && !(Mantissa(c) != 0 && Signed(c)) && Expanded(c) < Modulus()
            && Expanded(c) == Divided(v, b) * b
            && Exponent(c) == if Scaled(v).0 <= 3 then 0 else Scaled(v).0 - 3
  {
    hide Scaled, Bytes, Modulus, Compact, Size, Word, Signed, Divided;
    CompactFields(v);
    BytesZero();
    ScaledValue(v);
    BelowModulus(v, Bytes(Exponent(Compact(v, false))));
  }

  /** Size and mantissa come back out of the compact form. */
  lemma CompactFields(v: nat)
    requires v < Modulus()
    ensures var c := Compact(v, false); c < LIMB && Size(c) == Scaled(v).0 && Word(c) == Scaled(v).1 && !Signed(c)
  {
    hide Bytes, Modulus, ByteLength, Leading;
    LengthFits(v);
    LeadingSmall(v);
    FieldsOf(Scaled(v).0, Scaled(v).1);
  }

  lemma FieldsOf(n: nat, m: nat)
    requires m < WORD_LIMIT && n < 256
    ensures var c := n * 0x100_0000 + m; c < LIMB && Size(c) == n && Word(c) == m && !Signed(c)
  {
  }

  lemma BelowModulus(v: nat, b: nat)
    requires b > 0
    ensures Divided(v, b) * b <= v
  {
    DivisionIs(v, b);
  }

  /** The scaled mantissa is the number without its low bytes. */
  lemma ScaledValue(v: nat)
    ensures var (n, m) := Scaled(v);
            if n <= 3 then Divided(m, Bytes(3 - n)) == v == Divided(v, Bytes(0)) * Bytes(0)
            else m == Divided(v, Bytes(n - 3))
  {
    hide ByteLength, Bytes;
    BytesZero();
    var n, m := ByteLength(v), Leading(v);
    if n <= 3 {
      DivIs(v, 0, m, Bytes(3 - n));
      if m >= WORD_LIMIT && n == 3 {
        BytesStep(0);
      } else if m >= WORD_LIMIT {
        BytesStep(2 - n);
        ByteDropped(v, Bytes(2 - n));
      }
    } else {
      BytesStep(n - 3);
      TwoDivisions(v, Bytes(n - 3));
    }
  }

  lemma ByteDropped(v: nat, b: nat)
    requires b > 0
    ensures Divided(Divided(v * (b * 256), 256), b) == v
  {
    Associate(v, b, 256);
    assert v * b * 256 / 256 == v * b;
    DivIs(v, 0, v * b, b);
  }

  lemma TwoDivisions(v: nat, b: nat)
    requires b > 0
    ensures Divided(Divided(v, b), 256) == Divided(v, b * 256)
  {
    var q, r := v / b, v % b;
    DivisionIs(v, b);
    DivisionIs(q, 256);
    var t, u := q / 256, q % 256;
    assert v == t * (b * 256) + (u * b + r) by {
      Distribute(t * 256, u, b);
      assert t * 256 * b == t * (b * 256);
    }
    Multiply(u + 1, 256, b, b);
    Distribute(u, 1, b);
    DivIs(t, u * b + r, v, b * 256);
  }

  // ------------------------------------------------------------------------ block proof

  predicate ValidTarget(c: nat) { !(Mantissa(c) != 0 && Signed(c)) && Expanded(c) > 0 }

  lemma ThreeBytes()
    ensures Bytes(3) == 0x100_0000
  {
    hide Bytes;
    BytesZero();
    BytesStep(0);
    BytesStep(1);
    BytesStep(2);
  }

  lemma EvenBytes(m: nat, e: nat)
    requires e > 0
    ensures m * Bytes(e) % 2 == 0
  {
    hide Bytes;
    BytesStep(e - 1);
    Associate(m, Bytes(e - 1), 256);
  }

  /** A target read from compact form is never 2^256 - 1, so adding one does not wrap. */
  lemma TargetBelow(c: nat)
    requires Expanded(c) < Modulus()
    ensures Expanded(c) + 1 < Modulus()
  {
    hide Mantissa, Exponent, Bytes, Modulus;
    MantissaSmall(c);
    ModulusBytes();
    if Exponent(c) == 0 {
      BytesZero();
      ThreeBytes();
      BytesGrow(3, 32);
    } else {
      EvenBytes(Mantissa(c), Exponent(c));
      EvenBytes(1, 32);
    }
  }

  lemma ProofArithmetic(m: nat, t: nat)
    requires 0 < t && t + 1 < m
    ensures (m - 1 - t) / (t + 1) + 1 == m / (t + 1) && m / (t + 1) < m
  {
    var d := t + 1;
    var q, r := (m - d) / d, (m - d) % d;
    DivisionIs(m - d, d);
    Distribute(q, 1, d);
    DivIs(q + 1, r, m, d);
    Multiply(q + 1, q + 1, 2, d);
  }

  method GetBlockProof(bits: nat) returns (proof: array<nat>)
    requires bits < LIMB
    ensures Limbs(proof[..])
    ensures Num(proof[..]) == if ValidTarget(bits) && Expanded(bits) < Modulus() then Modulus() / (Expanded(bits) + 1)
            else 0
  {
    hide Num, Pow, Modulus, Mantissa, Bytes, Expanded;
    var target, negative, overflow := SetCompact(bits);
    ghost var t := Expanded(bits);
    if !overflow { ModIs(t, 0, t, Modulus()); }
    var zero := EqualTo(target, 0);
    if negative || overflow || zero {
      proof := FromWord(0);
      return;
    }
    TargetBelow(bits);
    ProofArithmetic(Modulus(), t);
    proof := Complement(target);
    var one := FromWord(1);
    AddAssign(target, one);
    ModIs(t + 1, 0, t + 1, Modulus());
    var ok := DivAssign(proof, target);
    assert ok;
    AddAssign(proof, one);
    ModIs(Modulus() / (t + 1), 0, Modulus() / (t + 1), Modulus());
  }
}
