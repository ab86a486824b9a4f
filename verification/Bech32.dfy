/** Bech32 and Bech32m strings, as in the sections "Bech32" and "Checksum" of BIP 173 and "Bech32m" of BIP 350. */
module Bech32 {
  import opened Collections

  /** A 5-bit symbol. */
  type Symbol = v: bv32 | v < 32

  /** A character of a byte string. */
  type Byte = c: char | (c as int) < 256 witness 'a'

  datatype Encoding = BECH32 | BECH32M

  function EncodingConstant(e: Encoding): bv32 { if e.BECH32? then 1 else 0x2bc830a3 }

  // ------------------------------------------------------------------- the checksum

  function Xor(a: bv32, b: bv32): bv32 { a ^ b }

  function Pick(on: bool, k: bv32): bv32 { if on then k else 0 }

  function Feedback(c0: bv32): bv32 {
    Xor(Pick(c0 & 1 != 0, 0x3b6a57b2),
    Xor(Pick(c0 & 2 != 0, 0x26508e6d),
    Xor(Pick(c0 & 4 != 0, 0x1ea119fa),
    Xor(Pick(c0 & 8 != 0, 0x3d4233dd),
        Pick(c0 & 16 != 0, 0x2a1462b3)))))
  }

  function Shifted(c: bv32): bv32 { (c & 0x1ffffff) << 5 }

  /** One more coefficient: multiply by x, add `v`, reduce. */
  function Step(c: bv32, v: bv32): bv32 { Xor(Xor(Shifted(c), v), Feedback(c >> 25)) }

  function Fold(c: bv32, vs: seq<Symbol>): bv32 {
    if vs == [] then c else Step(Fold(c, vs[..|vs| - 1]), vs[|vs| - 1])
  }

  function Checksum(vs: seq<Symbol>): bv32 { Fold(1, vs) }

  method PolyMod(vs: seq<Symbol>) returns (c: bv32)
    ensures c == Checksum(vs)
  {
    hide Step;
    c := 1;
    for i := 0 to |vs|
      invariant c == Fold(1, vs[..i])
    {
      assert vs[..i + 1][..i] == vs[..i];
      c := Step(c, vs[i]);
    }
    assert vs[..|vs|] == vs;
  }

  // -------------------------------------------------- the checksum is linear over GF(2)

  lemma BitsXor(x: bv32, y: bv32)
    ensures (Xor(x, y) & 1 != 0) == ((x & 1 != 0) != (y & 1 != 0))
    ensures (Xor(x, y) & 2 != 0) == ((x & 2 != 0) != (y & 2 != 0))
    ensures (Xor(x, y) & 4 != 0) == ((x & 4 != 0) != (y & 4 != 0))
    ensures (Xor(x, y) & 8 != 0) == ((x & 8 != 0) != (y & 8 != 0))
    ensures (Xor(x, y) & 16 != 0) == ((x & 16 != 0) != (y & 16 != 0))
  {
  }

  lemma XorUnit(k: bv32)
    ensures Xor(k, k) == 0 && Xor(k, 0) == k && Xor(0, k) == k
  {
  }

  lemma XorAssociates(a: bv32, b: bv32, c: bv32)
    ensures Xor(Xor(a, b), c) == Xor(a, Xor(b, c)) && Xor(b, c) == Xor(c, b)
  {
  }

  lemma XorSwap(a: bv32, b: bv32, c: bv32, d: bv32)
    ensures Xor(Xor(a, b), Xor(c, d)) == Xor(Xor(a, c), Xor(b, d))
  {
    hide Xor;
    XorAssociates(a, b, Xor(c, d));
    XorAssociates(a, b, c);
    XorAssociates(b, c, d);
    XorAssociates(c, b, d);
    XorAssociates(a, c, Xor(b, d));
  }

  lemma PickXor(a: bool, b: bool, k: bv32)
    ensures Pick(a != b, k) == Xor(Pick(a, k), Pick(b, k))
  {
    hide Xor;
    XorUnit(k);
    XorUnit(0);
  }

  lemma FeedbackXor(x: bv32, y: bv32)
    ensures Feedback(Xor(x, y)) == Xor(Feedback(x), Feedback(y))
  {
    BitsXor(x, y);
    FeedbackBits(x & 1 != 0, x & 2 != 0, x & 4 != 0, x & 8 != 0, x & 16 != 0,
                 y & 1 != 0, y & 2 != 0, y & 4 != 0, y & 8 != 0, y & 16 != 0);
    hide Xor, Pick;
  }

  lemma FeedbackBits(a: bool, b: bool, c: bool, d: bool, e: bool, a': bool, b': bool, c': bool, d': bool, e': bool)
    ensures Xor(Pick(a != a', 0x3b6a57b2), Xor(Pick(b != b', 0x26508e6d), Xor(Pick(c != c', 0x1ea119fa),
            Xor(Pick(d != d', 0x3d4233dd), Pick(e != e', 0x2a1462b3)))))
         == Xor(Xor(Pick(a, 0x3b6a57b2), Xor(Pick(b, 0x26508e6d), Xor(Pick(c, 0x1ea119fa),
                Xor(Pick(d, 0x3d4233dd), Pick(e, 0x2a1462b3))))),
                Xor(Pick(a', 0x3b6a57b2), Xor(Pick(b', 0x26508e6d), Xor(Pick(c', 0x1ea119fa),
                Xor(Pick(d', 0x3d4233dd), Pick(e', 0x2a1462b3))))))
  {
    PickXor(a, a', 0x3b6a57b2);
    PickXor(b, b', 0x26508e6d);
    PickXor(c, c', 0x1ea119fa);
    PickXor(d, d', 0x3d4233dd);
    PickXor(e, e', 0x2a1462b3);
    hide Pick, Xor;
    var a1, b1, c1, d1, e1 := Pick(a, 0x3b6a57b2), Pick(b, 0x26508e6d), Pick(c, 0x1ea119fa), Pick(d, 0x3d4233dd),
        Pick(e, 0x2a1462b3);
    var a2, b2, c2, d2, e2 := Pick(a', 0x3b6a57b2), Pick(b', 0x26508e6d), Pick(c', 0x1ea119fa), Pick(d', 0x3d4233dd),
        Pick(e', 0x2a1462b3);
    XorSwap(d1, d2, e1, e2);
    XorSwap(c1, c2, Xor(d1, e1), Xor(d2, e2));
    XorSwap(b1, b2, Xor(c1, Xor(d1, e1)), Xor(c2, Xor(d2, e2)));
    XorSwap(a1, a2, Xor(b1, Xor(c1, Xor(d1, e1))), Xor(b2, Xor(c2, Xor(d2, e2))));
  }

  lemma ShiftXor(c: bv32, d: bv32)
    ensures Xor(c, d) >> 25 == Xor(c >> 25, d >> 25) && Shifted(Xor(c, d)) == Xor(Shifted(c), Shifted(d))
  {
  }

  lemma StepXor(c: bv32, d: bv32, v: bv32, w: bv32)
    ensures Step(Xor(c, d), Xor(v, w)) == Xor(Step(c, v), Step(d, w))
  {
    hide Feedback, Shifted, Xor;
    ShiftXor(c, d);
    FeedbackXor(c >> 25, d >> 25);
    XorSwap(Shifted(c), Shifted(d), v, w);
    XorSwap(Xor(Shifted(c), v), Xor(Shifted(d), w), Feedback(c >> 25), Feedback(d >> 25));
  }

  lemma XorSymbols(v: bv32, w: bv32)
    requires v < 32 && w < 32
    ensures Xor(v, w) < 32
  {
  }

  lemma XorZero(a: bv32, b: bv32)
    ensures Xor(a, b) == 0 <==> a == b
  {
  }

  function Difference(v: Symbol, w: Symbol): Symbol {
    XorSymbols(v, w);
    Xor(v, w)
  }

  function Differences(vs: seq<Symbol>, ws: seq<Symbol>): (ds: seq<Symbol>)
    requires |vs| == |ws|
    ensures |ds| == |vs|
  {
    seq(|vs|, i requires 0 <= i < |vs| => Difference(vs[i], ws[i]))
  }

  lemma {:induction false} FoldXor(c: bv32, d: bv32, vs: seq<Symbol>, ws: seq<Symbol>)
    requires |vs| == |ws|
    ensures Fold(Xor(c, d), Differences(vs, ws)) == Xor(Fold(c, vs), Fold(d, ws))
    decreases |vs|
  {
    hide Step, Xor;
    if vs != [] {
      var n := |vs| - 1;
      FoldXor(c, d, vs[..n], ws[..n]);
      assert Differences(vs, ws)[..n] == Differences(vs[..n], ws[..n]);
      StepXor(Fold(c, vs[..n]), Fold(d, ws[..n]), vs[n], ws[n]);
    }
  }

  lemma {:induction false} FoldConcat(c: bv32, vs: seq<Symbol>, ws: seq<Symbol>)
    ensures Fold(c, vs + ws) == Fold(Fold(c, vs), ws)
    decreases |ws|
  {
    hide Step;
    if ws == [] {
      assert vs + ws == vs;
    } else {
      var n := |ws| - 1;
      FoldConcat(c, vs, ws[..n]);
      assert (vs + ws)[..|vs + ws| - 1] == vs + ws[..n];
    }
  }

  // ------------------------------------------------------------------- burst errors

  function Zeros(n: nat): (z: seq<Symbol>)
    ensures |z| == n
  {
    seq(n, _ => 0)
  }

  predicate Residue(d: bv32) { 0 < d < 0x4000_0000 }

  lemma StepNonZero(d: bv32)
    requires Residue(d)
    ensures Residue(Step(d, 0))
  {
  }

  /** Appending zeros multiplies by powers of x, which never gives zero. */
  lemma {:induction false} FoldZeros(d: bv32, n: nat)
    requires Residue(d)
    ensures Residue(Fold(d, Zeros(n)))
    decreases n
  {
    hide Step, Residue;
    if n > 0 {
      FoldZeros(d, n - 1);
      assert Zeros(n)[..n - 1] == Zeros(n - 1);
      StepNonZero(Fold(d, Zeros(n - 1)));
    }
  }

  /** Six symbols, packed. */
  function Pack(a: bv32, b: bv32, c: bv32, d: bv32, e: bv32, f: bv32): bv32 {
    (a << 25) ^ (b << 20) ^ (c << 15) ^ (d << 10) ^ (e << 5) ^ f
  }

  lemma SixSteps(a: bv32, b: bv32, c: bv32, d: bv32, e: bv32, f: bv32)
    requires a < 32 && b < 32 && c < 32 && d < 32 && e < 32 && f < 32
    ensures Step(Step(Step(Step(Step(Step(0, a), b), c), d), e), f) == Pack(a, b, c, d, e, f)
  {
  }

  /** From zero, six symbols are not reduced at all. */
  lemma {:induction false} FoldSix(x: seq<Symbol>)
    requires |x| == 6
    ensures Fold(0, x) == Pack(x[0], x[1], x[2], x[3], x[4], x[5])
  {
    hide Step, Pack, Xor, Shifted, Feedback;
    SixSteps(x[0], x[1], x[2], x[3], x[4], x[5]);
    assert x[..5][..4] == x[..4] && x[..4][..3] == x[..3] && x[..3][..2] == x[..2] && x[..2][..1] == x[..1]
           && x[..1][..0] == [];
    assert Fold(0, x[..1]) == Step(0, x[0]);
    assert Fold(0, x[..2]) == Step(Fold(0, x[..1]), x[1]);
    assert Fold(0, x[..3]) == Step(Fold(0, x[..2]), x[2]);
    assert Fold(0, x[..4]) == Step(Fold(0, x[..3]), x[3]);
    assert Fold(0, x[..5]) == Step(Fold(0, x[..4]), x[4]);
  }

  lemma StepZero()
    ensures Step(0, 0) == 0
  {
  }

  /** Leading zeros make no difference to a fold from zero. */
  lemma {:induction false} FoldPadded(n: nat, x: seq<Symbol>)
    ensures Fold(0, Zeros(n) + x) == Fold(0, x)
    decreases n
  {
    hide Step;
    FoldConcat(0, Zeros(n), x);
    if n > 0 {
      assert Zeros(n)[..n - 1] == Zeros(n - 1);
      FoldPadded(n - 1, []);
      assert Zeros(n - 1) + [] == Zeros(n - 1);
      StepZero();
    }
  }

  lemma PackNonZero(a: bv32, b: bv32, c: bv32, d: bv32, e: bv32, f: bv32)
    requires a < 32 && b < 32 && c < 32 && d < 32 && e < 32 && f < 32
    requires a != 0 || b != 0 || c != 0 || d != 0 || e != 0 || f != 0
    ensures Residue(Pack(a, b, c, d, e, f))
  {
  }

  lemma {:induction false} ShortBurst(x: seq<Symbol>, k: nat)
    requires |x| <= 6 && k < |x| && x[k] != 0
    ensures Residue(Fold(0, x))
  {
    hide Pack, Step, Residue, Fold;
    var p := Zeros(6 - |x|) + x;
    FoldPadded(6 - |x|, x);
    FoldSix(p);
    var j := 6 - |x| + k;
    assert p[j] == x[k];
    assert j == 0 || j == 1 || j == 2 || j == 3 || j == 4 || j == 5;
    PackNonZero(p[0], p[1], p[2], p[3], p[4], p[5]);
  }

  lemma SelfDifferences(vs: seq<Symbol>)
    ensures Differences(vs, vs) == Zeros(|vs|)
  {
    forall i | 0 <= i < |vs| ensures Differences(vs, vs)[i] == 0 { XorZero(vs[i], vs[i]); }
  }

  lemma Unfold(before: seq<Symbol>, x: seq<Symbol>, after: seq<Symbol>)
    ensures Checksum(before + x + after) == Fold(Fold(Fold(1, before), x), after)
  {
    hide Fold;
    FoldConcat(1, before, x);
    FoldConcat(1, before + x, after);
  }

  lemma ResidueNonZero(d: bv32)
    requires Residue(d)
    ensures d != 0
  {
  }

  /** Changing symbols within a window of at most six changes the checksum, however long the input. */
  lemma BurstDetected(before: seq<Symbol>, x: seq<Symbol>, y: seq<Symbol>, after: seq<Symbol>)
    requires |x| == |y| <= 6 && x != y
    ensures Checksum(before + x + after) != Checksum(before + y + after)
  {
    hide Fold, Step, Xor, Residue, Checksum;
    var c := Fold(1, before);
    var k :| 0 <= k < |x| && x[k] != y[k];
    var d := Differences(x, y);
    XorZero(x[k], y[k]);
    ShortBurst(d, k);
    FoldXor(c, c, x, y);
    XorZero(c, c);
    var p, q := Fold(c, x), Fold(c, y);
    FoldXor(p, q, after, after);
    SelfDifferences(after);
    FoldZeros(Fold(0, d), |after|);
    Unfold(before, x, after);
    Unfold(before, y, after);
    ResidueNonZero(Xor(Fold(p, after), Fold(q, after)));
    XorZero(Fold(p, after), Fold(q, after));
  }

  // ---------------------------------------------------------------------- characters

  function FirstEight(v: Symbol): Byte {
    if v == 0 then 'q' else if v == 1 then 'p' else if v == 2 then 'z' else if v == 3 then 'r'
    else if v == 4 then 'y' else if v == 5 then '9' else if v == 6 then 'x'
    else '8'
  }

  function SecondEight(v: Symbol): Byte {
    if v == 8 then 'g' else if v == 9 then 'f' else if v == 10 then '2' else if v == 11 then 't'
    else if v == 12 then 'v' else if v == 13 then 'd' else if v == 14 then 'w'
    else '0'
  }

  function ThirdEight(v: Symbol): Byte {
    if v == 16 then 's' else if v == 17 then '3' else if v == 18 then 'j' else if v == 19 then 'n'
    else if v == 20 then '5' else if v == 21 then '4' else if v == 22 then 'k'
    else 'h'
  }

  function FourthEight(v: Symbol): Byte {
    if v == 24 then 'c' else if v == 25 then 'e' else if v == 26 then '6' else if v == 27 then 'm'
    else if v == 28 then 'u' else if v == 29 then 'a' else if v == 30 then '7'
    else 'l'
  }

  /** The character set. */
  function Char(v: Symbol): Byte {
    if v < 8 then FirstEight(v) else if v < 16 then SecondEight(v) else if v < 24 then ThirdEight(v) else FourthEight(v)
  }

  function LowerCase(c: Byte): Byte {
    if 'A' <= c <= 'Z' then (c as int - 'A' as int + 'a' as int) as char else c
  }

  function LowerRev(c: Byte): Option<Symbol> {
    if c == 'q' then Some(0) else if c == 'p' then Some(1) else if c == 'z' then Some(2) else if c == 'r' then Some(3)
    else if c == 'y' then Some(4) else if c == '9' then Some(5) else if c == 'x' then Some(6)
    else if c == '8' then Some(7)
    else if c == 'g' then Some(8) else if c == 'f' then Some(9) else if c == '2' then Some(10)
    else if c == 't' then Some(11)
    else if c == 'v' then Some(12) else if c == 'd' then Some(13) else if c == 'w' then Some(14)
    else if c == '0' then Some(15)
    else if c == 's' then Some(16) else if c == '3' then Some(17) else if c == 'j' then Some(18)
    else if c == 'n' then Some(19)
    else if c == '5' then Some(20) else if c == '4' then Some(21) else if c == 'k' then Some(22)
    else if c == 'h' then Some(23)
    else if c == 'c' then Some(24) else if c == 'e' then Some(25) else if c == '6' then Some(26)
    else if c == 'm' then Some(27)
    else if c == 'u' then Some(28) else if c == 'a' then Some(29) else if c == '7' then Some(30)
    else if c == 'l' then Some(31)
    else None
  }

  /** The table back from characters to symbols, in which the case of a letter makes no difference. */
  function Rev(c: Byte): Option<Symbol> { LowerRev(LowerCase(c)) }

  predicate IsLower(c: Byte) { 'a' <= c <= 'z' }
  predicate IsUpper(c: Byte) { 'A' <= c <= 'Z' }
  predicate IsPrintable(c: Byte) { 33 <= c as int <= 126 }

  /** Fit for the data part as an encoder writes it. */
  predicate Plain(c: Byte) { !IsUpper(c) && IsPrintable(c) && c != '1' }

  lemma FirstEightRev(v: Symbol)
    requires 0 <= v < 8
    ensures LowerRev(FirstEight(v)) == Some(v) && Plain(FirstEight(v))
  {
  }

  lemma SecondEightRev(v: Symbol)
    requires 8 <= v < 16
    ensures LowerRev(SecondEight(v)) == Some(v) && Plain(SecondEight(v))
  {
  }

  lemma ThirdEightRev(v: Symbol)
    requires 16 <= v < 24
    ensures LowerRev(ThirdEight(v)) == Some(v) && Plain(ThirdEight(v))
  {
  }

  lemma FourthEightRev(v: Symbol)
    requires 24 <= v < 32
    ensures LowerRev(FourthEight(v)) == Some(v) && Plain(FourthEight(v))
  {
  }

  lemma RevChar(v: Symbol)
    ensures Rev(Char(v)) == Some(v) && Plain(Char(v))
  {
    hide LowerRev, FirstEight, SecondEight, ThirdEight, FourthEight;
    if v < 8 { FirstEightRev(v); } else if v < 16 { SecondEightRev(v); } else if v < 24 { ThirdEightRev(v); }
        else { FourthEightRev(v); }
  }

  lemma CharRev(c: Byte)
    ensures LowerRev(c).Some? ==> Char(LowerRev(c).value) == c && c != '1'
  {
  }
}
