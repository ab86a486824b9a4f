/** Base58 strings: byte strings written in base 58, with a '1' for every leading zero byte. */
module Base58 {
  import opened Collections
  import opened Radix

  // ------------------------------------------------------------------------ characters

  /** The 58 alphanumeric characters without 0, I, O and l. */
  function Char(d: nat): char
    requires d < 58
  {
    if d < 9 then (d + '1' as int) as char
    else if d < 17 then (d - 9 + 'A' as int) as char
    else if d < 22 then (d - 17 + 'J' as int) as char
    else if d < 33 then (d - 22 + 'P' as int) as char
    else if d < 44 then (d - 33 + 'a' as int) as char
    else (d - 44 + 'm' as int) as char
  }

  /** The digit a character stands for, or -1. */
  function Digit(c: char): (d: int)
    ensures -1 <= d < 58
  {
    if '1' <= c <= '9' then c as int - '1' as int
    else if 'A' <= c <= 'H' then c as int - 'A' as int + 9
    else if 'J' <= c <= 'N' then c as int - 'J' as int + 17
    else if 'P' <= c <= 'Z' then c as int - 'P' as int + 22
    else if 'a' <= c <= 'k' then c as int - 'a' as int + 33
    else if 'm' <= c <= 'z' then c as int - 'm' as int + 44
    else -1
  }

  predicate IsSpace(c: char) {
    c == ' ' || c as int == 12 || c == '\n' || c == '\r' || c == '\t' || c as int == 11
  }

  lemma DigitChar(d: nat)
    requires d < 58
    ensures Digit(Char(d)) == d && !IsSpace(Char(d)) && Char(d) != '\0' && (Char(d) == '1' <==> d == 0)
  {
  }

  lemma CharDigit(c: char)
    ensures Digit(c) != -1 ==> Char(Digit(c)) == c && !IsSpace(c) && (c == '1' <==> Digit(c) == 0)
  {
  }

  // ----------------------------------------------------------------- multiply and add

  /** A buffer of digits, most significant first, of which exactly the last `length` are significant. */
  ghost predicate Significant(base: nat, ds: seq<nat>, length: nat) {
    && Digits(base, ds) && length <= |ds|
    && (forall i | 0 <= i < |ds| - length :: ds[i] == 0)
    && (length > 0 ==> ds[|ds| - length] != 0)
  }

  /** The last `i` digits of `was` times `mul` plus the new digit, in the last `i` digits of `now` and a carry. */
  ghost predicate Carried(base: nat, mul: nat, digit: nat, was: seq<nat>, now: seq<nat>, i: nat, carry: nat) {
    && |was| == |now| && i <= |now|
    && now[..|now| - i] == was[..|now| - i]
    && carry * Pow(base, i) + Value(base, now[|now| - i..]) == Value(base, was[|now| - i..]) * mul + digit
  }

  lemma {:induction false} CarryStep(base: nat, mul: nat, digit: nat, was: seq<nat>, now: seq<nat>, i: nat, carry: nat)
    requires base >= 2 && Carried(base, mul, digit, was, now, i, carry) && i < |now|
    ensures var p := |now| - i - 1;
            var x := carry + mul * now[p];
            Carried(base, mul, digit, was, now[p := x % base], i + 1, Quotient(x, base))
  {
    assert Pow(base, i + 1) == Pow(base, i) * base;
    hide Value, Pow, Quotient;
    var p := |now| - i - 1;
    var x := carry + mul * now[p];
    var next := now[p := x % base];
    var q := Quotient(x, base);
    var tail := now[p + 1..];
    assert next[p..] == [x % base] + tail && was[p..] == [was[p]] + was[p + 1..];
    assert now[..p + 1][p] == was[..p + 1][p];
    ValueFirst(base, x % base, tail);
    ValueFirst(base, was[p], was[p + 1..]);
    assert next[..p] == now[..p + 1][..p] && was[..p] == was[..p + 1][..p];
    CarryArithmetic(base, mul, digit, Pow(base, i), q, x % base, carry, was[p], Value(base, tail),
        Value(base, was[p + 1..]));
  }

  lemma CarryArithmetic(base: nat, mul: nat, digit: nat, pow: nat, q: nat, r: nat, carry: nat, d: nat, v: nat, w: nat)
    requires q * base + r == carry + mul * d && carry * pow + v == w * mul + digit
    ensures q * (pow * base) + (r * pow + v) == (d * pow + w) * mul + digit
  {
    assert q * (pow * base) == q * base * pow;
    assert (q * base + r) * pow == q * base * pow + r * pow;
    assert (carry + mul * d) * pow == carry * pow + mul * d * pow;
    assert (d * pow + w) * mul == mul * d * pow + w * mul;
  }

  /** Halfway through: the invariant of the digit loop. */
  ghost predicate Progress(base: nat, mul: nat, digit: nat, length: nat, was: seq<nat>, now: seq<nat>, i: nat,
                           carry: nat) {
    && Carried(base, mul, digit, was, now, i, carry) && Digits(base, now)
    && (i > 0 && i >= length && carry == 0 ==> now[|now| - i] != 0)
  }

  lemma {:induction false} ProgressStep(base: nat, mul: nat, digit: nat, length: nat, was: seq<nat>, now: seq<nat>,
                                        i: nat, carry: nat)
    requires base >= 2 && mul >= 1 && Significant(base, was, length)
             && Progress(base, mul, digit, length, was, now, i, carry)
    requires i < |now| && (carry != 0 || i < length)
    ensures var p := |now| - i - 1;
            var x := carry + mul * now[p];
            Progress(base, mul, digit, length, was, now[p := x % base], i + 1, Quotient(x, base))
  {
    CarryStep(base, mul, digit, was, now, i, carry);
    var p := |now| - i - 1;
    var x := carry + mul * now[p];
    assert now[p] == now[..p + 1][p] == was[p];
    if i + 1 >= length && Quotient(x, base) == 0 {
      assert x == x % base;
      if i + 1 == length { Multiply(1, mul, 1, now[p]); }
    }
  }

  /** Where the loop stops nothing is left to carry, and the digits are in place. */
  lemma {:induction false} ProgressDone(base: nat, mul: nat, digit: nat, length: nat, was: seq<nat>, now: seq<nat>,
                                        i: nat, carry: nat)
    requires base >= 2 && Significant(base, was, length) && Progress(base, mul, digit, length, was, now, i, carry)
    requires Value(base, was) * mul + digit < Pow(base, |was|)
    requires i == |now| || (carry == 0 && i >= length)
    ensures carry == 0 && Significant(base, now, i) && Value(base, now) == Value(base, was) * mul + digit
  {
    var p := |now| - i;
    if i == |now| {
      assert now[0..] == now && was[0..] == was;
      if carry > 0 { Multiply(1, carry, Pow(base, i), Pow(base, i)); }
    } else {
      assert forall k | 0 <= k < p :: now[k] == now[..p][k] == was[k] == 0;
      ValueZeros(base, now, p);
      ValueZeros(base, was, p);
    }
  }

  lemma {:induction false} ProgressStart(base: nat, mul: nat, digit: nat, length: nat, was: seq<nat>)
    requires Significant(base, was, length)
    ensures Progress(base, mul, digit, length, was, was, 0, digit)
  {
    assert was[|was|..] == [];
  }

  /** buf = buf * mul + digit, in place. The value fits, so the final carry is zero. */
  method MulAdd(buf: array<nat>, base: nat, mul: nat, digit: nat, length: nat) returns (length': nat)
    requires base >= 2 && mul >= 1 && Significant(base, buf[..], length)
    requires Value(base, buf[..]) * mul + digit < Pow(base, buf.Length)
    modifies buf
    ensures Significant(base, buf[..], length')
    ensures Value(base, buf[..]) == old(Value(base, buf[..])) * mul + digit
  {
    hide Significant, Progress, Value, Pow;
    ghost var was := buf[..];
    var carry: nat, i: nat := digit, 0;
    ProgressStart(base, mul, digit, length, was);
    while (carry != 0 || i < length) && i != buf.Length
      invariant i <= buf.Length && Progress(base, mul, digit, length, was, buf[..], i, carry)
      decreases buf.Length - i
    {
      ghost var now := buf[..];
      ProgressStep(base, mul, digit, length, was, now, i, carry);
      var p := buf.Length - i - 1;
      carry := carry + mul * buf[p];
      var r: nat := carry % base;
      buf[p] := r;
      assert buf[..] == now[p := r];
      carry := Quotient(carry, base);
      i := i + 1;
    }
    ProgressDone(base, mul, digit, length, was, buf[..], i, carry);
    assert carry == 0;
    length' := i;
  }

  // --------------------------------------------------------------------- buffer sizes

  /** 138/100 digits of base 58 per byte, and one more, are enough. */
  lemma EncodeSize(n: nat)
    ensures Pow(256, n) <= Pow(58, n * 138 / 100 + 1)
  {
    assert Pow(58, 11) >= Pow(256, 8);
    Fits(256, 58, 11, 8, n, n * 138 / 100 + 1);
  }

  lemma PowSum(b: nat, m: nat, n: nat, x: nat, y: nat)
    requires Pow(b, m) == x && Pow(b, n) == y
    ensures Pow(b, m + n) == x * y
  {
    PowAdd(b, m, n);
  }

  lemma PowersCompare()
    ensures Pow(256, 52) >= Pow(58, 71)
  {
    assert Pow(58, 6) == 38068692544 && Pow(58, 5) == 656356768;
    hide Pow;
    PowSum(58, 6, 5, 38068692544, 656356768);
    PowSum(58, 6, 6, 38068692544, 38068692544);
    PowSum(58, 12, 12, 1449225352009601191936, 1449225352009601191936);
    PowSum(58, 24, 24, 2100254120907352485526230505830591911428096, 2100254120907352485526230505830591911428096);
    PowSum(58, 48, 12, 4411067372388315992860700508871397707604375080488126236526447381866738070646178185216, 1449225352009601191936);
    PowSum(58, 60, 11, 6392630665487523829925705590507004456832030712891733088851577912861189652777515686114891080333114973618176, 24986644000165537792);
    Powers256();
  }

  lemma Powers256()
    ensures Pow(256, 52) == 169230328010303641331690318856389386196071598838855992136870091590247882556495704531248437872567112920983350278405979725889536
  {
    assert Pow(256, 4) == 4294967296;
    hide Pow;
    PowSum(256, 4, 4, 4294967296, 4294967296);
    PowSum(256, 8, 4, 18446744073709551616, 4294967296);
    PowSum(256, 12, 12, 79228162514264337593543950336, 79228162514264337593543950336);
    PowSum(256, 24, 24, 6277101735386680763835789423207666416102355444464034512896, 6277101735386680763835789423207666416102355444464034512896);
    PowSum(256, 48, 4, 39402006196394479212279040100143613805079739270465446667948293404245721771497210611414266254884915640806627990306816, 4294967296);
  }

  /** 733/1000 bytes per digit of base 58, and one more, are enough. */
  lemma DecodeSize(n: nat)
    ensures Pow(58, n) <= Pow(256, n * 733 / 1000 + 1)
  {
    PowersCompare();
    Fits(58, 256, 52, 71, n, n * 733 / 1000 + 1);
  }

  /** Reading one more digit still fits. */
  lemma {:induction false} StillFits(a: nat, b: nat, ds: seq<nat>, i: nat, size: nat)
    requires 2 <= a && Digits(a, ds) && i < |ds| && Pow(a, |ds|) <= Pow(b, size)
    ensures Value(a, ds[..i + 1]) == Value(a, ds[..i]) * a + ds[i]
    ensures Value(a, ds[..i]) * a + ds[i] < Pow(b, size)
  {
    assert ds[..i + 1][..i] == ds[..i];
    ValueBound(a, ds[..i + 1]);
    PowGrows(a, i + 1, |ds|);
  }

  /** What is left in the buffer are the shortest digits. */
  lemma BufferHolds(base: nat, ds: seq<nat>, length: nat)
    requires base >= 2 && Significant(base, ds, length)
    ensures ds[|ds| - length..] == Canonical(base, Value(base, ds))
  {
    ValueZeros(base, ds, |ds| - length);
    CanonicalUnique(base, ds[|ds| - length..]);
  }

  lemma EmptyBuffer(base: nat, ds: seq<nat>)
    requires base >= 2 && forall i | 0 <= i < |ds| :: ds[i] == 0
    ensures Significant(base, ds, 0) && Value(base, ds) == 0
  {
    ValueZeros(base, ds, |ds|);
    assert ds[|ds|..] == [];
  }

  /** The digits of `ds` in base `a`, in a buffer of `size` digits of base `b`. */
  method Convert(ds: seq<nat>, a: nat, b: nat, size: nat) returns (buf: array<nat>, length: nat)
    requires 2 <= a && 2 <= b && Digits(a, ds) && Pow(a, |ds|) <= Pow(b, size)
    ensures fresh(buf) && buf.Length == size && Significant(b, buf[..], length) && Value(b, buf[..]) == Value(a, ds)
  {
    hide Significant, Value, Pow;
    buf := new nat[size](_ => 0);
    length := 0;
    EmptyBuffer(b, buf[..]);
    EmptyValue(a);
    for i := 0 to |ds|
      invariant Significant(b, buf[..], length) && Value(b, buf[..]) == Value(a, ds[..i])
    {
      StillFits(a, b, ds, i, size);
      length := MulAdd(buf, b, a, ds[i], length);
    }
    assert ds[..|ds|] == ds;
  }

  lemma EmptyValue(a: nat)
    ensures forall ds: seq<nat> | |ds| == 0 :: Value(a, ds) == 0
  {
  }

  // -------------------------------------------------------------------------- encoding

  /** How many elements at the start satisfy `p`. */
  function Count<T>(s: seq<T>, p: T -> bool): (n: nat)
    ensures n <= |s|
  {
    if s == [] || !p(s[0]) then 0 else 1 + Count(s[1..], p)
  }

  lemma {:induction false} CountIs<T>(s: seq<T>, p: T -> bool, n: nat)
    requires n <= |s| && (forall i | 0 <= i < n :: p(s[i])) && (n < |s| ==> !p(s[n]))
    ensures Count(s, p) == n
    decreases n
  {
    if n > 0 {
      CountIs(s[1..], p, n - 1);
    }
  }

  lemma {:induction false} Counted<T>(s: seq<T>, p: T -> bool)
    ensures var n := Count(s, p); (forall i | 0 <= i < n :: p(s[i])) && (n < |s| ==> !p(s[n]))
    decreases |s|
  {
    if s != [] && p(s[0]) {
      Counted(s[1..], p);
      var n := Count(s, p);
      forall i | 0 <= i < n ensures p(s[i]) {
        if i > 0 { assert s[i] == s[1..][i - 1]; }
      }
    }
  }

  const IsZero: nat -> bool := (b: nat) => b == 0
  const IsOne: char -> bool := (c: char) => c == '1'
  const Space: char -> bool := (c: char) => IsSpace(c)
  const NotSpace: char -> bool := (c: char) => !IsSpace(c)

  function Chars(ds: seq<nat>): (r: string)
    requires Digits(58, ds)
    ensures |r| == |ds|
  {
    seq(|ds|, i requires 0 <= i < |ds| => Char(ds[i]))
  }

  function Encoded(bytes: seq<nat>): string {
    var z := Count(bytes, IsZero);
    CanonicalOk(58, Value(256, bytes[z..]));
    seq(z, _ => '1') + Chars(Canonical(58, Value(256, bytes[z..])))
  }

  method CountZeros(input: seq<nat>) returns (zeroes: nat)
    ensures zeroes == Count(input, IsZero)
  {
    zeroes := 0;
    while zeroes < |input| && input[zeroes] == 0
      invariant zeroes <= |input| && forall i | 0 <= i < zeroes :: input[i] == 0
    {
      zeroes := zeroes + 1;
    }
    CountIs(input, IsZero, zeroes);
  }

  /** Skips leading zeros of the result; there are none. */
  method SkipZeros(buf: array<nat>, base: nat, length: nat) returns (it: nat)
    requires base >= 2 && Significant(base, buf[..], length)
    ensures it == buf.Length - length && buf[it..] == Canonical(base, Value(base, buf[..]))
  {
    hide Significant, Value, Canonical;
    SignificantFits(base, buf[..], length);
    BufferHolds(base, buf[..], length);
    it := buf.Length - length;
    while it != buf.Length && buf[it] == 0
      invariant buf.Length - length <= it <= buf.Length && forall k | buf.Length - length <= k < it :: buf[k] == 0
    {
      it := it + 1;
    }
    if length > 0 { TopNonZero(base, buf[..], length); }
  }

  method Translate(buf: array<nat>, it: nat) returns (str: string)
    requires it <= buf.Length && Digits(58, buf[it..])
    ensures str == Chars(buf[it..])
  {
    hide Char;
    ghost var digits := buf[it..];
    str := "";
    var i := it;
    while i != buf.Length
      invariant it <= i <= buf.Length && str == Chars(digits)[..i - it]
    {
      assert buf[i] == digits[i - it];
      str := str + [Char(buf[i])];
      i := i + 1;
    }
  }

  method Encode(input: seq<nat>) returns (str: string)
    requires Digits(256, input)
    ensures str == Encoded(input)
  {
    hide Significant, Value, Canonical, Chars;
    var zeroes := CountZeros(input);
    var rest := input[zeroes..];
    var size := |rest| * 138 / 100 + 1;
    EncodeSize(|rest|);
    var b58, length := Convert(rest, 256, 58, size);
    var it := SkipZeros(b58, 58, length);
    CanonicalOk(58, Value(256, rest));
    var digits := Translate(b58, it);
    str := seq(zeroes, _ => '1') + digits;
  }

  lemma SignificantFits(base: nat, ds: seq<nat>, length: nat)
    requires Significant(base, ds, length)
    ensures length <= |ds| && Digits(base, ds) && Digits(base, ds[|ds| - length..])
  {
  }

  lemma TopNonZero(base: nat, ds: seq<nat>, length: nat)
    requires Significant(base, ds, length) && length > 0
    ensures ds[|ds| - length] != 0
  {
  }

  // -------------------------------------------------------------------------- decoding

  ghost predicate AllDigits(s: string) { forall i | 0 <= i < |s| :: Digit(s[i]) != -1 }

  function DigitsOf(s: string): (r: seq<nat>)
    requires AllDigits(s)
    ensures |r| == |s| && Digits(58, r)
  {
    seq(|s|, i requires 0 <= i < |s| => Digit(s[i]))
  }

  /** A string taken apart: spaces, ones, a word without spaces, and the rest. */
  datatype Parts = Parts(spaces: nat, ones: nat, word: string, rest: string)

  function Split(s: string): (p: Parts)
    ensures p.spaces + p.ones <= |s| && s[p.spaces + p.ones..] == p.word + p.rest
  {
    hide Count;
    var a := Count(s, Space);
    var z := Count(s[a..], IsOne);
    var body := s[a + z..];
    var k := Count(body, NotSpace);
    Parts(a, z, body[..k], body[k..])
  }

  /** The bytes a string stands for, if it is well formed and they number at most `max`. */
  ghost function Decoded(s: string, max: int): Option<seq<nat>> {
    var p := Split(s);
    if '\0' in s || (p.ones > 0 && p.ones > max) || !AllDigits(p.word) || Count(p.rest, Space) != |p.rest| then None
    else
      var out := Canonical(256, Value(58, DigitsOf(p.word)));
      if p.word != [] && |out| + p.ones > max then None else Some(seq(p.ones, _ => 0) + out)
  }

  lemma {:induction false} LongerNumber(b: nat, m: nat, n: nat)
    requires b >= 2 && m <= n
    ensures |Canonical(b, m)| <= |Canonical(b, n)|
    decreases n
  {
    if m > 0 {
      QuotientGrows(m, n, b);
      LongerNumber(b, Quotient(m, b), Quotient(n, b));
    }
  }

  lemma QuotientGrows(m: nat, n: nat, b: nat)
    requires b >= 2 && m <= n
    ensures Quotient(m, b) <= Quotient(n, b)
  {
    var p, q := Quotient(m, b), Quotient(n, b);
    if p > q {
      Multiply(q + 1, p, b, b);
      Distribute(q, 1, b);
    }
  }

  lemma {:induction false} PrefixSmaller(b: nat, ds: seq<nat>, i: nat)
    requires b >= 1 && i <= |ds|
    ensures Value(b, ds[..i]) <= Value(b, ds)
    decreases |ds|
  {
    if i == |ds| {
      assert ds[..i] == ds;
    } else {
      var n := |ds| - 1;
      assert ds[..n][..i] == ds[..i];
      PrefixSmaller(b, ds[..n], i);
      Multiply(Value(b, ds[..n]), Value(b, ds[..n]), 1, b);
    }
  }

  lemma {:induction false} ValueNext(word: string, i: nat)
    requires i < |word| && AllDigits(word[..i]) && Digit(word[i]) != -1
    ensures AllDigits(word[..i + 1])
    ensures Value(58, DigitsOf(word[..i + 1])) == Value(58, DigitsOf(word[..i])) * 58 + Digit(word[i])
  {
    var next := word[..i + 1];
    forall j | 0 <= j < i + 1 ensures Digit(next[j]) != -1 {
      if j < i { assert next[j] == word[..i][j]; }
    }
    assert DigitsOf(next)[..i] == DigitsOf(word[..i]);
  }

  /** A prefix that is too long already makes the whole too long. */
  lemma TooLong(word: string, i: nat)
    requires i <= |word| && AllDigits(word)
    ensures AllDigits(word[..i])
    ensures |Canonical(256, Value(58, DigitsOf(word[..i])))| <= |Canonical(256, Value(58, DigitsOf(word)))|
  {
    assert DigitsOf(word)[..i] == DigitsOf(word[..i]);
    PrefixSmaller(58, DigitsOf(word), i);
    LongerNumber(256, Value(58, DigitsOf(word[..i])), Value(58, DigitsOf(word)));
  }

  /** Reads the digits of `word` into `b256`; stops early if a character is bad or the result too long. */
  method ReadWord(word: string, b256: array<nat>, zeroes: nat, max: int) returns (ok: bool, length: nat)
    requires Pow(58, |word|) <= Pow(256, b256.Length)
    requires forall i | 0 <= i < b256.Length :: b256[i] == 0
    modifies b256
    ensures ok == (AllDigits(word) && (word != [] ==> |Canonical(256, Value(58, DigitsOf(word)))| + zeroes <= max))
    ensures ok ==>
              && Significant(256, b256[..], length)
              && b256[b256.Length - length..] == Canonical(256, Value(58, DigitsOf(word)))
  {
    hide Significant, Value, Pow, Canonical, Digit, Digits;
    length := 0;
    EmptyBuffer(256, b256[..]);
    EmptyValue(58);
    var i := 0;
    while i < |word|
      invariant i <= |word| && AllDigits(word[..i])
      invariant Significant(256, b256[..], length) && Value(256, b256[..]) == Value(58, DigitsOf(word[..i]))
      invariant i > 0 ==> |Canonical(256, Value(58, DigitsOf(word[..i])))| + zeroes <= max
    {
      var d := Digit(word[i]);
      if d == -1 {
        return false, 0;
      }
      ValueNext(word, i);
      WordFits(word, i + 1, b256.Length);
      length := MulAdd(b256, 256, 58, d, length);
      BufferHolds(256, b256[..], length);
      SignificantFits(256, b256[..], length);
      i := i + 1;
      if length + zeroes > max {
        if AllDigits(word) { TooLong(word, i); }
        return false, 0;
      }
    }
    assert word[..|word|] == word;
    SignificantFits(256, b256[..], length);
    BufferHolds(256, b256[..], length);
    ok := true;
  }

  lemma WordFits(word: string, i: nat, size: nat)
    requires i <= |word| && AllDigits(word[..i]) && Pow(58, |word|) <= Pow(256, size)
    ensures Value(58, DigitsOf(word[..i])) < Pow(256, size)
  {
    ValueBound(58, DigitsOf(word[..i]));
    PowGrows(58, i, |word|);
  }

  method CountWhile(s: string, p: char -> bool) returns (n: nat)
    ensures n == Count(s, p)
  {
    n := 0;
    while n < |s| && p(s[n])
      invariant n <= |s| && forall i | 0 <= i < n :: p(s[i])
    {
      n := n + 1;
    }
    CountIs(s, p, n);
  }

  method CountOnes(s: string, max: int) returns (ok: bool, n: nat)
    ensures ok == (Count(s, IsOne) == 0 || Count(s, IsOne) <= max)
    ensures ok ==> n == Count(s, IsOne)
  {
    n := 0;
    while n < |s| && s[n] == '1'
      invariant n <= |s| && (n > 0 ==> n <= max) && forall i | 0 <= i < n :: s[i] == '1'
    {
      n := n + 1;
      if n > max {
        AtLeast(s, IsOne, n);
        return false, n;
      }
    }
    CountIs(s, IsOne, n);
    ok := true;
  }

  lemma AtLeast(s: string, p: char -> bool, n: nat)
    requires n <= |s| && forall i | 0 <= i < n :: p(s[i])
    ensures Count(s, p) >= n
  {
    Counted(s, p);
  }

  /** `max` is the largest number of bytes the caller accepts. */
  method Decode(s: string, max: int) returns (r: Option<seq<nat>>)
    ensures r == Decoded(s, max)
  {
    hide Significant, Value, Pow, Canonical, Digit, Digits, Count, AllDigits;
    if '\0' in s {
      return None;
    }
    var spaces := CountWhile(s, Space);
    var ok, zeroes := CountOnes(s[spaces..], max);
    if !ok {
      return None;
    }
    var body := s[spaces + zeroes..];
    assert s[spaces..][zeroes..] == body;
    var size := |body| * 733 / 1000 + 1;
    DecodeSize(|body|);
    var b256 := new nat[size](_ => 0);
    var k := CountWhile(body, NotSpace);
    PowGrows(58, k, |body|);
    var length;
    ok, length := ReadWord(body[..k], b256, zeroes, max);
    if !ok {
      return None;
    }
    var rest := body[k..];
    var trailing := CountWhile(rest, Space);
    if trailing != |rest| {
      return None;
    }
    SignificantFits(256, b256[..], length);
    r := Some(seq(zeroes, _ => 0) + b256[size - length..]);
  }

  // ----------------------------------------------------------------------- round trips

  lemma CharsRead(ds: seq<nat>)
    requires Digits(58, ds)
    ensures AllDigits(Chars(ds)) && DigitsOf(Chars(ds)) == ds
    ensures forall i | 0 <= i < |ds| ::
              !IsSpace(Chars(ds)[i]) && Chars(ds)[i] != '\0' && (Chars(ds)[i] == '1' <==> ds[i] == 0)
  {
    hide Char, Digit, IsSpace;
    forall i | 0 <= i < |ds|
      ensures Digit(Chars(ds)[i]) == ds[i] && !IsSpace(Chars(ds)[i]) && Chars(ds)[i] != '\0'
              && (Chars(ds)[i] == '1' <==> ds[i] == 0)
    {
      DigitChar(ds[i]);
    }
  }

  /** A string of ones and a word that starts with something else comes apart just so. */
  lemma {:induction false} SplitWord(z: nat, word: string)
    requires (forall i | 0 <= i < |word| :: !IsSpace(word[i])) && (word != [] ==> word[0] != '1')
    ensures Split(seq(z, _ => '1') + word) == Parts(0, z, word, [])
  {
    hide Count, IsSpace;
    var s := seq(z, _ => '1') + word;
    OneIsNoSpace();
    assert s != [] ==> !Space(s[0]);
    CountIs(s, Space, 0);
    CountOnesIn(z, word);
    WordOnly(word);
    SplitParts(s, z, word);
  }

  lemma OneIsNoSpace()
    ensures !IsSpace('1')
  {
  }

  lemma CountOnesIn(z: nat, word: string)
    requires word != [] ==> word[0] != '1'
    ensures Count(seq(z, _ => '1') + word, IsOne) == z
  {
    CountIs(seq(z, _ => '1') + word, IsOne, z);
  }

  lemma WordOnly(word: string)
    requires forall i | 0 <= i < |word| :: !IsSpace(word[i])
    ensures Count(word, NotSpace) == |word|
  {
    CountIs(word, NotSpace, |word|);
  }

  lemma SplitParts(s: string, z: nat, word: string)
    requires Count(s, Space) == 0 && Count(s, IsOne) == z && Count(word, NotSpace) == |word|
             && s == seq(z, _ => '1') + word
    ensures Split(s) == Parts(0, z, word, [])
  {
    hide Count;
    assert s[0..] == s && s[z..] == word;
    assert word[..|word|] == word && word[|word|..] == [];
  }

  /** Decoding an encoding gives the bytes back exactly when they are few enough. */
  lemma {:induction false} EncodeDecode(bytes: seq<nat>, max: int)
    requires Digits(256, bytes)
    ensures Decoded(Encoded(bytes), max) == Some(bytes) <==> bytes == [] || |bytes| <= max
  {
    hide Value, Canonical, Count, Char, Digit, IsSpace, Split;
    var z := Count(bytes, IsZero);
    Counted(bytes, IsZero);
    var rest := bytes[z..];
    var n := Value(256, rest);
    var ds := Canonical(58, n);
    CanonicalOk(58, n);
    CanonicalUnique(256, rest);
    CharsRead(ds);
    SplitWord(z, Chars(ds));
    assert bytes == seq(z, _ => 0) + rest;
    assert '\0' !in Encoded(bytes);
    CountIs("", Space, 0);
    CanonicalZero(ds, n, rest);
  }

  lemma CanonicalZero(ds: seq<nat>, n: nat, rest: seq<nat>)
    requires ds == Canonical(58, n) && rest == Canonical(256, n)
    ensures ds == [] <==> rest == []
  {
  }

  lemma WordChars(word: string)
    requires AllDigits(word)
    ensures Chars(DigitsOf(word)) == word
  {
    hide Char, Digit;
    forall i | 0 <= i < |word| ensures Char(Digit(word[i])) == word[i] {
      assert Digit(word[i]) != -1;
      CharDigit(word[i]);
    }
  }

  lemma WordStart(word: string)
    requires AllDigits(word) && word != [] && word[0] != '1'
    ensures DigitsOf(word)[0] != 0
  {
    assert Digit(word[0]) != -1;
    CharDigit(word[0]);
  }

  ghost predicate AllSpaces(s: string) { forall i | 0 <= i < |s| :: IsSpace(s[i]) }

  /** Encoding what was decoded gives the string back, but for the spaces around it. */
  lemma {:induction false} DecodeEncode(s: string, max: int)
    requires Decoded(s, max).Some?
    ensures var p := Split(s);
            && s == s[..p.spaces] + Encoded(Decoded(s, max).value) + p.rest
            && AllSpaces(s[..p.spaces]) && AllSpaces(p.rest)
  {
    hide Value, Canonical, Count, Char, Digit, IsSpace, Split, AllSpaces;
    var p := Split(s);
    SplitFacts(s);
    SpacesOnly(p.rest);
    var ds := DigitsOf(p.word);
    var n := Value(58, ds);
    if p.word != [] { WordStart(p.word); }
    CanonicalUnique(58, ds);
    WordChars(p.word);
    CanonicalOk(256, n);
    hide AllDigits, Digits;
    var out := Canonical(256, n);
    CountIs(seq(p.ones, _ => 0) + out, IsZero, p.ones);
    assert (seq(p.ones, _ => 0) + out)[p.ones..] == out;
  }

  lemma SpacesOnly(s: string)
    requires Count(s, Space) == |s|
    ensures AllSpaces(s)
  {
    Counted(s, Space);
    hide Count;
    forall i | 0 <= i < |s| ensures IsSpace(s[i]) { assert Space(s[i]); }
  }

  /** The parts, put together again, are the string. */
  lemma {:induction false} SplitFacts(s: string)
    ensures var p := Split(s);
            && s == s[..p.spaces] + (seq(p.ones, _ => '1') + p.word) + p.rest
            && AllSpaces(s[..p.spaces]) && (p.word != [] ==> p.word[0] != '1')
  {
    hide Count;
    var p := Split(s);
    var tail := s[p.spaces..];
    Counted(s, Space);
    Counted(tail, IsOne);
    OnesFirst(tail, p.ones);
    assert tail[p.ones..] == s[p.spaces + p.ones..];
    assert s == s[..p.spaces] + tail;
    forall i | 0 <= i < p.spaces ensures IsSpace(s[i]) { assert Space(s[i]); }
  }

  lemma OnesFirst(s: string, n: nat)
    requires n <= |s| && forall i | 0 <= i < n :: IsOne(s[i])
    ensures s == seq(n, _ => '1') + s[n..]
  {
    forall i | 0 <= i < n ensures s[i] == '1' { assert IsOne(s[i]); }
  }
}
