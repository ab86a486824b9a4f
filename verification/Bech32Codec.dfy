/** Encoding and decoding of Bech32 and Bech32m strings. */
module Bech32Codec {
  import opened Collections
  import opened Bech32

  type Text = seq<Byte>

  // --------------------------------------------------------------- the human-readable part

  function HighBits(c: Byte): Symbol { ((c as int) as bv8 >> 5) as bv32 }

  function LowBits(c: Byte): Symbol { ((c as int) as bv8 & 0x1f) as bv32 }

  function Expanded(hrp: Text): seq<Symbol> {
    seq(|hrp|, i requires 0 <= i < |hrp| => HighBits(hrp[i])) + [0] +
        seq(|hrp|, i requires 0 <= i < |hrp| => LowBits(hrp[i]))
  }

  method ExpandHRP(hrp: Text) returns (ret: array<Symbol>)
    ensures fresh(ret) && ret[..] == Expanded(hrp)
  {
    hide HighBits, LowBits;
    var n := |hrp|;
    ret := new Symbol[n * 2 + 1](_ => 0);
    for i := 0 to n
      invariant forall j | 0 <= j < i :: ret[j] == HighBits(hrp[j]) && ret[j + n + 1] == LowBits(hrp[j])
    {
      ret[i] := HighBits(hrp[i]);
      ret[i + n + 1] := LowBits(hrp[i]);
    }
    ret[n] := 0;
  }

  // ------------------------------------------------------------------------ checksums

  /** Group `i` from the top: a shift by 5 * (5 - i), and a mask. */
  function Group(m: bv32, i: nat): Symbol
    requires i < 6
  {
    if i == 0 then (m >> 25) & 31 else if i == 1 then (m >> 20) & 31 else if i == 2 then (m >> 15) & 31
    else if i == 3 then (m >> 10) & 31 else if i == 4 then (m >> 5) & 31 else m & 31
  }

  /** The six 5-bit groups of a 30-bit checksum. */
  function Unpack(m: bv32): (r: seq<Symbol>)
    ensures |r| == 6
  {
    seq(6, i requires 0 <= i < 6 => Group(m, i))
  }

  lemma GroupsAre(m: bv32)
    ensures Group(m, 0) == (m >> 25) & 31 && Group(m, 1) == (m >> 20) & 31 && Group(m, 2) == (m >> 15) & 31
    ensures Group(m, 3) == (m >> 10) & 31 && Group(m, 4) == (m >> 5) & 31 && Group(m, 5) == m & 31
  {
  }

  function PackAll(x: seq<Symbol>): bv32
    requires |x| == 6
  {
    Pack(x[0], x[1], x[2], x[3], x[4], x[5])
  }

  predicate ThirtyBits(m: bv32) { m < 0x4000_0000 }

  lemma PackGroups(m: bv32)
    requires ThirtyBits(m)
    ensures Pack((m >> 25) & 31, (m >> 20) & 31, (m >> 15) & 31, (m >> 10) & 31, (m >> 5) & 31, m & 31) == m
  {
  }

  lemma PackUnpack(m: bv32)
    requires ThirtyBits(m)
    ensures PackAll(Unpack(m)) == m
  {
    hide Pack, Group;
    GroupsAre(m);
    PackGroups(m);
  }

  lemma GroupsOfPack(a: bv32, b: bv32, c: bv32, d: bv32, e: bv32, f: bv32)
    requires a < 32 && b < 32 && c < 32 && d < 32 && e < 32 && f < 32
    ensures var m := Pack(a, b, c, d, e, f);
            && (m >> 25) & 31 == a && (m >> 20) & 31 == b && (m >> 15) & 31 == c
            && (m >> 10) & 31 == d && (m >> 5) & 31 == e && m & 31 == f
  {
  }

  lemma UnpackPack(x: seq<Symbol>)
    requires |x| == 6
    ensures Unpack(PackAll(x)) == x
  {
    hide Pack, Group;
    GroupsOfPack(x[0], x[1], x[2], x[3], x[4], x[5]);
    GroupsAre(PackAll(x));
  }

  function CreatedChecksum(e: Encoding, hrp: Text, values: seq<Symbol>): (r: seq<Symbol>)
    ensures |r| == 6
  {
    Unpack(Xor(Checksum(Expanded(hrp) + values + Zeros(6)), EncodingConstant(e)))
  }

  /** The encoding under which the checksum holds, if any. */
  function Verified(hrp: Text, values: seq<Symbol>): Option<Encoding> {
    var check := Checksum(Expanded(hrp) + values);
    if check == EncodingConstant(BECH32) then Some(BECH32)
    else if check == EncodingConstant(BECH32M) then Some(BECH32M)
    else None
  }

  method VerifyChecksum(hrp: Text, values: seq<Symbol>) returns (e: Option<Encoding>)
    ensures e == Verified(hrp, values)
  {
    hide Checksum, Expanded;
    var expanded := ExpandHRP(hrp);
    var check := PolyMod(expanded[..] + values);
    if check == EncodingConstant(BECH32) {
      return Some(BECH32);
    }
    if check == EncodingConstant(BECH32M) {
      return Some(BECH32M);
    }
    return None;
  }

  method CreateChecksum(e: Encoding, hrp: Text, values: seq<Symbol>) returns (ret: seq<Symbol>)
    ensures ret == CreatedChecksum(e, hrp, values)
  {
    hide Checksum, Expanded, Xor;
    var expanded := ExpandHRP(hrp);
    var check := PolyMod(expanded[..] + values + Zeros(6));
    ret := Groups(Xor(check, EncodingConstant(e)));
  }

  method Groups(mod: bv32) returns (ret: seq<Symbol>)
    ensures ret == Unpack(mod)
  {
    hide Group;
    ret := [];
    for i := 0 to 6
      invariant ret == Unpack(mod)[..i]
    {
      ret := ret + [Group(mod, i)];
    }
  }

  lemma StepThirty(c: bv32, v: bv32)
    requires ThirtyBits(c) && v < 32
    ensures ThirtyBits(Step(c, v))
  {
  }

  lemma {:induction false} FoldThirty(c: bv32, vs: seq<Symbol>)
    requires ThirtyBits(c)
    ensures ThirtyBits(Fold(c, vs))
    decreases |vs|
  {
    hide Step, ThirtyBits;
    if vs != [] {
      FoldThirty(c, vs[..|vs| - 1]);
      StepThirty(Fold(c, vs[..|vs| - 1]), vs[|vs| - 1]);
    }
  }

  lemma ZeroDifferences(x: seq<Symbol>)
    ensures Differences(Zeros(|x|), x) == x
  {
    hide Xor;
    forall i | 0 <= i < |x| ensures Differences(Zeros(|x|), x)[i] == x[i] { XorUnit(x[i]); }
  }

  /** The last six symbols are simply added to the checksum. */
  lemma LastSix(p: seq<Symbol>, x: seq<Symbol>)
    requires |x| == 6
    ensures Checksum(p + x) == Xor(Checksum(p + Zeros(6)), PackAll(x))
  {
    hide Fold, Xor, Pack;
    var c := Fold(1, p);
    FoldConcat(1, p, x);
    FoldConcat(1, p, Zeros(6));
    FoldXor(c, 0, Zeros(6), x);
    XorUnit(c);
    ZeroDifferences(x);
    FoldSix(x);
  }

  lemma XorCancels(a: bv32, b: bv32)
    ensures Xor(a, Xor(a, b)) == b
  {
  }

  lemma XorThirty(a: bv32, b: bv32)
    requires ThirtyBits(a) && ThirtyBits(b)
    ensures ThirtyBits(Xor(a, b))
  {
  }

  /** A checksum made for an encoding, and only that one, verifies under it. */
  lemma ChecksumVerifies(e: Encoding, hrp: Text, values: seq<Symbol>, last: seq<Symbol>)
    requires |last| == 6
    ensures Verified(hrp, values + last) == Some(e) <==> last == CreatedChecksum(e, hrp, values)
  {
    hide Expanded, Checksum, Xor, Unpack, EncodingConstant, PackAll;
    var p := Expanded(hrp) + values;
    assert Expanded(hrp) + (values + last) == p + last;
    LastSix(p, last);
    ChecksumThirty(p + Zeros(6));
    Constants(e);
    Solve(Checksum(p + Zeros(6)), EncodingConstant(e), last);
  }

  lemma Constants(e: Encoding)
    ensures ThirtyBits(EncodingConstant(e)) && EncodingConstant(BECH32) != EncodingConstant(BECH32M)
  {
  }

  lemma ChecksumThirty(vs: seq<Symbol>)
    ensures ThirtyBits(Checksum(vs))
  {
    FoldThirty(1, vs);
  }

  /** Six symbols close a checksum exactly when they are the groups of what is missing. */
  lemma Solve(s: bv32, k: bv32, last: seq<Symbol>)
    requires |last| == 6 && ThirtyBits(s) && ThirtyBits(k)
    ensures Xor(s, PackAll(last)) == k <==> last == Unpack(Xor(s, k))
  {
    hide Xor, PackAll, Unpack, ThirtyBits;
    XorThirty(s, k);
    PackUnpack(Xor(s, k));
    UnpackPack(last);
    XorCancels(s, k);
    XorCancels(s, PackAll(last));
  }

  // -------------------------------------------------------------------------- strings

  function Chars(vs: seq<Symbol>): (r: Text)
    ensures |r| == |vs|
  {
    seq(|vs|, i requires 0 <= i < |vs| => Char(vs[i]))
  }

  function Encoded(e: Encoding, hrp: Text, values: seq<Symbol>): Text {
    hrp + ['1'] + Chars(values + CreatedChecksum(e, hrp, values))
  }

  function Lowered(s: Text): (r: Text)
    ensures |r| == |s|
  {
    seq(|s|, i requires 0 <= i < |s| => LowerCase(s[i]))
  }

  /** The position of the last '1', or -1. */
  function LastOne(s: Text): (p: int)
    ensures -1 <= p < |s|
  {
    if s == [] then -1 else if s[|s| - 1] == '1' then |s| - 1 else LastOne(s[..|s| - 1])
  }

  ghost predicate HasLower(s: Text) { exists i | 0 <= i < |s| :: IsLower(s[i]) }
  ghost predicate HasUpper(s: Text) { exists i | 0 <= i < |s| :: IsUpper(s[i]) }
  ghost predicate AllPrintable(s: Text) { forall i | 0 <= i < |s| :: IsPrintable(s[i]) }

  /** Printable characters only, and not both cases. */
  ghost predicate CharactersOk(s: Text) { AllPrintable(s) && !(HasLower(s) && HasUpper(s)) }

  ghost predicate AllSymbols(s: Text) { forall i | 0 <= i < |s| :: Rev(s[i]).Some? }

  function Symbols(s: Text): (r: seq<Symbol>)
    ensures |r| == |s|
  {
    seq(|s|, i requires 0 <= i < |s| => match Rev(s[i]) case Some(v) => v case None => 0)
  }

  datatype Decoded = Invalid | Decoded(encoding: Encoding, hrp: Text, data: seq<Symbol>)

  ghost function Parsed(s: Text): Decoded {
    var pos := LastOne(s);
    if !CharactersOk(s) || |s| > 90 || pos <= 0 || pos + 7 > |s| || !AllSymbols(s[pos + 1..]) then Invalid
    else
      var values, hrp := Symbols(s[pos + 1..]), Lowered(s[..pos]);
      match Verified(hrp, values)
      case None => Invalid
      case Some(e) => Decoded(e, hrp, values[..|values| - 6])
  }

  /** What an encoder may be given: lower case, printable, not empty. */
  ghost predicate LegalHrp(hrp: Text) { hrp != [] && AllPrintable(hrp) && !HasUpper(hrp) }

  lemma {:induction false} LastOneAt(a: Text, b: Text)
    requires forall i | 0 <= i < |b| :: b[i] != '1'
    ensures LastOne(a + ['1'] + b) == |a|
    decreases |b|
  {
    var s := a + ['1'] + b;
    if b == [] {
      assert s[|s| - 1] == '1';
    } else {
      LastOneAt(a, b[..|b| - 1]);
      assert s[..|s| - 1] == a + ['1'] + b[..|b| - 1];
    }
  }

  lemma {:induction false} LastOneIs(s: Text)
    ensures LastOne(s) >= 0 ==> s[LastOne(s)] == '1'
    decreases |s|
  {
    if s != [] && s[|s| - 1] != '1' {
      LastOneIs(s[..|s| - 1]);
    }
  }

  lemma CharsPlain(vs: seq<Symbol>)
    ensures forall i | 0 <= i < |vs| :: Plain(Chars(vs)[i])
    ensures AllSymbols(Chars(vs)) && Symbols(Chars(vs)) == vs
  {
    hide Char, Rev, Plain;
    forall i | 0 <= i < |vs| ensures Plain(Chars(vs)[i]) && Rev(Chars(vs)[i]) == Some(vs[i]) { RevChar(vs[i]); }
  }

  lemma EncodedCharacters(hrp: Text, tail: Text)
    requires !HasUpper(hrp) && forall i | 0 <= i < |tail| :: Plain(tail[i])
    ensures CharactersOk(hrp + ['1'] + tail) <==> AllPrintable(hrp)
  {
    var s := hrp + ['1'] + tail;
    forall i | 0 <= i < |s| ensures !IsUpper(s[i]) && (i >= |hrp| ==> IsPrintable(s[i])) {
      if i > |hrp| { assert Plain(tail[i - |hrp| - 1]); }
    }
    if AllPrintable(s) {
      forall i | 0 <= i < |hrp| ensures IsPrintable(hrp[i]) { assert s[i] == hrp[i]; }
    }
  }

  lemma LoweredSame(s: Text)
    requires !HasUpper(s)
    ensures Lowered(s) == s
  {
  }

  /** Decoding an encoding gives everything back exactly when the human-readable part and the length are legal. */
  lemma RoundTrip(e: Encoding, hrp: Text, values: seq<Symbol>)
    requires !HasUpper(hrp)
    ensures Parsed(Encoded(e, hrp, values)) == Decoded(e, hrp, values)
       <==> LegalHrp(hrp) && |hrp| + 1 + |values| + 6 <= 90
  {
    hide CreatedChecksum, HasUpper, AllPrintable, AllSymbols, Symbols, Verified, CharactersOk, Chars, Lowered, Plain;
    var last := CreatedChecksum(e, hrp, values);
    var all := values + last;
    var s := Encoded(e, hrp, values);
    CharsPlain(all);
    NoOnes(Chars(all));
    EncodedCharacters(hrp, Chars(all));
    LastOneAt(hrp, Chars(all));
    LoweredSame(hrp);
    ChecksumVerifies(e, hrp, values, last);
    assert s[|hrp| + 1..] == Chars(all) && s[..|hrp|] == hrp;
    assert all[..|all| - 6] == values;
  }

  lemma NoOnes(s: Text)
    requires forall i | 0 <= i < |s| :: Plain(s[i])
    ensures forall i | 0 <= i < |s| :: s[i] != '1'
  {
  }

  lemma SymbolsBack(s: Text)
    requires AllSymbols(s)
    ensures Chars(Symbols(s)) == Lowered(s)
  {
    hide Char, LowerRev, LowerCase;
    forall i | 0 <= i < |s| ensures Char(Symbols(s)[i]) == LowerCase(s[i]) {
      assert Rev(s[i]).Some?;
      CharRev(LowerCase(s[i]));
    }
  }

  lemma LoweredHasNoUpper(s: Text)
    ensures !HasUpper(Lowered(s))
  {
    forall i | 0 <= i < |s| ensures !IsUpper(Lowered(s)[i]) {}
  }

  lemma LoweredParts(s: Text, pos: nat)
    requires pos < |s| && s[pos] == '1'
    ensures Lowered(s) == Lowered(s[..pos]) + ['1'] + Lowered(s[pos + 1..])
  {
    assert s == s[..pos] + ['1'] + s[pos + 1..];
  }

  /** Encoding what was decoded gives the string back, in lower case. */
  lemma Canonical(s: Text)
    requires Parsed(s).Decoded?
    ensures var d := Parsed(s); Encoded(d.encoding, d.hrp, d.data) == Lowered(s) && !HasUpper(d.hrp)
  {
    hide CreatedChecksum, HasUpper, AllPrintable, AllSymbols, Symbols, Verified, CharactersOk, Chars, Lowered, LastOne;
    var pos := LastOne(s);
    var tail := s[pos + 1..];
    var values := Symbols(tail);
    var d := Parsed(s);
    var last := values[|values| - 6..];
    LastOneIs(s);
    LoweredParts(s, pos);
    LoweredHasNoUpper(s[..pos]);
    SymbolsBack(tail);
    assert values == d.data + last;
    ChecksumVerifies(d.encoding, d.hrp, d.data, last);
  }

  /** A burst of changed symbols, however placed among the values, is noticed. */
  lemma BurstRejected(e: Encoding, hrp: Text, before: seq<Symbol>, x: seq<Symbol>, y: seq<Symbol>, after: seq<Symbol>)
    requires |x| == |y| <= 6 && x != y && Verified(hrp, before + x + after) == Some(e)
    ensures Verified(hrp, before + y + after) != Some(e)
  {
    hide Expanded, Checksum;
    BurstDetected(Expanded(hrp) + before, x, y, after);
    assert Expanded(hrp) + (before + x + after) == Expanded(hrp) + before + x + after;
    assert Expanded(hrp) + (before + y + after) == Expanded(hrp) + before + y + after;
  }

  // ------------------------------------------------------------------------ the loops

  method Encode(e: Encoding, hrp: Text, values: seq<Symbol>) returns (ret: Text)
    requires !HasUpper(hrp)
    ensures ret == Encoded(e, hrp, values)
  {
    hide CreatedChecksum, Char, HasUpper;
    var checksum := CreateChecksum(e, hrp, values);
    var combined := values + checksum;
    ret := hrp + ['1'];
    for i := 0 to |combined|
      invariant ret == hrp + ['1'] + Chars(combined)[..i]
    {
      ret := ret + [Char(combined[i])];
    }
    assert Chars(combined)[..|combined|] == Chars(combined);
  }

  /** `errors` collects the positions found at fault. */
  method CheckCharacters(s: Text) returns (ok: bool, errors: seq<int>)
    ensures ok == (errors == []) == CharactersOk(s)
  {
    var lower, upper := false, false;
    errors := [];
    for i := 0 to |s|
      invariant errors == [] ==>
                  AllPrintable(s[..i]) && lower == HasLower(s[..i]) && upper == HasUpper(s[..i]) && !(lower && upper)
      invariant errors != [] ==> !CharactersOk(s[..i])
      invariant (lower ==> HasLower(s[..i])) && (upper ==> HasUpper(s[..i]))
    {
      var c := s[i];
      Extended(s, i);
      hide AllPrintable, HasLower, HasUpper;
      if 'a' <= c <= 'z' {
        if upper {
          errors := errors + [i];
        } else {
          lower := true;
        }
      } else if 'A' <= c <= 'Z' {
        if lower {
          errors := errors + [i];
        } else {
          upper := true;
        }
      } else if c as int < 33 || c as int > 126 {
        errors := errors + [i];
      }
    }
    assert s[..|s|] == s;
    ok := errors == [];
  }

  lemma Extended(s: Text, i: nat)
    requires i < |s|
    ensures AllPrintable(s[..i + 1]) == (AllPrintable(s[..i]) && IsPrintable(s[i]))
    ensures HasLower(s[..i + 1]) == (HasLower(s[..i]) || IsLower(s[i]))
    ensures HasUpper(s[..i + 1]) == (HasUpper(s[..i]) || IsUpper(s[i]))
  {
    var t := s[..i + 1];
    assert t[i] == s[i] && forall j | 0 <= j < i :: t[j] == s[..i][j];
    if HasLower(s[..i]) {
      var j :| 0 <= j < i && IsLower(s[..i][j]);
      assert IsLower(t[j]);
    }
    if HasUpper(s[..i]) {
      var j :| 0 <= j < i && IsUpper(s[..i][j]);
      assert IsUpper(t[j]);
    }
    if AllPrintable(t) {
      forall j | 0 <= j < i ensures IsPrintable(s[..i][j]) { assert IsPrintable(t[j]); }
    }
  }

  /** `rfind('1')`. */
  method FindLastOne(s: Text) returns (p: int)
    ensures p == LastOne(s)
  {
    p := |s| - 1;
    assert s[..p + 1] == s;
    while p >= 0 && s[p] != '1'
      invariant -1 <= p < |s| && LastOne(s) == LastOne(s[..p + 1])
    {
      assert s[..p + 1][..p] == s[..p];
      p := p - 1;
    }
  }

  method ReadSymbols(s: Text) returns (ok: bool, values: seq<Symbol>)
    ensures ok == AllSymbols(s)
    ensures ok ==> values == Symbols(s)
  {
    hide Rev;
    values := [];
    for i := 0 to |s|
      invariant |values| == i && forall j | 0 <= j < i :: Rev(s[j]) == Some(values[j])
    {
      var rev := Rev(s[i]);
      if rev.None? {
        return false, [];
      }
      values := values + [rev.value];
    }
    return true, values;
  }

  method Decode(s: Text) returns (d: Decoded)
    ensures d == Parsed(s)
  {
    hide CharactersOk, AllSymbols, Symbols, Verified, Lowered, LastOne;
    var ok, errors := CheckCharacters(s);
    if !ok {
      return Invalid;
    }
    var pos := FindLastOne(s);
    if |s| > 90 || pos <= 0 || pos + 7 > |s| {
      return Invalid;
    }
    var values;
    ok, values := ReadSymbols(s[pos + 1..]);
    if !ok {
      return Invalid;
    }
    var hrp := ToLower(s[..pos]);
    var result := VerifyChecksum(hrp, values);
    match result
    case None => return Invalid;
    case Some(e) => return Decoded(e, hrp, values[..|values| - 6]);
  }

  method ToLower(s: Text) returns (hrp: Text)
    ensures hrp == Lowered(s)
  {
    hide LowerCase;
    hrp := [];
    for i := 0 to |s|
      invariant hrp == Lowered(s)[..i]
    {
      hrp := hrp + [LowerCase(s[i])];
    }
  }
}
