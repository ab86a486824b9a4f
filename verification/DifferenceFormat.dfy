/** Lists of increasing indexes, written as differences. */
module DifferenceFormat {

  const MAX64 := 0xffff_ffff_ffff_ffff
  const WRAP64 := 0x1_0000_0000_0000_0000
  const MAX_SIZE := 0x200_0000

  datatype Result<T> = Ok(value: T) | Overflow

  /** The formatter's state: one more than the value last seen. */
  class DifferenceFormatter {
    var shift: nat

    constructor ()
      ensures shift == 0
    {
      shift := 0;
    }

    method Ser(v: nat) returns (r: Result<nat>)
      requires v <= MAX64
      modifies this
      ensures r == Written(old(shift), v)
      ensures shift == if r.Ok? then v + 1 else old(shift)
    {
      if v < shift || v >= MAX64 {
        return Overflow;
      }
      r := Ok(v - shift);
      shift := v + 1;
    }

    /** `limit` is the largest value of the element type. */
    method Unser(n: nat, limit: nat) returns (r: Result<nat>)
      requires n <= MAX64 && shift <= MAX64
      modifies this
      ensures r == Read(old(shift), n, limit)
      ensures r.Ok? ==> shift == r.value + 1 <= MAX64
    {
      if n > MAX_SIZE {
        return Overflow;
      }
      shift := (shift + n) % WRAP64;
      if shift < n || shift >= MAX64 || shift > limit {
        return Overflow;
      }
      r := Ok(shift);
      shift := shift + 1;
    }
  }

  function Written(shift: nat, v: nat): Result<nat> { if v < shift || v >= MAX64 then Overflow else Ok(v - shift) }

  /** Sums are taken modulo 2^64, and one that wraps around is noticed. */
  function Read(shift: nat, n: nat, limit: nat): Result<nat> {
    var s := (shift + n) % WRAP64;
    if n > MAX_SIZE || s < n || s >= MAX64 || s > limit then Overflow else Ok(s)
  }

  function Encode(vs: seq<nat>, shift: nat): Result<seq<nat>>
    decreases |vs|
  {
    if vs == [] then Ok([])
    else
      match Written(shift, vs[0])
      case Overflow => Overflow
      case Ok(d) =>
        match Encode(vs[1..], vs[0] + 1)
        case Overflow => Overflow
        case Ok(ds) => Ok([d] + ds)
  }

  function Decode(ds: seq<nat>, shift: nat, limit: nat): Result<seq<nat>>
    decreases |ds|
  {
    if ds == [] then Ok([])
    else
      match Read(shift, ds[0], limit)
      case Overflow => Overflow
      case Ok(v) =>
        match Decode(ds[1..], v + 1, limit)
        case Overflow => Overflow
        case Ok(vs) => Ok([v] + vs)
  }

  ghost predicate Increasing(vs: seq<nat>, from: nat) {
    (forall i | 0 <= i < |vs| :: from <= vs[i]) && forall i, j | 0 <= i < j < |vs| :: vs[i] < vs[j]
  }

  /** Exactly the strictly increasing lists can be written. */
  lemma {:induction false} EncodesIncreasing(vs: seq<nat>, shift: nat)
    ensures Encode(vs, shift).Ok? <==> Increasing(vs, shift) && forall i | 0 <= i < |vs| :: vs[i] < MAX64
    decreases |vs|
  {
    if vs != [] {
      var rest := vs[1..];
      EncodesIncreasing(rest, vs[0] + 1);
      assert forall i | 0 < i < |vs| :: vs[i] == rest[i - 1];
      if Encode(vs, shift).Ok? {
        forall i, j | 0 <= i < j < |vs| ensures vs[i] < vs[j] {
          if i > 0 { assert rest[i - 1] < rest[j - 1]; } else { assert vs[0] + 1 <= rest[j - 1]; }
        }
        forall i | 0 <= i < |vs| ensures shift <= vs[i] < MAX64 {
          if i > 0 { assert vs[0] + 1 <= rest[i - 1] < MAX64; }
        }
      }
      if Increasing(vs, shift) && forall i | 0 <= i < |vs| :: vs[i] < MAX64 {
        forall i, j | 0 <= i < j < |rest| ensures rest[i] < rest[j] { assert vs[i + 1] < vs[j + 1]; }
        forall i | 0 <= i < |rest| ensures vs[0] + 1 <= rest[i] < MAX64 { assert vs[0] < vs[i + 1]; }
      }
    }
  }

  /** What can be written as 16-bit values reads back unchanged. */
  lemma {:induction false} EncodeDecode(vs: seq<nat>, shift: nat, limit: nat)
    requires Encode(vs, shift).Ok? && limit <= MAX_SIZE && forall i | 0 <= i < |vs| :: vs[i] <= limit
    ensures Decode(Encode(vs, shift).value, shift, limit) == Ok(vs)
    decreases |vs|
  {
    if vs != [] {
      EncodeDecode(vs[1..], vs[0] + 1, limit);
      var ds := Encode(vs, shift).value;
      assert ds[1..] == Encode(vs[1..], vs[0] + 1).value && vs == [vs[0]] + vs[1..];
    }
  }

  /** What reads without an error writes back unchanged. */
  lemma {:induction false} DecodeEncode(ds: seq<nat>, shift: nat, limit: nat)
    requires shift <= MAX64 && Decode(ds, shift, limit).Ok?
    ensures Encode(Decode(ds, shift, limit).value, shift) == Ok(ds)
    decreases |ds|
  {
    if ds != [] {
      var v := Read(shift, ds[0], limit).value;
      DecodeEncode(ds[1..], v + 1, limit);
      var vs := Decode(ds, shift, limit).value;
      assert vs[1..] == Decode(ds[1..], v + 1, limit).value && ds == [ds[0]] + ds[1..];
    }
  }
}
