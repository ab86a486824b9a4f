/** Rebuilding a block from a compact one, as in the section "HeaderAndShortIDs" of BIP 152. */
module CompactBlocks {
  import opened Collections

  datatype Tx = Tx(wtxid: nat, isNull: bool)

  /** A transaction sent along, at an offset from the one before. */
  datatype Prefilled = Prefilled(index: nat, tx: Tx)

  datatype Message = Message(headerNull: bool, header: nat, shortIds: seq<nat>, prefilled: seq<Prefilled>) {
    function TxCount(): nat { |shortIds| + |prefilled| }
  }

  datatype Status = OK | INVALID | FAILED | CHECKBLOCK_FAILED

  /** The largest number of transactions a block can hold: 4000000 weight units, at least 40 each. */
  const MAX_TXS := 100000

  type Slots = seq<Option<Tx>>

  // --------------------------------------------------------------- the prefilled slots

  /** The positions prefilled transactions go to. */
  function Positions(ps: seq<Prefilled>): (r: seq<int>)
    ensures |r| == |ps|
  {
    if ps == [] then []
    else
      var rest := Positions(ps[..|ps| - 1]);
      rest + [(if rest == [] then -1 else rest[|rest| - 1]) + ps[|ps| - 1].index + 1]
  }

  /** The prefilled transaction exists and leaves no gap without a short id. */
  ghost predicate WellPlacedAt(m: Message, k: nat)
    requires k < |m.prefilled|
  {
    !m.prefilled[k].tx.isNull && Positions(m.prefilled)[k] <= 65535 && Positions(m.prefilled)[k] <= |m.shortIds| + k
  }

  ghost predicate WellPlaced(m: Message) { forall k | 0 <= k < |m.prefilled| :: WellPlacedAt(m, k) }

  /** The first `n` are well placed, and that is all of them or the next one is not. */
  ghost predicate PlacedUntil(m: Message, n: nat) {
    && n <= |m.prefilled| && (forall k | 0 <= k < n :: WellPlacedAt(m, k))
    && (n < |m.prefilled| ==> !WellPlacedAt(m, n))
  }

  lemma {:induction false} PositionsPrefix(ps: seq<Prefilled>, k: nat)
    requires k <= |ps|
    ensures Positions(ps)[..k] == Positions(ps[..k])
    decreases |ps|
  {
    if k < |ps| {
      PositionsPrefix(ps[..|ps| - 1], k);
      assert ps[..|ps| - 1][..k] == ps[..k];
    } else {
      assert ps[..k] == ps;
    }
  }

  lemma {:induction false} PositionsGrow(ps: seq<Prefilled>)
    ensures forall j, k | 0 <= j < k < |ps| :: Positions(ps)[j] < Positions(ps)[k]
    ensures forall k | 0 <= k < |ps| :: Positions(ps)[k] >= 0
    decreases |ps|
  {
    if ps != [] {
      PositionsGrow(ps[..|ps| - 1]);
    }
  }

  /** The indices of the slots that are still empty, in order. */
  function Free(s: Slots): (r: seq<nat>)
    ensures forall i | 0 <= i < |r| :: r[i] < |s|
  {
    if s == [] then [] else Free(s[..|s| - 1]) + if s[|s| - 1].None? then [|s| - 1] else []
  }

  lemma {:induction false} FreeIs(s: Slots)
    ensures forall i, j | 0 <= i < j < |Free(s)| :: Free(s)[i] < Free(s)[j]
    ensures forall i | 0 <= i < |Free(s)| :: s[Free(s)[i]].None?
    ensures forall j | 0 <= j < |s| && s[j].None? :: j in Free(s)
    decreases |s|
  {
    if s != [] {
      FreeIs(s[..|s| - 1]);
    }
  }

  lemma {:induction false} FreeFill(s: Slots, i: nat, tx: Tx)
    requires i < |s| && s[i].None?
    ensures |Free(s[i := Some(tx)])| == |Free(s)| - 1
    decreases |s|
  {
    var n := |s| - 1;
    if i < n {
      FreeFill(s[..n], i, tx);
      assert s[i := Some(tx)][..n] == s[..n][i := Some(tx)];
    } else {
      assert s[i := Some(tx)][..n] == s[..n];
    }
  }

  lemma {:induction false} FreePrefix(s: Slots, n: nat)
    requires n <= |s|
    ensures Free(s[..n]) <= Free(s)
    decreases |s|
  {
    if n < |s| {
      FreePrefix(s[..|s| - 1], n);
      assert s[..|s| - 1][..n] == s[..n];
    } else {
      assert s[..n] == s;
    }
  }

  lemma {:induction false} AllFree(n: nat)
    ensures |Free(seq(n, _ => None))| == n
    decreases n
  {
    if n > 0 {
      AllFree(n - 1);
      assert seq(n, _ => Option<Tx>.None)[..n - 1] == seq(n - 1, _ => None);
    }
  }

  /** The slots once the prefilled transactions are in. */
  ghost predicate Filled(m: Message, k: nat, s: Slots) {
    && k <= |m.prefilled| && |s| == m.TxCount()
    && (forall j | 0 <= j < k ::
          0 <= Positions(m.prefilled)[j] < |s| && s[Positions(m.prefilled)[j]] == Some(m.prefilled[j].tx))
    && (forall i | 0 <= i < |s| && s[i].Some? :: exists j :: 0 <= j < k && Positions(m.prefilled)[j] == i)
    && |Free(s)| == |s| - k
  }

  lemma FilledStarts(m: Message)
    ensures Filled(m, 0, seq(m.TxCount(), _ => None))
  {
    AllFree(m.TxCount());
  }

  lemma {:induction false} FilledStep(m: Message, k: nat, s: Slots, at: nat)
    requires Filled(m, k, s) && k < |m.prefilled| && at == Positions(m.prefilled)[k] && at <= |m.shortIds| + k
    ensures at < |s| && Filled(m, k + 1, s[at := Some(m.prefilled[k].tx)])
  {
    hide Positions, Free;
    var ps := Positions(m.prefilled);
    PositionsGrow(m.prefilled);
    assert s[at].None?;
    FreeFill(s, at, m.prefilled[k].tx);
    var t := s[at := Some(m.prefilled[k].tx)];
    forall i | 0 <= i < |t| && t[i].Some? ensures exists j :: 0 <= j < k + 1 && ps[j] == i {
      if i == at { assert ps[k] == i; } else { assert s[i].Some?; }
    }
  }

  /** Stops at the first transaction that is not well placed, leaving those before it in their slots. */
  method PlacePrefilled(m: Message) returns (ok: bool, s: Slots, ghost n: nat)
    ensures ok == WellPlaced(m) && (ok ==> n == |m.prefilled|)
    ensures PlacedUntil(m, n) && Filled(m, n, s)
  {
    hide Filled;
    s := seq(m.TxCount(), _ => None);
    FilledStarts(m);
    var last := -1;
    ghost var ps := Positions(m.prefilled);
    for i := 0 to |m.prefilled|
      invariant last == if i == 0 then -1 else ps[i - 1]
      invariant |s| == m.TxCount() && Filled(m, i, s)
      invariant forall k | 0 <= k < i :: WellPlacedAt(m, k)
    {
      if m.prefilled[i].tx.isNull {
        assert !WellPlacedAt(m, i);
        return false, s, i;
      }
      NextPosition(m.prefilled, i);
      last := last + m.prefilled[i].index + 1;
      if last > 65535 || last > |m.shortIds| + i {
        assert !WellPlacedAt(m, i);
        return false, s, i;
      }
      FilledStep(m, i, s, last);
      s := s[last := Some(m.prefilled[i].tx)];
    }
    ok, n := true, |m.prefilled|;
  }

  lemma NextPosition(ps: seq<Prefilled>, i: nat)
    requires i < |ps|
    ensures Positions(ps)[i] == (if i == 0 then -1 else Positions(ps)[i - 1]) + ps[i].index + 1 >= 0
  {
    PositionsPrefix(ps, i + 1);
    PositionsPrefix(ps, i);
    PositionsGrow(ps);
    var p := ps[..i + 1];
    assert p[..i] == ps[..i];
    assert Positions(ps)[i] == Positions(ps)[..i + 1][i];
    if i > 0 { assert Positions(ps)[i - 1] == Positions(ps)[..i][i - 1]; }
  }

  // -------------------------------------------------------------------- the short ids

  /** Short id number `i` stands for the free slot number `i`, as long as no two are equal. */
  ghost predicate Assigned(ids: map<nat, nat>, shortIds: seq<nat>, free: seq<nat>, n: nat) {
    && n <= |shortIds| && n <= |free|
    && (forall x :: x in ids <==> x in shortIds[..n])
    && |ids| <= n && (|ids| == n <==> Distinct(shortIds[..n]))
    && (Distinct(shortIds[..n]) ==> forall i | 0 <= i < n :: ids[shortIds[i]] == free[i])
  }

  lemma AssignStep(ids: map<nat, nat>, shortIds: seq<nat>, free: seq<nat>, n: nat)
    requires Assigned(ids, shortIds, free, n) && n < |shortIds| && n < |free|
    ensures Assigned(ids[shortIds[n] := free[n]], shortIds, free, n + 1)
  {
    var x := shortIds[n];
    var next := ids[x := free[n]];
    Extends(shortIds, n);
    AssignSize(ids, x, free[n]);
    hide Distinct;
    assert shortIds[..n + 1] == shortIds[..n] + [x];
    if Distinct(shortIds[..n + 1]) {
      forall i | 0 <= i < n + 1 ensures next[shortIds[i]] == free[i] {
        if i < n { assert shortIds[i] == shortIds[..n][i] && shortIds[i] in shortIds[..n]; }
      }
    }
  }

  lemma AssignSize(ids: map<nat, nat>, x: nat, v: nat)
    ensures |ids[x := v]| == |ids| + if x in ids then 0 else 1
  {
    var next := ids[x := v];
    if x in ids {
      assert next.Keys == ids.Keys;
    } else {
      assert next.Keys == ids.Keys + {x};
    }
    assert |next| == |next.Keys| && |ids| == |ids.Keys|;
  }

  lemma Extends(s: seq<nat>, n: nat)
    requires n < |s|
    ensures Distinct(s[..n + 1]) <==> Distinct(s[..n]) && s[n] !in s[..n]
  {
    var t := s[..n + 1];
    assert forall i | 0 <= i < n :: t[i] == s[..n][i];
    if Distinct(t) {
      forall i, j | 0 <= i < j < n ensures s[..n][i] != s[..n][j] { assert t[i] != t[j]; }
      forall i | 0 <= i < n ensures s[i] != s[n] { assert t[i] != t[n]; }
    }
  }

  /** Gives every short id its slot, never looking past the last one; a crowded hash bucket is a failure. */
  method AssignSlots(m: Message, s: Slots, crowded: nat -> bool) returns (status: Status, ids: map<nat, nat>)
    requires m.TxCount() <= 65535 && |s| == m.TxCount() && |Free(s)| == |m.shortIds|
    ensures status == OK ==> Assigned(ids, m.shortIds, Free(s), |m.shortIds|)
    ensures status == if exists i :: 0 <= i < |m.shortIds| && crowded(i) then FAILED else OK
  {
    hide Free, Assigned;
    ids := map[];
    AssignStarts(m.shortIds, Free(s));
    var offset: nat := 0;
    EmptyFree();
    for i := 0 to |m.shortIds|
      invariant i + offset <= |s| && |Free(s[..i + offset])| == i
      invariant Assigned(ids, m.shortIds, Free(s), i)
      invariant forall k | 0 <= k < i :: !crowded(k)
    {
      MoreFree(s, i + offset);
      while s[i + offset].Some?
        invariant i + offset < |s| && |Free(s[..i + offset])| == i
        decreases |s| - offset
      {
        SkipFilled(s, i + offset);
        offset := offset + 1;
        MoreFree(s, i + offset);
      }
      AssignStep(ids, m.shortIds, Free(s), i);
      TakeFree(s, i + offset);
      assert i + offset <= 65535;
      ids := ids[m.shortIds[i] := i + offset];
      if crowded(i) {
        return FAILED, ids;
      }
    }
    status := OK;
  }

  lemma AssignStarts(shortIds: seq<nat>, free: seq<nat>)
    ensures Assigned(map[], shortIds, free, 0)
  {
  }

  lemma EmptyFree()
    ensures forall s: Slots | |s| == 0 :: Free(s) == []
  {
  }

  /** If fewer slots are free so far than altogether, there are slots to come. */
  lemma MoreFree(s: Slots, n: nat)
    requires n <= |s| && |Free(s[..n])| < |Free(s)|
    ensures n < |s|
  {
    assert s[..|s|] == s;
  }

  lemma {:induction false} SkipFilled(s: Slots, n: nat)
    requires n < |s| && s[n].Some?
    ensures Free(s[..n + 1]) == Free(s[..n])
  {
    assert s[..n + 1][..n] == s[..n];
  }

  lemma {:induction false} TakeFree(s: Slots, n: nat)
    requires n < |s| && s[n].None?
    ensures |Free(s[..n])| < |Free(s)| && Free(s)[|Free(s[..n])|] == n && |Free(s[..n + 1])| == |Free(s[..n])| + 1
  {
    assert s[..n + 1][..n] == s[..n];
    FreePrefix(s, n + 1);
    assert Free(s[..n + 1]) == Free(s[..n]) + [n];
  }
}
