/** Matching short ids against known transactions, and filling in the rest. */
module CompactRebuild {
  import opened Collections
  import opened CompactBlocks

  // ------------------------------------------------------------------------- the scans

  /** A known transaction with the hash it is looked up by; those kept aside count as `extra`. */
  datatype Candidate = Candidate(hash: nat, tx: Tx, extra: bool)

  datatype Scan = Scan(avail: Slots, have: seq<bool>, count: int)

  predicate Ready(sc: Scan, ids: map<nat, nat>) {
    |sc.avail| == |sc.have| && forall x | x in ids :: ids[x] < |sc.avail|
  }

  /** One candidate: the first match fills the slot, a second different one empties it for good. */
  function Match(sc: Scan, ids: map<nat, nat>, shortId: nat -> nat, c: Candidate): (r: Scan)
    requires Ready(sc, ids)
    ensures Ready(r, ids)
  {
    var x := shortId(c.hash);
    if x !in ids then sc
    else
      var p := ids[x];
      if !sc.have[p] then Scan(sc.avail[p := Some(c.tx)], sc.have[p := true], sc.count + 1)
      else if sc.avail[p].Some? && !(c.extra && sc.avail[p].value.wtxid == c.tx.wtxid)
        then Scan(sc.avail[p := None], sc.have, sc.count - 1)
      else sc
  }

  /** Candidates in turn, until every short id has its transaction. */
  function MatchAll(sc: Scan, ids: map<nat, nat>, shortId: nat -> nat, cs: seq<Candidate>): (r: Scan)
    requires Ready(sc, ids)
    ensures Ready(r, ids)
    decreases |cs|
  {
    if cs == [] then sc
    else
      var next := Match(sc, ids, shortId, cs[0]);
      if next.count == |ids| then next else MatchAll(next, ids, shortId, cs[1..])
  }

  method ScanAll(start: Scan, ids: map<nat, nat>, shortId: nat -> nat, cs: seq<Candidate>) returns (sc: Scan)
    requires Ready(start, ids)
    ensures sc == MatchAll(start, ids, shortId, cs)
  {
    hide Match, Ready;
    sc := start;
    var i := 0;
    assert cs[0..] == cs;
    while i < |cs|
      invariant 0 <= i <= |cs| && Ready(sc, ids)
      invariant MatchAll(start, ids, shortId, cs) == MatchAll(sc, ids, shortId, cs[i..])
    {
      assert cs[i..][0] == cs[i] && cs[i..][1..] == cs[i + 1..];
      sc := Match(sc, ids, shortId, cs[i]);
      if sc.count == |ids| {
        return;
      }
      i := i + 1;
    }
  }

  // -------------------------------------------------------------- without collisions

  function CountSome(avail: Slots, free: seq<nat>): nat
    requires forall i | 0 <= i < |free| :: free[i] < |avail|
  {
    if free == [] then 0 else CountSome(avail, free[..|free| - 1]) + if avail[free[|free| - 1]].Some? then 1 else 0
  }

  lemma {:induction false} CountAll(avail: Slots, free: seq<nat>)
    requires forall i | 0 <= i < |free| :: free[i] < |avail|
    ensures CountSome(avail, free) <= |free|
    ensures CountSome(avail, free) == |free| ==> forall i | 0 <= i < |free| :: avail[free[i]].Some?
    decreases |free|
  {
    if free != [] { CountAll(avail, free[..|free| - 1]); }
  }

  lemma {:induction false} CountOutside(avail: Slots, free: seq<nat>, p: nat, v: Option<Tx>)
    requires (forall i | 0 <= i < |free| :: free[i] < |avail|) && p < |avail| && p !in free
    ensures CountSome(avail[p := v], free) == CountSome(avail, free)
    decreases |free|
  {
    if free != [] { CountOutside(avail, free[..|free| - 1], p, v); }
  }

  lemma {:induction false} CountFill(avail: Slots, free: seq<nat>, i: nat, tx: Tx)
    requires (forall j | 0 <= j < |free| :: free[j] < |avail|) && Distinct(free) && i < |free| && avail[free[i]].None?
    ensures CountSome(avail[free[i] := Some(tx)], free) == CountSome(avail, free) + 1
    decreases |free|
  {
    var n := |free| - 1;
    var init := free[..n];
    if i < n {
      assert free[i] == init[i];
      CountFill(avail, init, i, tx);
    } else {
      CountOutside(avail, init, free[n], Some(tx));
    }
  }

  /** What is known: the slots after prefilling, the free ones, and the block they belong to. */
  datatype Case = Case(base: Slots, free: seq<nat>, block: seq<Tx>, ids: map<nat, nat>, shortIds: seq<nat>,
                       shortId: nat -> nat)

  /** Every short id belongs to the transaction its slot has in the block. */
  ghost predicate CaseOk(c: Case) {
    && |c.base| == |c.block| && c.free == Free(c.base) && |c.free| == |c.shortIds|
    && Assigned(c.ids, c.shortIds, c.free, |c.shortIds|) && Distinct(c.shortIds) && Distinct(c.block)
       && Distinct(c.free)
    && (forall i | 0 <= i < |c.free| :: c.free[i] < |c.block| && c.shortIds[i] == c.shortId(c.block[c.free[i]].wtxid))
  }

  /** A candidate that has the short id of a block transaction is that transaction. */
  ghost predicate NoCollision(c: Case, cand: Candidate) {
    && cand.hash == cand.tx.wtxid
    && forall i | 0 <= i < |c.free| && c.free[i] < |c.block| ::
         c.shortId(cand.hash) == c.shortId(c.block[c.free[i]].wtxid) ==> cand.tx == c.block[c.free[i]]
  }

  /** A free slot holds its transaction exactly if that has been seen. */
  ghost predicate Exact(c: Case, sc: Scan, seen: set<Tx>) {
    && |sc.avail| == |sc.have| == |c.block| && |c.base| == |c.block|
    && (forall j | 0 <= j < |c.base| && c.base[j].Some? :: sc.avail[j] == c.base[j])
    && (forall i | 0 <= i < |c.free| ::
          && c.free[i] < |c.block|
          && sc.avail[c.free[i]] == (if c.block[c.free[i]] in seen then Some(c.block[c.free[i]]) else None)
          && sc.have[c.free[i]] == sc.avail[c.free[i]].Some?)
    && sc.count == CountSome(sc.avail, c.free)
  }

  lemma MatchKnown(c: Case, sc: Scan, seen: set<Tx>, cand: Candidate, i: nat)
    requires CaseOk(c) && Exact(c, sc, seen) && NoCollision(c, cand) && i < |c.free| && cand.tx == c.block[c.free[i]]
    requires cand.extra || cand.tx !in seen
    requires Ready(sc, c.ids) && c.shortId(cand.hash) in c.ids && c.ids[c.shortId(cand.hash)] == c.free[i]
    ensures Exact(c, Match(sc, c.ids, c.shortId, cand), seen + {cand.tx})
  {
    hide Free, CountSome, Assigned;
    var p := c.free[i];
    FreeNone(c, i);
    if !sc.have[p] {
      CountFill(sc.avail, c.free, i, cand.tx);
      forall k | 0 <= k < |c.free| && k != i ensures c.block[c.free[k]] != cand.tx && c.free[k] != p {
        DistinctAt(c.free, i, k);
        DistinctAt(c.block, p, c.free[k]);
      }
    } else {
      assert seen + {cand.tx} == seen;
    }
  }

  lemma DistinctAt<T>(s: seq<T>, i: nat, j: nat)
    requires Distinct(s) && i < |s| && j < |s| && i != j
    ensures s[i] != s[j]
  {
  }

  lemma FreeNone(c: Case, i: nat)
    requires CaseOk(c) && i < |c.free|
    ensures c.free[i] < |c.base| && c.base[c.free[i]].None?
  {
    FreeIs(c.base);
  }

  lemma MatchUnknown(c: Case, sc: Scan, seen: set<Tx>, cand: Candidate)
    requires CaseOk(c) && Exact(c, sc, seen) && NoCollision(c, cand) && Ready(sc, c.ids)
             && c.shortId(cand.hash) !in c.ids
    ensures Exact(c, Match(sc, c.ids, c.shortId, cand), seen + {cand.tx})
  {
    hide Free, CountSome;
    forall i | 0 <= i < |c.free| ensures c.block[c.free[i]] != cand.tx {
      assert c.shortIds[..|c.shortIds|] == c.shortIds;
      assert c.shortIds[i] in c.ids;
    }
  }

  lemma MatchKeeps(c: Case, sc: Scan, seen: set<Tx>, cand: Candidate)
    requires CaseOk(c) && Exact(c, sc, seen) && NoCollision(c, cand) && Ready(sc, c.ids)
             && (cand.extra || cand.tx !in seen)
    ensures Exact(c, Match(sc, c.ids, c.shortId, cand), seen + {cand.tx})
  {
    var x := c.shortId(cand.hash);
    if x in c.ids {
      var i := SlotOf(c, x);
      assert cand.tx == c.block[c.free[i]];
      MatchKnown(c, sc, seen, cand, i);
    } else {
      MatchUnknown(c, sc, seen, cand);
    }
  }

  lemma SlotOf(c: Case, x: nat) returns (i: nat)
    requires CaseOk(c) && x in c.ids
    ensures i < |c.free| && c.shortIds[i] == x && c.ids[x] == c.free[i]
  {
    assert c.shortIds[..|c.shortIds|] == c.shortIds;
    i :| 0 <= i < |c.shortIds| && c.shortIds[i] == x;
  }

  ghost function Txs(cs: seq<Candidate>): set<Tx> { set i | 0 <= i < |cs| :: cs[i].tx }

  /** Nothing is listed twice, except among the extra transactions. */
  ghost predicate Fresh(cs: seq<Candidate>, seen: set<Tx>) {
    forall i | 0 <= i < |cs| :: cs[i].extra || (cs[i].tx !in seen && forall j | 0 <= j < i :: cs[j].tx != cs[i].tx)
  }

  /** With every slot filled, seeing more transactions makes no difference. */
  lemma ExactWider(c: Case, sc: Scan, seen: set<Tx>, all: set<Tx>)
    requires CaseOk(c) && Exact(c, sc, seen) && seen <= all && sc.count == |c.free|
    ensures Exact(c, sc, all)
  {
    CountAll(sc.avail, c.free);
    hide CountSome, CaseOk;
  }

  lemma IdsCount(c: Case)
    requires CaseOk(c)
    ensures |c.ids| == |c.free|
  {
    assert c.shortIds[..|c.shortIds|] == c.shortIds;
  }

  lemma {:induction false} ScanExact(c: Case, sc: Scan, seen: set<Tx>, cs: seq<Candidate>)
    requires CaseOk(c) && Exact(c, sc, seen) && Ready(sc, c.ids) && Fresh(cs, seen)
    requires forall i | 0 <= i < |cs| :: NoCollision(c, cs[i])
    ensures Exact(c, MatchAll(sc, c.ids, c.shortId, cs), seen + Txs(cs))
    decreases |cs|
  {
    hide CaseOk, Exact, NoCollision, Ready, Match;
    if cs == [] {
      assert seen + Txs(cs) == seen;
    } else {
      var rest := cs[1..];
      var next, seen' := Match(sc, c.ids, c.shortId, cs[0]), seen + {cs[0].tx};
      MatchKeeps(c, sc, seen, cs[0]);
      FirstAndRest(cs, seen);
      IdsCount(c);
      if next.count == |c.ids| {
        ExactWider(c, next, seen', seen + Txs(cs));
      } else {
        ScanExact(c, next, seen', rest);
      }
    }
  }

  lemma FirstAndRest(cs: seq<Candidate>, seen: set<Tx>)
    requires cs != [] && Fresh(cs, seen)
    ensures seen + Txs(cs) == seen + {cs[0].tx} + Txs(cs[1..]) && Fresh(cs[1..], seen + {cs[0].tx})
  {
    var rest := cs[1..];
    forall t ensures t in Txs(cs) <==> t in {cs[0].tx} + Txs(rest) {
      if t in Txs(cs) {
        var i :| 0 <= i < |cs| && cs[i].tx == t;
        if i > 0 { assert rest[i - 1].tx == t; }
      }
      if t in Txs(rest) {
        var i :| 0 <= i < |rest| && rest[i].tx == t;
        assert cs[i + 1].tx == t;
      }
    }
    forall i | 0 <= i < |rest|
      ensures rest[i].extra || (rest[i].tx !in seen + {cs[0].tx} && forall j | 0 <= j < i :: rest[j].tx != rest[i].tx)
    {
      assert rest[i] == cs[i + 1];
      assert forall j | 0 <= j < i :: rest[j] == cs[j + 1];
    }
  }

  // --------------------------------------------------------------------- filling in

  /** The transactions of the empty slots, in order. */
  function Missing(avail: Slots, block: seq<Tx>): seq<Tx>
    requires |avail| == |block|
  {
    if avail == [] then []
    else
      var n := |avail| - 1;
      Missing(avail[..n], block[..n]) + if avail[n].None? then [block[n]] else []
  }

  /** `block` has the available transactions in their slots. */
  ghost predicate Agrees(avail: Slots, block: seq<Tx>) {
    |avail| == |block| && forall j | 0 <= j < |avail| && avail[j].Some? :: avail[j] == Some(block[j])
  }

  /** Slots and missing transactions determine the block. */
  lemma {:induction false} SameBlock(avail: Slots, a: seq<Tx>, b: seq<Tx>)
    requires Agrees(avail, a) && Agrees(avail, b) && Missing(avail, a) == Missing(avail, b)
    ensures a == b
    decreases |avail|
  {
    if avail != [] {
      var n := |avail| - 1;
      if avail[n].None? {
        assert Missing(avail, a)[|Missing(avail, a)| - 1] == a[n] && Missing(avail, b)[|Missing(avail, b)| - 1] == b[n];
        assert Missing(avail[..n], a[..n]) == Missing(avail, a)[..|Missing(avail, a)| - 1];
        assert Missing(avail[..n], b[..n]) == Missing(avail, b)[..|Missing(avail, b)| - 1];
      } else {
        assert Missing(avail, a) == Missing(avail[..n], a[..n]) && Missing(avail, b) == Missing(avail[..n], b[..n]);
      }
      SameBlock(avail[..n], a[..n], b[..n]);
      assert a == a[..n] + [a[n]] && b == b[..n] + [b[n]];
    }
  }

  lemma {:induction false} MissingNext(avail: Slots, vtx: seq<Tx>, tx: Tx)
    requires |vtx| < |avail|
    ensures Missing(avail[..|vtx| + 1], vtx + [tx])
         == Missing(avail[..|vtx|], vtx) + if avail[|vtx|].None? then [tx] else []
  {
    var n := |vtx|;
    assert avail[..n + 1][..n] == avail[..n] && (vtx + [tx])[..n] == vtx;
  }

  /** A block being put together. */
  class PartiallyDownloadedBlock {
    var headerNull: bool
    var header: nat
    var txnAvailable: Slots
    var mempoolCount: int

    constructor ()
      ensures headerNull && txnAvailable == [] && mempoolCount == 0
    {
      headerNull, header, txnAvailable, mempoolCount := true, 0, [], 0;
    }

    ghost predicate Refuses(m: Message)
      reads this
    {
      m.headerNull || m.TxCount() == 0 || !headerNull || txnAvailable != []
    }

    /**
     * Sets up the slots from a message: prefilled transactions, then whatever short ids match in the
     * pool and among the extra transactions. A failure leaves the transactions prefilled so far.
     */
    method InitData(m: Message, pool: seq<Tx>, extra: seq<(nat, Tx)>, shortId: nat -> nat, crowded: nat -> bool)
      returns (status: Status, ghost base: Slots, ghost ids: map<nat, nat>)
      requires m.TxCount() <= 65535
      modifies this
      ensures status == INVALID <==> old(Refuses(m)) || !WellPlaced(m)
      ensures status == FAILED <==>
                !old(Refuses(m)) && WellPlaced(m)
                    && (!Distinct(m.shortIds) || exists i :: 0 <= i < |m.shortIds| && crowded(i))
      ensures status != CHECKBLOCK_FAILED
      ensures old(Refuses(m)) ==> unchanged(this)
      ensures !old(Refuses(m)) ==> !headerNull && header == m.header && exists n ::
                PlacedUntil(m, n) && Filled(m, n, base)
      ensures !old(Refuses(m)) && status != OK ==> txnAvailable == base && mempoolCount == old(mempoolCount)
      ensures status == OK ==>
                && Filled(m, |m.prefilled|, base) && Assigned(ids, m.shortIds, Free(base), |m.shortIds|)
                && Ready(Start(base), ids)
                && var sc := Matched(Scan(base, NoneYet(base), old(mempoolCount)), ids, shortId, pool, extra);
                   txnAvailable == sc.avail && mempoolCount == sc.count
    {
      hide Filled, Assigned, WellPlaced, PlacedUntil, Free, MatchAll, Ready;
      base, ids := [], map[];
      if m.headerNull || (|m.shortIds| == 0 && |m.prefilled| == 0) || m.TxCount() > MAX_TXS {
        return INVALID, base, ids;
      }
      if !headerNull || txnAvailable != [] {
        return INVALID, base, ids;
      }
      headerNull, header := false, m.header;
      var ok, slots, n := PlacePrefilled(m);
      base, txnAvailable := slots, slots;
      if !ok {
        return INVALID, base, ids;
      }
      FilledFree(m, base);
      var map_;
      status, map_ := AssignSlots(m, slots, crowded);
      ids := map_;
      if status != OK {
        return;
      }
      AssignedSize(ids, m.shortIds, Free(base));
      if |map_| != |m.shortIds| {
        return FAILED, base, ids;
      }
      AssignedReady(ids, m.shortIds, base);
      StillReady(base, mempoolCount, ids);
      var sc := ScanAll(Scan(slots, NoneYet(slots), mempoolCount), map_, shortId, FromPool(pool));
      sc := ScanAll(sc, map_, shortId, FromExtra(extra));
      txnAvailable, mempoolCount := sc.avail, sc.count;
    }

    method IsTxAvailable(index: nat) returns (available: bool)
      requires !headerNull ==> index < |txnAvailable|
      ensures available == (!headerNull && txnAvailable[index].Some?)
    {
      available := !headerNull && txnAvailable[index].Some?;
    }

    /**
     * Puts the block together from the slots and the transactions sent for the empty ones, which must be
     * as many. With too few the object stays as it is, less the transactions moved out so far.
     */
    method FillBlock(missing: seq<Tx>, check: seq<Tx> -> Status) returns (status: Status, vtx: seq<Tx>)
      modifies this
      ensures mempoolCount == old(mempoolCount)
      ensures old(headerNull) ==> status == INVALID && unchanged(this)
      ensures !old(headerNull) ==>
                var need := Free(old(txnAvailable));
                if |missing| < |need| then
                  && status == INVALID && !headerNull && header == old(header)
                  && txnAvailable == seq(need[|missing|], _ => None) + old(txnAvailable)[need[|missing|]..]
                else
                  && headerNull && txnAvailable == []
                  && if |missing| > |need| then status == INVALID
                     else Completed(old(txnAvailable), missing, vtx) && status == check(vtx)
    {
      hide Missing, Free;
      vtx := [];
      if headerNull {
        return INVALID, vtx;
      }
      ghost var avail := txnAvailable;
      var enough, used;
      enough, vtx, used := Fill(txnAvailable, missing);
      if !enough {
        TakeFree(avail, |vtx|);
        txnAvailable := seq(|vtx|, _ => None) + txnAvailable[|vtx|..];
        return INVALID, vtx;
      }
      assert avail[..|avail|] == avail;
      headerNull, txnAvailable := true, [];
      if |missing| != used {
        return INVALID, vtx;
      }
      assert missing[..used] == missing;
      status := check(vtx);
    }
  }

  /** `vtx` has the available transactions in their slots and the missing ones, in order, in the others. */
  ghost predicate Completed(avail: Slots, missing: seq<Tx>, vtx: seq<Tx>) {
    Agrees(avail, vtx) && Missing(avail, vtx) == missing
  }

  method Fill(avail: Slots, missing: seq<Tx>) returns (enough: bool, vtx: seq<Tx>, used: nat)
    ensures |vtx| <= |avail| && used <= |missing| && used == |Free(avail[..|vtx|])|
    ensures Agrees(avail[..|vtx|], vtx) && Missing(avail[..|vtx|], vtx) == missing[..used]
    ensures enough ==> |vtx| == |avail|
    ensures !enough ==> |vtx| < |avail| && avail[|vtx|].None? && used == |missing|
  {
    hide Missing, Free;
    vtx, used := [], 0;
    EmptyMissing();
    EmptyFree();
    for i := 0 to |avail|
      invariant |vtx| == i && used <= |missing| && used == |Free(avail[..i])|
      invariant Agrees(avail[..i], vtx) && Missing(avail[..i], vtx) == missing[..used]
    {
      var tx;
      if avail[i].None? {
        if |missing| <= used {
          return false, vtx, used;
        }
        tx := missing[used];
        assert missing[..used + 1] == missing[..used] + [tx];
        TakeFree(avail, i);
        used := used + 1;
      } else {
        tx := avail[i].value;
        SkipFilled(avail, i);
      }
      MissingNext(avail, vtx, tx);
      AgreesNext(avail, vtx, tx);
      vtx := vtx + [tx];
    }
    enough := true;
  }

  lemma EmptyMissing()
    ensures forall a: Slots, b: seq<Tx> | |a| == |b| == 0 :: Missing(a, b) == []
  {
  }

  lemma AgreesNext(avail: Slots, vtx: seq<Tx>, tx: Tx)
    requires |vtx| < |avail| && Agrees(avail[..|vtx|], vtx) && (avail[|vtx|].Some? ==> tx == avail[|vtx|].value)
    ensures Agrees(avail[..|vtx| + 1], vtx + [tx])
  {
    var n := |vtx|;
    forall j | 0 <= j < n + 1 && avail[..n + 1][j].Some? ensures avail[..n + 1][j] == Some((vtx + [tx])[j]) {
      if j < n { assert avail[..n][j] == avail[j]; }
    }
  }

  /** The missing transactions are those at the free positions. */
  lemma {:induction false} MissingIs(avail: Slots, block: seq<Tx>)
    requires |avail| == |block|
    ensures |Missing(avail, block)| == |Free(avail)|
    ensures forall i | 0 <= i < |Free(avail)| :: Missing(avail, block)[i] == block[Free(avail)[i]]
    decreases |avail|
  {
    if avail != [] {
      var n := |avail| - 1;
      MissingIs(avail[..n], block[..n]);
    }
  }

  // ----------------------------------------------------------------------- round trip

  /** The message describes the block: prefilled transactions in place, short ids for the others. */
  ghost predicate Describes(m: Message, block: seq<Tx>, base: Slots, shortId: nat -> nat) {
    && |block| == m.TxCount() && Filled(m, |m.prefilled|, base) && Agrees(base, block)
    && forall i | 0 <= i < |m.shortIds| && i < |Free(base)| :: m.shortIds[i] == shortId(block[Free(base)[i]].wtxid)
  }

  /** No transaction known here has the short id of a different one in the block. */
  ghost predicate NoneCollide(block: seq<Tx>, txs: seq<Tx>, shortId: nat -> nat) {
    forall i, j | 0 <= i < |block| && 0 <= j < |txs| ::
      shortId(txs[j].wtxid) == shortId(block[i].wtxid) ==> txs[j] == block[i]
  }

  ghost function Second(extra: seq<(nat, Tx)>): seq<Tx> {
    seq(|extra|, i requires 0 <= i < |extra| => extra[i].1)
  }

  lemma StartExact(c: Case)
    requires CaseOk(c)
    ensures Exact(c, Start(c.base), {})
  {
    FreeIs(c.base);
    NoneSome(c.base, c.free);
  }

  lemma {:induction false} NoneSome(s: Slots, free: seq<nat>)
    requires forall i | 0 <= i < |free| :: free[i] < |s| && s[free[i]].None?
    ensures CountSome(s, free) == 0
    decreases |free|
  {
    if free != [] { NoneSome(s, free[..|free| - 1]); }
  }

  lemma PoolFits(c: Case, pool: seq<Tx>)
    requires CaseOk(c) && NoneCollide(c.block, pool, c.shortId) && Distinct(pool)
    ensures Fresh(FromPool(pool), {}) && forall i | 0 <= i < |pool| :: NoCollision(c, FromPool(pool)[i])
  {
    hide CaseOk;
    var cs := FromPool(pool);
    forall i | 0 <= i < |cs| ensures forall j | 0 <= j < i :: cs[j].tx != cs[i].tx {
      forall j | 0 <= j < i ensures cs[j].tx != cs[i].tx { DistinctAt(pool, j, i); }
    }
  }

  lemma ExtraFits(c: Case, extra: seq<(nat, Tx)>, seen: set<Tx>)
    requires CaseOk(c) && NoneCollide(c.block, Second(extra), c.shortId)
             && forall i | 0 <= i < |extra| :: extra[i].0 == extra[i].1.wtxid
    ensures Fresh(FromExtra(extra), seen) && forall i | 0 <= i < |extra| :: NoCollision(c, FromExtra(extra)[i])
  {
    hide CaseOk;
    assert forall i | 0 <= i < |extra| :: Second(extra)[i] == extra[i].1;
  }

  /** A slot ends up filled exactly if its transaction was prefilled, in the pool or among the extra ones. */
  lemma SlotsExact(c: Case, pool: seq<Tx>, extra: seq<(nat, Tx)>)
    requires CaseOk(c) && Agrees(c.base, c.block) && Ready(Start(c.base), c.ids)
    requires NoneCollide(c.block, pool, c.shortId) && NoneCollide(c.block, Second(extra), c.shortId) && Distinct(pool)
    requires forall i | 0 <= i < |extra| :: extra[i].0 == extra[i].1.wtxid
    ensures var avail := Matched(Start(c.base), c.ids, c.shortId, pool, extra).avail;
            && Agrees(avail, c.block)
            && forall j | 0 <= j < |avail| :: avail[j].Some? <==>
                 c.base[j].Some? || c.block[j] in pool || c.block[j] in Second(extra)
  {
    hide CaseOk, Exact, NoCollision, MatchAll, Ready, Fresh;
    StartExact(c);
    PoolFits(c, pool);
    var start := Start(c.base);
    ScanExact(c, start, {}, FromPool(pool));
    var mid := MatchAll(start, c.ids, c.shortId, FromPool(pool));
    var seen := {} + Txs(FromPool(pool));
    ExtraFits(c, extra, seen);
    ScanExact(c, mid, seen, FromExtra(extra));
    SeenIs(pool, extra);
    ReadExact(c, Matched(Start(c.base), c.ids, c.shortId, pool, extra), seen + Txs(FromExtra(extra)));
  }

  lemma SeenIs(pool: seq<Tx>, extra: seq<(nat, Tx)>)
    ensures forall t :: t in {} + Txs(FromPool(pool)) + Txs(FromExtra(extra)) <==> t in pool || t in Second(extra)
  {
    forall t ensures t in Txs(FromPool(pool)) <==> t in pool {
      if t in pool { var i :| 0 <= i < |pool| && pool[i] == t; assert FromPool(pool)[i].tx == t; }
    }
    forall t ensures t in Txs(FromExtra(extra)) <==> t in Second(extra) {
      if t in Second(extra) { var i :| 0 <= i < |extra| && Second(extra)[i] == t; assert FromExtra(extra)[i].tx == t; }
      if t in Txs(FromExtra(extra)) {
        var i :| 0 <= i < |extra| && FromExtra(extra)[i].tx == t;
        assert Second(extra)[i] == t;
      }
    }
  }

  lemma ReadExact(c: Case, sc: Scan, seen: set<Tx>)
    requires CaseOk(c) && Exact(c, sc, seen) && Agrees(c.base, c.block)
    ensures Agrees(sc.avail, c.block)
    ensures forall j | 0 <= j < |sc.avail| :: sc.avail[j].Some? <==> c.base[j].Some? || c.block[j] in seen
  {
    FreeIs(c.base);
    hide Free, CountSome, Assigned;
    forall j | 0 <= j < |sc.avail|
      ensures (sc.avail[j].Some? ==> sc.avail[j] == Some(c.block[j]))
              && (sc.avail[j].Some? <==> c.base[j].Some? || c.block[j] in seen)
    {
      if c.base[j].None? {
        var i :| 0 <= i < |c.free| && c.free[i] == j;
      }
    }
  }

  /** Whatever the slots hold, the missing transactions of the block complete them to the block, and only to it. */
  lemma Rebuilds(avail: Slots, block: seq<Tx>, vtx: seq<Tx>)
    requires Agrees(avail, block)
    ensures Completed(avail, Missing(avail, block), vtx) <==> vtx == block
  {
    if Completed(avail, Missing(avail, block), vtx) { SameBlock(avail, vtx, block); }
  }

  /**
   * From a message that describes a block, with no short id colliding: the slots left empty are exactly
   * those of unknown transactions, and sending these rebuilds the block.
   */
  lemma Reconstructs(m: Message, block: seq<Tx>, base: Slots, ids: map<nat, nat>, shortId: nat -> nat,
                    pool: seq<Tx>, extra: seq<(nat, Tx)>, vtx: seq<Tx>)
    requires Describes(m, block, base, shortId) && Distinct(block) && Distinct(m.shortIds)
    requires Assigned(ids, m.shortIds, Free(base), |m.shortIds|) && Ready(Start(base), ids)
    requires NoneCollide(block, pool, shortId) && NoneCollide(block, Second(extra), shortId) && Distinct(pool)
    requires forall i | 0 <= i < |extra| :: extra[i].0 == extra[i].1.wtxid
    ensures var avail := Matched(Start(base), ids, shortId, pool, extra).avail;
            && Agrees(avail, block)
            && (forall j | 0 <= j < |avail| :: avail[j].Some? <==>
                  base[j].Some? || block[j] in pool || block[j] in Second(extra))
            && (Completed(avail, Missing(avail, block), vtx) <==> vtx == block)
  {
    hide CaseOk, Free, Assigned, Filled, Ready, NoneCollide, Matched, Missing, Completed;
    var c := Case(base, Free(base), block, ids, m.shortIds, shortId);
    DescribedCase(m, c);
    SlotsExact(c, pool, extra);
    Rebuilds(Matched(Start(base), ids, shortId, pool, extra).avail, block, vtx);
  }

  lemma FilledFree(m: Message, s: Slots)
    requires Filled(m, |m.prefilled|, s)
    ensures |s| == m.TxCount() && |Free(s)| == |m.shortIds|
  {
  }

  lemma AssignedSize(ids: map<nat, nat>, shortIds: seq<nat>, free: seq<nat>)
    requires Assigned(ids, shortIds, free, |shortIds|)
    ensures |ids| == |shortIds| <==> Distinct(shortIds)
  {
    assert shortIds[..|shortIds|] == shortIds;
  }

  lemma AssignedReady(ids: map<nat, nat>, shortIds: seq<nat>, base: Slots)
    requires Assigned(ids, shortIds, Free(base), |shortIds|) && Distinct(shortIds)
    ensures Ready(Start(base), ids)
  {
    assert shortIds[..|shortIds|] == shortIds;
    forall x | x in ids ensures ids[x] < |base| {
      var i :| 0 <= i < |shortIds| && shortIds[i] == x;
      assert ids[x] == Free(base)[i];
    }
  }

  function FromPool(pool: seq<Tx>): (r: seq<Candidate>)
    ensures |r| == |pool|
  {
    seq(|pool|, i requires 0 <= i < |pool| => Candidate(pool[i].wtxid, pool[i], false))
  }

  function FromExtra(extra: seq<(nat, Tx)>): (r: seq<Candidate>)
    ensures |r| == |extra|
  {
    seq(|extra|, i requires 0 <= i < |extra| => Candidate(extra[i].0, extra[i].1, true))
  }

  /** Both scans, from slots that hold only prefilled transactions. */
  function Matched(start: Scan, ids: map<nat, nat>, shortId: nat -> nat, pool: seq<Tx>, extra: seq<(nat, Tx)>): Scan
    requires Ready(start, ids)
  {
    MatchAll(MatchAll(start, ids, shortId, FromPool(pool)), ids, shortId, FromExtra(extra))
  }

  /** The scans of a new object begin with nothing found. */
  function Start(base: Slots): Scan { Scan(base, NoneYet(base), 0) }

  function NoneYet(base: Slots): seq<bool> { seq(|base|, _ => false) }

  lemma StillReady(base: Slots, count: int, ids: map<nat, nat>)
    requires Ready(Start(base), ids)
    ensures Ready(Scan(base, NoneYet(base), count), ids)
  {
  }

  lemma DescribedCase(m: Message, c: Case)
    requires Describes(m, c.block, c.base, c.shortId) && Distinct(c.block) && Distinct(m.shortIds)
    requires Assigned(c.ids, m.shortIds, Free(c.base), |m.shortIds|) && c.free == Free(c.base)
             && c.shortIds == m.shortIds
    ensures CaseOk(c)
  {
    hide Assigned, Filled, Free;
    FreeIs(c.base);
    FilledFree(m, c.base);
  }

  // ------------------------------------------------------------------------ the sender

  /** The message for a block: the coinbase in full, a short id for every other transaction. */
  function Compress(header: nat, block: seq<Tx>, shortId: nat -> nat): Message
    requires block != []
  {
    Message(false, header,
            seq<nat>(|block| - 1, i requires 0 <= i < |block| - 1 => shortId(block[i + 1].wtxid)),
            [Prefilled(0, block[0])])
  }

  function CoinbaseOnly(block: seq<Tx>): Slots
    requires block != []
  {
    [Some(block[0])] + seq(|block| - 1, _ => None)
  }

  lemma {:induction false} FreeTail(tx: Tx, n: nat)
    ensures Free([Some(tx)] + seq(n, _ => None)) == seq(n, i => i + 1)
    decreases n
  {
    var s := [Some(tx)] + seq(n, _ => None);
    if n == 0 {
      assert s[..0] == [];
    } else {
      FreeTail(tx, n - 1);
      assert s[..n] == [Some(tx)] + seq(n - 1, _ => None);
    }
  }

  /** A block made compact is described by the message, and a receiver can place everything in it. */
  lemma CompressDescribes(header: nat, block: seq<Tx>, shortId: nat -> nat)
    requires 0 < |block| <= 65535 && !block[0].isNull
    ensures var m := Compress(header, block, shortId);
            WellPlaced(m) && m.TxCount() == |block| && Describes(m, block, CoinbaseOnly(block), shortId)
  {
    var m := Compress(header, block, shortId);
    var base := CoinbaseOnly(block);
    FreeTail(block[0], |block| - 1);
    assert m.prefilled[..0] == [];
    assert Positions(m.prefilled) == [0];
    hide Positions, Free;
    assert Filled(m, 1, base) by {
      forall i | 0 <= i < |base| && base[i].Some? ensures exists j :: 0 <= j < 1 && Positions(m.prefilled)[j] == i {
        assert Positions(m.prefilled)[0] == i;
      }
    }
  }

  /** What a receiver has set up is the only way to read the message. */
  lemma {:induction false} FilledUnique(m: Message, s: Slots, t: Slots)
    requires Filled(m, |m.prefilled|, s) && Filled(m, |m.prefilled|, t)
    ensures s == t
  {
    hide Positions, Free;
    forall i | 0 <= i < |s| ensures s[i] == t[i] {
      if s[i].Some? {
        var j :| 0 <= j < |m.prefilled| && Positions(m.prefilled)[j] == i;
      }
      if t[i].Some? {
        var j :| 0 <= j < |m.prefilled| && Positions(m.prefilled)[j] == i;
      }
    }
  }
}
