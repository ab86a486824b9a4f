/** The cuckoo cache: every element has eight places of its own, and inserting may move others on. */
module Cuckoo {
  import opened Collections

  type Element = int

  /** What an empty table is filled with. */
  const DEFAULT: Element := 0

  /** The places of an element, in a table of some size. */
  ghost predicate Hashes(locs: Element -> seq<nat>, size: nat) {
    forall e :: |locs(e)| == 8 && forall k | 0 <= k < 8 :: locs(e)[k] < size
  }

  // ----------------------------------------------------------------- what is kept

  /** Every element is at one of its own places. */
  ghost predicate AtHome(locs: Element -> seq<nat>, table: seq<Element>) {
    forall i | 0 <= i < |table| :: table[i] == DEFAULT || i in locs(table[i])
  }

  ghost predicate Once(table: seq<Element>) {
    forall i, j | 0 <= i < j < |table| :: table[i] == table[j] ==> table[i] == DEFAULT
  }

  ghost predicate Good(locs: Element -> seq<nat>, table: seq<Element>) { AtHome(locs, table) && Once(table) }

  /** Looking at the eight places is as good as looking everywhere. */
  lemma LookupExact(locs: Element -> seq<nat>, table: seq<Element>, e: Element)
    requires Hashes(locs, |table|) && Good(locs, table) && e != DEFAULT
    ensures e in table <==> exists k | 0 <= k < 8 :: table[locs(e)[k]] == e
  {
    if e in table {
      var i :| 0 <= i < |table| && table[i] == e;
      var k :| 0 <= k < 8 && locs(e)[k] == i;
    }
  }

  /** An element not in the table, put at one of its places, keeps the table good; so does what it replaces. */
  lemma PutKeeps(locs: Element -> seq<nat>, table: seq<Element>, e: Element, i: nat)
    requires Hashes(locs, |table|) && Good(locs, table) && i in locs(e) && i < |table| && (e == DEFAULT || e !in table)
    ensures Good(locs, table[i := e])
    ensures table[i] == DEFAULT || table[i] == e || table[i] !in table[i := e]
    ensures multiset(table[i := e]) + multiset{table[i]} == multiset(table) + multiset{e}
  {
    assert multiset(table[i := e]) == multiset(table) - multiset{table[i]} + multiset{e};
    assert table[i] in multiset(table);
  }

  // ------------------------------------------------------------------------- the cache

  class Cache {
    const size: nat
    const locs: Element -> seq<nat>
    const depthLimit: nat
    const epochSize: nat
    const table: array<Element>
    const collect: array<bool>
    const recent: array<bool>
    var heuristic: nat

    ghost predicate Valid()
      reads this, table
    {
      && table.Length == size && collect.Length == size && recent.Length == size && collect != recent
      && Hashes(locs, size) && Good(locs, table[..])
    }

    /** All slots start out discardable. */
    constructor (newSize: nat, locs: Element -> seq<nat>, depthLimit: nat)
      requires Hashes(locs, if newSize < 2 then 2 else newSize)
      ensures Valid() && this.locs == locs && fresh(table) && fresh(collect) && fresh(recent)
      ensures forall i | 0 <= i < size :: table[i] == DEFAULT && collect[i] && !recent[i]
    {
      var n := if newSize < 2 then 2 else newSize;
      size, this.locs, this.depthLimit := n, locs, depthLimit;
      var e := 45 * n / 100;
      epochSize := if e < 1 then 1 else e;
      heuristic := if e < 1 then 1 else e;
      table := new Element[n](_ => DEFAULT);
      collect := new bool[n](_ => true);
      recent := new bool[n](_ => false);
    }

    /** Whether the element is there; `erase` marks it as discardable. */
    method Contains(e: Element, erase: bool) returns (found: bool)
      requires Valid()
      modifies collect
      ensures e != DEFAULT ==> found == (e in table[..])
      ensures forall i | 0 <= i < size :: old(collect[i]) ==> collect[i]
      ensures forall i | 0 <= i < size :: collect[i] && !old(collect[i]) ==> erase && table[i] == e
      ensures found && erase ==> exists i | 0 <= i < size :: table[i] == e && collect[i]
    {
      hide Good;
      var l := locs(e);
      if e != DEFAULT { LookupExact(locs, table[..], e); }
      var k := 0;
      while k < 8
        invariant 0 <= k <= 8 && forall j | 0 <= j < k :: table[l[j]] != e
      {
        if table[l[k]] == e {
          if erase {
            collect[l[k]] := true;
          }
          return true;
        }
        k := k + 1;
      }
      return false;
    }

    /** Counts the recent elements that are not discardable. */
    method CountRecent() returns (n: nat)
      requires Valid()
      ensures n == RecentCount(recent[..], collect[..])
    {
      n := 0;
      for i := 0 to size
        invariant n == RecentCount(recent[..i], collect[..i])
      {
        assert recent[..i + 1][..i] == recent[..i] && collect[..i + 1][..i] == collect[..i];
        if recent[i] && !collect[i] {
          n := n + 1;
        }
      }
      assert recent[..size] == recent[..] && collect[..size] == collect[..];
    }

    /** Whether the next epoch check ages the epochs. */
    ghost predicate Ages()
      reads this, collect, recent
      requires recent.Length == collect.Length
    {
      heuristic == 0 && RecentCount(recent[..], collect[..]) >= epochSize
    }

    /** The discardable slots once the epoch check is done. */
    ghost function Discardable(): (r: seq<bool>)
      reads this, collect, recent
      requires recent.Length == collect.Length
      ensures |r| == collect.Length
    {
      seq(collect.Length, i requires 0 <= i < collect.Length reads this, collect, recent => collect[i]
          || (Ages() && !recent[i]))
    }

    /** Ages the epochs once enough has been inserted: elements of the old epoch become discardable. */
    method EpochCheck()
      requires Valid()
      modifies this`heuristic, collect, recent
      ensures Valid() && collect[..] == old(Discardable())
      ensures recent[..] == if old(Ages()) then seq(size, _ => false) else old(recent[..])
    {
      if heuristic != 0 {
        heuristic := heuristic - 1;
        return;
      }
      var unused := CountRecent();
      if unused >= epochSize {
        for i := 0 to size
          invariant forall j | 0 <= j < i :: !recent[j] && (collect[j] <==> old(collect[j]) || !old(recent[j]))
          invariant forall j | i <= j < size :: recent[j] == old(recent[j]) && collect[j] == old(collect[j])
        {
          if recent[i] {
            recent[i] := false;
          } else {
            collect[i] := true;
          }
        }
        heuristic := epochSize;
      } else {
        heuristic := Max(1, Max(epochSize / 16, epochSize - unused));
      }
    }

    /** The first of some places that holds `e`, or 8. */
    method FindElement(l: seq<nat>, e: Element) returns (k: nat)
      requires Valid() && |l| == 8 && forall j | 0 <= j < 8 :: l[j] < size
      ensures k <= 8 && (k < 8 ==> table[l[k]] == e) && (k == 8 ==> forall j | 0 <= j < 8 :: table[l[j]] != e)
    {
      k := 0;
      while k < 8 && table[l[k]] != e
        invariant k <= 8 && forall j | 0 <= j < k :: table[l[j]] != e
      {
        k := k + 1;
      }
    }

    /** The first of some places that is discardable, or 8. */
    method FindFree(l: seq<nat>) returns (k: nat)
      requires Valid() && |l| == 8 && forall j | 0 <= j < 8 :: l[j] < size
      ensures k <= 8 && (k < 8 ==> collect[l[k]]) && (k == 8 ==> forall j | 0 <= j < 8 :: !collect[l[j]])
    {
      k := 0;
      while k < 8 && !collect[l[k]]
        invariant k <= 8 && forall j | 0 <= j < k :: !collect[l[j]]
      {
        k := k + 1;
      }
    }

    /**
     * Inserts `e`. It is there already, or it takes a discardable slot, perhaps after moving others on,
     * or the last element moved is dropped. Whatever happens, at most one element is lost.
     */
    method Insert(e: Element) returns (ghost outcome: Outcome)
      requires Valid()
      modifies this`heuristic, table, collect, recent
      ensures Valid() && Kept(outcome, e, old(table[..]), old(Discardable()), table[..], collect[..])
    {
      hide Good, Kept, Moving;
      ghost var was, flags := table[..], Discardable();
      EpochCheck();
      var l := locs(e);
      var k := FindElement(l, e);
      if k < 8 {
        collect[l[k]] := false;
        recent[l[k]] := true;
        outcome := Present(l[k]);
        KeptPresent(was, flags, e, l[k]);
        return;
      }
      MovingStarts(locs, was, flags, e);
      outcome := MoveOn(e, was, flags, e);
    }

    /** The eviction loop, with `hand` the element that has no place yet. */
    method MoveOn(e: Element, ghost was: seq<Element>, ghost flags: seq<bool>, ghost first: Element)
      returns (ghost outcome: Outcome)
      requires Valid() && collect[..] == flags && Moving(locs, was, flags, first, table[..], e)
      modifies table, collect, recent
      ensures Valid() && Kept(outcome, first, was, flags, table[..], collect[..])
    {
      hide Good, Kept, Moving;
      var hand, l, lastLoc, lastEpoch := e, locs(e), size, true;
      for depth := 0 to depthLimit
        invariant Valid() && collect[..] == flags && Moving(locs, was, flags, first, table[..], hand) && l == locs(hand)
      {
        var k := FindFree(l);
        ghost var now := table[..];
        if k < 8 {
          MovingEnds(locs, was, flags, first, now, hand, l[k]);
          table[l[k]] := hand;
          assert table[..] == now[l[k] := hand];
          collect[l[k]] := false;
          recent[l[k]] := lastEpoch;
          outcome := Placed(l[k], now[l[k]]);
          assert collect[..] == flags[l[k] := false];
          return;
        }
        lastLoc := NextPlace(l, lastLoc);
        MovingSwaps(locs, was, flags, first, now, hand, lastLoc);
        table[lastLoc], hand := hand, table[lastLoc];
        assert table[..] == now[lastLoc := table[lastLoc]];
        recent[lastLoc], lastEpoch := lastEpoch, recent[lastLoc];
        l := locs(hand);
      }
      outcome := Dropped(hand);
      MovingDropped(locs, was, flags, first, table[..], hand);
    }
  }

  /** What became of an insertion: where the element was or went, and what was lost. */
  datatype Outcome = Present(at: nat) | Placed(at: nat, lost: Element) | Dropped(lost: Element)

  ghost function RecentCount(recent: seq<bool>, collect: seq<bool>): nat
    requires |recent| == |collect|
  {
    if recent == [] then 0
    else
      var n := |recent| - 1;
      RecentCount(recent[..n], collect[..n]) + if recent[n] && !collect[n] then 1 else 0
  }

  /** The place after the one last used. */
  function NextPlace(l: seq<nat>, last: nat): (r: nat)
    requires |l| == 8
    ensures r in l
  {
    l[(1 + IndexIn(l, last)) % 8]
  }

  function IndexIn(l: seq<nat>, x: nat): (k: nat)
    ensures k <= |l| && (k < |l| ==> l[k] == x)
  {
    if l == [] || l[0] == x then 0 else 1 + IndexIn(l[1..], x)
  }

  lemma {:induction false} IndexIs(l: seq<nat>, x: nat)
    ensures IndexIn(l, x) == |l| <==> x !in l
    ensures forall j | 0 <= j < IndexIn(l, x) :: l[j] != x
    decreases |l|
  {
    if l != [] && l[0] != x {
      IndexIs(l[1..], x);
      assert forall j | 0 < j < |l| :: l[j] == l[1..][j - 1];
    }
  }

  /** An element not yet moved goes to its second place, which is the first one only if the two are the same. */
  lemma FirstSwap(l: seq<nat>, last: nat)
    requires |l| == 8 && last !in l
    ensures NextPlace(l, last) == l[1]
    ensures NextPlace(l, last) == l[0] <==> l[0] == l[1]
  {
    IndexIs(l, last);
  }

  /** An element moved out of its `k`-th place goes to the next one, wrapping around; if its places differ
      that is never where the last element has just been put. */
  lemma LaterSwap(l: seq<nat>, k: nat)
    requires |l| == 8 && k < 8 && forall j | 0 <= j < k :: l[j] != l[k]
    ensures NextPlace(l, l[k]) == l[(k + 1) % 8]
    ensures Distinct(l) ==> NextPlace(l, l[k]) != l[k]
  {
    hide IndexIn;
    IndexIs(l, l[k]);
    assert IndexIn(l, l[k]) == k;
  }

  lemma FirstSwapExample()
    ensures var l := [10, 11, 12, 13, 14, 15, 16, 17]; NextPlace(l, 99) == l[1] != l[0]
  {
    FirstSwap([10, 11, 12, 13, 14, 15, 16, 17], 99);
  }

  /** The old contents and the new element are all there but for one at most, a discardable one if a slot was free. */
  ghost predicate Kept(o: Outcome, e: Element, was: seq<Element>, flags: seq<bool>, table: seq<Element>,
                       collect: seq<bool>) {
    && |was| == |flags| == |table| == |collect|
    && match o
       case Present(at) => at < |table| && table[at] == e && table == was && collect == flags[at := false]
       case Placed(at, lost) =>
         && at < |table| && flags[at] && lost == was[at] && collect == flags[at := false]
         && multiset(table) + multiset{lost} == multiset(was) + multiset{e}
       case Dropped(lost) =>
         collect == flags && multiset(table) + multiset{lost} == multiset(was) + multiset{e}
  }

  /** In the eviction loop: nothing is lost yet, and discardable slots are untouched. */
  ghost predicate Moving(locs: Element -> seq<nat>, was: seq<Element>, flags: seq<bool>, first: Element,
                         table: seq<Element>, hand: Element) {
    && |was| == |flags| == |table| && (hand == DEFAULT || hand !in table)
    && multiset(table) + multiset{hand} == multiset(was) + multiset{first}
    && (forall i | 0 <= i < |flags| && flags[i] :: table[i] == was[i])
  }

  lemma KeptPresent(was: seq<Element>, flags: seq<bool>, e: Element, at: nat)
    requires |was| == |flags| && at < |was| && was[at] == e
    ensures Kept(Present(at), e, was, flags, was, flags[at := false])
  {
  }

  lemma MovingStarts(locs: Element -> seq<nat>, was: seq<Element>, flags: seq<bool>, e: Element)
    requires |was| == |flags| && Hashes(locs, |was|) && Good(locs, was) && forall k | 0 <= k < 8 :: was[locs(e)[k]] != e
    ensures Moving(locs, was, flags, e, was, e)
  {
    if e != DEFAULT { LookupExact(locs, was, e); }
  }

  lemma MovingSwaps(locs: Element -> seq<nat>, was: seq<Element>, flags: seq<bool>, first: Element,
                    table: seq<Element>, hand: Element, at: nat)
    requires Moving(locs, was, flags, first, table, hand) && Hashes(locs, |table|) && Good(locs, table)
    requires at in locs(hand) && at < |table| && !flags[at]
    ensures Good(locs, table[at := hand]) && Moving(locs, was, flags, first, table[at := hand], table[at])
  {
    PutKeeps(locs, table, hand, at);
  }

  lemma MovingEnds(locs: Element -> seq<nat>, was: seq<Element>, flags: seq<bool>, first: Element, table: seq<Element>,
                   hand: Element, at: nat)
    requires Moving(locs, was, flags, first, table, hand) && Hashes(locs, |table|) && Good(locs, table)
    requires at in locs(hand) && at < |table| && flags[at]
    ensures Good(locs, table[at := hand])
            && Kept(Placed(at, table[at]), first, was, flags, table[at := hand], flags[at := false])
  {
    PutKeeps(locs, table, hand, at);
  }

  lemma MovingDropped(locs: Element -> seq<nat>, was: seq<Element>, flags: seq<bool>, first: Element,
                      table: seq<Element>, hand: Element)
    requires Moving(locs, was, flags, first, table, hand)
    ensures Kept(Dropped(hand), first, was, flags, table, flags)
  {
  }
}
