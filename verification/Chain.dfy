/** The block tree with its skip pointers, and the active chain as a vector of blocks. */
module Chain {
  import opened Collections

  /** A block: its place in the tree is fixed when it is added, its skip pointer is filled in later. */
  class BlockIndex {
    const pprev: BlockIndex?
    const height: nat
    const hash: nat
    var pskip: BlockIndex?

    constructor (prev: BlockIndex?, h: nat)
      ensures pprev == prev && hash == h && pskip == null
      ensures height == if prev == null then 0 else prev.height + 1
    {
      pprev, hash, pskip := prev, h, null;
      height := if prev == null then 0 else prev.height + 1;
    }
  }

  // ------------------------------------------------------------------- skip heights

  function BitAnd(x: nat, y: nat): (r: nat)
    ensures r <= y
  {
    if x == 0 || y == 0 then 0 else 2 * BitAnd(x / 2, y / 2) + x % 2 * (y % 2)
  }

  /** `n & (n - 1)`. */
  function InvertLowestOne(n: nat): (r: nat)
    ensures n > 0 ==> r < n
  {
    if n == 0 then 0 else BitAnd(n, n - 1)
  }

  function SkipHeight(height: nat): (r: nat)
    ensures height > 0 ==> r < height
  {
    if height < 2 then 0
    else if height % 2 == 1 then InvertLowestOne(InvertLowestOne(height - 1)) + 1
    else InvertLowestOne(height)
  }

  // ----------------------------------------------------------------------- the tree

  /** Following `pprev` leads to a block at height zero, one height at a time. */
  ghost predicate Rooted(b: BlockIndex)
    decreases b.height
  {
    if b.height == 0 then b.pprev == null
    else b.pprev != null && b.pprev.height == b.height - 1 && Rooted(b.pprev)
  }

  /** Repeated `pprev`. */
  ghost function Ancestor(b: BlockIndex, h: nat): (a: BlockIndex)
    requires Rooted(b) && h <= b.height
    ensures Rooted(a) && a.height == h
    decreases b.height
  {
    if h == b.height then b else Ancestor(b.pprev, h)
  }

  lemma {:induction false} AncestorOfAncestor(b: BlockIndex, k: nat, h: nat)
    requires Rooted(b) && h <= k <= b.height
    ensures Ancestor(Ancestor(b, k), h) == Ancestor(b, h)
    decreases b.height
  {
    if k < b.height { AncestorOfAncestor(b.pprev, k, h); }
  }

  /** Blocks closed under `pprev`, with skip pointers that are absent or right. */
  ghost predicate Index(blocks: set<BlockIndex>)
    reads blocks
  {
    forall b | b in blocks ::
      && Rooted(b) && (b.pprev != null ==> b.pprev in blocks)
      && (b.pskip != null ==> b.pskip == Ancestor(b, SkipHeight(b.height)))
  }

  lemma {:induction false} AncestorIn(blocks: set<BlockIndex>, b: BlockIndex, h: nat)
    requires Index(blocks) && b in blocks && h <= b.height
    ensures Ancestor(b, h) in blocks
    decreases b.height
  {
    if h < b.height { AncestorIn(blocks, b.pprev, h); }
  }

  /** The ancestor at a height, by skips where they help: the same as going back one by one. */
  method GetAncestor(start: BlockIndex, height: int, ghost blocks: set<BlockIndex>) returns (r: BlockIndex?)
    requires Index(blocks) && start in blocks
    ensures r == null <==> height < 0 || height > start.height
    ensures r != null ==> r in blocks && r == Ancestor(start, height)
  {
    if height > start.height || height < 0 {
      return null;
    }
    var walk, heightWalk := start, start.height;
    while heightWalk > height
      invariant walk in blocks && heightWalk == walk.height && height <= heightWalk
      invariant Ancestor(walk, height) == Ancestor(start, height)
      decreases heightWalk
    {
      var heightSkip := SkipHeight(heightWalk);
      var heightSkipPrev := SkipHeight(heightWalk - 1);
      if walk.pskip != null
         && (heightSkip == height
             || (heightSkip > height && !(heightSkipPrev < heightSkip - 2 && heightSkipPrev >= height))) {
        AncestorOfAncestor(walk, heightSkip, height);
        AncestorIn(blocks, walk, heightSkip);
        walk := walk.pskip;
        heightWalk := heightSkip;
      } else {
        assert walk.pprev != null;
        walk := walk.pprev;
        heightWalk := heightWalk - 1;
      }
    }
    return walk;
  }

  method BuildSkip(b: BlockIndex, ghost blocks: set<BlockIndex>)
    requires Index(blocks) && b in blocks
    modifies b`pskip
    ensures Index(blocks)
    ensures b.pprev != null ==> b.pskip == Ancestor(b, SkipHeight(b.height))
  {
    if b.pprev != null {
      var s := GetAncestor(b.pprev, SkipHeight(b.height), blocks);
      b.pskip := s;
    }
  }

  /** A new block under a known one, or a new root, with its skip pointer built. */
  method AddBlock(prev: BlockIndex?, hash: nat, ghost blocks: set<BlockIndex>) returns (b: BlockIndex)
    requires Index(blocks) && (prev != null ==> prev in blocks)
    ensures fresh(b) && b.pprev == prev && b.hash == hash && Index(blocks + {b})
    ensures prev != null ==> b.pskip == Ancestor(b, SkipHeight(b.height))
  {
    b := new BlockIndex(prev, hash);
    BuildSkip(b, blocks + {b});
  }

  // ---------------------------------------------------------------------- the chain

  /** A chain of blocks from a root, each the parent of the next. */
  ghost predicate Chained(v: seq<BlockIndex?>) {
    forall h | 0 <= h < |v| ::
      v[h] != null && Rooted(v[h]) && v[h].height == h && (h > 0 ==> v[h].pprev == v[h - 1])
  }

  /** Every entry is the tip's ancestor at its height. */
  lemma {:induction false} ChainIsAncestors(v: seq<BlockIndex?>, k: nat, h: nat)
    requires Chained(v) && h <= k < |v|
    ensures v[h] == Ancestor(v[k], h)
    decreases k
  {
    if h < k { ChainIsAncestors(v, k - 1, h); }
  }

  /** `a` is `b` or one of its ancestors. */
  ghost predicate IsAncestor(a: BlockIndex, b: BlockIndex)
    requires Rooted(b)
  {
    a.height <= b.height && a == Ancestor(b, a.height)
  }

  lemma ParentIs(a: BlockIndex, b: BlockIndex)
    requires Rooted(a) && Rooted(b) && IsAncestor(a, b)
    ensures a.pprev == null <==> a.height == 0
    ensures a.pprev != null ==> IsAncestor(a.pprev, b) && a.pprev.height == a.height - 1 && Rooted(a.pprev)
  {
    if a.height > 0 { AncestorOfAncestor(b, a.height, a.height - 1); }
  }

  ghost predicate OnChain(v: seq<BlockIndex?>, b: BlockIndex) { b.height < |v| && v[b.height] == b }

  /** Heights from `done` up hold the new chain, those below the old; `p` is the next block to write. */
  ghost predicate Writing(was: seq<BlockIndex?>, block: BlockIndex, v: seq<BlockIndex?>, done: nat, p: BlockIndex?) {
    && |v| == block.height + 1 && done <= |v|
    && (if p == null then done == 0 else Rooted(p) && p.height == done - 1)
    && (forall h | 0 <= h < done :: v[h] == if h < |was| then was[h] else null)
    && (forall h | done <= h < |v| :: v[h] != null && Rooted(v[h]) && v[h].height == h)
    && (forall h | done < h < |v| :: v[h].pprev == v[h - 1])
    && (if done < |v| then v[done].pprev == p && v[block.height] == block else p == block)
  }

  lemma WritingStarts(was: seq<BlockIndex?>, block: BlockIndex, v: seq<BlockIndex?>)
    requires Rooted(block) && |v| == block.height + 1
    requires v == if |v| <= |was| then was[..|v|] else was + seq(|v| - |was|, _ => null)
    ensures Writing(was, block, v, |v|, block)
  {
  }

  lemma WritingStep(was: seq<BlockIndex?>, block: BlockIndex, v: seq<BlockIndex?>, done: nat, p: BlockIndex)
    requires Writing(was, block, v, done, p)
    ensures done > 0 && p.height < |v| && Writing(was, block, v[p.height := p], done - 1, p.pprev)
    ensures p.pprev != null ==> p.pprev.height < |v|
  {
  }

  lemma WritingDone(was: seq<BlockIndex?>, block: BlockIndex, v: seq<BlockIndex?>, done: nat, p: BlockIndex?)
    requires Chained(was) && Writing(was, block, v, done, p) && (p != null ==> p.height < |v| && v[p.height] == p)
    ensures Chained(v) && v[block.height] == block
  {
    if p != null {
      assert done - 1 < |was|;
    }
  }

  class ActiveChain {
    var vChain: seq<BlockIndex?>

    constructor ()
      ensures vChain == []
    {
      vChain := [];
    }

    /** Writes back from the new tip until it meets the old chain. */
    method SetTip(block: BlockIndex)
      requires Rooted(block) && Chained(vChain)
      modifies this
      ensures |vChain| == block.height + 1 && vChain[block.height] == block && Chained(vChain)
      ensures forall h | 0 <= h <= block.height :: vChain[h] == Ancestor(block, h)
    {
      hide Writing, Chained;
      ghost var was := vChain;
      var n := block.height + 1;
      vChain := if n <= |vChain| then vChain[..n] else vChain + seq(n - |vChain|, _ => null);
      WritingStarts(was, block, vChain);
      var p: BlockIndex? := block;
      ghost var done: nat := n;
      while p != null && vChain[p.height] != p
        invariant |vChain| == n && Writing(was, block, vChain, done, p)
        invariant p != null ==> p.height < n
        decreases done
      {
        WritingStep(was, block, vChain, done, p);
        vChain := vChain[p.height := p];
        done := done - 1;
        p := p.pprev;
      }
      WritingDone(was, block, vChain, done, p);
      forall h | 0 <= h <= block.height ensures vChain[h] == Ancestor(block, h) {
        ChainIsAncestors(vChain, block.height, h);
      }
    }

    function At(height: int): BlockIndex?
      reads this
    {
      if height < 0 || height >= |vChain| then null else vChain[height]
    }

    predicate Contains(b: BlockIndex)
      reads this
    {
      At(b.height) == b
    }

    /** The highest block of the chain that is `start` or one of its ancestors. */
    method FindFork(start: BlockIndex?, ghost blocks: set<BlockIndex>) returns (r: BlockIndex?)
      requires Chained(vChain) && Index(blocks) && (start != null ==> start in blocks)
      ensures start == null ==> r == null
      ensures start != null && r != null ==> IsAncestor(r, start) && OnChain(vChain, r)
      ensures start != null ==> OffChain(vChain, start, if r == null then 0 else r.height + 1)
    {
      hide SkipHeight, IsAncestor, OffChain, Rooted, Ancestor;
      if start == null {
        return null;
      }
      r := start;
      OffChainAbove(vChain, start, if start.height < |vChain| then start.height + 1 else |vChain|);
      SelfAncestor(start);
      if start.height > |vChain| - 1 {
        r := GetAncestor(start, |vChain| - 1, blocks);
        if r != null { FoundAncestor(r, start); }
      }
      while r != null && !Contains(r)
        invariant r != null ==> r in blocks && r.height < |vChain| && IsAncestor(r, start)
        invariant OffChain(vChain, start, if r == null then 0 else r.height + 1)
        decreases if r == null then 0 else r.height + 1
      {
        ParentIs(r, start);
        OffChainStep(vChain, start, r);
        r := r.pprev;
      }
    }
  }

  /** None of the ancestors from height `from` up is on the chain. */
  ghost predicate OffChain(v: seq<BlockIndex?>, b: BlockIndex, from: nat)
    requires Rooted(b)
  {
    forall h | from <= h <= b.height :: !OnChain(v, Ancestor(b, h))
  }

  lemma OffChainAbove(v: seq<BlockIndex?>, b: BlockIndex, from: nat)
    requires Rooted(b) && (from == |v| || from == b.height + 1)
    ensures OffChain(v, b, from)
  {
  }

  lemma OffChainStep(v: seq<BlockIndex?>, b: BlockIndex, a: BlockIndex)
    requires Rooted(b) && IsAncestor(a, b) && OffChain(v, b, a.height + 1) && !OnChain(v, a)
    ensures OffChain(v, b, a.height)
  {
  }

  lemma SelfAncestor(b: BlockIndex)
    requires Rooted(b)
    ensures IsAncestor(b, b)
  {
  }

  lemma FoundAncestor(a: BlockIndex, b: BlockIndex)
    requires Rooted(b) && a.height <= b.height && a == Ancestor(b, a.height)
    ensures IsAncestor(a, b)
  {
  }

  /** From height `from` up, two blocks have no common ancestor. */
  ghost predicate Apart(a: BlockIndex, b: BlockIndex, from: nat)
    requires Rooted(a) && Rooted(b)
  {
    forall h | from <= h && h <= a.height && h <= b.height :: Ancestor(a, h) != Ancestor(b, h)
  }

  lemma ApartAbove(a: BlockIndex, b: BlockIndex, from: nat)
    requires Rooted(a) && Rooted(b) && (from > a.height || from > b.height)
    ensures Apart(a, b, from)
  {
  }

  lemma ApartStep(a: BlockIndex, b: BlockIndex, pa: BlockIndex, pb: BlockIndex)
    requires Rooted(a) && Rooted(b) && IsAncestor(pa, a) && IsAncestor(pb, b) && pa != pb && pa.height == pb.height
    requires Apart(a, b, pa.height + 1)
    ensures Apart(a, b, pa.height)
  {
  }

  /** The last block two blocks have in common, or none if their roots differ. */
  method LastCommonAncestor(a: BlockIndex, b: BlockIndex, ghost blocks: set<BlockIndex>) returns (r: BlockIndex?)
    requires Index(blocks) && a in blocks && b in blocks
    ensures r != null ==> IsAncestor(r, a) && IsAncestor(r, b)
    ensures Apart(a, b, if r == null then 0 else r.height + 1)
  {
    hide SkipHeight, IsAncestor, Apart, Rooted, Ancestor;
    var pa: BlockIndex?, pb: BlockIndex? := a, b;
    SelfAncestor(a);
    SelfAncestor(b);
    ApartAbove(a, b, if a.height > b.height then b.height + 1 else a.height + 1);
    if a.height > b.height {
      pa := GetAncestor(a, b.height, blocks);
      FoundAncestor(pa, a);
    } else if b.height > a.height {
      pb := GetAncestor(b, a.height, blocks);
      FoundAncestor(pb, b);
    }
    while pa != pb && pa != null && pb != null
      invariant pa == null <==> pb == null
      invariant pa != null ==>
                  pa in blocks && pb in blocks && pa.height == pb.height && IsAncestor(pa, a) && IsAncestor(pb, b)
      invariant Apart(a, b, if pa == null then 0 else pa.height + 1)
      decreases if pa == null then 0 else pa.height + 1
    {
      ParentIs(pa, a);
      ParentIs(pb, b);
      ApartStep(a, b, pa, pb);
      pa, pb := pa.pprev, pb.pprev;
    }
    assert pa == pb;
    return pa;
  }

  /** How far below entry `i` of a locator the next one is: one for the first eleven, then doubling. */
  function Spacing(i: nat): (d: nat)
    ensures d > 0
  {
    if i <= 10 then 1 else 2 * Spacing(i - 1)
  }

  /** The height of entry `i` in the locator of a block at height `top`. */
  function LocatorHeight(top: nat, i: nat): (h: nat)
    ensures h <= top
  {
    if i == 0 then top else Max(LocatorHeight(top, i - 1) - Spacing(i - 1), 0)
  }

  lemma LocatorStarts(start: BlockIndex)
    requires Rooted(start)
    ensures Spacing(0) == 1 && LocatorHeight(start.height, 0) == start.height && Ancestor(start, start.height) == start
    ensures Locates(start, [])
  {
  }

  lemma LocatorNext(top: nat, n: nat)
    ensures LocatorHeight(top, n + 1) == Max(LocatorHeight(top, n) - Spacing(n), 0)
    ensures Spacing(n + 1) == if n + 1 > 10 then 2 * Spacing(n) else Spacing(n)
  {
  }

  /** Entry `i` is the hash of the ancestor at its height. */
  ghost predicate Locates(start: BlockIndex, have: seq<nat>)
    requires Rooted(start)
  {
    forall i | 0 <= i < |have| :: have[i] == Ancestor(start, LocatorHeight(start.height, i)).hash
  }

  lemma LocatesNext(start: BlockIndex, have: seq<nat>)
    requires Rooted(start) && Locates(start, have)
    ensures Locates(start, have + [Ancestor(start, LocatorHeight(start.height, |have|)).hash])
  {
    hide Ancestor, LocatorHeight, Spacing, Rooted;
  }

  /** Exponentially spaced ancestors, from the block itself down to the root, which ends the list. */
  method LocatorEntries(start: BlockIndex?, ghost blocks: set<BlockIndex>) returns (have: seq<nat>)
    requires Index(blocks) && (start != null ==> start in blocks)
    ensures start == null ==> have == []
    ensures start != null ==> have != [] && Rooted(start) && Locates(start, have)
    ensures start != null ==> forall i | 0 <= i < |have| :: LocatorHeight(start.height, i) == 0 <==> i == |have| - 1
  {
    hide SkipHeight, InvertLowestOne, BitAnd, Ancestor, LocatorHeight, Spacing, Locates, Rooted;
    have := [];
    if start == null {
      return;
    }
    LocatorStarts(start);
    var step: nat, index := 1, start;
    while true
      invariant step == Spacing(|have|) && index in blocks && index.height == LocatorHeight(start.height, |have|)
      invariant index == Ancestor(start, index.height) && Locates(start, have)
      invariant forall i | 0 <= i < |have| :: LocatorHeight(start.height, i) > 0
      decreases index.height
    {
      LocatorNext(start.height, |have|);
      LocatesNext(start, have);
      have := have + [index.hash];
      if index.height == 0 {
        break;
      }
      var height := Max(index.height - step, 0);
      AncestorOfAncestor(start, index.height, height);
      index := GetAncestor(index, height, blocks);
      if |have| > 10 {
        step := step * 2;
      }
    }
  }
}
