/** The coins cache objects themselves: a chain of caches over one database, updated in place. */
module CoinsViewCache {
  import opened Collections
  import opened Coins
  import opened CoinStack

  class CoinsViewDB {
    var coins: View
    var best: nat

    constructor (coins: View, best: nat)
      ensures this.coins == coins && this.best == best
    {
      this.coins, this.best := coins, best;
    }

    method GetCoin(k: OutPoint) returns (r: Option<Coin>)
      ensures r == if k in coins then Some(coins[k]) else None
    {
      r := if k in coins then Some(coins[k]) else None;
    }

    method BatchWrite(child: Cache, hashBlock: nat)
      requires hashBlock != 0
      modifies this
      ensures coins == DbWritten(old(coins), child) && best == hashBlock
    {
      ghost var v := coins;
      var todo := child.Keys;
      DbUnwritten(v, child);
      while todo != {}
        invariant todo <= child.Keys
        invariant coins == DbWritten(v, Walked(child, todo))
        decreases |todo|
      {
        var k :| k in todo;
        DbWriteStep(v, child, todo, k);
        if child[k].isDirty {
          if child[k].coin.IsSpent() {
            coins := coins - {k};
          } else {
            coins := coins[k := child[k].coin];
          }
        }
        todo := todo - {k};
      }
      assert Walked(child, {}) == child;
      best := hashBlock;
    }
  }

  /** The part of a batch that has been walked when `todo` is left. */
  ghost function Walked(child: Cache, todo: set<OutPoint>): Cache {
    map k | k in child && k !in todo :: child[k]
  }

  lemma DbUnwritten(v: View, child: Cache)
    ensures DbWritten(v, Walked(child, child.Keys)) == v
  {
    assert Walked(child, child.Keys) == map[];
  }

  lemma DbWriteStep(v: View, child: Cache, todo: set<OutPoint>, k: OutPoint)
    requires k in todo && k in child
    ensures var before, after := DbWritten(v, Walked(child, todo)), DbWritten(v, Walked(child, todo - {k}));
            after == if child[k].isDirty then Put(before, k, child[k].coin) else before
  {
    assert Walked(child, todo - {k}) == Walked(child, todo)[k := child[k]];
    assert k !in Walked(child, todo);
    DbWriteOne(v, Walked(child, todo), k, child[k]);
  }

  lemma DbWriteOne(v: View, done: Cache, k: OutPoint, e: Entry)
    requires k !in done
    ensures DbWritten(v, done[k := e]) == if e.isDirty then Put(DbWritten(v, done), k, e.coin) else DbWritten(v, done)
  {
    var before, after := DbWritten(v, done), DbWritten(v, done[k := e]);
    var want := if e.isDirty then Put(before, k, e.coin) else before;
    forall x: OutPoint ensures x in after <==> x in want {}
  }

  class CoinsCache {
    /** The cache below, if any; otherwise the database is below. */
    const base: CoinsCache?
    const db: CoinsViewDB
    var cacheCoins: Cache
    var cachedCoinsUsage: int
    var hashBlock: nat
    ghost const Repr: set<object>

    ghost predicate Valid()
      reads this, Repr
      decreases Repr
    {
      && this in Repr && db in Repr
      && (base == null ==> Repr == {this, db})
      && (base != null ==>
            && base in Repr && base.Repr < Repr && Repr == base.Repr + {this} && this !in base.Repr
            && base.db == db && base.Valid())
    }

    ghost function Model(): (s: Stack)
      requires Valid()
      ensures s.Over?
      reads this, Repr
      decreases Repr
    {
      Over(Layer(cacheCoins, cachedCoinsUsage, hashBlock), Below())
    }

    ghost function Below(): Stack
      requires Valid()
      reads this, Repr
      decreases Repr, 0
    {
      if base == null then Db(db.coins, db.best) else base.Model()
    }

    constructor OverCache(base: CoinsCache)
      requires base.Valid()
      ensures Valid() && fresh(Repr - base.Repr) && this.base == base && db == base.db
      ensures Model() == Over(Layer(map[], 0, 0), base.Model())
    {
      this.base, this.db := base, base.db;
      cacheCoins, cachedCoinsUsage, hashBlock := map[], 0, 0;
      Repr := base.Repr + {this};
    }

    constructor OverDb(db: CoinsViewDB)
      ensures Valid() && fresh(Repr - {db}) && this.base == null && this.db == db
      ensures Model() == Over(Layer(map[], 0, 0), Db(db.coins, db.best))
    {
      this.base, this.db := null, db;
      cacheCoins, cachedCoinsUsage, hashBlock := map[], 0, 0;
      Repr := {this, db};
    }

    /** Brings the coin into this cache, from as far down as it takes. */
    method FetchCoin(k: OutPoint) returns (found: bool)
      requires Valid() && StackOk(Model())
      modifies Repr
      ensures Valid() && Model() == CoinStack.GetCoin(old(Model()), k).0
      ensures found <==> k in cacheCoins
      decreases Repr, 0
    {
      if k in cacheCoins {
        return true;
      }
      var r: Option<Coin>;
      if base == null {
        r := db.GetCoin(k);
      } else {
        assert Model().base == base.Model();
        r := base.GetCoin(k);
      }
      if r.None? {
        return false;
      }
      cacheCoins := cacheCoins[k := Entry(r.value, false, r.value.IsSpent())];
      cachedCoinsUsage := cachedCoinsUsage + r.value.script.heap;
      found := true;
    }

    method GetCoin(k: OutPoint) returns (r: Option<Coin>)
      requires Valid() && StackOk(Model())
      modifies Repr
      ensures Valid() && Model() == CoinStack.GetCoin(old(Model()), k).0
      ensures r == CoinStack.GetCoin(old(Model()), k).1
      decreases Repr, 1
    {
      ghost var s := Model();
      var found := FetchCoin(k);
      FetchFinds(s, k);
      if found && !cacheCoins[k].coin.IsSpent() {
        r := Some(cacheCoins[k].coin);
      } else {
        r := None;
      }
    }

    method HaveCoin(k: OutPoint) returns (have: bool)
      requires Valid() && StackOk(Model())
      modifies Repr
      ensures Valid() && Model() == CoinStack.GetCoin(old(Model()), k).0
      ensures StackOk(Model()) && Views(Model()) == old(Views(Model()))
      ensures have <==> k in old(Shown(Model()))
    {
      ghost var s := Model();
      GetCoinKeeps(s, k);
      var r := GetCoin(k);
      have := r.Some?;
    }

    method AddCoin(k: OutPoint, coin: Coin, possibleOverwrite: bool) returns (ok: bool)
      requires Valid() && !coin.IsSpent()
      modifies this
      ensures Valid()
      ensures ok <==> old(CoinStack.AddCoin(Model(), k, coin, possibleOverwrite)).Some?
      ensures ok ==> Model() == old(CoinStack.AddCoin(Model(), k, coin, possibleOverwrite)).value
    {
      if coin.script.IsUnspendable() {
        return true;
      }
      var inserted := k !in cacheCoins;
      var e := if inserted then Entry(EMPTY_COIN, false, false) else cacheCoins[k];
      if !inserted {
        cachedCoinsUsage := cachedCoinsUsage - e.Usage();
      }
      var isFresh := false;
      if !possibleOverwrite {
        if !e.coin.IsSpent() {
          return false;
        }
        isFresh := !e.isDirty;
      }
      cacheCoins := cacheCoins[k := Entry(coin, true, e.isFresh || isFresh)];
      cachedCoinsUsage := cachedCoinsUsage + coin.script.heap;
      ok := true;
    }

    method SpendCoin(k: OutPoint) returns (spent: bool, moved: Coin)
      requires Valid() && StackOk(Model())
      modifies Repr
      ensures Valid() && Model() == Spend(old(Model()), k).0 && spent == Spend(old(Model()), k).1
      ensures k in old(Shown(Model())) ==> moved == old(Shown(Model()))[k]
    {
      hide Overlay, LayerOk;
      ghost var s := Model();
      GetCoinKeeps(s, k);
      FetchFinds(s, k);
      hide StackOk, Shown, Views;
      var found := FetchCoin(k);
      moved := EMPTY_COIN;
      if !found {
        return false, moved;
      }
      moved := SpendEntry(k);
      spent := true;
    }

    /** An entry the layer below knows nothing of goes, any other is left as spent. */
    method SpendEntry(k: OutPoint) returns (moved: Coin)
      requires Valid() && k in cacheCoins
      modifies this`cacheCoins, this`cachedCoinsUsage
      ensures Valid() && Model() ==
              Over(Spent(Layer(old(cacheCoins), old(cachedCoinsUsage), hashBlock), k), old(Below()))
      ensures moved == old(cacheCoins)[k].coin
    {
      var e := cacheCoins[k];
      cachedCoinsUsage := cachedCoinsUsage - e.Usage();
      moved := e.coin;
      if e.isFresh {
        cacheCoins := cacheCoins - {k};
      } else {
        cacheCoins := cacheCoins[k := Entry(EMPTY_COIN, true, false)];
      }
    }

    method Uncache(k: OutPoint)
      requires Valid()
      modifies this
      ensures Valid() && Model() == UncacheAt(old(Model()), 0, k)
    {
      if k in cacheCoins && !cacheCoins[k].isDirty && !cacheCoins[k].isFresh {
        cachedCoinsUsage := cachedCoinsUsage - cacheCoins[k].Usage();
        cacheCoins := cacheCoins - {k};
      }
    }

    /** Takes in the modified entries of the cache above. */
    method BatchWrite(child: Cache, best: nat)
      requires Valid() && StackOk(Model()) && CacheOk(Shown(Model()), child)
      modifies this
      ensures Valid() && WriteBatch(old(Model()), child, best).Some?
      ensures Model() == WriteBatch(old(Model()), child, best).value
    {
      BatchKeeps(Shown(Below()), Model().top, child, best);
      hide StackOk, CacheOk, LayerOk, Overlay, Batch;
      var l := MergeAll(Layer(cacheCoins, cachedCoinsUsage, hashBlock), child, best);
      cacheCoins, cachedCoinsUsage, hashBlock := l.cache, l.usage, l.best;
    }

    method WriteBelow()
      requires Valid() && StackOk(Model()) && (base == null ==> hashBlock != 0)
      modifies Repr - {this}
      ensures Valid() && WriteBatch(old(Below()), cacheCoins, hashBlock).Some?
      ensures Below() == WriteBatch(old(Below()), cacheCoins, hashBlock).value
    {
      if base == null {
        db.BatchWrite(cacheCoins, hashBlock);
      } else {
        assert Model().base == base.Model();
        base.BatchWrite(cacheCoins, hashBlock);
      }
    }

    method Flush()
      requires Valid() && StackOk(Model()) && (base == null ==> hashBlock != 0)
      modifies Repr
      ensures Valid() && CoinStack.Flush(old(Model())).Some? && Model() == CoinStack.Flush(old(Model())).value
    {
      WriteBelow();
      cacheCoins := map[];
      cachedCoinsUsage := 0;
    }

    method Sync()
      requires Valid() && StackOk(Model()) && (base == null ==> hashBlock != 0)
      modifies Repr
      ensures Valid() && CoinStack.Sync(old(Model())).Some? && Model() == CoinStack.Sync(old(Model())).value
    {
      WriteBelow();
      hide StackOk, WriteBatch;
      var l := SyncAll(Layer(cacheCoins, cachedCoinsUsage, hashBlock));
      cacheCoins, cachedCoinsUsage := l.cache, l.usage;
    }

    method GetBestBlock() returns (best: nat)
      requires Valid()
      modifies Repr
      ensures Valid() && best == BestBlock(old(Model())) == BestBlock(Model())
      decreases Repr
    {
      if hashBlock == 0 {
        if base == null {
          hashBlock := db.best;
        } else {
          hashBlock := base.GetBestBlock();
        }
      }
      best := hashBlock;
    }

    method SetBestBlock(best: nat)
      requires Valid()
      modifies this
      ensures Valid() && Model() == old(Over(Model().top.(best := best), Model().base))
    {
      hashBlock := best;
    }

    /** True exactly when every entry is in a legal state and the usage adds up. */
    method SanityCheck() returns (sane: bool)
      ensures sane <==> Sane(Layer(cacheCoins, cachedCoinsUsage, hashBlock))
    {
      var recomputed := 0;
      var todo := cacheCoins.Keys;
      assert Walked(cacheCoins, cacheCoins.Keys) == map[];
      while todo != {}
        invariant todo <= cacheCoins.Keys
        invariant forall k | k in cacheCoins && k !in todo :: Legal(cacheCoins[k])
        invariant recomputed == TotalUsage(Walked(cacheCoins, todo))
        decreases |todo|
      {
        var k :| k in todo;
        if !Legal(cacheCoins[k]) {
          return false;
        }
        assert Walked(cacheCoins, todo - {k}) == Walked(cacheCoins, todo)[k := cacheCoins[k]];
        UsageWrite(Walked(cacheCoins, todo), k, cacheCoins[k]);
        recomputed := recomputed + cacheCoins[k].Usage();
        todo := todo - {k};
      }
      assert Walked(cacheCoins, {}) == cacheCoins;
      sane := recomputed == cachedCoinsUsage;
    }
  }

  /** The view once the first `n` outputs of a transaction exist. */
  ghost function Created(v: View, txid: nat, outs: seq<(nat, Script)>, height: nat, coinBase: bool, n: nat): View
    requires n <= |outs|
  {
    if n == 0 then v
    else
      var before := Created(v, txid, outs, height, coinBase, n - 1);
      var coin := Coin(outs[n - 1].0, outs[n - 1].1, height, coinBase);
      if coin.script.IsUnspendable() then before else before[OutPoint(txid, n - 1) := coin]
  }

  lemma {:induction false} CreatedMisses(v: View, txid: nat, outs: seq<(nat, Script)>, height: nat, coinBase: bool,
                                         n: nat, k: OutPoint)
    requires n <= |outs| && k !in v && (k.hash != txid || k.n >= n)
    ensures k !in Created(v, txid, outs, height, coinBase, n)
  {
    if n > 0 {
      CreatedMisses(v, txid, outs, height, coinBase, n - 1, k);
    }
  }

  /** Adds all outputs of a transaction. Without `check`, only a coinbase may overwrite. */
  method AddCoins(cache: CoinsCache, txid: nat, outs: seq<(nat, Script)>, height: nat, coinBase: bool, check: bool)
    requires cache.Valid() && StackOk(cache.Model())
    requires check || coinBase || forall i | 0 <= i < |outs| :: OutPoint(txid, i) !in Shown(cache.Model())
    modifies cache.Repr
    ensures cache.Valid() && StackOk(cache.Model())
    ensures Views(cache.Model()) ==
            old(Views(cache.Model())[0 := Created(Shown(cache.Model()), txid, outs, height, coinBase, |outs|)])
  {
    hide Overlay, LayerOk, StackOk, Shown, Views;
    ghost var vs := Views(cache.Model());
    var i := 0;
    while i < |outs|
      invariant 0 <= i <= |outs| && cache.Valid() && StackOk(cache.Model())
      invariant Views(cache.Model()) == vs[0 := Created(vs[0], txid, outs, height, coinBase, i)]
    {
      var k := OutPoint(txid, i);
      var overwrite := coinBase;
      if check {
        overwrite := cache.HaveCoin(k);
      } else if !coinBase {
        CreatedMisses(vs[0], txid, outs, height, coinBase, i, k);
      }
      AddOne(cache, k, Coin(outs[i].0, outs[i].1, height, coinBase), overwrite);
      i := i + 1;
    }
  }

  method AddOne(cache: CoinsCache, k: OutPoint, coin: Coin, overwrite: bool)
    requires cache.Valid() && StackOk(cache.Model()) && !coin.IsSpent()
    requires overwrite || k !in Shown(cache.Model())
    modifies cache
    ensures cache.Valid() && StackOk(cache.Model())
    ensures Views(cache.Model()) == FlatStep(old(Views(cache.Model())), AddOp(k, coin, overwrite))
  {
    StepRefines(cache.Model(), AddOp(k, coin, overwrite));
    hide StackOk, FlatStep, Shown, Views;
    var ok := cache.AddCoin(k, coin, overwrite);
    assert ok;
  }

  /** Not FRESH alone while unspent, not spent without flags, not spent with both. */
  predicate Legal(e: Entry) {
    && !(e.isFresh && !e.isDirty && !e.coin.IsSpent())
    && !(!e.isFresh && !e.isDirty && e.coin.IsSpent())
    && !(e.isFresh && e.isDirty && e.coin.IsSpent())
  }

  ghost predicate Sane(l: Layer) {
    (forall k | k in l.cache :: Legal(l.cache[k])) && l.usage == TotalUsage(l.cache)
  }

  /** Every layer of a right stack passes its sanity check. */
  lemma LayersAreSane(base: View, l: Layer)
    requires LayerOk(base, l)
    ensures Sane(l)
  {
    forall k | k in l.cache ensures Legal(l.cache[k]) {
      LegalStates(base, l, k);
    }
  }

  /** Walks a batch in any order, merging one entry after the other. */
  method MergeAll(l: Layer, child: Cache, best: nat) returns (r: Layer)
    requires !Misapplies(l.cache, child)
    ensures Batch(l, child, best) == Some(r)
  {
    r := l;
    var todo := child.Keys;
    NothingMerged(l.cache, child);
    hide Misapplies, MergedCache, TotalUsage, MergedAt;
    while todo != {}
      invariant todo <= child.Keys && r.best == l.best
      invariant r.cache == MergedCache(l.cache, Walked(child, todo))
      invariant r.usage == l.usage - TotalUsage(l.cache) + TotalUsage(r.cache)
      decreases |todo|
    {
      var k :| k in todo;
      MergeStep(l.cache, child, todo, k);
      MergeOneUsage(r, k, child[k]);
      r := MergeOne(r, k, child[k]).value;
      todo := todo - {k};
    }
    assert Walked(child, {}) == child;
    r := r.(best := best);
  }

  /** Drops the spent coins and clears the flags of the others. */
  method SyncAll(l: Layer) returns (r: Layer)
    ensures r == Layer(Synced(l.cache), l.usage - TotalUsage(l.cache) + TotalUsage(Synced(l.cache)), l.best)
  {
    r := l;
    var todo := l.cache.Keys;
    NothingSynced(l.cache);
    hide TotalUsage, Synced, SyncedBut;
    while todo != {}
      invariant todo <= l.cache.Keys && r.best == l.best
      invariant r.cache == SyncedBut(l.cache, todo)
      invariant r.usage == l.usage - TotalUsage(l.cache) + TotalUsage(r.cache)
      decreases |todo|
    {
      var k :| k in todo;
      SyncStep(l.cache, todo, k);
      var e := r.cache[k];
      if e.coin.IsSpent() {
        r := r.(cache := r.cache - {k}, usage := r.usage - e.Usage());
      } else {
        r := r.(cache := r.cache[k := Entry(e.coin, false, false)]);
      }
      todo := todo - {k};
    }
    AllSynced(l.cache);
  }

  lemma NothingMerged(c: Cache, child: Cache)
    ensures MergedCache(c, Walked(child, child.Keys)) == c
  {
    assert Walked(child, child.Keys) == map[];
  }

  /** The cache after one outcome. */
  ghost function Applied(c: Cache, k: OutPoint, m: Merged): Cache {
    match m
    case Keep => c
    case Misapplied => c
    case Erase => c - {k}
    case Write(w) => c[k := w]
  }

  lemma MergeStep(c: Cache, child: Cache, todo: set<OutPoint>, k: OutPoint)
    requires k in todo && k in child && !Misapplies(c, child)
    ensures var before := MergedCache(c, Walked(child, todo));
            && Find(before, k) == Find(c, k)
            && !Merge(Find(c, k), child[k]).Misapplied?
            && MergedCache(c, Walked(child, todo - {k})) == Applied(before, k, Merge(Find(c, k), child[k]))
  {
    assert !Merge(Find(c, k), child[k]).Misapplied?;
    var w, w' := Walked(child, todo), Walked(child, todo - {k});
    var before, after := MergedCache(c, w), Applied(MergedCache(c, w), k, Merge(Find(c, k), child[k]));
    forall x: OutPoint
      ensures Find(MergedCache(c, w'), x) == Find(after, x)
      ensures x == k ==> Find(before, x) == Find(c, x)
    {
      assert x in w' <==> x in w || x == k;
      MergedMember(c, w, x);
      MergedMember(c, w', x);
      hide MergedCache;
    }
    SameFinds(MergedCache(c, w'), after);
  }

  lemma SameFinds(a: Cache, b: Cache)
    requires forall x: OutPoint :: Find(a, x) == Find(b, x)
    ensures a == b
  {
    forall x: OutPoint ensures x in a <==> x in b {
      assert Find(a, x) == Find(b, x);
    }
    forall x | x in a ensures a[x] == b[x] {
      assert Find(a, x) == Find(b, x);
    }
  }

  lemma MergedMember(c: Cache, child: Cache, k: OutPoint)
    ensures MergedAt(c, child, k) == Find(MergedCache(c, child), k)
  {
  }

  lemma MergeOneUsage(l: Layer, k: OutPoint, e: Entry)
    ensures MergeOne(l, k, e).Some? ==>
            MergeOne(l, k, e).value.usage - TotalUsage(MergeOne(l, k, e).value.cache) == l.usage - TotalUsage(l.cache)
  {
    match Merge(Find(l.cache, k), e)
    case Keep =>
    case Misapplied =>
    case Erase => UsageRemove(l.cache, k);
    case Write(w) => UsageWrite(l.cache, k, w);
  }

  /** A cache on which `Sync` has dealt with all but `todo`. */
  ghost function SyncedBut(c: Cache, todo: set<OutPoint>): Cache {
    map k | k in c && (k in todo || !c[k].coin.IsSpent()) :: if k in todo then c[k] else Entry(c[k].coin, false, false)
  }

  lemma NothingSynced(c: Cache)
    ensures SyncedBut(c, c.Keys) == c
  {
  }

  lemma AllSynced(c: Cache)
    ensures SyncedBut(c, {}) == Synced(c)
  {
  }

  lemma SyncStep(c: Cache, todo: set<OutPoint>, k: OutPoint)
    requires k in todo && k in c
    ensures var before := SyncedBut(c, todo);
            && k in before && before[k] == c[k]
            && (if c[k].coin.IsSpent()
                then && SyncedBut(c, todo - {k}) == before - {k}
                     && TotalUsage(before - {k}) == TotalUsage(before) - c[k].Usage()
                else && SyncedBut(c, todo - {k}) == before[k := Entry(c[k].coin, false, false)]
                     && TotalUsage(before[k := Entry(c[k].coin, false, false)]) == TotalUsage(before))
  {
    var before := SyncedBut(c, todo);
    UsageRemove(before, k);
    UsageWrite(before, k, Entry(c[k].coin, false, false));
    if c[k].coin.IsSpent() {
      assert SyncedBut(c, todo - {k}) == before - {k};
    } else {
      assert SyncedBut(c, todo - {k}) == before[k := Entry(c[k].coin, false, false)];
    }
  }

  /** After a fetch the answer can be read off the cache. */
  lemma FetchFinds(s: Stack, k: OutPoint)
    requires StackOk(s) && s.Over?
    ensures var (f, r) := GetCoin(s, k);
            f.Over? && r == if k in f.top.cache && !f.top.cache[k].coin.IsSpent() then Some(f.top.cache[k].coin)
                else None
  {
    GetCoinKeeps(s, k);
    var f := GetCoin(s, k).0;
    OverlayAt(Shown(f.base), f.top.cache, k);
    if k !in f.top.cache {
      GetCoinKeeps(s.base, k);
      OverlayAt(Shown(s.base), s.top.cache, k);
    }
  }
}
