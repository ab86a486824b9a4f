/** Coins, cache entries and one layer of the coins cache over the view below it. */
module Coins {
  import opened Collections

  datatype OutPoint = OutPoint(hash: nat, n: nat)

  /** A locking script and the heap memory that holds it. */
  datatype Script = Script(bytes: seq<nat>, heap: nat) {
    predicate IsUnspendable() { (|bytes| > 0 && bytes[0] == 0x6a) || |bytes| > 10000 }
  }

  datatype Coin = Coin(value: int, script: Script, height: nat, coinBase: bool) {
    predicate IsSpent() { value == -1 }
  }

  const EMPTY_COIN := Coin(-1, Script([], 0), 0, false)

  /** A coin in one cache, with its DIRTY and FRESH flags. */
  datatype Entry = Entry(coin: Coin, isDirty: bool, isFresh: bool) {
    function Usage(): nat { coin.script.heap }
  }

  type View = map<OutPoint, Coin>
  type Cache = map<OutPoint, Entry>

  // ----------------------------------------------------------------- memory usage

  /** The dynamic memory held by all coins of a cache. */
  ghost function TotalUsage(c: Cache): nat
    decreases |c|
  {
    if c == map[] then 0
    else
      var k :| k in c;
      c[k].Usage() + TotalUsage(c - {k})
  }

  lemma {:induction false} UsageRemove(c: Cache, k: OutPoint)
    requires k in c
    ensures TotalUsage(c) == c[k].Usage() + TotalUsage(c - {k})
    decreases |c|
  {
    var x :| x in c && TotalUsage(c) == c[x].Usage() + TotalUsage(c - {x});
    if x != k {
      UsageRemove(c - {x}, k);
      UsageRemove(c - {k}, x);
      assert c - {x} - {k} == c - {k} - {x};
    }
  }

  /** Writing one entry changes the total by the difference of the two coins. */
  lemma UsageWrite(c: Cache, k: OutPoint, e: Entry)
    ensures TotalUsage(c[k := e]) == TotalUsage(c) - (if k in c then c[k].Usage() else 0) + e.Usage()
  {
    var c' := c[k := e];
    UsageRemove(c', k);
    assert c' - {k} == c - {k};
    if k in c {
      UsageRemove(c, k);
    } else {
      assert c - {k} == c;
    }
  }

  // ---------------------------------------------------------------- views and layers

  /** What a cache shows above a view: its own coins, with the spent ones gone. */
  ghost function Overlay(base: View, c: Cache): View {
    map k | k in base.Keys + c.Keys && (k in c ==> !c[k].coin.IsSpent()) ::
      if k in c then c[k].coin else base[k]
  }

  /** The meaning of the flags, relative to what the view below shows. A spent entry is DIRTY and never
      FRESH: of the five documented states, a spent FRESH entry does not arise. */
  ghost predicate EntryOk(base: View, k: OutPoint, e: Entry) {
    && (e.isFresh ==> k !in base && e.isDirty && !e.coin.IsSpent())
    && (!e.isDirty ==> k in base && base[k] == e.coin && !e.coin.IsSpent())
    && (e.coin.IsSpent() ==> e.coin == EMPTY_COIN)
  }

  ghost predicate CacheOk(base: View, c: Cache) {
    forall k | k in c :: EntryOk(base, k, c[k])
  }

  ghost predicate ViewOk(v: View) { forall k | k in v :: !v[k].IsSpent() }

  /** `hashBlock` is null when zero. */
  datatype Layer = Layer(cache: Cache, usage: int, best: nat)

  ghost predicate LayerOk(base: View, l: Layer) {
    CacheOk(base, l.cache) && l.usage == TotalUsage(l.cache)
  }

  lemma OverlayAt(base: View, c: Cache, k: OutPoint)
    ensures k in Overlay(base, c) <==> if k in c then !c[k].coin.IsSpent() else k in base
    ensures k in Overlay(base, c) ==> Overlay(base, c)[k] == if k in c then c[k].coin else base[k]
  {
  }

  /** A view with one coin put in, or taken out if it is a spent one. */
  function Put(v: View, k: OutPoint, coin: Coin): View { if coin.IsSpent() then v - {k} else v[k := coin] }

  lemma WriteEntry(base: View, l: Layer, k: OutPoint, e: Entry)
    requires LayerOk(base, l) && EntryOk(base, k, e)
    ensures var r := l.(cache := l.cache[k := e],
                        usage := l.usage - (if k in l.cache then l.cache[k].Usage() else 0) + e.Usage());
            LayerOk(base, r) && Overlay(base, r.cache) == Put(Overlay(base, l.cache), k, e.coin)
  {
    UsageWrite(l.cache, k, e);
    OverlayWrite(base, l.cache, k, e);
    hide Overlay, TotalUsage;
  }

  lemma OverlayWrite(base: View, cache: Cache, k: OutPoint, e: Entry)
    ensures Overlay(base, cache[k := e]) == Put(Overlay(base, cache), k, e.coin)
  {
  }

  /** Dropping an entry shows the view below again. */
  lemma EraseEntry(base: View, l: Layer, k: OutPoint)
    requires LayerOk(base, l) && k in l.cache
    ensures var r := l.(cache := l.cache - {k}, usage := l.usage - l.cache[k].Usage());
            && LayerOk(base, r)
            && Overlay(base, r.cache) ==
               if k in base then Overlay(base, l.cache)[k := base[k]] else Overlay(base, l.cache) - {k}
  {
    UsageRemove(l.cache, k);
    OverlayErase(base, l.cache, k);
    hide Overlay, TotalUsage;
  }

  lemma OverlayErase(base: View, cache: Cache, k: OutPoint)
    ensures Overlay(base, cache - {k}) == if k in base then Overlay(base, cache)[k := base[k]]
            else Overlay(base, cache) - {k}
  {
  }

  // ----------------------------------------------------------------- one layer's steps

  /** A coin found below is kept, unmodified. */
  function Fetched(l: Layer, k: OutPoint, coin: Coin): Layer {
    var e := Entry(coin, false, coin.IsSpent());
    l.(cache := l.cache[k := e], usage := l.usage + e.Usage())
  }

  lemma FetchedKeeps(base: View, l: Layer, k: OutPoint)
    requires LayerOk(base, l) && ViewOk(base) && k !in l.cache && k in base
    ensures LayerOk(base, Fetched(l, k, base[k]))
    ensures Overlay(base, Fetched(l, k, base[k]).cache) == Overlay(base, l.cache)
  {
    WriteEntry(base, l, k, Entry(base[k], false, false));
    OverlayAt(base, l.cache, k);
    hide Overlay, CacheOk, LayerOk;
    assert Overlay(base, l.cache)[k := base[k]] == Overlay(base, l.cache);
  }

  /** `AddCoin`; `None` is the exception on overwriting an unspent coin. */
  function Add(l: Layer, k: OutPoint, coin: Coin, possibleOverwrite: bool): Option<Layer>
    requires !coin.IsSpent()
  {
    if coin.script.IsUnspendable() then Some(l)
    else
      var e := if k in l.cache then l.cache[k] else Entry(EMPTY_COIN, false, false);
      if !possibleOverwrite && !e.coin.IsSpent() then None
      else
        var isFresh := !possibleOverwrite && !e.isDirty;
        var e' := Entry(coin, true, e.isFresh || isFresh);
        Some(l.(cache := l.cache[k := e'], usage := l.usage - e.Usage() + e'.Usage()))
  }

  /** Adding to an outpoint that the view lacks, or with overwriting allowed, succeeds and shows the coin. */
  lemma AddKeeps(base: View, l: Layer, k: OutPoint, coin: Coin, possibleOverwrite: bool)
    requires LayerOk(base, l) && !coin.IsSpent()
    requires possibleOverwrite || k !in Overlay(base, l.cache)
    ensures var r := Add(l, k, coin, possibleOverwrite);
            && r.Some? && LayerOk(base, r.value) && r.value.best == l.best
            && Overlay(base, r.value.cache) ==
               if coin.script.IsUnspendable() then Overlay(base, l.cache) else Overlay(base, l.cache)[k := coin]
  {
    if !coin.script.IsUnspendable() {
      var e := if k in l.cache then l.cache[k] else Entry(EMPTY_COIN, false, false);
      assert k in l.cache ==> EntryOk(base, k, e);
      OverlayAt(base, l.cache, k);
      hide Overlay, CacheOk, LayerOk;
      WriteEntry(base, l, k, Entry(coin, true, e.isFresh || (!possibleOverwrite && !e.isDirty)));
    }
  }

  /** An add leaves the layer right exactly when it announced overwriting, or the coin was absent: adding
      over a coin that only a lower level holds marks it FRESH wrongly. */
  lemma AddExact(base: View, l: Layer, k: OutPoint, coin: Coin, possibleOverwrite: bool)
    requires LayerOk(base, l) && !coin.IsSpent()
    ensures var r := Add(l, k, coin, possibleOverwrite);
            (r.Some? && LayerOk(base, r.value)) <==>
            (possibleOverwrite || coin.script.IsUnspendable() || k !in Overlay(base, l.cache))
  {
    OverlayAt(base, l.cache, k);
    if possibleOverwrite || k !in Overlay(base, l.cache) {
      AddKeeps(base, l, k, coin, possibleOverwrite);
    } else if !coin.script.IsUnspendable() && k !in l.cache {
      var c := Add(l, k, coin, false).value.cache;
      assert k in c && !EntryOk(base, k, c[k]);
    }
  }

  /** `SpendCoin` on an entry that is in the cache. */
  function Spent(l: Layer, k: OutPoint): Layer
    requires k in l.cache
  {
    var e := l.cache[k];
    var usage := l.usage - e.Usage();
    if e.isFresh then l.(cache := l.cache - {k}, usage := usage)
    else l.(cache := l.cache[k := Entry(EMPTY_COIN, true, false)], usage := usage)
  }

  lemma SpentKeeps(base: View, l: Layer, k: OutPoint)
    requires LayerOk(base, l) && k in l.cache
    ensures LayerOk(base, Spent(l, k)) && Overlay(base, Spent(l, k).cache) == Overlay(base, l.cache) - {k}
  {
    assert EntryOk(base, k, l.cache[k]);
    OverlayAt(base, l.cache, k);
    hide Overlay, CacheOk, LayerOk;
    EraseEntry(base, l, k);
    WriteEntry(base, l, k, Entry(EMPTY_COIN, true, false));
  }

  function Uncached(l: Layer, k: OutPoint): Layer {
    if k in l.cache && !l.cache[k].isDirty && !l.cache[k].isFresh
    then l.(cache := l.cache - {k}, usage := l.usage - l.cache[k].Usage())
    else l
  }

  lemma UncachedKeeps(base: View, l: Layer, k: OutPoint)
    requires LayerOk(base, l)
    ensures LayerOk(base, Uncached(l, k)) && Overlay(base, Uncached(l, k).cache) == Overlay(base, l.cache)
  {
    if k in l.cache && !l.cache[k].isDirty && !l.cache[k].isFresh {
      assert EntryOk(base, k, l.cache[k]);
      OverlayAt(base, l.cache, k);
      hide Overlay, CacheOk, LayerOk;
      EraseEntry(base, l, k);
    }
  }

  // ------------------------------------------------------------------ writing a batch

  /** What a child entry does to the parent's entry for the same outpoint. */
  datatype Merged = Keep | Write(entry: Entry) | Erase | Misapplied

  function Merge(ours: Option<Entry>, e: Entry): Merged {
    if !e.isDirty then Keep
    else if ours.None? then
      if e.isFresh && e.coin.IsSpent() then Keep else Write(Entry(e.coin, true, e.isFresh))
    else if e.isFresh && !ours.value.coin.IsSpent() then Misapplied
    else if ours.value.isFresh && e.coin.IsSpent() then Erase
    else Write(Entry(e.coin, true, ours.value.isFresh))
  }

  function Find(c: Cache, k: OutPoint): Option<Entry> { if k in c then Some(c[k]) else None }

  function MergeOne(l: Layer, k: OutPoint, e: Entry): Option<Layer> {
    match Merge(Find(l.cache, k), e)
    case Keep => Some(l)
    case Misapplied => None
    case Erase =>
      if k in l.cache then Some(l.(cache := l.cache - {k}, usage := l.usage - l.cache[k].Usage())) else Some(l)
    case Write(w) =>
      Some(l.(cache := l.cache[k := w],
              usage := l.usage - (if k in l.cache then l.cache[k].Usage() else 0) + w.Usage()))
  }

  /** One entry of a child cache: no misapplied flag, and the parent shows what the child showed. */
  lemma MergeKeeps(base: View, l: Layer, k: OutPoint, e: Entry)
    requires LayerOk(base, l) && EntryOk(Overlay(base, l.cache), k, e)
    ensures MergeOne(l, k, e).Some?
    ensures LayerOk(base, MergeOne(l, k, e).value) && MergeOne(l, k, e).value.best == l.best
    ensures Overlay(base, MergeOne(l, k, e).value.cache) == Put(Overlay(base, l.cache), k, e.coin)
  {
    assert k in l.cache ==> EntryOk(base, k, l.cache[k]);
    OverlayAt(base, l.cache, k);
    hide Overlay, CacheOk, LayerOk;
    match Merge(Find(l.cache, k), e)
    case Keep => assert Overlay(base, l.cache)[k := e.coin] == Overlay(base, l.cache);
    case Misapplied =>
    case Erase => EraseEntry(base, l, k);
    case Write(w) => WriteEntry(base, l, k, w);
  }

  /** The parent's entry for one outpoint after a whole batch. */
  function MergedAt(c: Cache, child: Cache, k: OutPoint): Option<Entry> {
    if k !in child then Find(c, k)
    else
      match Merge(Find(c, k), child[k])
      case Keep => Find(c, k)
      case Misapplied => Find(c, k)
      case Erase => None
      case Write(w) => Some(w)
  }

  /** The parent cache after a whole batch, whatever the order the batch was walked in. */
  ghost function MergedCache(c: Cache, child: Cache): Cache {
    map k | k in c.Keys + child.Keys && MergedAt(c, child, k).Some? :: MergedAt(c, child, k).value
  }

  predicate Misapplies(c: Cache, child: Cache) {
    exists k | k in child :: Merge(Find(c, k), child[k]).Misapplied?
  }

  /** `BatchWrite`; `None` is the exception on a misapplied FRESH flag. */
  ghost function Batch(l: Layer, child: Cache, best: nat): Option<Layer> {
    if Misapplies(l.cache, child) then None
    else
      var c := MergedCache(l.cache, child);
      Some(Layer(c, l.usage - TotalUsage(l.cache) + TotalUsage(c), best))
  }

  /** A child cache that is right about the parent's view never misapplies FRESH, and once it is written
      the parent shows exactly what the child showed. */
  lemma BatchKeeps(base: View, l: Layer, child: Cache, best: nat)
    requires LayerOk(base, l) && CacheOk(Overlay(base, l.cache), child)
    ensures Batch(l, child, best).Some? && LayerOk(base, Batch(l, child, best).value)
    ensures Overlay(base, Batch(l, child, best).value.cache) == Overlay(Overlay(base, l.cache), child)
  {
    var v := Overlay(base, l.cache);
    var c := MergedCache(l.cache, child);
    forall k: OutPoint
      ensures k in child ==> !Merge(Find(l.cache, k), child[k]).Misapplied?
      ensures k in c ==> EntryOk(base, k, c[k])
      ensures k in Overlay(base, c) <==> k in Overlay(v, child)
      ensures k in Overlay(base, c) ==> Overlay(base, c)[k] == Overlay(v, child)[k]
    {
      BatchAt(base, l, child, k);
    }
  }

  lemma BatchAt(base: View, l: Layer, child: Cache, k: OutPoint)
    requires LayerOk(base, l) && CacheOk(Overlay(base, l.cache), child)
    ensures k in child ==> !Merge(Find(l.cache, k), child[k]).Misapplied?
    ensures var c := MergedCache(l.cache, child);
            && (k in c ==> EntryOk(base, k, c[k]))
            && (k in Overlay(base, c) <==> k in Overlay(Overlay(base, l.cache), child))
            && (k in Overlay(base, c) ==> Overlay(base, c)[k] == Overlay(Overlay(base, l.cache), child)[k])
  {
    var c := MergedCache(l.cache, child);
    assert k in c <==> MergedAt(l.cache, child, k).Some?;
    assert k in c ==> c[k] == MergedAt(l.cache, child, k).value;
    assert k in l.cache ==> EntryOk(base, k, l.cache[k]);
    OverlayAt(base, l.cache, k);
    OverlayAt(base, c, k);
    OverlayAt(Overlay(base, l.cache), child, k);
    hide Overlay, CacheOk, MergedCache, TotalUsage;
  }

  /** What `Sync` leaves of a cache: the spent coins go, the flags are cleared. */
  ghost function Synced(c: Cache): Cache {
    map k | k in c && !c[k].coin.IsSpent() :: Entry(c[k].coin, false, false)
  }

  /** Against the view the cache has just written, what is left shows nothing new. */
  lemma SyncedKeeps(base: View, c: Cache, v: View)
    requires CacheOk(base, c) && v == Overlay(base, c)
    ensures CacheOk(v, Synced(c)) && Overlay(v, Synced(c)) == v
  {
    var s := Synced(c);
    forall k: OutPoint
      ensures k in s ==> EntryOk(v, k, s[k])
      ensures k in Overlay(v, s) <==> k in v
      ensures k in Overlay(v, s) ==> Overlay(v, s)[k] == v[k]
    {
      OverlayAt(base, c, k);
      OverlayAt(v, s, k);
    }
  }

  lemma EmptyKeeps(v: View, best: nat)
    ensures LayerOk(v, Layer(map[], 0, best)) && Overlay(v, map[]) == v
  {
  }

  /** Among the eight combinations of flags and spentness, `SanityCheck` accepts all that can occur. */
  lemma LegalStates(base: View, l: Layer, k: OutPoint)
    requires LayerOk(base, l) && k in l.cache
    ensures var e := l.cache[k];
            || (!e.coin.IsSpent() && e.isFresh && e.isDirty)
            || (!e.coin.IsSpent() && !e.isFresh)
            || (e.coin.IsSpent() && !e.isFresh && e.isDirty && e.Usage() == 0)
  {
    assert EntryOk(base, k, l.cache[k]);
  }
}
