/** Coins caches stacked over a database, and every run of operations on such a stack. */
module CoinStack {
  import opened Collections
  import opened Coins

  datatype Stack = Db(coins: View, best: nat) | Over(top: Layer, base: Stack)

  /** What the stack shows at its top. */
  ghost function Shown(s: Stack): View {
    match s
    case Db(coins, _) => coins
    case Over(top, base) => Overlay(Shown(base), top.cache)
  }

  /** What every level shows, from the top down to the database. */
  ghost function Views(s: Stack): (vs: seq<View>)
    ensures |vs| > 0 && vs[0] == Shown(s)
  {
    match s
    case Db(coins, _) => [coins]
    case Over(top, base) => [Shown(s)] + Views(base)
  }

  ghost predicate StackOk(s: Stack) {
    match s
    case Db(coins, _) => ViewOk(coins)
    case Over(top, base) => StackOk(base) && LayerOk(Shown(base), top)
  }

  lemma {:induction false} ShownOk(s: Stack)
    requires StackOk(s)
    ensures ViewOk(Shown(s))
  {
    match s
    case Db(_, _) =>
    case Over(top, base) => ShownOk(base);
  }

  /** Replacing what is below by a stack that shows the same. */
  lemma Rebase(top: Layer, base: Stack, base': Stack)
    requires StackOk(Over(top, base)) && StackOk(base') && Shown(base') == Shown(base)
    ensures StackOk(Over(top, base')) && Shown(Over(top, base')) == Shown(Over(top, base))
  {
  }

  // ----------------------------------------------------------------------- lookups

  /** `GetCoin`, filling every cache on the way down. */
  function GetCoin(s: Stack, k: OutPoint): (Stack, Option<Coin>) {
    match s
    case Db(coins, _) => (s, if k in coins then Some(coins[k]) else None)
    case Over(top, base) =>
      if k in top.cache then (s, if top.cache[k].coin.IsSpent() then None else Some(top.cache[k].coin))
      else
        var (base', found) := GetCoin(base, k);
        if found.None? then (Over(top, base'), None)
        else (Over(Fetched(top, k, found.value), base'), if found.value.IsSpent() then None else found)
  }

  lemma {:induction false} GetCoinKeeps(s: Stack, k: OutPoint)
    requires StackOk(s)
    ensures StackOk(GetCoin(s, k).0) && Views(GetCoin(s, k).0) == Views(s)
    ensures GetCoin(s, k).1 == if k in Shown(s) then Some(Shown(s)[k]) else None
  {
    match s
    case Db(_, _) =>
    case Over(top, base) =>
      OverlayAt(Shown(base), top.cache, k);
      if k !in top.cache {
        GetCoinKeeps(base, k);
        ShownOk(base);
        assert k in Shown(base) ==> !Shown(base)[k].IsSpent();
        hide Overlay, LayerOk, ViewOk;
        var base' := GetCoin(base, k).0;
        assert Shown(base') == Shown(base);
        Rebase(top, base, base');
        if k in Shown(base) {
          FetchedKeeps(Shown(base), top, k);
        }
      }
  }

  // ------------------------------------------------------------------ spend and add

  function Spend(s: Stack, k: OutPoint): (Stack, bool) {
    var fetched := GetCoin(s, k).0;
    if fetched.Over? && k in fetched.top.cache then (fetched.(top := Spent(fetched.top, k)), true)
    else (fetched, false)
  }

  /** The coin is gone from the top view, and no other level shows a change. */
  lemma SpendKeeps(s: Stack, k: OutPoint)
    requires StackOk(s) && s.Over?
    ensures StackOk(Spend(s, k).0)
    ensures Views(Spend(s, k).0) == Views(s)[0 := Shown(s) - {k}]
    ensures Spend(s, k).1 <==> k in s.top.cache || k in Shown(s)
  {
    hide Overlay, LayerOk, ViewOk;
    GetCoinKeeps(s, k);
    var f := GetCoin(s, k).0;
    OverlayAt(Shown(s.base), s.top.cache, k);
    OverlayAt(Shown(f.base), f.top.cache, k);
    ViewsOver(s);
    ViewsOver(f);
    assert k in f.top.cache <==> k in s.top.cache || k in Shown(s) by {
      GetCoinKeeps(s.base, k);
    }
    if k in f.top.cache {
      SpentKeeps(Shown(f.base), f.top, k);
      ViewsOver(Spend(s, k).0);
    } else {
      assert Shown(s) - {k} == Shown(s);
    }
  }

  lemma ViewsOver(s: Stack)
    requires s.Over?
    ensures Views(s) == [Shown(s)] + Views(s.base) && Views(s)[1..] == Views(s.base)
  {
  }

  function AddCoin(s: Stack, k: OutPoint, coin: Coin, possibleOverwrite: bool): Option<Stack>
    requires s.Over? && !coin.IsSpent()
  {
    match Add(s.top, k, coin, possibleOverwrite)
    case None => None
    case Some(top) => Some(s.(top := top))
  }

  // -------------------------------------------------------------------- write and flush

  /** The database writes the dirty entries: unspent coins in, spent ones out. */
  ghost function DbWritten(v: View, child: Cache): View {
    map k | k in v.Keys + child.Keys && (k in child && child[k].isDirty ==> !child[k].coin.IsSpent())
                                     && (k in v || child[k].isDirty) ::
      if k in child && child[k].isDirty then child[k].coin else v[k]
  }

  /** `BatchWrite` on the stack below; the database refuses a null best block. */
  ghost function WriteBatch(s: Stack, child: Cache, best: nat): Option<Stack> {
    match s
    case Db(coins, _) => if best == 0 then None else Some(Db(DbWritten(coins, child), best))
    case Over(top, base) =>
      match Batch(top, child, best)
      case None => None
      case Some(top') => Some(Over(top', base))
  }

  lemma WriteBatchKeeps(s: Stack, child: Cache, best: nat)
    requires StackOk(s) && CacheOk(Shown(s), child) && (s.Db? ==> best != 0)
    ensures WriteBatch(s, child, best).Some? && StackOk(WriteBatch(s, child, best).value)
    ensures Views(WriteBatch(s, child, best).value) == Views(s)[0 := Overlay(Shown(s), child)]
  {
    hide Overlay, LayerOk, CacheOk, ViewOk, DbWritten, Batch;
    match s
    case Db(coins, _) => DbWriteShows(coins, child);
    case Over(top, base) =>
      BatchKeeps(Shown(base), top, child, best);
      ViewsOver(s);
      ViewsOver(WriteBatch(s, child, best).value);
  }

  lemma DbWriteShows(v: View, child: Cache)
    requires ViewOk(v) && CacheOk(v, child)
    ensures DbWritten(v, child) == Overlay(v, child) && ViewOk(DbWritten(v, child))
  {
    var w := DbWritten(v, child);
    forall k: OutPoint
      ensures k in w <==> k in Overlay(v, child)
      ensures k in w ==> w[k] == Overlay(v, child)[k] && !w[k].IsSpent()
    {
      OverlayAt(v, child, k);
      assert k in child ==> EntryOk(v, k, child[k]);
    }
  }

  ghost function Flush(s: Stack): Option<Stack>
    requires s.Over?
  {
    match WriteBatch(s.base, s.top.cache, s.top.best)
    case None => None
    case Some(base) => Some(Over(Layer(map[], 0, s.top.best), base))
  }

  ghost function Sync(s: Stack): Option<Stack>
    requires s.Over?
  {
    match WriteBatch(s.base, s.top.cache, s.top.best)
    case None => None
    case Some(base) =>
      var c := Synced(s.top.cache);
      Some(Over(Layer(c, s.top.usage - TotalUsage(s.top.cache) + TotalUsage(c), s.top.best), base))
  }

  /** After `Flush` or `Sync` the level below shows what the top shows; nothing else changes. */
  lemma FlushKeeps(s: Stack)
    requires StackOk(s) && s.Over? && (s.base.Db? ==> s.top.best != 0)
    ensures Flush(s).Some? && StackOk(Flush(s).value)
    ensures Views(Flush(s).value) == Views(s)[1 := Shown(s)]
    ensures Sync(s).Some? && StackOk(Sync(s).value)
    ensures Views(Sync(s).value) == Views(s)[1 := Shown(s)]
  {
    ViewsOver(s);
    WriteBatchKeeps(s.base, s.top.cache, s.top.best);
    var base := WriteBatch(s.base, s.top.cache, s.top.best).value;
    EmptyKeeps(Shown(base), s.top.best);
    SyncedKeeps(Shown(s.base), s.top.cache, Shown(s));
    ViewsOver(Flush(s).value);
    ViewsOver(Sync(s).value);
    hide Overlay, ViewOk, TotalUsage, CacheOk;
  }

  // -------------------------------------------------------- operations at any level

  function FetchAt(s: Stack, n: nat, k: OutPoint): Stack {
    if n == 0 || s.Db? then GetCoin(s, k).0 else s.(base := FetchAt(s.base, n - 1, k))
  }

  function UncacheAt(s: Stack, n: nat, k: OutPoint): Stack {
    if s.Db? then s
    else if n == 0 then s.(top := Uncached(s.top, k))
    else s.(base := UncacheAt(s.base, n - 1, k))
  }

  /** `Flush`, or `Sync` when `keep` is set, of the n-th cache from the top. */
  ghost function FlushAt(s: Stack, n: nat, keep: bool): Option<Stack> {
    if s.Db? then Some(s)
    else if n == 0 then (if keep then Sync(s) else Flush(s))
    else
      match FlushAt(s.base, n - 1, keep)
      case None => None
      case Some(base) => Some(s.(base := base))
  }

  /** The cache above the database has a best block to write. */
  ghost predicate Ready(s: Stack, n: nat) {
    if s.Db? then true
    else if n == 0 then s.base.Db? ==> s.top.best != 0
    else Ready(s.base, n - 1)
  }

  lemma {:induction false} FetchAtKeeps(s: Stack, n: nat, k: OutPoint)
    requires StackOk(s)
    ensures StackOk(FetchAt(s, n, k)) && Views(FetchAt(s, n, k)) == Views(s)
  {
    hide Overlay, LayerOk;
    if n == 0 || s.Db? {
      GetCoinKeeps(s, k);
    } else {
      FetchAtKeeps(s.base, n - 1, k);
      Rebase(s.top, s.base, FetchAt(s.base, n - 1, k));
    }
  }

  lemma {:induction false} UncacheAtKeeps(s: Stack, n: nat, k: OutPoint)
    requires StackOk(s)
    ensures StackOk(UncacheAt(s, n, k)) && Views(UncacheAt(s, n, k)) == Views(s)
  {
    hide Overlay, LayerOk;
    if !s.Db? {
      if n == 0 {
        UncachedKeeps(Shown(s.base), s.top, k);
      } else {
        UncacheAtKeeps(s.base, n - 1, k);
        Rebase(s.top, s.base, UncacheAt(s.base, n - 1, k));
      }
    }
  }

  lemma {:induction false} FlushAtKeeps(s: Stack, n: nat, keep: bool)
    requires StackOk(s) && Ready(s, n)
    ensures FlushAt(s, n, keep).Some? && StackOk(FlushAt(s, n, keep).value)
    ensures Views(FlushAt(s, n, keep).value) ==
            if n + 1 < |Views(s)| then Views(s)[n + 1 := Views(s)[n]] else Views(s)
  {
    hide Overlay, LayerOk;
    if !s.Db? {
      if n == 0 {
        FlushKeeps(s);
      } else {
        FlushAtKeeps(s.base, n - 1, keep);
        Rebase(s.top, s.base, FlushAt(s.base, n - 1, keep).value);
      }
    }
  }

  // -------------------------------------------------------------------------- runs

  datatype Op =
    | AddOp(k: OutPoint, coin: Coin, possibleOverwrite: bool)
    | SpendOp(k: OutPoint)
    | FetchOp(n: nat, k: OutPoint)
    | UncacheOp(n: nat, k: OutPoint)
    | FlushOp(n: nat)
    | SyncOp(n: nat)
    | SetBestOp(best: nat)
    | PushOp
    | DiscardOp

  ghost function Step(s: Stack, op: Op): Option<Stack> {
    match op
    case AddOp(k, coin, over) => if s.Db? || coin.IsSpent() then None else AddCoin(s, k, coin, over)
    case SpendOp(k) => if s.Db? then None else Some(Spend(s, k).0)
    case FetchOp(n, k) => Some(FetchAt(s, n, k))
    case UncacheOp(n, k) => Some(UncacheAt(s, n, k))
    case FlushOp(n) => FlushAt(s, n, false)
    case SyncOp(n) => FlushAt(s, n, true)
    case SetBestOp(best) => if s.Db? then None else Some(s.(top := s.top.(best := best)))
    case PushOp => Some(Over(Layer(map[], 0, 0), s))
    case DiscardOp => if s.Db? then None else Some(s.base)
  }

  /** The same operation on plain maps, one per level. */
  ghost function FlatStep(vs: seq<View>, op: Op): seq<View>
    requires |vs| > 0
  {
    match op
    case AddOp(k, coin, _) => if coin.script.IsUnspendable() then vs else vs[0 := vs[0][k := coin]]
    case SpendOp(k) => vs[0 := vs[0] - {k}]
    case FetchOp(_, _) => vs
    case UncacheOp(_, _) => vs
    case FlushOp(n) => if n + 1 < |vs| then vs[n + 1 := vs[n]] else vs
    case SyncOp(n) => if n + 1 < |vs| then vs[n + 1 := vs[n]] else vs
    case SetBestOp(_) => vs
    case PushOp => [vs[0]] + vs
    case DiscardOp => vs[1..]
  }

  /** What the caller must see to: coins added are unspent and, unless overwriting is announced, absent;
      the database is only written together with a best block. */
  ghost predicate Permitted(s: Stack, op: Op) {
    match op
    case AddOp(k, coin, over) => s.Over? && !coin.IsSpent() && (over || k !in Shown(s))
    case SpendOp(_) => s.Over?
    case FlushOp(n) => Ready(s, n)
    case SyncOp(n) => Ready(s, n)
    case SetBestOp(_) => s.Over?
    case DiscardOp => s.Over?
    case _ => true
  }

  /** No operation throws, every layer stays right, and every level shows what the plain maps hold. */
  lemma StepRefines(s: Stack, op: Op)
    requires StackOk(s) && Permitted(s, op)
    ensures Step(s, op).Some? && StackOk(Step(s, op).value)
    ensures Views(Step(s, op).value) == FlatStep(Views(s), op)
  {
    match op
    case AddOp(k, coin, over) =>
      hide Overlay, LayerOk;
      AddKeeps(Shown(s.base), s.top, k, coin, over);
    case SpendOp(k) => SpendKeeps(s, k);
    case FetchOp(n, k) => FetchAtKeeps(s, n, k);
    case UncacheOp(n, k) => UncacheAtKeeps(s, n, k);
    case FlushOp(n) => FlushAtKeeps(s, n, false);
    case SyncOp(n) => FlushAtKeeps(s, n, true);
    case SetBestOp(best) => ViewsOver(s);
    case PushOp => EmptyKeeps(Shown(s), 0);
    case DiscardOp =>
  }

  ghost function Run(s: Stack, ops: seq<Op>): Option<Stack>
    decreases |ops|
  {
    if ops == [] then Some(s)
    else
      match Step(s, ops[0])
      case None => None
      case Some(s') => Run(s', ops[1..])
  }

  ghost function FlatRun(vs: seq<View>, ops: seq<Op>): seq<View>
    requires |vs| > 0
    decreases |ops|
  {
    if ops == [] then vs
    else
      var vs' := FlatStep(vs, ops[0]);
      if |vs'| == 0 then vs' else FlatRun(vs', ops[1..])
  }

  ghost predicate AllPermitted(s: Stack, ops: seq<Op>)
    decreases |ops|
  {
    ops == [] || (Permitted(s, ops[0]) && (Step(s, ops[0]).Some? ==> AllPermitted(Step(s, ops[0]).value, ops[1..])))
  }

  /** Over any run, on a stack of any height, the caches are invisible. */
  lemma {:induction false} RunRefines(s: Stack, ops: seq<Op>)
    requires StackOk(s) && AllPermitted(s, ops)
    ensures Run(s, ops).Some? && StackOk(Run(s, ops).value)
    ensures Views(Run(s, ops).value) == FlatRun(Views(s), ops)
    decreases |ops|
  {
    hide Step, FlatStep, StackOk, Permitted;
    if ops != [] {
      StepRefines(s, ops[0]);
      RunRefines(Step(s, ops[0]).value, ops[1..]);
    }
  }

  // -------------------------------------------------------------------- best block

  function BestBlock(s: Stack): nat {
    match s
    case Db(_, best) => best
    case Over(top, base) => if top.best != 0 then top.best else BestBlock(base)
  }

  /** A flush keeps the top's best block exactly when the top has one of its own, or losing the one of
      the level below makes no difference. */
  lemma FlushBestBlock(s: Stack)
    requires StackOk(s) && s.Over? && s.base.Over?
    ensures Flush(s).Some?
    ensures BestBlock(Flush(s).value) == BestBlock(s) <==>
            s.top.best != 0 || BestBlock(s.base) == BestBlock(s.base.base)
    ensures s.top.best != 0 ==> BestBlock(Flush(s).value.base) == BestBlock(s)
  {
    FlushKeeps(s);
  }
}
