/** The round trip itself: every entry, every new slot and every tried slot comes back. */
module AddrRestored {
  import opened Collections
  import opened AddrTypes
  import opened AddrInvariant
  import opened AddrTables
  import opened AddrFile
  import opened AddrReload
  import opened AddrRoundTrip
  import AddrCheck

  /** The id an entry has after the round trip. */
  ghost function Rename(news: seq<int>, tries: seq<int>, id: int): nat {
    if id in news then IndexOf(news, id) else |news| + IndexOf(tries, id)
  }

  /** Equal in everything that is stored, and with the same references. */
  ghost predicate SameEntry(e: AddrInfo, e': AddrInfo) {
    && e'.addr == e.addr && e'.source == e.source && e'.lastSuccess == e.lastSuccess && e'.attempts == e.attempts
    && e'.refCount == e.refCount && e'.inTried == e.inTried
  }

  ghost predicate SameTable(table: map<Slot, int>, table': map<Slot, int>, news: seq<int>, tries: seq<int>) {
    && (forall s :: s in table' <==> s in table)
    && (forall s | s in table :: table'[s] == Rename(news, tries, table[s]))
  }

  /** `r` is `st` with ids renamed one to one. */
  ghost predicate Restores(st: State, r: State, news: seq<int>, tries: seq<int>) {
    && r.env == st.env && r.key == st.key && r.nNew == st.nNew && r.nTried == st.nTried
    && (forall net: nat :: CountOf(r.counts, net) == CountOf(st.counts, net))
    && (forall id | id in st.info ::
          Rename(news, tries, id) in r.info && SameEntry(st.info[id], r.info[Rename(news, tries, id)]))
    && (forall x | x in r.info :: exists id :: id in st.info && x == Rename(news, tries, id))
    && (forall i, j | i in st.info && j in st.info && i != j :: Rename(news, tries, i) != Rename(news, tries, j))
    && SameTable(st.newTable, r.newTable, news, tries)
    && SameTable(st.tried, r.tried, news, tries)
  }

  /** The entries of the file, read back. */
  ghost predicate Base(st: State, base: State, news: seq<int>, tries: seq<int>) {
    && base.env == st.env && base.key == st.key && base.newTable == map[]
    && (forall x :: x in base.info <==> 0 <= x < |news| + |tries|)
    && (forall i | 0 <= i < |news| ::
          news[i] in st.info && base.info[i] == Restored(Stored(st.info[news[i]]), false, i))
    && (forall i | |news| <= i < |news| + |tries| ::
          tries[i - |news|] in st.info && base.info[i] == Restored(Stored(st.info[tries[i - |news|]]), true, i))
  }

  lemma ReadsBase(st: State, order: seq<int>)
    requires Writable(st, order)
    ensures var f := Serialize(st, order);
            var base := ReadEntries(ReadEntries(EmptyState(st.env, st.key), f.newEntries, false), f.triedEntries, true);
            Base(st, base, Filter(st, order, false), Filter(st, order, true)) && Shaped(base)
                && Loading(base, st.env, st.key)
  {
    hide Inv, Struct, Filter, TriedSlot, Loading, SaneFile, Separate, RandomIndex, ReadEntries, BucketIndices, Records;
    var f := Serialize(st, order);
    var empty := EmptyState(st.env, st.key);
    SaneWritten(st, order);
    EntriesKeep(st.env, f);
    EmptyShaped(st.env, st.key);
    ReadsNew(empty, f.newEntries);
    var mid := ReadEntries(empty, f.newEntries, false);
    SeparateWritten(st, order, mid);
    ReadsTried(mid, f.triedEntries);
    ExactBase(st, order, mid, ReadEntries(mid, f.triedEntries, true));
  }

  lemma ExactBase(st: State, order: seq<int>, mid: State, base: State)
    requires Writable(st, order) && Shaped(mid) && Shaped(base) && base.env == st.env && base.key == st.key
    requires ReadExact(EmptyState(st.env, st.key), Records(st, Filter(st, order, false)), false, mid)
    requires ReadExact(mid, Records(st, Filter(st, order, true)), true, base)
    ensures Base(st, base, Filter(st, order, false), Filter(st, order, true))
  {
    hide Inv, AllValid, Distinct, Filter, Records, RandomIndex;
    var news, tries := Filter(st, order, false), Filter(st, order, true);
    RecordsSize(st, news);
    RecordsSize(st, tries);
    forall i | 0 <= i < |news| ensures news[i] in st.info
        && base.info[i] == Restored(Stored(st.info[news[i]]), false, i) {
      RecordOf(st, order, false, i);
      assert i in mid.info;
    }
    forall i | |news| <= i < |news| + |tries|
      ensures tries[i - |news|] in st.info && base.info[i] == Restored(Stored(st.info[tries[i - |news|]]), true, i)
    {
      RecordOf(st, order, true, i - |news|);
    }
  }

  lemma RecordsSize(st: State, ids: seq<int>)
    requires forall id | id in ids :: id in st.info
    ensures |Records(st, ids)| == |ids|
  {
  }

  /** Every old new-slot can be given back. */
  lemma SlotRestorable(st: State, order: seq<int>, base: State, s: Slot)
    requires Writable(st, order) && Base(st, base, Filter(st, order, false), Filter(st, order, true))
             && s in st.newTable
    ensures Restorable(base, st.newTable, Filter(st, order, false), s)
    ensures 0 <= s.pos < BUCKET_SIZE
  {
    hide Filter, NewSlotIn, RandomIndex, AddrIndex, TriedOk, CountsOk, CollisionsOk, TimesOk, IdsBelow;
    var id := st.newTable[s];
    assert id in st.info && !st.info[id].inTried && s == NewSlotIn(st.env, st.key, st.info[id].addr.service, s.bucket);
    assert st.info[id].refCount == |SlotsOf(st.newTable, id)| <= NEW_BUCKETS_PER_ADDRESS;
    InNews(st, order, id);
    hide Inv;
    assert base.info[IndexOf(Filter(st, order, false), id)].addr == st.info[id].addr;
  }

  lemma InNews(st: State, order: seq<int>, id: int)
    requires Writable(st, order) && id in st.info
    ensures id in Filter(st, order, st.info[id].inTried) && id !in Filter(st, order, !st.info[id].inTried)
  {
    InvStruct(st);
    hide Inv, Struct, Filter;
    FiltersSplit(st, order, true);
    FiltersSplit(st, order, false);
    assert id in Ids(st.info, st.info[id].inTried, -1) && id !in Ids(st.info, !st.info[id].inTried, -1);
  }

  lemma PlacesAll(st: State, order: seq<int>, base: State, cur: State)
    requires Writable(st, order) && Base(st, base, Filter(st, order, false), Filter(st, order, true))
    requires Loading(base, st.env, st.key)
    requires forall e | e in EntriesAt(st.newTable, Filter(st, order, false),
             AllSlots(st.newTable, NEW_BUCKET_COUNT)) :: e.index in base.info
    requires cur == PlaceAll(base,
             EntriesAt(st.newTable, Filter(st, order, false), AllSlots(st.newTable, NEW_BUCKET_COUNT)), true)
    ensures Loading(cur, st.env, st.key)
    ensures Placed(base, st.newTable, Filter(st, order, false), AllSlots(st.newTable, NEW_BUCKET_COUNT), cur)
    ensures forall s :: s in AllSlots(st.newTable, NEW_BUCKET_COUNT) <==> s in st.newTable
  {
    hide Filter, Inv, Loading, Placed, Restorable, NewSlotIn, AllSlots, EntriesAt, PlaceAll;
    var slots := AllSlots(st.newTable, NEW_BUCKET_COUNT);
    AllSlotsAre(st.newTable, NEW_BUCKET_COUNT);
    forall s | s in st.newTable ensures s in slots {
      SlotRestorable(st, order, base, s);
      assert 0 <= s.bucket < NEW_BUCKET_COUNT by { BucketRange(base, st.newTable, Filter(st, order, false), s); }
    }
    forall s | s in slots ensures Restorable(base, st.newTable, Filter(st, order, false), s) {
      SlotRestorable(st, order, base, s);
    }
    PlacesBack(base, st.newTable, Filter(st, order, false), slots);
  }

  lemma BucketRange(base: State, table: map<Slot, int>, ids: seq<int>, s: Slot)
    requires Restorable(base, table, ids, s)
    ensures 0 <= s.bucket < NEW_BUCKET_COUNT
  {
  }

  // ---------------------------------------------------------------- entries and slots

  /** All old new-slots are back in `cur`, and nothing else. */
  ghost predicate Back(st: State, base: State, cur: State, news: seq<int>) {
    && cur == base.(info := cur.info, newTable := cur.newTable)
    && (forall x :: x in cur.info <==> x in base.info)
    && (forall x | x in base.info :: cur.info[x] == base.info[x].(refCount := cur.info[x].refCount))
    && (forall s :: s in cur.newTable <==> s in st.newTable)
    && (forall s | s in cur.newTable :: cur.newTable[s] == IndexOf(news, st.newTable[s]))
  }

  lemma PlacedBack(st: State, base: State, news: seq<int>, slots: seq<Slot>, cur: State)
    requires Placed(base, st.newTable, news, slots, cur) && forall s :: s in slots <==> s in st.newTable
    ensures Back(st, base, cur, news)
  {
  }

  /** An entry holds the same new slots as before. */
  lemma SameSlots(st: State, order: seq<int>, base: State, cur: State, id: int)
    requires Writable(st, order) && Back(st, base, cur, Filter(st, order, false)) && id in Filter(st, order, false)
    ensures SlotsOf(cur.newTable, IndexOf(Filter(st, order, false), id)) == SlotsOf(st.newTable, id)
  {
    hide Inv, Filter, Distinct, AllValid;
    var news := Filter(st, order, false);
    var x := IndexOf(news, id);
    forall s ensures s in SlotsOf(cur.newTable, x) <==> s in SlotsOf(st.newTable, id) {
      if s in st.newTable {
        OwnerInNews(st, order, s);
      }
    }
  }

  lemma OwnerInNews(st: State, order: seq<int>, s: Slot)
    requires Writable(st, order) && s in st.newTable
    ensures st.newTable[s] in Filter(st, order, false)
  {
    var id := st.newTable[s];
    assert id in st.info && !st.info[id].inTried by {
      hide RandomIndex, AddrIndex, TriedOk, CountsOk, CollisionsOk, TimesOk, IdsBelow, Filter;
    }
    hide Inv, Filter;
    InNews(st, order, id);
  }

  lemma Refs(st: State, env: Env, key: nat, id: int)
    requires Loading(st, env, key) && id in st.info && !st.info[id].inTried
    ensures st.info[id].refCount == |SlotsOf(st.newTable, id)|
  {
    hide Index, TriedOk, NewSlotsOk, CountsOk, TimesOk;
  }

  lemma InvLoading(st: State)
    requires Inv(st)
    ensures Loading(st.(collisions := {}), st.env, st.key)
  {
    hide IdsBelow, AddrIndex, RandomIndex, TriedOk, NewSlotsOk, RefsOk, TimesOk;
    assert CountersOf(st.(collisions := {})) == CountersOf(st);
  }

  lemma NoRefCount(st: State, id: int)
    requires Inv(st) && id in st.info
    ensures if st.info[id].inTried then st.info[id].refCount == 0 else st.info[id].refCount > 0
  {
    hide Index, NewSlotsOk, RefsOk, CountsOk, CollisionsOk;
  }

  lemma EntryBack(st: State, order: seq<int>, base: State, cur: State, id: int)
    requires Writable(st, order) && Base(st, base, Filter(st, order, false), Filter(st, order, true))
    requires Back(st, base, cur, Filter(st, order, false)) && Loading(cur, st.env, st.key) && id in st.info
    ensures var x := Rename(Filter(st, order, false), Filter(st, order, true), id);
            x in cur.info && SameEntry(st.info[id], cur.info[x])
  {
    hide Inv, Filter, Loading, Distinct, AllValid;
    var news, tries := Filter(st, order, false), Filter(st, order, true);
    InNews(st, order, id);
    NoRefCount(st, id);
    var x := Rename(news, tries, id);
    if st.info[id].inTried {
      assert x == |news| + IndexOf(tries, id);
      TriedRefs(cur, st.env, st.key, x);
    } else {
      SameSlots(st, order, base, cur, id);
      Refs(cur, st.env, st.key, x);
      InvLoading(st);
      Refs(st.(collisions := {}), st.env, st.key, id);
    }
  }

  lemma TriedRefs(st: State, env: Env, key: nat, id: int)
    requires Loading(st, env, key) && id in st.info && st.info[id].inTried
    ensures st.info[id].refCount == 0
  {
    hide Index, RefsOk, NewSlotsOk, CountsOk, TimesOk;
  }

  /** Every id of the loaded tables stands for an entry. */
  lemma Onto(st: State, order: seq<int>, base: State, x: int) returns (id: int)
    requires Writable(st, order) && Base(st, base, Filter(st, order, false), Filter(st, order, true)) && x in base.info
    ensures id in st.info && x == Rename(Filter(st, order, false), Filter(st, order, true), id)
  {
    hide Inv, Filter, IndexOf;
    var news, tries := Filter(st, order, false), Filter(st, order, true);
    if x < |news| {
      id := news[x];
      RecordOf(st, order, false, x);
      FilterIs(st, order, false);
      IndexUnique(news, x);
    } else {
      id := tries[x - |news|];
      RecordOf(st, order, true, x - |news|);
      FilterIs(st, order, true);
      IndexUnique(tries, x - |news|);
    }
    InNews(st, order, id);
  }

  lemma IndexUnique(s: seq<int>, i: nat)
    requires Distinct(s) && i < |s|
    ensures IndexOf(s, s[i]) == i
  {
    assert s[i] in s && s[IndexOf(s, s[i])] == s[i];
  }

  lemma Injective(st: State, order: seq<int>, i: int, j: int)
    requires Writable(st, order) && i in st.info && j in st.info
    requires Rename(Filter(st, order, false), Filter(st, order, true), i) ==
             Rename(Filter(st, order, false), Filter(st, order, true), j)
    ensures i == j
  {
    hide Inv, Filter;
    InNews(st, order, i);
    InNews(st, order, j);
  }

  /** Nothing is pruned. */
  lemma NothingPruned(st: State, order: seq<int>, base: State, cur: State)
    requires Writable(st, order) && Base(st, base, Filter(st, order, false), Filter(st, order, true))
    requires Back(st, base, cur, Filter(st, order, false)) && Loading(cur, st.env, st.key)
    ensures Unreferenced(cur) == {}
  {
    hide Inv, Filter, Loading, Traversal, AllValid, Base, Rename;
    forall x | x in cur.info && !cur.info[x].inTried ensures cur.info[x].refCount != 0 {
      var id := Onto(st, order, base, x);
      EntryBack(st, order, base, cur, id);
      NoRefCount(st, id);
    }
  }

  lemma TriedBack(st: State, order: seq<int>, base: State, cur: State)
    requires Writable(st, order) && Base(st, base, Filter(st, order, false), Filter(st, order, true))
    requires Back(st, base, cur, Filter(st, order, false)) && Loading(cur, st.env, st.key)
    ensures SameTable(st.tried, cur.tried, Filter(st, order, false), Filter(st, order, true))
  {
    hide Inv, Filter, Loading, Distinct, AllValid, Base, Rename, Back, TriedSlot;
    assert cur.env == st.env && cur.key == st.key by { LoadingEnv(cur, st.env, st.key); }
    var news, tries := Filter(st, order, false), Filter(st, order, true);
    InvTried(st);
    LoadingTried(cur, st.env, st.key);
    forall s | s in st.tried ensures s in cur.tried && cur.tried[s] == Rename(news, tries, st.tried[s]) {
      var id := st.tried[s];
      TriedEntry(st.env, st.key, st.info, st.tried, s);
      EntryBack(st, order, base, cur, id);
    }
    forall s | s in cur.tried ensures s in st.tried {
      var x := cur.tried[s];
      TriedEntry(cur.env, cur.key, cur.info, cur.tried, s);
      assert x in base.info by { assert Back(st, base, cur, news); BackKeys(st, base, cur, news, x); }
      var id := Onto(st, order, base, x);
      EntryBack(st, order, base, cur, id);
    }
  }

  lemma BackKeys(st: State, base: State, cur: State, news: seq<int>, x: int)
    requires Back(st, base, cur, news) && x in cur.info
    ensures x in base.info
  {
  }

  lemma LoadingEnv(st: State, env: Env, key: nat)
    requires Loading(st, env, key)
    ensures st.env == env && st.key == key
  {
  }

  lemma InvTried(st: State)
    requires Inv(st)
    ensures TriedOk(st.env, st.key, st.info, st.tried)
  {
  }

  lemma LoadingTried(st: State, env: Env, key: nat)
    requires Loading(st, env, key)
    ensures TriedOk(st.env, st.key, st.info, st.tried)
  {
  }

  // ---------------------------------------------------------------------- the counters

  lemma {:induction false} ImageSize(a: set<int>, b: set<int>, f: int -> int)
    requires forall x, y | x in a && y in a && x != y :: f(x) != f(y)
    requires forall y :: y in b <==> exists x :: x in a && f(x) == y
    ensures |a| == |b|
    decreases a
  {
    if a == {} {
      if b != {} {
        var y := AnyOf(b);
        assert false;
      }
    } else {
      var x := AnyOf(a);
      forall y ensures y in b - {f(x)} <==> exists z :: z in a - {x} && f(z) == y {
        if y in b - {f(x)} {
          var z :| z in a && f(z) == y;
          assert z in a - {x};
        }
      }
      ImageSize(a - {x}, b - {f(x)}, f);
    }
  }

  lemma AnyOf<T>(a: set<T>) returns (x: T)
    requires a != {}
    ensures x in a
  {
    x :| x in a;
  }

  lemma SameSize(st: State, order: seq<int>, base: State, cur: State, tried: bool, net: int)
    requires Writable(st, order) && Base(st, base, Filter(st, order, false), Filter(st, order, true))
    requires Back(st, base, cur, Filter(st, order, false)) && Loading(cur, st.env, st.key)
    ensures |Ids(st.info, tried, net)| == |Ids(cur.info, tried, net)|
  {
    hide Inv, Filter, Loading, Distinct, AllValid, Base, Rename, Back;
    var news, tries := Filter(st, order, false), Filter(st, order, true);
    var f := (id: int) => Rename(news, tries, id) as int;
    var a, b := Ids(st.info, tried, net), Ids(cur.info, tried, net);
    forall x, y | x in a && y in a && x != y ensures f(x) != f(y) {
      if f(x) == f(y) { Injective(st, order, x, y); }
    }
    forall y ensures y in b <==> exists x :: x in a && f(x) == y {
      if y in b {
        BackKeys(st, base, cur, news, y);
        var x := Onto(st, order, base, y);
        EntryBack(st, order, base, cur, x);
        assert x in a && f(x) == y;
      }
      if x :| x in a && f(x) == y {
        EntryBack(st, order, base, cur, x);
      }
    }
    ImageSize(a, b, f);
  }

  lemma Tallied(st: State, tried: bool, net: int)
    requires CountsOk(st.info, CountersOf(st), {})
    ensures CountersOf(st).Tally(tried, net) == |Ids(st.info, tried, net)|
  {
    assert Ids(st.info, tried, net) - {} == Ids(st.info, tried, net);
    assert CountersOf(st).Tally(tried, net) == |Ids(st.info, tried, net) - {}|;
  }

  lemma SameCounters(st: State, order: seq<int>, base: State, cur: State)
    requires Writable(st, order) && Base(st, base, Filter(st, order, false), Filter(st, order, true))
    requires Back(st, base, cur, Filter(st, order, false)) && Loading(cur, st.env, st.key)
    ensures cur.nNew == st.nNew && cur.nTried == st.nTried
    ensures forall net: nat :: CountOf(cur.counts, net) == CountOf(st.counts, net)
  {
    assert CountsOk(st.info, CountersOf(st), {}) && CountsOk(cur.info, CountersOf(cur), {});
    hide Inv, Filter, Loading, Distinct, AllValid, Base, Back, CountsOk, Ids;
    forall tried: bool, net: int ensures CountersOf(st).Tally(tried, net) == CountersOf(cur).Tally(tried, net) {
      SameSize(st, order, base, cur, tried, net);
      Tallied(st, tried, net);
      Tallied(cur, tried, net);
    }
    assert CountersOf(st).Tally(false, -1) == CountersOf(cur).Tally(false, -1);
    assert CountersOf(st).Tally(true, -1) == CountersOf(cur).Tally(true, -1);
    forall net: nat ensures CountOf(cur.counts, net) == CountOf(st.counts, net) {
      assert CountersOf(st).Tally(false, net) == CountersOf(cur).Tally(false, net);
      assert CountersOf(st).Tally(true, net) == CountersOf(cur).Tally(true, net);
    }
  }

  // ------------------------------------------------------------------------- the sizes

  ghost function Owners(table: map<Slot, int>, slots: seq<Slot>): set<int> {
    set s | s in slots && s in table :: table[s]
  }

  lemma {:induction false} OwnersSize(table: map<Slot, int>, slots: seq<Slot>)
    ensures |Owners(table, slots)| <= |slots|
    decreases |slots|
  {
    if slots == [] {
      assert Owners(table, slots) == {};
    } else {
      var init, s := slots[..|slots| - 1], slots[|slots| - 1];
      OwnersSize(table, init);
      var one := if s in table then {table[s]} else {};
      assert Owners(table, slots) == Owners(table, init) + one;
    }
  }

  lemma FitsTable(ids: seq<int>, table: map<Slot, int>, n: nat)
    requires Distinct(ids)
    requires forall id | id in ids :: exists s ::
               s in table && table[s] == id && 0 <= s.bucket < n && 0 <= s.pos < BUCKET_SIZE
    ensures |ids| <= n * BUCKET_SIZE
  {
    var slots := AllSlots(table, n);
    AllSlotsAre(table, n);
    OwnersSize(table, slots);
    DistinctSize(ids);
    assert Elements(ids) <= Owners(table, slots);
    SubsetSize(Elements(ids), Owners(table, slots));
  }

  lemma SlotOfNew(st: State, id: int) returns (s: Slot)
    requires Inv(st) && id in st.info && !st.info[id].inTried
    ensures s in st.newTable && st.newTable[s] == id && 0 <= s.bucket < NEW_BUCKET_COUNT && 0 <= s.pos < BUCKET_SIZE
  {
    hide Index, TriedOk, CountsOk, CollisionsOk, NewSlotIn;
    assert |SlotsOf(st.newTable, id)| > 0;
    if forall s :: s !in SlotsOf(st.newTable, id) {
      assert false;
    }
    s :| s in SlotsOf(st.newTable, id);
  }

  lemma SizesFit(st: State, order: seq<int>)
    requires Writable(st, order)
    ensures |Filter(st, order, false)| <= NEW_BUCKET_COUNT * BUCKET_SIZE
    ensures |Filter(st, order, true)| <= TRIED_BUCKET_COUNT * BUCKET_SIZE
  {
    InvTried(st);
    hide Inv, Filter, TriedSlot;
    var news, tries := Filter(st, order, false), Filter(st, order, true);
    FilterIs(st, order, false);
    FilterIs(st, order, true);
    forall id | id in news
      ensures exists s ::
                s in st.newTable && st.newTable[s] == id && 0 <= s.bucket < NEW_BUCKET_COUNT && 0 <= s.pos < BUCKET_SIZE
    {
      InvStruct(st);
      SelectedIs(st, id, false);
      var s := SlotOfNew(st, id);
    }
    FitsTable(news, st.newTable, NEW_BUCKET_COUNT);
    forall id | id in tries
      ensures exists s ::
                s in st.tried && st.tried[s] == id && 0 <= s.bucket < TRIED_BUCKET_COUNT && 0 <= s.pos < BUCKET_SIZE
    {
      var s := TriedSlot(st.env, st.key, st.info[id].addr.service);
      assert s in st.tried && st.tried[s] == id;
    }
    FitsTable(tries, st.tried, TRIED_BUCKET_COUNT);
  }

  // ------------------------------------------------------------------------ round trip

  lemma NewBack(st: State, order: seq<int>, base: State, cur: State)
    requires Writable(st, order) && Back(st, base, cur, Filter(st, order, false))
    ensures SameTable(st.newTable, cur.newTable, Filter(st, order, false), Filter(st, order, true))
  {
    hide Inv, Filter, Distinct, AllValid;
    forall s | s in st.newTable ensures st.newTable[s] in Filter(st, order, false) { OwnerInNews(st, order, s); }
  }

  lemma AllBack(st: State, order: seq<int>, base: State, cur: State)
    requires Writable(st, order) && Base(st, base, Filter(st, order, false), Filter(st, order, true))
    requires Back(st, base, cur, Filter(st, order, false)) && Loading(cur, st.env, st.key)
    ensures Restores(st, cur, Filter(st, order, false), Filter(st, order, true))
  {
    hide Inv, Filter, Loading, Distinct, AllValid, Base, Rename, Back, SameEntry, SameTable;
    LoadingEnv(cur, st.env, st.key);
    SameCounters(st, order, base, cur);
    TriedBack(st, order, base, cur);
    NewBack(st, order, base, cur);
    var news, tries := Filter(st, order, false), Filter(st, order, true);
    forall id | id in st.info
      ensures Rename(news, tries, id) in cur.info && SameEntry(st.info[id], cur.info[Rename(news, tries, id)])
    {
      EntryBack(st, order, base, cur, id);
    }
    forall x | x in cur.info ensures exists id :: id in st.info && x == Rename(news, tries, id) {
      BackKeys(st, base, cur, news, x);
      var id := Onto(st, order, base, x);
    }
    forall i, j | i in st.info && j in st.info && i != j ensures Rename(news, tries, i) != Rename(news, tries, j) {
      if Rename(news, tries, i) == Rename(news, tries, j) { Injective(st, order, i, j); }
    }
  }

  lemma RebuildIs(st: State, order: seq<int>, base: State, cur: State)
    requires Writable(st, order)
    requires var f := Serialize(st, order);
             base == ReadEntries(ReadEntries(EmptyState(st.env, st.key), f.newEntries, false), f.triedEntries, true)
    requires forall e | e in EntriesAt(st.newTable, Filter(st, order, false),
             AllSlots(st.newTable, NEW_BUCKET_COUNT)) :: e.index in base.info
    requires cur == PlaceAll(base,
             EntriesAt(st.newTable, Filter(st, order, false), AllSlots(st.newTable, NEW_BUCKET_COUNT)), true)
    requires RandomIndex(cur.info, cur.random) && Unreferenced(cur) == {}
    ensures Rebuild(st.env, Serialize(st, order), NEW_BUCKET_COUNT) == cur
  {
    hide Inv, Filter, Distinct, AllValid, ReadEntries, PlaceAll, EntriesAt, AllSlots, Unreferenced, RandomIndex,
        Records, BucketIndices;
    var f := Serialize(st, order);
    var news := Filter(st, order, false);
    assert f.buckets == WrittenBuckets(st.newTable, news, NEW_BUCKET_COUNT);
    assert f.buckets[..NEW_BUCKET_COUNT] == f.buckets;
    forall s | s in st.newTable ensures st.newTable[s] in news { OwnerInNews(st, order, s); }
    RecordsSize(st, news);
    ReadBucketsIs(st.newTable, news, NEW_BUCKET_COUNT);
    hide ReadBuckets;
  }

  /**
   * Loading a file just written succeeds and restores every entry, every new slot, every tried slot and
   * every counter, up to one-to-one renumbering; nothing is lost.
   */
  lemma RoundTrip(st: State, order: seq<int>)
    requires Inv(st) && AllValid(st) && Traversal(st, order)
    ensures var r := Unserialize(st.env, Serialize(st, order));
            r.Ok? && Inv(r.st) && Restores(st, r.st, Filter(st, order, false), Filter(st, order, true))
  {
    hide Inv, Filter, Distinct, AllValid, ReadEntries, PlaceAll, EntriesAt, AllSlots, Unreferenced, RandomIndex,
         Records, BucketIndices, Loading, Base, Back, Placed, SaneFile, Rebuild, AddrCheck.Passes, Restores;
    var f := Serialize(st, order);
    var news, tries := Filter(st, order, false), Filter(st, order, true);
    SaneWritten(st, order);
    LoadsConsistent(st.env, f, NEW_BUCKET_COUNT);
    SizesFit(st, order);
    RecordsSize(st, news);
    RecordsSize(st, tries);
    ReadsBase(st, order);
    var base := ReadEntries(ReadEntries(EmptyState(st.env, st.key), f.newEntries, false), f.triedEntries, true);
    var slots := AllSlots(st.newTable, NEW_BUCKET_COUNT);
    Placeable(st, order, base);
    var es := EntriesAt(st.newTable, news, slots);
    var cur := PlaceAll(base, es, true);
    PlacesAll(st, order, base, cur);
    PlacedBack(st, base, news, slots, cur);
    NothingPruned(st, order, base, cur);
    PlaceAllShapes(base, es, true);
    RebuildIs(st, order, base, cur);
    AllBack(st, order, base, cur);
  }

  lemma Placeable(st: State, order: seq<int>, base: State)
    requires Writable(st, order) && Base(st, base, Filter(st, order, false), Filter(st, order, true))
    ensures forall e | e in EntriesAt(st.newTable, Filter(st, order, false), AllSlots(st.newTable, NEW_BUCKET_COUNT)) ::
            e.index in base.info
  {
    hide Filter, Inv, Restorable, AllSlots, EntriesAt;
    var slots := AllSlots(st.newTable, NEW_BUCKET_COUNT);
    AllSlotsAre(st.newTable, NEW_BUCKET_COUNT);
    forall s | s in slots ensures Restorable(base, st.newTable, Filter(st, order, false), s) {
      SlotRestorable(st, order, base, s);
    }
    EntriesIn(base, st.newTable, Filter(st, order, false), slots);
  }
}
