/** Loading a file that was just written restores the address manager, up to new ids. */
module AddrRoundTrip {
  import opened Collections
  import opened AddrTypes
  import opened AddrInvariant
  import opened AddrTables
  import opened AddrOps
  import opened AddrFile
  import opened AddrReload

  // --------------------------------------------------------- lists without repetitions

  ghost function Elements<T>(s: seq<T>): set<T> { set x | x in s }

  lemma {:induction false} DistinctSize<T>(s: seq<T>)
    ensures |Elements(s)| <= |s| && (Distinct(s) ==> |Elements(s)| == |s|)
  {
    if s != [] {
      var init, x := s[..|s| - 1], s[|s| - 1];
      DistinctSize(init);
      assert Elements(s) == Elements(init) + {x};
      assert Distinct(s) ==> x !in Elements(init);
    }
  }

  // ------------------------------------------------------------------ what is written

  /** `order` lists every entry once. */
  ghost predicate Traversal(st: State, order: seq<int>) {
    Distinct(order) && forall id :: id in order <==> id in st.info
  }

  ghost predicate Selected(st: State, id: int, tried: bool)
    requires id in st.info
  {
    if tried then st.info[id].inTried else st.info[id].refCount != 0
  }

  lemma {:induction false} FilterIs(st: State, order: seq<int>, tried: bool)
    requires Distinct(order) && forall id | id in order :: id in st.info
    ensures Distinct(Filter(st, order, tried))
    ensures forall id | id in st.info :: id in Filter(st, order, tried) <==> id in order && Selected(st, id, tried)
    decreases |order|
  {
    if order != [] {
      var init, last := order[..|order| - 1], order[|order| - 1];
      forall id | id in init ensures id in order {}
      FilterIs(st, init, tried);
      assert last !in init;
    }
  }

  /** New ids, in file order, and tried ids: together every entry, each once. */
  lemma FiltersSplit(st: State, order: seq<int>, tried: bool)
    requires Struct(st) && Traversal(st, order)
    ensures Distinct(Filter(st, order, tried))
    ensures Elements(Filter(st, order, tried)) == Ids(st.info, tried, -1)
    ensures |Filter(st, order, tried)| == if tried then st.nTried else st.nNew
  {
    FilterIs(st, order, tried);
    var ids := Filter(st, order, tried);
    forall id ensures id in Elements(ids) <==> id in Ids(st.info, tried, -1) {
      if id in st.info { SelectedIs(st, id, tried); }
    }
    DistinctSize(ids);
    SizeIs(st, tried);
  }

  lemma SelectedIs(st: State, id: int, tried: bool)
    requires Struct(st) && id in st.info
    ensures Selected(st, id, tried) <==> st.info[id].inTried == tried
  {
    hide Index, NewSlotsOk, RefsOk, CountsOk, CollisionsOk;
  }

  lemma SizeIs(st: State, tried: bool)
    requires Struct(st)
    ensures |Ids(st.info, tried, -1)| == if tried then st.nTried else st.nNew
  {
    hide Index, NewSlotsOk, RefsOk, TriedOk, CollisionsOk;
    assert Ids(st.info, tried, -1) - {} == Ids(st.info, tried, -1);
    assert CountersOf(st).Tally(tried, -1) == |Ids(st.info, tried, -1) - {}|;
  }

  // ----------------------------------------------------------------- slots in file order

  ghost function AllSlots(table: map<Slot, int>, n: nat): seq<Slot> {
    if n == 0 then [] else AllSlots(table, n - 1) + BucketSlots(table, n - 1, BUCKET_SIZE)
  }

  lemma {:induction false} BucketSlotsAre(table: map<Slot, int>, bucket: int, n: nat)
    ensures Distinct(BucketSlots(table, bucket, n)) && |BucketSlots(table, bucket, n)| <= n
    ensures forall s: Slot :: s in BucketSlots(table, bucket, n) <==> s in table && s.bucket == bucket && 0 <= s.pos < n
    decreases n
  {
    if n > 0 {
      BucketSlotsAre(table, bucket, n - 1);
      forall s: Slot ensures s in BucketSlots(table, bucket, n) <==>
          s in table && s.bucket == bucket && 0 <= s.pos < n {
        assert s == Slot(s.bucket, s.pos);
      }
    }
  }

  lemma {:induction false} AllSlotsAre(table: map<Slot, int>, n: nat)
    ensures Distinct(AllSlots(table, n)) && |AllSlots(table, n)| <= n * BUCKET_SIZE
    ensures forall s: Slot :: s in AllSlots(table, n) <==> s in table && 0 <= s.bucket < n && 0 <= s.pos < BUCKET_SIZE
    decreases n
  {
    if n > 0 {
      AllSlotsAre(table, n - 1);
      BucketSlotsAre(table, n - 1, BUCKET_SIZE);
    }
  }

  /** The pairs a list of slots stands for in the file. */
  ghost function EntriesAt(table: map<Slot, int>, ids: seq<int>, slots: seq<Slot>): seq<BucketEntry> {
    seq(|slots|, i requires 0 <= i < |slots| =>
      BucketEntry(slots[i].bucket, if slots[i] in table then IndexOf(ids, table[slots[i]]) else 0))
  }

  lemma {:induction false} ReadBucketIs(table: map<Slot, int>, ids: seq<int>, bucket: int, slots: seq<Slot>)
    requires forall s | s in slots :: s in table && table[s] in ids && s.bucket == bucket
    ensures ReadBucket(bucket, BucketIndices(table, ids, slots), |ids|) == EntriesAt(table, ids, slots)
    decreases |slots|
  {
    if slots != [] {
      var n := |slots| - 1;
      forall s | s in slots[..n] ensures s in slots {}
      ReadBucketIs(table, ids, bucket, slots[..n]);
      assert slots[n] in slots;
      assert BucketIndices(table, ids, slots)[..n] == BucketIndices(table, ids, slots[..n]);
      assert EntriesAt(table, ids, slots) == EntriesAt(table, ids, slots[..n]) +
             [BucketEntry(bucket, IndexOf(ids, table[slots[n]]))];
    }
  }

  ghost function WrittenBuckets(table: map<Slot, int>, ids: seq<int>, n: nat): seq<seq<int>> {
    seq(n, b => BucketIndices(table, ids, BucketSlots(table, b, BUCKET_SIZE)))
  }

  lemma EntriesAtConcat(table: map<Slot, int>, ids: seq<int>, a: seq<Slot>, b: seq<Slot>)
    ensures EntriesAt(table, ids, a + b) == EntriesAt(table, ids, a) + EntriesAt(table, ids, b)
  {
    hide IndexOf;
  }

  lemma WrittenPrefix(table: map<Slot, int>, ids: seq<int>, n: nat)
    requires n > 0
    ensures var w := WrittenBuckets(table, ids, n);
            && |w| == n && w[..n - 1] == WrittenBuckets(table, ids, n - 1)
            && w[n - 1] == BucketIndices(table, ids, BucketSlots(table, n - 1, BUCKET_SIZE))
  {
    hide BucketIndices, BucketSlots;
  }

  lemma {:induction false} ReadBucketsIs(table: map<Slot, int>, ids: seq<int>, n: nat)
    requires forall s | s in table :: table[s] in ids
    ensures ReadBuckets(WrittenBuckets(table, ids, n), |ids|) == EntriesAt(table, ids, AllSlots(table, n))
    decreases n
  {
    if n > 0 {
      ReadBucketsIs(table, ids, n - 1);
      ReadBucketsStep(table, ids, n);
    }
  }

  lemma {:induction false} ReadBucketsStep(table: map<Slot, int>, ids: seq<int>, n: nat)
    requires n > 0 && forall s | s in table :: table[s] in ids
    requires ReadBuckets(WrittenBuckets(table, ids, n - 1), |ids|) == EntriesAt(table, ids, AllSlots(table, n - 1))
    ensures ReadBuckets(WrittenBuckets(table, ids, n), |ids|) == EntriesAt(table, ids, AllSlots(table, n))
  {
    hide BucketSlots, BucketIndices, EntriesAt, ReadBucket, IndexOf, WrittenBuckets;
    var slots := BucketSlots(table, n - 1, BUCKET_SIZE);
    assert forall s | s in slots :: s in table && table[s] in ids && s.bucket == n - 1 by {
      BucketSlotsAre(table, n - 1, BUCKET_SIZE);
    }
    ReadBucketIs(table, ids, n - 1, slots);
    WrittenPrefix(table, ids, n);
    EntriesAtConcat(table, ids, AllSlots(table, n - 1), slots);
  }

  // ---------------------------------------------------------------- placing them back

  /** Slot `s` of the old table can be given back to the entry that had it. */
  ghost predicate Restorable(base: State, table: map<Slot, int>, ids: seq<int>, s: Slot) {
    && s in table && table[s] in ids && |SlotsOf(table, table[s])| <= NEW_BUCKETS_PER_ADDRESS
    && 0 <= s.bucket < NEW_BUCKET_COUNT
    && var x := IndexOf(ids, table[s]);
       && x in base.info && !base.info[x].inTried && base.env.valid(base.info[x].addr.service.ip)
       && s == NewSlotIn(base.env, base.key, base.info[x].addr.service, s.bucket)
  }

  /** The slots in `slots` are back, and nothing else has changed but reference counts. */
  ghost predicate Placed(base: State, table: map<Slot, int>, ids: seq<int>, slots: seq<Slot>, cur: State) {
    && cur == base.(info := cur.info, newTable := cur.newTable)
    && (forall x :: x in cur.info <==> x in base.info)
    && (forall x | x in base.info :: cur.info[x] == base.info[x].(refCount := cur.info[x].refCount))
    && (forall s :: s in cur.newTable <==> s in slots)
    && (forall s | s in cur.newTable :: s in table && cur.newTable[s] == IndexOf(ids, table[s]))
  }

  /** There is room for one more reference, because the old table had one more. */
  lemma RoomLeft(base: State, table: map<Slot, int>, ids: seq<int>, slots: seq<Slot>, cur: State, s: Slot)
    requires Placed(base, table, ids, slots, cur) && Loading(cur, base.env, base.key)
    requires Restorable(base, table, ids, s) && s !in slots
    requires forall t | t in slots :: Restorable(base, table, ids, t)
    ensures cur.info[IndexOf(ids, table[s])].refCount < NEW_BUCKETS_PER_ADDRESS
  {
    var id := table[s];
    var x := IndexOf(ids, id);
    assert cur.info[x].refCount == |SlotsOf(cur.newTable, x)| by {
      hide Index, TriedOk, NewSlotsOk, CountsOk, TimesOk;
    }
    hide Loading, NewSlotIn;
    forall t | t in SlotsOf(cur.newTable, x) ensures t in SlotsOf(table, id) && t != s {
      assert Restorable(base, table, ids, t);
    }
    Smaller(SlotsOf(cur.newTable, x), SlotsOf(table, id), s);
  }

  lemma Smaller(a: set<Slot>, b: set<Slot>, s: Slot)
    requires a <= b && s in b && s !in a
    ensures |a| < |b|
  {
    assert a <= b - {s};
    SubsetSize(a, b - {s});
  }

  lemma PlaceBack(base: State, table: map<Slot, int>, ids: seq<int>, slots: seq<Slot>, cur: State, s: Slot)
    requires Placed(base, table, ids, slots, cur) && Restorable(base, table, ids, s) && s !in slots
    requires cur.info[IndexOf(ids, table[s])].refCount < NEW_BUCKETS_PER_ADDRESS
    ensures Placed(base, table, ids, slots + [s], Place(cur, BucketEntry(s.bucket, IndexOf(ids, table[s])), true))
  {
    hide NewSlotIn, SlotsOf, IndexOf;
    var x := IndexOf(ids, table[s]);
    var e := BucketEntry(s.bucket, x);
    assert Place(cur, e, true) == AddRef(cur, x, s);
  }

  lemma {:induction false} PlacesBack(base: State, table: map<Slot, int>, ids: seq<int>, slots: seq<Slot>)
    requires Loading(base, base.env, base.key) && base.newTable == map[] && Distinct(slots)
    requires forall s | s in slots :: Restorable(base, table, ids, s)
    ensures forall e | e in EntriesAt(table, ids, slots) :: e.index in base.info
    ensures Loading(PlaceAll(base, EntriesAt(table, ids, slots), true), base.env, base.key)
    ensures Placed(base, table, ids, slots, PlaceAll(base, EntriesAt(table, ids, slots), true))
    decreases |slots|
  {
    hide Loading, NewSlotIn, SlotsOf, IndexOf, Place;
    var es := EntriesAt(table, ids, slots);
    EntriesIn(base, table, ids, slots);
    if slots == [] {
      assert Placed(base, table, ids, slots, base);
    } else {
      var init, s := slots[..|slots| - 1], slots[|slots| - 1];
      assert init + [s] == slots;
      assert s in slots && s !in init;
      forall t | t in init ensures t in slots {}
      PlacesBack(base, table, ids, init);
      hide Placed, Restorable;
      assert es[..|es| - 1] == EntriesAt(table, ids, init);
      var cur := PlaceAll(base, EntriesAt(table, ids, init), true);
      RoomLeft(base, table, ids, init, cur, s);
      PlaceKeeps(cur, es[|es| - 1], true, base.env, base.key);
      PlaceBack(base, table, ids, init, cur, s);
    }
  }

  lemma EntriesIn(base: State, table: map<Slot, int>, ids: seq<int>, slots: seq<Slot>)
    requires forall s | s in slots :: Restorable(base, table, ids, s)
    ensures forall e | e in EntriesAt(table, ids, slots) :: e.index in base.info
  {
    hide NewSlotIn, SlotsOf, IndexOf;
    forall e | e in EntriesAt(table, ids, slots) ensures e.index in base.info {
      var i :| 0 <= i < |slots| && EntriesAt(table, ids, slots)[i] == e;
      assert slots[i] in slots;
    }
  }

  // ------------------------------------------------------------------ reading them back

  /** Reading lost nothing: entry `k` has the next id but `k`. */
  ghost predicate ReadExact(st: State, rs: seq<Record>, tried: bool, st': State) {
    && st'.idCount == st.idCount + |rs| && |st'.random| == |st.random| + |rs| && st'.newTable == st.newTable
    && (forall id | id in st.info :: id in st'.info && st'.info[id] == st.info[id])
    && (forall id | st.idCount <= id < st.idCount + |rs| ::
          id in st'.info && st'.info[id] == Restored(rs[id - st.idCount], tried, |st.random| + id - st.idCount))
  }

  ghost function TriedSlots(env: Env, key: nat, rs: seq<Record>): set<Slot> {
    set k | 0 <= k < |rs| :: TriedSlot(env, key, rs[k].addr.service)
  }

  /** Every tried record is valid and has a slot of its own. */
  ghost predicate Separate(st: State, rs: seq<Record>) {
    && (forall k | 0 <= k < |rs| :: st.env.valid(rs[k].addr.service.ip))
    && (forall j, k | 0 <= j < k < |rs| ::
          TriedSlot(st.env, st.key, rs[j].addr.service) != TriedSlot(st.env, st.key, rs[k].addr.service))
    && st.tried.Keys !! TriedSlots(st.env, st.key, rs)
  }

  lemma ReadStep(st: State, init: seq<Record>, r: Record, tried: bool, mid: State, st': State)
    requires Shaped(st) && ReadExact(st, init, tried, mid)
    requires st'.idCount == mid.idCount + 1 && |st'.random| == |mid.random| + 1 && st'.newTable == mid.newTable
    requires st'.info == mid.info[mid.idCount := Restored(r, tried, |mid.random|)]
    ensures ReadExact(st, init + [r], tried, st')
  {
    hide RandomIndex;
    var rs := init + [r];
    forall id | st.idCount <= id < st.idCount + |rs|
      ensures id in st'.info && st'.info[id] == Restored(rs[id - st.idCount], tried, |st.random| + id - st.idCount)
    {
      if id < mid.idCount {
        assert rs[id - st.idCount] == init[id - st.idCount] && id in mid.info;
      }
    }
  }

  lemma {:induction false} ReadsNew(st: State, rs: seq<Record>)
    requires Shaped(st)
    ensures ReadExact(st, rs, false, ReadEntries(st, rs, false)) && ReadEntries(st, rs, false).tried == st.tried
    ensures ReadEntries(st, rs, false).env == st.env && ReadEntries(st, rs, false).key == st.key
    decreases |rs|
  {
    if rs != [] {
      var init := rs[..|rs| - 1];
      ReadsNew(st, init);
      hide ReadExact, Shaped;
      ReadStep(st, init, rs[|rs| - 1], false, ReadEntries(st, init, false), ReadEntries(st, rs, false));
      assert init + [rs[|rs| - 1]] == rs;
    }
  }

  lemma SeparatePrefix(st: State, rs: seq<Record>)
    requires rs != [] && Separate(st, rs)
    ensures Separate(st, rs[..|rs| - 1])
    ensures TriedSlot(st.env, st.key, rs[|rs| - 1].addr.service) !in st.tried.Keys +
            TriedSlots(st.env, st.key, rs[..|rs| - 1])
    ensures TriedSlots(st.env, st.key, rs) ==
            TriedSlots(st.env, st.key, rs[..|rs| - 1]) + {TriedSlot(st.env, st.key, rs[|rs| - 1].addr.service)}
  {
    hide TriedSlot;
    var init := rs[..|rs| - 1];
    assert TriedSlots(st.env, st.key, init) <= TriedSlots(st.env, st.key, rs);
  }

  lemma {:induction false} ReadsTried(st: State, rs: seq<Record>)
    requires Shaped(st) && Separate(st, rs)
    ensures var st' := ReadEntries(st, rs, true);
            && ReadExact(st, rs, true, st') && st'.env == st.env && st'.key == st.key
            && st'.tried.Keys == st.tried.Keys + TriedSlots(st.env, st.key, rs)
    decreases |rs|
  {
    hide TriedSlot;
    if rs == [] {
      assert TriedSlots(st.env, st.key, rs) == {};
    } else {
      var init, r := rs[..|rs| - 1], rs[|rs| - 1];
      SeparatePrefix(st, rs);
      assert st.env.valid(r.addr.service.ip);
      ReadsTried(st, init);
      hide ReadExact, Shaped, Separate, TriedSlots;
      ReadStep(st, init, r, true, ReadEntries(st, init, true), ReadEntries(st, rs, true));
      assert init + [r] == rs;
    }
  }

  // -------------------------------------------------------------- the file just written

  ghost predicate AllValid(st: State) {
    forall id | id in st.info :: st.env.valid(st.info[id].addr.service.ip)
  }

  ghost predicate Writable(st: State, order: seq<int>) { Inv(st) && AllValid(st) && Traversal(st, order) }

  lemma SameService(st: State, i: int, j: int)
    requires Struct(st) && i in st.info && j in st.info && st.info[i].addr.service == st.info[j].addr.service
    ensures i == j
  {
    hide Tables, IdsBelow, RandomIndex, CollisionsOk;
  }

  /** A record in the file is that of an entry of the right kind. */
  lemma RecordOf(st: State, order: seq<int>, tried: bool, k: nat)
    requires Writable(st, order) && k < |Filter(st, order, tried)|
    ensures var id := Filter(st, order, tried)[k];
            && id in st.info && st.info[id].inTried == tried
            && Records(st, Filter(st, order, tried))[k] == Stored(st.info[id])
  {
    hide Inv;
    var ids := Filter(st, order, tried);
    var id := ids[k];
    assert id in ids && id in order;
    assert Struct(st) by { InvStruct(st); }
    FilterIs(st, order, tried);
    SelectedIs(st, id, tried);
  }

  lemma InvStruct(st: State)
    requires Inv(st)
    ensures Struct(st) && TimesOk(st.info)
  {
  }

  lemma RecordsDistinct(st: State, order: seq<int>, tried: bool)
    requires Writable(st, order)
    ensures DifferentAddresses(Records(st, Filter(st, order, tried)))
            && SaneRecords(Records(st, Filter(st, order, tried)), tried)
  {
    hide Inv, Struct, Filter;
    var ids := Filter(st, order, tried);
    var rs := Records(st, ids);
    InvStruct(st);
    FilterIs(st, order, tried);
    forall i, j | 0 <= i < j < |rs| ensures rs[i].addr.service != rs[j].addr.service {
      RecordOf(st, order, tried, i);
      RecordOf(st, order, tried, j);
      if rs[i].addr.service == rs[j].addr.service {
        SameService(st, ids[i], ids[j]);
      }
    }
    forall i | 0 <= i < |rs| ensures SaneRecord(rs[i], tried) {
      RecordOf(st, order, tried, i);
    }
  }

  lemma SaneWritten(st: State, order: seq<int>)
    requires Writable(st, order)
    ensures SaneFile(Serialize(st, order))
  {
    assert st.key != 0;
    hide Inv, Struct, Filter, DifferentAddresses, SaneRecords, Records, BucketIndices;
    InvStruct(st);
    RecordsDistinct(st, order, false);
    RecordsDistinct(st, order, true);
    var news, tries := Records(st, Filter(st, order, false)), Records(st, Filter(st, order, true));
    forall a | a in Services(news) && a in Services(tries) ensures false {
      NotBoth(st, order, a);
    }
  }

  lemma NotBoth(st: State, order: seq<int>, a: Service)
    requires Writable(st, order)
    ensures a !in Services(Records(st, Filter(st, order, false)))
            || a !in Services(Records(st, Filter(st, order, true)))
  {
    hide Inv, Struct, Filter;
    InvStruct(st);
    var news, tries := Records(st, Filter(st, order, false)), Records(st, Filter(st, order, true));
    if a in Services(news) && a in Services(tries) {
      var i :| 0 <= i < |news| && news[i].addr.service == a;
      var j :| 0 <= j < |tries| && tries[j].addr.service == a;
      RecordOf(st, order, false, i);
      RecordOf(st, order, true, j);
      SameService(st, Filter(st, order, false)[i], Filter(st, order, true)[j]);
    }
  }

  lemma SameTriedSlot(st: State, i: int, j: int)
    requires Struct(st) && i in st.info && j in st.info && st.info[i].inTried && st.info[j].inTried
    requires TriedSlot(st.env, st.key, st.info[i].addr.service) == TriedSlot(st.env, st.key, st.info[j].addr.service)
    ensures i == j
  {
    hide Index, NewSlotsOk, RefsOk, CountsOk, CollisionsOk, TriedSlot;
  }

  lemma SeparateWritten(st: State, order: seq<int>, news: State)
    requires Writable(st, order) && news.env == st.env && news.key == st.key && news.tried == map[]
    ensures Separate(news, Records(st, Filter(st, order, true)))
  {
    hide Inv, Struct, Filter, TriedSlot;
    InvStruct(st);
    var ids := Filter(st, order, true);
    var rs := Records(st, ids);
    FilterIs(st, order, true);
    forall k | 0 <= k < |rs| ensures st.env.valid(rs[k].addr.service.ip) {
      RecordOf(st, order, true, k);
    }
    forall j, k | 0 <= j < k < |rs|
      ensures TriedSlot(st.env, st.key, rs[j].addr.service) != TriedSlot(st.env, st.key, rs[k].addr.service)
    {
      RecordOf(st, order, true, j);
      RecordOf(st, order, true, k);
      if TriedSlot(st.env, st.key, rs[j].addr.service) == TriedSlot(st.env, st.key, rs[k].addr.service) {
        SameTriedSlot(st, ids[j], ids[k]);
      }
    }
  }
}
