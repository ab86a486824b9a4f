/** The loops that write the file and build the tables up again, against their specification. */
module AddrFileLoops {
  import opened Collections
  import opened AddrTypes
  import opened AddrInvariant
  import opened AddrTables
  import opened AddrFile
  import AddrRuns

  // ------------------------------------------------------------------------ writing

  /** Writes the entries of one kind; `numbers` maps each id met to the number of entries written before it. */
  method WriteEntries(st: State, order: seq<int>, tried: bool)
    returns (ids: seq<int>, records: seq<Record>, numbers: map<int, int>)
    requires (forall id | id in order :: id in st.info) && forall i, j | 0 <= i < j < |order| :: order[i] != order[j]
    ensures ids == Filter(st, order, tried) && records == Records(st, ids)
    ensures forall id | id in ids :: id in numbers && numbers[id] == IndexOf(ids, id)
  {
    hide IndexOf, Stored;
    ids, records, numbers := [], [], map[];
    for n := 0 to |order|
      invariant ids == Filter(st, order[..n], tried) && records == Records(st, ids)
      invariant forall id | id in ids :: id in numbers && numbers[id] == IndexOf(ids, id)
      invariant forall id | id in ids :: id in order[..n]
    {
      var id := order[n];
      assert id in order && id !in order[..n] && order[..n + 1][..n] == order[..n];
      FilterNext(st, order, n, tried);
      ghost var before := ids;
      numbers := numbers[id := |ids|];
      if (if tried then st.info[id].inTried else st.info[id].refCount != 0) {
        Appended(st, ids, id);
        ids, records := ids + [id], records + [Stored(st.info[id])];
        forall x | x in ids ensures x in numbers && numbers[x] == IndexOf(ids, x) {
          IndexAppended(before, id, x);
        }
      }
    }
    assert order[..|order|] == order;
  }

  lemma FilterNext(st: State, order: seq<int>, n: nat, tried: bool)
    requires n < |order| && forall id | id in order :: id in st.info
    ensures Filter(st, order[..n + 1], tried) == Filter(st, order[..n], tried)
            + if (if tried then st.info[order[n]].inTried else st.info[order[n]].refCount != 0) then [order[n]] else []
  {
    assert order[..n + 1][..n] == order[..n];
    assert order[n] in order;
  }

  lemma Appended(st: State, ids: seq<int>, id: int)
    requires id in st.info && forall x | x in ids :: x in st.info
    ensures Records(st, ids + [id]) == Records(st, ids) + [Stored(st.info[id])]
  {
  }

  lemma {:induction false} IndexAppended(ids: seq<int>, id: int, x: int)
    requires id !in ids && (x in ids || x == id)
    ensures IndexOf(ids + [id], x) == if x in ids then IndexOf(ids, x) else |ids|
    decreases |ids|
  {
    if ids != [] {
      assert (ids + [id])[1..] == ids[1..] + [id];
      if ids[0] != x { IndexAppended(ids[1..], id, x); }
    }
  }

  /** Writes the entries of one new bucket, by their numbers. */
  method WriteBucket(table: map<Slot, int>, ids: seq<int>, numbers: map<int, int>, bucket: int)
    returns (indices: seq<int>)
    requires forall s | s in table ::
               table[s] in ids && table[s] in numbers && numbers[table[s]] == IndexOf(ids, table[s])
    ensures indices == BucketIndices(table, ids, BucketSlots(table, bucket, BUCKET_SIZE))
  {
    hide IndexOf;
    indices := [];
    for i := 0 to BUCKET_SIZE
      invariant indices == BucketIndices(table, ids, BucketSlots(table, bucket, i))
    {
      var s := Slot(bucket, i);
      if s in table {
        IndicesAppended(table, ids, BucketSlots(table, bucket, i), s);
        indices := indices + [numbers[table[s]]];
      }
    }
  }

  lemma IndicesAppended(table: map<Slot, int>, ids: seq<int>, slots: seq<Slot>, s: Slot)
    requires s in table
    ensures BucketIndices(table, ids, slots + [s]) == BucketIndices(table, ids, slots) + [IndexOf(ids, table[s])]
  {
    hide IndexOf;
  }

  /** `Serialize`. */
  method Write(st: State, order: seq<int>) returns (f: File)
    requires (forall id | id in order :: id in st.info) && forall i, j | 0 <= i < j < |order| :: order[i] != order[j]
    requires forall s | s in st.newTable ::
               st.newTable[s] in order && st.newTable[s] in st.info && st.info[st.newTable[s]].refCount != 0
    ensures f == Serialize(st, order)
  {
    hide Filter, Records, BucketIndices, BucketSlots;
    var ids, news, numbers := WriteEntries(st, order, false);
    var ids2, tries, numbers2 := WriteEntries(st, order, true);
    forall s | s in st.newTable ensures st.newTable[s] in ids { InFilter(st, order, st.newTable[s]); }
    var buckets: seq<seq<int>> := [];
    for b := 0 to NEW_BUCKET_COUNT
      invariant |buckets| == b
      invariant forall k | 0 <= k < b ::
                buckets[k] == BucketIndices(st.newTable, ids, BucketSlots(st.newTable, k, BUCKET_SIZE))
    {
      var indices := WriteBucket(st.newTable, ids, numbers, b);
      buckets := buckets + [indices];
    }
    f := File(FILE_FORMAT, INCOMPATIBILITY_BASE + FILE_FORMAT, st.key, Flip30(NEW_BUCKET_COUNT),
              news, tries, buckets, st.env.asmapChecksum);
  }

  lemma {:induction false} InFilter(st: State, order: seq<int>, id: int)
    requires (forall x | x in order :: x in st.info) && id in order && st.info[id].refCount != 0
    ensures id in Filter(st, order, false)
    decreases |order|
  {
    var n := |order| - 1;
    if order[n] != id {
      assert id in order[..n];
      InFilter(st, order[..n], id);
    }
  }

  // ------------------------------------------------------------------------ reading

  method LoadEntries(start: State, rs: seq<Record>, tried: bool) returns (st: State)
    ensures st == ReadEntries(start, rs, tried)
  {
    hide ReadTried, ReadNew;
    st := start;
    for n := 0 to |rs|
      invariant st == ReadEntries(start, rs[..n], tried)
    {
      assert rs[..n + 1][..n] == rs[..n];
      st := if tried then ReadTried(st, rs[n]) else ReadNew(st, rs[n]);
    }
    assert rs[..|rs|] == rs;
  }

  method LoadBucket(bucket: int, indices: seq<int>, nNew: int) returns (es: seq<BucketEntry>)
    ensures es == ReadBucket(bucket, indices, nNew)
  {
    es := [];
    for n := 0 to |indices|
      invariant es == ReadBucket(bucket, indices[..n], nNew)
    {
      assert indices[..n + 1][..n] == indices[..n];
      if 0 <= indices[n] < nNew {
        es := es + [BucketEntry(bucket, indices[n])];
      }
    }
    assert indices[..|indices|] == indices;
  }

  method LoadBuckets(buckets: seq<seq<int>>, nNew: int) returns (es: seq<BucketEntry>)
    ensures es == ReadBuckets(buckets, nNew)
  {
    hide ReadBucket;
    es := [];
    for b := 0 to |buckets|
      invariant es == ReadBuckets(buckets[..b], nNew)
    {
      assert buckets[..b + 1][..b] == buckets[..b];
      var more := LoadBucket(b, buckets[b], nNew);
      es := es + more;
    }
    assert buckets[..|buckets|] == buckets;
  }

  method PlaceEntries(start: State, es: seq<BucketEntry>, restore: bool) returns (st: State)
    requires forall e | e in es :: e.index in start.info
    ensures st == PlaceAll(start, es, restore)
  {
    hide Place;
    st := start;
    for n := 0 to |es|
      invariant (forall e | e in es[..n] :: e in es) && st == PlaceAll(start, es[..n], restore)
    {
      assert es[n] in es && es[..n + 1][..n] == es[..n];
      st := Place(st, es[n], restore);
    }
    assert es[..|es|] == es;
  }

  method PruneEntries(start: State) returns (st: State)
    requires RandomIndex(start.info, start.random)
    ensures st == Prune(start)
  {
    hide RandomIndex, Delete;
    st := start;
    while Unreferenced(st) != {}
      invariant RandomIndex(st.info, st.random) && Prune(st) == Prune(start)
      decreases |Unreferenced(st)|
    {
      var id := AddrRuns.Least(Unreferenced(st));
      DeleteRandom(st, id);
      UnreferencedShrinks(st, id);
      st := Delete(st, id);
    }
  }

  /** `Unserialize`, up to the final consistency check. */
  method Load(env: Env, f: File, uBuckets: int) returns (st: State)
    requires uBuckets <= |f.buckets|
    ensures st == Rebuild(env, f, uBuckets)
  {
    hide RandomIndex, ReadEntries, ReadBuckets, PlaceAll, Prune;
    var empty := EmptyState(env, f.key);
    EmptyShaped(env, f.key);
    ReadAllShapes(empty, f.newEntries, false);
    var news := LoadEntries(empty, f.newEntries, false);
    ReadAllShapes(news, f.triedEntries, true);
    var all := LoadEntries(news, f.triedEntries, true);
    var es := LoadBuckets(f.buckets[..Max(0, uBuckets)], |f.newEntries|);
    var restore := uBuckets == NEW_BUCKET_COUNT && (if f.format >= 2 then f.asmapChecksum else 0) == env.asmapChecksum;
    PlaceAllShapes(all, es, restore);
    var placed := PlaceEntries(all, es, restore);
    st := PruneEntries(placed);
  }
}
