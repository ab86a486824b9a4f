/** The address manager's file: writing the tables out and building them up again. */
module AddrFile {
  import opened Collections
  import opened AddrTypes
  import opened AddrInvariant
  import opened AddrTables
  import opened AddrOps
  import AddrRuns
  import AddrCheck

  const FILE_FORMAT := 4
  const INCOMPATIBILITY_BASE := 32

  /** What is stored of an entry. */
  datatype Record = Record(addr: Address, source: NetAddr, lastSuccess: int, attempts: int)

  /** The counts `nNew` and `nTried` are the lengths of the two lists. */
  datatype File = File(
    format: nat,
    compat: nat,
    key: nat,
    uBuckets: int,
    newEntries: seq<Record>,
    triedEntries: seq<Record>,
    buckets: seq<seq<int>>,
    asmapChecksum: nat)

  datatype Loaded =
    | Ok(st: State) | CompatTooLow | UnsupportedFormat | TooManyNew | TooManyTried | Truncated | Inconsistent

  /** Exclusive or with 2^30, on two's complement integers. */
  function Flip30(x: int): int {
    if x / 0x4000_0000 % 2 == 1 then x - 0x4000_0000 else x + 0x4000_0000
  }

  // ------------------------------------------------------------------------ writing

  function Stored(e: AddrInfo): Record { Record(e.addr, e.source, e.lastSuccess, e.attempts) }

  function Filter(st: State, order: seq<int>, tried: bool): (r: seq<int>)
    requires forall id | id in order :: id in st.info
    ensures forall id | id in r :: id in order
  {
    if order == [] then []
    else
      var rest := Filter(st, order[..|order| - 1], tried);
      var id := order[|order| - 1];
      if (if tried then st.info[id].inTried else st.info[id].refCount != 0) then rest + [id] else rest
  }

  function Records(st: State, ids: seq<int>): seq<Record>
    requires forall id | id in ids :: id in st.info
  {
    seq(|ids|, i requires 0 <= i < |ids| => var id: int := ids[i]; assert id in ids; Stored(st.info[id]))
  }

  function IndexOf(ids: seq<int>, id: int): (n: nat)
    ensures id in ids ==> n < |ids| && ids[n] == id
  {
    if ids == [] || ids[0] == id then 0 else 1 + IndexOf(ids[1..], id)
  }

  /** The occupied slots of a new bucket, by position. */
  function BucketSlots(table: map<Slot, int>, bucket: int, n: nat): seq<Slot> {
    if n == 0 then []
    else BucketSlots(table, bucket, n - 1) + if Slot(bucket, n - 1) in table then [Slot(bucket, n - 1)] else []
  }

  function BucketIndices(table: map<Slot, int>, ids: seq<int>, slots: seq<Slot>): seq<int> {
    seq(|slots|, i requires 0 <= i < |slots| => if slots[i] in table then IndexOf(ids, table[slots[i]]) else 0)
  }

  /** `Serialize`; `order` is the order in which `mapInfo` happens to be traversed. */
  function Serialize(st: State, order: seq<int>): File
    requires forall id | id in order :: id in st.info
  {
    var ids := Filter(st, order, false);
    File(FILE_FORMAT, INCOMPATIBILITY_BASE + FILE_FORMAT, st.key, Flip30(NEW_BUCKET_COUNT),
         Records(st, ids), Records(st, Filter(st, order, true)),
         seq(NEW_BUCKET_COUNT, b => BucketIndices(st.newTable, ids, BucketSlots(st.newTable, b, BUCKET_SIZE))),
         st.env.asmapChecksum)
  }

  // ------------------------------------------------------------------------ reading

  function Restored(r: Record, tried: bool, pos: int): AddrInfo {
    AddrInfo(r.addr, r.source, 0, 0, r.lastSuccess, r.attempts, 0, tried, pos)
  }

  function ReadNew(st: State, r: Record): State {
    var id := st.idCount;
    st.(idCount := id + 1,
        info := st.info[id := Restored(r, false, |st.random|)],
        addrIds := st.addrIds[r.addr.service := id],
        random := st.random + [id],
        nNew := st.nNew + 1,
        counts := BumpNew(st.counts, r.addr.service.ip.network, 1))
  }

  /** A tried entry is lost if its address is invalid or its slot is taken. */
  function ReadTried(st: State, r: Record): State {
    var s := TriedSlot(st.env, st.key, r.addr.service);
    if !st.env.valid(r.addr.service.ip) || s in st.tried then st
    else
      var id := st.idCount;
      st.(idCount := id + 1,
          info := st.info[id := Restored(r, true, |st.random|)],
          addrIds := st.addrIds[r.addr.service := id],
          random := st.random + [id],
          tried := st.tried[s := id],
          nTried := st.nTried + 1,
          counts := BumpTried(st.counts, r.addr.service.ip.network, 1))
  }

  function ReadEntries(st: State, rs: seq<Record>, tried: bool): State {
    if rs == [] then st
    else
      var before := ReadEntries(st, rs[..|rs| - 1], tried);
      if tried then ReadTried(before, rs[|rs| - 1]) else ReadNew(before, rs[|rs| - 1])
  }

  datatype BucketEntry = BucketEntry(bucket: int, index: int)

  /** The entries of one bucket that name a new entry. */
  function ReadBucket(bucket: int, indices: seq<int>, nNew: int): (r: seq<BucketEntry>)
    ensures forall e | e in r :: 0 <= e.index < nNew && e.bucket == bucket
  {
    if indices == [] then []
    else
      var rest := ReadBucket(bucket, indices[..|indices| - 1], nNew);
      var i := indices[|indices| - 1];
      if 0 <= i < nNew then rest + [BucketEntry(bucket, i)] else rest
  }

  function ReadBuckets(buckets: seq<seq<int>>, nNew: int): (r: seq<BucketEntry>)
    ensures forall e | e in r :: 0 <= e.index < nNew && 0 <= e.bucket < |buckets|
  {
    if buckets == [] then []
    else
      var n := |buckets| - 1;
      ReadBuckets(buckets[..n], nNew) + ReadBucket(n, buckets[n], nNew)
  }

  /** Puts one entry back in a new bucket: its old one if buckets are restored and it is free, or else the
      one its address and source lead to. */
  function Place(st: State, e: BucketEntry, restore: bool): (r: State)
    requires e.index in st.info
    ensures r.info.Keys == st.info.Keys
  {
    var info := st.info[e.index];
    var a := info.addr.service;
    if !st.env.valid(a.ip) || info.refCount >= NEW_BUCKETS_PER_ADDRESS then st
    else
      var s := NewSlotIn(st.env, st.key, a, e.bucket);
      var home := NewSlot(st.env, st.key, a, info.source);
      if restore && s !in st.newTable then AddRef(st, e.index, s)
      else if home !in st.newTable then AddRef(st, e.index, home)
      else st
  }

  function PlaceAll(st: State, es: seq<BucketEntry>, restore: bool): (r: State)
    requires forall e | e in es :: e.index in st.info
    ensures r.info.Keys == st.info.Keys
  {
    if es == [] then st else Place(PlaceAll(st, es[..|es| - 1], restore), es[|es| - 1], restore)
  }

  function Unreferenced(st: State): set<int> {
    set id | id in st.info && !st.info[id].inTried && st.info[id].refCount == 0
  }

  lemma DeleteRandom(st: State, id: int)
    requires RandomIndex(st.info, st.random) && id in st.info
    ensures RandomIndex(Delete(st, id).info, Delete(st, id).random)
    ensures Moved(st.info - {id}, Delete(st, id).info)
  {
    hide Moved, SwapRandom, SwapInfo;
    SwappedLast(st, id);
    var sw := SwapRandom(st, st.info[id].randomPos, |st.random| - 1);
    hide RandomIndex;
    RandomIndexPop(sw.info, sw.random, id);
    MovedRemove(st.info, sw.info, id);
  }

  lemma SwappedLast(st: State, id: int)
    requires RandomIndex(st.info, st.random) && id in st.info
    ensures var sw := SwapRandom(st, st.info[id].randomPos, |st.random| - 1);
            && RandomIndex(sw.info, sw.random) && Moved(st.info, sw.info)
            && id in sw.info && sw.info[id].randomPos == |sw.random| - 1 && |sw.random| == |st.random|
            && sw.info[id].addr == st.info[id].addr
  {
    var p, last := st.info[id].randomPos, |st.random| - 1;
    if p != last {
      RandomIndexSwap(st.info, st.random, p, last);
      SwapMoves(st.info, st.random, p, last);
    }
    assert st.random[p] == id;
  }

  lemma UnreferencedShrinks(st: State, id: int)
    requires RandomIndex(st.info, st.random) && id in Unreferenced(st)
    ensures Unreferenced(Delete(st, id)) == Unreferenced(st) - {id}
  {
    DeleteRandom(st, id);
    hide RandomIndex, Delete;
    var d := Delete(st, id);
    forall x ensures x in Unreferenced(d) <==> x in Unreferenced(st) - {id} {
      assert x in d.info <==> x in st.info - {id};
    }
  }

  /** Deletes the new entries that found no place. */
  function Prune(st: State): State
    requires RandomIndex(st.info, st.random)
    decreases |Unreferenced(st)|
  {
    if Unreferenced(st) == {} then st
    else
      var id := AddrRuns.Least(Unreferenced(st));
      DeleteRandom(st, id);
      UnreferencedShrinks(st, id);
      Prune(Delete(st, id))
  }

  // ------------------------------------------------- what holds whatever the file says

  /** The ids are 0, 1, 2, ... and `vRandom` is in step. */
  ghost predicate Shaped(st: State) {
    && 0 <= st.idCount && (forall id :: id in st.info <==> 0 <= id < st.idCount)
    && RandomIndex(st.info, st.random)
  }

  lemma ReadShapes(st: State, r: Record, tried: bool)
    requires Shaped(st)
    ensures var st' := if tried then ReadTried(st, r) else ReadNew(st, r);
            Shaped(st') && st'.idCount >= st.idCount && (!tried ==> st'.idCount == st.idCount + 1)
  {
    RandomIndexAdd(st.info, st.random, st.idCount, Restored(r, tried, |st.random|));
    hide RandomIndex;
  }

  lemma {:induction false} ReadAllShapes(st: State, rs: seq<Record>, tried: bool)
    requires Shaped(st)
    ensures var st' := ReadEntries(st, rs, tried);
            Shaped(st') && st'.idCount >= st.idCount && (!tried ==> st'.idCount == st.idCount + |rs|)
    decreases |rs|
  {
    if rs != [] {
      ReadAllShapes(st, rs[..|rs| - 1], tried);
      hide Shaped, ReadTried, ReadNew;
      ReadShapes(ReadEntries(st, rs[..|rs| - 1], tried), rs[|rs| - 1], tried);
    }
  }

  lemma {:induction false} PlaceAllShapes(st: State, es: seq<BucketEntry>, restore: bool)
    requires RandomIndex(st.info, st.random) && forall e | e in es :: e.index in st.info
    ensures RandomIndex(PlaceAll(st, es, restore).info, PlaceAll(st, es, restore).random)
    decreases |es|
  {
    if es != [] {
      PlaceAllShapes(st, es[..|es| - 1], restore);
      var before := PlaceAll(st, es[..|es| - 1], restore);
      assert es[|es| - 1] in es;
      PlaceShapes(before, es[|es| - 1], restore);
    }
  }

  lemma PlaceShapes(st: State, e: BucketEntry, restore: bool)
    requires RandomIndex(st.info, st.random) && e.index in st.info
    ensures RandomIndex(Place(st, e, restore).info, Place(st, e, restore).random)
  {
    hide RandomIndex;
    RandomIndexSame(st.info, Place(st, e, restore).info, st.random);
  }

  lemma EmptyShaped(env: Env, key: nat)
    ensures Shaped(EmptyState(env, key))
  {
  }

  /** Everything up to the final check. */
  function Rebuild(env: Env, f: File, uBuckets: int): State
    requires uBuckets <= |f.buckets|
  {
    var empty := EmptyState(env, f.key);
    EmptyShaped(env, f.key);
    ReadAllShapes(empty, f.newEntries, false);
    var news := ReadEntries(empty, f.newEntries, false);
    ReadAllShapes(news, f.triedEntries, true);
    var all := ReadEntries(news, f.triedEntries, true);
    var es := ReadBuckets(f.buckets[..Max(0, uBuckets)], |f.newEntries|);
    var restore := uBuckets == NEW_BUCKET_COUNT && (if f.format >= 2 then f.asmapChecksum else 0) == env.asmapChecksum;
    PlaceAllShapes(all, es, restore);
    Prune(PlaceAll(all, es, restore))
  }

  /** `Unserialize` into a fresh address manager. */
  ghost function Unserialize(env: Env, f: File): Loaded {
    var uBuckets := if f.format >= 1 then Flip30(f.uBuckets) else f.uBuckets;
    if f.compat < INCOMPATIBILITY_BASE then CompatTooLow
    else if f.compat - INCOMPATIBILITY_BASE > FILE_FORMAT then UnsupportedFormat
    else if |f.newEntries| > NEW_BUCKET_COUNT * BUCKET_SIZE then TooManyNew
    else if |f.triedEntries| > TRIED_BUCKET_COUNT * BUCKET_SIZE then TooManyTried
    else if uBuckets > |f.buckets| then Truncated
    else
      var st := Rebuild(env, f, uBuckets);
      if AddrCheck.Passes(st) then Ok(st) else Inconsistent
  }
}
