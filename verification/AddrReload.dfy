/** Loading a file gives consistent tables, and loading what was written restores every entry and slot. */
module AddrReload {
  import opened Collections
  import opened AddrTypes
  import opened AddrInvariant
  import opened AddrTables
  import opened AddrOps
  import opened AddrFile
  import AddrRuns
  import AddrCheck

  // ------------------------------------------------------- loading keeps tables consistent

  ghost function Services(rs: seq<Record>): set<Service> {
    set i | 0 <= i < |rs| :: rs[i].addr.service
  }

  ghost predicate DifferentAddresses(rs: seq<Record>) {
    forall i, j | 0 <= i < j < |rs| :: rs[i].addr.service != rs[j].addr.service
  }

  ghost predicate SaneRecord(r: Record, tried: bool) { r.lastSuccess >= 0 && (tried ==> r.lastSuccess > 0) }

  ghost predicate SaneRecords(rs: seq<Record>, tried: bool) {
    forall i | 0 <= i < |rs| :: SaneRecord(rs[i], tried)
  }

  /** A file that names no address twice, with times an address manager can hold. */
  ghost predicate SaneFile(f: File) {
    && f.key != 0
    && DifferentAddresses(f.newEntries) && DifferentAddresses(f.triedEntries)
    && Services(f.newEntries) !! Services(f.triedEntries)
    && SaneRecords(f.newEntries, false) && SaneRecords(f.triedEntries, true)
  }

  /** What every step of loading keeps. */
  ghost predicate Loading(st: State, env: Env, key: nat) {
    && Core(st, {}) && TimesOk(st.info) && st.collisions == {} && st.env == env && st.key == key
  }

  lemma ReadNewKeeps(st: State, r: Record)
    requires Core(st, {}) && r.addr.service !in st.addrIds
    ensures Core(ReadNew(st, r), {})
  {
    hide Core, Index, Tables;
    CreateKeeps(st, r.addr, r.source, {});
    var c := Create(st, r.addr, r.source);
    UpdateKeeps(c, st.idCount, Restored(r, false, |st.random|), {});
    assert ReadNew(st, r) == c.(info := c.info[st.idCount := Restored(r, false, |st.random|)]);
  }

  /** A tried entry is made as a new one, uncounted and placed. */
  lemma ReadTriedKeeps(st: State, r: Record)
    requires Core(st, {}) && r.addr.service !in st.addrIds
    ensures Core(ReadTried(st, r), {})
  {
    var s := TriedSlot(st.env, st.key, r.addr.service);
    if st.env.valid(r.addr.service.ip) && s !in st.tried {
      hide Core, Index, Tables, TriedSlot;
      ReadNewKeeps(st, r);
      var id, n := st.idCount, ReadNew(st, r);
      FreshNotLimbo(id);
      UncountNewKeeps(n, id, {});
      PlaceTriedKeeps(UncountNew(n, id), id, s);
      hide ReadTried, UncountNew, PlaceTried;
      ReadTriedSteps(st, r);
    }
  }

  lemma ReadTriedSteps(st: State, r: Record)
    requires st.env.valid(r.addr.service.ip) && TriedSlot(st.env, st.key, r.addr.service) !in st.tried
    ensures PlaceTried(UncountNew(ReadNew(st, r), st.idCount), st.idCount, TriedSlot(st.env, st.key, r.addr.service)) ==
            ReadTried(st, r)
  {
    hide TriedSlot;
    var n := ReadNew(st, r);
    assert n.info[st.idCount := n.info[st.idCount].(inTried := true)] == ReadTried(st, r).info;
    CountsAgree(st.counts, r.addr.service.ip.network);
    hide BumpNew, BumpTried;
  }

  lemma FreshNotLimbo(id: int)
    ensures id !in {} && {} + {id} == {id}
  {
  }

  lemma CountsAgree(counts: map<nat, Count>, net: nat)
    ensures BumpTried(BumpNew(BumpNew(counts, net, 1), net, -1), net, 1) == BumpTried(counts, net, 1)
  {
  }

  lemma ReadKeeps(st: State, r: Record, tried: bool, env: Env, key: nat)
    requires Loading(st, env, key) && r.addr.service !in st.addrIds && SaneRecord(r, tried)
    ensures var st' := if tried then ReadTried(st, r) else ReadNew(st, r);
            Loading(st', env, key) && st'.addrIds.Keys <= st.addrIds.Keys + {r.addr.service}
  {
    hide Core, TriedSlot;
    if tried { ReadTriedKeeps(st, r); } else { ReadNewKeeps(st, r); }
  }

  lemma {:induction false} ReadAllKeeps(st: State, rs: seq<Record>, tried: bool, env: Env, key: nat)
    requires Loading(st, env, key) && DifferentAddresses(rs) && SaneRecords(rs, tried)
             && st.addrIds.Keys !! Services(rs)
    ensures var st' := ReadEntries(st, rs, tried);
            Loading(st', env, key) && st'.addrIds.Keys <= st.addrIds.Keys + Services(rs)
    decreases |rs|
  {
    if rs != [] {
      hide Loading, ReadTried, ReadNew;
      var init, r := rs[..|rs| - 1], rs[|rs| - 1];
      assert Services(init) <= Services(rs) && r.addr.service in Services(rs);
      ReadAllKeeps(st, init, tried, env, key);
      assert r.addr.service !in Services(init);
      ReadKeeps(ReadEntries(st, init, tried), r, tried, env, key);
    }
  }

  lemma PlaceKeeps(st: State, e: BucketEntry, restore: bool, env: Env, key: nat)
    requires Loading(st, env, key) && e.index in st.info && !st.info[e.index].inTried
    requires restore ==> 0 <= e.bucket < NEW_BUCKET_COUNT
    ensures Loading(Place(st, e, restore), env, key)
    ensures forall id | id in st.info :: Place(st, e, restore).info[id].inTried == st.info[id].inTried
  {
    hide Core, NewSlotIn, NewSlot;
    var info := st.info[e.index];
    var a := info.addr.service;
    if st.env.valid(a.ip) && info.refCount < NEW_BUCKETS_PER_ADDRESS {
      var s, home := NewSlotIn(st.env, st.key, a, e.bucket), NewSlot(st.env, st.key, a, info.source);
      if restore && s !in st.newTable {
        AddRefKeeps(st, e.index, s);
      } else if home !in st.newTable {
        AddRefKeeps(st, e.index, home);
      }
    }
  }

  lemma {:induction false} PlaceAllKeeps(st: State, es: seq<BucketEntry>, restore: bool, env: Env, key: nat)
    requires Loading(st, env, key)
    requires forall e | e in es ::
               e.index in st.info && !st.info[e.index].inTried && (restore ==> 0 <= e.bucket < NEW_BUCKET_COUNT)
    ensures Loading(PlaceAll(st, es, restore), env, key)
    ensures forall id | id in st.info :: PlaceAll(st, es, restore).info[id].inTried == st.info[id].inTried
    decreases |es|
  {
    if es != [] {
      hide Loading, Place;
      var last := es[|es| - 1];
      assert last in es;
      forall e | e in es[..|es| - 1] ensures e in es {}
      PlaceAllKeeps(st, es[..|es| - 1], restore, env, key);
      PlaceKeeps(PlaceAll(st, es[..|es| - 1], restore), last, restore, env, key);
    }
  }

  lemma {:induction false} PruneKeeps(st: State, env: Env, key: nat)
    requires Loading(st, env, key) && RandomIndex(st.info, st.random)
    ensures Loading(Prune(st), env, key) && Referenced(Prune(st).info)
    decreases |Unreferenced(st)|
  {
    if Unreferenced(st) == {} {
      hide Loading, RandomIndex;
      forall id | id in st.info && !st.info[id].inTried ensures st.info[id].refCount > 0 {
        assert id !in Unreferenced(st);
        RefsCounted(st, env, key, id);
      }
    } else {
      var id := AddrRuns.Least(Unreferenced(st));
      DeleteRandom(st, id);
      UnreferencedShrinks(st, id);
      PruneOne(st, id, env, key);
      hide Loading, RandomIndex, Delete;
      PruneKeeps(Delete(st, id), env, key);
    }
  }

  lemma RefsCounted(st: State, env: Env, key: nat, id: int)
    requires Loading(st, env, key) && id in st.info && !st.info[id].inTried
    ensures st.info[id].refCount >= 0
  {
    hide Index, TriedOk, NewSlotsOk, CountsOk, TimesOk;
  }

  lemma PruneOne(st: State, id: int, env: Env, key: nat)
    requires Loading(st, env, key) && RandomIndex(st.info, st.random) && id in Unreferenced(st)
    ensures Loading(Delete(st, id), env, key)
  {
    hide Core;
    FreshNotLimbo(id);
    DeleteKeeps(st, id, {});
  }

  /** Reading never touches an entry that is already there. */
  lemma {:induction false} ReadLeaves(st: State, rs: seq<Record>, tried: bool)
    requires Shaped(st)
    ensures var st' := ReadEntries(st, rs, tried);
            forall id | id in st.info :: id in st'.info && st'.info[id] == st.info[id]
    decreases |rs|
  {
    if rs != [] {
      var init := rs[..|rs| - 1];
      ReadLeaves(st, init, tried);
      ReadAllShapes(st, init, tried);
      hide TriedSlot, RandomIndex;
    }
  }

  lemma {:induction false} NewIsNew(st: State, rs: seq<Record>)
    requires Shaped(st) && forall id | id in st.info :: !st.info[id].inTried
    ensures forall id | id in ReadEntries(st, rs, false).info :: !ReadEntries(st, rs, false).info[id].inTried
    decreases |rs|
  {
    if rs != [] {
      NewIsNew(st, rs[..|rs| - 1]);
    }
  }

  lemma EmptyLoading(env: Env, key: nat)
    ensures Loading(EmptyState(env, key), env, key)
  {
    var st := EmptyState(env, key);
    forall tried: bool, net: int
      ensures CountersOf(st).Tally(tried, net) == |Ids(st.info, tried, net) - {}|
    {
      assert Ids(st.info, tried, net) == {};
    }
  }

  lemma LoadingInv(st: State, env: Env, key: nat)
    requires Loading(st, env, key) && Referenced(st.info) && key != 0
    ensures Inv(st)
  {
    hide Core, TimesOk;
  }

  /** The entries a file holds, before any is placed in a new bucket. */
  lemma EntriesKeep(env: Env, f: File)
    requires SaneFile(f)
    ensures var news := ReadEntries(EmptyState(env, f.key), f.newEntries, false);
            var all := ReadEntries(news, f.triedEntries, true);
            && Shaped(news) && Shaped(all) && news.idCount == |f.newEntries|
            && Loading(all, env, f.key)
            && forall i | 0 <= i < |f.newEntries| :: i in all.info && !all.info[i].inTried
  {
    hide Loading, RandomIndex, ReadEntries;
    var empty := EmptyState(env, f.key);
    EmptyShaped(env, f.key);
    EmptyLoading(env, f.key);
    ReadAllShapes(empty, f.newEntries, false);
    ReadAllKeeps(empty, f.newEntries, false, env, f.key);
    NewIsNew(empty, f.newEntries);
    var news := ReadEntries(empty, f.newEntries, false);
    ReadAllShapes(news, f.triedEntries, true);
    ReadAllKeeps(news, f.triedEntries, true, env, f.key);
    ReadLeaves(news, f.triedEntries, true);
  }

  /**
   * Whatever buckets a file lists, and whether or not they can be restored: a file that names no address
   * twice loads into consistent tables.
   */
  lemma LoadsConsistent(env: Env, f: File, uBuckets: int)
    requires SaneFile(f) && uBuckets <= |f.buckets|
    ensures Inv(Rebuild(env, f, uBuckets)) && AddrCheck.Passes(Rebuild(env, f, uBuckets))
  {
    assert f.key != 0;
    hide Loading, RandomIndex, ReadEntries, Inv, AddrCheck.Passes, PlaceAll, Prune, SaneFile;
    EntriesKeep(env, f);
    var news := ReadEntries(EmptyState(env, f.key), f.newEntries, false);
    var all := ReadEntries(news, f.triedEntries, true);
    var es := ReadBuckets(f.buckets[..Max(0, uBuckets)], |f.newEntries|);
    var restore := uBuckets == NEW_BUCKET_COUNT && (if f.format >= 2 then f.asmapChecksum else 0) == env.asmapChecksum;
    PlaceAllKeeps(all, es, restore, env, f.key);
    PlaceAllShapes(all, es, restore);
    PruneKeeps(PlaceAll(all, es, restore), env, f.key);
    LoadingInv(Rebuild(env, f, uBuckets), env, f.key);
    AddrCheck.ConsistentPasses(Rebuild(env, f, uBuckets));
  }

  // --------------------------------------------------------------------------- any file

  /** What the final check takes for granted: `mapAddr` names entries only, ids are below the counter, every
      network in use has a counter, and new slots lie within the table. */
  ghost predicate Pointed(st: State, key: nat) {
    && (forall a | a in st.addrIds :: st.addrIds[a] in st.info && st.info[st.addrIds[a]].addr.service == a)
    && IdsBelow(st.info, st.idCount)
    && (forall id | id in st.info :: st.info[id].Network() in st.counts)
    && AddrCheck.InRange(st.newTable, NEW_BUCKET_COUNT)
    && st.collisions == {} && st.key == key
  }

  lemma ReadPoints(st: State, r: Record, tried: bool, key: nat)
    requires Pointed(st, key)
    ensures Pointed(if tried then ReadTried(st, r) else ReadNew(st, r), key)
  {
    hide TriedSlot, AddrCheck.InRange;
  }

  lemma {:induction false} ReadAllPoints(st: State, rs: seq<Record>, tried: bool, key: nat)
    requires Pointed(st, key)
    ensures Pointed(ReadEntries(st, rs, tried), key)
    decreases |rs|
  {
    if rs != [] {
      hide Pointed, ReadTried, ReadNew;
      ReadAllPoints(st, rs[..|rs| - 1], tried, key);
      ReadPoints(ReadEntries(st, rs[..|rs| - 1], tried), rs[|rs| - 1], tried, key);
    }
  }

  lemma PlacePoints(st: State, e: BucketEntry, restore: bool, key: nat)
    requires Pointed(st, key) && e.index in st.info && (restore ==> 0 <= e.bucket < NEW_BUCKET_COUNT)
    ensures Pointed(Place(st, e, restore), key)
  {
    hide NewSlotIn, NewSlot;
  }

  lemma {:induction false} PlaceAllPoints(st: State, es: seq<BucketEntry>, restore: bool, key: nat)
    requires Pointed(st, key)
    requires forall e | e in es :: e.index in st.info && (restore ==> 0 <= e.bucket < NEW_BUCKET_COUNT)
    ensures Pointed(PlaceAll(st, es, restore), key)
    decreases |es|
  {
    if es != [] {
      hide Pointed, Place;
      assert es[|es| - 1] in es;
      forall e | e in es[..|es| - 1] ensures e in es {}
      PlaceAllPoints(st, es[..|es| - 1], restore, key);
      PlacePoints(PlaceAll(st, es[..|es| - 1], restore), es[|es| - 1], restore, key);
    }
  }

  lemma MovedPoints(st: State, sw: State, key: nat)
    requires Pointed(st, key) && Moved(st.info, sw.info) && sw == st.(info := sw.info, random := sw.random)
    ensures Pointed(sw, key)
  {
    assert sw.addrIds == st.addrIds && sw.counts == st.counts && sw.idCount == st.idCount;
    forall a | a in st.addrIds ensures st.addrIds[a] in sw.info && sw.info[st.addrIds[a]].addr.service == a {
      var id := st.addrIds[a];
      assert id in st.info;
    }
    forall id | id in sw.info ensures 0 <= id < sw.idCount && sw.info[id].Network() in sw.counts {
      assert id in st.info;
    }
  }

  lemma RemovePoints(st: State, id: int, key: nat)
    requires Pointed(st, key) && id in st.info && st.random != []
    ensures Pointed(RemoveLast(st, id), key)
  {
    hide AddrCheck.InRange;
  }

  lemma DeletePoints(st: State, id: int, key: nat)
    requires Pointed(st, key) && RandomIndex(st.info, st.random) && id in st.info
    ensures Pointed(Delete(st, id), key)
  {
    hide Pointed, Moved, SwapInfo;
    SwappedLast(st, id);
    var sw := SwapRandom(st, st.info[id].randomPos, |st.random| - 1);
    assert sw == st.(info := sw.info, random := sw.random);
    MovedPoints(st, sw, key);
    RemovePoints(sw, id, key);
  }

  lemma {:induction false} PrunePoints(st: State, key: nat)
    requires Pointed(st, key) && RandomIndex(st.info, st.random)
    ensures Pointed(Prune(st), key)
    decreases |Unreferenced(st)|
  {
    if Unreferenced(st) != {} {
      var id := AddrRuns.Least(Unreferenced(st));
      DeleteRandom(st, id);
      UnreferencedShrinks(st, id);
      DeletePoints(st, id, key);
      hide Pointed, RandomIndex, Delete;
      PrunePoints(Delete(st, id), key);
    }
  }

  lemma RebuildPoints(env: Env, f: File, uBuckets: int)
    requires uBuckets <= |f.buckets|
    ensures Pointed(Rebuild(env, f, uBuckets), f.key)
  {
    var empty := EmptyState(env, f.key);
    assert Pointed(empty, f.key);
    EmptyShaped(env, f.key);
    hide Pointed, RandomIndex, ReadEntries, PlaceAll, Prune, EmptyState;
    ReadAllShapes(empty, f.newEntries, false);
    ReadAllPoints(empty, f.newEntries, false, f.key);
    var news := ReadEntries(empty, f.newEntries, false);
    ReadAllShapes(news, f.triedEntries, true);
    ReadAllPoints(news, f.triedEntries, true, f.key);
    var all := ReadEntries(news, f.triedEntries, true);
    var es := ReadBuckets(f.buckets[..Max(0, uBuckets)], |f.newEntries|);
    var restore := uBuckets == NEW_BUCKET_COUNT && (if f.format >= 2 then f.asmapChecksum else 0) == env.asmapChecksum;
    PlaceAllPoints(all, es, restore, f.key);
    PlaceAllShapes(all, es, restore);
    PrunePoints(PlaceAll(all, es, restore), f.key);
  }

  lemma PassingAddresses(st: State, key: nat)
    requires Pointed(st, key) && AddrCheck.EntriesOk(st)
    ensures AddrIndex(st.info, st.addrIds)
  {
    assert forall id | id in st.info :: AddrCheck.EntryOk(st, id);
    hide AddrCheck.EntriesOk, AddrCheck.InRange, IdsBelow;
  }

  lemma PointedNetworks(st: State, key: nat)
    requires Pointed(st, key)
    ensures AddrCheck.Networks(st.info) <= st.counts.Keys
  {
  }

  /** A passing check settles a state that is pointed. */
  lemma PassingInv(st: State, key: nat)
    requires Pointed(st, key) && AddrCheck.Passes(st)
    ensures Inv(st)
  {
    assert AddrCheck.EntriesOk(st) && st.key != 0;
    hide AddrCheck.Passes, AddrCheck.EntriesOk, AddrCheck.InRange, AddrCheck.Networks;
    hide IdsBelow, RandomIndex, TriedOk, NewSlotsOk, RefsOk, CountsOk, AddrIndex, TimesOk, Referenced;
    PassingAddresses(st, key);
    PointedNetworks(st, key);
    AddrCheck.PassingMeans(st);
    AddrCheck.PassingCounters(st);
  }

  /**
   * Whatever the file says, with addresses repeated, times out of range or slots disputed: if it is loaded
   * at all, all the tables agree.
   */
  lemma AcceptedIsConsistent(env: Env, f: File)
    ensures Unserialize(env, f).Ok? ==> Inv(Unserialize(env, f).st)
  {
    hide Rebuild, Inv, AddrCheck.Passes, Pointed;
    if Unserialize(env, f).Ok? {
      var uBuckets := if f.format >= 1 then Flip30(f.uBuckets) else f.uBuckets;
      RebuildPoints(env, f, uBuckets);
      PassingInv(Rebuild(env, f, uBuckets), f.key);
    }
  }
}
