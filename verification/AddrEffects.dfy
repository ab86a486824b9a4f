/** What the operations of the address manager do to the slots, beyond keeping them in agreement. */
module AddrEffects {
  import opened AddrTypes
  import opened AddrInvariant
  import opened AddrTables
  import opened AddrOps
  import opened AddrRuns

  /** The new slot an entry is put in when it leaves the tried table. */
  ghost function Home(st: State, id: int): Slot
    requires id in st.info
  {
    NewSlot(st.env, st.key, st.info[id].addr.service, st.info[id].source)
  }

  /** At most the entry in new slot `s` disappears, and only with its last reference. */
  ghost predicate LosesOnly(st: State, r: State, s: Slot) {
    forall x | x in st.info && x !in r.info :: s in st.newTable && st.newTable[s] == x && st.info[x].refCount == 1
  }

  lemma ClearLoses(st: State, s: Slot, limbo: set<int>)
    requires Core(st, limbo)
    ensures s in st.newTable ==> st.newTable[s] in st.info
    ensures ClearNew(st, s).newTable == st.newTable - {s} && LosesOnly(st, ClearNew(st, s), s)
  {
    ClearNewKeeps(st, s, limbo);
    if s in st.newTable {
      NewEntry(st.env, st.key, st.info, st.newTable, s);
    }
    hide Core, ClearFrame, Delete;
    ClearedEntries(st, s);
  }

  lemma ClearedEntries(st: State, s: Slot)
    requires Index(st) && (s in st.newTable ==> st.newTable[s] in st.info) && ClearFrame(st, s, ClearNew(st, s))
    ensures LosesOnly(st, ClearNew(st, s), s)
  {
    hide Index, Delete;
    var r := ClearNew(st, s);
    forall x | x in st.info && x !in r.info ensures s in st.newTable && st.newTable[s] == x
        && st.info[x].refCount == 1 {
    }
  }

  /** The evicted entry is back in the new table, over whatever held its slot there. */
  lemma EvictMoves(st: State, s: Slot, limbo: set<int>, r: State)
    requires Core(st, limbo) && s in st.tried && r == Evict(st, s, limbo)
    ensures var evicted := st.tried[s];
            && evicted in st.info && evicted in r.info && !r.info[evicted].inTried && r.info[evicted].refCount == 1
            && r.newTable == st.newTable[Home(st, evicted) := evicted] && r.tried == st.tried - {s}
            && LosesOnly(st, r, Home(st, evicted))
  {
    hide IdsBelow, AddrIndex, RandomIndex, TriedOk, NewSlotsOk, RefsOk, CountsOk, LimboOk;
    TriedEntry(st.env, st.key, st.info, st.tried, s);
    UncountTriedKeeps(st, s, limbo);
    var id := st.tried[s];
    var u := UncountTried(st, s);
    var home := Home(st, id);
    if home in u.newTable { NewEntry(u.env, u.key, u.info, u.newTable, home); }
    ClearLoses(u, home, limbo + {id});
    ClearNewKeeps(u, home, limbo + {id});
    var c := ClearNew(u, home);
    LimboStays(c, limbo + {id}, id);
    assert r == PlaceNew(c, id, home) by { EvictIs(st, s, limbo, c, home); }
    hide Core, NewSlot, ClearNew, Evict, LosesOnly, ClearFrame;
    EvictedTables(st, u, c, id, home);
    EvictedLoses(st, u, c, PlaceNew(c, id, home), id, home);
  }

  lemma EvictIs(st: State, s: Slot, limbo: set<int>, c: State, home: Slot)
    requires Core(st, limbo) && s in st.tried && st.tried[s] in st.info && home == Home(st, st.tried[s])
    requires Index(UncountTried(st, s)) && (home in st.newTable ==> st.newTable[home] in UncountTried(st, s).info)
    requires c == ClearNew(UncountTried(st, s), home) && st.tried[s] in c.info
    ensures Evict(st, s, limbo) == PlaceNew(c, st.tried[s], home)
  {
    hide IdsBelow, AddrIndex, RandomIndex, TriedOk, NewSlotsOk, RefsOk, CountsOk, LimboOk, ClearNew, PlaceNew, NewSlot;
  }

  lemma EvictedTables(st: State, u: State, c: State, id: int, home: Slot)
    requires u.newTable == st.newTable && c.newTable == u.newTable - {home} && id in c.info && !c.info[id].inTried
    ensures var r := PlaceNew(c, id, home);
            id in r.info && !r.info[id].inTried && r.info[id].refCount == 1 && r.newTable == st.newTable[home := id]
                && r.tried == c.tried
  {
    assert c.newTable[home := id] == st.newTable[home := id];
  }

  lemma EvictedLoses(st: State, u: State, c: State, r: State, id: int, home: Slot)
    requires LosesOnly(u, c, home) && u.newTable == st.newTable && r.info.Keys == c.info.Keys + {id}
    requires id in st.info && u.info == st.info[id := st.info[id].(inTried := false)]
    ensures LosesOnly(st, r, home)
  {
  }

  lemma LimboStays(st: State, limbo: set<int>, id: int)
    requires Core(st, limbo) && id in limbo
    ensures id in st.info && !st.info[id].inTried
  {
  }

  /** The entry takes its tried slot; an occupant goes back to the new table; at most one entry is displaced. */
  lemma MakeTriedMoves(st: State, id: int, r: State)
    requires Core(st, {}) && id in st.info && !st.info[id].inTried && r == MakeTried(st, id)
    ensures var s := TriedSlot(st.env, st.key, st.info[id].addr.service);
            var out := RemoveNew(st, id).newTable;
            && r.tried == st.tried[s := id]
            && (s !in st.tried ==> r.newTable == out && r.info.Keys == st.info.Keys)
            && (s in st.tried ==>
                  var evicted := st.tried[s];
                  && evicted in st.info && evicted != id && evicted in r.info && !r.info[evicted].inTried
                     && r.info[evicted].refCount == 1
                  && r.newTable == out[Home(st, evicted) := evicted]
                  && forall x | x in st.info && x !in r.info ::
                       x != id && Home(st, evicted) in out && out[Home(st, evicted)] == x && st.info[x].refCount == 1)
  {
    hide IdsBelow, AddrIndex, RandomIndex, TriedOk, NewSlotsOk, RefsOk, CountsOk, LimboOk;
    RemoveNewKeeps(st, id, {});
    UncountNewKeeps(RemoveNew(st, id), id, {});
    var out := UncountNew(RemoveNew(st, id), id);
    var s := TriedSlot(st.env, st.key, st.info[id].addr.service);
    MakeTriedKeeps(st, id);
    if s in out.tried {
      TriedEntry(st.env, st.key, st.info, st.tried, s);
      EvictKeeps(out, s, {} + {id});
      hide Core, TriedSlot, NewSlot, Evict;
      EvictMoves(out, s, {} + {id}, Evict(out, s, {} + {id}));
    } else {
      hide Core, TriedSlot;
    }
  }

  /** Success is a new reference from the chosen slot; failure changes no slot. */
  lemma InsertMeans(st: State, id: int, source: NetAddr, now: int, r: State, ok: bool)
    requires Core(st, {}) && id in st.info && !st.info[id].inTried && (r, ok) == Insert(st, id, source, now)
    ensures var s := NewSlot(st.env, st.key, st.info[id].addr.service, source);
            && (ok ==> (s in st.newTable ==> st.newTable[s] != id) && r.newTable == st.newTable[s := id]
                       && id in r.info && r.info[id].refCount == st.info[id].refCount + 1)
            && (!ok ==> r.newTable == st.newTable)
            && (id !in r.info <==> !ok && st.info[id].refCount == 0 && !(s in st.newTable && st.newTable[s] == id))
            && forall x | x in st.info && x !in r.info && x != id ::
                 ok && s in st.newTable && st.newTable[s] == x && st.info[x].refCount == 1
  {
    hide IdsBelow, AddrIndex, RandomIndex, TriedOk, NewSlotsOk, RefsOk, CountsOk, LimboOk;
    var s := NewSlot(st.env, st.key, st.info[id].addr.service, source);
    ClearLoses(st, s, {});
    ClearNewKeeps(st, s, {});
    var c := ClearNew(st, s);
    Cleared(st, s, c, id);
    hide NewSlot, ClearNew, LosesOnly, ClearFrame, Tables;
    if !(s in st.newTable && st.newTable[s] == id) && (s !in st.newTable || GivesWay(st, id, s, now)) {
      hide Core, Delete;
      assert c.newTable[s := id] == st.newTable[s := id];
    } else if !(s in st.newTable && st.newTable[s] == id) && st.info[id].refCount == 0 {
      FreeEntry(id);
      DeleteKeeps(st, id, {});
      DeletedTables(st, id);
      hide Core, Delete;
    }
  }

  lemma FreeEntry(id: int)
    ensures id !in {}
  {
  }

  lemma Cleared(st: State, s: Slot, c: State, id: int)
    requires ClearFrame(st, s, c) && LosesOnly(st, c, s) && id in st.info
    ensures (s in st.newTable && st.newTable[s] == id) || (id in c.info && c.info[id].refCount == st.info[id].refCount)
    ensures forall x | x in st.info && x !in c.info ::
              s in st.newTable && st.newTable[s] == x && st.info[x].refCount == 1
  {
    if !(s in st.newTable && st.newTable[s] == id) {
      assert st.info[id] == st.info[id];
    }
  }

  lemma DeletedTables(st: State, id: int)
    requires RandomIndex(st.info, st.random) && id in st.info
    ensures Delete(st, id).newTable == st.newTable && Delete(st, id).tried == st.tried && id !in Delete(st, id).info
  {
  }

  /**
   * Adding an address succeeds exactly by referencing it from the slot that address and source lead to;
   * otherwise no slot changes. Afterwards the address is known if it was, or if it was added.
   */
  lemma AddSingleMeans(st: State, addr: Address, source: NetAddr, timePenalty: int, d: Draw, r: State, ok: bool)
    requires Struct(st) && (r, ok) == AddSingle(st, addr, source, timePenalty, d)
    ensures var s := NewSlot(st.env, st.key, addr.service, source);
            && (ok ==> st.env.routable(addr.service.ip) && addr.service in r.addrIds
                       && r.newTable == st.newTable[s := r.addrIds[addr.service]]
                       && (s in st.newTable && addr.service in st.addrIds ==>
                          st.newTable[s] != st.addrIds[addr.service]))
            && (!ok ==> r.newTable == st.newTable)
            && r.tried == st.tried
            && (addr.service in r.addrIds <==> ok || addr.service in st.addrIds)
  {
    hide IdsBelow, AddrIndex, RandomIndex, Tables, NewSlot;
    AddSingleKeeps(st, addr, source, timePenalty, d);
    if st.env.routable(addr.service.ip) {
      var penalty := if addr.service.ip == source then 0 else timePenalty;
      if addr.service in st.addrIds {
        hide AddSingle;
        assert (r, ok) == AddKnown(st, addr, source, penalty, d) by {
          AddSingleKnown(st, addr, source, timePenalty, d);
        }
        AddKnownMeans(st, addr, source, penalty, d, r, ok);
      } else {
        hide AddSingle;
        assert (r, ok) == AddUnknown(st, addr, source, penalty, d.terribleNow) by {
          AddSingleUnknown(st, addr, source, timePenalty, d);
        }
        AddUnknownMeans(st, addr, source, penalty, d.terribleNow, r, ok);
      }
    }
  }

  lemma AddSingleKnown(st: State, addr: Address, source: NetAddr, timePenalty: int, d: Draw)
    requires Struct(st) && st.env.routable(addr.service.ip) && addr.service in st.addrIds
    ensures AddSingle(st, addr, source, timePenalty, d) ==
            AddKnown(st, addr, source, if addr.service.ip == source then 0 else timePenalty, d)
  {
    hide Struct, AddKnown;
  }

  lemma AddSingleUnknown(st: State, addr: Address, source: NetAddr, timePenalty: int, d: Draw)
    requires Struct(st) && st.env.routable(addr.service.ip) && addr.service !in st.addrIds
    ensures AddSingle(st, addr, source, timePenalty, d) ==
            AddUnknown(st, addr, source, if addr.service.ip == source then 0 else timePenalty, d.terribleNow)
  {
    hide Struct, AddUnknown;
  }

  lemma IndexHolds(st: State, id: int)
    requires Core(st, {}) && id in st.info
    ensures st.info[id].addr.service in st.addrIds && st.addrIds[st.info[id].addr.service] == id
  {
  }

  lemma IndexLacks(st: State, a: Service)
    requires Core(st, {}) && forall x | x in st.info :: st.info[x].addr.service != a
    ensures a !in st.addrIds
  {
    var id := if a in st.addrIds then st.addrIds[a] else 0;
    assert a in st.addrIds ==> id in st.info;
  }

  lemma AddKnownMeans(st: State, addr: Address, source: NetAddr, penalty: int, d: Draw, r: State, ok: bool)
    requires Struct(st) && addr.service in st.addrIds && (r, ok) == AddKnown(st, addr, source, penalty, d)
             && Core(r, {})
    ensures var s := NewSlot(st.env, st.key, addr.service, source);
            && addr.service in r.addrIds
            && (ok ==>
                  && r.newTable == st.newTable[s := r.addrIds[addr.service]]
                  && (s in st.newTable ==> st.newTable[s] != st.addrIds[addr.service]))
            && (!ok ==> r.newTable == st.newTable)
  {
    hide IdsBelow, AddrIndex, RandomIndex, Tables, NewSlot;
    KnownEntry(st, addr.service);
    var id := st.addrIds[addr.service];
    var e := Refresh(st.info[id], addr, penalty, d.onlineNow);
    UpdateKeeps(st, id, e, {});
    var u := st.(info := st.info[id := e]);
    RefreshAlike(st.info[id], addr, penalty, d.onlineNow);
    hide Refresh;
    if !(addr.nTime <= e.addr.nTime || e.inTried || e.refCount == NEW_BUCKETS_PER_ADDRESS
        || (e.refCount > 0 && !d.lucky)) {
      InsertMeans(u, id, source, d.terribleNow, r, ok);
      assert st.info[id].refCount > 0;
      InsertKeepsAddr(u, id, source, d.terribleNow);
      hide Core, Insert;
      IndexHolds(r, id);
    } else {
      hide Core, Insert;
      IndexHolds(r, id);
    }
  }

  lemma InsertKeepsAddr(st: State, id: int, source: NetAddr, now: int)
    requires Core(st, {}) && id in st.info && !st.info[id].inTried && st.info[id].refCount < NEW_BUCKETS_PER_ADDRESS
    ensures var r := Insert(st, id, source, now).0;
            && (forall x | x in r.info :: x in st.info && r.info[x].addr == st.info[x].addr)
  {
    InsertKeeps(st, id, source, now);
    hide Core, Insert;
  }

  lemma AddUnknownMeans(st: State, addr: Address, source: NetAddr, penalty: int, now: int, r: State, ok: bool)
    requires Struct(st) && addr.service !in st.addrIds && (r, ok) == AddUnknown(st, addr, source, penalty, now)
             && Core(r, {})
    ensures var s := NewSlot(st.env, st.key, addr.service, source);
            && (ok <==> addr.service in r.addrIds)
            && (ok ==> r.newTable == st.newTable[s := r.addrIds[addr.service]])
            && (!ok ==> r.newTable == st.newTable)
  {
    hide IdsBelow, AddrIndex, RandomIndex, Tables, NewSlot;
    AddNewKeeps(st, addr, source, penalty);
    var n, id := AddNew(st, addr, source, penalty), st.idCount;
    InsertMeans(n, id, source, now, r, ok);
    InsertKeepsAddr(n, id, source, now);
    FreshId(st);
    OnlyNewcomer(st, addr.service);
    hide Core, Insert;
    if ok {
      IndexHolds(r, id);
    } else {
      assert id !in r.info;
      IndexLacks(r, addr.service);
    }
  }

  lemma FreshId(st: State)
    requires Core(st, {})
    ensures forall s | s in st.newTable :: st.newTable[s] != st.idCount
  {
    forall s | s in st.newTable ensures st.newTable[s] != st.idCount {
      NewEntry(st.env, st.key, st.info, st.newTable, s);
      var id := st.newTable[s];
      assert id in st.info;
    }
  }

  lemma OnlyNewcomer(st: State, a: Service)
    requires Core(st, {}) && a !in st.addrIds
    ensures forall x | x in st.info :: st.info[x].addr.service != a
  {
  }

  /**
   * A good connection is recorded in the entry. It moves the entry to its tried slot, and reports so,
   * exactly if the entry was new and the slot free or not to be tested first; otherwise the slots stay.
   */
  lemma GoodMeans(st: State, a: Service, testBeforeEvict: bool, time: int, r: State, ok: bool)
    requires Struct(st) && (r, ok) == Good(st, a, testBeforeEvict, time)
    ensures var s := TriedSlot(st.env, st.key, a);
            && r.lastGood == time
            && (ok <==> a in st.addrIds && !st.info[st.addrIds[a]].inTried && !(testBeforeEvict && s in st.tried))
            && (a in st.addrIds ==> var id := st.addrIds[a];
                 id in r.info && r.info[id].lastSuccess == time && r.info[id].lastTry == time
                     && r.info[id].attempts == 0)
            && (ok ==> r.tried == st.tried[s := st.addrIds[a]])
            && (!ok ==> r.tried == st.tried && r.newTable == st.newTable && r.info.Keys == st.info.Keys)
            && r.collisions == if a in st.addrIds && !st.info[st.addrIds[a]].inTried && testBeforeEvict && s in st.tried
                                  && |st.collisions| < COLLISION_SET_SIZE
                               then st.collisions + {st.addrIds[a]} else st.collisions
  {
    hide IdsBelow, AddrIndex, RandomIndex, Tables, TriedSlot;
    if a in st.addrIds {
      KnownEntry(st, a);
      var id := st.addrIds[a];
      SucceedKeeps(st, id, time);
      var g := Succeed(st, id, time);
      assert !st.info[id].inTried ==> st.info[id].refCount > 0;
      if !g.info[id].inTried && !(testBeforeEvict && TriedSlot(g.env, g.key, a) in g.tried) {
        MakeTriedKeeps(g, id);
        hide Core, MakeTried;
      }
    }
  }

  /** An unknown routable address is always added if its slot is free. */
  lemma FreeSlotAdds(st: State, addr: Address, source: NetAddr, timePenalty: int, d: Draw)
    requires Struct(st) && st.env.routable(addr.service.ip) && addr.service !in st.addrIds
    requires NewSlot(st.env, st.key, addr.service, source) !in st.newTable
    ensures AddSingle(st, addr, source, timePenalty, d).1
  {
    hide IdsBelow, AddrIndex, RandomIndex, Tables, NewSlot;
    var penalty := if addr.service.ip == source then 0 else timePenalty;
    AddSingleUnknown(st, addr, source, timePenalty, d);
    AddNewKeeps(st, addr, source, penalty);
    hide AddSingle, ClearNew, AddRef;
  }

  /** The first address of a new manager, called good at time zero, ends up in the tried table with a time
      the check rejects. */
  lemma GoodAtZero(env: Env, key: nat, addr: Address, source: NetAddr, timePenalty: int, d: Draw, test: bool)
    requires key != 0 && env.routable(addr.service.ip)
    ensures Struct(EmptyState(env, key))
    ensures var st := AddSingle(EmptyState(env, key), addr, source, timePenalty, d).0;
            Inv(st) && !TimesOk(Good(st, addr.service, test, 0).0.info)
  {
    var empty := EmptyState(env, key);
    EmptyInv(env, key);
    assert empty.newTable == map[] && empty.tried == map[] && empty.addrIds == map[] && empty.env == env;
    hide EmptyState, Struct, TimesOk, AddSingle, Good;
    FreeSlotAdds(empty, addr, source, timePenalty, d);
    AddSingleKeeps(empty, addr, source, timePenalty, d);
    var (st, ok) := AddSingle(empty, addr, source, timePenalty, d);
    AddSingleMeans(empty, addr, source, timePenalty, d, st, ok);
    GoodTimes(st, addr.service, test, 0);
  }
}
