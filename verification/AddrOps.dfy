/** The operations of `AddrManImpl` on the whole state. */
module AddrOps {
  import opened Collections
  import opened AddrTypes
  import opened AddrInvariant
  import opened AddrTables

  /** No entry appears, and the surviving ones keep their address, source and statistics. */
  ghost predicate Survive(info: map<int, AddrInfo>, info': map<int, AddrInfo>) {
    && (forall x {:trigger x in info'} :: x in info' ==> x in info)
    && (forall x {:trigger info'[x]} | x in info' && x in info ::
          info'[x] == info[x].(refCount := info'[x].refCount, inTried := info'[x].inTried,
                               randomPos := info'[x].randomPos))
  }

  /** What no move between tables touches. */
  ghost predicate SameRest(st: State, r: State) {
    && r.env == st.env && r.key == st.key && r.idCount == st.idCount
    && r.lastGood == st.lastGood && r.collisions == st.collisions
  }

  ghost predicate ReferencedBut(info: map<int, AddrInfo>, limbo: set<int>) {
    forall id | id in info && !info[id].inTried && id !in limbo :: info[id].refCount > 0
  }

  // ------------------------------------------------------------------ MakeTried

  /** The tried entry in `s` goes back to the new table, over whatever was in its slot there. */
  function Evict(st: State, s: Slot, ghost limbo: set<int>): (r: State)
    requires Core(st, limbo) && s in st.tried
  {
    TriedEntry(st.env, st.key, st.info, st.tried, s);
    UncountTriedKeeps(st, s, limbo);
    var id := st.tried[s];
    var u := UncountTried(st, s);
    var home := NewSlot(st.env, st.key, st.info[id].addr.service, st.info[id].source);
    assert home in u.newTable ==> u.newTable[home] in u.info;
    ClearNewKeeps(u, home, limbo + {id});
    LimboEntry(ClearNew(u, home).info, limbo + {id}, id);
    PlaceNew(ClearNew(u, home), id, home)
  }

  lemma EvictKeeps(st: State, s: Slot, limbo: set<int>)
    requires Core(st, limbo) && s in st.tried
    ensures Core(Evict(st, s, limbo), limbo) && EvictFrame(st, s, limbo, Evict(st, s, limbo))
  {
    hide IdsBelow, AddrIndex, RandomIndex, TriedOk, NewSlotsOk, RefsOk, CountsOk, LimboOk;
    TriedEntry(st.env, st.key, st.info, st.tried, s);
    UncountTriedKeeps(st, s, limbo);
    var id := st.tried[s];
    NotLimbo(st.info, limbo, id);
    var u := UncountTried(st, s);
    var home := NewSlot(st.env, st.key, st.info[id].addr.service, st.info[id].source);
    if home in u.newTable {
      NewEntry(u.env, u.key, u.info, u.newTable, home);
      UnrefKeeps(u, home, limbo + {id});
    }
    ClearNewKeeps(u, home, limbo + {id});
    var c := ClearNew(u, home);
    LimboEntry(c.info, limbo + {id}, id);
    LimboAll(c.info, limbo + {id});
    hide Tables, EvictFrame;
    assert c.info[id].addr.service == st.info[id].addr.service && home !in c.newTable;
    PlaceNewKeeps(c, id, home, limbo);
    hide Core, ClearFrame;
    EvictFrames(st, s, limbo, u, home, c);
  }

  lemma EvictFrames(st: State, s: Slot, limbo: set<int>, u: State, home: Slot, c: State)
    requires s in st.tried && st.tried[s] in st.info && u == UncountTried(st, s) && st.tried[s] !in limbo
    requires home in u.newTable ==> u.newTable[home] in u.info
    requires ClearFrame(u, home, c) && st.tried[s] in c.info
    requires forall x | x in limbo :: x in c.info && !c.info[x].inTried
    ensures EvictFrame(st, s, limbo, PlaceNew(c, st.tried[s], home))
  {
    var id := st.tried[s];
    var r := PlaceNew(c, id, home);
    if ReferencedBut(st.info, limbo) {
      forall x | x in r.info && !r.info[x].inTried && x !in limbo ensures r.info[x].refCount > 0 {
        assert x in c.info && x in u.info;
      }
    }
  }

  /** The slot is free, nothing else became tried, and every entry outside `limbo` has a reference. */
  ghost predicate EvictFrame(st: State, s: Slot, limbo: set<int>, r: State) {
    && r.tried == st.tried - {s}
    && SameRest(st, r) && Survive(st.info, r.info)
    && (forall x | x in limbo :: x in r.info && !r.info[x].inTried)
    && (ReferencedBut(st.info, limbo) ==> ReferencedBut(r.info, limbo))
    && (forall x | x in r.info :: r.info[x].inTried ==> x in st.info && st.info[x].inTried)
  }

  lemma LimboAll(info: map<int, AddrInfo>, limbo: set<int>)
    requires LimboOk(info, limbo)
    ensures forall x | x in limbo :: x in info && !info[x].inTried
  {
  }

  function MakeTried(st: State, id: int): (r: State)
    requires Core(st, {}) && id in st.info && !st.info[id].inTried
  {
    RemoveNewKeeps(st, id, {});
    UncountNewKeeps(RemoveNew(st, id), id, {});
    var out := UncountNew(RemoveNew(st, id), id);
    var s := TriedSlot(st.env, st.key, st.info[id].addr.service);
    if s in out.tried then
      EvictKeeps(out, s, {} + {id});
      PlaceTried(Evict(out, s, {} + {id}), id, s)
    else
      PlaceTried(out, id, s)
  }

  /** The entry holds its tried slot; no other entry became tried, and none lost its references. */
  ghost predicate MadeTried(st: State, id: int, r: State)
    requires id in st.info
  {
    && SameRest(st, r) && Survive(st.info, r.info)
    && id in r.info && r.info[id].inTried
    && r.tried == st.tried[TriedSlot(st.env, st.key, st.info[id].addr.service) := id]
    && (Referenced(st.info) ==> Referenced(r.info))
    && (forall x | x in r.info && x != id :: r.info[x].inTried ==> x in st.info && st.info[x].inTried)
  }

  lemma MakeTriedKeeps(st: State, id: int)
    requires Core(st, {}) && id in st.info && !st.info[id].inTried
    ensures Core(MakeTried(st, id), {}) && MadeTried(st, id, MakeTried(st, id))
  {
    hide IdsBelow, AddrIndex, RandomIndex, Tables;
    RemoveNewKeeps(st, id, {});
    UncountNewKeeps(RemoveNew(st, id), id, {});
    var out := UncountNew(RemoveNew(st, id), id);
    assert {} + {id} == {id};
    var s := TriedSlot(st.env, st.key, st.info[id].addr.service);
    hide MadeTried;
    if s in out.tried {
      EvictKeeps(out, s, {} + {id});
      var freed := Evict(out, s, {} + {id});
      PlaceTriedKeeps(freed, id, s);
      hide Core;
      MadeTriedFrame(st, id, out, freed);
    } else {
      PlaceTriedKeeps(out, id, s);
      hide Core;
      MadeTriedFrame(st, id, out, out);
    }
  }

  lemma MadeTriedFrame(st: State, id: int, out: State, freed: State)
    requires id in st.info && !st.info[id].inTried && out == UncountNew(RemoveNew(st, id), id)
    requires var s := TriedSlot(st.env, st.key, st.info[id].addr.service);
             if s in st.tried then EvictFrame(out, s, {id}, freed) else freed == out
    requires id in freed.info
    ensures MadeTried(st, id, PlaceTried(freed, id, TriedSlot(st.env, st.key, st.info[id].addr.service)))
  {
  }

  // ------------------------------------------------------------------ AddSingle

  /** One more reference to a new entry, in a free slot. */
  function AddRef(st: State, id: int, s: Slot): State
    requires id in st.info
  {
    st.(info := st.info[id := st.info[id].(refCount := st.info[id].refCount + 1)],
        newTable := st.newTable[s := id])
  }

  lemma AddRefKeeps(st: State, id: int, s: Slot)
    requires Core(st, {}) && id in st.info && !st.info[id].inTried && s !in st.newTable
    requires st.info[id].refCount < NEW_BUCKETS_PER_ADDRESS
    requires 0 <= s.bucket < NEW_BUCKET_COUNT
    requires s == NewSlotIn(st.env, st.key, st.info[id].addr.service, s.bucket)
    ensures Core(AddRef(st, id, s), {})
  {
    hide IdsBelow, AddrIndex, RandomIndex, TriedOk, NewSlotsOk, RefsOk, CountsOk, LimboOk;
    var r := AddRef(st, id, s);
    var e := r.info[id];
    EntryIndex(st, id, e);
    NoLimbo(r.info);
    CountsUpdate(st.info, CountersOf(st), {}, id, e, CountersOf(r), {});
    RefsInsert(st.info, st.newTable, s, id, e);
    TriedStays(st.env, st.key, st.info, st.tried, id, e);
    NewSlotsStay(st.env, st.key, st.info, st.newTable, id, e);
    NewSlotsInsert(st.env, st.key, r.info, st.newTable, s, id);
  }

  /** Whether the entry in `s` gives way to the entry `id`. */
  predicate GivesWay(st: State, id: int, s: Slot, now: int)
    requires id in st.info && s in st.newTable && st.newTable[s] in st.info
  {
    var existing := st.info[st.newTable[s]];
    existing.IsTerrible(now) || (existing.refCount > 1 && st.info[id].refCount == 0)
  }

  /** Tries to reference `id` from the new bucket that `source` selects. */
  function Insert(st: State, id: int, source: NetAddr, now: int): (State, bool)
    requires Core(st, {}) && id in st.info && !st.info[id].inTried
  {
    var s := NewSlot(st.env, st.key, st.info[id].addr.service, source);
    if s in st.newTable && st.newTable[s] == id then
      (st, false)
    else if s !in st.newTable || GivesWay(st, id, s, now) then
      ClearNewKeeps(st, s, {});
      (AddRef(ClearNew(st, s), id, s), true)
    else if st.info[id].refCount == 0 then
      (Delete(st, id), false)
    else
      (st, false)
  }

  /** The tried table is untouched, and no entry survives without a reference. */
  ghost predicate Inserted(st: State, id: int, r: State) {
    && SameRest(st, r) && Survive(st.info, r.info)
    && r.tried == st.tried
    && (forall x | x in r.info :: x in st.info && r.info[x].inTried == st.info[x].inTried)
    && (ReferencedBut(st.info, {id}) ==> Referenced(r.info))
  }

  lemma InsertKeeps(st: State, id: int, source: NetAddr, now: int)
    requires Core(st, {}) && id in st.info && !st.info[id].inTried
    requires st.info[id].refCount < NEW_BUCKETS_PER_ADDRESS
    ensures Core(Insert(st, id, source, now).0, {}) && Inserted(st, id, Insert(st, id, source, now).0)
  {
    hide IdsBelow, AddrIndex, RandomIndex, TriedOk, NewSlotsOk, RefsOk, CountsOk, LimboOk;
    var s := NewSlot(st.env, st.key, st.info[id].addr.service, source);
    if s in st.newTable {
      NewEntry(st.env, st.key, st.info, st.newTable, s);
      UnrefKeeps(st, s, {});
    }
    hide Tables;
    if !(s in st.newTable && st.newTable[s] == id) && (s !in st.newTable || GivesWay(st, id, s, now)) {
      ClearNewKeeps(st, s, {});
      var c := ClearNew(st, s);
      assert s !in c.newTable && c.info[id] == st.info[id].(randomPos := c.info[id].randomPos);
      AddRefKeeps(c, id, s);
      RefsNonNegative(st, id);
      hide Core;
      InsertedRef(st, id, s, c);
    } else if st.info[id].refCount == 0 && !(s in st.newTable && st.newTable[s] == id) {
      RefsNonNegative(st, id);
      DeleteKeeps(st, id, {});
      hide Core;
      assert id !in Delete(st, id).info;
    } else {
      RefsNonNegative(st, id);
    }
  }

  lemma RefsNonNegative(st: State, id: int)
    requires Core(st, {}) && id in st.info && !st.info[id].inTried
    ensures st.info[id].refCount >= 0
  {
  }

  lemma InsertedRef(st: State, id: int, s: Slot, c: State)
    requires id in st.info && !st.info[id].inTried && !(s in st.newTable && st.newTable[s] == id)
    requires s in st.newTable ==> st.newTable[s] in st.info
    requires ClearFrame(st, s, c) && id in c.info && st.info[id].refCount >= 0
    ensures Inserted(st, id, AddRef(c, id, s))
  {
  }

  /** A known address seen again: the time and the services are merged in. */
  function Refresh(e: AddrInfo, addr: Address, penalty: int, now: int): AddrInfo {
    var interval := if now - addr.nTime < 86400 then 3600 else 86400;
    var time := if e.addr.nTime < addr.nTime - interval - penalty then Max(0, addr.nTime - penalty) else e.addr.nTime;
    e.(addr := e.addr.(nTime := time, services := e.addr.services | addr.services))
  }

  lemma RefreshAlike(e: AddrInfo, addr: Address, penalty: int, now: int)
    ensures Alike(e, Refresh(e, addr, penalty, now)) && Refresh(e, addr, penalty, now).randomPos == e.randomPos
  {
  }

  lemma AddNewEntry(st: State, addr: Address, source: NetAddr, penalty: int)
    ensures var r := AddNew(st, addr, source, penalty);
            st.idCount in r.info && !r.info[st.idCount].inTried
  {
  }

  function AddNew(st: State, addr: Address, source: NetAddr, penalty: int): State {
    var created := Create(st, addr, source);
    var e := created.info[st.idCount];
    created.(info := created.info[st.idCount := e.(addr := e.addr.(nTime := Max(0, e.addr.nTime - penalty)))])
  }

  /** What one address of an `Add` call meets: two clock readings and one random draw. */
  datatype Draw = Draw(onlineNow: int, terribleNow: int, lucky: bool)

  function AddKnown(st: State, addr: Address, source: NetAddr, penalty: int, d: Draw): (State, bool)
    requires Struct(st) && addr.service in st.addrIds
  {
    KnownEntry(st, addr.service);
    hide IdsBelow, AddrIndex, RandomIndex, Tables;
    var id := st.addrIds[addr.service];
    var e := Refresh(st.info[id], addr, penalty, d.onlineNow);
    UpdateKeeps(st, id, e, {});
    var r := st.(info := st.info[id := e]);
    if || addr.nTime <= e.addr.nTime
       || e.inTried
       || e.refCount == NEW_BUCKETS_PER_ADDRESS
       || (e.refCount > 0 && !d.lucky)
    then (r, false)
    else Insert(r, id, source, d.terribleNow)
  }

  function AddUnknown(st: State, addr: Address, source: NetAddr, penalty: int, now: int): (State, bool)
    requires Struct(st) && addr.service !in st.addrIds
  {
    hide IdsBelow, AddrIndex, RandomIndex, Tables;
    AddNewKeeps(st, addr, source, penalty);
    Insert(AddNew(st, addr, source, penalty), st.idCount, source, now)
  }

  function AddSingle(st: State, addr: Address, source: NetAddr, timePenalty: int, d: Draw): (State, bool)
    requires Struct(st)
  {
    if !st.env.routable(addr.service.ip) then (st, false)
    else
      var penalty := if addr.service.ip == source then 0 else timePenalty;
      if addr.service in st.addrIds then AddKnown(st, addr, source, penalty, d)
      else AddUnknown(st, addr, source, penalty, d.terribleNow)
  }

  lemma AddNewKeeps(st: State, addr: Address, source: NetAddr, penalty: int)
    requires Core(st, {}) && addr.service !in st.addrIds
    ensures Core(AddNew(st, addr, source, penalty), {})
  {
    hide IdsBelow, AddrIndex, RandomIndex, Tables;
    CreateKeeps(st, addr, source, {});
    var created := Create(st, addr, source);
    UpdateKeeps(created, st.idCount, AddNew(st, addr, source, penalty).info[st.idCount], {});
  }

  /** Adding an address keeps the tables in agreement, and the tried table as it is. */
  lemma AddSingleKeeps(st: State, addr: Address, source: NetAddr, timePenalty: int, d: Draw)
    requires Struct(st)
    ensures Struct(AddSingle(st, addr, source, timePenalty, d).0)
    ensures AddSingle(st, addr, source, timePenalty, d).0.tried == st.tried
    ensures TimesOk(st.info) ==> TimesOk(AddSingle(st, addr, source, timePenalty, d).0.info)
  {
    if st.env.routable(addr.service.ip) {
      var penalty := if addr.service.ip == source then 0 else timePenalty;
      if addr.service in st.addrIds {
        AddKnownKeeps(st, addr, source, penalty, d);
      } else {
        AddUnknownKeeps(st, addr, source, penalty, d.terribleNow);
      }
    }
  }

  /** Anything that leaves tried entries alone and adds no live collision keeps the rest. */
  lemma StructFrom(st: State, r: State)
    requires Struct(st) && Core(r, {}) && Referenced(r.info)
    requires r.env == st.env && r.key == st.key && r.idCount >= st.idCount && r.collisions == st.collisions
    requires forall x | x in r.info && x in st.collisions ::
      x in st.info && r.info[x].addr.service == st.info[x].addr.service && (r.info[x].inTried ==> st.info[x].inTried)
    requires forall s | s in st.tried :: s in r.tried
    ensures Struct(r)
  {
    hide Core;
  }

  lemma InsertStruct(st: State, a: State, id: int, r: State)
    requires Struct(st) && Core(r, {}) && Inserted(a, id, r) && ReferencedBut(a.info, {id})
    requires a.env == st.env && a.key == st.key && a.idCount >= st.idCount && a.collisions == st.collisions
    requires a.tried == st.tried
    requires forall x | x in a.info && x in st.collisions ::
      x in st.info && a.info[x].addr.service == st.info[x].addr.service && (a.info[x].inTried ==> st.info[x].inTried)
    ensures Struct(r) && r.tried == st.tried && (TimesOk(a.info) ==> TimesOk(r.info))
  {
    hide Core;
    StructFrom(st, r);
  }

  lemma AddKnownKeeps(st: State, addr: Address, source: NetAddr, penalty: int, d: Draw)
    requires Struct(st) && addr.service in st.addrIds
    ensures var id := st.addrIds[addr.service];
            var r := st.(info := st.info[id := Refresh(st.info[id], addr, penalty, d.onlineNow)]);
            && Struct(r)
            && (TimesOk(st.info) ==> TimesOk(r.info))
            && (!r.info[id].inTried && r.info[id].refCount != NEW_BUCKETS_PER_ADDRESS ==>
                  var r' := Insert(r, id, source, d.terribleNow).0;
                  Struct(r') && r'.tried == st.tried && (TimesOk(st.info) ==> TimesOk(r'.info)))
  {
    var id := st.addrIds[addr.service];
    var e := Refresh(st.info[id], addr, penalty, d.onlineNow);
    var r := st.(info := st.info[id := e]);
    KnownEntry(st, addr.service);
    hide IdsBelow, AddrIndex, RandomIndex, Tables, Insert;
    UpdateKeeps(st, id, e, {});
    StructFrom(st, r);
    assert TimesOk(st.info) ==> TimesOk(r.info);
    if !e.inTried && e.refCount != NEW_BUCKETS_PER_ADDRESS {
      InsertKeeps(r, id, source, d.terribleNow);
      hide Core, Inserted, Struct, Refresh;
      assert ReferencedBut(r.info, {id});
      InsertStruct(st, r, id, Insert(r, id, source, d.terribleNow).0);
    }
  }

  lemma KnownEntry(st: State, a: Service)
    requires Struct(st) && a in st.addrIds
    ensures var id := st.addrIds[a];
            && id in st.info && st.info[id].addr.service == a
            && (st.info[id].inTried || st.info[id].refCount <= NEW_BUCKETS_PER_ADDRESS)
  {
  }

  lemma AddUnknownKeeps(st: State, addr: Address, source: NetAddr, penalty: int, now: int)
    requires Struct(st) && addr.service !in st.addrIds
    ensures Core(AddNew(st, addr, source, penalty), {})
    ensures var r := Insert(AddNew(st, addr, source, penalty), st.idCount, source, now).0;
            Struct(r) && r.tried == st.tried && (TimesOk(st.info) ==> TimesOk(r.info))
  {
    hide IdsBelow, AddrIndex, RandomIndex, Tables, Insert;
    AddNewKeeps(st, addr, source, penalty);
    var a := AddNew(st, addr, source, penalty);
    InsertKeeps(a, st.idCount, source, now);
    hide Core, Inserted;
    AddNewFrame(st, addr, source, penalty);
    hide AddNew;
    InsertStruct(st, a, st.idCount, Insert(a, st.idCount, source, now).0);
  }

  lemma AddNewFrame(st: State, addr: Address, source: NetAddr, penalty: int)
    requires Struct(st)
    ensures var a := AddNew(st, addr, source, penalty);
            && ReferencedBut(a.info, {st.idCount})
            && a.env == st.env && a.key == st.key && a.idCount >= st.idCount && a.collisions == st.collisions
            && a.tried == st.tried && (TimesOk(st.info) ==> TimesOk(a.info))
            && (forall x | x in a.info && x in st.collisions :: x in st.info && a.info[x] == st.info[x])
  {
    hide Core;
  }
}
