/** The table primitives of `AddrManImpl` (create, swap, delete, clear, move) as functions of the
    whole state, each shown to keep `Core`. */
module AddrTables {
  import opened AddrTypes
  import opened AddrInvariant

  function Create(st: State, addr: Address, source: NetAddr): State {
    var id := st.idCount;
    st.(idCount := id + 1,
        info := st.info[id := FreshInfo(addr, source, |st.random|)],
        addrIds := st.addrIds[addr.service := id],
        random := st.random + [id],
        nNew := st.nNew + 1,
        counts := BumpNew(st.counts, addr.service.ip.network, 1))
  }

  function SwapInfo(info: map<int, AddrInfo>, random: seq<int>, p: int, q: int): (r: map<int, AddrInfo>)
    requires 0 <= p < |random| && 0 <= q < |random| && random[p] in info && random[q] in info
  {
    var id1, id2 := random[p], random[q];
    var moved := info[id1 := info[id1].(randomPos := q)];
    moved[id2 := moved[id2].(randomPos := p)]
  }

  function SwapRandom(st: State, p: int, q: int): State
    requires 0 <= p < |st.random| && 0 <= q < |st.random|
    requires st.random[p] in st.info && st.random[q] in st.info
  {
    if p == q then st
    else st.(info := SwapInfo(st.info, st.random, p, q),
             random := st.random[p := st.random[q]][q := st.random[p]])
  }

  function Delete(st: State, id: int): State
    requires RandomIndex(st.info, st.random) && id in st.info
  {
    RemoveLast(SwapRandom(st, st.info[id].randomPos, |st.random| - 1), id)
  }

  /** Drops an entry that is last in `vRandom`. */
  function RemoveLast(st: State, id: int): State
    requires id in st.info && st.random != []
  {
    st.(counts := BumpNew(st.counts, st.info[id].Network(), -1),
        random := st.random[..|st.random| - 1],
        addrIds := st.addrIds - {st.info[id].addr.service},
        info := st.info - {id},
        nNew := st.nNew - 1)
  }

  /** One reference fewer, one slot emptied. */
  function Unref(st: State, s: Slot): (r: State)
    requires Index(st) && s in st.newTable && st.newTable[s] in st.info
    ensures Index(r)
  {
    var id := st.newTable[s];
    st.(info := st.info[id := st.info[id].(refCount := st.info[id].refCount - 1)], newTable := st.newTable - {s})
  }

  /** Empties a new slot; an entry that loses its last reference is deleted. */
  function ClearNew(st: State, s: Slot): State
    requires Index(st) && (s in st.newTable ==> st.newTable[s] in st.info)
  {
    if s !in st.newTable then st
    else
      var cleared := Unref(st, s);
      if cleared.info[st.newTable[s]].refCount == 0 then Delete(cleared, st.newTable[s]) else cleared
  }

  /** Takes an entry out of every new bucket. */
  function RemoveNew(st: State, id: int): State
    requires id in st.info
  {
    st.(info := st.info[id := st.info[id].(refCount := 0)],
        newTable := map s | s in st.newTable && st.newTable[s] != id :: st.newTable[s])
  }

  function UncountNew(st: State, id: int): State
    requires id in st.info
  {
    st.(nNew := st.nNew - 1, counts := BumpNew(st.counts, st.info[id].Network(), -1))
  }

  function UncountTried(st: State, s: Slot): State
    requires s in st.tried && st.tried[s] in st.info
  {
    var id := st.tried[s];
    st.(info := st.info[id := st.info[id].(inTried := false)],
        tried := st.tried - {s},
        nTried := st.nTried - 1,
        counts := BumpTried(st.counts, st.info[id].Network(), -1))
  }

  function PlaceNew(st: State, id: int, s: Slot): State
    requires id in st.info
  {
    st.(info := st.info[id := st.info[id].(refCount := 1)],
        newTable := st.newTable[s := id],
        nNew := st.nNew + 1,
        counts := BumpNew(st.counts, st.info[id].Network(), 1))
  }

  function PlaceTried(st: State, id: int, s: Slot): State
    requires id in st.info
  {
    st.(info := st.info[id := st.info[id].(inTried := true)],
        tried := st.tried[s := id],
        nTried := st.nTried + 1,
        counts := BumpTried(st.counts, st.info[id].Network(), 1))
  }

  // ------------------------------------------------------------------- frames

  /** The entries differ at most in statistics and in their place in `vRandom`. */
  ghost predicate Alike(e: AddrInfo, e': AddrInfo) {
    && e'.addr.service == e.addr.service
    && e'.source == e.source
    && e'.inTried == e.inTried
    && e'.refCount == e.refCount
  }

  ghost predicate SameStatic(info: map<int, AddrInfo>, info': map<int, AddrInfo>) {
    && (forall id {:trigger id in info} {:trigger id in info'} :: id in info <==> id in info')
    && (forall id {:trigger info[id]} {:trigger info'[id]} :: id in info && id in info' ==> Alike(info[id], info'[id]))
  }

  ghost predicate Belongs(e: AddrInfo, tried: bool, net: int) {
    e.inTried == tried && (net < 0 || e.Network() == net)
  }

  lemma IdsMember(info: map<int, AddrInfo>, tried: bool, net: int, id: int)
    ensures id in Ids(info, tried, net) <==> id in info && Belongs(info[id], tried, net)
  {
  }

  lemma IdsUpdate(info: map<int, AddrInfo>, id: int, e: AddrInfo, tried: bool, net: int)
    ensures Ids(info[id := e], tried, net) ==
            Ids(info, tried, net) - {id} + (if Belongs(e, tried, net) then {id} else {})
  {
    var r := Ids(info, tried, net) - {id} + (if Belongs(e, tried, net) then {id} else {});
    forall x: int ensures x in Ids(info[id := e], tried, net) <==> x in r {
      IdsMember(info[id := e], tried, net, x);
      IdsMember(info, tried, net, x);
    }
  }

  lemma IdsSame(info: map<int, AddrInfo>, info': map<int, AddrInfo>, tried: bool, net: int)
    requires SameStatic(info, info')
    ensures Ids(info', tried, net) == Ids(info, tried, net)
  {
    forall x: int ensures x in Ids(info', tried, net) <==> x in Ids(info, tried, net) {
      IdsMember(info', tried, net, x);
      IdsMember(info, tried, net, x);
      assert x in info' <==> x in info;
    }
  }

  lemma IdsRemove(info: map<int, AddrInfo>, id: int, tried: bool, net: int)
    ensures Ids(info - {id}, tried, net) == Ids(info, tried, net) - {id}
  {
    forall x: int ensures x in Ids(info - {id}, tried, net) <==> x in Ids(info, tried, net) - {id} {
      IdsMember(info - {id}, tried, net, x);
      IdsMember(info, tried, net, x);
    }
  }

  lemma SizeWithout(s: set<int>, limbo: set<int>, id: int)
    ensures |s - limbo| == |s - limbo - {id}| + (if id in s && id !in limbo then 1 else 0)
  {
    if id in s && id !in limbo {
      assert s - limbo == (s - limbo - {id}) + {id};
    } else {
      assert s - limbo == s - limbo - {id};
    }
  }

  lemma SameRest(s: set<int>, s': set<int>, limbo: set<int>, limbo': set<int>, id: int)
    requires s - {id} == s' - {id} && limbo - {id} == limbo' - {id}
    ensures s - limbo - {id} == s' - limbo' - {id}
  {
    assert s - limbo - {id} == (s - {id}) - (limbo - {id});
    assert s' - limbo' - {id} == (s' - {id}) - (limbo' - {id});
  }

  lemma SetUpdate(s: set<int>, limbo: set<int>, id: int, back: bool, limbo': set<int>)
    requires limbo - {id} == limbo' - {id}
    ensures |s - {id} + (if back then {id} else {}) - limbo'| ==
            |s - limbo| - (if id in s && id !in limbo then 1 else 0) + (if back && id !in limbo' then 1 else 0)
  {
    var s' := s - {id} + (if back then {id} else {});
    SizeWithout(s, limbo, id);
    SizeWithout(s', limbo', id);
    SameRest(s, s', limbo, limbo', id);
  }

  /** Replacing one entry moves each counter by whether it was and is counted there. */
  lemma CountsUpdate(info: map<int, AddrInfo>, c: Counters, limbo: set<int>,
                     id: int, e: AddrInfo, c': Counters, limbo': set<int>)
    requires CountsOk(info, c, limbo)
    requires limbo - {id} == limbo' - {id}
    requires forall tried: bool, net: int ::
      c'.Tally(tried, net) == c.Tally(tried, net)
                              - (if id in info && id !in limbo && Belongs(info[id], tried, net) then 1 else 0)
                              + (if id !in limbo' && Belongs(e, tried, net) then 1 else 0)
    ensures CountsOk(info[id := e], c', limbo')
  {
    forall tried: bool, net: int
      ensures c'.Tally(tried, net) == |Ids(info[id := e], tried, net) - limbo'|
    {
      IdsUpdate(info, id, e, tried, net);
      IdsMember(info, tried, net, id);
      hide Ids, Belongs;
      assert c.Tally(tried, net) == |Ids(info, tried, net) - limbo|;
      SetUpdate(Ids(info, tried, net), limbo, id, Belongs(e, tried, net), limbo');
    }
  }

  lemma CountsRemove(info: map<int, AddrInfo>, c: Counters, limbo: set<int>, id: int, c': Counters)
    requires CountsOk(info, c, limbo) && id in info && id !in limbo
    requires forall tried: bool, net: int ::
      c'.Tally(tried, net) == c.Tally(tried, net) - (if Belongs(info[id], tried, net) then 1 else 0)
    ensures CountsOk(info - {id}, c', limbo)
  {
    forall tried: bool, net: int
      ensures c'.Tally(tried, net) == |Ids(info - {id}, tried, net) - limbo|
    {
      IdsRemove(info, id, tried, net);
      IdsMember(info, tried, net, id);
      hide Ids, Belongs;
      var old_ := Ids(info, tried, net) - limbo;
      assert c.Tally(tried, net) == |old_|;
      assert Ids(info - {id}, tried, net) - limbo == old_ - {id};
    }
  }

  lemma CountsSame(info: map<int, AddrInfo>, info': map<int, AddrInfo>, c: Counters, limbo: set<int>)
    requires CountsOk(info, c, limbo) && SameStatic(info, info')
    ensures CountsOk(info', c, limbo)
  {
    forall tried: bool, net: int ensures c.Tally(tried, net) == |Ids(info', tried, net) - limbo| {
      IdsSame(info, info', tried, net);
      assert c.Tally(tried, net) == |Ids(info, tried, net) - limbo|;
    }
  }

  lemma StaticTables(st: State, r: State, limbo: set<int>)
    requires Tables(st, limbo) && SameStatic(st.info, r.info)
    requires r.env == st.env && r.key == st.key && r.tried == st.tried && r.newTable == st.newTable
    requires CountersOf(r) == CountersOf(st)
    ensures Tables(r, limbo)
  {
    hide CountsOk, TriedOk, NewSlotsOk, RefsOk;
    CountsSame(st.info, r.info, CountersOf(st), limbo);
    StaticTried(st.env, st.key, st.info, r.info, st.tried);
    StaticNew(st.env, st.key, st.info, r.info, st.newTable);
  }

  lemma StaticTried(env: Env, key: nat, info: map<int, AddrInfo>, info': map<int, AddrInfo>, tried: map<Slot, int>)
    requires TriedOk(env, key, info, tried) && SameStatic(info, info')
    ensures TriedOk(env, key, info', tried)
  {
    forall s | s in tried
      ensures tried[s] in info' && info'[tried[s]].inTried && s == TriedSlot(env, key, info'[tried[s]].addr.service)
    {
      var id := tried[s];
      assert id in info;
    }
    forall id | id in info' && info'[id].inTried
      ensures TriedSlot(env, key, info'[id].addr.service) in tried
      ensures tried[TriedSlot(env, key, info'[id].addr.service)] == id
      ensures info'[id].refCount == 0
    {
      assert id in info && info[id].inTried;
    }
  }

  lemma StaticNew(env: Env, key: nat, info: map<int, AddrInfo>, info': map<int, AddrInfo>, table: map<Slot, int>)
    requires NewSlotsOk(env, key, info, table) && RefsOk(info, table) && SameStatic(info, info')
    ensures NewSlotsOk(env, key, info', table) && RefsOk(info', table)
  {
    forall s | s in table
      ensures table[s] in info' && !info'[table[s]].inTried
      ensures s == NewSlotIn(env, key, info'[table[s]].addr.service, s.bucket)
    {
      var id := table[s];
      assert id in info;
    }
    forall id | id in info' && !info'[id].inTried
      ensures info'[id].refCount == |SlotsOf(table, id)| <= NEW_BUCKETS_PER_ADDRESS
    {
      assert id in info && !info[id].inTried;
    }
  }

  // ------------------------------------------------ the two indexes, one map at a time

  lemma AddrIndexSame(info: map<int, AddrInfo>, info': map<int, AddrInfo>, addrIds: map<Service, int>)
    requires AddrIndex(info, addrIds) && SameStatic(info, info')
    ensures AddrIndex(info', addrIds)
  {
    forall a | a in addrIds ensures addrIds[a] in info' && info'[addrIds[a]].addr.service == a {
      var id := addrIds[a];
      assert id in info;
    }
  }

  lemma AddrIndexAdd(info: map<int, AddrInfo>, addrIds: map<Service, int>, id: int, e: AddrInfo)
    requires AddrIndex(info, addrIds) && id !in info && e.addr.service !in addrIds
    ensures AddrIndex(info[id := e], addrIds[e.addr.service := id])
  {
    var info', addrIds' := info[id := e], addrIds[e.addr.service := id];
    forall a | a in addrIds' ensures addrIds'[a] in info' && info'[addrIds'[a]].addr.service == a {
      var x := addrIds'[a];
      assert a in addrIds ==> x in info;
    }
  }

  lemma AddrIndexRemove(info: map<int, AddrInfo>, addrIds: map<Service, int>, id: int)
    requires AddrIndex(info, addrIds) && id in info
    ensures AddrIndex(info - {id}, addrIds - {info[id].addr.service})
  {
    var info', addrIds' := info - {id}, addrIds - {info[id].addr.service};
    forall a | a in addrIds' ensures addrIds'[a] in info' && info'[addrIds'[a]].addr.service == a {
      var x := addrIds[a];
      assert x in info;
    }
  }

  lemma RandomIndexSame(info: map<int, AddrInfo>, info': map<int, AddrInfo>, random: seq<int>)
    requires RandomIndex(info, random) && info.Keys == info'.Keys
    requires forall id | id in info :: info'[id].randomPos == info[id].randomPos
    ensures RandomIndex(info', random)
  {
    forall i | 0 <= i < |random| ensures random[i] in info' && info'[random[i]].randomPos == i {
      var id := random[i];
      assert id in info;
    }
  }

  lemma RandomIndexAdd(info: map<int, AddrInfo>, random: seq<int>, id: int, e: AddrInfo)
    requires RandomIndex(info, random) && id !in info && e.randomPos == |random|
    ensures RandomIndex(info[id := e], random + [id])
  {
    var info', random' := info[id := e], random + [id];
    forall i | 0 <= i < |random'| ensures random'[i] in info' && info'[random'[i]].randomPos == i {
      var x := random'[i];
      if i < |random| {
        assert x == random[i] && x in info;
      }
    }
  }

  lemma RandomIndexSwap(info: map<int, AddrInfo>, random: seq<int>, p: int, q: int)
    requires RandomIndex(info, random) && 0 <= p < |random| && 0 <= q < |random| && p != q
    ensures RandomIndex(SwapInfo(info, random, p, q), random[p := random[q]][q := random[p]])
  {
    assert random[p] != random[q];
  }

  lemma RandomIndexPop(info: map<int, AddrInfo>, random: seq<int>, id: int)
    requires RandomIndex(info, random) && id in info && info[id].randomPos == |random| - 1
    ensures RandomIndex(info - {id}, random[..|random| - 1])
  {
    var info', random' := info - {id}, random[..|random| - 1];
    forall i | 0 <= i < |random'| ensures random'[i] in info' && info'[random'[i]].randomPos == i {
      var x := random[i];
      assert x in info;
    }
  }

  // ---------------------------------------------------------- one table at a time

  /** An id with no new entry has no new slot. */
  lemma NoSlots(env: Env, key: nat, info: map<int, AddrInfo>, table: map<Slot, int>, id: int)
    requires NewSlotsOk(env, key, info, table) && (id !in info || info[id].inTried)
    ensures SlotsOf(table, id) == {}
  {
    forall s | s in table ensures table[s] != id {
      var x := table[s];
      assert x in info && !info[x].inTried;
    }
  }

  lemma TablesAdd(env: Env, key: nat, info: map<int, AddrInfo>, table: map<Slot, int>, tried: map<Slot, int>,
                  id: int, e: AddrInfo)
    requires NewSlotsOk(env, key, info, table) && RefsOk(info, table) && TriedOk(env, key, info, tried)
    requires id !in info && !e.inTried && e.refCount == 0
    ensures NewSlotsOk(env, key, info[id := e], table) && RefsOk(info[id := e], table)
    ensures TriedOk(env, key, info[id := e], tried)
  {
    NoSlots(env, key, info, table, id);
  }

  lemma TablesRemove(env: Env, key: nat, info: map<int, AddrInfo>, table: map<Slot, int>, tried: map<Slot, int>,
                     id: int)
    requires NewSlotsOk(env, key, info, table) && RefsOk(info, table) && TriedOk(env, key, info, tried)
    requires id in info && !info[id].inTried && SlotsOf(table, id) == {}
    ensures NewSlotsOk(env, key, info - {id}, table) && RefsOk(info - {id}, table)
    ensures TriedOk(env, key, info - {id}, tried)
  {
    forall s | s in table ensures table[s] != id {
      assert s !in SlotsOf(table, id);
    }
  }

  /** The entries stay, up to their place in `vRandom`. */
  ghost predicate Moved(info: map<int, AddrInfo>, info': map<int, AddrInfo>) {
    && (forall x {:trigger x in info} {:trigger x in info'} :: x in info' <==> x in info)
    && (forall x {:trigger info'[x]} {:trigger info[x]} | x in info' && x in info ::
          info'[x] == info[x].(randomPos := info'[x].randomPos))
  }

  // -------------------------------------------------------------- small facts

  lemma NextIdFree(info: map<int, AddrInfo>, n: int, e: AddrInfo)
    requires IdsBelow(info, n)
    ensures n !in info && IdsBelow(info[n := e], n + 1)
  {
  }

  lemma IdsBelowShrink(info: map<int, AddrInfo>, n: int, id: int)
    requires IdsBelow(info, n)
    ensures IdsBelow(info - {id}, n)
  {
  }

  lemma IdsBelowMoved(info: map<int, AddrInfo>, info': map<int, AddrInfo>, n: int)
    requires IdsBelow(info, n) && Moved(info, info')
    ensures IdsBelow(info', n)
  {
  }

  lemma NewEntry(env: Env, key: nat, info: map<int, AddrInfo>, table: map<Slot, int>, s: Slot)
    requires NewSlotsOk(env, key, info, table) && s in table
    ensures table[s] in info && !info[table[s]].inTried
  {
  }

  lemma TriedEntry(env: Env, key: nat, info: map<int, AddrInfo>, tried: map<Slot, int>, s: Slot)
    requires TriedOk(env, key, info, tried) && s in tried
    ensures tried[s] in info && info[tried[s]].inTried && info[tried[s]].refCount == 0
    ensures s == TriedSlot(env, key, info[tried[s]].addr.service)
  {
    var id := tried[s];
    assert id in info && info[id].inTried;
  }

  lemma NoRefs(info: map<int, AddrInfo>, table: map<Slot, int>, id: int)
    requires RefsOk(info, table) && id in info && !info[id].inTried && info[id].refCount == 0
    ensures SlotsOf(table, id) == {}
  {
  }

  lemma LimboSame(info: map<int, AddrInfo>, info': map<int, AddrInfo>, limbo: set<int>)
    requires LimboOk(info, limbo)
    requires forall id | id in limbo && id in info ::
      id in info' && info'[id].inTried == info[id].inTried && info'[id].refCount == info[id].refCount
    ensures LimboOk(info', limbo)
  {
  }

  lemma LimboEntry(info: map<int, AddrInfo>, limbo: set<int>, id: int)
    requires LimboOk(info, limbo) && id in limbo
    ensures id in info && !info[id].inTried && info[id].refCount == 0
  {
  }

  lemma LimboGrow(info: map<int, AddrInfo>, limbo: set<int>, id: int)
    requires LimboOk(info, limbo) && id in info && !info[id].inTried && info[id].refCount == 0
    ensures LimboOk(info, limbo + {id})
  {
  }

  lemma LimboShrink(info: map<int, AddrInfo>, limbo: set<int>, id: int, e: AddrInfo)
    requires LimboOk(info, limbo + {id}) && id !in limbo
    ensures LimboOk(info[id := e], limbo)
  {
  }

  lemma NoLimbo(info: map<int, AddrInfo>)
    ensures LimboOk(info, {})
  {
  }

  lemma NotLimbo(info: map<int, AddrInfo>, limbo: set<int>, id: int)
    requires LimboOk(info, limbo) && (id !in info || info[id].inTried || info[id].refCount != 0)
    ensures id !in limbo
  {
  }

  // ------------------------------------------------------- primitives keep Core

  lemma SwapMoves(info: map<int, AddrInfo>, random: seq<int>, p: int, q: int)
    requires RandomIndex(info, random) && 0 <= p < |random| && 0 <= q < |random| && p != q
    ensures Moved(info, SwapInfo(info, random, p, q))
    ensures SwapInfo(info, random, p, q)[random[p]].randomPos == q
  {
    assert random[p] != random[q];
    hide RandomIndex;
  }

  lemma MovedStatic(info: map<int, AddrInfo>, info': map<int, AddrInfo>)
    requires Moved(info, info')
    ensures SameStatic(info, info')
  {
  }

  lemma SwapKeeps(st: State, p: int, q: int, limbo: set<int>)
    requires Core(st, limbo) && 0 <= p < |st.random| && 0 <= q < |st.random|
    ensures Core(SwapRandom(st, p, q), limbo)
    ensures Moved(st.info, SwapRandom(st, p, q).info)
    ensures SwapRandom(st, p, q).info[st.random[p]].randomPos == q
  {
    if p != q {
      var r := SwapRandom(st, p, q);
      hide IdsBelow, AddrIndex, Tables;
      SwapMoves(st.info, st.random, p, q);
      RandomIndexSwap(st.info, st.random, p, q);
      hide RandomIndex, Moved, SameStatic;
      MovedStatic(st.info, r.info);
      IdsBelowMoved(st.info, r.info, st.idCount);
      AddrIndexSame(st.info, r.info, st.addrIds);
      StaticTables(st, r, limbo);
    } else {
      hide Core;
      assert Moved(st.info, st.info);
    }
  }

  lemma CreateKeeps(st: State, addr: Address, source: NetAddr, limbo: set<int>)
    requires Core(st, limbo) && addr.service !in st.addrIds
    ensures Core(Create(st, addr, source), limbo)
  {
    hide IdsBelow, AddrIndex, RandomIndex, TriedOk, NewSlotsOk, RefsOk, CountsOk, LimboOk;
    var r := Create(st, addr, source);
    var id := st.idCount;
    NextIdFree(st.info, id, r.info[id]);
    AddrIndexAdd(st.info, st.addrIds, id, r.info[id]);
    RandomIndexAdd(st.info, st.random, id, r.info[id]);
    NotLimbo(st.info, limbo, id);
    LimboSame(st.info, r.info, limbo);
    TablesAdd(st.env, st.key, st.info, st.newTable, st.tried, id, r.info[id]);
    CountsUpdate(st.info, CountersOf(st), limbo, id, r.info[id], CountersOf(r), limbo);
  }

  lemma DeleteKeeps(st: State, id: int, limbo: set<int>)
    requires Core(st, limbo) && id in st.info && id !in limbo
    requires !st.info[id].inTried && st.info[id].refCount == 0
    ensures Core(Delete(st, id), limbo)
    ensures Moved(st.info - {id}, Delete(st, id).info)
  {
    hide IdsBelow, AddrIndex, Tables;
    var p, last := st.info[id].randomPos, |st.random| - 1;
    SwapKeeps(st, p, last, limbo);
    var sw := SwapRandom(st, p, last);
    assert id in sw.info && sw.info[id] == st.info[id].(randomPos := last) && |sw.random| == last + 1;
    hide RandomIndex, Core, Moved;
    RemoveLastKeeps(sw, id, limbo);
    MovedRemove(st.info, sw.info, id);
  }

  lemma MovedRemove(info: map<int, AddrInfo>, info': map<int, AddrInfo>, id: int)
    requires Moved(info, info')
    ensures Moved(info - {id}, info' - {id})
  {
  }

  lemma RemoveLastKeeps(sw: State, id: int, limbo: set<int>)
    requires Core(sw, limbo) && id in sw.info && id !in limbo && sw.info[id].randomPos == |sw.random| - 1
    requires !sw.info[id].inTried && sw.info[id].refCount == 0 && sw.random != []
    ensures Core(RemoveLast(sw, id), limbo)
  {
    hide IdsBelow, AddrIndex, RandomIndex, TriedOk, NewSlotsOk, RefsOk, CountsOk, LimboOk;
    var r := RemoveLast(sw, id);
    NoRefs(sw.info, sw.newTable, id);
    IdsBelowShrink(sw.info, sw.idCount, id);
    AddrIndexRemove(sw.info, sw.addrIds, id);
    RandomIndexPop(sw.info, sw.random, id);
    LimboSame(sw.info, r.info, limbo);
    CountsRemove(sw.info, CountersOf(sw), limbo, id, CountersOf(r));
    TablesRemove(sw.env, sw.key, sw.info, sw.newTable, sw.tried, id);
  }

  // ---------------------------------------- primitives that change one entry in place

  lemma EntryIndex(st: State, id: int, e: AddrInfo)
    requires Index(st) && id in st.info
    requires e.addr.service == st.info[id].addr.service && e.randomPos == st.info[id].randomPos
    ensures Index(st.(info := st.info[id := e]))
  {
    var info' := st.info[id := e];
    assert IdsBelow(info', st.idCount);
    assert AddrIndex(info', st.addrIds) by {
      hide RandomIndex, IdsBelow;
      forall a | a in st.addrIds ensures st.addrIds[a] in info' && info'[st.addrIds[a]].addr.service == a {
        var x := st.addrIds[a];
        assert x in st.info;
      }
    }
    hide AddrIndex, IdsBelow;
    RandomIndexSame(st.info, info', st.random);
  }

  lemma SlotsOfInsert(table: map<Slot, int>, s: Slot, id: int, x: int)
    requires s !in table
    ensures SlotsOf(table[s := id], x) == SlotsOf(table, x) + (if x == id then {s} else {})
    ensures s !in SlotsOf(table, x)
  {
  }

  lemma SlotsOfRemove(table: map<Slot, int>, s: Slot, x: int)
    requires s in table
    ensures SlotsOf(table - {s}, x) == SlotsOf(table, x) - {s}
    ensures s in SlotsOf(table, x) <==> x == table[s]
  {
  }

  /** A change to a new entry leaves the tried table right. */
  lemma TriedStays(env: Env, key: nat, info: map<int, AddrInfo>, tried: map<Slot, int>, id: int, e: AddrInfo)
    requires TriedOk(env, key, info, tried) && id in info && !info[id].inTried && !e.inTried
    ensures TriedOk(env, key, info[id := e], tried)
  {
    forall s | s in tried ensures tried[s] != id {
      var x := tried[s];
      assert x in info && info[x].inTried;
    }
  }

  lemma NewSlotsStay(env: Env, key: nat, info: map<int, AddrInfo>, table: map<Slot, int>, id: int, e: AddrInfo)
    requires NewSlotsOk(env, key, info, table) && id in info
    requires e.addr.service == info[id].addr.service && e.inTried == info[id].inTried
    ensures NewSlotsOk(env, key, info[id := e], table)
  {
    var info' := info[id := e];
    forall s | s in table
      ensures table[s] in info' && !info'[table[s]].inTried
      ensures s == NewSlotIn(env, key, info'[table[s]].addr.service, s.bucket)
    {
      var x := table[s];
      assert x in info;
    }
  }

  lemma NewSlotsShrink(env: Env, key: nat, info: map<int, AddrInfo>, table: map<Slot, int>, table': map<Slot, int>)
    requires NewSlotsOk(env, key, info, table)
    requires forall s | s in table' :: s in table && table'[s] == table[s]
    ensures NewSlotsOk(env, key, info, table')
  {
  }

  lemma RefsInsert(info: map<int, AddrInfo>, table: map<Slot, int>, s: Slot, id: int, e: AddrInfo)
    requires RefsOk(info, table) && s !in table && id in info && !info[id].inTried && !e.inTried
    requires e.refCount == info[id].refCount + 1 <= NEW_BUCKETS_PER_ADDRESS
    ensures RefsOk(info[id := e], table[s := id])
  {
    var info' := info[id := e];
    forall x | x in info' && !info'[x].inTried
      ensures info'[x].refCount == |SlotsOf(table[s := id], x)| <= NEW_BUCKETS_PER_ADDRESS
    {
      SlotsOfInsert(table, s, id, x);
      hide SlotsOf;
    }
  }

  lemma RefsDrop(info: map<int, AddrInfo>, table: map<Slot, int>, s: Slot, e: AddrInfo)
    requires RefsOk(info, table) && s in table && table[s] in info && !info[table[s]].inTried && !e.inTried
    requires e.refCount == info[table[s]].refCount - 1
    ensures RefsOk(info[table[s] := e], table - {s})
    ensures info[table[s]].refCount > 0
  {
    var id := table[s];
    SlotsOfRemove(table, s, id);
    var info' := info[id := e];
    forall x | x in info' && !info'[x].inTried
      ensures info'[x].refCount == |SlotsOf(table - {s}, x)| <= NEW_BUCKETS_PER_ADDRESS
    {
      SlotsOfRemove(table, s, x);
      hide SlotsOf;
      assert s !in SlotsOf(table, x) ==> SlotsOf(table, x) - {s} == SlotsOf(table, x);
    }
  }

  lemma RefsRemove(info: map<int, AddrInfo>, table: map<Slot, int>, id: int, e: AddrInfo)
    requires RefsOk(info, table) && e.refCount == 0
    ensures RefsOk(info[id := e], map s | s in table && table[s] != id :: table[s])
  {
    var info', table' := info[id := e], map s | s in table && table[s] != id :: table[s];
    forall x | x in info' && !info'[x].inTried
      ensures info'[x].refCount == |SlotsOf(table', x)| <= NEW_BUCKETS_PER_ADDRESS
    {
      assert SlotsOf(table', x) == if x == id then {} else SlotsOf(table, x);
    }
  }

  lemma UnrefKeeps(st: State, s: Slot, limbo: set<int>)
    requires Core(st, limbo) && s in st.newTable
    ensures Core(Unref(st, s), limbo)
    ensures st.newTable[s] !in limbo && st.info[st.newTable[s]].refCount > 0
  {
    hide IdsBelow, AddrIndex, RandomIndex, TriedOk, NewSlotsOk, RefsOk, CountsOk, LimboOk;
    var id := st.newTable[s];
    NewEntry(st.env, st.key, st.info, st.newTable, s);
    var r := Unref(st, s);
    RefsDrop(st.info, st.newTable, s, r.info[id]);
    NotLimbo(st.info, limbo, id);
    LimboSame(st.info, r.info, limbo);
    CountsUpdate(st.info, CountersOf(st), limbo, id, r.info[id], CountersOf(r), limbo);
    TriedStays(st.env, st.key, st.info, st.tried, id, r.info[id]);
    NewSlotsStay(st.env, st.key, st.info, st.newTable, id, r.info[id]);
    NewSlotsShrink(st.env, st.key, r.info, st.newTable, r.newTable);
  }

  /** Clearing a slot touches no entry but the one in it, and no other slot. */
  ghost predicate ClearFrame(st: State, s: Slot, r: State) {
    && r == st.(info := r.info, newTable := st.newTable - {s}, addrIds := r.addrIds, random := r.random,
                nNew := r.nNew, counts := r.counts)
    && (forall x {:trigger x in r.info} {:trigger x in st.info} :: x in r.info ==> x in st.info)
    && (forall x {:trigger st.info[x]} {:trigger r.info[x]} | x in st.info
       && !(s in st.newTable && st.newTable[s] == x) ::
          x in r.info && r.info[x] == st.info[x].(randomPos := r.info[x].randomPos))
    && (s in st.newTable && st.newTable[s] in r.info ==>
          && var id := st.newTable[s];
             r.info[id] == st.info[id].(randomPos := r.info[id].randomPos, refCount := st.info[id].refCount - 1)
             && r.info[id].refCount > 0)
  }

  lemma ClearFrameDeleted(st: State, s: Slot, r: State)
    requires s in st.newTable && st.newTable[s] in st.info
    requires r == st.(info := r.info, newTable := st.newTable - {s}, addrIds := r.addrIds, random := r.random,
                      nNew := r.nNew, counts := r.counts)
    requires Moved(st.info - {st.newTable[s]}, r.info)
    ensures ClearFrame(st, s, r)
  {
    var id := st.newTable[s];
    assert id !in r.info;
  }

  lemma ClearNewKeeps(st: State, s: Slot, limbo: set<int>)
    requires Core(st, limbo)
    ensures Core(ClearNew(st, s), limbo)
    ensures ClearFrame(st, s, ClearNew(st, s))
    ensures s in st.newTable ==>
              var id := st.newTable[s];
              id in st.info && (id !in ClearNew(st, s).info <==> st.info[id].refCount == 1)
  {
    if s in st.newTable {
      hide IdsBelow, AddrIndex, RandomIndex, TriedOk, NewSlotsOk, RefsOk, CountsOk, LimboOk;
      NewEntry(st.env, st.key, st.info, st.newTable, s);
      UnrefKeeps(st, s, limbo);
      hide Tables;
      var cleared := Unref(st, s);
      if cleared.info[st.newTable[s]].refCount == 0 {
        DeleteKeeps(cleared, st.newTable[s], limbo);
        ClearFrameDeleted(st, s, ClearNew(st, s));
      } else {
        hide Core;
      }
    } else {
      hide Core;
      assert st.newTable == st.newTable - {s};
    }
  }

  lemma RemoveNewKeeps(st: State, id: int, limbo: set<int>)
    requires Core(st, limbo) && id in st.info && !st.info[id].inTried && id !in limbo
    ensures Core(RemoveNew(st, id), limbo)
  {
    hide IdsBelow, AddrIndex, RandomIndex, TriedOk, NewSlotsOk, RefsOk, CountsOk, LimboOk;
    var r := RemoveNew(st, id);
    EntryIndex(st, id, r.info[id]);
    LimboSame(st.info, r.info, limbo);
    RefsRemove(st.info, st.newTable, id, r.info[id]);
    CountsUpdate(st.info, CountersOf(st), limbo, id, r.info[id], CountersOf(r), limbo);
    TriedStays(st.env, st.key, st.info, st.tried, id, r.info[id]);
    NewSlotsStay(st.env, st.key, st.info, st.newTable, id, r.info[id]);
    NewSlotsShrink(st.env, st.key, r.info, st.newTable, r.newTable);
  }

  lemma UncountNewKeeps(st: State, id: int, limbo: set<int>)
    requires Core(st, limbo) && id in st.info && id !in limbo
    requires !st.info[id].inTried && st.info[id].refCount == 0
    ensures Core(UncountNew(st, id), limbo + {id})
  {
    hide IdsBelow, AddrIndex, RandomIndex, TriedOk, NewSlotsOk, RefsOk, CountsOk, LimboOk;
    var r := UncountNew(st, id);
    LimboGrow(st.info, limbo, id);
    CountsUpdate(st.info, CountersOf(st), limbo, id, st.info[id], CountersOf(r), limbo + {id});
    assert st.info[id := st.info[id]] == st.info;
  }

  lemma UncountTriedKeeps(st: State, s: Slot, limbo: set<int>)
    requires Core(st, limbo) && s in st.tried
    ensures Core(UncountTried(st, s), limbo + {st.tried[s]})
  {
    hide IdsBelow, AddrIndex, RandomIndex, TriedOk, NewSlotsOk, RefsOk, CountsOk, LimboOk;
    var id := st.tried[s];
    TriedEntry(st.env, st.key, st.info, st.tried, s);
    var r := UncountTried(st, s);
    var e := r.info[id];
    NotLimbo(st.info, limbo, id);
    EntryIndex(st, id, e);
    NoSlots(st.env, st.key, st.info, st.newTable, id);
    LimboSame(st.info, r.info, limbo);
    LimboGrow(r.info, limbo, id);
    CountsUpdate(st.info, CountersOf(st), limbo, id, e, CountersOf(r), limbo + {id});
    RefsUnplaced(st.info, st.newTable, id, e);
    NewSlotsUnplaced(st.env, st.key, st.info, st.newTable, id, e);
    TriedRemove(st.env, st.key, st.info, st.tried, s, e);
  }

  lemma RefsUnplaced(info: map<int, AddrInfo>, table: map<Slot, int>, id: int, e: AddrInfo)
    requires RefsOk(info, table) && SlotsOf(table, id) == {} && e.refCount == 0
    ensures RefsOk(info[id := e], table)
  {
  }

  lemma NewSlotsUnplaced(env: Env, key: nat, info: map<int, AddrInfo>, table: map<Slot, int>, id: int, e: AddrInfo)
    requires NewSlotsOk(env, key, info, table) && SlotsOf(table, id) == {}
    ensures NewSlotsOk(env, key, info[id := e], table)
  {
    forall s | s in table ensures table[s] != id {
      assert s !in SlotsOf(table, id);
    }
  }

  lemma TriedRemove(env: Env, key: nat, info: map<int, AddrInfo>, tried: map<Slot, int>, s: Slot, e: AddrInfo)
    requires TriedOk(env, key, info, tried) && s in tried && !e.inTried
    ensures TriedOk(env, key, info[tried[s] := e], tried - {s})
  {
    var id := tried[s];
    assert id in info && info[id].inTried;
    forall x | x in tried && x != s ensures tried[x] != id {
      var y := tried[x];
      assert y in info && info[y].inTried;
    }
  }

  lemma NewSlotsInsert(env: Env, key: nat, info: map<int, AddrInfo>, table: map<Slot, int>, s: Slot, id: int)
    requires NewSlotsOk(env, key, info, table) && id in info && !info[id].inTried
    requires 0 <= s.bucket < NEW_BUCKET_COUNT && s == NewSlotIn(env, key, info[id].addr.service, s.bucket)
    ensures NewSlotsOk(env, key, info, table[s := id])
  {
  }

  lemma PlaceNewKeeps(st: State, id: int, s: Slot, limbo: set<int>)
    requires Core(st, limbo + {id}) && id !in limbo && id in st.info && s !in st.newTable
    requires 0 <= s.bucket < NEW_BUCKET_COUNT
    requires s == NewSlotIn(st.env, st.key, st.info[id].addr.service, s.bucket)
    ensures Core(PlaceNew(st, id, s), limbo)
  {
    hide IdsBelow, AddrIndex, RandomIndex, TriedOk, NewSlotsOk, RefsOk, CountsOk, LimboOk;
    var r := PlaceNew(st, id, s);
    var e := r.info[id];
    LimboEntry(st.info, limbo + {id}, id);
    EntryIndex(st, id, e);
    LimboShrink(st.info, limbo, id, e);
    CountsUpdate(st.info, CountersOf(st), limbo + {id}, id, e, CountersOf(r), limbo);
    RefsInsert(st.info, st.newTable, s, id, e);
    TriedStays(st.env, st.key, st.info, st.tried, id, e);
    NewSlotsStay(st.env, st.key, st.info, st.newTable, id, e);
    NewSlotsInsert(st.env, st.key, r.info, st.newTable, s, id);
  }

  lemma PlaceTriedKeeps(st: State, id: int, s: Slot)
    requires Core(st, {id}) && id in st.info && s !in st.tried
    requires s == TriedSlot(st.env, st.key, st.info[id].addr.service)
    ensures Core(PlaceTried(st, id, s), {})
  {
    hide IdsBelow, AddrIndex, RandomIndex, TriedOk, NewSlotsOk, RefsOk, CountsOk, LimboOk;
    var r := PlaceTried(st, id, s);
    var e := r.info[id];
    LimboEntry(st.info, {id}, id);
    EntryIndex(st, id, e);
    CountsUpdate(st.info, CountersOf(st), {id}, id, e, CountersOf(r), {});
    NoRefs(st.info, st.newTable, id);
    RefsUnplaced(st.info, st.newTable, id, e);
    NewSlotsUnplaced(st.env, st.key, st.info, st.newTable, id, e);
    TriedInsert(st.env, st.key, st.info, st.tried, s, id, e);
    NoLimbo(r.info);
  }

  lemma TriedInsert(env: Env, key: nat, info: map<int, AddrInfo>, tried: map<Slot, int>, s: Slot, id: int, e: AddrInfo)
    requires TriedOk(env, key, info, tried) && s !in tried && id in info && !info[id].inTried
    requires e.inTried && e.refCount == 0 && s == TriedSlot(env, key, e.addr.service)
    ensures TriedOk(env, key, info[id := e], tried[s := id])
  {
    forall x | x in tried ensures tried[x] != id {
      var y := tried[x];
      assert y in info && info[y].inTried;
    }
  }

  /** Updating an entry's statistics keeps everything. */
  lemma UpdateKeeps(st: State, id: int, e: AddrInfo, limbo: set<int>)
    requires Core(st, limbo) && id in st.info
    requires Alike(st.info[id], e) && e.randomPos == st.info[id].randomPos
    ensures Core(st.(info := st.info[id := e]), limbo)
  {
    var r := st.(info := st.info[id := e]);
    EntryIndex(st, id, e);
    hide IdsBelow, AddrIndex, RandomIndex, Tables;
    StaticTables(st, r, limbo);
  }
}
