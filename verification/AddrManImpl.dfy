/** `AddrManImpl` as it works in place, each method tied to the operation on the whole state. */
module AddrManImpl {
  import opened Collections
  import opened AddrTypes
  import opened AddrInvariant
  import opened AddrTables
  import T = AddrTables
  import O = AddrOps
  import R = AddrRuns

  /** The occupied positions of a bucket table. */
  ghost function SlotMap(a: array2<int>): map<Slot, int>
    reads a
  {
    map s | s in (set b, p | 0 <= b < a.Length0 && 0 <= p < a.Length1 :: Slot(b, p)) && a[s.bucket, s.pos] != -1 ::
      a[s.bucket, s.pos]
  }

  lemma SlotMapAt(a: array2<int>, s: Slot)
    requires 0 <= s.bucket < a.Length0 && 0 <= s.pos < a.Length1
    ensures s in SlotMap(a) <==> a[s.bucket, s.pos] != -1
    ensures s in SlotMap(a) ==> SlotMap(a)[s] == a[s.bucket, s.pos]
  {
    assert s == Slot(s.bucket, s.pos);
  }

  method Put(a: array2<int>, s: Slot, id: int)
    requires 0 <= s.bucket < a.Length0 && 0 <= s.pos < a.Length1
    modifies a
    ensures id != -1 ==> SlotMap(a) == old(SlotMap(a))[s := id]
    ensures id == -1 ==> SlotMap(a) == old(SlotMap(a)) - {s}
  {
    a[s.bucket, s.pos] := id;
    assert s == Slot(s.bucket, s.pos);
    if id != -1 {
      assert SlotMap(a) == old(SlotMap(a))[s := id];
    } else {
      assert SlotMap(a) == old(SlotMap(a)) - {s};
    }
  }

  class AddrMan {
    const env: Env
    var nKey: nat
    var nIdCount: int
    var mapInfo: map<int, AddrInfo>
    var mapAddr: map<Service, int>
    var vRandom: seq<int>
    var nTried: int
    const vvTried: array2<int>
    var nNew: int
    const vvNew: array2<int>
    var lastGood: int
    var triedCollisions: set<int>
    var networkCounts: map<nat, Count>

    ghost predicate Shape()
      reads this
    {
      && vvTried.Length0 == TRIED_BUCKET_COUNT && vvTried.Length1 == BUCKET_SIZE
      && vvNew.Length0 == NEW_BUCKET_COUNT && vvNew.Length1 == BUCKET_SIZE
      && vvTried != vvNew
    }

    ghost function Model(): State
      reads this, vvTried, vvNew
    {
      State(env, nKey, nIdCount, mapInfo, mapAddr, vRandom, nTried, SlotMap(vvTried), nNew, SlotMap(vvNew),
            lastGood, triedCollisions, networkCounts)
    }

    ghost predicate Valid()
      reads this, vvTried, vvNew
    {
      Shape() && Struct(Model())
    }

    constructor (env: Env, key: nat)
      requires key != 0
      ensures Valid() && Model() == EmptyState(env, key) && fresh(vvTried) && fresh(vvNew)
    {
      this.env := env;
      nKey, nIdCount, mapInfo, mapAddr, vRandom := key, 0, map[], map[], [];
      nTried, nNew, lastGood, triedCollisions, networkCounts := 0, 0, 1, {}, map[];
      vvTried := new int[TRIED_BUCKET_COUNT, BUCKET_SIZE]((_, _) => -1);
      vvNew := new int[NEW_BUCKET_COUNT, BUCKET_SIZE]((_, _) => -1);
      new;
      assert SlotMap(vvTried) == map[];
      assert SlotMap(vvNew) == map[];
      EmptyInv(env, key);
    }

    method SwapRandom(p: int, q: int)
      requires 0 <= p < |vRandom| && 0 <= q < |vRandom| && RandomIndex(mapInfo, vRandom)
      modifies this`mapInfo, this`vRandom
      ensures Model() == T.SwapRandom(old(Model()), p, q)
    {
      if p == q {
        return;
      }
      var id1, id2 := vRandom[p], vRandom[q];
      assert id1 in mapInfo && id2 in mapInfo;
      hide RandomIndex;
      mapInfo := mapInfo[id1 := mapInfo[id1].(randomPos := q)];
      mapInfo := mapInfo[id2 := mapInfo[id2].(randomPos := p)];
      vRandom := vRandom[p := id2];
      vRandom := vRandom[q := id1];
    }

    method Create(addr: Address, source: NetAddr) returns (id: int)
      modifies this
      ensures id == old(nIdCount) && Model() == T.Create(old(Model()), addr, source)
    {
      hide SlotMap, BumpNew, FreshInfo;
      id := nIdCount;
      nIdCount, mapInfo, mapAddr, vRandom, nNew, networkCounts :=
        nIdCount + 1,
        mapInfo[id := FreshInfo(addr, source, |vRandom|)],
        mapAddr[addr.service := id],
        vRandom + [id],
        nNew + 1,
        BumpNew(networkCounts, addr.service.ip.network, 1);
    }

    method Delete(id: int)
      requires Index(Model()) && id in mapInfo && !mapInfo[id].inTried && mapInfo[id].refCount == 0
      modifies this
      ensures Model() == T.Delete(old(Model()), id)
    {
      hide SlotMap, IdsBelow, AddrIndex, T.RemoveLast;
      var p := mapInfo[id].randomPos;
      SwapRandom(p, |vRandom| - 1);
      hide RandomIndex;
      RemoveLast(id);
    }

    method RemoveLast(id: int)
      requires id in mapInfo && vRandom != []
      modifies this
      ensures Model() == T.RemoveLast(old(Model()), id)
    {
      hide SlotMap, BumpNew;
      var info := mapInfo[id];
      networkCounts, vRandom, mapAddr, mapInfo, nNew :=
        BumpNew(networkCounts, info.Network(), -1),
        vRandom[..|vRandom| - 1],
        mapAddr - {info.addr.service},
        mapInfo - {id},
        nNew - 1;
    }

    method ClearNew(s: Slot, ghost limbo: set<int>)
      requires Shape() && Core(Model(), limbo)
      requires 0 <= s.bucket < NEW_BUCKET_COUNT && 0 <= s.pos < BUCKET_SIZE
      modifies this, vvNew
      ensures Model() == T.ClearNew(old(Model()), s) && vvNew[s.bucket, s.pos] == -1
    {
      SlotMapAt(vvNew, s);
      if vvNew[s.bucket, s.pos] != -1 {
        ghost var st := Model();
        var id := vvNew[s.bucket, s.pos];
        UnrefKeeps(st, s, limbo);
        NewEntry(st.env, st.key, st.info, st.newTable, s);
        hide IdsBelow, AddrIndex, RandomIndex, Tables, SlotMap;
        assert mapInfo[id].refCount > 0;
        mapInfo := mapInfo[id := mapInfo[id].(refCount := mapInfo[id].refCount - 1)];
        Put(vvNew, s, -1);
        assert Model() == T.Unref(st, s);
        if mapInfo[id].refCount == 0 {
          Delete(id);
        }
        SlotMapAt(vvNew, s);
      }
    }

    /** Clears one new slot if the entry is in it. */
    method TakeRef(id: int, s: Slot) returns (taken: bool)
      requires Shape() && id in mapInfo && id != -1
      requires 0 <= s.bucket < NEW_BUCKET_COUNT && 0 <= s.pos < BUCKET_SIZE
      modifies this`mapInfo, vvNew
      ensures Model() == RefTaken(old(Model()), id, s)
      ensures taken <==> s in old(Model()).newTable && old(Model()).newTable[s] == id
    {
      SlotMapAt(vvNew, s);
      hide SlotMap, BumpNew, FreshInfo;
      taken := vvNew[s.bucket, s.pos] == id;
      if taken {
        Put(vvNew, s, -1);
        mapInfo := mapInfo[id := mapInfo[id].(refCount := mapInfo[id].refCount - 1)];
      }
    }

    /** Clears every new slot of an entry, walking the buckets from its own one and stopping as soon as
        no reference is left. */
    method RemoveFromNew(id: int)
      requires Shape() && Core(Model(), {}) && id in mapInfo && !mapInfo[id].inTried
      modifies this`mapInfo, vvNew
      ensures Model() == T.RemoveNew(old(Model()), id)
    {
      hide Core, SlotMap, WithoutVisited, RefTaken;
      ghost var st := Model();
      var info := mapInfo[id];
      var start := NewBucket(env, nKey, info.addr.service, info.source);
      var n := 0;
      IdIsNatural(st, id);
      Unvisited(st, id, start);
      while n < NEW_BUCKET_COUNT
        invariant 0 <= n <= NEW_BUCKET_COUNT
        invariant Model() == WithoutVisited(st, id, start, n)
        invariant id in mapInfo
      {
        var bucket := (start + n) % NEW_BUCKET_COUNT;
        VisitBucket(st, id, start, n);
        var taken := TakeRef(id, NewSlotIn(env, nKey, info.addr.service, bucket));
        n := n + 1;
        VisitedEntry(st, id, start, n);
        if taken && mapInfo[id].refCount == 0 {
          break;
        }
      }
      AllVisited(st, id, start, n);
    }

    method UncountNew(id: int)
      requires id in mapInfo
      modifies this`nNew, this`networkCounts
      ensures Model() == T.UncountNew(old(Model()), id)
    {
      hide SlotMap, BumpNew;
      nNew, networkCounts := nNew - 1, BumpNew(networkCounts, mapInfo[id].Network(), -1);
    }

    method UncountTried(s: Slot)
      requires Shape() && s in Model().tried && Model().tried[s] in mapInfo
      requires 0 <= s.bucket < TRIED_BUCKET_COUNT && 0 <= s.pos < BUCKET_SIZE
      modifies this`mapInfo, this`nTried, this`networkCounts, vvTried
      ensures Model() == T.UncountTried(old(Model()), s)
    {
      SlotMapAt(vvTried, s);
      hide SlotMap, BumpTried;
      var id := vvTried[s.bucket, s.pos];
      mapInfo := mapInfo[id := mapInfo[id].(inTried := false)];
      Put(vvTried, s, -1);
      nTried, networkCounts := nTried - 1, BumpTried(networkCounts, mapInfo[id].Network(), -1);
    }

    method PlaceNew(id: int, s: Slot)
      requires Shape() && id in mapInfo && id >= 0
      requires 0 <= s.bucket < NEW_BUCKET_COUNT && 0 <= s.pos < BUCKET_SIZE
      modifies this`mapInfo, this`nNew, this`networkCounts, vvNew
      ensures Model() == T.PlaceNew(old(Model()), id, s)
    {
      hide SlotMap, BumpNew;
      mapInfo := mapInfo[id := mapInfo[id].(refCount := 1)];
      Put(vvNew, s, id);
      nNew, networkCounts := nNew + 1, BumpNew(networkCounts, mapInfo[id].Network(), 1);
    }

    method PlaceTried(id: int, s: Slot)
      requires Shape() && id in mapInfo && id >= 0
      requires 0 <= s.bucket < TRIED_BUCKET_COUNT && 0 <= s.pos < BUCKET_SIZE
      modifies this`mapInfo, this`nTried, this`networkCounts, vvTried
      ensures Model() == T.PlaceTried(old(Model()), id, s)
    {
      hide SlotMap, BumpTried;
      Put(vvTried, s, id);
      nTried, mapInfo := nTried + 1, mapInfo[id := mapInfo[id].(inTried := true)];
      networkCounts := BumpTried(networkCounts, mapInfo[id].Network(), 1);
    }

    /** Moves the tried entry in `s` back to the new table, deleting whatever is in its place there. */
    method Evict(s: Slot, ghost limbo: set<int>)
      requires Shape() && Core(Model(), limbo) && s in Model().tried
      requires 0 <= s.bucket < TRIED_BUCKET_COUNT && 0 <= s.pos < BUCKET_SIZE
      modifies this, vvNew, vvTried
      ensures Model() == O.Evict(old(Model()), s, limbo)
    {
      SlotMapAt(vvTried, s);
      ghost var st := Model();
      hide IdsBelow, AddrIndex, RandomIndex, Tables, SlotMap;
      var id := vvTried[s.bucket, s.pos];
      TriedCoreEntry(st, limbo, s);
      assert id in mapInfo;
      UncountTriedKeeps(st, s, limbo);
      UncountTried(s);
      ghost var u := Model();
      var home := NewSlot(env, nKey, mapInfo[id].addr.service, mapInfo[id].source);
      assert home == NewSlot(st.env, st.key, st.info[id].addr.service, st.info[id].source);
      hide T.UncountTried, T.ClearNew, T.PlaceNew, NewSlot;
      ClearNewKeeps(u, home, limbo + {id});
      ClearNew(home, limbo + {id});
      assert vvNew[home.bucket, home.pos] == -1;
      hide ClearFrame, Core;
      LimboCoreEntry(Model(), limbo + {id}, id);
      PlaceNew(id, home);
    }

    method MakeTried(id: int)
      requires Shape() && Core(Model(), {}) && id in mapInfo && !mapInfo[id].inTried
      modifies this, vvNew, vvTried
      ensures Model() == O.MakeTried(old(Model()), id)
    {
      ghost var st := Model();
      hide IdsBelow, AddrIndex, RandomIndex, Tables, SlotMap;
      IdIsNatural(st, id);
      RemoveNewKeeps(st, id, {});
      UncountNewKeeps(T.RemoveNew(st, id), id, {});
      var s := TriedSlot(env, nKey, mapInfo[id].addr.service);
      RemoveFromNew(id);
      UncountNew(id);
      assert mapInfo[id].refCount == 0;
      ghost var out := Model();
      SlotMapAt(vvTried, s);
      hide T.RemoveNew, T.UncountNew, T.PlaceTried, O.Evict, Core, TriedSlot;
      if vvTried[s.bucket, s.pos] != -1 {
        O.EvictKeeps(out, s, {} + {id});
        Evict(s, {} + {id});
        SlotMapAt(vvTried, s);
        assert vvTried[s.bucket, s.pos] == -1;
      }
      PlaceTried(id, s);
    }

    method AddRef(id: int, s: Slot)
      requires Shape() && id in mapInfo && id >= 0
      requires 0 <= s.bucket < NEW_BUCKET_COUNT && 0 <= s.pos < BUCKET_SIZE
      modifies this`mapInfo, vvNew
      ensures Model() == O.AddRef(old(Model()), id, s)
    {
      hide SlotMap;
      mapInfo := mapInfo[id := mapInfo[id].(refCount := mapInfo[id].refCount + 1)];
      Put(vvNew, s, id);
    }

    /** The second half of `AddSingle`: a reference from the bucket that `source` selects. */
    method Insert(id: int, source: NetAddr, now: int) returns (inserted: bool)
      requires Shape() && Core(Model(), {}) && id in mapInfo && !mapInfo[id].inTried
      modifies this, vvNew
      ensures (Model(), inserted) == O.Insert(old(Model()), id, source, now)
    {
      ghost var st := Model();
      IdIsNatural(st, id);
      var s := NewSlot(env, nKey, mapInfo[id].addr.service, source);
      SlotMapAt(vvNew, s);
      hide SlotMap, IdsBelow, AddrIndex, RandomIndex, Tables;
      var held := vvNew[s.bucket, s.pos];
      inserted := held == -1;
      if held != id {
        if !inserted {
          NewCoreEntry(st, s);
          inserted := mapInfo[held].IsTerrible(now) || (mapInfo[held].refCount > 1 && mapInfo[id].refCount == 0);
        }
        if inserted {
          ClearNewKeeps(st, s, {});
          ClearNew(s, {});
          hide Core, T.ClearNew, O.AddRef;
          AddRef(id, s);
        } else if mapInfo[id].refCount == 0 {
          Delete(id);
        }
      }
    }

    method SetEntry(id: int, e: AddrInfo)
      modifies this`mapInfo
      ensures Model() == old(Model()).(info := old(mapInfo)[id := e])
    {
      hide SlotMap;
      mapInfo := mapInfo[id := e];
    }

    method AddKnown(addr: Address, source: NetAddr, penalty: int, d: O.Draw) returns (inserted: bool)
      requires Valid() && addr.service in mapAddr
      modifies this, vvNew
      ensures (Model(), inserted) == O.AddKnown(old(Model()), addr, source, penalty, d)
    {
      ghost var st := Model();
      hide SlotMap, IdsBelow, AddrIndex, RandomIndex, Tables, O.Refresh, O.Insert;
      var id := mapAddr[addr.service];
      O.KnownEntry(st, addr.service);
      O.RefreshAlike(mapInfo[id], addr, penalty, d.onlineNow);
      var e := O.Refresh(mapInfo[id], addr, penalty, d.onlineNow);
      UpdateKeeps(st, id, e, {});
      hide Core, Alike;
      SetEntry(id, e);
      if addr.nTime <= e.addr.nTime {
        return false;
      }
      if e.inTried {
        return false;
      }
      if e.refCount == NEW_BUCKETS_PER_ADDRESS {
        return false;
      }
      if e.refCount > 0 && !d.lucky {
        return false;
      }
      inserted := Insert(id, source, d.terribleNow);
    }

    method AddUnknown(addr: Address, source: NetAddr, penalty: int, now: int) returns (inserted: bool)
      requires Valid() && addr.service !in mapAddr
      modifies this, vvNew
      ensures (Model(), inserted) == O.AddUnknown(old(Model()), addr, source, penalty, now)
    {
      ghost var st := Model();
      hide SlotMap, IdsBelow, AddrIndex, RandomIndex, Tables, O.Insert;
      O.AddNewKeeps(st, addr, source, penalty);
      hide Core;
      O.AddNewEntry(st, addr, source, penalty);
      var id := Create(addr, source);
      SetEntry(id, mapInfo[id].(addr := mapInfo[id].addr.(nTime := Max(0, mapInfo[id].addr.nTime - penalty))));
      assert Model() == O.AddNew(st, addr, source, penalty);
      hide T.Create, O.AddNew;
      inserted := Insert(id, source, now);
    }

    method AddSingle(addr: Address, source: NetAddr, timePenalty: int, d: O.Draw) returns (inserted: bool)
      requires Valid()
      modifies this, vvNew
      ensures Valid() && (Model(), inserted) == O.AddSingle(old(Model()), addr, source, timePenalty, d)
    {
      O.AddSingleKeeps(Model(), addr, source, timePenalty, d);
      hide SlotMap, Struct, O.AddKnown, O.AddUnknown;
      if !env.routable(addr.service.ip) {
        return false;
      }
      var penalty := if addr.service.ip == source then 0 else timePenalty;
      if addr.service in mapAddr {
        inserted := AddKnown(addr, source, penalty, d);
      } else {
        inserted := AddUnknown(addr, source, penalty, d.terribleNow);
      }
    }

    method Add(addrs: seq<(Address, O.Draw)>, source: NetAddr, penalty: int) returns (any: bool)
      requires Valid()
      modifies this, vvNew
      ensures Valid() && Model() == R.AddAll(old(Model()), addrs, source, penalty)
      ensures any == (R.AddedCount(old(Model()), addrs, source, penalty) > 0)
    {
      ghost var st := Model();
      var added, i := 0, 0;
      hide SlotMap, Struct, O.AddSingle;
      while i < |addrs|
        invariant 0 <= i <= |addrs| && Valid()
        invariant R.AddAll(Model(), addrs[i..], source, penalty) == R.AddAll(st, addrs, source, penalty)
        invariant added + R.AddedCount(Model(), addrs[i..], source, penalty) == R.AddedCount(st, addrs, source, penalty)
      {
        assert addrs[i..][0] == addrs[i] && addrs[i..][1..] == addrs[i + 1..];
        var inserted := AddSingle(addrs[i].0, source, penalty, addrs[i].1);
        added := added + if inserted then 1 else 0;
        i := i + 1;
      }
      any := added > 0;
    }

    method Succeed(id: int, time: int)
      requires id in mapInfo
      modifies this`lastGood, this`mapInfo
      ensures Model() == R.Succeed(old(Model()), id, time)
    {
      hide SlotMap;
      lastGood, mapInfo := time, mapInfo[id := mapInfo[id].(lastSuccess := time, lastTry := time, attempts := 0)];
    }

    method SetCollisions(ids: set<int>)
      modifies this`triedCollisions
      ensures Model() == old(Model()).(collisions := ids)
    {
      hide SlotMap;
      triedCollisions := ids;
    }

    method Good(a: Service, testBeforeEvict: bool, time: int) returns (moved: bool)
      requires Valid()
      modifies this, vvNew, vvTried
      ensures Shape() && (Model(), moved) == R.Good(old(Model()), a, testBeforeEvict, time)
    {
      ghost var st := Model();
      hide SlotMap, IdsBelow, AddrIndex, RandomIndex, Tables;
      if a !in mapAddr {
        lastGood := time;
        return false;
      }
      var id := mapAddr[a];
      O.KnownEntry(st, a);
      R.SucceedKeeps(st, id, time);
      Succeed(id, time);
      var s := TriedSlot(env, nKey, a);
      SlotMapAt(vvTried, s);
      hide Core, TriedSlot, O.MakeTried;
      if mapInfo[id].inTried {
        return false;
      }
      if mapInfo[id].refCount <= 0 {
        return false;
      }
      if testBeforeEvict && vvTried[s.bucket, s.pos] != -1 {
        if |triedCollisions| < COLLISION_SET_SIZE {
          SetCollisions(triedCollisions + {id});
        }
        return false;
      }
      MakeTried(id);
      moved := true;
    }

    method Touch(a: Service, f: AddrInfo -> AddrInfo)
      requires Valid()
      modifies this`mapInfo
      ensures Model() == R.Touch(old(Model()), a, f)
    {
      ghost var st := Model();
      hide SlotMap, IdsBelow, AddrIndex, RandomIndex, Tables;
      if a in mapAddr {
        O.KnownEntry(st, a);
        var id := mapAddr[a];
        SetEntry(id, f(mapInfo[id]));
      }
    }

    method Attempt(a: Service, countFailure: bool, time: int)
      requires Valid()
      modifies this`mapInfo
      ensures Valid() && Model() == R.Attempt(old(Model()), a, countFailure, time)
    {
      var f := R.Attempted(lastGood, countFailure, time);
      R.TouchKeeps(Model(), a, f);
      hide SlotMap, Struct, R.Touch;
      Touch(a, f);
    }

    method Connected(a: Service, time: int)
      requires Valid()
      modifies this`mapInfo
      ensures Valid() && Model() == R.Connected(old(Model()), a, time)
    {
      var f := (e: AddrInfo) => if time - e.addr.nTime > 1200 then e.(addr := e.addr.(nTime := time)) else e;
      R.TouchKeeps(Model(), a, f);
      hide SlotMap, Struct, R.Touch;
      Touch(a, f);
    }

    method SetServices(a: Service, services: bv64)
      requires Valid()
      modifies this`mapInfo
      ensures Valid() && Model() == R.SetServices(old(Model()), a, services)
    {
      var f := (e: AddrInfo) => e.(addr := e.addr.(services := services));
      R.TouchKeeps(Model(), a, f);
      hide SlotMap, Struct, R.Touch;
      Touch(a, f);
    }

    method Evicting(id: int, now: int)
      requires Valid() && id in triedCollisions && id in mapInfo
      modifies this, vvNew, vvTried
      ensures Shape()
      ensures Model() ==
              R.Good(old(Model()), old(mapInfo)[id].addr.service, false, now).0
              .(collisions := old(triedCollisions) - {id})
    {
      hide SlotMap, Struct, R.Good;
      var erased := triedCollisions - {id};
      var _ := Good(mapInfo[id].addr.service, false, now);
      SetCollisions(erased);
    }

    method VerdictOn(id: int, now: int) returns (v: R.Verdict)
      requires Valid() && id in triedCollisions
      ensures v == R.VerdictOn(Model(), id, now)
    {
      if id !in mapInfo {
        return R.Drop;
      }
      hide SlotMap, Struct;
      R.CollisionStands(Model(), id);
      var e := mapInfo[id];
      if !env.valid(e.addr.service.ip) {
        return R.Drop;
      }
      var s := TriedSlot(env, nKey, e.addr.service);
      SlotMapAt(vvTried, s);
      // The tried slot of a noted collision is never empty.
      assert vvTried[s.bucket, s.pos] != -1;
      v := R.Settle(e, mapInfo[vvTried[s.bucket, s.pos]], now);
    }

    /** One turn of the loop over the noted collisions. */
    method ResolveOne(id: int, now: int)
      requires Valid() && id in triedCollisions
      modifies this, vvNew, vvTried
      ensures Valid() && Model() == R.ResolveOne(old(Model()), id, now)
    {
      R.ResolveOneKeeps(Model(), id, now);
      var v := VerdictOn(id, now);
      R.ReplaceIsLive(Model(), id, now);
      hide SlotMap, Struct, R.Good, R.VerdictOn;
      match v
      case Drop => SetCollisions(triedCollisions - {id});
      case Replace => Evicting(id, now);
      case Wait =>
    }

    method ResolveCollisions(clock: int -> int)
      requires Valid()
      modifies this, vvNew, vvTried
      ensures Valid() && Model() == R.ResolveFrom(old(Model()), old(triedCollisions), clock)
    {
      ghost var st := Model();
      var todo := triedCollisions;
      hide SlotMap, Struct, R.ResolveOne;
      while todo != {}
        invariant Valid() && todo <= triedCollisions
        invariant R.ResolveFrom(Model(), todo, clock) == R.ResolveFrom(st, st.collisions, clock)
        decreases |todo|
      {
        var id := R.Least(todo);
        R.ResolveOneKeeps(Model(), id, clock(id));
        ResolveOne(id, clock(id));
        todo := todo - {id};
      }
    }

    method SelectTriedCollision(pick: int) returns (r: Option<(Address, int)>)
      requires Valid() && pick in triedCollisions
      modifies this`triedCollisions
      ensures Valid() && (Model(), r) == R.SelectTriedCollision(old(Model()), pick)
    {
      ghost var st := Model();
      R.EraseCollision(st, pick);
      hide SlotMap, Struct;
      if pick !in mapInfo {
        SetCollisions(triedCollisions - {pick});
        return None;
      }
      R.CollisionStands(st, pick);
      var s := TriedSlot(env, nKey, mapInfo[pick].addr.service);
      SlotMapAt(vvTried, s);
      var e := mapInfo[vvTried[s.bucket, s.pos]];
      r := Some((e.addr, e.lastTry));
    }

    method GetAddr(maxAddresses: nat, maxPct: nat, network: Option<nat>, filtered: bool, now: int, draw: nat -> nat)
      returns (found: seq<Address>)
      requires Valid()
      modifies this`mapInfo, this`vRandom
      ensures Valid()
      ensures (Model(), found) ==
              R.GetAddrFrom(old(Model()),
                  R.Query(network, filtered, now, R.Limit(|old(vRandom)|, maxAddresses, maxPct)), 0, [], draw)
    {
      hide SlotMap, Struct, R.GetAddrFrom, R.Limit;
      found := DrawAll(R.Query(network, filtered, now, R.Limit(|vRandom|, maxAddresses, maxPct)), draw);
    }

    method DrawAll(q: R.Query, draw: nat -> nat) returns (found: seq<Address>)
      requires Valid()
      modifies this`mapInfo, this`vRandom
      ensures Valid() && (Model(), found) == R.GetAddrFrom(old(Model()), q, 0, [], draw)
    {
      hide SlotMap, Struct, R.GetAddrFrom, R.DrawOne;
      ghost var st := Model();
      found := [];
      var n := 0;
      while n < |vRandom| && |found| < q.limit
        invariant 0 <= n <= |vRandom| && Valid()
        invariant R.GetAddrFrom(Model(), q, n, found, draw) == R.GetAddrFrom(st, q, 0, [], draw)
      {
        R.GetAddrStep(Model(), q, n, found, draw);
        found := DrawOne(q, n, found, draw);
        n := n + 1;
      }
      R.GetAddrEnd(Model(), q, n, found, draw);
    }

    method DrawOne(q: R.Query, n: nat, found: seq<Address>, draw: nat -> nat) returns (r: seq<Address>)
      requires Valid() && n < |vRandom|
      modifies this`mapInfo, this`vRandom
      ensures (Model(), r) == R.DrawOne(old(Model()), q, n, found, draw)
    {
      ghost var st := Model();
      hide SlotMap, IdsBelow, AddrIndex, Tables;
      var p := n + draw(n) % (|vRandom| - n);
      SwapRandom(n, p);
      R.SwapStruct(st, n, p);
      R.RandomEntries(Model());
      hide RandomIndex, Struct;
      var e := mapInfo[vRandom[n]];
      r := if R.Wanted(env, q, e) then found + [e.addr] else found;
    }
  }

  lemma NewCoreEntry(st: State, s: Slot)
    requires Core(st, {}) && s in st.newTable
    ensures st.newTable[s] in st.info
  {
  }

  lemma TriedCoreEntry(st: State, limbo: set<int>, s: Slot)
    requires Core(st, limbo) && s in st.tried
    ensures st.tried[s] in st.info && st.tried[s] >= 0
  {
    var id := st.tried[s];
    assert id in st.info;
  }

  lemma LimboCoreEntry(st: State, limbo: set<int>, id: int)
    requires Core(st, limbo) && id in limbo
    ensures id in st.info && id >= 0
  {
  }

  ghost function RefTaken(st: State, id: int, s: Slot): State
    requires id in st.info
  {
    if s in st.newTable && st.newTable[s] == id
    then st.(info := st.info[id := st.info[id].(refCount := st.info[id].refCount - 1)], newTable := st.newTable - {s})
    else st
  }

  lemma VisitedEntry(st: State, id: int, start: int, n: int)
    requires id in st.info
    ensures var r := WithoutVisited(st, id, start, n);
            id in r.info && r.env == st.env && r.key == st.key
  {
  }

  /** The new table once `n` buckets from `start` on have been cleared of `id`. */
  ghost function Remaining(table: map<Slot, int>, id: int, start: int, n: int): map<Slot, int> {
    map s | s in table && !(table[s] == id && (s.bucket - start) % NEW_BUCKET_COUNT < n) :: table[s]
  }

  ghost function WithoutVisited(st: State, id: int, start: int, n: int): State
    requires id in st.info
  {
    var table := Remaining(st.newTable, id, start, n);
    st.(info := st.info[id := st.info[id].(refCount := |SlotsOf(table, id)|)], newTable := table)
  }

  lemma Unvisited(st: State, id: int, start: int)
    requires Core(st, {}) && id in st.info && !st.info[id].inTried
    ensures WithoutVisited(st, id, start, 0) == st
  {
    assert Remaining(st.newTable, id, start, 0) == st.newTable;
  }

  /** Clearing the n-th bucket. */
  lemma VisitBucket(st: State, id: int, start: int, n: int)
    requires Core(st, {}) && id in st.info && 0 <= start < NEW_BUCKET_COUNT && 0 <= n < NEW_BUCKET_COUNT
    ensures id in WithoutVisited(st, id, start, n).info
    ensures WithoutVisited(st, id, start, n + 1) ==
            RefTaken(WithoutVisited(st, id, start, n), id,
                     NewSlotIn(st.env, st.key, st.info[id].addr.service, (start + n) % NEW_BUCKET_COUNT))
  {
    hide Core, NewSlotIn, Remaining, SlotsOf;
    OnlyInOwnSlot(st, id, start, n);
    TakenStep(st, id, start, n, NewSlotIn(st.env, st.key, st.info[id].addr.service, (start + n) % NEW_BUCKET_COUNT));
  }

  lemma TakenStep(st: State, id: int, start: int, n: int, s: Slot)
    requires id in st.info
    requires forall x | x in st.newTable && st.newTable[x] == id && (x.bucket - start) % NEW_BUCKET_COUNT == n :: x == s
    requires (s.bucket - start) % NEW_BUCKET_COUNT == n
    ensures WithoutVisited(st, id, start, n + 1) == RefTaken(WithoutVisited(st, id, start, n), id, s)
  {
    hide Remaining, SlotsOf;
    RemainingStep(st.newTable, id, start, n, s);
  }

  /** In the n-th bucket an entry can only be in the position its address has there. */
  lemma OnlyInOwnSlot(st: State, id: int, start: int, n: int)
    requires Core(st, {}) && id in st.info && 0 <= start < NEW_BUCKET_COUNT && 0 <= n < NEW_BUCKET_COUNT
    ensures var s := NewSlotIn(st.env, st.key, st.info[id].addr.service, (start + n) % NEW_BUCKET_COUNT);
            && (s.bucket - start) % NEW_BUCKET_COUNT == n
            && (forall x | x in st.newTable && st.newTable[x] == id
               && (x.bucket - start) % NEW_BUCKET_COUNT == n :: x == s)
  {
    hide IdsBelow, AddrIndex, RandomIndex, TriedOk, NewSlotsOk, RefsOk, CountsOk, LimboOk;
    var bucket := (start + n) % NEW_BUCKET_COUNT;
    BucketAt(start, n, bucket);
    forall x | x in st.newTable && st.newTable[x] == id && (x.bucket - start) % NEW_BUCKET_COUNT == n
      ensures x == NewSlotIn(st.env, st.key, st.info[id].addr.service, bucket)
    {
      OwnSlot(st.env, st.key, st.info, st.newTable, x);
      BucketAt(start, n, x.bucket);
    }
  }

  lemma IdIsNatural(st: State, id: int)
    requires Core(st, {}) && id in st.info
    ensures id >= 0
  {
  }

  lemma RemainingStep(table: map<Slot, int>, id: int, start: int, n: int, s: Slot)
    requires forall x | x in table && table[x] == id && (x.bucket - start) % NEW_BUCKET_COUNT == n :: x == s
    requires (s.bucket - start) % NEW_BUCKET_COUNT == n
    ensures var before, after := Remaining(table, id, start, n), Remaining(table, id, start, n + 1);
            if s in before && before[s] == id
            then after == before - {s} && |SlotsOf(after, id)| == |SlotsOf(before, id)| - 1
            else after == before
  {
    var before, after := Remaining(table, id, start, n), Remaining(table, id, start, n + 1);
    if s in before && before[s] == id {
      assert after == before - {s};
      SlotsOfRemove(before, s, id);
    } else {
      assert after == before;
    }
  }

  lemma OwnSlot(env: Env, key: nat, info: map<int, AddrInfo>, table: map<Slot, int>, s: Slot)
    requires NewSlotsOk(env, key, info, table) && s in table
    ensures 0 <= s.bucket < NEW_BUCKET_COUNT && table[s] in info
    ensures s == NewSlotIn(env, key, info[table[s]].addr.service, s.bucket)
  {
  }

  lemma BucketAt(start: int, n: int, b: int)
    requires 0 <= start < NEW_BUCKET_COUNT && 0 <= n < NEW_BUCKET_COUNT && 0 <= b < NEW_BUCKET_COUNT
    ensures (b - start) % NEW_BUCKET_COUNT == n <==> b == (start + n) % NEW_BUCKET_COUNT
  {
  }

  /** Nothing is left once the walk is complete or the references have run out. */
  lemma AllVisited(st: State, id: int, start: int, n: int)
    requires id in st.info && (n == NEW_BUCKET_COUNT || WithoutVisited(st, id, start, n).info[id].refCount == 0)
    ensures WithoutVisited(st, id, start, n) == T.RemoveNew(st, id)
  {
    var table := Remaining(st.newTable, id, start, n);
    assert SlotsOf(table, id) == {};
    forall s | s in table ensures table[s] != id {
      assert s !in SlotsOf(table, id);
    }
    assert table == T.RemoveNew(st, id).newTable;
  }
}
