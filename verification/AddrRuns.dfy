/** The remaining operations and every run of them. */
module AddrRuns {
  import opened Collections
  import opened AddrTypes
  import opened AddrInvariant
  import opened AddrTables
  import opened AddrOps

  // ----------------------------------------------------------------------- Good

  function Succeed(st: State, id: int, time: int): State
    requires id in st.info
  {
    st.(lastGood := time,
        info := st.info[id := st.info[id].(lastSuccess := time, lastTry := time, attempts := 0)])
  }

  function Good(st: State, a: Service, testBeforeEvict: bool, time: int): (State, bool)
    requires Struct(st)
  {
    if a !in st.addrIds then (st.(lastGood := time), false)
    else
      var id := st.addrIds[a];
      SucceedKeeps(st, id, time);
      var g := Succeed(st, id, time);
      if g.info[id].inTried || g.info[id].refCount <= 0 then (g, false)
      else if testBeforeEvict && TriedSlot(g.env, g.key, a) in g.tried then
        (if |g.collisions| < COLLISION_SET_SIZE then g.(collisions := g.collisions + {id}) else g, false)
      else
        (MakeTried(g, id), true)
  }

  lemma SucceedKeeps(st: State, id: int, time: int)
    requires Struct(st) && id in st.info
    ensures Struct(Succeed(st, id, time))
  {
    hide IdsBelow, AddrIndex, RandomIndex, Tables;
    var g := Succeed(st, id, time);
    UpdateKeeps(st, id, g.info[id], {});
    LastGoodKeeps(st.(info := g.info), time);
    assert Core(g, {});
    StructFrom(st, g);
  }

  lemma LastGoodKeeps(st: State, time: int)
    requires Core(st, {})
    ensures Core(st.(lastGood := time), {})
  {
  }

  /** A successful connection keeps the tables in agreement and never empties a tried slot. */
  lemma GoodKeeps(st: State, a: Service, time: int)
    requires Struct(st)
    ensures Struct(Good(st, a, true, time).0)
    ensures st.tried.Keys <= Good(st, a, true, time).0.tried.Keys
  {
    if a !in st.addrIds {
      LastGoodKeeps(st, time);
      hide Core;
    } else {
      KnownEntry(st, a);
      var id := st.addrIds[a];
      SucceedKeeps(st, id, time);
      var g := Succeed(st, id, time);
      if !g.info[id].inTried && g.info[id].refCount > 0 {
        if TriedSlot(g.env, g.key, a) in g.tried {
          NoteCollision(g, id);
        } else {
          MakeTriedKeeps(g, id);
          hide Core, MakeTried;
          MadeTriedStruct(g, id, MakeTried(g, id), g.collisions);
        }
      }
    }
  }

  lemma NoteCollision(g: State, id: int)
    requires Struct(g) && id in g.info && !g.info[id].inTried
    requires TriedSlot(g.env, g.key, g.info[id].addr.service) in g.tried
    ensures |g.collisions| < COLLISION_SET_SIZE ==> Struct(g.(collisions := g.collisions + {id}))
  {
    assert id < g.idCount;
    CollisionsCore(g, g.collisions + {id});
    hide Core;
  }

  lemma CollisionsCore(g: State, cs: set<int>)
    requires Core(g, {})
    ensures Core(g.(collisions := cs), {})
  {
  }

  /** After a move to tried, any of the old collisions but the moved entry may stay noted. */
  lemma MadeTriedStruct(g: State, id: int, r: State, cs: set<int>)
    requires Struct(g) && id in g.info && Core(r, {}) && MadeTried(g, id, r)
    requires cs <= g.collisions && (id in cs ==> TriedSlot(g.env, g.key, g.info[id].addr.service) !in g.tried)
    ensures Struct(r.(collisions := cs))
    ensures g.tried.Keys <= r.tried.Keys
    ensures r.collisions == g.collisions
  {
    CollisionsCore(r, cs);
    SubsetSize(cs, g.collisions);
    hide Core;
  }

  /** The recorded times stay sane exactly when the caller's clock reading is late enough. */
  lemma GoodTimes(st: State, a: Service, testBeforeEvict: bool, time: int)
    requires Inv(st)
    ensures TimesOk(Good(st, a, testBeforeEvict, time).0.info) <==>
            || time > 0
            || a !in st.addrIds
            || (time == 0 && !st.info[st.addrIds[a]].inTried &&
                testBeforeEvict && TriedSlot(st.env, st.key, a) in st.tried)
  {
    if a in st.addrIds {
      KnownEntry(st, a);
      var id := st.addrIds[a];
      SucceedKeeps(st, id, time);
      var g := Succeed(st, id, time);
      assert !g.info[id].inTried ==> g.info[id].refCount > 0;
      assert g.info[id].lastSuccess == time;
      assert time > 0 ==> TimesOk(g.info);
      if !g.info[id].inTried && !(testBeforeEvict && TriedSlot(g.env, g.key, a) in g.tried) {
        MakeTriedKeeps(g, id);
        hide Struct, Core, MakeTried;
        MadeTriedTimes(g, id, MakeTried(g, id));
      }
    }
  }

  lemma MadeTriedTimes(g: State, id: int, r: State)
    requires id in g.info && MadeTried(g, id, r)
    ensures TimesOk(g.info) && g.info[id].lastSuccess > 0 ==> TimesOk(r.info)
    ensures g.info[id].lastSuccess <= 0 ==> !TimesOk(r.info)
  {
    assert r.info[id].lastSuccess == g.info[id].lastSuccess;
  }

  // ------------------------------------------- Attempt, Connected, SetServices

  /** Rewrites the statistics of the entry for `a`, if there is one. */
  function Touch(st: State, a: Service, f: AddrInfo -> AddrInfo): State
    requires Struct(st)
  {
    if a !in st.addrIds then st
    else
      KnownEntry(st, a);
      var id := st.addrIds[a];
      st.(info := st.info[id := f(st.info[id])])
  }

  function Attempt(st: State, a: Service, countFailure: bool, time: int): State
    requires Struct(st)
  {
    Touch(st, a, Attempted(st.lastGood, countFailure, time))
  }

  function Attempted(lastGood: int, countFailure: bool, time: int): AddrInfo -> AddrInfo {
    (e: AddrInfo) =>
      if countFailure && e.lastCountAttempt < lastGood
      then e.(lastTry := time, lastCountAttempt := time, attempts := e.attempts + 1)
      else e.(lastTry := time)
  }

  function Connected(st: State, a: Service, time: int): State
    requires Struct(st)
  {
    Touch(st, a, (e: AddrInfo) => if time - e.addr.nTime > 1200 then e.(addr := e.addr.(nTime := time)) else e)
  }

  function SetServices(st: State, a: Service, services: bv64): State
    requires Struct(st)
  {
    Touch(st, a, (e: AddrInfo) => e.(addr := e.addr.(services := services)))
  }

  lemma TouchKeeps(st: State, a: Service, f: AddrInfo -> AddrInfo)
    requires Struct(st)
    requires forall e :: Alike(e, f(e)) && f(e).randomPos == e.randomPos && f(e).lastSuccess == e.lastSuccess
    ensures Struct(Touch(st, a, f)) && Touch(st, a, f).tried == st.tried
    ensures TimesOk(st.info) ==>
            (TimesOk(Touch(st, a, f).info) <==> a !in st.addrIds || f(st.info[st.addrIds[a]]).lastTry >= 0)
    ensures TimesOk(st.info) && (forall e: AddrInfo :: e.lastTry >= 0 ==> f(e).lastTry >= 0) ==>
            TimesOk(Touch(st, a, f).info)
  {
    if a in st.addrIds {
      KnownEntry(st, a);
      var id := st.addrIds[a];
      var r := Touch(st, a, f);
      assert r.info[id].lastTry == f(st.info[id]).lastTry;
      hide IdsBelow, AddrIndex, RandomIndex, Tables;
      UpdateKeeps(st, id, f(st.info[id]), {});
      hide Core;
      StructFrom(st, r);
    }
  }

  // ---------------------------------------------------------- ResolveCollisions

  /** Drop the note, replace the tried entry, or wait for a test connection. */
  datatype Verdict = Drop | Replace | Wait

  /** What becomes of a live collision of the new entry `e` with the tried entry `old_`. */
  function Settle(e: AddrInfo, old_: AddrInfo, now: int): Verdict {
    if now - old_.lastSuccess < REPLACEMENT then Drop
    else if now - old_.lastTry < REPLACEMENT then (if now - old_.lastTry > 60 then Replace else Wait)
    else if now - e.lastSuccess > TEST_WINDOW then Replace
    else Wait
  }

  function VerdictOn(st: State, id: int, now: int): Verdict
    requires Struct(st)
  {
    if id !in st.info || !st.env.valid(st.info[id].addr.service.ip) then Drop
    else
      var s := TriedSlot(st.env, st.key, st.info[id].addr.service);
      if s in st.tried then
        TriedEntry(st.env, st.key, st.info, st.tried, s);
        Settle(st.info[id], st.info[st.tried[s]], now)
      else Replace
  }

  /** How one noted collision is settled at time `now`. */
  function ResolveOne(st: State, id: int, now: int): State
    requires Struct(st)
  {
    match VerdictOn(st, id, now)
    case Drop => st.(collisions := st.collisions - {id})
    case Replace => Good(st, st.info[id].addr.service, false, now).0.(collisions := st.collisions - {id})
    case Wait => st
  }

  lemma ReplaceIsLive(st: State, id: int, now: int)
    requires Struct(st)
    ensures VerdictOn(st, id, now).Replace? ==> id in st.info
  {
  }

  /** A live collision is still one: the branch for a freed tried slot is never taken. */
  lemma CollisionStands(st: State, id: int)
    requires Struct(st) && id in st.collisions && id in st.info
    ensures !st.info[id].inTried && st.info[id].refCount > 0
    ensures var s := TriedSlot(st.env, st.key, st.info[id].addr.service);
            s in st.tried && st.tried[s] in st.info && st.tried[s] != id && st.info[st.tried[s]].inTried
  {
    var s := TriedSlot(st.env, st.key, st.info[id].addr.service);
    TriedEntry(st.env, st.key, st.info, st.tried, s);
  }

  lemma ResolveOneKeeps(st: State, id: int, now: int)
    requires Struct(st) && id in st.collisions
    ensures Struct(ResolveOne(st, id, now))
    ensures st.tried.Keys <= ResolveOne(st, id, now).tried.Keys
    ensures ResolveOne(st, id, now).collisions == st.collisions ||
            ResolveOne(st, id, now).collisions == st.collisions - {id}
    ensures now > 0 && TimesOk(st.info) ==> TimesOk(ResolveOne(st, id, now).info)
  {
    hide Struct, Good, TimesOk, VerdictOn;
    EraseCollision(st, id);
    ReplaceIsLive(st, id, now);
    if id in st.info {
      EvictingKeeps(st, id, now);
    }
  }

  lemma EraseCollision(st: State, id: int)
    requires Struct(st)
    ensures Struct(st.(collisions := st.collisions - {id}))
  {
    CollisionsCore(st, st.collisions - {id});
    SubsetSize(st.collisions - {id}, st.collisions);
    hide Core;
  }

  /** A forced `Good` on a noted collision, followed by erasing the note. */
  lemma EvictingKeeps(st: State, id: int, now: int)
    requires Struct(st) && id in st.collisions && id in st.info
    ensures var r := Good(st, st.info[id].addr.service, false, now).0.(collisions := st.collisions - {id});
            && Struct(r) && st.tried.Keys <= r.tried.Keys
            && (now > 0 && TimesOk(st.info) ==> TimesOk(r.info))
  {
    var a := st.info[id].addr.service;
    assert a in st.addrIds && st.addrIds[a] == id;
    CollisionStands(st, id);
    SucceedKeeps(st, id, now);
    var g := Succeed(st, id, now);
    assert now > 0 && TimesOk(st.info) ==> TimesOk(g.info);
    MakeTriedKeeps(g, id);
    var r := MakeTried(g, id);
    hide Core, MakeTried;
    MadeTriedStruct(g, id, r, st.collisions - {id});
    hide Struct;
    MadeTriedTimes(g, id, r);
  }

  function Least(s: set<int>): (m: int)
    requires s != {}
    ensures m in s && forall x | x in s :: m <= x
  {
    LeastExists(s);
    var m :| m in s && forall x | x in s :: m <= x;
    m
  }

  lemma {:induction false} LeastExists(s: set<int>)
    requires s != {}
    ensures exists m :: m in s && forall x | x in s :: m <= x
  {
    if forall x :: x !in s {
      assert false;
    }
    var m :| m in s;
    if s == {m} {
      assert forall x | x in s :: m <= x;
    } else {
      var rest := s - {m};
      assert rest != {};
      LeastExists(rest);
      var n :| n in rest && forall x | x in rest :: n <= x;
      var least := if m <= n then m else n;
      assert least in s && forall x | x in s :: least <= x by {
        forall x | x in s ensures least <= x {
          assert x == m || x in rest;
        }
      }
    }
  }

  /** The collisions in `todo` are settled in ascending order of id. */
  function ResolveFrom(st: State, todo: set<int>, clock: int -> int): State
    requires Struct(st) && todo <= st.collisions
    decreases |todo|
  {
    if todo == {} then st
    else
      var id := Least(todo);
      ResolveOneKeeps(st, id, clock(id));
      ResolveFrom(ResolveOne(st, id, clock(id)), todo - {id}, clock)
  }

  lemma {:induction false} ResolveKeeps(st: State, todo: set<int>, clock: int -> int)
    requires Struct(st) && todo <= st.collisions
    ensures Struct(ResolveFrom(st, todo, clock))
    ensures st.tried.Keys <= ResolveFrom(st, todo, clock).tried.Keys
    ensures (forall x :: clock(x) > 0) && TimesOk(st.info) ==> TimesOk(ResolveFrom(st, todo, clock).info)
    decreases |todo|
  {
    hide Struct, TimesOk;
    if todo != {} {
      var id := Least(todo);
      ResolveOneKeeps(st, id, clock(id));
      ResolveKeeps(ResolveOne(st, id, clock(id)), todo - {id}, clock);
    }
  }

  // --------------------------------------------------------- SelectTriedCollision

  /** `pick` is the noted collision that the random draw selects. */
  function SelectTriedCollision(st: State, pick: int): (State, Option<(Address, int)>)
    requires Struct(st) && pick in st.collisions
  {
    if pick !in st.info then (st.(collisions := st.collisions - {pick}), None)
    else
      CollisionStands(st, pick);
      var e := st.info[st.tried[TriedSlot(st.env, st.key, st.info[pick].addr.service)]];
      (st, Some((e.addr, e.lastTry)))
  }

  // --------------------------------------------------------------------- GetAddr

  datatype Query = Query(network: Option<nat>, filtered: bool, now: int, limit: nat)

  function Limit(size: nat, maxAddresses: nat, maxPct: nat): nat {
    var n := if maxPct != 0 then maxPct * size / 100 else size;
    if maxAddresses != 0 && maxAddresses < n then maxAddresses else n
  }

  predicate Wanted(env: Env, q: Query, e: AddrInfo) {
    && (q.network.None? || env.netClass(e.addr.service.ip) == q.network.value)
    && !(e.IsTerrible(q.now) && q.filtered)
  }

  /** Position `n` of `vRandom` is drawn from the rest, looked at, and collected if wanted. */
  function GetAddrFrom(st: State, q: Query, n: nat, found: seq<Address>, draw: nat -> nat): (State, seq<Address>)
    requires Struct(st) && n <= |st.random|
    decreases |st.random| - n
  {
    if n == |st.random| || |found| >= q.limit then (st, found)
    else
      hide Struct, DrawOne;
      DrawOneStruct(st, q, n, found, draw);
      var r := DrawOne(st, q, n, found, draw);
      GetAddrFrom(r.0, q, n + 1, r.1, draw)
  }

  lemma DrawOneStruct(st: State, q: Query, n: nat, found: seq<Address>, draw: nat -> nat)
    requires Struct(st) && n < |st.random|
    ensures Struct(DrawOne(st, q, n, found, draw).0) && |DrawOne(st, q, n, found, draw).0.random| == |st.random|
  {
    hide Struct, Moved, Wanted;
    RandomEntries(st);
    SwapStruct(st, n, n + draw(n) % (|st.random| - n));
  }

  lemma {:induction false} GetAddrStep(st: State, q: Query, n: nat, found: seq<Address>, draw: nat -> nat)
    requires Struct(st) && n < |st.random| && |found| < q.limit
    ensures var r := DrawOne(st, q, n, found, draw);
            && Struct(r.0) && |r.0.random| == |st.random|
            && GetAddrFrom(st, q, n, found, draw) == GetAddrFrom(r.0, q, n + 1, r.1, draw)
  {
    hide Struct, DrawOne;
    DrawOneStruct(st, q, n, found, draw);
  }

  lemma {:induction false} GetAddrEnd(st: State, q: Query, n: nat, found: seq<Address>, draw: nat -> nat)
    requires Struct(st) && n <= |st.random| && (n == |st.random| || |found| >= q.limit)
    ensures GetAddrFrom(st, q, n, found, draw) == (st, found)
  {
    hide Struct;
  }

  lemma RandomEntries(st: State)
    requires Struct(st)
    ensures forall i | 0 <= i < |st.random| :: st.random[i] in st.info
  {
  }

  lemma SwapStruct(st: State, p: int, q: int)
    requires Struct(st) && 0 <= p < |st.random| && 0 <= q < |st.random|
    ensures Struct(SwapRandom(st, p, q)) && Moved(st.info, SwapRandom(st, p, q).info)
    ensures TimesOk(st.info) ==> TimesOk(SwapRandom(st, p, q).info)
  {
    SwapKeeps(st, p, q, {});
    hide Core, Moved;
    MovedStruct(st, SwapRandom(st, p, q));
  }

  lemma MovedStruct(st: State, r: State)
    requires Struct(st) && Core(r, {}) && Moved(st.info, r.info)
    requires r == st.(info := r.info, random := r.random)
    ensures Struct(r) && (TimesOk(st.info) ==> TimesOk(r.info))
  {
    hide Core;
    StructFrom(st, r);
  }

  /** The wanted addresses among `ids`, in order. */
  ghost function Collect(env: Env, q: Query, info: map<int, AddrInfo>, ids: seq<int>): seq<Address> {
    if ids == [] then []
    else
      var rest := Collect(env, q, info, ids[..|ids| - 1]);
      var id := ids[|ids| - 1];
      if id in info && Wanted(env, q, info[id]) then rest + [info[id].addr] else rest
  }

  lemma {:induction false} CollectMoved(env: Env, q: Query, info: map<int, AddrInfo>, info': map<int, AddrInfo>,
                                        ids: seq<int>)
    requires Moved(info, info')
    ensures Collect(env, q, info', ids) == Collect(env, q, info, ids)
  {
    if ids != [] {
      CollectMoved(env, q, info, info', ids[..|ids| - 1]);
      var id := ids[|ids| - 1];
      assert id in info <==> id in info';
    }
  }

  lemma MovedTrans(a: map<int, AddrInfo>, b: map<int, AddrInfo>, c: map<int, AddrInfo>)
    requires Moved(a, b) && Moved(b, c)
    ensures Moved(a, c)
  {
    forall x | x in a && x in c ensures c[x] == a[x].(randomPos := c[x].randomPos) {
      assert x in b;
    }
  }

  /** `GetAddr` returns the wanted addresses of a prefix of the shuffled `vRandom`: no entry twice,
      never more than the limit, and all wanted ones unless the limit was reached. */
  ghost predicate Sampled(st: State, q: Query, r: State, found: seq<Address>, k: nat) {
    && k <= |r.random| == |st.random|
    && found == Collect(st.env, q, st.info, r.random[..k])
    && |found| <= q.limit
    && (k == |r.random| || |found| == q.limit)
    && Moved(st.info, r.info)
    && r == st.(info := r.info, random := r.random)
  }

  /** One draw: the state after the swap and what has been found by then. */
  function DrawOne(st: State, q: Query, n: nat, found: seq<Address>, draw: nat -> nat): (State, seq<Address>)
    requires Struct(st) && n < |st.random|
  {
    var p := n + draw(n) % (|st.random| - n);
    var sw := SwapRandom(st, n, p);
    SwapStruct(st, n, p);
    var e := sw.info[sw.random[n]];
    (sw, if Wanted(sw.env, q, e) then found + [e.addr] else found)
  }

  lemma DrawOneKeeps(st: State, q: Query, n: nat, found: seq<Address>, draw: nat -> nat)
    requires Struct(st) && n < |st.random|
    requires found == Collect(st.env, q, st.info, st.random[..n]) && |found| < q.limit
    ensures var r := DrawOne(st, q, n, found, draw);
            && Struct(r.0) && (TimesOk(st.info) ==> TimesOk(r.0.info))
            && |r.0.random| == |st.random|
            && r.1 == Collect(r.0.env, q, r.0.info, r.0.random[..n + 1]) && |r.1| <= q.limit
            && Moved(st.info, r.0.info) && r.0 == st.(info := r.0.info, random := r.0.random)
  {
    hide Struct, TimesOk, Moved, Collect, Wanted;
    var p := n + draw(n) % (|st.random| - n);
    RandomEntries(st);
    SwapStruct(st, n, p);
    CollectStep(st, q, n, p);
  }

  lemma {:induction false} GetAddrSamples(st: State, q: Query, n: nat, found: seq<Address>, draw: nat -> nat)
    returns (k: nat)
    requires Struct(st) && n <= |st.random|
    requires found == Collect(st.env, q, st.info, st.random[..n]) && |found| <= q.limit
    ensures Struct(GetAddrFrom(st, q, n, found, draw).0)
    ensures TimesOk(st.info) ==> TimesOk(GetAddrFrom(st, q, n, found, draw).0.info)
    ensures Sampled(st, q, GetAddrFrom(st, q, n, found, draw).0, GetAddrFrom(st, q, n, found, draw).1, k)
    decreases |st.random| - n
  {
    hide Struct, TimesOk, DrawOne, Collect;
    if n == |st.random| || |found| >= q.limit {
      assert Moved(st.info, st.info);
      k := n;
    } else {
      hide Moved;
      DrawOneKeeps(st, q, n, found, draw);
      var (sw, found') := DrawOne(st, q, n, found, draw);
      k := GetAddrSamples(sw, q, n + 1, found', draw);
      hide Sampled;
      SampledTrans(st, q, sw, GetAddrFrom(sw, q, n + 1, found', draw), k);
    }
  }

  lemma SampledTrans(st: State, q: Query, sw: State, r: (State, seq<Address>), k: nat)
    requires Moved(st.info, sw.info) && sw == st.(info := sw.info, random := sw.random)
    requires |sw.random| == |st.random| && Sampled(sw, q, r.0, r.1, k)
    ensures Sampled(st, q, r.0, r.1, k)
  {
    hide Moved, Collect;
    MovedTrans(st.info, sw.info, r.0.info);
    CollectMoved(st.env, q, st.info, sw.info, r.0.random[..k]);
  }

  lemma CollectStep(st: State, q: Query, n: nat, p: nat)
    requires n <= p < |st.random| && st.random[n] in st.info && st.random[p] in st.info
    requires Moved(st.info, SwapRandom(st, n, p).info)
    ensures var sw := SwapRandom(st, n, p);
            && sw.random[n] in sw.info
            && var e := sw.info[sw.random[n]];
            && var found := Collect(st.env, q, st.info, st.random[..n]);
            Collect(sw.env, q, sw.info, sw.random[..n + 1]) ==
            if Wanted(sw.env, q, e) then found + [e.addr] else found
  {
    var sw := SwapRandom(st, n, p);
    var id := sw.random[n];
    assert id in sw.info by {
      assert id == st.random[p] && id in st.info;
    }
    CollectMoved(st.env, q, st.info, sw.info, st.random[..n]);
    hide Moved, Wanted;
    assert sw.random[..n + 1][..n] == st.random[..n];
  }

  // ------------------------------------------------------------------------ runs

  datatype Op =
    | AddOp(addrs: seq<(Address, Draw)>, source: NetAddr, penalty: int)
    | GoodOp(a: Service, time: int)
    | AttemptOp(a: Service, countFailure: bool, time: int)
    | ConnectedOp(a: Service, time: int)
    | SetServicesOp(a: Service, services: bv64)
    | ResolveOp(clock: int -> int)
    | SelectOp(pick: int)
    | GetAddrOp(maxAddresses: nat, maxPct: nat, network: Option<nat>, filtered: bool, now: int, draw: nat -> nat)

  /** The clock readings a caller passes are not before the epoch; a success is after it. */
  ghost predicate Timely(op: Op) {
    match op
    case GoodOp(_, time) => time > 0
    case AttemptOp(_, _, time) => time >= 0
    case ResolveOp(clock) => forall id :: clock(id) > 0
    case _ => true
  }

  function AddAll(st: State, addrs: seq<(Address, Draw)>, source: NetAddr, penalty: int): State
    requires Struct(st)
    decreases |addrs|
  {
    if addrs == [] then st
    else
      hide Struct, AddSingle;
      AddSingleKeeps(st, addrs[0].0, source, penalty, addrs[0].1);
      AddAll(AddSingle(st, addrs[0].0, source, penalty, addrs[0].1).0, addrs[1..], source, penalty)
  }

  /** How many of the addresses are added. */
  ghost function AddedCount(st: State, addrs: seq<(Address, Draw)>, source: NetAddr, penalty: int): nat
    requires Struct(st)
    decreases |addrs|
  {
    if addrs == [] then 0
    else
      hide Struct, AddSingle;
      AddSingleKeeps(st, addrs[0].0, source, penalty, addrs[0].1);
      var (next, inserted) := AddSingle(st, addrs[0].0, source, penalty, addrs[0].1);
      (if inserted then 1 else 0) + AddedCount(next, addrs[1..], source, penalty)
  }

  lemma {:induction false} AddAllKeeps(st: State, addrs: seq<(Address, Draw)>, source: NetAddr, penalty: int)
    requires Struct(st)
    ensures Struct(AddAll(st, addrs, source, penalty)) && AddAll(st, addrs, source, penalty).tried == st.tried
    ensures TimesOk(st.info) ==> TimesOk(AddAll(st, addrs, source, penalty).info)
    decreases |addrs|
  {
    hide Struct, TimesOk, AddSingle;
    if addrs != [] {
      AddSingleKeeps(st, addrs[0].0, source, penalty, addrs[0].1);
      AddAllKeeps(AddSingle(st, addrs[0].0, source, penalty, addrs[0].1).0, addrs[1..], source, penalty);
    }
  }

  function Step(st: State, op: Op): State
    requires Struct(st)
  {
    match op
    case AddOp(addrs, source, penalty) => AddAll(st, addrs, source, penalty)
    case GoodOp(a, time) => Good(st, a, true, time).0
    case AttemptOp(a, countFailure, time) => Attempt(st, a, countFailure, time)
    case ConnectedOp(a, time) => Connected(st, a, time)
    case SetServicesOp(a, services) => SetServices(st, a, services)
    case ResolveOp(clock) => ResolveFrom(st, st.collisions, clock)
    case SelectOp(pick) => if pick in st.collisions then SelectTriedCollision(st, pick).0 else st
    case GetAddrOp(maxAddresses, maxPct, network, filtered, now, draw) =>
      GetAddrFrom(st, Query(network, filtered, now, Limit(|st.random|, maxAddresses, maxPct)), 0, [], draw).0
  }

  /** Every operation keeps the tables in agreement and empties no tried slot; with timely clock
      readings it also keeps the recorded times sane. */
  lemma StepKeeps(st: State, op: Op)
    requires Struct(st)
    ensures Struct(Step(st, op))
    ensures st.tried.Keys <= Step(st, op).tried.Keys
    ensures Timely(op) && TimesOk(st.info) ==> TimesOk(Step(st, op).info)
  {
    hide Struct, TimesOk, AddAll, Good, Touch, ResolveFrom, GetAddrFrom;
    match op
    case AddOp(addrs, source, penalty) => AddAllKeeps(st, addrs, source, penalty);
    case GoodOp(a, time) =>
      GoodKeeps(st, a, time);
      if TimesOk(st.info) {
        GoodTimes(st, a, true, time);
      }
    case AttemptOp(a, countFailure, time) => TouchKeeps(st, a, Attempted(st.lastGood, countFailure, time));
    case ConnectedOp(a, time) =>
      TouchKeeps(st, a, (e: AddrInfo) => if time - e.addr.nTime > 1200 then e.(addr := e.addr.(nTime := time)) else e);
    case SetServicesOp(a, services) =>
      TouchKeeps(st, a, (e: AddrInfo) => e.(addr := e.addr.(services := services)));
    case ResolveOp(clock) => ResolveKeeps(st, st.collisions, clock);
    case SelectOp(pick) => EraseCollision(st, pick);
    case GetAddrOp(maxAddresses, maxPct, network, filtered, now, draw) =>
      var _ := GetAddrSamples(st, Query(network, filtered, now, Limit(|st.random|, maxAddresses, maxPct)), 0, [], draw);
  }

  function Run(st: State, ops: seq<Op>): State
    requires Struct(st)
    decreases |ops|
  {
    if ops == [] then st
    else
      hide Struct, Step;
      StepKeeps(st, ops[0]);
      Run(Step(st, ops[0]), ops[1..])
  }

  lemma {:induction false} RunKeeps(st: State, ops: seq<Op>)
    requires Struct(st)
    ensures Struct(Run(st, ops))
    ensures st.tried.Keys <= Run(st, ops).tried.Keys
    ensures (forall op | op in ops :: Timely(op)) && TimesOk(st.info) ==> TimesOk(Run(st, ops).info)
    decreases |ops|
  {
    hide Struct, TimesOk, Step;
    if ops != [] {
      StepKeeps(st, ops[0]);
      RunKeeps(Step(st, ops[0]), ops[1..]);
    }
  }

  /** From an empty manager, every run of operations ends in a consistent state. */
  lemma EveryRunIsConsistent(env: Env, key: nat, ops: seq<Op>)
    requires key != 0 && forall op | op in ops :: Timely(op)
    ensures Struct(EmptyState(env, key)) && Inv(Run(EmptyState(env, key), ops))
  {
    EmptyInv(env, key);
    RunKeeps(EmptyState(env, key), ops);
  }
}
