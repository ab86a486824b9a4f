/** The manager's own consistency check, and what exactly it certifies. */
module AddrCheck {
  import opened Collections
  import opened AddrTypes
  import opened AddrInvariant
  import opened AddrTables
  import opened AddrManImpl
  import R = AddrRuns

  // ------------------------------------------------------------ what it certifies

  ghost predicate EntryOk(st: State, id: int)
    requires id in st.info
  {
    var e := st.info[id];
    && (if e.inTried then e.lastSuccess != 0 && e.refCount == 0 else 0 < e.refCount <= NEW_BUCKETS_PER_ADDRESS)
    && e.addr.service in st.addrIds && st.addrIds[e.addr.service] == id
    && 0 <= e.randomPos < |st.random| && st.random[e.randomPos] == id
    && e.lastTry >= 0 && e.lastSuccess >= 0
  }

  ghost predicate EntriesOk(st: State) { forall id | id in st.info :: EntryOk(st, id) }

  ghost predicate TriedSlotOk(st: State, s: Slot)
    requires s in st.tried
  {
    && st.tried[s] in Ids(st.info, true, -1)
    && s == TriedSlot(st.env, st.key, st.info[st.tried[s]].addr.service)
  }

  ghost predicate NewSlotOk(st: State, s: Slot)
    requires s in st.newTable
  {
    && st.newTable[s] in Ids(st.info, false, -1)
    && s == NewSlotIn(st.env, st.key, st.info[st.newTable[s]].addr.service, s.bucket)
  }

  ghost predicate TriedFits(st: State) { forall s | s in st.tried :: TriedSlotOk(st, s) }

  ghost predicate TriedCovers(st: State) {
    forall id | id in Ids(st.info, true, -1) :: exists s | s in st.tried :: st.tried[s] == id
  }

  /** No slot is wrong and no entry is in more slots than it has references. */
  ghost predicate NewFits(st: State) {
    && (forall s | s in st.newTable :: NewSlotOk(st, s))
    && (forall id | id in Ids(st.info, false, -1) :: |SlotsOf(st.newTable, id)| <= st.info[id].refCount)
  }

  ghost predicate NewExact(st: State) {
    forall id | id in Ids(st.info, false, -1) :: st.info[id].refCount == |SlotsOf(st.newTable, id)|
  }

  ghost function Networks(info: map<int, AddrInfo>): set<nat> { set id | id in info :: info[id].Network() }

  /** The per-network counters agree with the entries wherever a counter exists, and there are at least
      as many counters as networks in use. */
  ghost predicate NetworkCountsPass(st: State) {
    && |st.counts| >= |Networks(st.info)|
    && forall net | net in st.counts ::
         st.counts[net] == Count(|Ids(st.info, false, net)|, |Ids(st.info, true, net)|)
  }

  /** What a zero return certifies. */
  ghost predicate Passes(st: State) {
    && |st.random| == st.nTried + st.nNew
    && EntriesOk(st)
    && |Ids(st.info, true, -1)| == st.nTried && |Ids(st.info, false, -1)| == st.nNew
    && TriedFits(st) && TriedCovers(st)
    && NewFits(st) && NewExact(st)
    && st.key != 0
    && NetworkCountsPass(st)
  }

  // ------------------------------------------------------------------ the entries

  /** The new entries with their reference counts. */
  ghost function RefCounts(info: map<int, AddrInfo>): map<int, int> {
    map id | id in info && !info[id].inTried :: info[id].refCount
  }

  /** What the scan accumulates: the tried ids, the new ids with their references, the local counts. */
  datatype Tallies = Tallies(setTried: set<int>, mapNew: map<int, int>, local: map<nat, Count>) {
    function With(n: int, info: AddrInfo): Tallies {
      if info.inTried
      then Tallies(setTried + {n}, mapNew, BumpTried(local, info.Network(), 1))
      else Tallies(setTried, mapNew[n := info.refCount], BumpNew(local, info.Network(), 1))
    }
  }

  ghost predicate TallyOk(seen: map<int, AddrInfo>, t: Tallies) {
    && t.setTried == Ids(seen, true, -1)
    && t.mapNew == RefCounts(seen)
    && CountsOk(seen, Counters(|t.mapNew|, |t.setTried|, t.local), {})
    && t.local.Keys == Networks(seen)
  }

  lemma TallyNone()
    ensures TallyOk(map[], Tallies({}, map[], map[]))
  {
    forall tried: bool, net: int ensures Counters(0, 0, map[]).Tally(tried, net) == |Ids(map[], tried, net) - {}| {
      assert Ids(map[], tried, net) == {};
    }
  }

  lemma TallyStep(seen: map<int, AddrInfo>, t: Tallies, n: int, info: AddrInfo)
    requires TallyOk(seen, t) && n !in seen
    ensures TallyOk(seen[n := info], t.With(n, info))
  {
    hide Ids, RefCounts, Networks, CountsOk;
    TallyLists(seen, t, n, info);
    TallyCounts(seen, t, n, info);
  }

  lemma TallyLists(seen: map<int, AddrInfo>, t: Tallies, n: int, info: AddrInfo)
    requires t.setTried == Ids(seen, true, -1) && t.mapNew == RefCounts(seen) && t.local.Keys == Networks(seen)
    requires n !in seen
    ensures n !in t.setTried && n !in t.mapNew
    ensures t.With(n, info).setTried == Ids(seen[n := info], true, -1)
    ensures t.With(n, info).mapNew == RefCounts(seen[n := info])
    ensures t.With(n, info).local.Keys == Networks(seen[n := info])
  {
    hide Ids, RefCounts, Networks;
    IdsUpdate(seen, n, info, true, -1);
    IdsMember(seen, true, -1, n);
    RefCountsUpdate(seen, n, info);
    NetworksUpdate(seen, n, info);
    assert t.With(n, info).setTried == Ids(seen[n := info], true, -1);
  }

  lemma TallyCounts(seen: map<int, AddrInfo>, t: Tallies, n: int, info: AddrInfo)
    requires CountsOk(seen, Counters(|t.mapNew|, |t.setTried|, t.local), {})
    requires n !in seen && n !in t.setTried && n !in t.mapNew
    ensures CountsOk(seen[n := info],
                     Counters(|t.With(n, info).mapNew|, |t.With(n, info).setTried|, t.With(n, info).local), {})
  {
    hide CountsOk;
    CountsAdd(seen, Counters(|t.mapNew|, |t.setTried|, t.local), n, info);
    TallySizes(t, n, info);
  }

  lemma TallySizes(t: Tallies, n: int, info: AddrInfo)
    requires n !in t.setTried && n !in t.mapNew
    ensures Counters(|t.With(n, info).mapNew|, |t.With(n, info).setTried|, t.With(n, info).local) ==
            if info.inTried
            then Counters(|t.mapNew|, |t.setTried| + 1, BumpTried(t.local, info.Network(), 1))
            else Counters(|t.mapNew| + 1, |t.setTried|, BumpNew(t.local, info.Network(), 1))
    ensures t.With(n, info).local.Keys == t.local.Keys + {info.Network()}
  {
  }

  lemma CountsAdd(info: map<int, AddrInfo>, c: Counters, n: int, e: AddrInfo)
    requires CountsOk(info, c, {}) && n !in info
    ensures CountsOk(info[n := e],
                     if e.inTried
                     then Counters(c.nNew, c.nTried + 1, BumpTried(c.counts, e.Network(), 1))
                     else Counters(c.nNew + 1, c.nTried, BumpNew(c.counts, e.Network(), 1)), {})
  {
    hide CountsOk;
    CountsUpdate(info, c, {}, n, e,
                 if e.inTried
                 then Counters(c.nNew, c.nTried + 1, BumpTried(c.counts, e.Network(), 1))
                 else Counters(c.nNew + 1, c.nTried, BumpNew(c.counts, e.Network(), 1)), {});
  }

  lemma RefCountsUpdate(seen: map<int, AddrInfo>, n: int, info: AddrInfo)
    requires n !in seen
    ensures n !in RefCounts(seen)
    ensures RefCounts(seen[n := info]) == if info.inTried then RefCounts(seen) else RefCounts(seen)[n := info.refCount]
  {
  }

  lemma NetworksUpdate(seen: map<int, AddrInfo>, n: int, info: AddrInfo)
    requires n !in seen
    ensures Networks(seen[n := info]) == Networks(seen) + {info.Network()}
  {
    var seen' := seen[n := info];
    forall net | net in Networks(seen) + {info.Network()} ensures net in Networks(seen') {
      if net in Networks(seen) {
        var id :| id in seen && seen[id].Network() == net;
        assert id in seen' && seen'[id] == seen[id];
      } else {
        assert n in seen' && seen'[n].Network() == net;
      }
    }
  }

  method ScanEntries(m: AddrMan) returns (code: int, t: Tallies)
    ensures code == 0 <==> EntriesOk(m.Model())
    ensures code == 0 ==> TallyOk(m.mapInfo, t)
  {
    t := Tallies({}, map[], map[]);
    var todo := m.mapInfo.Keys;
    TallyNone();
    SeenNone(m.mapInfo);
    hide SlotMap, TallyOk, EntryOk, Seen, R.Least;
    while todo != {}
      invariant todo <= m.mapInfo.Keys
      invariant forall id | id in m.mapInfo && id !in todo :: EntryOk(m.Model(), id)
      invariant TallyOk(Seen(m.mapInfo, todo), t)
      decreases |todo|
    {
      var n := R.Least(todo);
      code := EntryCode(m, n);
      if code != 0 {
        return;
      }
      SeenStep(m.mapInfo, todo, n);
      TallyStep(Seen(m.mapInfo, todo), t, n, m.mapInfo[n]);
      t := t.With(n, m.mapInfo[n]);
      todo := todo - {n};
    }
    SeenAll(m.mapInfo);
    code := 0;
  }

  ghost function Seen(info: map<int, AddrInfo>, todo: set<int>): map<int, AddrInfo> {
    map id | id in info && id !in todo :: info[id]
  }

  lemma SeenNone(info: map<int, AddrInfo>)
    ensures Seen(info, info.Keys) == map[]
  {
  }

  lemma SeenAll(info: map<int, AddrInfo>)
    ensures Seen(info, {}) == info
  {
  }

  lemma SeenStep(info: map<int, AddrInfo>, todo: set<int>, n: int)
    requires n in todo && n in info
    ensures n !in Seen(info, todo) && Seen(info, todo - {n}) == Seen(info, todo)[n := info[n]]
  {
  }

  /** The checks on one entry, in the order they are made. */
  method EntryCode(m: AddrMan, n: int) returns (code: int)
    requires n in m.mapInfo
    ensures code == 0 <==> EntryOk(m.Model(), n)
  {
    hide SlotMap;
    var info := m.mapInfo[n];
    if info.inTried {
      if info.lastSuccess == 0 {
        return -1;
      }
      if info.refCount != 0 {
        return -2;
      }
    } else {
      if info.refCount < 0 || info.refCount > NEW_BUCKETS_PER_ADDRESS {
        return -3;
      }
      if info.refCount == 0 {
        return -4;
      }
    }
    if info.addr.service !in m.mapAddr || m.mapAddr[info.addr.service] != n {
      return -5;
    }
    if info.randomPos < 0 || info.randomPos >= |m.vRandom| || m.vRandom[info.randomPos] != n {
      return -14;
    }
    if info.lastTry < 0 {
      return -6;
    }
    if info.lastSuccess < 0 {
      return -8;
    }
    return 0;
  }

  // -------------------------------------------------------------- the tried table

  ghost predicate Before(s: Slot, n: int, i: int) { s.bucket < n || (s.bucket == n && s.pos < i) }

  ghost function IdsBefore(table: map<Slot, int>, n: int, i: int): set<int> {
    set s | s in table && Before(s, n, i) :: table[s]
  }

  ghost predicate InRange(table: map<Slot, int>, buckets: int) {
    forall s | s in table :: 0 <= s.bucket < buckets && 0 <= s.pos < BUCKET_SIZE
  }

  /** The scan has reached position `i` of bucket `n`; `rest` are the tried ids not met yet. */
  ghost predicate TriedDone(st: State, n: int, i: int, rest: set<int>) {
    && (forall s | s in st.tried && Before(s, n, i) :: TriedSlotOk(st, s))
    && rest == Ids(st.info, true, -1) - IdsBefore(st.tried, n, i)
  }

  /** What the scan tests about the id in a tried position. */
  ghost predicate TriedTest(st: State, n: int, i: int, rest: set<int>, id: int) {
    && id in rest && id in st.info
    && TriedBucket(st.env, st.key, st.info[id].addr.service) == n
    && Position(st.env, st.key, st.info[id].addr.service, false, n) == i
  }

  lemma TriedStep(st: State, n: int, i: int, rest: set<int>, id: int)
    requires TriedDone(st, n, i, rest) && (Slot(n, i) in st.tried ==> st.tried[Slot(n, i)] == id)
    ensures if Slot(n, i) !in st.tried then TriedDone(st, n, i + 1, rest)
            else if TriedTest(st, n, i, rest, id) then TriedDone(st, n, i + 1, rest - {id})
            else !TriedFits(st)
  {
    var s := Slot(n, i);
    forall x: Slot ensures Before(x, n, i + 1) <==> Before(x, n, i) || x == s {
      assert x == Slot(x.bucket, x.pos);
    }
    if s in st.tried {
      IdsBeforeStep(st.tried, n, i);
      IdsMember(st.info, true, -1, id);
      forall x | x in st.tried && Before(x, n, i) ensures TriedSlotOk(st, s) ==> st.tried[x] != id {
        assert TriedSlotOk(st, x);
      }
      assert TriedSlotOk(st, s) <==> TriedTest(st, n, i, rest, id);
    } else {
      assert IdsBefore(st.tried, n, i + 1) == IdsBefore(st.tried, n, i);
    }
  }

  lemma IdsBeforeStep(table: map<Slot, int>, n: int, i: int)
    requires Slot(n, i) in table
    ensures IdsBefore(table, n, i + 1) == IdsBefore(table, n, i) + {table[Slot(n, i)]}
  {
    var s := Slot(n, i);
    assert Before(s, n, i + 1);
    forall x | x in table && Before(x, n, i) ensures table[x] in IdsBefore(table, n, i + 1) {
      assert Before(x, n, i + 1);
    }
  }

  lemma TriedRow(st: State, n: int, rest: set<int>)
    requires TriedDone(st, n, BUCKET_SIZE, rest) && InRange(st.tried, TRIED_BUCKET_COUNT)
    ensures TriedDone(st, n + 1, 0, rest)
  {
    assert forall s | s in st.tried :: Before(s, n, BUCKET_SIZE) <==> Before(s, n + 1, 0);
    assert IdsBefore(st.tried, n, BUCKET_SIZE) == IdsBefore(st.tried, n + 1, 0);
  }

  method ScanTried(m: AddrMan, setTried: set<int>) returns (code: int, rest: set<int>)
    requires m.Shape() && setTried == Ids(m.mapInfo, true, -1)
    ensures code == 0 <==> TriedFits(m.Model())
    ensures code == 0 ==> rest == setTried - IdsBefore(m.Model().tried, TRIED_BUCKET_COUNT, 0)
  {
    rest := setTried;
    ghost var st := m.Model();
    TriedStart(m);
    hide SlotMap, TriedFits, TriedDone, Ids;
    var n := 0;
    while n < TRIED_BUCKET_COUNT
      invariant 0 <= n <= TRIED_BUCKET_COUNT && TriedDone(st, n, 0, rest)
    {
      var i := 0;
      while i < BUCKET_SIZE
        invariant 0 <= i <= BUCKET_SIZE && TriedDone(st, n, i, rest)
      {
        var id := m.vvTried[n, i];
        SlotMapAt(m.vvTried, Slot(n, i));
        TriedStep(st, n, i, rest, id);
        if id != -1 {
          if id !in rest {
            return -11, rest;
          }
          if id !in m.mapInfo || TriedBucket(m.env, m.nKey, m.mapInfo[id].addr.service) != n {
            return -17, rest;
          }
          if Position(m.env, m.nKey, m.mapInfo[id].addr.service, false, n) != i {
            return -18, rest;
          }
          rest := rest - {id};
        }
        i := i + 1;
      }
      TriedRow(st, n, rest);
      n := n + 1;
    }
    TriedEnd(st, rest);
    code := 0;
  }

  lemma SlotMapRange(a: array2<int>, buckets: int)
    requires a.Length0 == buckets && a.Length1 == BUCKET_SIZE
    ensures InRange(SlotMap(a), buckets)
  {
  }

  lemma TriedStart(m: AddrMan)
    requires m.Shape()
    ensures TriedDone(m.Model(), 0, 0, Ids(m.mapInfo, true, -1))
    ensures InRange(m.Model().tried, TRIED_BUCKET_COUNT)
  {
    SlotMapRange(m.vvTried, TRIED_BUCKET_COUNT);
    assert IdsBefore(m.Model().tried, 0, 0) == {};
  }

  lemma TriedEnd(st: State, rest: set<int>)
    requires InRange(st.tried, TRIED_BUCKET_COUNT) && TriedDone(st, TRIED_BUCKET_COUNT, 0, rest)
    ensures TriedFits(st)
    ensures rest == Ids(st.info, true, -1) - IdsBefore(st.tried, TRIED_BUCKET_COUNT, 0)
  {
    assert forall s | s in st.tried :: Before(s, TRIED_BUCKET_COUNT, 0);
  }

  // ---------------------------------------------------------------- the new table

  ghost function SlotsBefore(table: map<Slot, int>, id: int, n: int, i: int): set<Slot> {
    set s | s in SlotsOf(table, id) && Before(s, n, i)
  }

  /** The references not met yet when the scan has reached position `i` of bucket `n`. */
  ghost function Left(st: State, n: int, i: int): map<int, int> {
    map id | id in Ids(st.info, false, -1) && st.info[id].refCount > |SlotsBefore(st.newTable, id, n, i)| ::
      st.info[id].refCount - |SlotsBefore(st.newTable, id, n, i)|
  }

  ghost predicate NewDone(st: State, n: int, i: int, rest: map<int, int>) {
    && (forall s | s in st.newTable && Before(s, n, i) :: NewSlotOk(st, s))
    && (forall id | id in Ids(st.info, false, -1) :: |SlotsBefore(st.newTable, id, n, i)| <= st.info[id].refCount)
    && rest == Left(st, n, i)
  }

  lemma SlotsBeforeStep(table: map<Slot, int>, id: int, n: int, i: int)
    ensures SlotsBefore(table, id, n, i + 1) ==
            SlotsBefore(table, id, n, i) + (if Slot(n, i) in table && table[Slot(n, i)] == id then {Slot(n, i)} else {})
    ensures Slot(n, i) !in SlotsBefore(table, id, n, i)
    ensures |SlotsBefore(table, id, n, i)| <= |SlotsOf(table, id)|
    ensures Slot(n, i) in table && table[Slot(n, i)] == id ==>
            |SlotsBefore(table, id, n, i)| < |SlotsOf(table, id)|
  {
    forall x: Slot ensures Before(x, n, i + 1) <==> Before(x, n, i) || x == Slot(n, i) {
      assert x == Slot(x.bucket, x.pos);
    }
    SubsetSize(SlotsBefore(table, id, n, i), SlotsOf(table, id));
    SubsetSize(SlotsBefore(table, id, n, i + 1), SlotsOf(table, id));
  }

  /** What the scan tests about the id in a new position. */
  ghost predicate NewTest(st: State, n: int, i: int, rest: map<int, int>, id: int) {
    id in rest && id in st.info && Position(st.env, st.key, st.info[id].addr.service, true, n) == i
  }

  function Decrement(rest: map<int, int>, id: int): map<int, int>
    requires id in rest
  {
    if rest[id] - 1 == 0 then rest - {id} else rest[id := rest[id] - 1]
  }

  lemma NewStep(st: State, n: int, i: int, rest: map<int, int>, id: int)
    requires NewDone(st, n, i, rest) && (Slot(n, i) in st.newTable ==> st.newTable[Slot(n, i)] == id)
    ensures if Slot(n, i) !in st.newTable then NewDone(st, n, i + 1, rest)
            else if NewTest(st, n, i, rest, id) then NewDone(st, n, i + 1, Decrement(rest, id))
            else !NewFits(st)
  {
    forall x: Slot ensures Before(x, n, i + 1) <==> Before(x, n, i) || x == Slot(n, i) {
      assert x == Slot(x.bucket, x.pos);
    }
    IdsMember(st.info, false, -1, id);
    if Slot(n, i) !in st.newTable {
      LeftStep(st, n, i, id);
    } else {
      SlotsBeforeStep(st.newTable, id, n, i);
      assert NewTest(st, n, i, rest, id) ==> NewSlotOk(st, Slot(n, i)) by {
        hide SlotsBefore;
      }
      if NewTest(st, n, i, rest, id) {
        LeftStep(st, n, i, id);
      } else {
        hide SlotsBefore, SlotsOf;
        assert NewSlotOk(st, Slot(n, i)) ==> id in Ids(st.info, false, -1);
      }
    }
  }

  lemma LeftStep(st: State, n: int, i: int, id: int)
    requires Slot(n, i) in st.newTable ==> st.newTable[Slot(n, i)] == id
    requires forall x | x in Ids(st.info, false, -1) :: |SlotsBefore(st.newTable, x, n, i)| <= st.info[x].refCount
    ensures Slot(n, i) !in st.newTable ==> Left(st, n, i + 1) == Left(st, n, i)
    ensures Slot(n, i) in st.newTable && id in Left(st, n, i) ==> Left(st, n, i + 1) == Decrement(Left(st, n, i), id)
    ensures Slot(n, i) !in st.newTable || id in Left(st, n, i) ==>
            forall x | x in Ids(st.info, false, -1) :: |SlotsBefore(st.newTable, x, n, i + 1)| <= st.info[x].refCount
  {
    hide SlotsBefore, Ids, Left;
    forall x: int
      ensures |SlotsBefore(st.newTable, x, n, i + 1)| ==
              |SlotsBefore(st.newTable, x, n, i)| + (if Slot(n, i) in st.newTable && x == id then 1 else 0)
    {
      SlotsCount(st.newTable, x, n, i, id);
    }
    if Slot(n, i) !in st.newTable {
      LeftSame(st, n, i);
    } else if id in Left(st, n, i) {
      LeftLess(st, n, i, id);
    }
  }

  lemma SlotsCount(table: map<Slot, int>, x: int, n: int, i: int, id: int)
    requires Slot(n, i) in table ==> table[Slot(n, i)] == id
    ensures |SlotsBefore(table, x, n, i + 1)| == |SlotsBefore(table, x, n, i)| + (if Slot(n, i) in table && x == id
            then 1 else 0)
  {
    SlotsBeforeStep(table, x, n, i);
    hide SlotsBefore;
  }

  lemma LeftSame(st: State, n: int, i: int)
    requires forall x: int :: |SlotsBefore(st.newTable, x, n, i + 1)| == |SlotsBefore(st.newTable, x, n, i)|
    ensures Left(st, n, i + 1) == Left(st, n, i)
  {
    hide SlotsBefore, Ids;
  }

  lemma LeftLess(st: State, n: int, i: int, id: int)
    requires id in Left(st, n, i)
    requires forall x: int ::
             |SlotsBefore(st.newTable, x, n, i + 1)| == |SlotsBefore(st.newTable, x, n, i)| + if x == id then 1 else 0
    requires forall x | x in Ids(st.info, false, -1) :: |SlotsBefore(st.newTable, x, n, i)| <= st.info[x].refCount
    ensures Left(st, n, i + 1) == Decrement(Left(st, n, i), id)
    ensures forall x | x in Ids(st.info, false, -1) :: |SlotsBefore(st.newTable, x, n, i + 1)| <= st.info[x].refCount
  {
    hide SlotsBefore, Ids;
    var l, r := Left(st, n, i + 1), Decrement(Left(st, n, i), id);
    forall x: int ensures x in l <==> x in r {}
  }

  lemma NewStart(m: AddrMan)
    requires m.Shape() && EntriesOk(m.Model())
    ensures NewDone(m.Model(), 0, 0, RefCounts(m.mapInfo))
    ensures InRange(m.Model().newTable, NEW_BUCKET_COUNT)
  {
    SlotMapRange(m.vvNew, NEW_BUCKET_COUNT);
    var st := m.Model();
    forall id: int ensures SlotsBefore(st.newTable, id, 0, 0) == {} {
    }
    forall id: int ensures id in Ids(st.info, false, -1) <==> id in st.info && !st.info[id].inTried {
    }
    forall id | id in st.info && !st.info[id].inTried ensures st.info[id].refCount > 0 {
      assert EntryOk(st, id);
    }
    assert Left(st, 0, 0) == RefCounts(st.info);
  }

  lemma NewRow(st: State, n: int, rest: map<int, int>)
    requires NewDone(st, n, BUCKET_SIZE, rest) && InRange(st.newTable, NEW_BUCKET_COUNT)
    ensures NewDone(st, n + 1, 0, rest)
  {
    assert forall s | s in st.newTable :: Before(s, n, BUCKET_SIZE) <==> Before(s, n + 1, 0);
    forall id: int ensures SlotsBefore(st.newTable, id, n, BUCKET_SIZE) == SlotsBefore(st.newTable, id, n + 1, 0) {
    }
  }

  lemma NewEnd(st: State, rest: map<int, int>)
    requires InRange(st.newTable, NEW_BUCKET_COUNT) && NewDone(st, NEW_BUCKET_COUNT, 0, rest)
    ensures NewFits(st)
    ensures rest == map[] <==> NewExact(st)
  {
    assert forall s | s in st.newTable :: Before(s, NEW_BUCKET_COUNT, 0);
    forall id: int ensures SlotsBefore(st.newTable, id, NEW_BUCKET_COUNT, 0) == SlotsOf(st.newTable, id) {
    }
    if rest == map[] {
      forall id | id in Ids(st.info, false, -1) ensures st.info[id].refCount == |SlotsOf(st.newTable, id)| {
        assert id !in Left(st, NEW_BUCKET_COUNT, 0);
      }
    }
  }

  method ScanNew(m: AddrMan, mapNew: map<int, int>) returns (code: int, rest: map<int, int>)
    requires m.Shape() && EntriesOk(m.Model()) && mapNew == RefCounts(m.mapInfo)
    ensures code == 0 <==> NewFits(m.Model())
    ensures code == 0 ==> (rest == map[] <==> NewExact(m.Model()))
  {
    hide SlotMap, NewFits, NewDone, NewExact, EntriesOk, RefCounts, InRange;
    rest := mapNew;
    NewStart(m);
    var n := 0;
    while n < NEW_BUCKET_COUNT
      invariant 0 <= n <= NEW_BUCKET_COUNT && NewDone(m.Model(), n, 0, rest)
    {
      code, rest := ScanNewBucket(m, n, rest);
      if code != 0 {
        return;
      }
      n := n + 1;
    }
    NewEnd(m.Model(), rest);
    code := 0;
  }

  method ScanNewBucket(m: AddrMan, n: int, mapNew: map<int, int>) returns (code: int, rest: map<int, int>)
    requires m.Shape() && 0 <= n < NEW_BUCKET_COUNT && NewDone(m.Model(), n, 0, mapNew)
    requires InRange(m.Model().newTable, NEW_BUCKET_COUNT)
    ensures if code == 0 then NewDone(m.Model(), n + 1, 0, rest) else !NewFits(m.Model())
  {
    rest := mapNew;
    hide SlotMap, NewFits, NewDone, InRange;
    var i := 0;
    while i < BUCKET_SIZE
      invariant 0 <= i <= BUCKET_SIZE && NewDone(m.Model(), n, i, rest)
    {
      code, rest := ScanNewPosition(m, n, i, rest);
      if code != 0 {
        return;
      }
      i := i + 1;
    }
    NewRow(m.Model(), n, rest);
    code := 0;
  }

  method ScanNewPosition(m: AddrMan, n: int, i: int, mapNew: map<int, int>) returns (code: int, rest: map<int, int>)
    requires m.Shape() && 0 <= n < NEW_BUCKET_COUNT && 0 <= i < BUCKET_SIZE && NewDone(m.Model(), n, i, mapNew)
    ensures if code == 0 then NewDone(m.Model(), n, i + 1, rest) else !NewFits(m.Model())
  {
    hide SlotMap, NewFits, NewDone, Decrement, Position;
    var id := m.vvNew[n, i];
    SlotMapAt(m.vvNew, Slot(n, i));
    NewStep(m.Model(), n, i, mapNew, id);
    if id == -1 {
      return 0, mapNew;
    }
    if id !in mapNew {
      return -12, mapNew;
    }
    if id !in m.mapInfo || Position(m.env, m.nKey, m.mapInfo[id].addr.service, true, n) != i {
      return -19, mapNew;
    }
    return 0, Decrement(mapNew, id);
  }

  // ------------------------------------------------------------------- the whole check

  method ScanCounts(m: AddrMan, local: map<nat, Count>) returns (code: int)
    requires local.Keys == Networks(m.mapInfo)
    requires forall net: nat :: CountOf(local, net) == Count(|Ids(m.mapInfo, false, net)|, |Ids(m.mapInfo, true, net)|)
    ensures code == 0 <==> NetworkCountsPass(m.Model())
  {
    hide SlotMap, Ids, Networks;
    if |m.networkCounts| < |local| {
      return -20;
    }
    if !(forall net | net in m.networkCounts :: CountOf(local, net) == m.networkCounts[net]) {
      return -21;
    }
    return 0;
  }

  /** Zero is returned exactly when the tables are as `Passes` says. */
  method CheckAddrman(m: AddrMan) returns (code: int)
    requires m.Shape()
    ensures code == 0 <==> Passes(m.Model())
  {
    ghost var st := m.Model();
    hide SlotMap, Ids, Networks, RefCounts, EntriesOk, TriedFits, TriedCovers, NewFits, NewExact, NetworkCountsPass;
    if |m.vRandom| != m.nTried + m.nNew {
      return -7;
    }
    var t: Tallies;
    code, t := ScanEntries(m);
    if code != 0 {
      return;
    }
    TallySizesAre(m.mapInfo, t);
    if |t.setTried| != m.nTried {
      return -9;
    }
    if |t.mapNew| != m.nNew {
      return -10;
    }
    var setTried: set<int>;
    code, setTried := ScanTried(m, t.setTried);
    if code != 0 {
      return;
    }
    SlotMapRange(m.vvTried, TRIED_BUCKET_COUNT);
    TriedCovered(st, t.setTried, setTried);
    var mapNew: map<int, int>;
    code, mapNew := ScanNew(m, t.mapNew);
    if code != 0 {
      return;
    }
    if setTried != {} {
      return -13;
    }
    if mapNew != map[] {
      return -15;
    }
    if m.nKey == 0 {
      return -16;
    }
    code := ScanCounts(m, t.local);
  }

  lemma TallySizesAre(info: map<int, AddrInfo>, t: Tallies)
    requires TallyOk(info, t)
    ensures |t.setTried| == |Ids(info, true, -1)| && |t.mapNew| == |Ids(info, false, -1)|
    ensures forall net: nat :: CountOf(t.local, net) == Count(|Ids(info, false, net)|, |Ids(info, true, net)|)
  {
    var c := Counters(|t.mapNew|, |t.setTried|, t.local);
    forall tried: bool, net: int ensures c.Tally(tried, net) == |Ids(info, tried, net)| {
      assert c.Tally(tried, net) == |Ids(info, tried, net) - {}|;
      assert Ids(info, tried, net) - {} == Ids(info, tried, net);
    }
    assert c.Tally(false, -1) == |t.mapNew|;
    forall net: nat ensures CountOf(t.local, net) == Count(|Ids(info, false, net)|, |Ids(info, true, net)|) {
      assert c.Tally(true, net) == CountOf(t.local, net).tried;
      assert c.Tally(false, net) == CountOf(t.local, net).new_;
    }
  }

  lemma TriedCovered(st: State, ids: set<int>, rest: set<int>)
    requires InRange(st.tried, TRIED_BUCKET_COUNT) && ids == Ids(st.info, true, -1)
    requires rest == ids - IdsBefore(st.tried, TRIED_BUCKET_COUNT, 0)
    ensures rest == {} <==> TriedCovers(st)
  {
    hide Ids;
    forall id: int
      ensures id in IdsBefore(st.tried, TRIED_BUCKET_COUNT, 0) <==> exists s | s in st.tried :: st.tried[s] == id
    {
      assert forall s | s in st.tried :: Before(s, TRIED_BUCKET_COUNT, 0);
    }
    hide IdsBefore;
    if rest == {} {
      forall id | id in ids ensures exists s | s in st.tried :: st.tried[s] == id {
        assert id !in rest;
      }
    } else if TriedCovers(st) {
      assert forall id: int :: id !in rest;
      assert false;
    }
  }

  // ------------------------------------------------------- what the check is worth

  /** A consistent manager passes. */
  lemma ConsistentPasses(st: State)
    requires Inv(st)
    ensures Passes(st)
  {
    ConsistentEntries(st);
    ConsistentTables(st);
    hide TriedOk, NewSlotsOk, RefsOk, AddrIndex, EntriesOk, TriedCovers, TriedFits, NewFits, NewExact;
    CountsGive(st);
    RandomSize(st);
    CountersCover(st);
  }

  lemma ConsistentEntries(st: State)
    requires Inv(st)
    ensures EntriesOk(st) && TriedCovers(st)
  {
    hide CountsOk;
  }

  lemma ConsistentTables(st: State)
    requires Inv(st)
    ensures NewFits(st) && NewExact(st) && TriedFits(st)
  {
    assert NewFits(st) && NewExact(st) by {
      hide CountsOk, TriedOk, AddrIndex, RandomIndex;
    }
    hide CountsOk, NewSlotsOk, RefsOk, AddrIndex, RandomIndex;
    forall s | s in st.tried ensures TriedSlotOk(st, s) {
      TriedEntry(st.env, st.key, st.info, st.tried, s);
      IdsMember(st.info, true, -1, st.tried[s]);
    }
  }

  /** From an empty manager, the check finds nothing after any run of operations. */
  lemma EveryRunPassesCheck(env: Env, key: nat, ops: seq<R.Op>)
    requires key != 0 && forall op | op in ops :: R.Timely(op)
    ensures Struct(EmptyState(env, key)) && Passes(R.Run(EmptyState(env, key), ops))
  {
    R.EveryRunIsConsistent(env, key, ops);
    ConsistentPasses(R.Run(EmptyState(env, key), ops));
  }

  lemma CountsGive(st: State)
    requires CountsOk(st.info, CountersOf(st), {})
    ensures st.nTried == |Ids(st.info, true, -1)| && st.nNew == |Ids(st.info, false, -1)|
    ensures forall net: nat :: CountOf(st.counts, net) == Count(|Ids(st.info, false, net)|, |Ids(st.info, true, net)|)
  {
    var c := CountersOf(st);
    forall tried: bool, net: int ensures c.Tally(tried, net) == |Ids(st.info, tried, net)| {
      assert c.Tally(tried, net) == |Ids(st.info, tried, net) - {}|;
      assert Ids(st.info, tried, net) - {} == Ids(st.info, tried, net);
    }
    assert c.Tally(true, -1) == st.nTried && c.Tally(false, -1) == st.nNew;
    forall net: nat ensures CountOf(st.counts, net) == Count(|Ids(st.info, false, net)|, |Ids(st.info, true, net)|) {
      assert c.Tally(true, net) == CountOf(st.counts, net).tried;
      assert c.Tally(false, net) == CountOf(st.counts, net).new_;
    }
  }

  lemma InfoSize(info: map<int, AddrInfo>)
    ensures |info| == |Ids(info, true, -1)| + |Ids(info, false, -1)|
  {
    var t, n := Ids(info, true, -1), Ids(info, false, -1);
    forall x: int ensures x in info.Keys <==> x in t + n {
      IdsMember(info, true, -1, x);
      IdsMember(info, false, -1, x);
    }
    assert info.Keys == t + n && t !! n;
  }

  ghost function Positions(info: map<int, AddrInfo>, ids: set<int>): set<int>
    requires ids <= info.Keys
  {
    set id | id in ids :: info[id].randomPos
  }

  lemma {:induction false} PositionsSize(info: map<int, AddrInfo>, random: seq<int>, ids: set<int>)
    requires ids <= info.Keys
    requires forall id | id in ids :: 0 <= info[id].randomPos < |random| && random[info[id].randomPos] == id
    ensures |Positions(info, ids)| == |ids|
    decreases |ids|
  {
    if ids != {} {
      var id := R.Least(ids);
      var rest := ids - {id};
      PositionsSize(info, random, rest);
      assert Positions(info, ids) == Positions(info, rest) + {info[id].randomPos};
      assert info[id].randomPos !in Positions(info, rest);
    } else {
      assert Positions(info, ids) == {};
    }
  }

  ghost function UpTo(n: nat): (r: set<int>)
    ensures |r| == n && forall i :: i in r <==> 0 <= i < n
  {
    if n == 0 then {} else UpTo(n - 1) + {n - 1}
  }

  lemma RandomSize(st: State)
    requires RandomIndex(st.info, st.random)
    ensures |st.random| == |Ids(st.info, true, -1)| + |Ids(st.info, false, -1)|
  {
    InfoSize(st.info);
    hide Ids;
    PositionsSize(st.info, st.random, st.info.Keys);
    forall i | 0 <= i < |st.random| ensures i in Positions(st.info, st.info.Keys) {
      var id := st.random[i];
      assert id in st.info.Keys && st.info[id].randomPos == i;
    }
    assert Positions(st.info, st.info.Keys) == UpTo(|st.random|);
  }

  lemma CountersCover(st: State)
    requires forall net: nat :: CountOf(st.counts, net) == Count(|Ids(st.info, false, net)|, |Ids(st.info, true, net)|)
    ensures Networks(st.info) <= st.counts.Keys && |st.counts| >= |Networks(st.info)|
  {
    forall net | net in Networks(st.info) ensures net in st.counts {
      var id :| id in st.info && st.info[id].Network() == net;
      assert id in Ids(st.info, st.info[id].inTried, net);
      assert CountOf(st.counts, net) != Count(0, 0);
    }
    SubsetSize(Networks(st.info), st.counts.Keys);
  }

  /** Passing implies everything but three points: stale addresses in `mapAddr`, the id counter, and the
      counters of networks that have none. */
  lemma PassingMeans(st: State)
    requires Passes(st) && InRange(st.newTable, NEW_BUCKET_COUNT)
    ensures RandomIndex(st.info, st.random)
    ensures TriedOk(st.env, st.key, st.info, st.tried)
    ensures NewSlotsOk(st.env, st.key, st.info, st.newTable) && RefsOk(st.info, st.newTable)
    ensures TimesOk(st.info) && Referenced(st.info)
  {
    assert TimesOk(st.info) && Referenced(st.info) by {
      assert forall id | id in st.info :: EntryOk(st, id);
    }
    forall id: int ensures id in Ids(st.info, false, -1) <==> id in st.info && !st.info[id].inTried {
      IdsMember(st.info, false, -1, id);
    }
    hide Ids;
    assert RandomIndex(st.info, st.random) by {
      RandomComplete(st);
    }
    assert RefsOk(st.info, st.newTable) by {
      assert forall id | id in st.info :: EntryOk(st, id);
    }
    PassingSlots(st);
  }

  lemma PassingSlots(st: State)
    requires EntriesOk(st) && TriedFits(st) && TriedCovers(st) && NewFits(st) && InRange(st.newTable, NEW_BUCKET_COUNT)
    ensures TriedOk(st.env, st.key, st.info, st.tried) && NewSlotsOk(st.env, st.key, st.info, st.newTable)
  {
    forall s | s in st.tried
      ensures st.tried[s] in st.info && st.info[st.tried[s]].inTried
      ensures s == TriedSlot(st.env, st.key, st.info[st.tried[s]].addr.service)
    {
      assert TriedSlotOk(st, s);
    }
    forall id | id in st.info && st.info[id].inTried
      ensures TriedSlot(st.env, st.key, st.info[id].addr.service) in st.tried
      ensures st.tried[TriedSlot(st.env, st.key, st.info[id].addr.service)] == id
      ensures st.info[id].refCount == 0
    {
      IdsMember(st.info, true, -1, id);
      assert EntryOk(st, id);
      var s :| s in st.tried && st.tried[s] == id;
      assert TriedSlotOk(st, s);
    }
    forall s | s in st.newTable
      ensures st.newTable[s] in st.info && !st.info[st.newTable[s]].inTried
      ensures s == NewSlotIn(st.env, st.key, st.info[st.newTable[s]].addr.service, s.bucket)
    {
      assert NewSlotOk(st, s);
    }
  }

  /** As many entries as positions, each at its own: no position is left over. */
  lemma RandomComplete(st: State)
    requires EntriesOk(st) && |st.random| == |Ids(st.info, true, -1)| + |Ids(st.info, false, -1)|
    ensures RandomIndex(st.info, st.random)
  {
    InfoSize(st.info);
    hide Ids;
    assert forall id | id in st.info :: EntryOk(st, id);
    hide EntriesOk;
    PositionsSize(st.info, st.random, st.info.Keys);
    var used := Positions(st.info, st.info.Keys);
    SubsetFull(used, UpTo(|st.random|));
    forall i | 0 <= i < |st.random| ensures st.random[i] in st.info && st.info[st.random[i]].randomPos == i {
      assert i in used;
      var id :| id in st.info.Keys && st.info[id].randomPos == i;
    }
  }

  lemma SubsetFull(a: set<int>, b: set<int>)
    requires a <= b && |a| == |b|
    ensures a == b
  {
    assert b == a + (b - a);
  }

  /** The per-network counters are right exactly when every network in use has one. */
  lemma PassingCounters(st: State)
    requires Passes(st)
    ensures CountsOk(st.info, CountersOf(st), {}) <==> Networks(st.info) <= st.counts.Keys
  {
    hide EntriesOk, TriedFits, TriedCovers, NewFits, NewExact, CountsOk, Ids, Networks;
    if CountsOk(st.info, CountersOf(st), {}) {
      CountsGive(st);
      CountersCover(st);
    }
    if Networks(st.info) <= st.counts.Keys {
      CountsFromCover(st);
    }
  }

  lemma CountsFromCover(st: State)
    requires |Ids(st.info, true, -1)| == st.nTried && |Ids(st.info, false, -1)| == st.nNew
    requires NetworkCountsPass(st) && Networks(st.info) <= st.counts.Keys
    ensures CountsOk(st.info, CountersOf(st), {})
  {
    hide Ids, Networks;
    forall tried: bool, net: int ensures CountersOf(st).Tally(tried, net) == |Ids(st.info, tried, net) - {}| {
      assert Ids(st.info, tried, net) - {} == Ids(st.info, tried, net);
      if net < 0 {
        AllNetworks(st.info, tried, net);
      } else if net !in st.counts {
        NoneOf(st.info, tried, net);
      }
    }
  }

  lemma AllNetworks(info: map<int, AddrInfo>, tried: bool, net: int)
    requires net < 0
    ensures Ids(info, tried, net) == Ids(info, tried, -1)
  {
    forall id: int ensures id in Ids(info, tried, net) <==> id in Ids(info, tried, -1) {
      IdsMember(info, tried, net, id);
      IdsMember(info, tried, -1, id);
    }
  }

  lemma NoneOf(info: map<int, AddrInfo>, tried: bool, net: nat)
    requires net !in Networks(info)
    ensures Ids(info, tried, net) == {}
  {
    forall id: int ensures id !in Ids(info, tried, net) {
      IdsMember(info, tried, net, id);
      assert id in info ==> info[id].Network() in Networks(info);
    }
  }

  /** One entry of network 2, and a leftover counter of network 1. */
  ghost function GapState(): State {
    var env := Env((_, _) => 0, (_, _, _) => 0, (_, _, _) => 0, (_, _, _, _) => 0, _ => [], _ => 0, _ => true,
        _ => true, 0);
    var a := Service(NetAddr(2, []), 8333);
    var e := AddrInfo(Address(a, 0, 0), NetAddr(2, []), 0, 0, 0, 0, 1, false, 0);
    State(env, 1, 1, map[0 := e], map[a := 0], [0], 0, map[], 1, map[Slot(0, 0) := 0], 1, {}, map[1 := Count(0, 0)])
  }

  lemma GapEntries(st: State)
    requires st == GapState()
    ensures EntriesOk(st) && TriedFits(st) && TriedCovers(st)
    ensures Ids(st.info, true, -1) == {} && Ids(st.info, false, -1) == {0}
  {
    assert EntryOk(st, 0);
  }

  lemma GapTables(st: State)
    requires st == GapState() && Ids(st.info, false, -1) == {0}
    ensures NewFits(st) && NewExact(st)
  {
    assert SlotsOf(st.newTable, 0) == {Slot(0, 0)};
    assert NewSlotOk(st, Slot(0, 0));
  }

  lemma GapCounts(st: State)
    requires st == GapState()
    ensures NetworkCountsPass(st) && 2 in Networks(st.info)
  {
    assert st.info[0].Network() == 2;
    assert Networks(st.info) == {2};
    assert Ids(st.info, true, 1) == {} && Ids(st.info, false, 1) == {};
  }

  lemma GapShape(st: State)
    requires st == GapState()
    ensures |st.random| == 1 && st.nTried == 0 && st.nNew == 1 && st.key != 0 && 2 !in st.counts.Keys
  {
  }

  /** The check can miss a missing counter: a leftover counter of another network hides it. */
  lemma CounterGap()
    ensures Passes(GapState()) && !CountsOk(GapState().info, CountersOf(GapState()), {})
  {
    hide NetworkCountsPass, Networks, CountsOk, Ids, EntriesOk, TriedFits, TriedCovers, NewFits, NewExact, GapState;
    var st := GapState();
    GapShape(st);
    GapEntries(st);
    GapTables(st);
    GapCounts(st);
    PassingCounters(st);
  }
}
