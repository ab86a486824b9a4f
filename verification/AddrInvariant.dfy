/** What `CheckAddrman` checks, as predicates over the tables. */
module AddrInvariant {
  import opened AddrTypes

  ghost predicate IdsBelow(info: map<int, AddrInfo>, n: int) {
    0 <= n && forall id | id in info :: 0 <= id < n
  }

  /** `mapAddr` is inverse to `mapInfo`. */
  ghost predicate AddrIndex(info: map<int, AddrInfo>, addrIds: map<Service, int>) {
    && (forall id | id in info ::
          info[id].addr.service in addrIds && addrIds[info[id].addr.service] == id)
    && (forall a | a in addrIds :: addrIds[a] in info && info[addrIds[a]].addr.service == a)
  }

  /** `vRandom` and the recorded positions are inverse to each other. */
  ghost predicate RandomIndex(info: map<int, AddrInfo>, random: seq<int>) {
    && (forall id | id in info :: 0 <= info[id].randomPos < |random| && random[info[id].randomPos] == id)
    && (forall i | 0 <= i < |random| :: random[i] in info && info[random[i]].randomPos == i)
  }

  /** Tried entries and tried slots match one to one. */
  ghost predicate TriedOk(env: Env, key: nat, info: map<int, AddrInfo>, tried: map<Slot, int>) {
    && (forall s | s in tried ::
          && tried[s] in info && info[tried[s]].inTried
          && s == TriedSlot(env, key, info[tried[s]].addr.service))
    && (forall id | id in info && info[id].inTried ::
          && TriedSlot(env, key, info[id].addr.service) in tried
          && tried[TriedSlot(env, key, info[id].addr.service)] == id
          && info[id].refCount == 0)
  }

  /** Every new slot holds a new entry, in the position its address has in that bucket. */
  ghost predicate NewSlotsOk(env: Env, key: nat, info: map<int, AddrInfo>, table: map<Slot, int>) {
    forall s | s in table ::
      && 0 <= s.bucket < NEW_BUCKET_COUNT
      && table[s] in info && !info[table[s]].inTried
      && s == NewSlotIn(env, key, info[table[s]].addr.service, s.bucket)
  }

  ghost function SlotsOf(table: map<Slot, int>, id: int): set<Slot> {
    set s | s in table && table[s] == id
  }

  /** Reference counts are exact. */
  ghost predicate RefsOk(info: map<int, AddrInfo>, table: map<Slot, int>) {
    forall id | id in info && !info[id].inTried ::
      info[id].refCount == |SlotsOf(table, id)| <= NEW_BUCKETS_PER_ADDRESS
  }

  /** The ids of the new (or tried) entries, of one network or, for a negative `net`, of all. */
  ghost function Ids(info: map<int, AddrInfo>, tried: bool, net: int): set<int> {
    set id | id in info && info[id].inTried == tried && (net < 0 || info[id].Network() == net)
  }

  datatype Counters = Counters(nNew: int, nTried: int, counts: map<nat, Count>) {
    /** The counter that is meant to hold the size of `Ids(info, tried, net)`. */
    function Tally(tried: bool, net: int): int {
      if net < 0 then (if tried then nTried else nNew)
      else if tried then CountOf(counts, net).tried else CountOf(counts, net).new_
    }
  }

  function CountersOf(st: State): Counters { Counters(st.nNew, st.nTried, st.counts) }

  /** Entries in `limbo` are in `mapInfo` but counted nowhere: the middle of `MakeTried`. */
  ghost predicate CountsOk(info: map<int, AddrInfo>, c: Counters, limbo: set<int>) {
    forall tried: bool, net: int :: c.Tally(tried, net) == |Ids(info, tried, net) - limbo|
  }

  ghost predicate LimboOk(info: map<int, AddrInfo>, limbo: set<int>) {
    forall id | id in limbo :: id in info && !info[id].inTried && info[id].refCount == 0
  }

  /** Recorded times are sane, and a tried entry has once been reached. */
  ghost predicate TimesOk(info: map<int, AddrInfo>) {
    forall id | id in info ::
      && info[id].lastTry >= 0 && info[id].lastSuccess >= 0
      && (info[id].inTried ==> info[id].lastSuccess > 0)
  }

  ghost predicate Index(st: State) {
    IdsBelow(st.info, st.idCount) && AddrIndex(st.info, st.addrIds) && RandomIndex(st.info, st.random)
  }

  /** Everything but the index, none of which looks at a position in `vRandom`. */
  ghost predicate Tables(st: State, limbo: set<int>) {
    && TriedOk(st.env, st.key, st.info, st.tried)
    && NewSlotsOk(st.env, st.key, st.info, st.newTable)
    && RefsOk(st.info, st.newTable)
    && CountsOk(st.info, CountersOf(st), limbo)
    && LimboOk(st.info, limbo)
  }

  /** Holds at every step inside an operation; entries with no reference yet are allowed. */
  ghost predicate Core(st: State, limbo: set<int>) { Index(st) && Tables(st, limbo) }

  ghost predicate Referenced(info: map<int, AddrInfo>) {
    forall id | id in info && !info[id].inTried :: info[id].refCount > 0
  }

  /** A live collision is a new entry whose tried slot is held by another entry. */
  ghost predicate CollisionsOk(st: State) {
    && |st.collisions| <= COLLISION_SET_SIZE
    && (forall id | id in st.collisions :: id < st.idCount)
    && (forall id | id in st.collisions && id in st.info ::
          !st.info[id].inTried && TriedSlot(st.env, st.key, st.info[id].addr.service) in st.tried)
  }

  /** The tables agree with each other: holds between operations, whatever times callers pass. */
  ghost predicate Struct(st: State) {
    st.key != 0 && Core(st, {}) && Referenced(st.info) && CollisionsOk(st)
  }

  /** Holds between operations when callers pass sane times. */
  ghost predicate Inv(st: State) { Struct(st) && TimesOk(st.info) }

  lemma EmptyInv(env: Env, key: nat)
    requires key != 0
    ensures Inv(EmptyState(env, key))
  {
    var st := EmptyState(env, key);
    forall tried: bool, net: int
      ensures CountersOf(st).Tally(tried, net) == |Ids(st.info, tried, net) - {}|
    {
      assert Ids(st.info, tried, net) == {};
    }
  }
}
