/** Entities of the address manager: addresses, entries, the keyed hashes that place an entry in a
    bucket, and the tables of `AddrManImpl` as one value. */
module AddrTypes {

  const TRIED_BUCKETS_PER_GROUP := 8
  const NEW_BUCKETS_PER_SOURCE_GROUP := 64
  const NEW_BUCKETS_PER_ADDRESS := 8
  const TRIED_BUCKET_COUNT := 256
  const NEW_BUCKET_COUNT := 1024
  const BUCKET_SIZE := 64
  const COLLISION_SET_SIZE := 10

  // Durations, in seconds.
  const HORIZON := 2592000
  const RETRIES := 3
  const MAX_FAILURES := 10
  const MIN_FAIL := 604800
  const REPLACEMENT := 14400
  const TEST_WINDOW := 2400

  type Group = seq<nat>

  datatype NetAddr = NetAddr(network: nat, bytes: seq<nat>)
  datatype Service = Service(ip: NetAddr, port: nat)
  datatype Address = Address(service: Service, nTime: int, services: bv64)

  /** An entry: an address with the statistics kept about it. */
  datatype AddrInfo = AddrInfo(
    addr: Address,
    source: NetAddr,
    lastTry: int,
    lastCountAttempt: int,
    lastSuccess: int,
    attempts: int,
    refCount: int,
    inTried: bool,
    randomPos: int)
  {
    function Network(): nat { addr.service.ip.network }

    /** Statistics bad enough for the entry to be dropped. */
    predicate IsTerrible(now: int) {
      if now - lastTry <= 60 then false
      else
        || addr.nTime > now + 600
        || now - addr.nTime > HORIZON
        || (lastSuccess == 0 && attempts >= RETRIES)
        || (now - lastSuccess > MIN_FAIL && attempts >= MAX_FAILURES)
    }
  }

  function FreshInfo(addr: Address, source: NetAddr, pos: int): AddrInfo {
    AddrInfo(addr, source, 0, 0, 0, 0, 0, false, pos)
  }

  /** The hashes, the network-group map and the address predicates, all left uninterpreted. */
  datatype Env = Env(
    hashAddr: (nat, Service) -> nat,
    hashGroups: (nat, Group, Group) -> nat,
    hashGroupIndex: (nat, Group, nat) -> nat,
    hashPosition: (nat, bool, int, Service) -> nat,
    group: NetAddr -> Group,
    netClass: NetAddr -> nat,
    routable: NetAddr -> bool,
    valid: NetAddr -> bool,
    asmapChecksum: nat)

  datatype Slot = Slot(bucket: int, pos: int)

  function TriedBucket(env: Env, key: nat, a: Service): (b: int)
    ensures 0 <= b < TRIED_BUCKET_COUNT
  {
    env.hashGroupIndex(key, env.group(a.ip), env.hashAddr(key, a) % TRIED_BUCKETS_PER_GROUP) % TRIED_BUCKET_COUNT
  }

  function NewBucket(env: Env, key: nat, a: Service, source: NetAddr): (b: int)
    ensures 0 <= b < NEW_BUCKET_COUNT
  {
    var h := env.hashGroups(key, env.group(a.ip), env.group(source));
    env.hashGroupIndex(key, env.group(source), h % NEW_BUCKETS_PER_SOURCE_GROUP) % NEW_BUCKET_COUNT
  }

  function Position(env: Env, key: nat, a: Service, isNew: bool, bucket: int): (p: int)
    ensures 0 <= p < BUCKET_SIZE
  {
    env.hashPosition(key, isNew, bucket, a) % BUCKET_SIZE
  }

  /** The only tried slot an address can occupy. */
  function TriedSlot(env: Env, key: nat, a: Service): (s: Slot)
    ensures 0 <= s.bucket < TRIED_BUCKET_COUNT && 0 <= s.pos < BUCKET_SIZE
  {
    var b := TriedBucket(env, key, a);
    Slot(b, Position(env, key, a, false, b))
  }

  /** The only slot of a given new bucket an address can occupy. */
  function NewSlotIn(env: Env, key: nat, a: Service, bucket: int): (s: Slot)
    ensures s.bucket == bucket && 0 <= s.pos < BUCKET_SIZE
  {
    Slot(bucket, Position(env, key, a, true, bucket))
  }

  /** The new slot chosen for an address heard of from `source`. */
  function NewSlot(env: Env, key: nat, a: Service, source: NetAddr): (s: Slot)
    ensures s == NewSlotIn(env, key, a, s.bucket) && 0 <= s.bucket < NEW_BUCKET_COUNT
  {
    NewSlotIn(env, key, a, NewBucket(env, key, a, source))
  }

  datatype Count = Count(new_: int, tried: int)

  /** Everything an `AddrManImpl` holds. A bucket position holding -1 is absent from the slot map. */
  datatype State = State(
    env: Env,
    key: nat,
    idCount: int,
    info: map<int, AddrInfo>,
    addrIds: map<Service, int>,
    random: seq<int>,
    nTried: int,
    tried: map<Slot, int>,
    nNew: int,
    newTable: map<Slot, int>,
    lastGood: int,
    collisions: set<int>,
    counts: map<nat, Count>)

  function EmptyState(env: Env, key: nat): State {
    State(env, key, 0, map[], map[], [], 0, map[], 0, map[], 1, {}, map[])
  }

  function CountOf(counts: map<nat, Count>, net: nat): Count {
    if net in counts then counts[net] else Count(0, 0)
  }

  function BumpNew(counts: map<nat, Count>, net: nat, d: int): map<nat, Count> {
    var c := CountOf(counts, net);
    counts[net := c.(new_ := c.new_ + d)]
  }

  function BumpTried(counts: map<nat, Count>, net: nat, d: int): map<nat, Count> {
    var c := CountOf(counts, net);
    counts[net := c.(tried := c.tried + d)]
  }
}
