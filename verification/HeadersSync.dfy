/** The two-phase headers download of one peer, as steps on the whole sync state. */
module HeadersSync {

  const COMMITMENT_PERIOD := 606
  const BUFFER_SIZE := 14441

  datatype Header = Header(version: int, prev: nat, merkleRoot: nat, time: nat, bits: nat, nonce: nat)

  /** A header without its previous hash. */
  datatype Compressed = Compressed(version: int, merkleRoot: nat, time: nat, bits: nat, nonce: nat) {
    function Full(prev: nat): Header { Header(version, prev, merkleRoot, time, bits, nonce) }
  }

  function Compress(h: Header): Compressed { Compressed(h.version, h.merkleRoot, h.time, h.bits, h.nonce) }

  /** Hashing, proof of work and the difficulty rule are left open; the sync starts at `start`. */
  datatype Params = Params(
    hash: Header -> nat,
    saltedBit: nat -> bool,
    proof: nat -> nat,
    permitted: (int, nat, nat) -> bool,
    start: Header,
    startHeight: nat,
    startWork: nat,
    minimumWork: nat,
    commitOffset: nat,
    maxCommitments: nat)

  datatype Phase = Presync | Redownload | Final

  datatype State = State(
    phase: Phase,
    work: nat,
    last: Header,
    height: int,
    commitments: seq<bool>,
    buffer: seq<Compressed>,
    bufferHeight: int,
    bufferLastHash: nat,
    bufferFirstPrev: nat,
    bufferWork: nat,
    processAll: bool)

  const NULL_HEADER := Header(0, 0, 0, 0, 0, 0)

  function Initial(p: Params): State {
    State(Presync, p.startWork, p.start, p.startHeight, [], [], 0, 0, 0, 0, false)
  }

  function Finalized(st: State): State {
    st.(phase := Final, commitments := [], last := NULL_HEADER, buffer := [], bufferLastHash := 0,
        bufferFirstPrev := 0, processAll := false, height := 0)
  }

  predicate Committed(p: Params, height: int) { height % COMMITMENT_PERIOD == p.commitOffset }

  // ------------------------------------------------------------------------ presync

  function PresyncOne(p: Params, st: State, h: Header): (State, bool) {
    var next := st.height + 1;
    if !p.permitted(next, st.last.bits, h.bits) then (st, false)
    else
      var cs := if Committed(p, next) then st.commitments + [p.saltedBit(p.hash(h))] else st.commitments;
      if Committed(p, next) && |cs| > p.maxCommitments then (st.(commitments := cs), false)
      else (st.(commitments := cs, work := st.work + p.proof(h.bits), last := h, height := next), true)
  }

  function PresyncAll(p: Params, st: State, hs: seq<Header>): (State, bool)
    decreases |hs|
  {
    if hs == [] then (st, true)
    else
      var (st', ok) := PresyncOne(p, st, hs[0]);
      if !ok then (st', false) else PresyncAll(p, st', hs[1..])
  }

  function StartRedownload(p: Params, st: State): State {
    st.(buffer := [], bufferHeight := p.startHeight, bufferFirstPrev := p.hash(p.start),
        bufferLastHash := p.hash(p.start), bufferWork := p.startWork, phase := Redownload)
  }

  /** A batch in the first phase. */
  function PresyncBatch(p: Params, st: State, hs: seq<Header>): (State, bool)
    requires hs != []
  {
    if hs[0].prev != p.hash(st.last) then (st, false)
    else
      var (st', ok) := PresyncAll(p, st, hs);
      if !ok then (st', false)
      else (if st'.work >= p.minimumWork then StartRedownload(p, st') else st', true)
  }

  // --------------------------------------------------------------------- redownload

  function RedownloadOne(p: Params, st: State, h: Header): (State, bool) {
    var next := st.bufferHeight + 1;
    if h.prev != st.bufferLastHash then (st, false)
    else if !p.permitted(next, if st.buffer != [] then st.buffer[|st.buffer| - 1].bits else p.start.bits, h.bits)
        then (st, false)
    else
      var work := st.bufferWork + p.proof(h.bits);
      var all := st.processAll || work >= p.minimumWork;
      var st1 := st.(bufferWork := work, processAll := all);
      if !all && Committed(p, next) && (st.commitments == [] || p.saltedBit(p.hash(h)) != st.commitments[0]) then
        (if st.commitments == [] then st1 else st1.(commitments := st.commitments[1..]), false)
      else
        (st1.(commitments := if !all && Committed(p, next) then st.commitments[1..] else st.commitments,
              buffer := st.buffer + [Compress(h)], bufferHeight := next, bufferLastHash := p.hash(h)), true)
  }

  function RedownloadAll(p: Params, st: State, hs: seq<Header>): (State, bool)
    decreases |hs|
  {
    if hs == [] then (st, true)
    else
      var (st', ok) := RedownloadOne(p, st, hs[0]);
      if !ok then (st', false) else RedownloadAll(p, st', hs[1..])
  }

  predicate CanPop(st: State) { |st.buffer| > BUFFER_SIZE || (|st.buffer| > 0 && st.processAll) }

  function PopOne(p: Params, st: State): (State, Header)
    requires CanPop(st)
  {
    var h := st.buffer[0].Full(st.bufferFirstPrev);
    (st.(buffer := st.buffer[1..], bufferFirstPrev := p.hash(h)), h)
  }

  /** The headers that are ready for acceptance, with their previous hashes put back. */
  function PopAll(p: Params, st: State): (State, seq<Header>)
    decreases |st.buffer|
  {
    if !CanPop(st) then (st, [])
    else
      var (st', h) := PopOne(p, st);
      var (st'', hs) := PopAll(p, st');
      (st'', [h] + hs)
  }

  datatype Result = Result(released: seq<Header>, success: bool, requestMore: bool)

  /** `ProcessNextHeaders`, before a possible `Finalize`. */
  function ProcessBody(p: Params, st: State, hs: seq<Header>, full: bool): (State, Result)
    requires hs != [] && !st.phase.Final?
  {
    if st.phase.Presync? then
      var (st', ok) := PresyncBatch(p, st, hs);
      (st', Result([], ok, ok && (full || st'.phase.Redownload?)))
    else
      var (st', ok) := RedownloadAll(p, st, hs);
      if !ok then (st', Result([], false, false))
      else
        var (st'', released) := PopAll(p, st');
        (st'', Result(released, true, !(st''.buffer == [] && st''.processAll) && full))
  }

  function Process(p: Params, st: State, hs: seq<Header>, full: bool): (State, Result) {
    if hs == [] || st.phase.Final? then (st, Result([], false, false))
    else
      var (st', r) := ProcessBody(p, st, hs, full);
      (if r.success && r.requestMore then st' else Finalized(st'), r)
  }

  /** After any non-empty call on a live sync, the sync is over exactly when it failed or asks for no more. */
  lemma FinalExactly(p: Params, st: State, hs: seq<Header>, full: bool)
    requires hs != [] && !st.phase.Final?
    ensures var (st', r) := Process(p, st, hs, full);
            st'.phase.Final? <==> !(r.success && r.requestMore)
  {
    if st.phase.Presync? {
      PresyncPhase(p, st, hs);
    } else {
      RedownloadPhase(p, st, hs);
      PopPhase(p, RedownloadAll(p, st, hs).0);
    }
  }

  lemma {:induction false} PresyncPhase(p: Params, st: State, hs: seq<Header>)
    ensures PresyncAll(p, st, hs).0.phase == st.phase
    decreases |hs|
  {
    if hs != [] && PresyncOne(p, st, hs[0]).1 {
      PresyncPhase(p, PresyncOne(p, st, hs[0]).0, hs[1..]);
    }
  }

  lemma {:induction false} RedownloadPhase(p: Params, st: State, hs: seq<Header>)
    ensures RedownloadAll(p, st, hs).0.phase == st.phase
    decreases |hs|
  {
    if hs != [] && RedownloadOne(p, st, hs[0]).1 {
      RedownloadPhase(p, RedownloadOne(p, st, hs[0]).0, hs[1..]);
    }
  }

  lemma {:induction false} PopPhase(p: Params, st: State)
    ensures PopAll(p, st).0 == st.(buffer := PopAll(p, st).0.buffer, bufferFirstPrev := PopAll(p, st).0.bufferFirstPrev)
    decreases |st.buffer|
  {
    if CanPop(st) {
      PopPhase(p, PopOne(p, st).0);
    }
  }
}
