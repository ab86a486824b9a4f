/**
 * What a headers sync does over a whole run: which headers it releases, under how many checked
 * commitments, and why a peer that sends the same chain twice is never rejected.
 */
module HeadersHistory {
  import opened HeadersSync

  // --------------------------------------------------------------- chains of headers

  ghost function HashAfter(p: Params, hs: seq<Header>): nat {
    if hs == [] then p.hash(p.start) else p.hash(hs[|hs| - 1])
  }

  ghost function BitsAfter(p: Params, hs: seq<Header>): nat {
    if hs == [] then p.start.bits else hs[|hs| - 1].bits
  }

  /** Every header names the hash of the one before it, the first one the chain start. */
  ghost predicate Linked(p: Params, hs: seq<Header>) {
    forall i :: 0 <= i < |hs| ==> hs[i].prev == HashAfter(p, hs[..i])
  }

  ghost predicate Permitted(p: Params, hs: seq<Header>) {
    forall i :: 0 <= i < |hs| ==> p.permitted(p.startHeight + i + 1, BitsAfter(p, hs[..i]), hs[i].bits)
  }

  ghost function WorkOf(p: Params, hs: seq<Header>): nat {
    if hs == [] then p.startWork else WorkOf(p, hs[..|hs| - 1]) + p.proof(hs[|hs| - 1].bits)
  }

  /** The commitment bits of a chain of headers built on the chain start. */
  ghost function Bits(p: Params, hs: seq<Header>): seq<bool> {
    if hs == [] then []
    else Bits(p, hs[..|hs| - 1])
         + if Committed(p, p.startHeight + |hs|) then [p.saltedBit(p.hash(hs[|hs| - 1]))] else []
  }

  ghost predicate ParamsOk(p: Params) { p.commitOffset < COMMITMENT_PERIOD }

  lemma {:induction false} Extend(p: Params, hs: seq<Header>, h: Header)
    ensures WorkOf(p, hs + [h]) == WorkOf(p, hs) + p.proof(h.bits)
    ensures Bits(p, hs + [h]) == Bits(p, hs) + if Committed(p, p.startHeight + |hs| + 1) then [p.saltedBit(p.hash(h))]
            else []
    ensures HashAfter(p, hs + [h]) == p.hash(h) && BitsAfter(p, hs + [h]) == h.bits
  {
    hide Committed;
    var e := hs + [h];
    assert e[..|e| - 1] == hs && e[|e| - 1] == h;
  }

  lemma ExtendLinked(p: Params, hs: seq<Header>, h: Header)
    requires Linked(p, hs) && h.prev == HashAfter(p, hs)
    ensures Linked(p, hs + [h])
  {
    hide HashAfter;
    var e := hs + [h];
    forall i | 0 <= i < |e| ensures e[i].prev == HashAfter(p, e[..i]) {
      assert e[..i] == hs[..i];
      if i == |hs| { assert hs[..i] == hs; }
    }
  }

  lemma ExtendPermitted(p: Params, hs: seq<Header>, h: Header)
    requires Permitted(p, hs) && p.permitted(p.startHeight + |hs| + 1, BitsAfter(p, hs), h.bits)
    ensures Permitted(p, hs + [h])
  {
    hide BitsAfter;
    var e := hs + [h];
    forall i | 0 <= i < |e| ensures p.permitted(p.startHeight + i + 1, BitsAfter(p, e[..i]), e[i].bits) {
      assert e[..i] == hs[..i];
      if i == |hs| { assert hs[..i] == hs; }
    }
  }

  lemma {:induction false} WorkGrows(p: Params, hs: seq<Header>, n: nat)
    requires n <= |hs|
    ensures WorkOf(p, hs[..n]) <= WorkOf(p, hs)
    decreases |hs|
  {
    if n == |hs| {
      assert hs[..n] == hs;
    } else {
      assert hs[..|hs| - 1][..n] == hs[..n];
      WorkGrows(p, hs[..|hs| - 1], n);
    }
  }

  /** The commitments of a prefix are a prefix of the commitments. */
  lemma {:induction false} BitsPrefix(p: Params, hs: seq<Header>, n: nat)
    requires n <= |hs|
    ensures Bits(p, hs[..n]) <= Bits(p, hs)
    decreases |hs|
  {
    if n == |hs| {
      assert hs[..n] == hs;
    } else {
      assert hs[..|hs| - 1][..n] == hs[..n];
      BitsPrefix(p, hs[..|hs| - 1], n);
    }
  }

  /** The number of commitments depends only on the height range. */
  lemma {:induction false} BitsCount(p: Params, hs: seq<Header>)
    requires ParamsOk(p)
    ensures |Bits(p, hs)| ==
            (p.startHeight + |hs| - p.commitOffset) / COMMITMENT_PERIOD
            - (p.startHeight - p.commitOffset) / COMMITMENT_PERIOD
    decreases |hs|
  {
    if hs != [] {
      BitsCount(p, hs[..|hs| - 1]);
      FloorStep(p.startHeight + |hs| - 1, p.commitOffset);
    }
  }

  lemma FloorStep(h: int, offset: nat)
    requires offset < COMMITMENT_PERIOD
    ensures (h + 1 - offset) / COMMITMENT_PERIOD
         == (h - offset) / COMMITMENT_PERIOD + if (h + 1) % COMMITMENT_PERIOD == offset then 1 else 0
  {
  }

  // ------------------------------------------------------------- the presync history

  /** In the first phase: `received` has gone through, and its commitments are stored in order. */
  ghost predicate PresyncOk(p: Params, st: State, received: seq<Header>) {
    && Permitted(p, received)
    && st.work == WorkOf(p, received)
    && st.height == p.startHeight + |received|
    && st.last == (if received == [] then p.start else received[|received| - 1])
    && st.commitments == Bits(p, received)
    && !st.processAll
  }

  lemma InitialPresync(p: Params)
    ensures PresyncOk(p, Initial(p), [])
  {
  }

  lemma PresyncOneKeeps(p: Params, st: State, h: Header, received: seq<Header>)
    requires PresyncOk(p, st, received)
    ensures var (st', ok) := PresyncOne(p, st, h); ok ==> PresyncOk(p, st', received + [h])
  {
    Extend(p, received, h);
    if PresyncOne(p, st, h).1 {
      ExtendPermitted(p, received, h);
    }
    hide Permitted, WorkOf, Bits;
  }

  lemma {:induction false} PresyncAllKeeps(p: Params, st: State, hs: seq<Header>, received: seq<Header>)
    requires PresyncOk(p, st, received)
    ensures var (st', ok) := PresyncAll(p, st, hs); ok ==> PresyncOk(p, st', received + hs)
    decreases |hs|
  {
    hide PresyncOk, PresyncOne;
    if hs == [] {
      assert received + hs == received;
    } else {
      PresyncOneKeeps(p, st, hs[0], received);
      var (st', ok) := PresyncOne(p, st, hs[0]);
      if ok {
        PresyncAllKeeps(p, st', hs[1..], received + [hs[0]]);
        assert received + [hs[0]] + hs[1..] == received + hs;
      }
    }
  }

  // ---------------------------------------------------------- the redownload history

  /** Everything redownloaded so far is either released or still buffered, without its previous hash. */
  ghost predicate Buffered(p: Params, st: State, got: seq<Header>, released: seq<Header>) {
    && released <= got
    && |st.buffer| == |got| - |released|
    && (forall i :: 0 <= i < |st.buffer| ==> st.buffer[i] == Compress(got[|released| + i]))
    && st.bufferFirstPrev == HashAfter(p, released)
  }

  /** The redownloaded headers form a chain from the start, with their work counted. */
  ghost predicate Chained(p: Params, st: State, got: seq<Header>) {
    && Linked(p, got) && Permitted(p, got)
    && st.bufferHeight == p.startHeight + |got|
    && st.bufferLastHash == HashAfter(p, got)
    && st.bufferWork == WorkOf(p, got)
  }

  /** Until the work is reached, every commitment passed has been compared and found equal. */
  ghost predicate Matched(p: Params, st: State, stored: seq<bool>, got: seq<Header>) {
    && (st.processAll <==> got != [] && WorkOf(p, got) >= p.minimumWork)
    && (!st.processAll ==> stored == Bits(p, got) + st.commitments)
  }

  ghost predicate RedownloadOk(p: Params, st: State, stored: seq<bool>, got: seq<Header>, released: seq<Header>) {
    Buffered(p, st, got, released) && Chained(p, st, got) && Matched(p, st, stored, got)
  }

  lemma StartKeeps(p: Params, st: State, received: seq<Header>)
    requires PresyncOk(p, st, received)
    ensures RedownloadOk(p, StartRedownload(p, st), st.commitments, [], [])
  {
  }

  /** Between calls the buffer is empty only at the start, so the last bits are always at hand. */
  lemma LastBits(p: Params, st: State, got: seq<Header>, released: seq<Header>)
    requires Buffered(p, st, got, released) && (got != [] ==> st.buffer != [])
    ensures (if st.buffer != [] then st.buffer[|st.buffer| - 1].bits else p.start.bits) == BitsAfter(p, got)
  {
  }

  lemma RedownloadOneBuffers(p: Params, st: State, h: Header, got: seq<Header>, released: seq<Header>)
    requires Buffered(p, st, got, released) && RedownloadOne(p, st, h).1
    ensures Buffered(p, RedownloadOne(p, st, h).0, got + [h], released)
  {
  }

  lemma RedownloadOneMatches(p: Params, st: State, h: Header, stored: seq<bool>, got: seq<Header>)
    requires Chained(p, st, got) && Matched(p, st, stored, got) && RedownloadOne(p, st, h).1
    ensures Matched(p, RedownloadOne(p, st, h).0, stored, got + [h])
  {
    Extend(p, got, h);
    hide Linked, Permitted;
    var st' := RedownloadOne(p, st, h).0;
    if !st'.processAll && Committed(p, p.startHeight + |got| + 1) {
      assert stored == Bits(p, got) + ([st.commitments[0]] + st.commitments[1..]);
    }
  }

  lemma RedownloadOneChains(p: Params, st: State, h: Header, got: seq<Header>)
    requires Chained(p, st, got) && RedownloadOne(p, st, h).1
    requires (if st.buffer != [] then st.buffer[|st.buffer| - 1].bits else p.start.bits) == BitsAfter(p, got)
    ensures Chained(p, RedownloadOne(p, st, h).0, got + [h])
  {
    hide Linked, Permitted, WorkOf, Bits;
    Extend(p, got, h);
    ExtendLinked(p, got, h);
    ExtendPermitted(p, got, h);
  }

  lemma RedownloadOneKeeps(p: Params, st: State, h: Header, stored: seq<bool>, got: seq<Header>, released: seq<Header>)
    requires RedownloadOk(p, st, stored, got, released) && (got != [] ==> st.buffer != [])
    requires RedownloadOne(p, st, h).1
    ensures RedownloadOk(p, RedownloadOne(p, st, h).0, stored, got + [h], released)
    ensures RedownloadOne(p, st, h).0.buffer != []
  {
    hide Buffered, Chained, Matched, BitsAfter;
    LastBits(p, st, got, released);
    RedownloadOneBuffers(p, st, h, got, released);
    RedownloadOneMatches(p, st, h, stored, got);
    RedownloadOneChains(p, st, h, got);
  }

  lemma {:induction false} RedownloadAllKeeps(p: Params, st: State, hs: seq<Header>, stored: seq<bool>,
                                              got: seq<Header>, released: seq<Header>)
    requires RedownloadOk(p, st, stored, got, released) && (got != [] ==> st.buffer != [])
    requires RedownloadAll(p, st, hs).1
    ensures RedownloadOk(p, RedownloadAll(p, st, hs).0, stored, got + hs, released)
    ensures got + hs != [] ==> RedownloadAll(p, st, hs).0.buffer != []
    decreases |hs|
  {
    hide RedownloadOk, RedownloadOne;
    if hs == [] {
      assert got + hs == got;
    } else {
      RedownloadOneKeeps(p, st, hs[0], stored, got, released);
      RedownloadAllKeeps(p, RedownloadOne(p, st, hs[0]).0, hs[1..], stored, got + [hs[0]], released);
      assert got + [hs[0]] + hs[1..] == got + hs;
    }
  }

  /** A popped header is the header that was received, previous hash included. */
  lemma PopOneKeeps(p: Params, st: State, stored: seq<bool>, got: seq<Header>, released: seq<Header>)
    requires RedownloadOk(p, st, stored, got, released) && CanPop(st)
    ensures var (st', h) := PopOne(p, st);
            |released| < |got| && h == got[|released|] && RedownloadOk(p, st', stored, got, released + [h])
  {
    hide Permitted, Committed, Bits, WorkOf;
    assert got[..|released|] == released;
    assert got[|released|].prev == HashAfter(p, got[..|released|]);
  }

  lemma {:induction false} PopAllKeeps(p: Params, st: State, stored: seq<bool>, got: seq<Header>, released: seq<Header>)
    requires RedownloadOk(p, st, stored, got, released)
    ensures var (st', out) := PopAll(p, st);
            RedownloadOk(p, st', stored, got, released + out) && !CanPop(st') && st'.processAll == st.processAll
    ensures !st.processAll && st.buffer != [] ==> PopAll(p, st).0.buffer != []
    ensures !st.processAll && PopAll(p, st).1 != [] ==> |PopAll(p, st).0.buffer| >= BUFFER_SIZE
    decreases |st.buffer|
  {
    hide RedownloadOk;
    if !CanPop(st) {
      assert released + [] == released;
    } else {
      PopOneKeeps(p, st, stored, got, released);
      var (st', h) := PopOne(p, st);
      PopAllKeeps(p, st', stored, got, released + [h]);
      assert released + [h] + PopAll(p, st').1 == released + ([h] + PopAll(p, st').1);
    }
  }
}
