/** Whole runs of a headers sync: what is released, and what an honest peer can rely on. */
module HeadersRuns {
  import opened HeadersSync
  import opened HeadersHistory

  datatype Call = Call(headers: seq<Header>, full: bool)

  /** What an observer has seen: headers taken in each phase, and headers handed to validation. */
  datatype History = History(received: seq<Header>, got: seq<Header>, released: seq<Header>)

  ghost function Observe(st: State, h: History, c: Call, r: Result): History {
    if !r.success then h
    else if st.phase.Presync? then h.(received := h.received + c.headers)
    else h.(got := h.got + c.headers, released := h.released + r.released)
  }

  ghost predicate Consistent(p: Params, st: State, h: History) {
    match st.phase
    case Presync => PresyncOk(p, st, h.received) && h.got == [] && h.released == []
    case Redownload =>
      && RedownloadOk(p, st, Bits(p, h.received), h.got, h.released)
      && WorkOf(p, h.received) >= p.minimumWork && Permitted(p, h.received)
      && (h.got != [] ==> st.buffer != []) && !st.processAll
    case Final => true
  }

  /**
   * Released header number `i` lies under 14441 redownloaded headers that hold at least 23
   * commitments, all equal to the ones of the first phase; or the work has been reached.
   */
  ghost predicate Deep(p: Params, h: History, i: nat)
    requires i < |h.got|
  {
    || WorkOf(p, h.got) >= p.minimumWork
    || (&& |h.got| - (i + 1) >= BUFFER_SIZE
        && Bits(p, h.got) <= Bits(p, h.received)
        && |Bits(p, h.got)| >= |Bits(p, h.got[..i + 1])| + 23)
  }

  /** The headers released are those redownloaded, in order; those past `from` are deep enough. */
  ghost predicate Sound(p: Params, h: History, from: nat) {
    && Linked(p, h.got) && h.released <= h.got
    && forall i :: from <= i < |h.released| ==> Deep(p, h, i)
  }

  lemma InitialConsistent(p: Params)
    ensures Consistent(p, Initial(p), History([], [], []))
  {
    InitialPresync(p);
  }

  lemma {:induction false} DeepEnough(p: Params, h: History, i: nat)
    requires ParamsOk(p) && i < |h.got| && |h.got| - (i + 1) >= BUFFER_SIZE
    ensures |Bits(p, h.got)| >= |Bits(p, h.got[..i + 1])| + 23
  {
    BitsCount(p, h.got);
    BitsCount(p, h.got[..i + 1]);
  }

  lemma PresyncCall(p: Params, st: State, h: History, c: Call)
    requires Consistent(p, st, h) && st.phase.Presync? && c.headers != []
    ensures var (st', r) := Process(p, st, c.headers, c.full);
            Consistent(p, st', Observe(st, h, c, r)) && r.released == []
  {
    hide PresyncAll, PresyncOk, RedownloadOk, WorkOf, Bits;
    PresyncAllKeeps(p, st, c.headers, h.received);
    PresyncPhase(p, st, c.headers);
    var (st1, ok) := PresyncAll(p, st, c.headers);
    if ok {
      StartKeeps(p, st1, h.received + c.headers);
      PresyncFacts(p, st1, h.received + c.headers);
    }
  }

  lemma PresyncFacts(p: Params, st: State, received: seq<Header>)
    requires PresyncOk(p, st, received)
    ensures st.commitments == Bits(p, received) && st.work == WorkOf(p, received) && !st.processAll
    ensures Permitted(p, received)
  {
  }

  /** A successful redownload batch, up to the point where the sync may be finalized. */
  lemma RedownloadBody(p: Params, st: State, h: History, hs: seq<Header>, st': State, out: seq<Header>)
    requires Consistent(p, st, h) && st.phase.Redownload? && hs != []
    requires RedownloadAll(p, st, hs).1 && (st', out) == PopAll(p, RedownloadAll(p, st, hs).0)
    ensures RedownloadOk(p, st', Bits(p, h.received), h.got + hs, h.released + out)
    ensures st'.phase.Redownload? && !CanPop(st')
    ensures st'.processAll <==> WorkOf(p, h.got + hs) >= p.minimumWork
    ensures !st'.processAll ==> st'.buffer != [] && (out != [] ==> |st'.buffer| >= BUFFER_SIZE)
  {
    hide RedownloadAll, PopAll, WorkOf, Bits, Buffered, Chained;
    RedownloadAllKeeps(p, st, hs, Bits(p, h.received), h.got, h.released);
    RedownloadPhase(p, st, hs);
    var st1 := RedownloadAll(p, st, hs).0;
    PopAllKeeps(p, st1, Bits(p, h.received), h.got + hs, h.released);
    PopPhase(p, st1);
  }

  lemma SoundAfter(p: Params, st: State, h: History, from: nat)
    requires ParamsOk(p) && RedownloadOk(p, st, Bits(p, h.received), h.got, h.released)
    requires h.got != [] && from <= |h.released|
             && (!st.processAll && from < |h.released| ==> |st.buffer| >= BUFFER_SIZE)
    ensures Sound(p, h, from)
  {
    hide Linked, Permitted, WorkOf, Bits;
    forall i | from <= i < |h.released| ensures Deep(p, h, i) {
      if !st.processAll {
        DeepEnough(p, h, i);
      }
    }
  }

  /** Every redownload call keeps the sync consistent, and what it releases is sound. */
  lemma RedownloadCall(p: Params, st: State, h: History, c: Call)
    requires ParamsOk(p) && Consistent(p, st, h) && st.phase.Redownload? && c.headers != []
    ensures var (st', r) := Process(p, st, c.headers, c.full);
            Consistent(p, st', Observe(st, h, c, r)) && (r.success ==> Sound(p, Observe(st, h, c, r), |h.released|))
  {
    hide RedownloadAll, PopAll, RedownloadOk, Sound, WorkOf, Bits;
    var (st1, ok) := RedownloadAll(p, st, c.headers);
    if ok {
      var (st2, out) := PopAll(p, st1);
      RedownloadBody(p, st, h, c.headers, st2, out);
      SoundAfter(p, st2, History(h.received, h.got + c.headers, h.released + out), |h.released|);
    }
  }

  /** Along the whole run every call that releases headers releases them soundly. */
  ghost predicate RunSound(p: Params, st: State, h: History, calls: seq<Call>)
    decreases |calls|
  {
    calls == [] ||
    var c := calls[0];
    var (st', r) := Process(p, st, c.headers, c.full);
    var h' := Observe(st, h, c, r);
    Sound(p, h', |h.released|) && RunSound(p, st', h', calls[1..])
  }

  lemma IdleCall(p: Params, st: State, h: History, c: Call)
    requires c.headers == [] || st.phase.Final?
    ensures Process(p, st, c.headers, c.full) == (st, Result([], false, false))
    ensures Observe(st, h, c, Result([], false, false)) == h
  {
  }

  lemma {:induction false} RunIsSound(p: Params, st: State, h: History, calls: seq<Call>)
    requires ParamsOk(p) && Consistent(p, st, h) && Sound(p, h, |h.released|)
    ensures RunSound(p, st, h, calls)
    decreases |calls|
  {
    if calls != [] {
      hide Process, Consistent, Observe;
      var c := calls[0];
      var (st', r) := Process(p, st, c.headers, c.full);
      var h' := Observe(st, h, c, r);
      CallIsSound(p, st, h, c);
      RunIsSound(p, st', h', calls[1..]);
    }
  }

  lemma CallIsSound(p: Params, st: State, h: History, c: Call)
    requires ParamsOk(p) && Consistent(p, st, h) && Sound(p, h, |h.released|)
    ensures var (st', r) := Process(p, st, c.headers, c.full);
            var h' := Observe(st, h, c, r);
            Consistent(p, st', h') && Sound(p, h', |h.released|) && Sound(p, h', |h'.released|)
  {
    hide Process, Deep, Linked;
    var (st', r) := Process(p, st, c.headers, c.full);
    if c.headers == [] || st.phase.Final? {
      IdleCall(p, st, h, c);
    } else if st.phase.Presync? {
      PresyncCall(p, st, h, c);
    } else {
      RedownloadCall(p, st, h, c);
    }
  }

  /**
   * Over any run from the start: what has been released is a prefix of what was redownloaded, field
   * for field and linked from the chain start, and each header was deep enough when it was released.
   */
  lemma EveryRunIsSound(p: Params, calls: seq<Call>)
    requires ParamsOk(p)
    ensures RunSound(p, Initial(p), History([], [], []), calls)
  {
    InitialConsistent(p);
    RunIsSound(p, Initial(p), History([], [], []), calls);
  }

  // ------------------------------------------------------------------- honest peers

  /** `chain` is what the peer serves the second time: it carries on from what it served first. */
  ghost predicate Honest(p: Params, h: History, chain: seq<Header>) {
    h.received <= chain && Linked(p, chain) && Permitted(p, chain)
  }

  lemma HonestLinks(p: Params, got: seq<Header>, chain: seq<Header>)
    requires Linked(p, chain) && Permitted(p, chain) && got <= chain && |got| < |chain|
    ensures chain[|got|].prev == HashAfter(p, got)
    ensures p.permitted(p.startHeight + |got| + 1, BitsAfter(p, got), chain[|got|].bits)
  {
    assert chain[..|got|] == got;
  }

  /** The next commitment in store is the one of the next header, unless that header reaches the work. */
  lemma {:induction false} HonestCommits(p: Params, received: seq<Header>, got: seq<Header>, h: Header, rest: seq<bool>)
    requires received <= got + [h] || got + [h] <= received
    requires WorkOf(p, received) >= p.minimumWork && WorkOf(p, got + [h]) < p.minimumWork
    requires Bits(p, received) == Bits(p, got) + rest && Committed(p, p.startHeight + |got| + 1)
    ensures rest != [] && rest[0] == p.saltedBit(p.hash(h))
  {
    hide Committed;
    Extend(p, got, h);
    var next := got + [h];
    if received <= next {
      assert received == next[..|received|];
      WorkGrows(p, next, |received|);
      assert false;
    }
    assert next == received[..|next|];
    BitsPrefix(p, received, |next|);
    hide Bits, WorkOf;
    assert Bits(p, next)[|Bits(p, got)|] == p.saltedBit(p.hash(h));
  }

  lemma HonestOne(p: Params, st: State, received: seq<Header>, got: seq<Header>, released: seq<Header>,
                  chain: seq<Header>)
    requires RedownloadOk(p, st, Bits(p, received), got, released) && (got != [] ==> st.buffer != [])
    requires Honest(p, History(received, got, released), chain) && WorkOf(p, received) >= p.minimumWork
    requires got <= chain && |got| < |chain|
    ensures RedownloadOne(p, st, chain[|got|]).1
  {
    hide Linked, Permitted, WorkOf, Bits;
    var h := chain[|got|];
    LastBits(p, st, got, released);
    HonestLinks(p, got, chain);
    Extend(p, got, h);
    if WorkOf(p, got + [h]) < p.minimumWork && !st.processAll && Committed(p, p.startHeight + |got| + 1) {
      HonestCommits(p, received, got, h, st.commitments);
    }
  }

  lemma {:induction false} HonestAll(p: Params, st: State, hs: seq<Header>, received: seq<Header>, got: seq<Header>,
                                     released: seq<Header>, chain: seq<Header>)
    requires RedownloadOk(p, st, Bits(p, received), got, released) && (got != [] ==> st.buffer != [])
    requires Honest(p, History(received, got, released), chain) && WorkOf(p, received) >= p.minimumWork
    requires got + hs <= chain
    ensures RedownloadAll(p, st, hs).1
    decreases |hs|
  {
    hide RedownloadOk, RedownloadOne, Linked, Permitted, WorkOf, Bits;
    if hs != [] {
      assert hs[0] == chain[|got|] && got <= chain;
      HonestOne(p, st, received, got, released, chain);
      RedownloadOneKeeps(p, st, hs[0], Bits(p, received), got, released);
      assert got + [hs[0]] + hs[1..] == got + hs;
      HonestAll(p, RedownloadOne(p, st, hs[0]).0, hs[1..], received, got + [hs[0]], released, chain);
    }
  }

  /**
   * A batch of an honest peer is accepted. Until the work is reached the message must be full, and the
   * sync goes on; a message that reaches the work, full or not, ends it with everything released.
   */
  lemma HonestCall(p: Params, st: State, h: History, c: Call, chain: seq<Header>)
    requires ParamsOk(p) && Consistent(p, st, h) && st.phase.Redownload? && c.headers != []
    requires Honest(p, h, chain) && h.got + c.headers <= chain
    requires c.full || WorkOf(p, h.got + c.headers) >= p.minimumWork
    ensures var (st', r) := Process(p, st, c.headers, c.full);
            var got := h.got + c.headers;
            && r.success
            && (WorkOf(p, got) < p.minimumWork ==> r.requestMore && st'.phase.Redownload?)
            && (WorkOf(p, got) >= p.minimumWork ==> st'.phase.Final? && h.released + r.released == got)
  {
    hide RedownloadAll, PopAll, Linked, Permitted, WorkOf, Bits, Chained, Matched;
    HonestAll(p, st, c.headers, h.received, h.got, h.released, chain);
    var (st1, ok) := RedownloadAll(p, st, c.headers);
    var (st2, out) := PopAll(p, st1);
    RedownloadBody(p, st, h, c.headers, st2, out);
  }

  ghost function Concat(calls: seq<Call>): seq<Header> {
    if calls == [] then [] else calls[0].headers + Concat(calls[1..])
  }

  /** After `got`, the calls bring headers until the work is reached, and all but the last are full. */
  ghost predicate Serves(p: Params, got: seq<Header>, calls: seq<Call>)
    decreases |calls|
  {
    && calls != [] && calls[0].headers != []
    && var next := got + calls[0].headers;
       if WorkOf(p, next) >= p.minimumWork then calls[1..] == []
       else calls[0].full && Serves(p, next, calls[1..])
  }

  /** Every call of the second download succeeds; they end the sync and release `out` altogether. */
  ghost predicate Completes(p: Params, st: State, calls: seq<Call>, out: seq<Header>)
    decreases |calls|
  {
    if st.phase.Final? then calls == [] && out == []
    else
      && calls != []
      && var (st', r) := Process(p, st, calls[0].headers, calls[0].full);
         r.success && r.released <= out && Completes(p, st', calls[1..], out[|r.released|..])
  }

  lemma {:induction false} HonestRun(p: Params, st: State, h: History, calls: seq<Call>, chain: seq<Header>)
    returns (out: seq<Header>)
    requires ParamsOk(p) && Consistent(p, st, h) && st.phase.Redownload? && Serves(p, h.got, calls)
    requires Honest(p, h, chain) && h.got + Concat(calls) <= chain
    ensures Completes(p, st, calls, out) && h.released + out == h.got + Concat(calls)
    decreases |calls|
  {
    hide Linked, Permitted, WorkOf, Bits, RedownloadOk, Process, Sound;
    var c := calls[0];
    var (st', r) := Process(p, st, c.headers, c.full);
    assert h.got + Concat(calls) == h.got + c.headers + Concat(calls[1..]);
    HonestCall(p, st, h, c, chain);
    RedownloadCall(p, st, h, c);
    if st'.phase.Final? {
      return r.released;
    }
    var h' := Observe(st, h, c, r);
    var rest := HonestRun(p, st', h', calls[1..], chain);
    out := r.released + rest;
    assert out[|r.released|..] == rest && h.released + out == h'.released + rest;
  }

  /** Every call of the first download succeeds, and the last one reaches the work. */
  ghost predicate Presyncs(p: Params, st: State, calls: seq<Call>, st': State)
    decreases |calls|
  {
    if st.phase.Presync? then
      && calls != []
      && var (next, r) := Process(p, st, calls[0].headers, calls[0].full);
         r.success && Presyncs(p, next, calls[1..], st')
    else
      calls == [] && st' == st && st.phase.Redownload?
  }

  lemma PresyncOneAccepts(p: Params, st: State, received: seq<Header>, chain: seq<Header>)
    requires PresyncOk(p, st, received) && Linked(p, chain) && Permitted(p, chain)
    requires received <= chain && |received| < |chain|
    requires |Bits(p, received + [chain[|received|]])| <= p.maxCommitments
    ensures PresyncOne(p, st, chain[|received|]).1
  {
    hide Linked, Permitted, WorkOf, Bits, Committed;
    HonestLinks(p, received, chain);
    Extend(p, received, chain[|received|]);
  }

  lemma {:induction false} PresyncAllAccepts(p: Params, st: State, hs: seq<Header>, received: seq<Header>,
                                             chain: seq<Header>)
    requires PresyncOk(p, st, received) && Linked(p, chain) && Permitted(p, chain)
    requires received + hs <= chain && |Bits(p, received + hs)| <= p.maxCommitments
    ensures PresyncAll(p, st, hs).1
    decreases |hs|
  {
    hide PresyncOk, PresyncOne, Linked, Permitted, Bits;
    if hs != [] {
      var next := received + [hs[0]];
      assert next + hs[1..] == received + hs && (received + hs)[..|next|] == next;
      assert hs[0] == chain[|received|];
      BitsPrefix(p, received + hs, |next|);
      PresyncOneAccepts(p, st, received, chain);
      PresyncOneKeeps(p, st, hs[0], received);
      PresyncAllAccepts(p, PresyncOne(p, st, hs[0]).0, hs[1..], next, chain);
    }
  }

  /** In the first phase too: full or not, the message that reaches the work switches to the second. */
  lemma PresyncAccepts(p: Params, st: State, h: History, c: Call, chain: seq<Header>)
    requires Consistent(p, st, h) && st.phase.Presync? && c.headers != []
    requires Linked(p, chain) && Permitted(p, chain) && h.received + c.headers <= chain
    requires |Bits(p, h.received + c.headers)| <= p.maxCommitments
    requires c.full || WorkOf(p, h.received + c.headers) >= p.minimumWork
    ensures var (st', r) := Process(p, st, c.headers, c.full);
            && r.success && r.requestMore
            && st'.phase == if WorkOf(p, h.received + c.headers) >= p.minimumWork then Redownload else Presync
  {
    hide PresyncAll, Linked, Permitted, WorkOf, Bits;
    assert h.received <= chain && c.headers[0] == chain[|h.received|];
    HonestLinks(p, h.received, chain);
    PresyncAllAccepts(p, st, c.headers, h.received, chain);
    PresyncAllKeeps(p, st, c.headers, h.received);
    PresyncPhase(p, st, c.headers);
  }

  lemma {:induction false} PresyncRun(p: Params, st: State, h: History, calls: seq<Call>, chain: seq<Header>)
    returns (st': State)
    requires Consistent(p, st, h) && st.phase.Presync? && Serves(p, h.received, calls)
    requires Linked(p, chain) && Permitted(p, chain) && h.received + Concat(calls) <= chain
    requires |Bits(p, h.received + Concat(calls))| <= p.maxCommitments
    ensures Presyncs(p, st, calls, st') && st'.phase.Redownload?
    ensures Consistent(p, st', History(h.received + Concat(calls), [], []))
    decreases |calls|
  {
    hide Linked, Permitted, WorkOf, Bits, RedownloadOk, PresyncOk, Process;
    var c := calls[0];
    var all := h.received + Concat(calls);
    assert all == h.received + c.headers + Concat(calls[1..])
           && all[..|h.received + c.headers|] == h.received + c.headers;
    BitsPrefix(p, all, |h.received + c.headers|);
    PresyncAccepts(p, st, h, c, chain);
    PresyncCall(p, st, h, c);
    var (next, r) := Process(p, st, c.headers, c.full);
    if next.phase.Redownload? {
      assert all == h.received + c.headers;
      st' := next;
    } else {
      st' := PresyncRun(p, next, History(h.received + c.headers, [], []), calls[1..], chain);
    }
  }

  /**
   * A peer that serves one linked and permitted chain twice is never rejected. Each time it may cut the
   * chain into messages as it likes, full ones until the work is reached; the message that reaches it may
   * be short, and the two downloads may stop at different headers. The sync ends with exactly the headers
   * of the second download released. The chain must only stay within the bound on stored commitments.
   */
  lemma HonestPeer(p: Params, chain: seq<Header>, first: seq<Call>, second: seq<Call>) returns (st: State)
    requires ParamsOk(p) && Linked(p, chain) && Permitted(p, chain)
    requires Serves(p, [], first) && Concat(first) <= chain && |Bits(p, Concat(first))| <= p.maxCommitments
    requires Serves(p, [], second) && Concat(second) <= chain
    ensures Presyncs(p, Initial(p), first, st) && Completes(p, st, second, Concat(second))
  {
    hide Linked, Permitted, WorkOf, Bits, RedownloadOk, PresyncOk, Concat, Completes, Presyncs, Serves;
    InitialConsistent(p);
    assert [] + Concat(first) == Concat(first) && [] + Concat(second) == Concat(second);
    st := PresyncRun(p, Initial(p), History([], [], []), first, chain);
    var out := HonestRun(p, st, History(Concat(first), [], []), second, chain);
    assert [] + out == out;
  }
}
