/** The headers sync object, updated step by step; each method is tied to its step function. */
module HeadersSyncImpl {
  import opened HeadersSync

  class HeadersSyncState {
    const params: Params
    var phase: Phase
    var currentChainWork: nat
    var lastHeaderReceived: Header
    var currentHeight: int
    var headerCommitments: seq<bool>
    var redownloadedHeaders: seq<Compressed>
    var bufferLastHeight: int
    var bufferLastHash: nat
    var bufferFirstPrevHash: nat
    var redownloadChainWork: nat
    var processAllRemaining: bool

    ghost function Model(): State
      reads this
    {
      State(phase, currentChainWork, lastHeaderReceived, currentHeight, headerCommitments, redownloadedHeaders,
            bufferLastHeight, bufferLastHash, bufferFirstPrevHash, redownloadChainWork, processAllRemaining)
    }

    constructor (p: Params)
      ensures params == p && Model() == Initial(p)
    {
      params := p;
      phase, currentChainWork, lastHeaderReceived, currentHeight := Presync, p.startWork, p.start, p.startHeight;
      headerCommitments, redownloadedHeaders := [], [];
      bufferLastHeight, bufferLastHash, bufferFirstPrevHash, redownloadChainWork := 0, 0, 0, 0;
      processAllRemaining := false;
    }

    method Finalize()
      modifies this
      ensures Model() == Finalized(old(Model()))
    {
      headerCommitments := [];
      lastHeaderReceived := NULL_HEADER;
      redownloadedHeaders := [];
      bufferLastHash, bufferFirstPrevHash := 0, 0;
      processAllRemaining := false;
      currentHeight := 0;
      phase := Final;
    }

    method ValidateAndProcessSingleHeader(current: Header) returns (ok: bool)
      modifies this
      ensures (Model(), ok) == PresyncOne(params, old(Model()), current)
    {
      var nextHeight := currentHeight + 1;
      if !params.permitted(nextHeight, lastHeaderReceived.bits, current.bits) {
        return false;
      }
      if nextHeight % COMMITMENT_PERIOD == params.commitOffset {
        headerCommitments := headerCommitments + [params.saltedBit(params.hash(current))];
        if |headerCommitments| > params.maxCommitments {
          return false;
        }
      }
      currentChainWork := currentChainWork + params.proof(current.bits);
      lastHeaderReceived := current;
      currentHeight := nextHeight;
      return true;
    }

    method ProcessHeaders(headers: seq<Header>) returns (ok: bool)
      modifies this
      ensures (Model(), ok) == PresyncAll(params, old(Model()), headers)
    {
      hide PresyncOne;
      ok := true;
      var i := 0;
      while i < |headers|
        invariant 0 <= i <= |headers| && ok
        invariant PresyncAll(params, old(Model()), headers) == PresyncAll(params, Model(), headers[i..])
      {
        ghost var rest := headers[i..];
        ok := ValidateAndProcessSingleHeader(headers[i]);
        assert rest[0] == headers[i] && rest[1..] == headers[i + 1..];
        if !ok {
          return;
        }
        i := i + 1;
      }
    }

    method ValidateAndStoreHeadersCommitments(headers: seq<Header>) returns (ok: bool)
      requires headers != []
      modifies this
      ensures (Model(), ok) == PresyncBatch(params, old(Model()), headers)
    {
      hide PresyncAll;
      if headers[0].prev != params.hash(lastHeaderReceived) {
        return false;
      }
      ok := ProcessHeaders(headers);
      if ok && currentChainWork >= params.minimumWork {
        redownloadedHeaders := [];
        bufferLastHeight := params.startHeight;
        bufferFirstPrevHash := params.hash(params.start);
        bufferLastHash := params.hash(params.start);
        redownloadChainWork := params.startWork;
        phase := Redownload;
      }
    }

    method ValidateAndStoreRedownloadedHeader(header: Header) returns (ok: bool)
      modifies this
      ensures (Model(), ok) == RedownloadOne(params, old(Model()), header)
    {
      var nextHeight := bufferLastHeight + 1;
      if header.prev != bufferLastHash {
        return false;
      }
      var previousBits := if redownloadedHeaders != [] then redownloadedHeaders[|redownloadedHeaders| - 1].bits
          else params.start.bits;
      if !params.permitted(nextHeight, previousBits, header.bits) {
        return false;
      }
      redownloadChainWork := redownloadChainWork + params.proof(header.bits);
      if redownloadChainWork >= params.minimumWork {
        processAllRemaining := true;
      }
      if !processAllRemaining && nextHeight % COMMITMENT_PERIOD == params.commitOffset {
        if headerCommitments == [] {
          return false;
        }
        var commitment := params.saltedBit(params.hash(header));
        var expected := headerCommitments[0];
        headerCommitments := headerCommitments[1..];
        if commitment != expected {
          return false;
        }
      }
      redownloadedHeaders := redownloadedHeaders + [Compress(header)];
      bufferLastHeight := nextHeight;
      bufferLastHash := params.hash(header);
      return true;
    }

    method StoreRedownloadedHeaders(headers: seq<Header>) returns (ok: bool)
      modifies this
      ensures (Model(), ok) == RedownloadAll(params, old(Model()), headers)
    {
      hide RedownloadOne;
      ok := true;
      var i := 0;
      while i < |headers|
        invariant 0 <= i <= |headers| && ok
        invariant RedownloadAll(params, old(Model()), headers) == RedownloadAll(params, Model(), headers[i..])
      {
        ghost var rest := headers[i..];
        ok := ValidateAndStoreRedownloadedHeader(headers[i]);
        assert rest[0] == headers[i] && rest[1..] == headers[i + 1..];
        if !ok {
          return;
        }
        i := i + 1;
      }
    }

    method PopFront() returns (header: Header)
      requires CanPop(Model())
      modifies this
      ensures (Model(), header) == PopOne(params, old(Model()))
    {
      header := redownloadedHeaders[0].Full(bufferFirstPrevHash);
      redownloadedHeaders := redownloadedHeaders[1..];
      bufferFirstPrevHash := params.hash(header);
    }

    method PopHeadersReadyForAcceptance() returns (ready: seq<Header>)
      modifies this
      ensures (Model(), ready) == PopAll(params, old(Model()))
    {
      ready := [];
      assert ready + PopAll(params, Model()).1 == PopAll(params, Model()).1;
      while |redownloadedHeaders| > BUFFER_SIZE || (|redownloadedHeaders| > 0 && processAllRemaining)
        invariant PopAll(params, old(Model())) == (PopAll(params, Model()).0, ready + PopAll(params, Model()).1)
        decreases |redownloadedHeaders|
      {
        var header := PopFront();
        assert ready + ([header] + PopAll(params, Model()).1) == ready + [header] + PopAll(params, Model()).1;
        ready := ready + [header];
      }
      assert ready + [] == ready;
    }

    /** One message of headers. */
    method ProcessNextHeaders(received: seq<Header>, full: bool) returns (ret: Result)
      modifies this
      ensures (Model(), ret) == Process(params, old(Model()), received, full)
    {
      hide PresyncBatch, RedownloadAll, PopAll;
      ret := Result([], false, false);
      if received == [] || phase.Final? {
        return;
      }
      if phase.Presync? {
        var ok := ValidateAndStoreHeadersCommitments(received);
        ret := Result([], ok, ok && (full || phase.Redownload?));
      } else {
        var ok := StoreRedownloadedHeaders(received);
        if ok {
          var ready := PopHeadersReadyForAcceptance();
          ret := Result(ready, true, !(redownloadedHeaders == [] && processAllRemaining) && full);
        }
      }
      if !(ret.success && ret.requestMore) {
        Finalize();
      }
    }
  }
}
