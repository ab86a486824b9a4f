/** The exchange that carries a block in compact form: announcement, request, answer. */
module CompactExchange {
  import opened Collections
  import opened CompactBlocks
  import opened CompactRebuild
  import DifferenceFormat

  /** The receiver asks for what it does not have. */
  method RequestIndexes(b: PartiallyDownloadedBlock, m: Message) returns (indexes: seq<nat>)
    requires !b.headerNull && |b.txnAvailable| == m.TxCount()
    ensures indexes == Free(b.txnAvailable)
  {
    hide Free;
    indexes := [];
    EmptyFree();
    for i := 0 to m.TxCount()
      invariant indexes == Free(b.txnAvailable[..i])
    {
      var available := b.IsTxAvailable(i);
      NextFree(b.txnAvailable, i);
      if !available {
        indexes := indexes + [i];
      }
    }
    assert b.txnAvailable[..m.TxCount()] == b.txnAvailable;
  }

  lemma NextFree(s: Slots, i: nat)
    requires i < |s|
    ensures Free(s[..i + 1]) == Free(s[..i]) + if s[i].None? then [i] else []
  {
    assert s[..i + 1][..i] == s[..i];
  }

  /** The sender looks the transactions up; an index out of bounds is answered with nothing. */
  method SendBlockTransactions(block: seq<Tx>, indexes: seq<nat>) returns (ok: bool, txn: seq<Tx>)
    ensures ok <==> forall i | 0 <= i < |indexes| :: indexes[i] < |block|
    ensures ok ==> |txn| == |indexes| && forall i | 0 <= i < |indexes| :: txn[i] == block[indexes[i]]
  {
    txn := [];
    for i := 0 to |indexes|
      invariant |txn| == i && forall k | 0 <= k < i :: indexes[k] < |block| && txn[k] == block[indexes[k]]
    {
      if indexes[i] >= |block| {
        return false, [];
      }
      txn := txn + [block[indexes[i]]];
    }
    ok := true;
  }

  /** The request survives its encoding as 16-bit differences. */
  lemma IndexesSurvive(avail: Slots)
    requires |avail| <= 65535
    ensures var sent := DifferenceFormat.Encode(Free(avail), 0);
            sent.Ok? && DifferenceFormat.Decode(sent.value, 0, 65535) == DifferenceFormat.Ok(Free(avail))
  {
    FreeIs(avail);
    DifferenceFormat.EncodesIncreasing(Free(avail), 0);
    DifferenceFormat.EncodeDecode(Free(avail), 0, 65535);
  }

  lemma AnswerIsMissing(avail: Slots, block: seq<Tx>, txn: seq<Tx>)
    requires |avail| == |block| && |txn| == |Free(avail)|
    requires forall i | 0 <= i < |txn| :: txn[i] == block[Free(avail)[i]]
    ensures txn == Missing(avail, block)
  {
    MissingIs(avail, block);
  }

  /** The receiver's slots can only hold the coinbase, so they are as the sender's message describes. */
  lemma Received(header: nat, block: seq<Tx>, base: Slots, shortId: nat -> nat)
    requires 0 < |block| <= 65535 && !block[0].isNull
    requires var m := Compress(header, block, shortId); Filled(m, |m.prefilled|, base)
    ensures Describes(Compress(header, block, shortId), block, base, shortId)
    ensures |base| == |block| && forall j | 0 <= j < |base| :: base[j].Some? <==> j == 0
  {
    hide Filled, WellPlaced, Free;
    CompressDescribes(header, block, shortId);
    FilledUnique(Compress(header, block, shortId), base, CoinbaseOnly(block));
  }

  lemma FreeExactly(s: Slots)
    ensures forall j | 0 <= j < |s| :: j in Free(s) <==> s[j].None?
  {
    FreeIs(s);
  }

  /** No two transactions of the block, and none known to the receiver, share a short id. */
  ghost predicate Unambiguous(m: Message, block: seq<Tx>, pool: seq<Tx>, extra: seq<(nat, Tx)>, shortId: nat -> nat) {
    && Distinct(m.shortIds) && Distinct(block)
    && NoneCollide(block, pool, shortId) && NoneCollide(block, Second(extra), shortId)
  }

  /**
   * From announcement to block: whatever the receiver has in its pool and kept aside, as long as no short
   * id is ambiguous and no hash bucket crowded, what is sent on request puts exactly the sender's block
   * together, and the outcome is that block's own.
   */
  method Exchange(header: nat, block: seq<Tx>, shortId: nat -> nat, pool: seq<Tx>, extra: seq<(nat, Tx)>,
                  crowded: nat -> bool, check: seq<Tx> -> Status)
    returns (status: Status, vtx: seq<Tx>, asked: seq<nat>)
    requires 0 < |block| <= 65535 && !block[0].isNull
    requires Unambiguous(Compress(header, block, shortId), block, pool, extra, shortId)
    requires forall i | 0 <= i < |block| :: !crowded(i)
    requires Distinct(pool) && forall i | 0 <= i < |extra| :: extra[i].0 == extra[i].1.wtxid
    ensures vtx == block && status == check(block)
    ensures forall j | 0 <= j < |block| ::
              j in asked <==> j > 0 && block[j] !in pool && block[j] !in Second(extra)
  {
    hide Free, Filled, Assigned, Describes, Ready, Matched, Missing, WellPlaced, NoneCollide, Distinct, PlacedUntil;
    var m := Compress(header, block, shortId);
    CompressDescribes(header, block, shortId);
    var b := new PartiallyDownloadedBlock();
    ghost var base, ids;
    status, base, ids := b.InitData(m, pool, extra, shortId, crowded);
    assert status == OK;
    Received(header, block, base, shortId);
    Reconstructs(m, block, base, ids, shortId, pool, extra, block);
    ghost var avail := b.txnAvailable;
    asked := RequestIndexes(b, m);
    IndexesSurvive(avail);
    var request := DifferenceFormat.Encode(asked, 0).value;
    var ok, txn := SendBlockTransactions(block, DifferenceFormat.Decode(request, 0, 65535).value);
    AnswerIsMissing(avail, block, txn);
    status, vtx := b.FillBlock(txn, check);
    MissingIs(avail, block);
    Rebuilds(avail, block, vtx);
    FreeExactly(avail);
  }
}
