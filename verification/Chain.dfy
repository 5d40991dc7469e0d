/** The block chain: active branch, block index, unspent outputs, orphans and journals, updated in
    place. `Valid` says that the cached state is what a replay of the active blocks gives. */
module Chain {
  import opened Types
  import opened Limits
  import opened Wire
  import opened Codec
  import opened Utxo
  import opened Merkle
  import opened Pow
  import opened Difficulty
  import opened Consensus
  import opened BlockTree
  import opened ChainRules
  import opened ChainSteps
  import opened Journals
  import PlainRules
  import Value
  import Arith
  import Uint256

  class Chain {
    ghost const genesis: Block
    ghost const universe: iset<Block>
    var blocks: seq<Block>
    var activeHashes: set<Hash>
    var known: Known
    var totalWork: Hash
    const utxo: UtxoSet
    var orphans: Orphans
    var orphanReceiveSeq: nat
    var networkTime: u32
    const eventJournal: ChainEventJournal
    const disconnectedJournal: DisconnectedBlockJournal

    /** Index and active chain agree with each other and with the replay of the active blocks. */
    ghost predicate Consistent()
      reads this, utxo
    {
      ChainInv(known, blocks, activeHashes, utxo.entries, genesis, universe)
    }

    ghost predicate JournalsOk()
      reads eventJournal, disconnectedJournal
    {
      && eventJournal.Valid() && disconnectedJournal.Valid()
      && eventJournal.capacity == disconnectedJournal.capacity
      && RecordsDisconnects(eventJournal.log, disconnectedJournal.log)
    }

    ghost predicate Valid()
      reads this, utxo, eventJournal, disconnectedJournal
    {
      hide *;
      && Consistent()
      && JournalsOk()
      && HeaviestTip(known, blocks, totalWork)
      && OrphansOk(orphans, orphanReceiveSeq, known, universe)
    }

    ghost function State(): ChainState
      reads this, utxo, eventJournal
    {
      ChainState(universe, blocks, activeHashes, known, utxo.entries, totalWork, orphans, networkTime, eventJournal.log)
    }

    /** The empty structure that `NewGenesis` fills. */
    constructor Empty(networkTime: u32, capacity: nat, ghost genesis: Block, ghost universe: iset<Block>)
      ensures blocks == [] && activeHashes == {} && known == map[] && totalWork == ZERO_HASH
      ensures orphans == map[] && orphanReceiveSeq == 0 && this.networkTime == networkTime
      ensures this.genesis == genesis && this.universe == universe
      ensures fresh(utxo) && utxo.entries == map[]
      ensures fresh(eventJournal) && fresh(disconnectedJournal)
      ensures eventJournal.log == [] && disconnectedJournal.log == [] && JournalsOk()
      ensures eventJournal.walletHighWater == 0
    {
      blocks, activeHashes, known, totalWork := [], {}, map[], ZERO_HASH;
      orphans, orphanReceiveSeq := map[], 0;
      this.networkTime := networkTime;
      this.genesis, this.universe := genesis, universe;
      utxo := new UtxoSet();
      eventJournal := new ChainEventJournal(capacity);
      disconnectedJournal := new DisconnectedBlockJournal(capacity);
    }

    // ---- queries ----

    function TipHash(): Hash
      reads this
    {
      TipOf(blocks)
    }

    method MedianPastTimeBefore(blockHash: Hash) returns (median: u32)
      ensures median == MedianBefore(known, blockHash)
    {
      hide Median;
      var times: seq<u32> := [];
      var h := blockHash;
      var n := 0;
      ghost var all := AncestorTimes(known, blockHash, MEDIAN_WINDOW);
      assert [] + all == all;
      while n < MEDIAN_WINDOW && h in known
        invariant n <= MEDIAN_WINDOW
        invariant times + AncestorTimes(known, h, MEDIAN_WINDOW - n) == all
        decreases MEDIAN_WINDOW - n
      {
        var header := known[h].block.header;
        assert times + ([header.time] + AncestorTimes(known, header.prevBlockhash, MEDIAN_WINDOW - n - 1)) ==
          times + [header.time] + AncestorTimes(known, header.prevBlockhash, MEDIAN_WINDOW - n - 1);
        times := times + [header.time];
        h := header.prevBlockhash;
        n := n + 1;
      }
      assert times + [] == times;
      median := Median(times);
    }

    method ComputeExpectedBits(height: nat, blockBits: u32) returns (r: Result<u32, BitsError>)
      ensures r == ExpectedBits(blocks, height, blockBits)
    {
      if height == 0 {
        return Ok(blockBits);
      }
      if height % DIFFICULTY_ADJUSTMENT_INTERVAL != 0 {
        if blocks == [] {
          return Err(NoTip);
        }
        return Ok(blocks[|blocks| - 1].header.bits);
      }
      var start := height - DIFFICULTY_ADJUSTMENT_INTERVAL;
      if start >= |blocks| {
        return Ok(MAX_COMPACT_BITS);
      }
      if height > |blocks| {
        return Err(OutOfRange);
      }
      var startTime, endTime := blocks[start].header.time, blocks[height - 1].header.time;
      var timespan: u32 := if endTime < startTime then 0 else endTime - startTime;
      var adjusted := AdjustBits(blocks[height - 1].header.bits, timespan);
      match adjusted
      case Ok(bits) => r := Ok(bits);
      case Err(e) => r := Err(AdjustmentFailed(e));
    }

    // ---- validation ----

    method ValidateBlockLimits(block: Block) returns (r: Result<(), ChainError>)
      ensures r.Ok? <==> WithinBlockLimits(block)
      ensures r == Err(BlockTooLarge) <==> BlockSize(block) > MAX_BLOCK_SERIALIZED_SIZE
      ensures r.Err? ==> r.error in {BlockTooLarge, TooManyTransactions, ScriptTooLarge}
    {
      hide BlockSize;
      if BlockSize(block) > MAX_BLOCK_SERIALIZED_SIZE {
        return Err(BlockTooLarge);
      }
      if |block.transactions| > MAX_TRANSACTIONS_PER_BLOCK {
        return Err(TooManyTransactions);
      }
      for i := 0 to |block.transactions|
        invariant forall k | 0 <= k < i :: ScriptsWithinLimits(block.transactions[k])
      {
        var tx := block.transactions[i];
        for j := 0 to |tx.inputs|
          invariant forall k | 0 <= k < j :: |tx.inputs[k].scriptSig| <= MAX_SCRIPT_SIZE
        {
          if |tx.inputs[j].scriptSig| > MAX_SCRIPT_SIZE {
            assert !ScriptsWithinLimits(tx);
            return Err(ScriptTooLarge);
          }
        }
        for j := 0 to |tx.outputs|
          invariant forall k | 0 <= k < j :: |tx.outputs[k].scriptPubkey| <= MAX_SCRIPT_SIZE
        {
          if |tx.outputs[j].scriptPubkey| > MAX_SCRIPT_SIZE {
            assert !ScriptsWithinLimits(tx);
            return Err(ScriptTooLarge);
          }
        }
      }
      r := Ok(());
    }

    method ValidateHeader(block: Block, parent: Option<Hash>, height: nat) returns (r: Result<(), ChainError>)
      ensures r == HeaderVerdict(known, blocks, networkTime, block, parent, height)
    {
      hide MedianBefore, ExpectedBits, BlockHash, TargetOf, Txids, RootOf;
      var target := FromBits(block.header.bits);
      if target.None? {
        return Err(InvalidProofOfWork);
      }
      MeetsIsNumeric(BlockHash(block), target.value);
      if !Meets(BlockHash(block), target.value) {
        return Err(InvalidProofOfWork);
      }
      var root := MerkleRoot(Txids(block.transactions));
      if root != Some(block.header.merkleRoot) {
        return Err(MerkleRootMismatch);
      }
      var count: nat := 0;
      for i := 0 to |block.transactions|
        invariant count == CoinbaseCount(block.transactions[..i])
      {
        assert block.transactions[..i + 1][..i] == block.transactions[..i];
        if IsCoinbase(block.transactions[i]) {
          count := count + 1;
        }
      }
      assert block.transactions[..|block.transactions|] == block.transactions;
      if count != 1 || !IsCoinbase(block.transactions[0]) {
        return Err(InvalidCoinbaseCount(count));
      }
      if parent.Some? {
        var medianPast := MedianPastTimeBefore(parent.value);
        if !ValidBlockTime(block.header.time, medianPast, networkTime) {
          return Err(InvalidTimestamp(block.header.time, medianPast, networkTime));
        }
      }
      var expected := ComputeExpectedBits(height, block.header.bits);
      if expected.Err? {
        return Err(BitsUnavailable(expected.error));
      }
      if block.header.bits != expected.value {
        return Err(UnexpectedBits(height, expected.value, block.header.bits));
      }
      r := Ok(());
    }

    /** Marks the outpoints a transaction spends; fails on the first one already marked. */
    method MarkSpends(spent: set<OutPoint>, ghost list: seq<OutPoint>, tx: Transaction)
        returns (r: Result<set<OutPoint>, ChainError>)
      requires spent == (set o | o in list) && Distinct(list)
      ensures r.Ok? <==> Distinct(list + InputPoints(SpentInputs(tx)))
      ensures r.Ok? ==> r.value == (set o | o in list + InputPoints(SpentInputs(tx)))
      ensures r.Err? ==> r.error.TransactionInvalid? && r.error.utxoError.DuplicateSpend?
    {
      hide IsCoinbase;
      var inputs, marked := SpentInputs(tx), spent;
      ghost var points := InputPoints(inputs);
      assert list + points[..0] == list;
      for i := 0 to |inputs|
        invariant Distinct(list + points[..i])
        invariant marked == (set o | o in list + points[..i])
      {
        var outpoint := OutPointOf(inputs[i]);
        assert list + points[..i + 1] == list + points[..i] + [outpoint];
        if outpoint in marked {
          NotDistinct(list + points[..i], list + points, outpoint);
          return Err(TransactionInvalid(DuplicateSpend(outpoint)));
        }
        DistinctSnoc(list + points[..i], outpoint);
        marked := marked + {outpoint};
      }
      assert points[..|inputs|] == points;
      r := Ok(marked);
    }

    /** The value and script rules for one transaction against the view so far. */
    method ValidateInView(view: UtxoSet, tx: Transaction) returns (r: Result<(), ChainError>)
      ensures r.Ok? <==> TxAccepted(view.entries, tx)
      ensures r.Err? ==> r.error.TransactionInvalid? || r.error == InvalidScript
    {
      hide ScriptsOk;
      var valid := view.ValidateTransaction(tx);
      if valid.Err? {
        return Err(TransactionInvalid(valid.error));
      }
      if !IsCoinbase(tx) {
        var scripts := view.VerifyScripts(tx);
        if scripts.Err? {
          return Err(InvalidScript);
        }
      }
      r := Ok(());
    }

    method ValidateTransactions(block: Block) returns (r: Result<(), ChainError>)
      ensures r.Ok? <==> TxsValid(utxo.entries, block.transactions)
      ensures r.Err? ==> r.error.TransactionInvalid? || r.error == InvalidScript
    {
      hide TxAccepted, SpendList, Distinct, ApplyTx, ApplyTxs, InputPoints, SpentInputs, UndoOf;
      var view := new UtxoSet.Clone(utxo.entries);
      var txs := block.transactions;
      var spent: set<OutPoint> := {};
      EmptyList(utxo.entries);
      assert txs[..0] == [];
      for i := 0 to |txs|
        invariant view.entries == ApplyTxs(utxo.entries, txs[..i])
        invariant Distinct(SpendList(txs[..i])) && spent == (set o | o in SpendList(txs[..i]))
        invariant forall k | 0 <= k < i :: TxAccepted(ApplyTxs(utxo.entries, txs[..k]), txs[k])
      {
        var tx := txs[i];
        ListSnoc(utxo.entries, txs, i);
        var marked := MarkSpends(spent, SpendList(txs[..i]), tx);
        if marked.Err? {
          if Distinct(SpendList(txs)) {
            SpendListPrefix(txs, i + 1);
          }
          return Err(marked.error);
        }
        spent := marked.value;
        var accepted := ValidateInView(view, tx);
        if accepted.Err? {
          assert !TxAccepted(ApplyTxs(utxo.entries, txs[..i]), txs[i]);
          return Err(accepted.error);
        }
        var _ := view.ApplyTransaction(tx);
      }
      assert txs[..|txs|] == txs;
      r := Ok(());
    }

    method ApplyBlockTransactions(block: Block) returns (undos: seq<TxUndo>)
      modifies utxo
      ensures utxo.entries == ApplyTxs(old(utxo.entries), block.transactions)
      ensures undos == UndosOf(old(utxo.entries), block.transactions)
    {
      hide ApplyTx, UndoOf;
      ghost var m, txs := utxo.entries, block.transactions;
      undos := [];
      assert txs[..0] == [];
      for i := 0 to |block.transactions|
        invariant utxo.entries == ApplyTxs(m, txs[..i])
        invariant undos == UndosOf(m, txs[..i])
      {
        assert txs[..i + 1][..i] == txs[..i];
        var undo := utxo.ApplyTransaction(block.transactions[i]);
        undos := undos + [undo];
      }
      assert txs[..|txs|] == txs;
    }

    // ---- connecting and disconnecting one block ----

    /** Appends an event that is no disconnect. */
    method LogEvent(event: ChainEvent)
      requires JournalsOk() && !event.BlockDisconnected?
      modifies eventJournal`nextSeq, eventJournal`entries, eventJournal`log
      ensures JournalsOk() && eventJournal.log == old(eventJournal.log) + [event]
    {
      RecordsAfterOther(eventJournal.log, disconnectedJournal.log, event);
      hide RecordsDisconnects;
      var _ := eventJournal.Push(event);
    }

    /** Puts a block that may follow the tip on the active chain and records it with its undo data. */
    method ConnectToTip(block: Block, height: nat, work: Hash)
      requires Consistent() && JournalsOk()
      requires MayFollow(blocks, block) && PrevOf(block) == TipOf(blocks)
      requires block in universe && BlockHash(block) !in activeHashes && height == |blocks|
      requires CandidateWork(known, block, work)
      requires JoinsAs(known, BlockMeta(block, height, work, []))
      modifies this`blocks, this`activeHashes, this`known, utxo
      modifies eventJournal`nextSeq, eventJournal`entries, eventJournal`log
      ensures Consistent() && JournalsOk()
      ensures blocks == old(blocks) + [block] && activeHashes == old(activeHashes) + {BlockHash(block)}
      ensures known == old(known)[BlockHash(block) :=
        BlockMeta(block, height, work, UndosOf(old(utxo.entries), block.transactions))]
      ensures KeepsNodes(old(known), known)
      ensures eventJournal.log == old(eventJournal.log) + [ConnectEvent(block, height)]
      ensures EventsTurn(known, old(eventJournal.log), eventJournal.log, old(blocks), blocks)
    {
      hide BlockHash, MayFollow, ApplyTxs, UndosOf, ChainInv, KeepsNodes, EventsTurn, RecordsDisconnects;
      ghost var m := utxo.entries;
      ghost var meta := BlockMeta(block, height, work, UndosOf(m, block.transactions));
      JoinKeepsInv(known, blocks, activeHashes, m, genesis, universe, meta);
      var hash := BlockHash(block);
      var undo := ApplyBlockTransactions(block);
      known := known[hash := BlockMeta(block, height, work, undo)];
      ConnectEventTurns(known, eventJournal.log, blocks, block);
      blocks := blocks + [block];
      activeHashes := activeHashes + {hash};
      LogEvent(BlockConnected(height, hash, |block.transactions|));
    }

    /** Takes the tip off the active chain by its stored undo data. */
    method DisconnectTipBlock() returns (r: Result<(), ChainError>)
      requires Consistent() && JournalsOk() && |blocks| > 1
      modifies this`blocks, this`activeHashes, this`totalWork, utxo, disconnectedJournal
      modifies eventJournal`nextSeq, eventJournal`entries, eventJournal`log
      ensures r.Ok? && Consistent() && JournalsOk()
      ensures TipLeft(old(blocks), blocks, old(eventJournal.log), eventJournal.log, old(disconnectedJournal.log),
                      disconnectedJournal.log)
      ensures EventsTurn(known, old(eventJournal.log), eventJournal.log, old(blocks), blocks)
    {
      hide BlockHash, RevertAll, ChainInv, EventsTurn, RecordsDisconnects;
      RetractKeepsInv(known, blocks, activeHashes, utxo.entries, genesis, universe);
      ghost var n := |blocks| - 1;
      var block := blocks[|blocks| - 1];
      var hash := BlockHash(block);
      DisconnectEventTurns(known, eventJournal.log, blocks, n);
      RecordsAfterDisconnect(eventJournal.log, disconnectedJournal.log, n, block);
      blocks := blocks[..|blocks| - 1];
      activeHashes := activeHashes - {hash};
      var height := |blocks|;
      if hash !in known {
        return Err(MissingAncestor);
      }
      RunUndo(known[hash].undo);
      var newTip := TipHash();
      totalWork := if newTip in known then known[newTip].work else ZERO_HASH;
      var seqNo := eventJournal.Push(BlockDisconnected(height, hash));
      disconnectedJournal.Record(seqNo, block);
      r := Ok(());
    }

    /** Runs undo entries last to first. */
    method RunUndo(undos: seq<TxUndo>)
      modifies utxo
      ensures utxo.entries == RevertAll(old(utxo.entries), undos)
    {
      hide Revert;
      ghost var m := utxo.entries;
      assert undos[..|undos|] == undos;
      for i := |undos| downto 0
        invariant RevertAll(utxo.entries, undos[..i]) == RevertAll(m, undos)
      {
        assert undos[..i + 1][..i] == undos[..i];
        utxo.DisconnectUndo(undos[i]);
      }
    }

    /** The work of a block whose bits are known not to overflow. */
    method WorkFor(block: Block) returns (r: Result<Hash, ChainError>)
      requires WorkComputes(block.header.bits)
      ensures r.Ok? <==> BlockWork(block.header.bits).Some?
      ensures r.Ok? ==> Num(r.value) == WorkOfBlock(block)
      ensures r.Err? ==> r.error == InvalidProofOfWork
    {
      hide BlockWork, WorkComputes;
      var work := ComputeBlockWork(block.header.bits);
      r := if work.Work? then Ok(work.value) else Err(InvalidProofOfWork);
    }

    method ValidateBlockForParent(block: Block, parent: Option<Hash>, height: nat) returns (r: Result<(), ChainError>)
      ensures r.Ok? <==>
        && HeaderVerdict(known, blocks, networkTime, block, parent, height).Ok?
        && TxsValid(utxo.entries, block.transactions)
      ensures
        match HeaderVerdict(known, blocks, networkTime, block, parent, height)
        case Err(e) => r == Err(e)
        case Ok(_) => r.Err? ==> r.error.TransactionInvalid? || r.error == InvalidScript
    {
      hide HeaderVerdict, TxsValid;
      var _ :- ValidateHeader(block, parent, height);
      r := ValidateTransactions(block);
    }

    // ---- reorganisation ----

    /** The blocks from the active branch to the given one, found by walking parents until an active one. */
    method CollectForkPath(block: Block) returns (r: Result<(seq<Block>, Hash), ChainError>)
      requires Consistent() && PrevOf(block) in known
      ensures r.Ok? && ForkPath(known, activeHashes, r.value.0, r.value.1, block)
    {
      hide BlockHash, Sealed, MedianBefore, WorkOfBlock, ValidChain, Admissible, AllActive, TreeInv, ActiveInv;
      var path := [block];
      ActiveIsSubset(known, blocks, activeHashes, utxo.entries, genesis);
      while PrevOf(path[|path| - 1]) !in activeHashes
        invariant path != [] && path[0] == block && PrevOf(path[|path| - 1]) in known
        invariant LinkedDown(path) && InactiveTail(known, activeHashes, path)
        decreases known[PrevOf(path[|path| - 1])].height
      {
        var parentHash := PrevOf(path[|path| - 1]);
        if parentHash !in known {
          return Err(MissingAncestor);
        }
        ParentOf(known, genesis, universe, parentHash);
        path := path + [known[parentHash].block];
      }
      ReversedPath(known, activeHashes, path, block);
      r := Ok((Reversed(path), PrevOf(path[|path| - 1])));
    }

    /** Disconnects blocks until the fork block is the tip; it never disconnects the fork block. */
    method RewindTo(fork: Hash) returns (r: Result<nat, ChainError>)
      requires Consistent() && JournalsOk() && fork in activeHashes
      modifies this`blocks, this`activeHashes, this`totalWork, utxo, disconnectedJournal
      modifies eventJournal`nextSeq, eventJournal`entries, eventJournal`log
      ensures RewoundTo(known, fork, old(blocks), blocks) && TipHash() == fork
      ensures r == Ok(|old(blocks)| - |blocks|)
      ensures Consistent() && JournalsOk()
      ensures activeHashes <= old(activeHashes)
      ensures EventsTurn(known, old(eventJournal.log), eventJournal.log, old(blocks), blocks)
      ensures ActiveSince([], old(eventJournal.log), eventJournal.log)
    {
      hide BlockHash, AllActive, ValidChain, Admissible, TreeInv, EventsTurn, RecordsDisconnects, Hashes, ActiveSince;
      ghost var all := blocks;
      ghost var f := ActiveIsKnown(known, blocks, activeHashes, utxo.entries, genesis, fork);
      var disconnected := 0;
      EventsTurnNothing(known, eventJournal.log, blocks);
      ActiveSinceNow([], eventJournal.log);
      assert all[..|all|] == all;
      while TipHash() != fork
        invariant Consistent() && JournalsOk()
        invariant f < |blocks| <= |all| && blocks == all[..|blocks|]
        invariant disconnected == |all| - |blocks|
        invariant activeHashes <= old(activeHashes)
        invariant EventsTurn(known, old(eventJournal.log), eventJournal.log, all, blocks)
        invariant ActiveSince([], old(eventJournal.log), eventJournal.log)
        decreases |blocks|
      {
        assert blocks[f] == all[f];
        if |blocks| == f + 1 {
          assert false;
        }
        ghost var log, longer, hashes := eventJournal.log, blocks, activeHashes;
        var _ := DisconnectTipBlock();
        ActiveSinceSnoc([], old(eventJournal.log), log, eventJournal.log[|log|]);
        EventsTurnTrans(known, old(eventJournal.log), log, eventJournal.log, all, longer, blocks);
        assert blocks == all[..|blocks|];
        ShrunkHashes(longer, blocks);
        disconnected := disconnected + 1;
      }
      TipIsKnown(known, blocks, activeHashes, utxo.entries, genesis);
      r := Ok(disconnected);
    }

    /** The cumulative work of a block under a known parent. */
    method WorkUnder(block: Block) returns (r: Result<Hash, ChainError>)
      requires Consistent() && block in universe && PrevOf(block) in known && WorkMayBeComputed(blocks, block)
      ensures
        match r
        case Err(e) => BlockWork(block.header.bits).None? && e == InvalidProofOfWork
        case Ok(work) => BlockWork(block.header.bits).Some? && CandidateWork(known, block, work)
    {
      hide BlockHash, BlockWork, WorkComputes, ChainInv, WorkOfBlock, FromLe, WorkMayBeComputed;
      WorkFits(known, blocks, activeHashes, utxo.entries, genesis, universe, block);
      var blockWork :- WorkFor(block);
      AddedWork(known, block, blockWork);
      var work := Uint256.AddChainWork(known[PrevOf(block)].work, blockWork);
      CandidateIs(known, block, blockWork, work);
      r := Ok(work);
    }

    /** The cumulative work of a block on the tip. */
    method WorkOnTip(block: Block) returns (r: Result<Hash, ChainError>)
      requires Consistent() && block in universe && PrevOf(block) == TipOf(blocks) && WorkMayBeComputed(blocks, block)
      ensures
        match r
        case Err(_) => BlockWork(block.header.bits).None?
        case Ok(work) =>
          && BlockWork(block.header.bits).Some? && CandidateWork(known, block, work)
          && RecordedAbove(known, activeHashes, genesis, block, |blocks|, work)
    {
      hide BlockHash, BlockWork, ActiveInv, TreeInv, Admissible, WorkOfBlock, WithinBlockLimits, WorkMayBeComputed;
      TipIsKnown(known, blocks, activeHashes, utxo.entries, genesis);
      var work :- WorkUnder(block);
      ghost var hash := BlockHash(block);
      if KnownAs(known, genesis, block) {
        KnownChildOfTip(known, blocks, activeHashes, utxo.entries, genesis, universe, hash);
        Arith.FromLeInjective(work, known[hash].work);
      }
      r := Ok(work);
    }

    /** Validates a block of the fork path against the chain it now extends, and connects it exactly if it
        passes every check there. */
    method ConnectForkBlock(block: Block) returns (r: Result<(), ChainError>)
      requires Consistent() && JournalsOk()
      requires PrevOf(block) == TipOf(blocks)
      requires block in universe && WithinBlockLimits(block) && BlockWork(block.header.bits).Some?
      requires KnownOnlyAs(known, genesis, block)
      modifies this`blocks, this`activeHashes, this`known, utxo
      modifies eventJournal`nextSeq, eventJournal`entries, eventJournal`log
      ensures JournalsOk()
      ensures r.Err? ==> known == old(known) && eventJournal.log == old(eventJournal.log)
      ensures r.Ok? ==> Consistent() && blocks == old(blocks) + [block]
      ensures r.Ok? ==> Joined(old(known), known, block)
      ensures r.Ok? ==> ActiveSince(blocks, old(eventJournal.log), eventJournal.log)
      ensures r.Ok? ==> EventsTurn(known, old(eventJournal.log), eventJournal.log, old(blocks), blocks)
      ensures Judged(old(blocks), networkTime, block, r)
      ensures r.Ok? <==> PassesOn(old(blocks), networkTime, block)
    {
      hide BlockHash, WithinBlockLimits, BlockWork, ActiveInv, TreeInv, Admissible, HeaderVerdict, TxsValid,
           MayFollow, UndosOf, ApplyTxs, KeepsNodes, EventsTurn, RecordsDisconnects, WorkOfBlock, FromLe, MeetsTarget,
           Joined, JoinsAs, KnownOnlyAs, RecordedAbove, CandidateWork, AgreeOn, VerdictOn, Replay, ActiveSince,
           WorkMayBeComputed;
      var height := |blocks|;
      VerdictOfActive(known, blocks, activeHashes, utxo.entries, genesis, universe, networkTime, block);
      var _ :- ValidateBlockForParent(block, Some(PrevOf(block)), height);
      AcceptedMayFollow(known, blocks, activeHashes, utxo.entries, genesis, universe, networkTime, block);
      ActiveIsSubset(known, blocks, activeHashes, utxo.entries, genesis);
      AcceptedMayBeComputed(known, blocks, networkTime, block, height);
      var work := WorkOnTip(block);
      ghost var before, log, chainBefore := known, eventJournal.log, blocks;
      ForkBlockJoins(known, blocks, activeHashes, utxo.entries, genesis, block, work.value);
      ConnectToTip(block, height, work.value);
      JoinedAfter(before, known[BlockHash(block)]);
      ActiveSinceNow(chainBefore, log);
      ActiveSinceConnect(chainBefore, log, log, block);
      r := Ok(());
    }

    /** Moves the active chain to the fork path exactly if each of its blocks passes the checks on the chain
        it extends. On failure only the index off the old active branch and the event log have changed for
        good. */
    method TryReorgToBlock(path: seq<Block>, fork: Hash, newTipWork: Hash, ghost last: Block)
        returns (r: Result<nat, ChainError>)
      requires Consistent() && JournalsOk()
      requires ForkPath(known, activeHashes, path, fork, last)
      requires Joining(known, universe, last) && CandidateWork(known, last, newTipWork)
      modifies this`blocks, this`activeHashes, this`known, this`totalWork, utxo, disconnectedJournal
      modifies eventJournal`nextSeq, eventJournal`entries, eventJournal`log
      ensures JournalsOk()
      ensures r.Err? ==>
        Spoiled(old(State()), State()) && Broke(old(State()), known, eventJournal.log, path, fork, r.error)
      ensures r.Ok? ==> Consistent() && ReorgResult(old(State()), State(), last, newTipWork, r, path, fork)
    {
      hide BlockHash, WithinBlockLimits, BlockWork, Admissible, TreeInv, ActiveInv, EventsTurn, RecordsDisconnects,
           WorkOfBlock, KeepsNodes, Num, Climbed, Joined, SameTree, AgreeOn, Joining, GrownBy, ForkPath, PassesOn, FailsOn,
           BranchPasses, Broke, BaseOf, KnownOnlyAs, CandidateWork, ActiveSince, Climbing;
      ghost var start := State();
      ForkIsKnown(known, blocks, activeHashes, utxo.entries, genesis, path, fork, last);
      if fork !in known {
        return Err(MissingAncestor);
      }
      var rewound := RewindTo(fork);
      BaseIs(start, fork);
      ClimbStart(start.known, start.active, path, fork, last, universe, newTipWork);
      ClimbingStart(start, path, fork, last, newTipWork, eventJournal.log);
      for i := 0 to |path|
        invariant Consistent() && JournalsOk()
        invariant TipOf(blocks) == if i == 0 then fork else BlockHash(path[i - 1])
        invariant Climbing(start, path, fork, last, newTipWork, i, known, blocks, eventJournal.log)
      {
        var block := path[i];
        ghost var before, logBefore, chainBefore := known, eventJournal.log, blocks;
        PathParent(start.known, start.active, path, fork, last, i);
        ClimbingParts(start, path, fork, last, newTipWork, i, known, blocks, eventJournal.log);
        PathBlockJoins(path, i, block, start.known, known, start.active, genesis, universe, fork, last, newTipWork);
        var connected := ConnectForkBlock(block);
        if connected.Err? {
          ClimbingBreaks(start, path, fork, last, newTipWork, i, before, chainBefore, logBefore, connected.error);
          return Err(connected.error);
        }
        ClimbingStep(start, path, fork, last, newTipWork, i, before, chainBefore, logBefore, known, eventJournal.log);
      }
      ClimbingEnd(start, path, fork, last, newTipWork, known, blocks, eventJournal.log);
      totalWork := newTipWork;
      r := Ok(rewound.value);
    }

    /** Reorganises to the branch of a new block, or restores the old active state. */
    method ReorgToBlock(newBlock: Block, newTipWork: Hash)
        returns (r: Result<nat, ChainError>, ghost path: seq<Block>, ghost fork: Hash)
      requires Consistent() && JournalsOk()
      requires Joining(known, universe, newBlock)
      requires CandidateWork(known, newBlock, newTipWork)
      modifies this`blocks, this`activeHashes, this`known, this`totalWork, utxo, disconnectedJournal
      modifies eventJournal`nextSeq, eventJournal`entries, eventJournal`log
      ensures Consistent() && JournalsOk()
      ensures ReorgResult(old(State()), State(), newBlock, newTipWork, r, path, fork)
    {
      hide BlockHash, Admissible, TreeInv, ActiveInv, EventsTurn, RecordsDisconnects, WorkOfBlock, SameTree, AgreeOn,
           Joining, GrownBy, ForkPath, Num, Broke, BranchPasses, BaseOf, Moved, JournalsOk, CandidateWork,
           ActiveSince;
      assert PrevOf(newBlock) in known && BlockHash(newBlock) !in known by {
        JoiningFacts(known, universe, newBlock);
      }
      var collected := CollectForkPath(newBlock);
      path, fork := collected.value.0, collected.value.1;
      var blocksSnapshot, utxoSnapshot, workSnapshot, hashesSnapshot := blocks, utxo.entries, totalWork, activeHashes;
      ghost var tree := known;
      r := TryReorgToBlock(collected.value.0, collected.value.1, newTipWork, newBlock);
      if r.Err? {
        RollbackKeepsInv(tree, known, blocksSnapshot, hashesSnapshot, utxoSnapshot, genesis, universe);
        blocks := blocksSnapshot;
        utxo.entries := utxoSnapshot;
        totalWork := workSnapshot;
        activeHashes := hashesSnapshot;
      }
    }

    // ---- orphans ----

    method OldestOrphan() returns (oldest: Option<Hash>)
      ensures oldest == None <==> orphans == map[]
      ensures oldest.Some? ==> Oldest(orphans, oldest.value)
      ensures oldest.Some? ==> oldest.value in orphans
      ensures oldest.Some? ==> forall k | k in orphans :: orphans[oldest.value].receivedAt <= orphans[k].receivedAt
    {
      oldest := None;
      var rest := orphans.Keys;
      while rest != {}
        invariant rest <= orphans.Keys
        invariant oldest == None <==> rest == orphans.Keys
        invariant oldest.Some? ==> oldest.value in orphans && forall k | k in orphans && k !in rest ::
          orphans[oldest.value].receivedAt <= orphans[k].receivedAt
        decreases |rest|
      {
        var h :| h in rest;
        rest := rest - {h};
        if oldest == None || orphans[h].receivedAt < orphans[oldest.value].receivedAt {
          oldest := Some(h);
        }
      }
    }

    method EvictOldestOrphan()
      requires JournalsOk()
      modifies this`orphans
      modifies eventJournal`nextSeq, eventJournal`entries, eventJournal`log
      ensures JournalsOk()
      ensures old(orphans) == map[] ==> orphans == map[] && eventJournal.log == old(eventJournal.log)
      ensures old(orphans) != map[] ==> exists h | Oldest(old(orphans), h) ::
        orphans == old(orphans) - {h} && eventJournal.log == old(eventJournal.log) + [OrphanEvicted(h)]
    {
      hide RecordsDisconnects;
      var oldest := OldestOrphan();
      if oldest.Some? {
        orphans := orphans - {oldest.value};
        LogEvent(OrphanEvicted(oldest.value));
      }
    }

    /** Evicts the oldest orphan from a full pool. */
    method MakeOrphanRoom()
      requires JournalsOk() && OrphansOk(orphans, orphanReceiveSeq, known, universe)
      modifies this`orphans
      modifies eventJournal`nextSeq, eventJournal`entries, eventJournal`log
      ensures JournalsOk() && OrphansOk(orphans, orphanReceiveSeq, known, universe) && |orphans| < MAX_ORPHAN_BLOCKS
      ensures MadeRoom(old(orphans), orphans, old(eventJournal.log), eventJournal.log)
      ensures orphans.Keys <= old(orphans).Keys
      ensures EventsTurn(known, old(eventJournal.log), eventJournal.log, blocks, blocks)
    {
      hide RecordsDisconnects, EventsTurn, OrphansOk, Oldest, MadeRoom;
      ghost var before, log := orphans, eventJournal.log;
      if |orphans| >= MAX_ORPHAN_BLOCKS {
        assert orphans != map[];
        EvictOldestOrphan();
        ghost var h :| Oldest(before, h) && orphans == before - {h} && eventJournal.log == log + [OrphanEvicted(h)];
        RoomMade(before, orphans, h, log);
        OrphansWithout(before, orphanReceiveSeq, known, universe, h);
        OtherEventTurns(known, log, OrphanEvicted(h), blocks);
      } else {
        RoomKept(orphans, log);
        EventsTurnNothing(known, log, blocks);
      }
    }

    /** Pools a block without a known parent. */
    method InsertOrphan(block: Block)
      requires JournalsOk() && OrphansOk(orphans, orphanReceiveSeq, known, universe)
      requires BlockHash(block) !in known && BlockHash(block) !in orphans && block in universe
      modifies this`orphans, this`orphanReceiveSeq
      modifies eventJournal`nextSeq, eventJournal`entries, eventJournal`log
      ensures JournalsOk() && OrphansOk(orphans, orphanReceiveSeq, known, universe)
      ensures orphanReceiveSeq == old(orphanReceiveSeq) + 1
      ensures Pooled(old(orphans), orphans, block, orphanReceiveSeq, old(eventJournal.log), eventJournal.log)
      ensures EventsTurn(known, old(eventJournal.log), eventJournal.log, blocks, blocks)
    {
      hide BlockHash, RecordsDisconnects, EventsTurn, OrphansOk, MadeRoom, Pooled;
      ghost var before, log := orphans, eventJournal.log;
      MakeOrphanRoom();
      OrphansWith(orphans, orphanReceiveSeq, known, universe, block);
      PooledInRoom(before, orphans, block, orphanReceiveSeq + 1, log, eventJournal.log);
      var hash := BlockHash(block);
      orphanReceiveSeq := orphanReceiveSeq + 1;
      orphans := orphans[hash := OrphanEntry(block, orphanReceiveSeq)];
      ghost var logBefore := eventJournal.log;
      OtherEventTurns(known, logBefore, OrphanAdded(hash, |orphans|), blocks);
      LogEvent(OrphanAdded(hash, |orphans|));
      EventsTurnTrans(known, log, logBefore, eventJournal.log, blocks, blocks, blocks);
    }

    // ---- connecting a block ----

    /** Records a block that extends the tip. */
    method ExtendTip(block: Block, height: nat, work: Hash)
      requires Valid() && block in universe && Admitted(State(), block)
      requires PrevOf(block) in known && PrevOf(block) == TipHash() && height == known[PrevOf(block)].height + 1
      requires CandidateWork(known, block, work)
      modifies this`blocks, this`activeHashes, this`known, this`totalWork, utxo
      modifies eventJournal`nextSeq, eventJournal`entries, eventJournal`log
      ensures Valid() && TipOutcome(old(State()), State(), block, height)
      ensures EventsTurn(known, old(eventJournal.log), eventJournal.log, old(blocks), blocks)
    {
      hide BlockHash, WithinBlockLimits, BlockWork, ActiveInv, TreeInv, Admissible, HeaderVerdict, TxsValid, MayFollow,
           UndosOf, ApplyTxs, KeepsNodes, EventsTurn, RecordsDisconnects, WorkOfBlock, OrphansOk, HeaviestTip, FromLe,
           JournalsOk;
      ghost var before := State();
      TipHasTotal(known, blocks, totalWork);
      TipIsKnown(known, blocks, activeHashes, utxo.entries, genesis);
      AcceptedMayFollow(known, blocks, activeHashes, utxo.entries, genesis, universe, networkTime, block);
      ActiveIsSubset(known, blocks, activeHashes, utxo.entries, genesis);
      ConnectToTip(block, height, work);
      totalWork := work;
      NewTipIsHeaviest(before.known, known, before.blocks, before.total, blocks, work);
      OrphansAfterGrowth(orphans, orphanReceiveSeq, before.known, known, universe, BlockHash(block));
    }

    /** Records a block on a branch that is not heavier than the active one. */
    method RecordSide(block: Block, height: nat, work: Hash)
      requires Valid() && block in universe && Admitted(State(), block)
      requires PrevOf(block) in known && PrevOf(block) != TipHash() && height == known[PrevOf(block)].height + 1
      requires CandidateWork(known, block, work) && Num(work) <= Num(totalWork)
      modifies this`known
      ensures Valid() && SideOutcome(old(State()), State(), block, height)
    {
      hide BlockHash, WithinBlockLimits, BlockWork, ActiveInv, TreeInv, Admissible, HeaderVerdict, TxsValid, Sealed, ChildOk,
           KeepsNodes, RecordsDisconnects, WorkOfBlock, OrphansOk, HeaviestTip, FromLe, JournalsOk;
      ghost var before := State();
      ghost var meta := BlockMeta(block, height, work, []);
      AcceptedIsChild(known, blocks, networkTime, meta);
      SideKeepsInv(known, blocks, activeHashes, utxo.entries, genesis, universe, meta);
      known := known[BlockHash(block) := BlockMeta(block, height, work, [])];
      OldTipIsHeaviest(before.known, known, blocks, totalWork, block, work);
      OrphansAfterGrowth(orphans, orphanReceiveSeq, before.known, known, universe, BlockHash(block));
      assert Recorded(before, State(), block, work);
    }

    /** Reorganises to a heavier branch; a failure leaves the active state as it was. */
    method OvertakeTip(block: Block, work: Hash)
        returns (r: Result<ConnectResult, ChainError>, ghost path: seq<Block>, ghost fork: Hash, ghost depth: nat)
      requires Valid() && block in universe && Admitted(State(), block)
      requires PrevOf(block) in known && PrevOf(block) != TipHash()
      requires CandidateWork(known, block, work) && Num(work) > Num(totalWork)
      modifies this`blocks, this`activeHashes, this`known, this`totalWork, utxo, disconnectedJournal
      modifies eventJournal`nextSeq, eventJournal`entries, eventJournal`log
      ensures Valid()
      ensures Outcome(old(State()), State(), block, r, path, fork, depth)
    {
      hide BlockHash, WithinBlockLimits, BlockWork, ActiveInv, TreeInv, Admissible, HeaderVerdict, TxsValid, ForkPath,
           EventsTurn, KeepsNodes, RecordsDisconnects, WorkOfBlock, OrphansOk, HeaviestTip, FromLe, JournalsOk, SameTree,
           Broke, BranchPasses, BaseOf, ActiveSince;
      ghost var before := State();
      var oldTip := TipHash();
      depth := 0;
      var reorg;
      reorg, path, fork := ReorgToBlock(block, work);
      if reorg.Err? {
        SameTreeIsHeaviest(before.known, known, blocks, totalWork);
        OrphansSameTree(orphans, orphanReceiveSeq, before.known, known, universe);
        return Err(reorg.error), path, fork, depth;
      }
      depth := reorg.value;
      ReorgEndsAt(before.known, before.active, before.blocks, blocks, block, path, fork, depth);
      NewTipIsHeaviest(before.known, known, before.blocks, before.total, blocks, work);
      OrphansAfterGrowth(orphans, orphanReceiveSeq, before.known, known, universe, BlockHash(block));
      var newTip := TipHash();
      ghost var logBefore := eventJournal.log;
      OtherEventTurns(known, logBefore, ChainReorg(reorg.value, oldTip, newTip), blocks);
      LogEvent(ChainReorg(reorg.value, oldTip, newTip));
      ActiveSinceSnoc(blocks, before.log, logBefore, ChainReorg(reorg.value, oldTip, newTip));
      EventsTurnTrans(known, before.log, logBefore, eventJournal.log, before.blocks, blocks, blocks);
      r := Ok(Reorganized(oldTip, newTip));
    }

    /** Pools a block whose parent is unknown. */
    method PoolOrphan(block: Block)
      requires Valid() && block in universe && Admitted(State(), block) && PrevOf(block) !in known
      modifies this`orphans, this`orphanReceiveSeq
      modifies eventJournal`nextSeq, eventJournal`entries, eventJournal`log
      ensures Valid() && OrphanOutcome(old(State()), State(), block)
      ensures EventsTurn(known, old(eventJournal.log), eventJournal.log, old(blocks), blocks)
    {
      hide BlockHash, WithinBlockLimits, EventsTurn, RecordsDisconnects, OrphansOk, Num, JournalsOk, HeaviestTip, Pooled,
           ChainInv, MadeRoom, HeaderVerdict, TxsValid, BlockWork;
      ghost var before := State();
      InsertOrphan(block);
      assert Pooled(before.orphans, orphans, block, orphanReceiveSeq, before.log, eventJournal.log);
    }

    /** One attempt to connect a block, without the promotion of orphans. */
    method ConnectSingle(block: Block)
        returns (r: Result<ConnectResult, ChainError>, ghost path: seq<Block>, ghost fork: Hash, ghost depth: nat)
      requires Valid() && block in universe
      modifies this, utxo, disconnectedJournal
      modifies eventJournal`nextSeq, eventJournal`entries, eventJournal`log
      ensures Valid() && networkTime == old(networkTime)
      ensures Outcome(old(State()), State(), block, r, path, fork, depth)
      ensures ErrorFits(old(State()), block, r)
    {
      hide BlockHash, BlockSize, WithinBlockLimits, HeaderVerdict, TxsValid, BlockWork, Outcome, ChainInv, JournalsOk,
           HeaviestTip, OrphansOk, EventsTurn, WorkOfBlock, Num, OrphanOutcome, TipOutcome, SideOutcome, CandidateWork,
           Valid, WorkMayBeComputed;
      path, fork, depth := [], ZERO_HASH, 0;
      ghost var before := State();
      var limits := ValidateBlockLimits(block);
      if limits.Err? {
        RejectedOutcome(before, block, limits.error, path, fork, depth);
        return Err(limits.error), path, fork, depth;
      }
      var hash := BlockHash(block);
      if hash in known || hash in orphans {
        RejectedOutcome(before, block, BlockAlreadyKnown, path, fork, depth);
        return Err(BlockAlreadyKnown), path, fork, depth;
      }
      var parentHash := block.header.prevBlockhash;
      if parentHash !in known {
        PoolOrphan(block);
        OrphanedOutcome(before, State(), block, path, fork, depth);
        return Ok(Orphaned(hash)), path, fork, depth;
      }
      var parent := known[parentHash];
      var height := parent.height + 1;
      var verdict := ValidateBlockForParent(block, Some(parentHash), height);
      if verdict.Err? {
        RejectedOutcome(before, block, verdict.error, path, fork, depth);
        return Err(verdict.error), path, fork, depth;
      }
      ValidIsChainInv();
      AcceptedMayBeComputed(known, blocks, networkTime, block, height);
      var work := WorkUnder(block);
      if work.Err? {
        RejectedOutcome(before, block, work.error, path, fork, depth);
        return Err(work.error), path, fork, depth;
      }
      var candidate := work.value;
      if parentHash == TipHash() {
        ExtendTip(block, height, candidate);
        ConnectedOutcome(before, State(), block, height, path, fork, depth);
        return Ok(Connected(height, hash)), path, fork, depth;
      }
      CompareWork(candidate, totalWork);
      if Uint256.CompareLe(candidate, totalWork) != Uint256.Greater {
        RecordSide(block, height, candidate);
        EventsTurnNothing(known, eventJournal.log, blocks);
        SideChainOutcome(before, State(), block, height, path, fork, depth);
        return Ok(SideChain(height, hash)), path, fork, depth;
      }
      r, path, fork, depth := OvertakeTip(block, candidate);
    }

    lemma ValidIsChainInv()
      requires Valid()
      ensures ChainInv(known, blocks, activeHashes, utxo.entries, genesis, universe)
    {
      hide ChainInv;
    }

    /** Moves the orphans whose parent is known to the end of the queue. */
    method EnqueueReadyOrphans(queue: seq<Block>) returns (longer: seq<Block>)
      requires OrphansOk(orphans, orphanReceiveSeq, known, universe) && QueueOk(queue, orphans, known, universe)
      modifies this`orphans
      ensures OrphansOk(orphans, orphanReceiveSeq, known, universe) && QueueOk(longer, orphans, known, universe)
      ensures orphans == Waiting(old(orphans), known)
      ensures |longer| + |orphans| == |queue| + |old(orphans)|
      ensures Enqueues(old(orphans), orphans, queue, longer)
    {
      hide BlockHash, OrphansOk, QueueOk, Ready, TakenReady, Enqueues, Waiting;
      ghost var before := orphans;
      var ready := set h | h in orphans && Ready(orphans, known, h);
      longer := queue;
      NoneTaken(before, known);
      EnqueuesNothing(before, queue);
      while ready != {}
        invariant OrphansOk(orphans, orphanReceiveSeq, known, universe) && QueueOk(longer, orphans, known, universe)
        invariant TakenReady(before, orphans, known, ready)
        invariant |longer| + |orphans| == |queue| + |before|
        invariant Enqueues(before, orphans, queue, longer)
        decreases |ready|
      {
        var h :| h in ready;
        ReadyIsPooled(before, orphans, known, ready, h);
        Enqueued(longer, orphans, orphanReceiveSeq, known, universe, h);
        PooledHash(orphans, orphanReceiveSeq, known, universe, h);
        EnqueuesOne(before, orphans, queue, longer, h);
        OrphansWithout(orphans, orphanReceiveSeq, known, universe, h);
        SizeWithout(orphans, h);
        TakeReady(before, orphans, known, ready, h);
        longer := longer + [orphans[h].block];
        orphans := orphans - {h};
        ready := ready - {h};
      }
      AllTaken(before, orphans, known);
    }

    /** Connects pooled blocks whose parent has become known until none is left. */
    method ProcessOrphans() returns (r: Result<(), ChainError>, ghost trace: seq<Attempt>)
      requires Valid()
      modifies this, utxo, disconnectedJournal
      modifies eventJournal`nextSeq, eventJournal`entries, eventJournal`log
      ensures Valid() && Promoted(old(State()), State())
      ensures PromotionsEnd(old(State()), trace, State(), if r.Ok? then None else Some(r.error))
      ensures r.Ok? ==> NoneReady(orphans, known)
      ensures r.Ok? ==> NoneWaits(orphans, known)
      ensures r.Ok? ==> EventsTurn(known, old(eventJournal.log), eventJournal.log, old(blocks), blocks)
    {
      hide BlockHash, ChainInv, OrphansOk, JournalsOk, HeaviestTip, Outcome, ErrorFits, EventsTurn, Promoted, QueueOk,
           NoneReady, Enqueues, Promoting, PromotionsEnd, Promotions, Waiting, Num;
      ghost var start := State();
      trace := [];
      QueueEmpty(orphans, known, universe);
      var queue := EnqueueReadyOrphans([]);
      PromotingStart(start, State(), queue);
      while queue != []
        invariant Valid() && Promoting(start, trace, State(), queue)
        decreases |orphans| + |queue|
      {
        var block := queue[0];
        ghost var before, previous := State(), queue;
        PromotingHead(start, trace, before, queue);
        ghost var path, fork, depth;
        var single;
        single, path, fork, depth := ConnectSingle(block);
        ghost var attempt := Attempt(before, block, single, path, fork, depth, State());
        PromotingTry(start, trace, before, previous, attempt);
        if single.Err? {
          return Err(single.error), trace + [attempt];
        }
        queue := queue[1..];
        queue := EnqueueReadyOrphans(queue);
        PromotingStep(start, trace, before, previous, attempt, State(), queue);
        trace := trace + [attempt];
      }
      PromotingEnd(start, trace, State());
      NoneReadyPlainly(orphans, known);
      r := Ok(());
    }

    method ConnectBlock(block: Block)
        returns (r: Result<ConnectResult, ChainError>, ghost first: Attempt, ghost promoted: seq<Attempt>)
      requires Valid() && block in universe
      modifies this, utxo, disconnectedJournal
      modifies eventJournal`nextSeq, eventJournal`entries, eventJournal`log
      ensures Valid() && networkTime == old(networkTime)
      ensures ConnectOutcome(old(State()), State(), block, r, first, promoted)
      ensures NoneLeftReady(orphans, known, r)
      ensures DecidedByWork(first.before, first.after, block, first.result)
    {
      hide BlockHash, ChainInv, OrphansOk, JournalsOk, Consistent, HeaviestTip, Outcome, ErrorFits, EventsTurn, Promoted,
           NoneReady, WithinBlockLimits, PromotionsEnd, DecidedByWork, NoneWaits;
      ghost var before := State();
      promoted := [];
      ghost var path, fork, depth;
      var single;
      single, path, fork, depth := ConnectSingle(block);
      ghost var connected := State();
      first := Attempt(before, block, single, path, fork, depth, connected);
      AttemptFacts(before, connected, block, single, path, fork, depth);
      OutcomeByWork(before, connected, block, single, path, fork, depth);
      if single.Err? {
        return single, first, promoted;
      }
      OutcomeTurns(before, connected, block, single, path, fork, depth);
      if single.value.Connected? || single.value.Reorganized? {
        var promotion;
        promotion, promoted := ProcessOrphans();
        PromotedWork(connected, State());
        PromotedNodes(connected, State());
        KeepsNodesTrans(before.known, connected.known, known);
        if promotion.Err? {
          return Err(promotion.error), first, promoted;
        }
        EventsTurnKept(connected.known, known, before.log, connected.log, before.blocks, connected.blocks);
        EventsTurnTrans(known, before.log, connected.log, eventJournal.log, before.blocks, connected.blocks, blocks);
      }
      r := single;
    }

    method SetNetworkTime(networkTime: u32) returns (r: Result<(), ChainError>)
      requires Valid()
      modifies this`networkTime
      ensures Valid() && (r.Ok? <==> networkTime != 0)
      ensures State() == old(State()).(networkTime := if r.Ok? then networkTime else old(this.networkTime))
    {
      hide ChainInv, JournalsOk, HeaviestTip, OrphansOk;
      if networkTime == 0 {
        return Err(InvalidNetworkTime);
      }
      this.networkTime := networkTime;
      r := Ok(());
    }

    /** The events the wallet has not taken yet. */
    method TakeEvents() returns (r: Result<seq<ChainEvent>, CursorError>)
      requires Valid()
      modifies eventJournal`walletHighWater
      ensures Valid()
      ensures r == Collected(eventJournal.log, eventJournal.capacity, old(eventJournal.walletHighWater))
      ensures eventJournal.walletHighWater ==
        if r.Ok? then |eventJournal.log| else old(eventJournal.walletHighWater)
    {
      hide ChainInv, RecordsDisconnects, HeaviestTip, OrphansOk;
      r := eventJournal.TakeEvents();
    }

    lemma JournalBounds()
      requires Valid()
      ensures eventJournal.capacity > 0 && eventJournal.walletHighWater <= |eventJournal.log|
    {
      hide ChainInv, RecordsDisconnects, HeaviestTip, OrphansOk;
    }

    function ActiveBlockAt(height: nat): Option<Block>
      reads this
    {
      if height < |blocks| then Some(blocks[height]) else None
    }

    /** Makes the genesis block the whole chain. */
    method PlaceGenesis(work: Hash, undo: seq<TxUndo>, block: Block)
      requires Admissible(genesis, universe) && genesis in universe && block == genesis
      requires Sealed(genesis) && ValidChain([genesis]) && Num(work) == WorkOfBlock(genesis)
      requires undo == UndosOf(map[], genesis.transactions) && utxo.entries == ApplyTxs(map[], genesis.transactions)
      requires JournalsOk() && eventJournal.log == [] && orphans == map[] && orphanReceiveSeq == 0
      modifies this`blocks, this`activeHashes, this`known, this`totalWork
      modifies eventJournal`nextSeq, eventJournal`entries, eventJournal`log
      ensures Valid() && blocks == [genesis] && GenesisLogged(eventJournal.log, genesis)
      ensures EventsTurn(known, [], eventJournal.log, [], [genesis])
    {
      hide BlockHash, EventsTurn, RecordsDisconnects, WorkOfBlock, Admissible, Sealed, ValidChain, TreeInv, ActiveInv,
           ApplyTxs, UndosOf, HeaviestTip, OrphansOk, FromLe, JournalsOk;
      var hash := BlockHash(block);
      GenesisIsActive(genesis, work);
      GenesisTree(genesis, universe, work);
      GenesisHeaviest(genesis, work);
      known := map[hash := BlockMeta(block, 0, work, undo)];
      blocks := [block];
      activeHashes := {hash};
      totalWork := work;
      NoOrphans(known, universe);
      ConnectEventTurns(known, [], [], block);
      assert [] + [block] == [block];
      LogEvent(BlockConnected(0, hash, |block.transactions|));
    }

    /** A valid chain that is the genesis block alone, with its connect event still to be taken. */
    ghost predicate Begun(genesis: Block, universe: iset<Block>)
      reads this, utxo, eventJournal, disconnectedJournal
    {
      && this.genesis == genesis && this.universe == universe && blocks == [genesis] && orphans == map[]
      && GenesisLogged(eventJournal.log, genesis) && eventJournal.walletHighWater == 0
      && EventsTurn(known, [], eventJournal.log, [], [genesis])
      && Valid()
    }

    /** A chain holding a valid genesis block. */
    static method NewGenesis(genesis: Block, networkTime: u32, eventCapacity: nat, ghost universe: iset<Block>)
        returns (r: Result<Chain, ChainError>)
      requires Admissible(genesis, universe) && genesis in universe
      ensures r.Ok? ==> fresh(r.value) && fresh(r.value.utxo)
      ensures r.Ok? ==> fresh(r.value.eventJournal) && fresh(r.value.disconnectedJournal)
      ensures r.Ok? ==> r.value.Begun(genesis, universe)
      ensures r.Ok? <==> networkTime != 0 && GenesisAccepted(genesis, networkTime)
    {
      hide BlockHash, WithinBlockLimits, HeaderVerdict, TxsValid, BlockWork, Admissible, ChainInv, HeaviestTip, OrphansOk,
           EventsTurn, ApplyTxs, UndosOf, Sealed, ValidChain, WorkOfBlock, WorkComputes, Num;
      if networkTime == 0 {
        return Err(InvalidNetworkTime);
      }
      var chain := new Chain.Empty(networkTime, eventCapacity, genesis, universe);
      var limits := chain.ValidateBlockLimits(genesis);
      if limits.Err? {
        return Err(limits.error);
      }
      var verdict := chain.ValidateBlockForParent(genesis, None, 0);
      if verdict.Err? {
        return Err(verdict.error);
      }
      GenesisIsSealed(genesis, networkTime);
      GenesisComputes(genesis, universe);
      var undo := chain.ApplyBlockTransactions(genesis);
      var work := chain.WorkFor(genesis);
      if work.Err? {
        return Err(work.error);
      }
      GenesisIsValid(genesis, networkTime);
      chain.PlaceGenesis(work.value, undo, genesis);
      r := Ok(chain);
    }

    // ---- what validity means ----

    /** Whatever tip a block was first checked against, the active chain satisfies every rule against the
        replay of its own prefixes, and the cached unspent outputs are its replay. */
    lemma ActiveChainIsValid()
      requires Valid()
      ensures ValidChain(blocks) && FreshChain(blocks) && utxo.entries == Replay(blocks) && [genesis] <= blocks
      ensures activeHashes == (set h | h in Hashes(blocks))
    {
      hide TreeInv, Admissible, AllActive, ValidChain, FreshChain, JournalsOk, HeaviestTip, OrphansOk, Replay, Hashes;
      ActiveIsFresh(known, blocks, activeHashes, utxo.entries, genesis, universe);
    }

    /** Whatever came in by whatever route, on the active chain nobody has spent an output locked to the hash of a
        public key without that key and a signature for the spending input. */
    lemma ActiveSpendsAreSigned(i: nat, j: nat, k: nat, pubkeyHash: Hash20) returns (scripts: seq<Bytes>)
      requires i < |blocks| && 0 < j < |blocks[i].transactions| && k < |blocks[i].transactions[j].inputs|
      requires PlainRules.LockedBy(
        ApplyTxs(Replay(blocks[..i]), blocks[i].transactions[..j]), blocks[i].transactions[j].inputs[k],
        [0x76, 0xa9, 20] + pubkeyHash + [0x88, 0xac])
      requires Valid()
      ensures PlainRules.Unlocks(
        ApplyTxs(Replay(blocks[..i]), blocks[i].transactions[..j]), blocks[i].transactions[j], k, scripts)
      ensures PlainRules.Signed(blocks[i].transactions[j], k, scripts, pubkeyHash)
    {
      hide *;
      ActiveChainIsValid();
      scripts := PlainRules.SpendsAreSigned(blocks, i, j, k, pubkeyHash);
    }

    /** Every input on the active chain spends an output unspent at that point and satisfies its script, and no
        transaction but a coinbase creates value. */
    lemma ActiveSpendsAreUnlocked(i: nat, j: nat, k: nat) returns (scripts: seq<Bytes>)
      requires i < |blocks| && 0 < j < |blocks[i].transactions| && k < |blocks[i].transactions[j].inputs|
      requires Valid()
      ensures PlainRules.Unlocks(
        ApplyTxs(Replay(blocks[..i]), blocks[i].transactions[..j]), blocks[i].transactions[j], k, scripts)
      ensures PlainRules.PaysForOutputs(
        ApplyTxs(Replay(blocks[..i]), blocks[i].transactions[..j]), blocks[i].transactions[j])
    {
      hide *;
      ActiveChainIsValid();
      scripts := PlainRules.SpendsAreUnlocked(blocks, i, j, k);
      PlainRules.NoValueFromNothing(blocks, i, j);
    }

    /** Every active block is within the limits, mined, committed to and has one coinbase; each but the first names
        the one below it and is later than the median of the last times. */
    lemma ActiveBlocksFit(i: nat) returns (times: seq<u32>)
      requires i < |blocks|
      requires Valid()
      ensures PlainRules.Fits(blocks[i])
      ensures i > 0 ==> blocks[i].header.prevBlockhash == BlockHash(blocks[i - 1])
      ensures i > 0 ==> PlainRules.LastTimes(blocks[..i], times) && blocks[i].header.time > Median(times)
    {
      hide *;
      times := [];
      ActiveChainIsValid();
      PlainRules.BlocksFit(blocks, i);
      if i > 0 {
        times := PlainRules.BlocksFollow(blocks, i);
      }
    }

    /** The total is the sum of the work of the active blocks. */
    lemma TotalIsSum()
      requires Valid()
      ensures FromLe(totalWork) == WorkOfChain(blocks)
    {
      hide *;
      ValidIsChainInv();
      TipIsLast();
      BranchOfTip(known, blocks, activeHashes, utxo.entries, genesis, universe);
    }

    lemma TipIsLast()
      requires Valid()
      ensures blocks != [] && TipOf(blocks) in known && known[TipOf(blocks)].work == totalWork
    {
      hide ChainInv, JournalsOk, OrphansOk;
      TipHasTotal(known, blocks, totalWork);
    }

    /** All unspent value plus all fees ever paid is what the active coinbases created. */
    lemma ValueIsConserved()
      requires Valid()
      ensures Value.TotalValue(utxo.entries) + Value.ChainFees(blocks) == Value.ChainMinted(blocks)
      ensures Value.ChainFees(blocks) >= 0
    {
      hide *;
      ActiveChainIsValid();
      Value.ValueConserved(blocks);
    }

    /** The undo data stored for any active block takes the replay up to it back to the replay before it. */
    lemma StoredUndoIsExact(i: nat)
      requires Valid() && i < |blocks|
      ensures BlockHash(blocks[i]) in known
      ensures RevertAll(Replay(blocks[..i + 1]), known[BlockHash(blocks[i])].undo) == Replay(blocks[..i])
    {
      hide TreeInv, Admissible, ValidChain, FreshChain, JournalsOk, HeaviestTip, OrphansOk, Replay, RevertAll, BlockHash,
           UndosOf;
      ActiveChainIsValid();
      Value.FreshPrefix(blocks, i + 1);
      var prefix := blocks[..i + 1];
      forall k | 0 <= k < |prefix|
        ensures ActiveAt(known, prefix, k)
      {
        assert ActiveAt(known, blocks, k);
        assert prefix[..k] == blocks[..k];
      }
      StoredUndoRestores(known, prefix);
      assert prefix[..i] == blocks[..i];
    }

    /** The total is the work of the tip; every known block has its parent's work and its own, and none has
        more than the tip. */
    lemma TipIsHeaviest(h: Hash)
      requires Valid() && h in known
      ensures TipHash() in known && known[TipHash()].work == totalWork
      ensures Num(known[h].work) <= Num(totalWork)
      ensures h != BlockHash(genesis) ==> CandidateWork(known, known[h].block, known[h].work)
      ensures h == BlockHash(genesis) ==> Num(known[h].work) == WorkOfBlock(genesis)
    {
      hide BlockHash, ActiveInv, TreeInv, Admissible, JournalsOk, OrphansOk, WorkOfBlock, FromLe, Sealed, MedianBefore;
      ParentOf(known, genesis, universe, h);
      TipHasTotal(known, blocks, totalWork);
    }

    /** When the check of a block runs past the end of the active chain: exactly if the block passes the checks
        before it and its parent ends a period of a long and light side branch. */
    lemma OutOfRangeAside(block: Block)
      requires Valid()
      ensures RunsPastEnd(State(), block) <==>
        PassesUpToBits(known, networkTime, block) && EndsLongPeriod(State(), PrevOf(block))
    {
      hide BlockHash, ActiveInv, TreeInv, Admissible, JournalsOk, OrphansOk, Num, HeaderVerdict, PassesUpToBits,
           ExpectedBits, HeaviestTip;
      if PrevOf(block) in known {
        var height := known[PrevOf(block)].height + 1;
        VerdictOutOfRange(known, blocks, networkTime, block, height);
        OutOfRangeExactly(blocks, height, block.header.bits);
        ActiveIsSubset(known, blocks, activeHashes, utxo.entries, genesis);
        TipIsHeaviest(PrevOf(block));
      }
    }

    /** Orphans are unknown blocks, kept under their own hashes, and never more than the limit. */
    lemma OrphansAreApart()
      requires Valid()
      ensures |orphans| <= MAX_ORPHAN_BLOCKS && orphans.Keys !! known.Keys
      ensures forall h | h in orphans :: BlockHash(orphans[h].block) == h
    {
      hide BlockHash, ChainInv, JournalsOk, HeaviestTip;
      assert forall h | h in orphans :: OrphanOk(orphans[h], h, orphanReceiveSeq, known, universe);
    }

    /** Every disconnect event the event journal still holds has its block in the other journal. */
    lemma RetainedDisconnectHasBlock(i: nat) returns (j: nat)
      requires Valid() && i < |eventJournal.entries| && eventJournal.entries[i].event.BlockDisconnected?
      ensures j < |disconnectedJournal.entries|
      ensures disconnectedJournal.entries[j].eventSeq == eventJournal.entries[i].seqNo
      ensures BlockHash(disconnectedJournal.entries[j].block) == eventJournal.entries[i].event.hash
    {
      hide BlockHash, ChainInv, HeaviestTip, OrphansOk, RecordsDisconnects;
      var capacity, d := eventJournal.capacity, Dropped(|eventJournal.log|, eventJournal.capacity);
      j := RetainedDisconnectsHaveBlocks(eventJournal.log, disconnectedJournal.log, capacity, d + i);
      j := j - Dropped(|disconnectedJournal.log|, capacity);
    }
  }
}
