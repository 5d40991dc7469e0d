/** The bounded transaction pool: entries, spend index and byte count changed in place, with the admission
    order they stand for as a ghost field. */
module Mempool {
  import opened Types
  import opened Limits
  import opened Codec
  import opened Utxo
  import opened Consensus
  import opened Pool
  import opened PoolIndex
  import Arith
  import PlainRules

  datatype AcceptedTx = AcceptedTx(txid: Hash, fee: nat, size: nat)

  datatype MempoolError =
    | Coinbase
    | Duplicate(txid: Hash)
    | DuplicateInput(txid: Hash, index: u32)
    | Oversized(size: nat, limit: nat)
    | Malformed
    | UtxoFailure(utxoError: UtxoError)
    | ConflictingSpend(outpoint: OutPoint, existingTxid: Hash)
    | InvalidScript
    | AtCapacity

  // ---- checks that need no pool ----

  method ValidateTxStructure(tx: Transaction) returns (r: Result<nat, MempoolError>)
    ensures r.Ok? <==> Structural(tx)
    ensures r.Ok? ==> r.value == SerializedSize(tx)
    ensures r.Err? ==> r.error == Malformed || r.error == Oversized(SerializedSize(tx), MAX_TRANSACTION_SERIALIZED_SIZE)
    ensures r.Err? && r.error.Oversized? <==> SerializedSize(tx) > MAX_TRANSACTION_SERIALIZED_SIZE
  {
    hide SerializedSize, IsCoinbase;
    var size := SerializedSize(tx);
    if size > MAX_TRANSACTION_SERIALIZED_SIZE {
      return Err(Oversized(size, MAX_TRANSACTION_SERIALIZED_SIZE));
    }
    if tx.outputs == [] {
      return Err(Malformed);
    }
    if !IsCoinbase(tx) && tx.inputs == [] {
      return Err(Malformed);
    }
    for i := 0 to |tx.inputs|
      invariant forall k | 0 <= k < i :: |tx.inputs[k].scriptSig| <= MAX_SCRIPT_SIZE
    {
      if |tx.inputs[i].scriptSig| > MAX_SCRIPT_SIZE {
        assert tx.inputs[i] in tx.inputs;
        return Err(Malformed);
      }
    }
    for i := 0 to |tx.outputs|
      invariant forall k | 0 <= k < i :: |tx.outputs[k].scriptPubkey| <= MAX_SCRIPT_SIZE
    {
      if |tx.outputs[i].scriptPubkey| > MAX_SCRIPT_SIZE {
        assert tx.outputs[i] in tx.outputs;
        return Err(Malformed);
      }
    }
    r := Ok(size);
  }

  method CheckDuplicateInputs(tx: Transaction) returns (r: Result<(), MempoolError>)
    ensures r.Ok? <==> InputsDiffer(tx)
    ensures r.Err? ==> r.error.DuplicateInput? && r.error.txid == Txid(tx)
    ensures r.Err? ==> exists i, j | 0 <= i < j < |tx.inputs| ::
      OutPointOf(tx.inputs[i]) == OutPointOf(tx.inputs[j]) && r.error.index == tx.inputs[j].index
  {
    hide Txid;
    var seen: set<OutPoint> := {};
    ghost var points := InputPoints(tx.inputs);
    for j := 0 to |tx.inputs|
      invariant seen == (set o | o in points[..j])
      invariant forall a, b | 0 <= a < b < j :: points[a] != points[b]
    {
      var o := OutPointOf(tx.inputs[j]);
      assert points[j] == o;
      if o in seen {
        ghost var i :| 0 <= i < j && points[..j][i] == o;
        assert points[i] == points[j];
        return Err(DuplicateInput(Txid(tx), tx.inputs[j].index));
      }
      assert points[..j + 1] == points[..j] + [o];
      seen := seen + {o};
    }
    r := Ok(());
  }

  method IsValidForView(tx: Transaction, view: UtxoSet) returns (valid: bool)
    ensures valid <==> ValidFor(view.entries, tx)
  {
    hide Structural, InputsDiffer, TxValid, ScriptsOk;
    var structure := ValidateTxStructure(tx);
    if structure.Err? || IsCoinbase(tx) {
      return false;
    }
    TxValidParts(view.entries, tx);
    var duplicates := CheckDuplicateInputs(tx);
    if duplicates.Err? {
      return false;
    }
    var values := view.ValidateTransaction(tx);
    if values.Err? {
      return false;
    }
    var scripts := view.VerifyScripts(tx);
    valid := scripts.Ok?;
  }

  lemma TxValidParts(m: Utxos, tx: Transaction)
    requires !IsCoinbase(tx)
    ensures TxValid(m, tx) ==> InputsPresent(m, tx.inputs) && OutputSum(tx.outputs) <= InputSum(m, tx.inputs) < U64_LIMIT
  {
    hide InputsPresent;
  }

  /** The transaction passes every check that precedes the making of room. */
  ghost predicate Passes(s: PoolState, m: Utxos, tx: Transaction) {
    && ValidFor(PoolView(m, s.order), tx)
    && Txid(tx) !in s.entries
    && NoConflict(s.entries, tx)
  }

  /** The transactions of a block after its first that are no coinbase. */
  function NonCoinbase(txs: seq<Transaction>): seq<Transaction> {
    if |txs| <= 1 then []
    else NonCoinbase(txs[..|txs| - 1]) + if IsCoinbase(txs[|txs| - 1]) then [] else [txs[|txs| - 1]]
  }

  function RestoreList(blocks: seq<Block>): seq<Transaction> {
    if blocks == [] then [] else RestoreList(blocks[..|blocks| - 1]) + NonCoinbase(blocks[|blocks| - 1].transactions)
  }

  /** The list of blocks in turn, and of a block with one coinbase, the first: all its transactions but that. */
  lemma {:induction false} RestoreListConcat(blocks: seq<Block>, more: seq<Block>)
    ensures RestoreList(blocks + more) == RestoreList(blocks) + RestoreList(more)
    decreases |more|
  {
    hide NonCoinbase;
    if more == [] {
      assert blocks + more == blocks;
    } else {
      var n := |more| - 1;
      assert (blocks + more)[..|blocks| + n] == blocks + more[..n];
      RestoreListConcat(blocks, more[..n]);
    }
  }

  lemma {:induction false} NonCoinbaseIsRest(txs: seq<Transaction>, n: nat)
    requires 0 < n <= |txs| && forall j | 0 < j < n :: !IsCoinbase(txs[j])
    ensures NonCoinbase(txs[..n]) == txs[1..n]
  {
    hide IsCoinbase;
    if n > 1 {
      assert txs[..n][..n - 1] == txs[..n - 1];
      NonCoinbaseIsRest(txs, n - 1);
    }
  }

  lemma RestoreOfBlock(block: Block)
    requires forall j | 0 < j < |block.transactions| :: !PlainRules.NamesNothing(block.transactions[j].inputs)
    requires block.transactions != []
    ensures RestoreList([block]) == block.transactions[1..]
  {
    hide NonCoinbase;
    var txs := block.transactions;
    assert forall j | 0 < j < |txs| :: !IsCoinbase(txs[j]) by {
      assert forall j | 0 < j < |txs| :: IsCoinbase(txs[j]) <==> PlainRules.NamesNothing(txs[j].inputs);
    }
    NonCoinbaseIsRest(txs, |txs|);
    assert txs[..|txs|] == txs && txs[1..|txs|] == txs[1..];
    assert [block][..0] == [];
    assert RestoreList([]) == [];
  }

  lemma {:induction false} NonCoinbaseHas(txs: seq<Transaction>, tx: Transaction)
    ensures tx in NonCoinbase(txs) <==> exists j | 0 < j < |txs| :: txs[j] == tx && !PlainRules.NamesNothing(tx.inputs)
  {
    assert IsCoinbase(tx) <==> PlainRules.NamesNothing(tx.inputs);
    hide IsCoinbase, PlainRules.NamesNothing;
    if |txs| > 1 {
      var n := |txs| - 1;
      NonCoinbaseHas(txs[..n], tx);
      if txs[n] == tx && !PlainRules.NamesNothing(tx.inputs) {
        assert tx in NonCoinbase(txs);
      }
      assert forall j | 0 < j < n :: txs[..n][j] == txs[j];
    }
  }

  /** Whatever the disconnected blocks hold, a transaction is offered exactly if it is no coinbase and stands
      after the first transaction of one of them. */
  lemma {:induction false} RestorableIff(blocks: seq<Block>, tx: Transaction)
    ensures tx in RestoreList(blocks) <==>
      !PlainRules.NamesNothing(tx.inputs) && exists i | 0 <= i < |blocks| :: StandsAfterFirst(blocks[i], tx)
  {
    hide NonCoinbase, PlainRules.NamesNothing;
    if blocks != [] {
      var n := |blocks| - 1;
      RestorableIff(blocks[..n], tx);
      NonCoinbaseHas(blocks[n].transactions, tx);
      assert forall i | 0 <= i < n :: blocks[..n][i] == blocks[i];
    }
  }

  predicate StandsAfterFirst(block: Block, tx: Transaction) {
    exists j | 0 < j < |block.transactions| :: block.transactions[j] == tx
  }

  lemma NonCoinbaseStep(txs: seq<Transaction>, j: nat)
    requires j < |txs|
    ensures NonCoinbase(txs[..j + 1]) == NonCoinbase(txs[..j]) + if j > 0 && !IsCoinbase(txs[j]) then [txs[j]] else []
  {
    hide IsCoinbase;
    assert txs[..j + 1][..j] == txs[..j];
  }

  lemma RestoreStep(blocks: seq<Block>, i: nat)
    requires i < |blocks|
    ensures RestoreList(blocks[..i + 1]) == RestoreList(blocks[..i]) + NonCoinbase(blocks[i].transactions)
  {
    hide NonCoinbase;
    assert blocks[..i + 1][..i] == blocks[..i];
  }

  lemma NothingToRestore(txs: seq<Transaction>, blocks: seq<Block>)
    ensures NonCoinbase(txs[..0]) == [] && RestoreList(blocks[..0]) == []
  {
  }

  method CollectRestorable(blocks: seq<Block>) returns (candidates: seq<Transaction>)
    ensures candidates == RestoreList(blocks)
  {
    hide IsCoinbase, NonCoinbase, RestoreList;
    candidates := [];
    NothingToRestore([], blocks);
    for i := 0 to |blocks|
      invariant candidates == RestoreList(blocks[..i])
    {
      var txs := blocks[i].transactions;
      RestoreStep(blocks, i);
      NothingToRestore(txs, []);
      ghost var base := candidates;
      for j := 0 to |txs|
        invariant candidates == base + NonCoinbase(txs[..j])
      {
        NonCoinbaseStep(txs, j);
        if j > 0 && !IsCoinbase(txs[j]) {
          candidates := candidates + [txs[j]];
        }
      }
      assert txs[..|txs|] == txs;
    }
    assert blocks[..|blocks|] == blocks;
  }

  class Mempool {
    const limits: MempoolLimits
    var entries: Entries
    var spends: Spends
    var totalBytes: nat
    var nextSeq: nat
    ghost var order: seq<MempoolEntry>

    /** The indexes agree with each other and with the admission order, and both limits hold. */
    ghost predicate Valid()
      reads this
    {
      && Listed(entries, order, nextSeq)
      && SpendsExact(spends, entries)
      && totalBytes == TotalSize(order)
      && |entries| <= limits.maxTxCount && totalBytes <= limits.maxBytes
    }

    ghost function State(): PoolState
      reads this
    {
      PoolState(entries, order, nextSeq)
    }

    constructor (limits: MempoolLimits)
      ensures Valid() && State() == PoolState(map[], [], 0) && this.limits == limits
    {
      this.limits := limits;
      entries, spends, totalBytes, nextSeq, order := map[], map[], 0, 0, [];
    }

    // ---- views ----

    /** The entries sorted by admission number. */
    method OrderedEntries() returns (list: seq<MempoolEntry>)
      requires Listed(entries, order, nextSeq)
      ensures list == order
    {
      hide Listed, Unlisted;
      var rest := entries.Keys;
      list := [];
      StartsUnlisted(entries, order, nextSeq);
      while rest != {}
        invariant |list| <= |order| && list == order[..|list|]
        invariant rest <= entries.Keys && Unlisted(entries, order, |list|, rest)
        decreases |rest|
      {
        var id := FirstAdmitted(rest);
        NextListed(entries, order, nextSeq, |list|, rest, id);
        list := list + [entries[id]];
        rest := rest - {id};
      }
      AllListed(entries, order, |list|);
    }

    /** The member of a set of ids that was admitted first. */
    method FirstAdmitted(ids: set<Hash>) returns (first: Hash)
      requires ids != {} && ids <= entries.Keys
      ensures first in ids && forall id | id in ids :: entries[first].seqNo <= entries[id].seqNo
    {
      first :| first in ids;
      var rest := ids - {first};
      while rest != {}
        invariant rest <= ids && first in ids
        invariant forall id | id in ids && id !in rest :: entries[first].seqNo <= entries[id].seqNo
        decreases |rest|
      {
        var id :| id in rest;
        rest := rest - {id};
        if entries[id].seqNo < entries[first].seqNo {
          first := id;
        }
      }
    }

    method BuildValidationView(chainUtxo: UtxoSet) returns (view: UtxoSet)
      requires Listed(entries, order, nextSeq)
      ensures fresh(view) && view.entries == PoolView(chainUtxo.entries, order)
    {
      hide ApplyTx, Listed, UndoOf;
      view := new UtxoSet.Clone(chainUtxo.entries);
      var list := OrderedEntries();
      assert order[..0] == [];
      for i := 0 to |list|
        invariant view.entries == PoolView(chainUtxo.entries, order[..i])
      {
        assert order[..i + 1] == order[..i] + [order[i]];
        PoolViewSnoc(chainUtxo.entries, order[..i], order[i]);
        var _ := view.ApplyTransaction(list[i].tx);
      }
      assert order[..|order|] == order;
    }

    /** The ids of the entries a greedy replay of the pool rejects, in admission order. */
    method FindInvalid(chainUtxo: UtxoSet) returns (invalid: seq<Hash>)
      requires Listed(entries, order, nextSeq)
      ensures Keep(order, set id | id in invalid) == Greedy(chainUtxo.entries, order)
      ensures invalid == [] <==> Replayable(chainUtxo.entries, order)
    {
      hide ApplyTx, UndoOf, ValidFor, Replayable, Listed, GreedyUpTo, PoolView, Greedy, Keep;
      var view := new UtxoSet.Clone(chainUtxo.entries);
      ghost var m := chainUtxo.entries;
      var list := OrderedEntries();
      invalid := [];
      GreedyStart(m, order);
      for i := 0 to |list|
        invariant GreedyUpTo(m, order, i, invalid) && view.entries == PoolView(m, Greedy(m, order[..i]))
      {
        var tx := list[i].tx;
        var txid := Txid(tx);
        var valid := IsValidForView(tx, view);
        GreedyNext(m, entries, order, nextSeq, i, invalid);
        if !valid {
          invalid := invalid + [txid];
        } else {
          PoolViewSnoc(m, Greedy(m, order[..i]), order[i]);
          var _ := view.ApplyTransaction(tx);
        }
      }
      GreedyReplayable(m, order);
      GreedyEnd(m, order, invalid);
    }

    // ---- removal ----

    method RemoveEntry(txid: Hash)
      requires Valid()
      modifies this`entries, this`spends, this`totalBytes, this`order
      ensures Valid() && entries == old(entries) - {txid} && order == Keep(old(order), {txid})
    {
      hide Listed, SpendsExact, TotalSize, Keep;
      if txid !in entries {
        KeepUnlisted(entries, order, nextSeq, {txid});
        return;
      }
      var entry := entries[txid];
      ListedWithout(entries, order, nextSeq, txid);
      SpendsWithout(spends, entries, txid);
      EntriesWithout(entries, txid);
      entries := entries - {txid};
      totalBytes := totalBytes - entry.size;
      spends := map o | o in spends && spends[o] != txid :: spends[o];
      order := Keep(order, {txid});
    }

    method RemoveList(txids: seq<Hash>)
      requires Valid()
      modifies this`entries, this`spends, this`totalBytes, this`order
      ensures Valid()
      ensures var gone := set id | id in txids; entries == old(entries) - gone && order == Keep(old(order), gone)
    {
      hide Listed, SpendsExact, TotalSize, Keep, Valid, Id;
      ghost var gone: set<Hash>, entriesBefore, orderBefore := {}, entries, order;
      KeepNone(order);
      for i := 0 to |txids|
        invariant Valid() && gone == (set id | id in txids[..i])
        invariant entries == entriesBefore - gone && order == Keep(orderBefore, gone)
      {
        RemoveEntry(txids[i]);
        RemovedMore(entriesBefore, orderBefore, gone, {txids[i]});
        assert txids[..i + 1] == txids[..i] + [txids[i]];
        gone := gone + {txids[i]};
      }
      assert txids[..|txids|] == txids;
    }

    method RemoveSet(txids: set<Hash>)
      requires Valid()
      modifies this`entries, this`spends, this`totalBytes, this`order
      ensures Valid() && entries == old(entries) - txids && order == Keep(old(order), txids)
    {
      hide Listed, SpendsExact, TotalSize, Keep, Valid, Id;
      ghost var gone: set<Hash>, entriesBefore, orderBefore := {}, entries, order;
      KeepNone(order);
      var rest := txids;
      while rest != {}
        invariant Valid() && gone + rest == txids
        invariant entries == entriesBefore - gone && order == Keep(orderBefore, gone)
        decreases |rest|
      {
        var id :| id in rest;
        RemoveEntry(id);
        RemovedMore(entriesBefore, orderBefore, gone, {id});
        rest := rest - {id};
        gone := gone + {id};
      }
      assert gone == txids;
    }

    /** The entries that spend an output of the root, of one of those, and so on. */
    method DescendantsOf(root: Hash) returns (descendants: set<Hash>)
      requires SpendsExact(spends, entries)
      ensures Descendants(spends, root, descendants) && descendants <= entries.Keys
    {
      hide OutPoints;
      descendants := {};
      var stack := [root];
      while stack != []
        invariant descendants <= entries.Keys
        invariant forall h | h in stack :: h == root || h in descendants
        invariant forall o | o in spends && (o.txid == root || o.txid in descendants) && o.txid !in stack ::
          spends[o] in descendants
        invariant forall t | HoldsChildren(spends, root, t) :: descendants <= t
        decreases entries.Keys - descendants, |stack|
      {
        ghost var known, popped := descendants, stack;
        var current := stack[|stack| - 1];
        stack := stack[..|stack| - 1];
        var rest := spends.Keys;
        while rest != {}
          invariant rest <= spends.Keys
          invariant known <= descendants <= entries.Keys
          invariant descendants == known ==> stack == popped[..|popped| - 1]
          invariant forall h | h in stack :: h == root || h in descendants
          invariant forall h | h in descendants && h !in known :: h in stack
          invariant forall h | h in popped && h != current :: h in stack
          invariant forall o | o in spends && o !in rest && o.txid == current :: spends[o] in descendants
          invariant forall t | HoldsChildren(spends, root, t) :: descendants <= t
          decreases |rest|
        {
          var o :| o in rest;
          rest := rest - {o};
          var owner := spends[o];
          if o.txid == current && owner !in descendants {
            assert Claims(entries, owner, o);
            descendants := descendants + {owner};
            stack := stack + [owner];
          }
        }
      }
    }

    /** The entry with the lowest fee rate, the oldest among equals. */
    method LowestPriorityTxid() returns (lowest: Option<Hash>)
      ensures lowest == None <==> entries == map[]
      ensures lowest.Some? ==> Lowest(entries, lowest.value)
      ensures lowest.Some? ==> lowest.value in entries && forall k | k in entries ::
        || entries[k].feeRate > entries[lowest.value].feeRate
        || (entries[k].feeRate == entries[lowest.value].feeRate && entries[k].seqNo >= entries[lowest.value].seqNo)
    {
      lowest := None;
      var rest := entries.Keys;
      while rest != {}
        invariant rest <= entries.Keys
        invariant lowest == None <==> rest == entries.Keys
        invariant lowest.Some? ==> lowest.value in entries
        invariant lowest.Some? ==> forall k | k in entries && k !in rest :: NotAfter(entries[lowest.value], entries[k])
        decreases |rest|
      {
        var id :| id in rest;
        rest := rest - {id};
        if lowest == None || NotAfter(entries[id], entries[lowest.value]) {
          lowest := Some(id);
        }
      }
    }

    /** Removes an entry with its descendants. */
    method RemoveEntryAndDescendants(txid: Hash)
      requires Valid() && txid in entries
      modifies this`entries, this`spends, this`totalBytes, this`order
      ensures Valid()
      ensures entries == old(entries) - Family(old(entries), txid) && order == Keep(old(order), Family(old(entries), txid))
    {
      hide Listed, SpendsExact, TotalSize, Keep, DescendantSet;
      var remove := DescendantsOf(txid);
      DescendantsBySpends(spends, entries, txid, remove);
      assert remove + {txid} == Family(entries, txid);
      RemoveSet(remove + {txid});
    }

    // ---- admission ----

    predicate WouldExceedLimits(incomingSize: nat)
      reads this
    {
      |entries| + 1 > limits.maxTxCount || totalBytes + incomingSize > limits.maxBytes
    }

    /** An entry gives way to a newcomer of a higher fee rate, and of the same one if it is older. */
    predicate ShouldEvict(victim: Hash, candidate: MempoolEntry)
      reads this
      requires victim in entries
    {
      if candidate.feeRate > entries[victim].feeRate then true
      else if candidate.feeRate < entries[victim].feeRate then false
      else candidate.seqNo > entries[victim].seqNo
    }

    /** Evicts lowest entries with their descendants until the candidate fits or the lowest outranks it. */
    method MakeRoomFor(candidate: MempoolEntry) returns (r: Result<(), MempoolError>)
      requires Valid() && candidate.seqNo == nextSeq
      modifies this`entries, this`spends, this`totalBytes, this`order
      ensures Valid()
      ensures var gone := Victims(old(entries), old(order), RequestOf(limits, candidate));
        entries == old(entries) - gone && order == Keep(old(order), gone)
      ensures r.Ok? <==> !Exceeds(limits, order, candidate.size)
      ensures r.Err? ==> r.error == AtCapacity && Outranked(entries, candidate.feeRate)
    {
      hide *;
      ghost var first, firstOrder, request := entries, order, RequestOf(limits, candidate);
      ghost var gone: set<Hash> := {};
      RequestFields(limits, candidate);
      MakingRoomStart(first, firstOrder, request);
      var exceeds := WouldExceedLimits(candidate.size);
      ExceedsMatches(candidate.size);
      while exceeds
        invariant Valid() && (exceeds <==> Exceeds(limits, order, candidate.size))
        invariant MakingRoom(first, firstOrder, entries, order, gone, request)
        decreases |entries|
      {
        ValidParts();
        var victim := LowestPriorityTxid();
        if victim.None? {
          NobodyOutranks(request.rate);
          MakingRoomEnd(first, firstOrder, entries, order, gone, request);
          return Err(AtCapacity);
        }
        LowestSeq(entries, order, nextSeq, victim.value);
        EvictWhen(victim.value, candidate);
        if !ShouldEvict(victim.value, candidate) {
          LowestOutranks(entries, victim.value, request.rate);
          MakingRoomEnd(first, firstOrder, entries, order, gone, request);
          return Err(AtCapacity);
        }
        MakingRoomStep(first, firstOrder, entries, order, nextSeq, gone, request, victim.value);
        gone := gone + Family(entries, victim.value);
        RemoveEntryAndDescendants(victim.value);
        exceeds := WouldExceedLimits(candidate.size);
        ExceedsMatches(candidate.size);
      }
      MakingRoomEnd(first, firstOrder, entries, order, gone, request);
      r := Ok(());
    }

    lemma EvictWhen(victim: Hash, candidate: MempoolEntry)
      requires victim in entries && entries[victim].seqNo < candidate.seqNo
      ensures ShouldEvict(victim, candidate) <==> entries[victim].feeRate <= candidate.feeRate
    {
    }

    method InsertEntry(txid: Hash, entry: MempoolEntry)
      requires Valid() && EntryOk(txid, entry) && txid !in entries && entry.seqNo == nextSeq
      requires OutPoints(entry.tx.inputs) !! spends.Keys && !WouldExceedLimits(entry.size)
      modifies this`entries, this`spends, this`totalBytes, this`nextSeq, this`order
      ensures Valid() && entries == old(entries)[txid := entry] && order == old(order) + [entry]
      ensures nextSeq == old(nextSeq) + 1
    {
      hide Listed, SpendsExact, SpendsAdded, TotalSize, EntryOk, Id, OutPoints;
      EntryHasId(txid, entry);
      ListedWith(entries, order, nextSeq, entry);
      EntriesWith(entries, txid, entry);
      ghost var before := spends;
      totalBytes := totalBytes + entry.size;
      nextSeq := nextSeq + 1;
      ClaimInputs(txid, entry.tx.inputs);
      SpendsWith(before, spends, entries, entry);
      entries := entries[txid := entry];
      order := order + [entry];
    }

    /** Records a transaction as the spender of its inputs. */
    method ClaimInputs(txid: Hash, inputs: seq<TxInput>)
      modifies this`spends
      ensures SpendsAdded(old(spends), spends, OutPoints(inputs), txid)
    {
      hide OutPoints, SpendsAdded;
      NothingClaimed(spends, inputs, txid);
      for i := 0 to |inputs|
        invariant SpendsAdded(old(spends), spends, OutPoints(inputs[..i]), txid)
      {
        OneClaimed(old(spends), spends, inputs, i, txid);
        spends := spends[OutPointOf(inputs[i]) := txid];
      }
      assert inputs[..|inputs|] == inputs;
    }

    method CheckMempoolConflicts(tx: Transaction) returns (r: Result<(), MempoolError>)
      ensures r.Ok? <==> OutPoints(tx.inputs) !! spends.Keys
      ensures r.Err? ==> r.error.ConflictingSpend? && r.error.outpoint in OutPoints(tx.inputs)
      ensures r.Err? ==> r.error.outpoint in spends && spends[r.error.outpoint] == r.error.existingTxid
    {
      for i := 0 to |tx.inputs|
        invariant forall k | 0 <= k < i :: OutPointOf(tx.inputs[k]) !in spends
      {
        var outpoint := OutPointOf(tx.inputs[i]);
        if outpoint in spends {
          assert tx.inputs[i] in tx.inputs;
          return Err(ConflictingSpend(outpoint, spends[outpoint]));
        }
      }
      r := Ok(());
    }

    /** Inputs minus outputs of a transaction whose inputs are there and pay for its outputs. */
    method ComputeFee(tx: Transaction, view: UtxoSet) returns (r: Result<nat, UtxoError>)
      ensures r.Ok? <==>
        && InputsPresent(view.entries, tx.inputs)
        && OutputSum(tx.outputs) <= InputSum(view.entries, tx.inputs) < U64_LIMIT
      ensures r.Ok? ==> r.value == InputSum(view.entries, tx.inputs) - OutputSum(tx.outputs)
    {
      var inputs :- view.SumInputs(tx);
      var outputs :- SumOutputs(tx);
      if inputs < outputs {
        return Err(InputOutputMismatch(inputs, outputs));
      }
      r := Ok(inputs - outputs);
    }

    /** Validates a transaction against the chain's outputs and the pool, makes room for it and admits it. */
    method AcceptTx(tx: Transaction, chainUtxo: UtxoSet) returns (r: Result<AcceptedTx, MempoolError>)
      requires Valid()
      modifies this
      ensures Valid()
      ensures AcceptOutcome(limits, old(State()), State(), chainUtxo.entries, tx, r)
      ensures Structural(tx) && IsCoinbase(tx) ==> r == Err(Coinbase)
      ensures Structural(tx) && !IsCoinbase(tx) && Txid(tx) in old(entries) ==> r == Err(Duplicate(Txid(tx)))
      ensures r.Err? && r.error.DuplicateInput? ==> !InputsDiffer(tx)
      ensures r.Err? && r.error.ConflictingSpend? ==>
        && r.error.outpoint in OutPoints(tx.inputs) && r.error.outpoint in old(spends)
        && r.error.existingTxid == old(spends)[r.error.outpoint]
      ensures r.Err? && r.error.UtxoFailure? ==> !TxValid(PoolView(chainUtxo.entries, old(order)), tx)
      ensures r == Err(InvalidScript) ==> !IsCoinbase(tx) && TxValid(PoolView(chainUtxo.entries, old(order)), tx)
    {
      hide Structural, InputsDiffer, TxValid, ScriptsOk, InputsPresent, PoolView, Txid, IsCoinbase, OutPoints, Listed,
           SpendsExact, TotalSize, Victims, Keep, Exceeds, Outranked, NoConflict, SerializedSize, InputSum, OutputSum,
           Valid, AcceptOutcome, EntryOk, EntryFor, RequestOf, WouldExceedLimits;
      ghost var before, m := State(), chainUtxo.entries;
      ValidParts();
      ConflictsBySpends(spends, entries, tx);
      var structure := ValidateTxStructure(tx);
      if structure.Err? {
        RejectedOutcome(limits, before, m, tx, structure.error);
        return Err(structure.error);
      }
      if IsCoinbase(tx) {
        RejectedOutcome(limits, before, m, tx, Coinbase);
        return Err(Coinbase);
      }
      var txid := Txid(tx);
      if txid in entries {
        RejectedOutcome(limits, before, m, tx, Duplicate(txid));
        return Err(Duplicate(txid));
      }
      var duplicates := CheckDuplicateInputs(tx);
      if duplicates.Err? {
        RejectedOutcome(limits, before, m, tx, duplicates.error);
        return Err(duplicates.error);
      }
      var conflicts := CheckMempoolConflicts(tx);
      if conflicts.Err? {
        RejectedOutcome(limits, before, m, tx, conflicts.error);
        return Err(conflicts.error);
      }
      var view := BuildValidationView(chainUtxo);
      var values := view.ValidateTransaction(tx);
      if values.Err? {
        RejectedOutcome(limits, before, m, tx, UtxoFailure(values.error));
        return Err(UtxoFailure(values.error));
      }
      TxValidParts(view.entries, tx);
      var fee := ComputeFee(tx, view);
      var scripts := view.VerifyScripts(tx);
      if scripts.Err? {
        // A missing output has been ruled out by the check of the values.
        RejectedOutcome(limits, before, m, tx, InvalidScript);
        return Err(InvalidScript);
      }
      var size := structure.value;
      var feeRate := if size > 0 then fee.value / size else 0;
      var candidate := MempoolEntry(tx, feeRate, size, nextSeq);
      CandidateIs(m, before.order, tx, candidate);
      var room := MakeRoomFor(candidate);
      if room.Err? {
        RefusedOutcome(limits, before, State(), m, tx, candidate);
        return Err(room.error);
      }
      ghost var cleared := State();
      ValidParts();
      ExceedsMatches(candidate.size);
      StillFree(before.entries, entries, tx);
      ConflictsBySpends(spends, entries, tx);
      InsertEntry(txid, candidate);
      AdmittedOutcome(limits, before, cleared, State(), m, tx, candidate, fee.value);
      r := Ok(AcceptedTx(txid, fee.value, size));
    }

    // ---- keeping up with the chain ----

    /** The least set with the block's transactions, every entry that spends what the block spends, and
        every entry that spends an output of a member. */
    method ConflictsOf(block: Block) returns (remove: set<Hash>)
      ensures Conflicts(entries, block.transactions, remove)
    {
      hide Txid, IsCoinbase, LeastSoFar;
      ghost var txs := block.transactions;
      remove := {};
      for i := 0 to |block.transactions|
        invariant remove == BlockIds(txs[..i])
      {
        assert txs[..i + 1] == txs[..i] + [txs[i]];
        IdsSnoc(txs[..i], txs[i]);
        remove := remove + {Txid(block.transactions[i])};
      }
      var blockSpends: set<OutPoint> := {};
      for i := 0 to |block.transactions|
        invariant blockSpends == BlockSpends(txs[..i])
      {
        assert txs[..i + 1] == txs[..i] + [txs[i]];
        SpendsSnoc(txs[..i], txs[i]);
        blockSpends := blockSpends + Spent(block.transactions[i]);
      }
      assert txs[..|txs|] == txs;
      hide BlockIds, BlockSpends;
      var added := true;
      IdsAreLeast(entries, txs);
      while added
        invariant LeastSoFar(entries, txs, remove)
        invariant !added ==> HoldsConflicts(entries, txs, remove)
        decreases entries.Keys - remove, added
      {
        ghost var start := remove;
        added := false;
        var rest := entries.Keys;
        while rest != {}
          invariant rest <= entries.Keys && start <= remove
          invariant LeastSoFar(entries, txs, remove)
          invariant added ==> exists id :: id in entries && id in remove && id !in start
          invariant !added ==> remove == start && NoneLeaning(entries, rest, blockSpends, remove)
          decreases |rest|
        {
          var txid :| txid in rest;
          rest := rest - {txid};
          if txid !in remove {
            var leans := Leans(entries[txid].tx, blockSpends, remove);
            if leans {
              MustGo(entries, txs, remove, txid);
              remove := remove + {txid};
              added := true;
            }
          }
        }
        if !added {
          NoneLeansHolds(entries, txs, remove);
        }
      }
      LeastIsConflicts(entries, txs, remove);
    }

    /** Removes the block's transactions, what conflicts with them, and what descends from either. */
    method RemoveForBlock(block: Block)
      requires Valid()
      modifies this`entries, this`spends, this`totalBytes, this`order
      ensures Valid() && BlockStep(old(State()), State(), block.transactions)
    {
      hide Listed, SpendsExact, TotalSize, Keep, Conflicts, Valid;
      ValidParts();
      ghost var before := State();
      var remove := ConflictsOf(block);
      RemoveSet(remove);
      assert RemovedConflicts(before, State(), block.transactions, remove);
    }

    /** Removes what no longer validates until everything does; what is left is exactly what a greedy replay
        keeps. */
    method RevalidatePool(chainUtxo: UtxoSet)
      requires Valid()
      modifies this`entries, this`spends, this`totalBytes, this`order
      ensures Valid() && Revalidated(old(State()), State(), chainUtxo.entries)
    {
      hide Valid, Listed, Keep, Greedy, Replayable, Id;
      ghost var m, first := chainUtxo.entries, order;
      GreedyReplayable(m, first);
      KeepNone(first);
      ghost var gone: set<Hash> := {};
      while true
        invariant Valid() && entries == old(entries) - gone && order == Keep(first, gone)
        invariant order == first || order == Greedy(m, first)
        decreases |order|
      {
        ValidParts();
        var invalid := FindInvalid(chainUtxo);
        if invalid == [] {
          GreedyReplayable(m, order);
          break;
        }
        ghost var ids := set id | id in invalid;
        GreedyReplayable(m, order);
        GreedyShrinks(m, order);
        RemovedMore(old(entries), first, gone, ids);
        RemoveList(invalid);
        gone := gone + ids;
      }
      assert DroppedTo(old(State()), State(), m, gone);
    }

    /** Offers each pending transaction once, in order. */
    method RestorePass(pending: seq<Transaction>, chainUtxo: UtxoSet)
        returns (progress: bool, remaining: seq<Transaction>, ghost trace: seq<Attempt>)
      requires Valid()
      modifies this
      ensures Valid()
      ensures Run(limits, chainUtxo.entries, trace, old(State()), State()) && Offered(trace) == pending
      ensures remaining == LeftOver(trace) && (progress <==> Admitted(trace) != [])
    {
      hide *;
      progress, remaining, trace := false, [], [];
      ghost var start, m := State(), chainUtxo.entries;
      RunStart(limits, m, start);
      for k := 0 to |pending|
        invariant Valid() && Run(limits, m, trace, start, State())
        invariant Offered(trace) == pending[..k] && remaining == LeftOver(trace)
        invariant progress <==> Admitted(trace) != []
      {
        var tx := pending[k];
        assert pending[..k + 1] == pending[..k] + [tx];
        ghost var before := State();
        var verdict := AcceptTx(tx, chainUtxo);
        ghost var attempt := Attempt(tx, before, State(), verdict);
        RunSnoc(limits, m, trace, start, attempt);
        trace := trace + [attempt];
        if verdict.Ok? {
          progress := true;
        } else {
          remaining := remaining + [tx];
        }
      }
      assert pending[..|pending|] == pending;
    }

    /** Offers the candidates again and again until a pass admits none or none is left. */
    method RestoreCandidates(candidates: seq<Transaction>, chainUtxo: UtxoSet) returns (ghost rounds: seq<seq<Attempt>>)
      requires Valid()
      modifies this
      ensures Valid() && Restored(limits, chainUtxo.entries, rounds, candidates, old(State()), State())
    {
      hide *;
      ghost var m, start := chainUtxo.entries, State();
      var pending := candidates;
      rounds := [];
      RoundsStart(limits, m, candidates, start);
      var more := true;
      while more
        invariant Valid() && Rounds(limits, m, rounds, candidates, start, State())
        invariant pending == Pending(rounds, candidates)
        invariant more <==> (rounds != [] ==> GoesOn(rounds[|rounds| - 1]))
        decreases more, |pending|
      {
        ghost var before := State();
        var progress, remaining;
        ghost var trace;
        progress, remaining, trace := RestorePass(pending, chainUtxo);
        RoundsSnoc(limits, m, rounds, candidates, start, trace, before, State());
        PassSplits(trace);
        rounds := rounds + [trace];
        more := progress && remaining != [];
        pending := remaining;
      }
      RestoredIs(limits, m, rounds, candidates, start, State());
    }

    /** Brings the pool in line with a chain whose unspent outputs are final: what the connected blocks
        confirm or contradict goes, what no longer validates goes, and the transactions of the disconnected
        blocks are offered again. */
    method SynchronizeToChain(chainUtxo: UtxoSet, connected: seq<Block>, disconnected: seq<Block>)
        returns (ghost cleaned: PoolState, ghost kept: PoolState, ghost rounds: seq<seq<Attempt>>)
      requires Valid()
      modifies this
      ensures Valid()
      ensures BlockSteps(old(State()), cleaned, connected)
      ensures Revalidated(cleaned, kept, chainUtxo.entries)
      ensures Restored(limits, chainUtxo.entries, rounds, RestoreList(disconnected), kept, State())
    {
      hide *;
      var candidates := CollectRestorable(disconnected);
      BlockStepsStart(State());
      assert connected[..0] == [];
      for i := 0 to |connected|
        invariant Valid() && BlockSteps(old(State()), State(), connected[..i])
      {
        ghost var before := State();
        RemoveForBlock(connected[i]);
        assert connected[..i + 1] == connected[..i] + [connected[i]];
        BlockStepsSnoc(old(State()), before, State(), connected[..i], connected[i]);
      }
      assert connected[..|connected|] == connected;
      cleaned := State();
      RevalidatePool(chainUtxo);
      kept := State();
      rounds := RestoreCandidates(candidates, chainUtxo);
    }

    /** No two inputs of the pool name the same outpoint. */
    lemma NoDoubleSpend(a: Hash, b: Hash, i: nat, j: nat)
      requires Valid() && a in entries && b in entries && (a != b || i != j)
      requires i < |entries[a].tx.inputs| && j < |entries[b].tx.inputs|
      ensures PlainRules.NamesOther(entries[a].tx.inputs[i], entries[b].tx.inputs[j])
    {
      hide Txid, Structural;
      ListedHasId(entries, order, nextSeq, a);
      var x, y := entries[a].tx.inputs[i], entries[b].tx.inputs[j];
      if a == b {
        var points := InputPoints(entries[a].tx.inputs);
        assert points[i] == OutPointOf(x) && points[j] == OutPointOf(y);
      } else {
        assert Claims(entries, a, OutPointOf(x)) && Claims(entries, b, OutPointOf(y));
      }
    }

    lemma ExceedsMatches(size: nat)
      requires Valid()
      ensures WouldExceedLimits(size) <==> Exceeds(limits, order, size)
    {
      hide Indexed, Present, ByAdmission, SpendsExact;
    }

    lemma ValidParts()
      requires Valid()
      ensures Listed(entries, order, nextSeq) && SpendsExact(spends, entries)
    {
      hide Listed, SpendsExact;
    }
  }

  // ---- blocks and revalidation ----

  /** The pool has lost exactly the conflicts with a block's transactions. */
  ghost predicate BlockStep(before: PoolState, after: PoolState, txs: seq<Transaction>) {
    exists gone :: RemovedConflicts(before, after, txs, gone)
  }

  ghost predicate RemovedConflicts(before: PoolState, after: PoolState, txs: seq<Transaction>, gone: set<Hash>) {
    && Conflicts(before.entries, txs, gone)
    && after == PoolState(before.entries - gone, Keep(before.order, gone), before.nextSeq)
  }

  /** After a block the pool holds none of its transactions, and nothing that spends what they spend or an output
      of theirs; what is left was there before. */
  lemma NothingConflicts(before: PoolState, after: PoolState, txs: seq<Transaction>, id: Hash, tx: Transaction)
    requires BlockStep(before, after, txs) && id in after.entries && tx in txs
    ensures id in before.entries && after.entries[id] == before.entries[id] && id != Txid(tx)
    ensures forall input | input in after.entries[id].tx.inputs :: input.previousOutput != Txid(tx)
    ensures PlainRules.NamesNothing(tx.inputs) || forall input, other |
      input in after.entries[id].tx.inputs && other in tx.inputs :: PlainRules.NamesOther(input, other)
  {
    hide Txid, Keep;
    var gone :| RemovedConflicts(before, after, txs, gone);
    assert Txid(tx) in BlockIds(txs);
    forall input | input in after.entries[id].tx.inputs
      ensures OutPointOf(input).txid !in gone && OutPointOf(input) !in BlockSpends(txs)
    {
      assert Claims(before.entries, id, OutPointOf(input));
    }
    if !IsCoinbase(tx) {
      forall other | other in tx.inputs
        ensures OutPointOf(other) in BlockSpends(txs)
      {
        assert OutPointOf(other) in Spent(tx);
      }
    }
  }

  /** One block after the other. */
  ghost predicate BlockSteps(before: PoolState, after: PoolState, blocks: seq<Block>)
    decreases |blocks|
  {
    if blocks == [] then after == before
    else
      var n := |blocks| - 1;
      exists mid :: BlockSteps(before, mid, blocks[..n]) && BlockStep(mid, after, blocks[n].transactions)
  }

  lemma BlockStepsStart(s: PoolState)
    ensures BlockSteps(s, s, [])
  {
  }

  lemma BlockStepsSnoc(before: PoolState, mid: PoolState, after: PoolState, blocks: seq<Block>, block: Block)
    requires BlockSteps(before, mid, blocks) && BlockStep(mid, after, block.transactions)
    ensures BlockSteps(before, after, blocks + [block])
  {
    hide BlockStep;
    assert (blocks + [block])[..|blocks|] == blocks;
  }

  /** The pool has been reduced to what a greedy replay keeps. */
  ghost predicate Revalidated(before: PoolState, after: PoolState, m: Utxos) {
    exists gone :: DroppedTo(before, after, m, gone)
  }

  ghost predicate DroppedTo(before: PoolState, after: PoolState, m: Utxos, gone: set<Hash>) {
    && after == PoolState(before.entries - gone, Keep(before.order, gone), before.nextSeq)
    && after.order == Greedy(m, before.order) && Replayable(m, after.order)
  }

  lemma {:induction false} GreedyShrinks(m: Utxos, pool: seq<MempoolEntry>)
    ensures Greedy(m, pool) == pool || |Greedy(m, pool)| < |pool|
  {
    hide ValidFor, PoolView;
    if pool != [] {
      var n := |pool| - 1;
      GreedyShrinks(m, pool[..n]);
      GreedyReplayable(m, pool[..n]);
      assert pool == pool[..n] + [pool[n]];
    }
  }

  /** One removing pass is enough: the greedy replay rejects nothing of what it kept. */
  lemma OnePassSuffices(m: Utxos, pool: seq<MempoolEntry>)
    ensures Greedy(m, Greedy(m, pool)) == Greedy(m, pool)
  {
    hide Greedy, Replayable;
    GreedyReplayable(m, pool);
    GreedyReplayable(m, Greedy(m, pool));
  }

  function ApplyBlocks(m: Utxos, blocks: seq<Block>): Utxos {
    if blocks == [] then m else ApplyTxs(ApplyBlocks(m, blocks[..|blocks| - 1]), blocks[|blocks| - 1].transactions)
  }

  /** Blocks that only extend the chain never make invalid what their removal leaves: the revalidation that
      follows removes nothing. */
  lemma {:induction false} ExtensionKeepsReplayable(m: Utxos, before: PoolState, after: PoolState, blocks: seq<Block>)
    requires BlockSteps(before, after, blocks) && Replayable(m, before.order)
    requires Listed(before.entries, before.order, before.nextSeq)
    ensures Replayable(ApplyBlocks(m, blocks), after.order) && Listed(after.entries, after.order, after.nextSeq)
    ensures Greedy(ApplyBlocks(m, blocks), after.order) == after.order
    decreases |blocks|
  {
    hide Replayable, Greedy, Listed, ApplyTxs, BlockStep;
    if blocks != [] {
      var n := |blocks| - 1;
      var mid :| BlockSteps(before, mid, blocks[..n]) && BlockStep(mid, after, blocks[n].transactions);
      ExtensionKeepsReplayable(m, before, mid, blocks[..n]);
      BlockKeepsReplayable(ApplyBlocks(m, blocks[..n]), mid, after, blocks[n].transactions);
    }
    GreedyReplayable(ApplyBlocks(m, blocks), after.order);
  }

  lemma BlockKeepsReplayable(m: Utxos, before: PoolState, after: PoolState, txs: seq<Transaction>)
    requires BlockStep(before, after, txs) && Replayable(m, before.order)
    requires Listed(before.entries, before.order, before.nextSeq)
    ensures Replayable(ApplyTxs(m, txs), after.order) && Listed(after.entries, after.order, after.nextSeq)
  {
    hide Replayable, Listed, ApplyTxs, Keep, Closed, BlockIds, BlockSpends, Claims;
    var gone :| RemovedConflicts(before, after, txs, gone);
    ConflictsClosed(before.entries, before.order, before.nextSeq, txs, gone);
    ConnectKeepsReplayable(m, before.order, txs, gone);
    RemovalListed(before.entries, before.order, before.nextSeq, gone);
  }

  lemma RemovalListed(entries: Entries, order: seq<MempoolEntry>, nextSeq: nat, gone: set<Hash>)
    requires Listed(entries, order, nextSeq)
    ensures Listed(entries - gone, Keep(order, gone), nextSeq)
  {
    hide Listed, Keep;
    var inside, outside := gone * entries.Keys, gone - entries.Keys;
    ListedKeep(entries, order, nextSeq, inside);
    RemovedMore(entries, order, inside, outside);
    KeepUnlisted(entries - inside, Keep(order, inside), nextSeq, outside);
    assert inside + outside == gone;
  }

  // ---- restoration ----

  /** One transaction offered to the pool, and what came of it. */
  datatype Attempt = Attempt(tx: Transaction, before: PoolState, after: PoolState,
                             verdict: Result<AcceptedTx, MempoolError>)

  /** Attempts made one after the other on these unspent outputs, from one state of the pool to another. */
  ghost predicate Run(limits: MempoolLimits, m: Utxos, trace: seq<Attempt>, first: PoolState, last: PoolState) {
    if trace == [] then last == first
    else
      var n := |trace| - 1;
      && Run(limits, m, trace[..n], first, trace[n].before)
      && AcceptOutcome(limits, trace[n].before, trace[n].after, m, trace[n].tx, trace[n].verdict)
      && last == trace[n].after
  }

  function Offered(trace: seq<Attempt>): seq<Transaction> {
    if trace == [] then [] else Offered(trace[..|trace| - 1]) + [trace[|trace| - 1].tx]
  }

  function Admitted(trace: seq<Attempt>): seq<Transaction> {
    if trace == [] then []
    else Admitted(trace[..|trace| - 1]) + if trace[|trace| - 1].verdict.Ok? then [trace[|trace| - 1].tx] else []
  }

  function LeftOver(trace: seq<Attempt>): seq<Transaction> {
    if trace == [] then []
    else LeftOver(trace[..|trace| - 1]) + if trace[|trace| - 1].verdict.Ok? then [] else [trace[|trace| - 1].tx]
  }

  /** None of the attempts was refused for lack of room. */
  predicate NoneRefused(trace: seq<Attempt>) {
    forall i | 0 <= i < |trace| :: trace[i].verdict != Err(AtCapacity)
  }

  /** The victims of an attempt that admits its transaction. */
  ghost function VictimsOf(limits: MempoolLimits, m: Utxos, a: Attempt): set<Hash> {
    var entry := EntryFor(PoolView(m, a.before.order), a.tx, a.before.nextSeq);
    Victims(a.before.entries, a.before.order, RequestOf(limits, entry))
  }

  /** No attempt evicted a parent of the transaction it admitted. */
  ghost predicate ParentsSpared(limits: MempoolLimits, m: Utxos, trace: seq<Attempt>) {
    forall i | 0 <= i < |trace| && trace[i].verdict.Ok? :: ParentsKept(trace[i].tx, VictimsOf(limits, m, trace[i]))
  }

  /** None of the transaction's parents has gone. */
  ghost predicate ParentsKept(tx: Transaction, gone: set<Hash>) {
    forall o | o in OutPoints(tx.inputs) :: o.txid !in gone
  }

  lemma RunStart(limits: MempoolLimits, m: Utxos, s: PoolState)
    ensures Run(limits, m, [], s, s) && Offered([]) == [] && Admitted([]) == [] && LeftOver([]) == []
  {
  }

  lemma RunSnoc(limits: MempoolLimits, m: Utxos, trace: seq<Attempt>, first: PoolState, a: Attempt)
    requires Run(limits, m, trace, first, a.before)
    requires AcceptOutcome(limits, a.before, a.after, m, a.tx, a.verdict)
    ensures Run(limits, m, trace + [a], first, a.after) && Offered(trace + [a]) == Offered(trace) + [a.tx]
    ensures Admitted(trace + [a]) == if a.verdict.Ok? then Admitted(trace) + [a.tx] else Admitted(trace)
    ensures LeftOver(trace + [a]) == if a.verdict.Ok? then LeftOver(trace) else LeftOver(trace) + [a.tx]
  {
    hide AcceptOutcome;
    assert (trace + [a])[..|trace|] == trace;
  }

  /** Every offered transaction is admitted or left over. */
  lemma {:induction false} PassSplits(trace: seq<Attempt>)
    ensures multiset(Admitted(trace)) + multiset(LeftOver(trace)) == multiset(Offered(trace))
    ensures |Admitted(trace)| + |LeftOver(trace)| == |Offered(trace)|
  {
    if trace != [] {
      PassSplits(trace[..|trace| - 1]);
    }
  }

  /** Another pass follows one that admitted something and left something over. */
  predicate GoesOn(round: seq<Attempt>) {
    Admitted(round) != [] && LeftOver(round) != []
  }

  /** What the next pass offers: the candidates, and then what the pass before left over. */
  function Pending(rounds: seq<seq<Attempt>>, candidates: seq<Transaction>): seq<Transaction> {
    if rounds == [] then candidates else LeftOver(rounds[|rounds| - 1])
  }

  function StartOf(round: seq<Attempt>, last: PoolState): PoolState {
    if round == [] then last else round[0].before
  }

  /** Passes made one after the other, each on what the one before left over. */
  ghost predicate Rounds(limits: MempoolLimits, m: Utxos, rounds: seq<seq<Attempt>>, candidates: seq<Transaction>,
                         first: PoolState, last: PoolState) {
    if rounds == [] then last == first
    else
      var n := |rounds| - 1;
      var start := StartOf(rounds[n], last);
      && Rounds(limits, m, rounds[..n], candidates, first, start)
      && Run(limits, m, rounds[n], start, last)
      && Offered(rounds[n]) == Pending(rounds[..n], candidates)
      && (n > 0 ==> GoesOn(rounds[n - 1]))
  }

  /** All the passes of a restoration: the last one, and only it, admitted nothing or left nothing over. */
  ghost predicate Restored(limits: MempoolLimits, m: Utxos, rounds: seq<seq<Attempt>>, candidates: seq<Transaction>,
                           first: PoolState, last: PoolState) {
    rounds != [] && Rounds(limits, m, rounds, candidates, first, last) && !GoesOn(rounds[|rounds| - 1])
  }

  lemma RoundsStart(limits: MempoolLimits, m: Utxos, candidates: seq<Transaction>, s: PoolState)
    ensures Rounds(limits, m, [], candidates, s, s) && Pending([], candidates) == candidates
  {
  }

  lemma {:induction false} RunBegins(limits: MempoolLimits, m: Utxos, trace: seq<Attempt>, first: PoolState, last: PoolState)
    requires Run(limits, m, trace, first, last)
    ensures StartOf(trace, last) == first
  {
    hide AcceptOutcome;
    if |trace| > 1 {
      RunBegins(limits, m, trace[..|trace| - 1], first, trace[|trace| - 1].before);
    }
  }

  lemma RoundsSnoc(limits: MempoolLimits, m: Utxos, rounds: seq<seq<Attempt>>, candidates: seq<Transaction>,
                   first: PoolState, round: seq<Attempt>, before: PoolState, after: PoolState)
    requires Rounds(limits, m, rounds, candidates, first, before) && Run(limits, m, round, before, after)
    requires Offered(round) == Pending(rounds, candidates) && (rounds != [] ==> GoesOn(rounds[|rounds| - 1]))
    ensures Rounds(limits, m, rounds + [round], candidates, first, after)
    ensures Pending(rounds + [round], candidates) == LeftOver(round)
    ensures GoesOn(round) <==> Admitted(round) != [] && LeftOver(round) != []
  {
    hide Run, Admitted, LeftOver, Offered;
    var longer := rounds + [round];
    assert longer[..|rounds|] == rounds && longer[|rounds|] == round;
    RunBegins(limits, m, round, before, after);
  }

  lemma RestoredIs(limits: MempoolLimits, m: Utxos, rounds: seq<seq<Attempt>>, candidates: seq<Transaction>,
                   first: PoolState, last: PoolState)
    requires rounds != [] && Rounds(limits, m, rounds, candidates, first, last) && !GoesOn(rounds[|rounds| - 1])
    ensures Restored(limits, m, rounds, candidates, first, last)
  {
    hide Rounds, GoesOn;
  }

  // ---- what a restoration achieves ----

  /** Each of the transactions fails a check on this pool. */
  ghost predicate AllFail(s: PoolState, m: Utxos, txs: seq<Transaction>) {
    forall tx | tx in txs :: !Passes(s, m, tx)
  }

  lemma RejectedUnchanged(limits: MempoolLimits, m: Utxos, a: Attempt)
    requires AcceptOutcome(limits, a.before, a.after, m, a.tx, a.verdict)
    requires a.verdict.Err? && a.verdict != Err(AtCapacity)
    ensures !Passes(a.before, m, a.tx) && a.after == a.before
  {
    hide Passes, PoolView, Victims, EntryFor;
  }

  lemma {:induction false} FruitlessPass(limits: MempoolLimits, m: Utxos, trace: seq<Attempt>, first: PoolState,
                                         last: PoolState)
    requires Run(limits, m, trace, first, last) && Admitted(trace) == [] && NoneRefused(trace)
    ensures last == first && AllFail(first, m, Offered(trace))
  {
    hide Passes, AcceptOutcome;
    if trace != [] {
      var n := |trace| - 1;
      FruitlessPass(limits, m, trace[..n], first, trace[n].before);
      RejectedUnchanged(limits, m, trace[n]);
    }
  }

  lemma {:induction false} LeftOverWasOffered(trace: seq<Attempt>, tx: Transaction)
    requires tx in LeftOver(trace)
    ensures tx in Offered(trace)
  {
    var n := |trace| - 1;
    if tx in LeftOver(trace[..n]) {
      LeftOverWasOffered(trace[..n], tx);
    }
  }

  /** If the last pass was refused nothing for lack of room, every candidate it left over fails a check on
      the final pool. */
  lemma LeftoversFail(limits: MempoolLimits, m: Utxos, rounds: seq<seq<Attempt>>, candidates: seq<Transaction>,
                      first: PoolState, last: PoolState)
    requires Restored(limits, m, rounds, candidates, first, last) && NoneRefused(rounds[|rounds| - 1])
    ensures AllFail(last, m, LeftOver(rounds[|rounds| - 1]))
  {
    hide Passes, Run, Admitted, LeftOver, Offered, NoneRefused;
    var round := rounds[|rounds| - 1];
    if LeftOver(round) != [] {
      FruitlessPass(limits, m, round, StartOf(round, last), last);
      forall tx | tx in LeftOver(round)
        ensures !Passes(last, m, tx)
      {
        LeftOverWasOffered(round, tx);
      }
    }
  }

  /** All transactions admitted in any pass. */
  function AllAdmitted(rounds: seq<seq<Attempt>>): multiset<Transaction> {
    if rounds == [] then multiset{} else AllAdmitted(rounds[..|rounds| - 1]) + multiset(Admitted(rounds[|rounds| - 1]))
  }

  /** Every candidate is admitted once or left over at the end. */
  lemma {:induction false} CandidatesAccounted(limits: MempoolLimits, m: Utxos, rounds: seq<seq<Attempt>>,
                                               candidates: seq<Transaction>, first: PoolState, last: PoolState)
    requires Rounds(limits, m, rounds, candidates, first, last)
    ensures AllAdmitted(rounds) + multiset(Pending(rounds, candidates)) == multiset(candidates)
  {
    hide Run, Admitted, LeftOver, Offered, GoesOn;
    if rounds != [] {
      var n := |rounds| - 1;
      CandidatesAccounted(limits, m, rounds[..n], candidates, first, StartOf(rounds[n], last));
      PassSplits(rounds[n]);
    }
  }

  lemma {:induction false} RunReplays(limits: MempoolLimits, m: Utxos, trace: seq<Attempt>, first: PoolState,
                                      last: PoolState)
    requires Run(limits, m, trace, first, last) && ParentsSpared(limits, m, trace)
    requires Replayable(m, first.order) && Listed(first.entries, first.order, first.nextSeq)
    ensures Replayable(m, last.order) && Listed(last.entries, last.order, last.nextSeq)
  {
    hide AcceptOutcome, Replayable, Listed, ParentsKept, VictimsOf;
    if trace != [] {
      var n := |trace| - 1;
      assert ParentsSpared(limits, m, trace[..n]) by {
        assert forall i | 0 <= i < n :: trace[..n][i] == trace[i];
      }
      RunReplays(limits, m, trace[..n], first, trace[n].before);
      AttemptReplays(limits, m, trace[n]);
    }
  }

  lemma AttemptReplays(limits: MempoolLimits, m: Utxos, a: Attempt)
    requires AcceptOutcome(limits, a.before, a.after, m, a.tx, a.verdict)
    requires a.verdict.Ok? ==> ParentsKept(a.tx, VictimsOf(limits, m, a))
    requires Replayable(m, a.before.order) && Listed(a.before.entries, a.before.order, a.before.nextSeq)
    ensures Replayable(m, a.after.order) && Listed(a.after.entries, a.after.order, a.after.nextSeq)
  {
    hide AcceptOutcome, Replayable, Listed, ParentsKept, Victims, EntryFor, PoolView;
    AcceptKeepsReplayable(limits, a.before, a.after, m, a.tx, a.verdict);
    AcceptKeepsListed(limits, a.before, a.after, m, a.tx, a.verdict);
  }

  /** A restoration that never evicts a parent of what it admits keeps the pool replayable. */
  lemma {:induction false} RestorationReplays(limits: MempoolLimits, m: Utxos, rounds: seq<seq<Attempt>>,
                                              candidates: seq<Transaction>, first: PoolState, last: PoolState)
    requires Rounds(limits, m, rounds, candidates, first, last)
    requires forall i | 0 <= i < |rounds| :: ParentsSpared(limits, m, rounds[i])
    requires Replayable(m, first.order) && Listed(first.entries, first.order, first.nextSeq)
    ensures Replayable(m, last.order) && Listed(last.entries, last.order, last.nextSeq)
  {
    hide Run, Replayable, Listed, ParentsSpared, Offered, GoesOn;
    if rounds != [] {
      var n := |rounds| - 1;
      var start := StartOf(rounds[n], last);
      RestorationReplays(limits, m, rounds[..n], candidates, first, start);
      RunReplays(limits, m, rounds[n], start, last);
    }
  }

  lemma BlockStepListed(before: PoolState, after: PoolState, txs: seq<Transaction>)
    requires BlockStep(before, after, txs) && Listed(before.entries, before.order, before.nextSeq)
    ensures Listed(after.entries, after.order, after.nextSeq)
  {
    hide Listed, Keep, Conflicts;
    var gone :| RemovedConflicts(before, after, txs, gone);
    RemovalListed(before.entries, before.order, before.nextSeq, gone);
  }

  lemma {:induction false} BlockStepsListed(before: PoolState, after: PoolState, blocks: seq<Block>)
    requires BlockSteps(before, after, blocks) && Listed(before.entries, before.order, before.nextSeq)
    ensures Listed(after.entries, after.order, after.nextSeq)
    decreases |blocks|
  {
    hide Listed, BlockStep;
    if blocks != [] {
      var n := |blocks| - 1;
      var mid :| BlockSteps(before, mid, blocks[..n]) && BlockStep(mid, after, blocks[n].transactions);
      BlockStepsListed(before, mid, blocks[..n]);
      BlockStepListed(mid, after, blocks[n].transactions);
    }
  }

  /** After a synchronisation that evicts no parent of what it restores, the pool replays on the new chain. */
  lemma SynchronizedReplays(limits: MempoolLimits, m: Utxos, before: PoolState, cleaned: PoolState, kept: PoolState,
                            last: PoolState, connected: seq<Block>, rounds: seq<seq<Attempt>>,
                            candidates: seq<Transaction>)
    requires Listed(before.entries, before.order, before.nextSeq) && BlockSteps(before, cleaned, connected)
    requires Revalidated(cleaned, kept, m) && Restored(limits, m, rounds, candidates, kept, last)
    requires forall i | 0 <= i < |rounds| :: ParentsSpared(limits, m, rounds[i])
    ensures Replayable(m, last.order)
  {
    hide Listed, Replayable, Greedy, Keep, Rounds, ParentsSpared, GoesOn, BlockSteps;
    BlockStepsListed(before, cleaned, connected);
    var gone :| DroppedTo(cleaned, kept, m, gone);
    RemovalListed(cleaned.entries, cleaned.order, cleaned.nextSeq, gone);
    RestorationReplays(limits, m, rounds, candidates, kept, last);
  }

  // ---- what an admission does to replayability ----

  /** Whatever comes of it, an attempt to admit a transaction keeps the pool replayable unless it evicts a
      parent of the transaction it admits; and then the pool is not replayable any more, if no evicted
      transaction has outputs on the chain. */
  lemma AcceptKeepsReplayable(limits: MempoolLimits, before: PoolState, after: PoolState, m: Utxos, tx: Transaction,
                              r: Result<AcceptedTx, MempoolError>)
    requires AcceptOutcome(limits, before, after, m, tx, r)
    requires Replayable(m, before.order) && Listed(before.entries, before.order, before.nextSeq)
    ensures r.Err? ==> Replayable(m, after.order)
    ensures var gone := VictimsOf(limits, m, Attempt(tx, before, after, r));
      && (r.Ok? && ParentsKept(tx, gone) ==> Replayable(m, after.order))
      && (r.Ok? && (forall o | o in m :: o.txid !in gone) ==> (Replayable(m, after.order) <==> ParentsKept(tx, gone)))
  {
    hide Passes, Exceeds, Outranked, PoolView, Replayable, Listed, Keep, Closed, OutPoints, ValidFor, Victims, EntryFor,
         InputSum, OutputSum;
    if r.Ok? || r.error == AtCapacity {
      var entry := EntryFor(PoolView(m, before.order), tx, before.nextSeq);
      var request := RequestOf(limits, entry);
      var gone := Victims(before.entries, before.order, request);
      VictimsClosed(before.entries, before.order, before.nextSeq, request);
      RemovalKeepsReplayable(m, before.order, gone);
      if r.Ok? {
        PassesIsValid(before, m, tx);
        EntryHolds(PoolView(m, before.order), tx, before.nextSeq);
        var kept := Keep(before.order, gone);
        ReplayableSnoc(m, kept, entry);
        if ParentsKept(tx, gone) {
          CoversItself(m, gone);
          KeepCovers(m, m, before.order, gone, {});
          CoveredIsValid(PoolView(m, before.order), PoolView(m, kept), tx, gone, {});
        } else if forall o | o in m :: o.txid !in gone {
          NewcomerSurvivesIff(m, before.order, gone, tx);
        }
      }
    }
  }

  lemma EntryHolds(view: Utxos, tx: Transaction, seqNo: nat)
    ensures EntryFor(view, tx, seqNo).tx == tx && EntryFor(view, tx, seqNo).seqNo == seqNo
    ensures EntryFor(view, tx, seqNo).size == SerializedSize(tx)
  {
    hide SerializedSize, InputSum, OutputSum;
  }

  lemma AcceptKeepsListed(limits: MempoolLimits, before: PoolState, after: PoolState, m: Utxos, tx: Transaction,
                          r: Result<AcceptedTx, MempoolError>)
    requires AcceptOutcome(limits, before, after, m, tx, r) && Listed(before.entries, before.order, before.nextSeq)
    ensures Listed(after.entries, after.order, after.nextSeq)
  {
    hide Exceeds, Outranked, PoolView, Listed, Keep, OutPoints, Victims, EntryFor, InputSum, OutputSum, NoConflict,
         TxValid, ScriptsOk, Structural, InputsDiffer, Txid;
    if r.Ok? || r.error == AtCapacity {
      var entry := EntryFor(PoolView(m, before.order), tx, before.nextSeq);
      var gone := Victims(before.entries, before.order, RequestOf(limits, entry));
      ListedKeep(before.entries, before.order, before.nextSeq, gone);
      if r.Ok? {
        EntryHolds(PoolView(m, before.order), tx, before.nextSeq);
        ListedWith(before.entries - gone, Keep(before.order, gone), before.nextSeq, entry);
      }
    }
  }

  lemma PassesIsValid(s: PoolState, m: Utxos, tx: Transaction)
    requires Passes(s, m, tx)
    ensures ValidFor(PoolView(m, s.order), tx)
  {
    hide ValidFor, PoolView, OutPoints;
  }

  /** A test a caller can make before the call: if the transaction's parents in the pool, their parents, and so
      on, all have a fee rate above its own, none of its parents is evicted for it. */
  lemma RichAncestorsAreKept(limits: MempoolLimits, m: Utxos, s: PoolState, tx: Transaction, ancestors: set<Hash>)
    requires forall o | o in OutPoints(tx.inputs) && o.txid in s.entries :: o.txid in ancestors
    requires HoldsParents(s.entries, ancestors)
    requires AllAbove(s.entries, ancestors, EntryFor(PoolView(m, s.order), tx, s.nextSeq).feeRate)
    ensures ParentsKept(tx, VictimsOf(limits, m, Attempt(tx, s, s, Err(AtCapacity))))
  {
    hide OutPoints, PoolView, EntryFor, Victims;
    var entry := EntryFor(PoolView(m, s.order), tx, s.nextSeq);
    VictimsSpare(s.entries, s.order, RequestOf(limits, entry), ancestors);
  }

  // ---- what must go for a block ----

  /** The transaction spends something the block spends or an output of a removed transaction. */
  method Leans(tx: Transaction, blockSpends: set<OutPoint>, remove: set<Hash>) returns (leans: bool)
    ensures leans <==> exists o | o in OutPoints(tx.inputs) :: o in blockSpends || o.txid in remove
  {
    for i := 0 to |tx.inputs|
      invariant forall k | 0 <= k < i ::
        OutPointOf(tx.inputs[k]) !in blockSpends && OutPointOf(tx.inputs[k]).txid !in remove
    {
      var outpoint := OutPointOf(tx.inputs[i]);
      if outpoint in blockSpends || outpoint.txid in remove {
        assert tx.inputs[i] in tx.inputs && outpoint in OutPoints(tx.inputs);
        return true;
      }
    }
    leans := false;
  }

  /** Holds the block's own transactions and is inside every set that holds all conflicts. */
  ghost predicate LeastSoFar(entries: Entries, txs: seq<Transaction>, s: set<Hash>) {
    BlockIds(txs) <= s && forall t | HoldsConflicts(entries, txs, t) :: s <= t
  }

  /** Among the entries already looked at, none outside the set leans on it or on what the block spends. */
  ghost predicate NoneLeaning(entries: Entries, rest: set<Hash>, blockSpends: set<OutPoint>, s: set<Hash>) {
    forall id, o | Claims(entries, id, o) && id !in rest && (o in blockSpends || o.txid in s) :: id in s
  }

  lemma IdsSnoc(txs: seq<Transaction>, tx: Transaction)
    ensures BlockIds(txs + [tx]) == BlockIds(txs) + {Txid(tx)}
  {
    hide Txid;
    assert forall t :: t in txs + [tx] <==> t in txs || t == tx;
  }

  lemma SpendsSnoc(txs: seq<Transaction>, tx: Transaction)
    ensures BlockSpends(txs + [tx]) == BlockSpends(txs) + Spent(tx)
  {
    hide Spent;
    assert forall t :: t in txs + [tx] <==> t in txs || t == tx;
  }

  lemma IdsAreLeast(entries: Entries, txs: seq<Transaction>)
    ensures LeastSoFar(entries, txs, BlockIds(txs))
  {
    hide BlockIds, Claims;
  }

  lemma MustGo(entries: Entries, txs: seq<Transaction>, s: set<Hash>, id: Hash)
    requires LeastSoFar(entries, txs, s) && id in entries
    requires exists o | o in OutPoints(entries[id].tx.inputs) :: o in BlockSpends(txs) || o.txid in s
    ensures LeastSoFar(entries, txs, s + {id})
  {
    hide BlockIds, BlockSpends, OutPoints;
    var o :| o in OutPoints(entries[id].tx.inputs) && (o in BlockSpends(txs) || o.txid in s);
    assert Claims(entries, id, o);
  }

  lemma LeastIsConflicts(entries: Entries, txs: seq<Transaction>, s: set<Hash>)
    requires LeastSoFar(entries, txs, s) && HoldsConflicts(entries, txs, s)
    ensures Conflicts(entries, txs, s)
  {
    hide HoldsConflicts, BlockIds;
  }

  lemma NoneLeansHolds(entries: Entries, txs: seq<Transaction>, s: set<Hash>)
    requires LeastSoFar(entries, txs, s) && NoneLeaning(entries, {}, BlockSpends(txs), s)
    ensures HoldsConflicts(entries, txs, s)
  {
    hide BlockIds, BlockSpends, Claims;
  }

  /** The entry that is made of a transaction on this view. */
  function EntryFor(view: Utxos, tx: Transaction, seqNo: nat): MempoolEntry {
    var size := SerializedSize(tx);
    MempoolEntry(tx, FeeRate(InputSum(view, tx.inputs), OutputSum(tx.outputs), size), size, seqNo)
  }

  /** Whole satoshis per byte. */
  function FeeRate(paid: nat, received: nat, size: nat): nat {
    if size == 0 || paid < received then 0 else (paid - received) / size
  }

  function RequestOf(limits: MempoolLimits, candidate: MempoolEntry): Request {
    Request(limits, candidate.size, candidate.feeRate)
  }

  lemma RateIsFloor(paid: nat, received: nat, size: nat)
    requires received <= paid && size > 0
    ensures FeeRate(paid, received, size) * size <= paid - received < (FeeRate(paid, received, size) + 1) * size
  {
    var fee := paid - received;
    Arith.DivBounds(fee, size, fee / size);
    Arith.DivBounds(fee, size, fee / size + 1);
  }

  lemma SizeIsPositive(tx: Transaction)
    ensures SerializedSize(tx) == |EncodeTransaction(tx)| > 0
  {
    SerializedSizeIsExact(tx);
  }

  /** The rate of an entry is what its inputs exceed its outputs by over the length of its encoding, rounded down. */
  lemma RateOfEntry(view: Utxos, tx: Transaction, seqNo: nat)
    requires OutputSum(tx.outputs) <= InputSum(view, tx.inputs)
    ensures
      var entry, fee := EntryFor(view, tx, seqNo), InputSum(view, tx.inputs) - OutputSum(tx.outputs);
      && entry.tx == tx && entry.seqNo == seqNo && entry.size == |EncodeTransaction(tx)|
      && entry.feeRate * entry.size <= fee < (entry.feeRate + 1) * entry.size
  {
    hide EncodeTransaction, InputSum, OutputSum, SerializedSize, FeeRate;
    SizeIsPositive(tx);
    RateIsFloor(InputSum(view, tx.inputs), OutputSum(tx.outputs), SerializedSize(tx));
  }

  lemma RequestFields(limits: MempoolLimits, candidate: MempoolEntry)
    ensures RequestOf(limits, candidate) == Request(limits, candidate.size, candidate.feeRate)
  {
  }

  /** What an attempt to admit a transaction does. A failed check changes nothing; a transaction that passes
      them all is admitted after its victims have gone, or refused when there is still no room and the
      lowest entry left outranks it. */
  ghost predicate AcceptOutcome(limits: MempoolLimits, before: PoolState, after: PoolState, m: Utxos, tx: Transaction,
                                r: Result<AcceptedTx, MempoolError>) {
    var view := PoolView(m, before.order);
    var entry := EntryFor(view, tx, before.nextSeq);
    var gone := Victims(before.entries, before.order, RequestOf(limits, entry));
    match r
    case Ok(accepted) =>
      && Passes(before, m, tx)
      && !Exceeds(limits, Keep(before.order, gone), entry.size)
      && after.entries == (before.entries - gone)[Txid(tx) := entry]
      && after.order == Keep(before.order, gone) + [entry]
      && after.nextSeq == before.nextSeq + 1
      && accepted.txid == Txid(tx) && accepted.size == SerializedSize(tx)
      && accepted.fee + OutputSum(tx.outputs) == InputSum(view, tx.inputs)
    case Err(AtCapacity) =>
      && Passes(before, m, tx)
      && after == PoolState(before.entries - gone, Keep(before.order, gone), before.nextSeq)
      && Exceeds(limits, after.order, entry.size) && Outranked(after.entries, entry.feeRate)
    case Err(_) =>
      !Passes(before, m, tx) && after == before
  }

  lemma RejectedOutcome(limits: MempoolLimits, s: PoolState, m: Utxos, tx: Transaction, e: MempoolError)
    requires !Passes(s, m, tx) && e != AtCapacity
    ensures AcceptOutcome(limits, s, s, m, tx, Err(e))
  {
    hide Passes, PoolView, Victims;
  }

  lemma CandidateIs(m: Utxos, order: seq<MempoolEntry>, tx: Transaction, candidate: MempoolEntry)
    requires InputSum(PoolView(m, order), tx.inputs) >= OutputSum(tx.outputs)
    requires Structural(tx) && !IsCoinbase(tx) && InputsDiffer(tx)
    requires var fee := InputSum(PoolView(m, order), tx.inputs) - OutputSum(tx.outputs); var size := SerializedSize(tx);
      candidate.tx == tx && candidate.size == size && candidate.feeRate == if size > 0 then fee / size else 0
    ensures candidate == EntryFor(PoolView(m, order), tx, candidate.seqNo) && EntryOk(Txid(tx), candidate)
  {
    hide PoolView, Structural, InputsDiffer, Txid, SerializedSize, InputSum, OutputSum;
  }

  lemma RefusedOutcome(limits: MempoolLimits, before: PoolState, after: PoolState, m: Utxos, tx: Transaction,
                       candidate: MempoolEntry)
    requires Passes(before, m, tx) && candidate == EntryFor(PoolView(m, before.order), tx, before.nextSeq)
    requires var gone := Victims(before.entries, before.order, RequestOf(limits, candidate));
      after == PoolState(before.entries - gone, Keep(before.order, gone), before.nextSeq)
    requires Exceeds(limits, after.order, candidate.size) && Outranked(after.entries, candidate.feeRate)
    ensures AcceptOutcome(limits, before, after, m, tx, Err(AtCapacity))
  {
    hide Passes, PoolView, Victims, Outranked, EntryFor, Exceeds, Keep;
  }

  /** The transaction spends nothing that an entry spends. */
  ghost predicate NoConflict(entries: Entries, tx: Transaction) {
    forall id, o | Claims(entries, id, o) :: o !in OutPoints(tx.inputs)
  }

  lemma ConflictsBySpends(spends: Spends, entries: Entries, tx: Transaction)
    requires SpendsExact(spends, entries)
    ensures NoConflict(entries, tx) <==> OutPoints(tx.inputs) !! spends.Keys
  {
    hide OutPoints;
    if NoConflict(entries, tx) {
      forall o | o in spends
        ensures o !in OutPoints(tx.inputs)
      {
        assert Claims(entries, spends[o], o);
      }
    }
  }

  /** Removals make no conflict. */
  lemma StillFree(before: Entries, entries: Entries, tx: Transaction)
    requires NoConflict(before, tx) && entries.Keys <= before.Keys && forall id | id in entries :: entries[id] == before[id]
    ensures NoConflict(entries, tx)
  {
    hide OutPoints;
    forall id, o | Claims(entries, id, o)
      ensures o !in OutPoints(tx.inputs)
    {
      assert Claims(before, id, o);
    }
  }

  lemma AdmittedOutcome(limits: MempoolLimits, before: PoolState, cleared: PoolState, after: PoolState, m: Utxos,
                        tx: Transaction, candidate: MempoolEntry, fee: nat)
    requires Passes(before, m, tx) && candidate == EntryFor(PoolView(m, before.order), tx, before.nextSeq)
    requires var gone := Victims(before.entries, before.order, RequestOf(limits, candidate));
      cleared == PoolState(before.entries - gone, Keep(before.order, gone), before.nextSeq)
    requires !Exceeds(limits, cleared.order, candidate.size)
    requires after == PoolState(cleared.entries[Txid(tx) := candidate], cleared.order + [candidate], before.nextSeq + 1)
    requires fee + OutputSum(tx.outputs) == InputSum(PoolView(m, before.order), tx.inputs)
    ensures AcceptOutcome(limits, before, after, m, tx, Ok(AcceptedTx(Txid(tx), fee, SerializedSize(tx))))
  {
    hide Passes, PoolView, Victims, Txid, InputSum, OutputSum, SerializedSize, Exceeds, Keep;
  }

  lemma NobodyOutranks(rate: nat)
    ensures Outranked(map[], rate)
  {
  }

  lemma LowestOutranks(entries: Entries, low: Hash, rate: nat)
    requires Lowest(entries, low) && entries[low].feeRate > rate
    ensures Outranked(entries, rate)
  {
    hide Lowest;
  }

  lemma LowestSeq(entries: Entries, order: seq<MempoolEntry>, nextSeq: nat, low: Hash)
    requires Listed(entries, order, nextSeq) && Lowest(entries, low)
    ensures low in entries && entries[low].seqNo < nextSeq
  {
    hide ByAdmission, EntryOk, Id;
    ListedHasId(entries, order, nextSeq, low);
  }
}
