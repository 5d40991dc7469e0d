/** The rules of a valid chain block by block and input by input, stated without the predicates that
    Consensus and Utxo make them of. */
module PlainRules {
  import opened Types
  import opened Limits
  import opened Wire
  import opened Codec
  import opened Utxo
  import opened Merkle
  import opened Pow
  import opened Difficulty
  import opened Consensus
  import Value
  import Script
  import Crypto

  // ---- the coinbase ----

  /** The null outpoint and nothing else. */
  predicate NamesNothing(inputs: seq<TxInput>) {
    |inputs| == 1 && inputs[0].previousOutput == ZERO_HASH && inputs[0].index == 0xffff_ffff
  }

  lemma {:induction false} CountAbove(txs: seq<Transaction>, n: nat)
    requires n <= |txs|
    ensures CoinbaseCount(txs[..n]) <= CoinbaseCount(txs)
    decreases |txs|
  {
    hide IsCoinbase;
    if n < |txs| {
      CountAbove(txs[..|txs| - 1], n);
      assert txs[..|txs| - 1][..n] == txs[..n];
    } else {
      assert txs[..n] == txs;
    }
  }

  lemma CountSnoc(txs: seq<Transaction>, n: nat)
    requires n < |txs|
    ensures CoinbaseCount(txs[..n + 1]) == CoinbaseCount(txs[..n]) + if IsCoinbase(txs[n]) then 1 else 0
  {
    hide IsCoinbase;
    assert txs[..n + 1][..n] == txs[..n];
  }

  lemma {:induction false} OnlyFirstCounts(txs: seq<Transaction>, n: nat)
    requires 0 < n <= |txs| && forall j | 0 <= j < n :: IsCoinbase(txs[j]) <==> j == 0
    ensures CoinbaseCount(txs[..n]) == 1
  {
    hide IsCoinbase, CoinbaseCount;
    CountSnoc(txs, n - 1);
    if n > 1 {
      OnlyFirstCounts(txs, n - 1);
    } else {
      NothingCounts(txs[..0]);
    }
  }

  lemma NothingCounts(txs: seq<Transaction>)
    requires txs == []
    ensures CoinbaseCount(txs) == 0
  {
  }

  lemma OtherIsNoCoinbase(txs: seq<Transaction>, j: nat)
    requires CoinbaseFirst(txs) && 0 < j < |txs|
    ensures !IsCoinbase(txs[j])
  {
    hide IsCoinbase, CoinbaseCount;
    if IsCoinbase(txs[j]) {
      CountSnoc(txs, 0);
      CountSnoc(txs, j);
      CountAbove(txs[..j], 1);
      assert txs[..j][..1] == txs[..1];
      CountAbove(txs, j + 1);
    }
  }

  /** The coinbase rule: the first transaction, and no other, has the null outpoint as its only input. */
  lemma CoinbasePlainly(txs: seq<Transaction>)
    ensures CoinbaseFirst(txs) <==>
      txs != [] && forall j | 0 <= j < |txs| :: NamesNothing(txs[j].inputs) <==> j == 0
  {
    hide CoinbaseCount;
    assert forall j | 0 <= j < |txs| :: IsCoinbase(txs[j]) <==> NamesNothing(txs[j].inputs);
    hide IsCoinbase;
    NothingCounts([]);
    assert txs[..|txs|] == txs;
    if CoinbaseFirst(txs) {
      forall j | 0 < j < |txs| { OtherIsNoCoinbase(txs, j); }
    } else if txs != [] && forall j | 0 <= j < |txs| :: IsCoinbase(txs[j]) <==> j == 0 {
      OnlyFirstCounts(txs, |txs|);
    }
  }

  // ---- inputs ----

  /** The k-th input of a transaction spends one of the outputs in m, whose script is empty or satisfied by the
      input's, with the signature hash over the scripts of all the outputs that the transaction spends. */
  ghost predicate Unlocks(m: Utxos, tx: Transaction, k: nat, scripts: seq<Bytes>) {
    && k < |tx.inputs| == |scripts|
    && (forall n | 0 <= n < |tx.inputs| :: LockedBy(m, tx.inputs[n], scripts[n]))
    && (scripts[k] == [] || Script.Verify(tx.inputs[k].scriptSig, scripts[k], Crypto.SighashAll(tx, k, scripts)).Ok?)
  }

  /** The input names an output in m that this script locks. */
  ghost predicate LockedBy(m: Utxos, input: TxInput, script: Bytes) {
    var o := OutPoint(input.previousOutput, input.index);
    o in m && m[o].scriptPubkey == script
  }

  lemma InputUnlocks(m: Utxos, tx: Transaction, k: nat) returns (scripts: seq<Bytes>)
    requires InputsPresent(m, tx.inputs) && ScriptsOk(m, tx) && k < |tx.inputs|
    ensures Unlocks(m, tx, k, scripts)
  {
    scripts := PrevScripts(m, tx.inputs);
    assert InputScriptOk(tx, scripts, k);
    forall n | 0 <= n < |tx.inputs|
      ensures LockedBy(m, tx.inputs[n], scripts[n])
    {
      assert tx.inputs[n] in tx.inputs;
    }
  }

  lemma AcceptedParts(m: Utxos, txs: seq<Transaction>, j: nat)
    requires TxsValid(m, txs) && CoinbaseFirst(txs) && 0 < j < |txs|
    ensures var view := ApplyTxs(m, txs[..j]);
      && InputsPresent(view, txs[j].inputs) && ScriptsOk(view, txs[j])
      && PaysForOutputs(view, txs[j])
  {
    hide CoinbaseFirst, IsCoinbase, SpendList, InputsPresent, ScriptsOk, InputSum, OutputSum;
    OtherIsNoCoinbase(txs, j);
    assert TxAccepted(ApplyTxs(m, txs[..j]), txs[j]);
  }

  lemma BlockParts(bs: seq<Block>, i: nat)
    requires ValidChain(bs) && i < |bs|
    ensures TxsValid(Replay(bs[..i]), bs[i].transactions) && Sealed(bs[i])
    ensures i > 0 ==> bs[i].header.prevBlockhash == BlockHash(bs[i - 1])
    ensures i > 0 ==> bs[i].header.time > MedianPast(bs[..i])
    ensures i > 0 ==> ExpectedBits(bs[..i], i, bs[i].header.bits) == Ok(bs[i].header.bits)
  {
    hide TxsValid, Sealed, Replay, BlockHash, MedianPast, ExpectedBits;
    Value.BlockOfValidChain(bs, i);
    if i > 0 {
      assert MayFollow(bs[..i], bs[i]);
    }
  }

  /** On a valid chain every input of every transaction after the coinbase spends an output that is unspent
      after the blocks and transactions before it, and satisfies the script that locks it. */
  lemma SpendsAreUnlocked(bs: seq<Block>, i: nat, j: nat, k: nat) returns (scripts: seq<Bytes>)
    requires i < |bs| && 0 < j < |bs[i].transactions| && k < |bs[i].transactions[j].inputs|
    requires ValidChain(bs)
    ensures Unlocks(ApplyTxs(Replay(bs[..i]), bs[i].transactions[..j]), bs[i].transactions[j], k, scripts)
  {
    hide *;
    BlockParts(bs, i);
    SealedParts(bs[i]);
    AcceptedParts(Replay(bs[..i]), bs[i].transactions, j);
    scripts := InputUnlocks(ApplyTxs(Replay(bs[..i]), bs[i].transactions[..j]), bs[i].transactions[j], k);
  }

  lemma SealedParts(block: Block)
    requires Sealed(block)
    ensures CoinbaseFirst(block.transactions) && WithinBlockLimits(block)
  {
    hide CoinbaseFirst, WithinBlockLimits, MeetsTarget, MerkleMatches, BlockWork;
  }

  /** The unlocking script of the k-th input leaves a public key of this hash on top of the stack, and below it a
      signature that the check accepts. */
  ghost predicate Signed(tx: Transaction, k: nat, scripts: seq<Bytes>, pubkeyHash: Hash20) {
    && k < |tx.inputs|
    && var sighash := Crypto.SighashAll(tx, k, scripts);
    && var left := Script.Run(tx.inputs[k].scriptSig, [], sighash);
    && left.Ok? && |left.value| >= 2
    && var signature, pubkey := left.value[|left.value| - 2], left.value[|left.value| - 1];
    && Crypto.Hash160(pubkey) == pubkeyHash && Crypto.VerifyDerSignature(signature, pubkey, sighash)
  }

  lemma UnlocksSigned(m: Utxos, tx: Transaction, k: nat, scripts: seq<Bytes>, pubkeyHash: Hash20)
    requires Unlocks(m, tx, k, scripts)
    requires LockedBy(m, tx.inputs[k], [0x76, 0xa9, 20] + pubkeyHash + [0x88, 0xac])
    ensures Signed(tx, k, scripts, pubkeyHash)
  {
    assert LockedBy(m, tx.inputs[k], scripts[k]);
    hide Script.Verify, Script.Run;
    Script.P2pkhUnlocks(tx.inputs[k].scriptSig, pubkeyHash, Crypto.SighashAll(tx, k, scripts));
  }

  /** On a valid chain nobody spends an output locked to the hash of a public key without that key and a
      signature for the spending input. */
  lemma SpendsAreSigned(bs: seq<Block>, i: nat, j: nat, k: nat, pubkeyHash: Hash20) returns (scripts: seq<Bytes>)
    requires i < |bs| && 0 < j < |bs[i].transactions| && k < |bs[i].transactions[j].inputs|
    requires LockedBy(ApplyTxs(Replay(bs[..i]), bs[i].transactions[..j]), bs[i].transactions[j].inputs[k],
                      [0x76, 0xa9, 20] + pubkeyHash + [0x88, 0xac])
    requires ValidChain(bs)
    ensures Unlocks(ApplyTxs(Replay(bs[..i]), bs[i].transactions[..j]), bs[i].transactions[j], k, scripts)
    ensures Signed(bs[i].transactions[j], k, scripts, pubkeyHash)
  {
    hide *;
    scripts := SpendsAreUnlocked(bs, i, j, k);
    UnlocksSigned(ApplyTxs(Replay(bs[..i]), bs[i].transactions[..j]), bs[i].transactions[j], k, scripts, pubkeyHash);
  }

  predicate PaysForOutputs(m: Utxos, tx: Transaction) {
    OutputSum(tx.outputs) <= InputSum(m, tx.inputs)
  }

  /** On a valid chain no transaction but a coinbase creates value. */
  lemma NoValueFromNothing(bs: seq<Block>, i: nat, j: nat)
    requires i < |bs| && 0 < j < |bs[i].transactions|
    requires ValidChain(bs)
    ensures PaysForOutputs(ApplyTxs(Replay(bs[..i]), bs[i].transactions[..j]), bs[i].transactions[j])
  {
    hide *;
    BlockParts(bs, i);
    SealedParts(bs[i]);
    AcceptedParts(Replay(bs[..i]), bs[i].transactions, j);
  }

  lemma SpendListStep(txs: seq<Transaction>, n: nat)
    requires n < |txs|
    ensures SpendList(txs[..n + 1]) == SpendList(txs[..n]) + InputPoints(SpentInputs(txs[n]))
  {
    hide IsCoinbase, InputPoints, SpentInputs;
    assert txs[..n + 1][..n] == txs[..n];
  }

  lemma {:induction false} SpendListGrows(txs: seq<Transaction>, i: nat, j: nat)
    requires i <= j <= |txs|
    ensures SpendList(txs[..i]) <= SpendList(txs[..j])
    decreases j
  {
    hide SpendList, InputPoints, SpentInputs;
    if i < j {
      SpendListStep(txs, j - 1);
      SpendListGrows(txs, i, j - 1);
    }
  }

  lemma SpendListHas(txs: seq<Transaction>, j: nat, k: nat) returns (p: nat)
    requires j < |txs| && !IsCoinbase(txs[j]) && k < |txs[j].inputs|
    ensures p == |SpendList(txs[..j])| + k < |SpendList(txs[..j + 1])| <= |SpendList(txs)|
    ensures SpendList(txs)[p] == OutPoint(txs[j].inputs[k].previousOutput, txs[j].inputs[k].index)
  {
    hide IsCoinbase, SpendList;
    SpendListStep(txs, j);
    SpendListGrows(txs, j + 1, |txs|);
    assert txs[..|txs|] == txs;
    p := |SpendList(txs[..j])| + k;
    assert InputPoints(txs[j].inputs)[k] == OutPointOf(txs[j].inputs[k]);
  }

  predicate NamesOther(a: TxInput, b: TxInput) {
    a.previousOutput != b.previousOutput || a.index != b.index
  }

  /** On a valid chain no two inputs of a block's other transactions name the same outpoint. */
  lemma NoDoubleSpend(bs: seq<Block>, i: nat, j: nat, k: nat, j': nat, k': nat)
    requires i < |bs| && 0 < j <= j' < |bs[i].transactions| && (j < j' || k < k')
    requires k < |bs[i].transactions[j].inputs| && k' < |bs[i].transactions[j'].inputs|
    requires ValidChain(bs)
    ensures NamesOther(bs[i].transactions[j].inputs[k], bs[i].transactions[j'].inputs[k'])
  {
    hide IsCoinbase, SpendList, AllAccepted, ValidChain, CoinbaseCount, Replay, WithinBlockLimits, MeetsTarget,
         MerkleMatches, BlockWork, BlockHash, MedianPast, ExpectedBits;
    var txs := bs[i].transactions;
    BlockParts(bs, i);
    OtherIsNoCoinbase(txs, j);
    OtherIsNoCoinbase(txs, j');
    var p := SpendListHas(txs, j, k);
    var p' := SpendListHas(txs, j', k');
    if j < j' {
      SpendListGrows(txs, j + 1, j');
    }
    assert p < p';
  }

  // ---- blocks ----

  /** A block that is within the limits, mined and committed to, and has one coinbase, the first transaction. */
  ghost predicate Fits(block: Block) {
    && |EncodeBlock(block)| <= 4_000_000 && 0 < |block.transactions| <= 25_000
    && (forall tx, input | tx in block.transactions && input in tx.inputs :: |input.scriptSig| <= 10_000)
    && (forall tx, output | tx in block.transactions && output in tx.outputs :: |output.scriptPubkey| <= 10_000)
    && TargetOf(block.header.bits).Some? && FromLe(BlockHash(block)) <= TargetOf(block.header.bits).value
    && Root(Txids(block.transactions)) == block.header.merkleRoot
    && forall j | 0 <= j < |block.transactions| :: NamesNothing(block.transactions[j].inputs) <==> j == 0
  }

  lemma SealedFits(block: Block)
    requires Sealed(block)
    ensures Fits(block)
  {
    hide TargetOf, BlockSize, EncodeBlock, Root, BlockHash, CoinbaseFirst, BlockWork, FromLe, Txids;
    BlockSizeIsExact(block);
    CoinbasePlainly(block.transactions);
  }

  /** Every block of a valid chain is such a block. */
  lemma BlocksFit(bs: seq<Block>, i: nat)
    requires i < |bs|
    requires ValidChain(bs)
    ensures Fits(bs[i])
  {
    hide *;
    BlockParts(bs, i);
    SealedFits(bs[i]);
  }

  /** These are the times of the last eleven blocks, or of all of them, newest first. */
  ghost predicate LastTimes(bs: seq<Block>, times: seq<u32>) {
    && |times| == (if |bs| < 11 then |bs| else 11)
    && forall k | 0 <= k < |times| :: times[k] == bs[|bs| - 1 - k].header.time
  }

  /** A block of a valid chain names its parent and is later than the median of the last times before it. */
  lemma BlocksFollow(bs: seq<Block>, i: nat) returns (times: seq<u32>)
    requires 0 < i < |bs|
    requires ValidChain(bs)
    ensures bs[i].header.prevBlockhash == BlockHash(bs[i - 1])
    ensures LastTimes(bs[..i], times) && bs[i].header.time > Median(times)
  {
    hide Sealed, TxsValid, Replay, ExpectedBits, ValidChain, BlockHash, Median, RecentTimes;
    BlockParts(bs, i);
    times := RecentTimes(bs[..i], MEDIAN_WINDOW);
    RecentTimesAre(bs[..i], MEDIAN_WINDOW);
  }

  /** The recent times: the last n blocks' or all of them, newest first. */
  lemma {:induction false} RecentTimesAre(bs: seq<Block>, n: nat)
    ensures var times := RecentTimes(bs, n);
      && |times| == (if |bs| < n then |bs| else n)
      && forall k | 0 <= k < |times| :: times[k] == bs[|bs| - 1 - k].header.time
    decreases n
  {
    if n > 0 && bs != [] {
      RecentTimesAre(bs[..|bs| - 1], n - 1);
    }
  }

  // ---- difficulty ----

  /** Within a period of 2016 blocks the bits stay. */
  lemma BitsStay(bs: seq<Block>, i: nat)
    requires 0 < i < |bs| && i % 2016 != 0
    requires ValidChain(bs)
    ensures bs[i].header.bits == bs[i - 1].header.bits
  {
    hide Sealed, TxsValid, Replay, ValidChain, BlockHash, MedianPast, AdjustedBits;
    BlockParts(bs, i);
  }

  /** The target of these bits is that of the ones before times the seconds between the two times over two
      weeks: at least a quarter, at most four times, at most the maximum, and rounded. */
  ghost predicate Retargeted(prevBits: u32, first: u32, last: u32, bits: u32) {
    hide TargetOf, Rounded, Pow256;
    && TargetOf(prevBits).Some?
    && var t, span := TargetOf(prevBits).value, if last < first then 0 else last - first;
    && var scaled := if span < 302_400 then t / 4 else if span <= 4_838_400 then t * span / 1_209_600 else 4 * t;
    && TargetOf(bits) == Some(Rounded(if scaled > 0xffff * Pow256(26) then 0xffff * Pow256(26) else scaled))
  }

  lemma AdjustedIsRetargeted(prevBits: u32, first: u32, last: u32, bits: u32)
    requires AdjustedBits(prevBits, if last < first then 0 else last - first) == Ok(bits)
    ensures Retargeted(prevBits, first, last, bits)
  {
    hide AdjustedBits, TargetOf, Rounded, Pow256;
    AdjustedTarget(prevBits, if last < first then 0 else last - first);
  }

  /** At the start of a period the bits are adjusted to the times of the first and the last block of the period
      before. */
  lemma BitsAdjust(bs: seq<Block>, i: nat)
    requires 2016 <= i < |bs| && i % 2016 == 0
    requires ValidChain(bs)
    ensures Retargeted(bs[i - 1].header.bits, bs[i - 2016].header.time, bs[i - 1].header.time, bs[i].header.bits)
  {
    hide Sealed, TxsValid, Replay, ValidChain, BlockHash, MedianPast, AdjustedBits, Retargeted;
    BlockParts(bs, i);
    AdjustedIsRetargeted(bs[i - 1].header.bits, bs[i - 2016].header.time, bs[i - 1].header.time, bs[i].header.bits);
  }

  /** What a branch beside the active chain is asked for: within a period the bits of the active tip, and at the
      start of one whose first block lies above the active chain the easiest bits. */
  lemma BitsAside(bs: seq<Block>, height: nat, bits: u32)
    requires bs != []
    ensures height % 2016 != 0 ==> ExpectedBits(bs, height, bits) == Ok(bs[|bs| - 1].header.bits)
    ensures height > 0 && height % 2016 == 0 && height - 2016 >= |bs| ==> ExpectedBits(bs, height, bits) == Ok(0x1d00_ffff)
  {
    hide AdjustedBits;
  }

  /** A period that ends later never makes the next one harder. */
  lemma LaterEndIsNotHarder(bs: seq<Block>, last: Block, bits: u32)
    requires bs != [] && |bs| % 2016 == 0
    requires last.header.bits == bs[|bs| - 1].header.bits && last.header.time >= bs[|bs| - 1].header.time
    ensures var later := bs[..|bs| - 1] + [last];
      var e, l := ExpectedBits(bs, |bs|, bits), ExpectedBits(later, |bs|, bits);
      e.Ok? && l.Ok? ==>
        TargetOf(e.value).Some? && TargetOf(l.value).Some? && TargetOf(e.value).value <= TargetOf(l.value).value
  {
    hide AdjustedBits, TargetOf;
    var n := |bs|;
    var first, time := bs[n - 2016].header.time, bs[n - 1].header.time;
    var early: u32 := if time < first then 0 else time - first;
    var late: u32 := if last.header.time < first then 0 else last.header.time - first;
    if AdjustedBits(last.header.bits, early).Ok? && AdjustedBits(last.header.bits, late).Ok? {
      AdjustmentMonotone(last.header.bits, early, late);
    }
  }
}
