/** Conservation of value: what a valid chain leaves unspent, plus the fees it burnt, is what its
    coinbases created. */
module Value {
  import opened Types
  import opened Limits
  import opened Wire
  import opened Codec
  import opened Utxo
  import opened Merkle
  import opened Consensus

  // ---- the value of a set of outputs ----

  ghost function TotalValue(m: Utxos): nat {
    if m == map[] then 0 else
      var o :| o in m;
      m[o].value + TotalValue(m - {o})
  }

  lemma {:induction false} TotalWithout(m: Utxos, o: OutPoint)
    requires o in m
    ensures TotalValue(m) == m[o].value + TotalValue(m - {o})
    decreases |m|
  {
    var p :| p in m && TotalValue(m) == m[p].value + TotalValue(m - {p});
    if p != o {
      TotalWithout(m - {p}, o);
      TotalWithout(m - {o}, p);
      assert m - {p} - {o} == m - {o} - {p};
    }
  }

  lemma TotalWith(m: Utxos, o: OutPoint, entry: UtxoEntry)
    requires o !in m
    ensures TotalValue(m[o := entry]) == TotalValue(m) + entry.value
  {
    TotalWithout(m[o := entry], o);
    assert m[o := entry] - {o} == m;
  }

  // ---- one transaction ----

  lemma {:induction false} TotalSpent(m: Utxos, inputs: seq<TxInput>)
    requires Distinct(InputPoints(inputs)) && InputsPresent(m, inputs)
    ensures TotalValue(m - OutPoints(inputs)) + InputSum(m, inputs) == TotalValue(m)
    decreases |inputs|
  {
    if inputs == [] {
      assert m - OutPoints(inputs) == m;
    } else {
      var n := |inputs| - 1;
      var before, o := inputs[..n], OutPointOf(inputs[n]);
      assert InputPoints(before) == InputPoints(inputs)[..n];
      TotalSpent(m, before);
      assert inputs == before + [inputs[n]];
      assert OutPoints(inputs) == OutPoints(before) + {o};
      NotAmong(inputs, n);
      TotalWithout(m - OutPoints(before), o);
      assert m - OutPoints(before) - {o} == m - OutPoints(inputs);
    }
  }

  lemma NotAmong(inputs: seq<TxInput>, n: nat)
    requires n < |inputs| && Distinct(InputPoints(inputs))
    ensures OutPointOf(inputs[n]) !in OutPoints(inputs[..n])
  {
    var points := InputPoints(inputs);
    forall i | 0 <= i < n
      ensures OutPointOf(inputs[..n][i]) != OutPointOf(inputs[n])
    {
      assert points[i] != points[n];
    }
  }

  lemma CreatedPointIsNew(tx: Transaction, n: nat)
    requires n < |tx.outputs| <= 0x1_0000_0000
    ensures CreatedPoint(tx, n) in CreatedList(tx) && CreatedPoint(tx, n) !in CreatedList(tx)[..n]
  {
    hide Txid;
    assert CreatedList(tx)[n] == CreatedPoint(tx, n);
    assert forall i | 0 <= i < n :: CreatedList(tx)[i].index == i;
  }

  lemma {:induction false} TotalCreated(m: Utxos, tx: Transaction, n: nat)
    requires n <= |tx.outputs| <= 0x1_0000_0000
    requires forall o | o in CreatedList(tx) :: o !in m
    ensures TotalValue(AddOutputs(m, tx, n)) == TotalValue(m) + OutputSum(tx.outputs[..n])
  {
    hide Txid, CreatedPoint, CreatedList, TotalValue;
    if n == 0 {
      assert tx.outputs[..0] == [];
    } else {
      TotalCreated(m, tx, n - 1);
      AddOutputsKeys(m, tx, n - 1);
      CreatedPointIsNew(tx, n - 1);
      var o := CreatedPoint(tx, n - 1);
      TotalWith(AddOutputs(m, tx, n - 1), o, EntryOf(tx.outputs[n - 1]));
      OutputSumSnoc(tx.outputs, n);
    }
  }

  lemma OutputSumSnoc(outputs: seq<TxOutput>, n: nat)
    requires 0 < n <= |outputs|
    ensures OutputSum(outputs[..n]) == OutputSum(outputs[..n - 1]) + outputs[n - 1].value
  {
    assert outputs[..n][..n - 1] == outputs[..n - 1];
  }

  /** A fresh transaction with distinct present inputs moves its inputs' value to its outputs. */
  lemma TotalApplied(m: Utxos, tx: Transaction)
    requires Distinct(InputPoints(SpentInputs(tx))) && InputsPresent(m, SpentInputs(tx))
    requires Fresh(m, tx) && |tx.outputs| <= 0x1_0000_0000
    ensures TotalValue(ApplyTx(m, tx)) + InputSum(m, SpentInputs(tx)) == TotalValue(m) + OutputSum(tx.outputs)
  {
    hide IsCoinbase;
    TotalSpent(m, SpentInputs(tx));
    TotalCreated(m - Spent(tx), tx, |tx.outputs|);
    assert tx.outputs[..|tx.outputs|] == tx.outputs;
  }

  // ---- blocks and chains ----

  /** What the inputs of non-coinbase transactions exceed their outputs by. */
  function Fees(m: Utxos, txs: seq<Transaction>): int {
    if txs == [] then 0 else
      var before, tx := txs[..|txs| - 1], txs[|txs| - 1];
      Fees(m, before) + if IsCoinbase(tx) then 0 else InputSum(ApplyTxs(m, before), tx.inputs) - OutputSum(tx.outputs)
  }

  function Minted(txs: seq<Transaction>): nat {
    if txs == [] then 0 else
      Minted(txs[..|txs| - 1]) + if IsCoinbase(txs[|txs| - 1]) then OutputSum(txs[|txs| - 1].outputs) else 0
  }

  function ChainFees(bs: seq<Block>): int {
    if bs == [] then 0 else
      ChainFees(bs[..|bs| - 1]) + Fees(Replay(bs[..|bs| - 1]), bs[|bs| - 1].transactions)
  }

  function ChainMinted(bs: seq<Block>): nat {
    if bs == [] then 0 else ChainMinted(bs[..|bs| - 1]) + Minted(bs[|bs| - 1].transactions)
  }

  lemma DistinctParts<T>(a: seq<T>, b: seq<T>)
    requires Distinct(a + b)
    ensures Distinct(a) && Distinct(b)
  {
    assert forall i | 0 <= i < |a| :: a[i] == (a + b)[i];
    assert forall i | 0 <= i < |b| :: b[i] == (a + b)[|a| + i];
  }

  lemma SpendListSplit(txs: seq<Transaction>)
    requires txs != [] && Distinct(SpendList(txs))
    ensures Distinct(SpendList(txs[..|txs| - 1]))
    ensures Distinct(InputPoints(SpentInputs(txs[|txs| - 1])))
  {
    hide SpentInputs, Distinct, InputPoints;
    DistinctParts(SpendList(txs[..|txs| - 1]), InputPoints(SpentInputs(txs[|txs| - 1])));
  }

  lemma {:induction false} BlockConserves(m: Utxos, txs: seq<Transaction>)
    requires TxsValid(m, txs) && AllFresh(m, txs)
    requires forall tx | tx in txs :: |tx.outputs| <= 0x1_0000_0000
    ensures TotalValue(ApplyTxs(m, txs)) + Fees(m, txs) == TotalValue(m) + Minted(txs)
    ensures Fees(m, txs) >= 0
    decreases |txs|
  {
    hide Fresh, ApplyTx, ScriptsOk, InputSum, OutputSum, SpendList;
    if txs != [] {
      var n := |txs| - 1;
      var before, tx := txs[..n], txs[n];
      SpendListSplit(txs);
      forall i | 0 <= i < n
        ensures TxAccepted(ApplyTxs(m, before[..i]), before[i]) && Fresh(ApplyTxs(m, before[..i]), before[i])
      {
        assert before[..i] == txs[..i];
      }
      BlockConserves(m, before);
      var view := ApplyTxs(m, before);
      assert TxAccepted(view, tx) && Fresh(view, tx);
      InputSumOfNone(view);
      TotalApplied(view, tx);
    }
  }

  lemma InputSumOfNone(m: Utxos)
    ensures InputSum(m, []) == 0
  {
  }

  lemma OutputsFit(block: Block, tx: Transaction)
    requires WithinBlockLimits(block) && tx in block.transactions
    ensures |tx.outputs| < 0x1_0000_0000
  {
    hide InputSize, CompactSizeLength;
    OutputCountBelowSize(tx.outputs);
    SizeOfMember(block.transactions, tx);
  }

  lemma {:induction false} SizeOfMember(txs: seq<Transaction>, tx: Transaction)
    requires tx in txs
    ensures SerializedSize(tx) <= SumOver(SerializedSize, txs)
  {
    hide SerializedSize;
    if tx != txs[0] {
      SizeOfMember(txs[1..], tx);
    }
  }

  lemma BlockOfValidChain(bs: seq<Block>, n: nat)
    requires ValidChain(bs) && n < |bs|
    ensures TxsValid(Replay(bs[..n]), bs[n].transactions) && WithinBlockLimits(bs[n])
  {
    hide TxsValid, WithinBlockLimits, MeetsTarget, MerkleMatches, CoinbaseFirst, Replay;
    if n == 0 {
      assert bs[..0] == [];
      assert Replay([]) == map[] by { ReplayOfNone(); }
    }
  }

  lemma ReplayOfNone()
    ensures Replay([]) == map[]
  {
  }

  lemma FreshPrefix(bs: seq<Block>, n: nat)
    requires FreshChain(bs) && n <= |bs|
    ensures FreshChain(bs[..n])
  {
    hide AllFresh, Replay;
    forall i | 0 <= i < n
      ensures AllFresh(Replay(bs[..n][..i]), bs[..n][i].transactions)
    {
      assert bs[..n][..i] == bs[..i];
    }
  }

  /** Total unspent value plus all fees equals the sum of the coinbase outputs of the chain. */
  lemma {:induction false} ValueConserved(bs: seq<Block>)
    requires ValidChain(bs) && FreshChain(bs)
    ensures TotalValue(Replay(bs)) + ChainFees(bs) == ChainMinted(bs)
    ensures ChainFees(bs) >= 0
    decreases |bs|
  {
    hide *;
    ValidIsNotEmpty(bs);
    var n := |bs| - 1;
    ChainSums(bs);
    var before, txs := bs[..n], bs[n].transactions;
    BlockOfValidChain(bs, n);
    forall tx | tx in txs { OutputsFit(bs[n], tx); }
    if n > 0 {
      ValidChainPrefix(bs, n);
      FreshPrefix(bs, n);
      ValueConserved(before);
    } else {
      assert before == [];
      TotalOfNone();
    }
    FreshAt(bs, n);
    BlockConserves(Replay(before), txs);
  }

  lemma ValidIsNotEmpty(bs: seq<Block>)
    requires ValidChain(bs)
    ensures bs != []
  {
    hide MayFollow, ValidGenesis, Linked;
  }

  lemma TotalOfNone()
    ensures TotalValue(map[]) == 0 && Replay([]) == map[] && ChainFees([]) == 0 && ChainMinted([]) == 0
  {
  }

  lemma ChainSums(bs: seq<Block>)
    requires bs != []
    ensures var before, txs := bs[..|bs| - 1], bs[|bs| - 1].transactions;
      && Replay(bs) == ApplyTxs(Replay(before), txs)
      && ChainFees(bs) == ChainFees(before) + Fees(Replay(before), txs)
      && ChainMinted(bs) == ChainMinted(before) + Minted(txs)
  {
    hide ApplyTxs, Fees, Minted;
  }

  lemma FreshAt(bs: seq<Block>, n: nat)
    requires FreshChain(bs) && n < |bs|
    ensures AllFresh(Replay(bs[..n]), bs[n].transactions)
  {
    hide AllFresh, Replay;
  }
}
