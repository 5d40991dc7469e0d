/** The transaction pool as a list in admission order: what its transactions see when they are replayed on
    the chain's unspent outputs, and which removals keep them valid. */
module Pool {
  import opened Types
  import opened Limits
  import opened Codec
  import opened Utxo
  import opened Consensus
  import PlainRules
  import Script
  import Crypto

  datatype MempoolEntry = MempoolEntry(tx: Transaction, feeRate: nat, size: nat, seqNo: nat)

  function Id(entry: MempoolEntry): Hash {
    Txid(entry.tx)
  }

  // ---- validity ----

  predicate Structural(tx: Transaction) {
    && SerializedSize(tx) <= MAX_TRANSACTION_SERIALIZED_SIZE
    && tx.outputs != []
    && (IsCoinbase(tx) || tx.inputs != [])
    && ScriptsWithinLimits(tx)
  }

  ghost predicate InputsDiffer(tx: Transaction) {
    Distinct(InputPoints(tx.inputs))
  }

  /** The transaction may enter a pool over these unspent outputs. */
  ghost predicate ValidFor(m: Utxos, tx: Transaction) {
    Structural(tx) && !IsCoinbase(tx) && InputsDiffer(tx) && TxValid(m, tx) && ScriptsOk(m, tx)
  }

  lemma {:induction false} InputSumTransfers(a: Utxos, b: Utxos, inputs: seq<TxInput>)
    requires InputsPresent(a, inputs)
    requires forall input | input in inputs ::
      OutPointOf(input) in b && b[OutPointOf(input)] == a[OutPointOf(input)]
    ensures InputsPresent(b, inputs) && InputSum(a, inputs) == InputSum(b, inputs)
    ensures PrevScripts(a, inputs) == PrevScripts(b, inputs)
  {
    if inputs != [] {
      InputSumTransfers(a, b, inputs[..|inputs| - 1]);
    }
  }

  /** Validity depends on nothing but the outputs that are spent. */
  lemma ValidTransfers(a: Utxos, b: Utxos, tx: Transaction)
    requires ValidFor(a, tx)
    requires forall o | o in OutPoints(tx.inputs) && o in a :: o in b && b[o] == a[o]
    ensures ValidFor(b, tx)
  {
    hide Structural, InputsDiffer, InputSum, OutputSum, InputScriptOk;
    forall input | input in tx.inputs
      ensures OutPointOf(input) in b && b[OutPointOf(input)] == a[OutPointOf(input)]
    {
      assert OutPointOf(input) in OutPoints(tx.inputs);
    }
    InputSumTransfers(a, b, tx.inputs);
  }

  // ---- replay ----

  /** The unspent outputs after the pool's transactions, in admission order. */
  function PoolView(m: Utxos, pool: seq<MempoolEntry>): Utxos {
    if pool == [] then m else ApplyTx(PoolView(m, pool[..|pool| - 1]), pool[|pool| - 1].tx)
  }

  lemma PoolViewSnoc(m: Utxos, pool: seq<MempoolEntry>, entry: MempoolEntry)
    ensures PoolView(m, pool + [entry]) == ApplyTx(PoolView(m, pool), entry.tx)
  {
    hide ApplyTx;
    assert (pool + [entry])[..|pool|] == pool;
  }

  function TxsOf(pool: seq<MempoolEntry>): (txs: seq<Transaction>)
    ensures |txs| == |pool|
  {
    seq(|pool|, i requires 0 <= i < |pool| => pool[i].tx)
  }

  /** The view is what a block of the pool's transactions would leave. */
  lemma {:induction false} ViewIsReplay(m: Utxos, pool: seq<MempoolEntry>)
    ensures PoolView(m, pool) == ApplyTxs(m, TxsOf(pool))
  {
    hide ApplyTx;
    if pool != [] {
      var n := |pool| - 1;
      ViewIsReplay(m, pool[..n]);
      assert TxsOf(pool)[..n] == TxsOf(pool[..n]);
    }
  }

  /** Each transaction is valid on the chain's outputs and those of the entries admitted before it. */
  ghost predicate Replayable(m: Utxos, pool: seq<MempoolEntry>) {
    forall i | 0 <= i < |pool| :: ValidFor(PoolView(m, pool[..i]), pool[i].tx)
  }

  /** Every input of every entry of a replayable pool spends an output unspent on the chain and after the entries
      before it, and satisfies its script; and each entry pays for its outputs. */
  lemma EntriesAreUnlocked(m: Utxos, pool: seq<MempoolEntry>, i: nat, k: nat) returns (scripts: seq<Bytes>)
    requires i < |pool| && k < |pool[i].tx.inputs|
    requires Replayable(m, pool)
    ensures PlainRules.Unlocks(PoolView(m, pool[..i]), pool[i].tx, k, scripts)
    ensures PlainRules.PaysForOutputs(PoolView(m, pool[..i]), pool[i].tx)
  {
    hide PoolView, ValidFor, PlainRules.Unlocks, PlainRules.PaysForOutputs;
    assert ValidFor(PoolView(m, pool[..i]), pool[i].tx);
    scripts := ValidIsUnlocked(PoolView(m, pool[..i]), pool[i].tx, k);
  }

  /** What a pool admits at all: at most four million bytes, some input and some output, scripts of at most ten
      thousand bytes, no coinbase, and no outpoint named twice. */
  lemma ValidPlainly(m: Utxos, tx: Transaction)
    requires ValidFor(m, tx)
    ensures |EncodeTransaction(tx)| <= 4_000_000 && tx.inputs != [] && tx.outputs != []
    ensures forall input | input in tx.inputs :: |input.scriptSig| <= 10_000
    ensures forall output | output in tx.outputs :: |output.scriptPubkey| <= 10_000
    ensures !PlainRules.NamesNothing(tx.inputs)
    ensures forall i, j | 0 <= i < j < |tx.inputs| :: PlainRules.NamesOther(tx.inputs[i], tx.inputs[j])
  {
    hide EncodeTransaction, TxValid, ScriptsOk, SerializedSize;
    SerializedSizeIsExact(tx);
    var points := InputPoints(tx.inputs);
    forall i, j | 0 <= i < j < |tx.inputs|
      ensures PlainRules.NamesOther(tx.inputs[i], tx.inputs[j])
    {
      assert points[i] != points[j];
    }
  }

  lemma ValidIsUnlocked(m: Utxos, tx: Transaction, k: nat) returns (scripts: seq<Bytes>)
    requires ValidFor(m, tx) && k < |tx.inputs|
    ensures PlainRules.Unlocks(m, tx, k, scripts) && PlainRules.PaysForOutputs(m, tx)
  {
    hide Structural, InputsDiffer, ScriptsOk, InputSum, OutputSum, InputsPresent, PlainRules.Unlocks, IsCoinbase;
    scripts := PlainRules.InputUnlocks(m, tx, k);
  }

  lemma ReplayableSnoc(m: Utxos, pool: seq<MempoolEntry>, entry: MempoolEntry)
    ensures Replayable(m, pool + [entry]) <==> Replayable(m, pool) && ValidFor(PoolView(m, pool), entry.tx)
  {
    hide ValidFor, PoolView;
    var longer := pool + [entry];
    assert longer[..|pool|] == pool && longer[|pool|] == entry;
    assert forall i | 0 <= i < |pool| :: longer[..i] == pool[..i] && longer[i] == pool[i];
    if Replayable(m, longer) {
      forall i | 0 <= i < |pool|
        ensures ValidFor(PoolView(m, pool[..i]), pool[i].tx)
      {
        assert ValidFor(PoolView(m, longer[..i]), longer[i].tx);
      }
      assert ValidFor(PoolView(m, longer[..|pool|]), longer[|pool|].tx);
    }
  }

  // ---- removal ----

  /** The entries that are not removed, in their order. */
  function Keep(pool: seq<MempoolEntry>, gone: set<Hash>): seq<MempoolEntry> {
    if pool == [] then []
    else
      var n := |pool| - 1;
      if Id(pool[n]) in gone then Keep(pool[..n], gone) else Keep(pool[..n], gone) + [pool[n]]
  }

  lemma KeepSnoc(pool: seq<MempoolEntry>, entry: MempoolEntry, gone: set<Hash>)
    ensures Keep(pool + [entry], gone) == if Id(entry) in gone then Keep(pool, gone) else Keep(pool, gone) + [entry]
  {
    hide Id;
    assert (pool + [entry])[..|pool|] == pool;
  }

  lemma {:induction false} KeepContents(pool: seq<MempoolEntry>, gone: set<Hash>)
    ensures forall e :: e in Keep(pool, gone) <==> e in pool && Id(e) !in gone
    ensures |Keep(pool, gone)| <= |pool|
  {
    hide Id;
    if pool != [] {
      KeepContents(pool[..|pool| - 1], gone);
      assert forall e :: e in pool <==> e in pool[..|pool| - 1] || e == pool[|pool| - 1];
    }
  }

  lemma {:induction false} KeepTwice(pool: seq<MempoolEntry>, a: set<Hash>, b: set<Hash>)
    ensures Keep(Keep(pool, a), b) == Keep(pool, a + b)
  {
    hide Id;
    if pool != [] {
      var n := |pool| - 1;
      KeepTwice(pool[..n], a, b);
      if Id(pool[n]) !in a {
        KeepSnoc(Keep(pool[..n], a), pool[n], b);
      }
    }
  }

  lemma {:induction false} KeepAll(pool: seq<MempoolEntry>, gone: set<Hash>)
    requires forall e | e in pool :: Id(e) !in gone
    ensures Keep(pool, gone) == pool
  {
    hide Id;
    if pool != [] {
      var n := |pool| - 1;
      assert pool[n] in pool;
      KeepAll(pool[..n], gone);
      assert pool == pool[..n] + [pool[n]];
    }
  }

  /** b has what a has, except outputs of transactions that are gone and outputs that were spent. */
  ghost predicate Covers(a: Utxos, b: Utxos, gone: set<Hash>, spent: set<OutPoint>) {
    forall o | o in a && o.txid !in gone && o !in spent :: o in b && b[o] == a[o]
  }

  /** What leans on something gone or spent is gone. */
  ghost predicate Closed(pool: seq<MempoolEntry>, gone: set<Hash>, spent: set<OutPoint>) {
    forall e, o | e in pool && o in OutPoints(e.tx.inputs) && (o.txid in gone || o in spent) :: Id(e) in gone
  }

  lemma {:induction false} AddOutputsSame(a: Utxos, b: Utxos, tx: Transaction, n: nat, o: OutPoint)
    requires n <= |tx.outputs| && o in CreatedList(tx)[..n]
    ensures o in AddOutputs(a, tx, n) && o in AddOutputs(b, tx, n)
    ensures AddOutputs(a, tx, n)[o] == AddOutputs(b, tx, n)[o]
  {
    hide Txid;
    assert CreatedList(tx)[..n] == CreatedList(tx)[..n - 1] + [CreatedPoint(tx, n - 1)];
    if o != CreatedPoint(tx, n - 1) {
      AddOutputsSame(a, b, tx, n - 1, o);
    }
  }

  lemma CreatedHasId(tx: Transaction)
    ensures forall o | o in Created(tx) :: o.txid == Txid(tx)
  {
    hide Txid;
  }

  lemma CoversKept(a: Utxos, b: Utxos, gone: set<Hash>, spent: set<OutPoint>, tx: Transaction)
    requires Covers(a, b, gone, spent)
    ensures Covers(ApplyTx(a, tx), ApplyTx(b, tx), gone, spent)
  {
    hide Txid, IsCoinbase, AddOutputs;
    ApplyTxKeys(a, tx);
    ApplyTxKeys(b, tx);
    forall o | o in ApplyTx(a, tx) && o.txid !in gone && o !in spent
      ensures o in ApplyTx(b, tx) && ApplyTx(b, tx)[o] == ApplyTx(a, tx)[o]
    {
      if o in Created(tx) {
        assert CreatedList(tx)[..|tx.outputs|] == CreatedList(tx);
        AddOutputsSame(a - Spent(tx), b - Spent(tx), tx, |tx.outputs|, o);
      }
    }
  }

  lemma CoversGone(a: Utxos, b: Utxos, gone: set<Hash>, spent: set<OutPoint>, tx: Transaction)
    requires Covers(a, b, gone, spent) && Txid(tx) in gone
    ensures Covers(ApplyTx(a, tx), b, gone, spent)
  {
    hide Txid, IsCoinbase, ApplyTx;
    ApplyTxKeys(a, tx);
    CreatedHasId(tx);
  }

  lemma {:induction false} KeepCovers(a: Utxos, b: Utxos, pool: seq<MempoolEntry>, gone: set<Hash>, spent: set<OutPoint>)
    requires Covers(a, b, gone, spent)
    ensures Covers(PoolView(a, pool), PoolView(b, Keep(pool, gone)), gone, spent)
  {
    hide Covers, ApplyTx;
    if pool != [] {
      var n := |pool| - 1;
      KeepCovers(a, b, pool[..n], gone, spent);
      if Id(pool[n]) in gone {
        CoversGone(PoolView(a, pool[..n]), PoolView(b, Keep(pool[..n], gone)), gone, spent, pool[n].tx);
      } else {
        CoversKept(PoolView(a, pool[..n]), PoolView(b, Keep(pool[..n], gone)), gone, spent, pool[n].tx);
        PoolViewSnoc(b, Keep(pool[..n], gone), pool[n]);
      }
    }
  }

  lemma CoveredIsValid(a: Utxos, b: Utxos, tx: Transaction, gone: set<Hash>, spent: set<OutPoint>)
    requires ValidFor(a, tx) && Covers(a, b, gone, spent)
    requires forall o | o in OutPoints(tx.inputs) :: o.txid !in gone && o !in spent
    ensures ValidFor(b, tx)
  {
    hide ValidFor;
    ValidTransfers(a, b, tx);
  }

  /** Removing everything that leans on what is gone or spent keeps the rest replayable on what is left. */
  lemma {:induction false} KeepReplayable(a: Utxos, b: Utxos, pool: seq<MempoolEntry>, gone: set<Hash>,
                                          spent: set<OutPoint>)
    requires Replayable(a, pool) && Covers(a, b, gone, spent) && Closed(pool, gone, spent)
    ensures Replayable(b, Keep(pool, gone))
  {
    hide Covers, ValidFor, PoolView, Replayable, Id;
    if pool == [] {
      NothingReplayable(b);
    } else {
      var n := |pool| - 1;
      var before, last := pool[..n], pool[n];
      assert pool == before + [last];
      ReplayableSnoc(a, before, last);
      KeepReplayable(a, b, before, gone, spent);
      if Id(last) !in gone {
        KeepCovers(a, b, before, gone, spent);
        CoveredIsValid(PoolView(a, before), PoolView(b, Keep(before, gone)), last.tx, gone, spent);
        ReplayableSnoc(b, Keep(before, gone), last);
      }
    }
  }

  lemma NothingReplayable(m: Utxos)
    ensures Replayable(m, [])
  {
  }

  lemma CoversItself(m: Utxos, gone: set<Hash>)
    ensures Covers(m, m, gone, {})
  {
  }

  /** Removing entries with everything that descends from them keeps the pool replayable. */
  lemma RemovalKeepsReplayable(m: Utxos, pool: seq<MempoolEntry>, gone: set<Hash>)
    requires Replayable(m, pool) && Closed(pool, gone, {})
    ensures Replayable(m, Keep(pool, gone))
  {
    CoversItself(m, gone);
    KeepReplayable(m, m, pool, gone, {});
  }

  // ---- greedy replay ----

  /** Replays the pool and keeps each entry that is valid after the ones kept before it. */
  ghost function Greedy(m: Utxos, pool: seq<MempoolEntry>): seq<MempoolEntry> {
    if pool == [] then []
    else
      var n := |pool| - 1;
      var kept := Greedy(m, pool[..n]);
      if ValidFor(PoolView(m, kept), pool[n].tx) then kept + [pool[n]] else kept
  }

  lemma {:induction false} GreedyGrows(m: Utxos, pool: seq<MempoolEntry>, n: nat, e: MempoolEntry)
    requires n <= |pool| && e in Greedy(m, pool[..n])
    ensures e in Greedy(m, pool)
    decreases |pool|
  {
    hide ValidFor, PoolView;
    if n < |pool| {
      assert pool[..|pool| - 1][..n] == pool[..n];
      GreedyGrows(m, pool[..|pool| - 1], n, e);
    } else {
      assert pool[..n] == pool;
    }
  }

  /** An entry that the greedy replay drops is not valid after those it kept before it. */
  lemma DroppedIsInvalid(m: Utxos, pool: seq<MempoolEntry>, i: nat)
    requires i < |pool| && pool[i] !in Greedy(m, pool)
    ensures !ValidFor(PoolView(m, Greedy(m, pool[..i])), pool[i].tx)
  {
    hide ValidFor, PoolView;
    if ValidFor(PoolView(m, Greedy(m, pool[..i])), pool[i].tx) {
      assert pool[..i + 1][..i] == pool[..i];
      GreedyGrows(m, pool, i + 1, pool[i]);
    }
  }

  /** What the greedy replay leaves is replayable, and it leaves a replayable pool as it is. */
  lemma {:induction false} GreedyReplayable(m: Utxos, pool: seq<MempoolEntry>)
    ensures Replayable(m, Greedy(m, pool))
    ensures Greedy(m, pool) == pool <==> Replayable(m, pool)
    ensures |Greedy(m, pool)| <= |pool|
  {
    hide ValidFor, PoolView, Replayable;
    if pool == [] {
      NothingReplayable(m);
    } else {
      var n := |pool| - 1;
      var before, last := pool[..n], pool[n];
      assert pool == before + [last];
      GreedyReplayable(m, before);
      ReplayableSnoc(m, Greedy(m, before), last);
      ReplayableSnoc(m, before, last);
      if Greedy(m, pool) == pool {
        assert |Greedy(m, before)| <= n;
        assert Greedy(m, pool)[..n] == before;
      }
    }
  }

  // ---- a block joins the chain ----

  function BlockIds(txs: seq<Transaction>): set<Hash> {
    set tx | tx in txs :: Txid(tx)
  }

  function BlockSpends(txs: seq<Transaction>): set<OutPoint> {
    set tx, o | tx in txs && o in Spent(tx) :: o
  }

  /** A block takes away only what it spends and adds only outputs of its own transactions. */
  lemma {:induction false} BlockCovers(m: Utxos, txs: seq<Transaction>, gone: set<Hash>, spent: set<OutPoint>)
    requires forall tx | tx in txs :: Txid(tx) in gone && Spent(tx) <= spent
    ensures Covers(m, ApplyTxs(m, txs), gone, spent)
  {
    hide ApplyTx, Txid, IsCoinbase;
    if txs != [] {
      var n := |txs| - 1;
      var before := txs[..n];
      assert txs[n] in txs && forall tx | tx in before :: tx in txs;
      BlockCovers(m, before, gone, spent);
      BlockStepCovers(m, ApplyTxs(m, before), txs[n], gone, spent);
    }
  }

  lemma BlockStepCovers(a: Utxos, b: Utxos, tx: Transaction, gone: set<Hash>, spent: set<OutPoint>)
    requires Covers(a, b, gone, spent) && Txid(tx) in gone && Spent(tx) <= spent
    ensures Covers(a, ApplyTx(b, tx), gone, spent)
  {
    hide ApplyTx, Txid, IsCoinbase, OutPoints, CreatedList;
    ApplyTxKeys(b, tx);
    CreatedHasId(tx);
  }

  /** Connecting a block never makes invalid what is left after removing its transactions, what conflicts
      with them, and what descends from either: the remaining pool replays on the new unspent outputs. */
  lemma ConnectKeepsReplayable(m: Utxos, pool: seq<MempoolEntry>, txs: seq<Transaction>, gone: set<Hash>)
    requires Replayable(m, pool) && BlockIds(txs) <= gone && Closed(pool, gone, BlockSpends(txs))
    ensures Replayable(ApplyTxs(m, txs), Keep(pool, gone))
  {
    hide Txid, Replayable, Covers, ApplyTxs, Closed;
    BlockCovers(m, txs, gone, BlockSpends(txs));
    KeepReplayable(m, ApplyTxs(m, txs), pool, gone, BlockSpends(txs));
  }

  // ---- a lost parent ----

  lemma {:induction false} ViewOrigins(m: Utxos, pool: seq<MempoolEntry>, o: OutPoint)
    requires o in PoolView(m, pool)
    ensures o in m || exists e | e in pool :: Id(e) == o.txid
  {
    hide ApplyTx, Txid;
    if pool != [] {
      var n := |pool| - 1;
      ApplyTxKeys(PoolView(m, pool[..n]), pool[n].tx);
      CreatedHasId(pool[n].tx);
      assert pool[n] in pool && forall e | e in pool[..n] :: e in pool;
      if o in Created(pool[n].tx) {
        assert Id(pool[n]) == o.txid;
      } else {
        ViewOrigins(m, pool[..n], o);
      }
    }
  }

  /** A transaction that is valid after the pool stays valid after a removal with all descendants if and only
      if none of its parents is removed, provided no removed transaction has outputs on the chain. */
  lemma NewcomerSurvivesIff(m: Utxos, pool: seq<MempoolEntry>, gone: set<Hash>, tx: Transaction)
    requires ValidFor(PoolView(m, pool), tx)
    requires forall o | o in m :: o.txid !in gone
    ensures ValidFor(PoolView(m, Keep(pool, gone)), tx) <==> forall o | o in OutPoints(tx.inputs) :: o.txid !in gone
  {
    hide PoolView, Structural, InputsDiffer, ScriptsOk, Id, InputSum, OutputSum;
    CoversItself(m, gone);
    KeepCovers(m, m, pool, gone, {});
    if forall o | o in OutPoints(tx.inputs) :: o.txid !in gone {
      CoveredIsValid(PoolView(m, pool), PoolView(m, Keep(pool, gone)), tx, gone, {});
    } else {
      var o :| o in OutPoints(tx.inputs) && o.txid in gone;
      KeepContents(pool, gone);
      if o in PoolView(m, Keep(pool, gone)) {
        ViewOrigins(m, Keep(pool, gone), o);
        assert false;
      }
    }
  }
}
