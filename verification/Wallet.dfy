/** The wallet's view of the chain: the outputs it can spend, kept up to date by replaying chain events. */
module Wallet {
  import opened Types
  import opened Codec
  import opened Utxo
  import opened Consensus
  import opened BlockTree
  import opened ChainRules
  import opened ChainSteps
  import opened Journals
  import Chain
  import Script
  import Value

  datatype WalletUtxo = WalletUtxo(outpoint: OutPoint, value: u64, scriptPubkey: Bytes)

  type Coins = map<OutPoint, WalletUtxo>

  datatype WalletUndo = WalletUndo(created: seq<OutPoint>, removed: seq<WalletUtxo>)

  datatype WalletError = MissingActiveBlock(height: nat)

  /** The hash a P2PKH locking script commits to. */
  function P2pkhPubkeyHash(script: Bytes): Option<Hash20> {
    if |script| != 25 || script[0] != 0x76 || script[1] != 0xa9 || script[2] != 20 || script[23] != 0x88
       || script[24] != 0xac
    then None
    else Some(script[3..23])
  }

  /** The recogniser accepts exactly the scripts that the P2PKH template builds. */
  lemma RecognisesTemplate(script: Bytes, pubkeyHash: Hash20)
    ensures P2pkhPubkeyHash(script) == Some(pubkeyHash) <==> script == Script.P2pkhScriptPubkey(pubkeyHash)
  {
    var template := Script.P2pkhScriptPubkey(pubkeyHash);
    assert |template| == 25 && template[3..23] == pubkeyHash;
    if P2pkhPubkeyHash(script) == Some(pubkeyHash) {
      assert script == script[..3] + script[3..23] + script[23..];
      assert script[..3] == template[..3] && script[23..] == template[23..];
      assert template == template[..3] + template[3..23] + template[23..];
    }
  }

  predicate Watches(watched: set<Hash20>, script: Bytes) {
    var pubkeyHash := P2pkhPubkeyHash(script);
    pubkeyHash.Some? && pubkeyHash.value in watched
  }

  /** The unspent outputs locked by a watched P2PKH script. */
  function View(m: Utxos, watched: set<Hash20>): Coins {
    map o | o in m && Watches(watched, m[o].scriptPubkey) :: WalletUtxo(o, m[o].value, m[o].scriptPubkey)
  }

  /** A coin is an unspent output whose script is the P2PKH template, byte for byte, over a watched hash. */
  lemma CoinsPlainly(m: Utxos, watched: set<Hash20>, o: OutPoint)
    ensures o in View(m, watched) <==>
      o in m && exists h | h in watched :: m[o].scriptPubkey == [0x76, 0xa9, 20] + h + [0x88, 0xac]
    ensures o in View(m, watched) ==> View(m, watched)[o] == WalletUtxo(o, m[o].value, m[o].scriptPubkey)
  {
    hide P2pkhPubkeyHash;
    if o in m {
      var script := m[o].scriptPubkey;
      forall h: Hash20
        ensures P2pkhPubkeyHash(script) == Some(h) <==> script == [0x76, 0xa9, 20] + h + [0x88, 0xac]
      {
        RecognisesTemplate(script, h);
      }
    }
  }

  // ---- what a block does to the coins ----

  /** Coins while a block is scanned, and how to go back. */
  datatype Scan = Scan(coins: Coins, undo: WalletUndo)

  function Debit(s: Scan, o: OutPoint): Scan {
    if o in s.coins then Scan(s.coins - {o}, s.undo.(removed := s.undo.removed + [s.coins[o]])) else s
  }

  function DebitInputs(s: Scan, inputs: seq<TxInput>): Scan {
    if inputs == [] then s else Debit(DebitInputs(s, inputs[..|inputs| - 1]), OutPointOf(inputs[|inputs| - 1]))
  }

  function Credit(s: Scan, watched: set<Hash20>, o: OutPoint, output: TxOutput): Scan {
    if !Watches(watched, output.scriptPubkey) then s
    else Scan(s.coins[o := WalletUtxo(o, output.value, output.scriptPubkey)], s.undo.(created := s.undo.created + [o]))
  }

  function CreditOutputs(s: Scan, watched: set<Hash20>, tx: Transaction, n: nat): Scan
    requires n <= |tx.outputs|
  {
    if n == 0 then s
    else Credit(CreditOutputs(s, watched, tx, n - 1), watched, CreatedPoint(tx, n - 1), tx.outputs[n - 1])
  }

  function ScanTx(s: Scan, watched: set<Hash20>, tx: Transaction): Scan {
    CreditOutputs(DebitInputs(s, tx.inputs), watched, tx, |tx.outputs|)
  }

  function ScanTxs(s: Scan, watched: set<Hash20>, txs: seq<Transaction>): Scan {
    if txs == [] then s else ScanTx(ScanTxs(s, watched, txs[..|txs| - 1]), watched, txs[|txs| - 1])
  }

  function ScanStart(coins: Coins): Scan {
    Scan(coins, WalletUndo([], []))
  }

  function ScanBlock(coins: Coins, watched: set<Hash20>, txs: seq<Transaction>): Scan {
    ScanTxs(ScanStart(coins), watched, txs)
  }

  function Reinsert(coins: Coins, removed: seq<WalletUtxo>): Coins {
    if removed == [] then coins
    else Reinsert(coins, removed[..|removed| - 1])[removed[|removed| - 1].outpoint := removed[|removed| - 1]]
  }

  function RevertCoins(coins: Coins, undo: WalletUndo): Coins {
    Reinsert(coins - (set o | o in undo.created), undo.removed)
  }

  // ---- the coins follow the unspent outputs ----

  lemma {:induction false} DebitedView(s: Scan, m: Utxos, watched: set<Hash20>, inputs: seq<TxInput>)
    requires s.coins == View(m, watched)
    ensures DebitInputs(s, inputs).coins == View(m - OutPoints(inputs), watched)
  {
    hide Watches;
    if inputs != [] {
      var n := |inputs| - 1;
      DebitedView(s, m, watched, inputs[..n]);
      assert inputs == inputs[..n] + [inputs[n]];
      assert OutPoints(inputs) == OutPoints(inputs[..n]) + {OutPointOf(inputs[n])};
    }
  }

  lemma CreditView(s: Scan, m: Utxos, watched: set<Hash20>, o: OutPoint, output: TxOutput)
    requires s.coins == View(m, watched) && o !in m
    ensures Credit(s, watched, o, output).coins == View(m[o := EntryOf(output)], watched)
  {
    hide Watches;
  }

  lemma {:induction false} CreditedView(s: Scan, m: Utxos, watched: set<Hash20>, tx: Transaction, n: nat)
    requires s.coins == View(m, watched) && n <= |tx.outputs| <= 0x1_0000_0000
    requires forall o | o in CreatedList(tx) :: o !in m
    ensures CreditOutputs(s, watched, tx, n).coins == View(AddOutputs(m, tx, n), watched)
  {
    hide Watches, View, Credit, CreatedPoint, CreatedList;
    if n > 0 {
      CreditedView(s, m, watched, tx, n - 1);
      Value.CreatedPointIsNew(tx, n - 1);
      AddOutputsKeys(m, tx, n - 1);
      CreditView(CreditOutputs(s, watched, tx, n - 1), AddOutputs(m, tx, n - 1), watched, CreatedPoint(tx, n - 1),
                 tx.outputs[n - 1]);
    }
  }

  const NULL_POINT: OutPoint := OutPoint(ZERO_HASH, U32_MAX)

  /** Scanning one transaction keeps the coins the watched part of the unspent outputs. */
  lemma ScanTxView(s: Scan, m: Utxos, watched: set<Hash20>, tx: Transaction)
    requires s.coins == View(m, watched) && Fresh(m, tx) && |tx.outputs| <= 0x1_0000_0000 && NULL_POINT !in m
    ensures ScanTx(s, watched, tx).coins == View(ApplyTx(m, tx), watched)
  {
    hide View, CreditOutputs, DebitInputs, AddOutputs, CreatedList;
    DebitedView(s, m, watched, tx.inputs);
    if IsCoinbase(tx) {
      assert forall o | o in OutPoints(tx.inputs) :: o == NULL_POINT;
      assert m - OutPoints(tx.inputs) == m - Spent(tx);
    }
    CreditedView(DebitInputs(s, tx.inputs), m - Spent(tx), watched, tx, |tx.outputs|);
  }

  lemma NullNotCreated(m: Utxos, tx: Transaction)
    requires NULL_POINT !in m && |tx.outputs| < 0x1_0000_0000
    ensures NULL_POINT !in ApplyTx(m, tx)
  {
    hide Txid;
    ApplyTxKeys(m, tx);
    assert forall i | 0 <= i < |tx.outputs| :: CreatedList(tx)[i].index < U32_MAX;
  }

  ghost predicate OutputsFew(txs: seq<Transaction>) {
    forall i | 0 <= i < |txs| :: |txs[i].outputs| < 0x1_0000_0000
  }

  lemma {:induction false} ScanTxsView(s: Scan, m: Utxos, watched: set<Hash20>, txs: seq<Transaction>)
    requires s.coins == View(m, watched) && AllFresh(m, txs) && OutputsFew(txs) && NULL_POINT !in m
    ensures ScanTxs(s, watched, txs).coins == View(ApplyTxs(m, txs), watched)
    ensures NULL_POINT !in ApplyTxs(m, txs)
    decreases |txs|
  {
    hide View, ScanTx, ApplyTx, Fresh;
    if txs != [] {
      var n := |txs| - 1;
      var before := txs[..n];
      forall i | 0 <= i < |before|
        ensures Fresh(ApplyTxs(m, before[..i]), before[i])
      {
        assert before[..i] == txs[..i];
      }
      ScanTxsView(s, m, watched, before);
      ScanTxView(ScanTxs(s, watched, before), ApplyTxs(m, before), watched, txs[n]);
      NullNotCreated(ApplyTxs(m, before), txs[n]);
    }
  }

  // ---- undoing a block ----

  /** The outpoints of the first n outputs of a transaction that the wallet watches. */
  function CreditPoints(watched: set<Hash20>, tx: Transaction, n: nat): set<OutPoint>
    requires n <= |tx.outputs|
  {
    if n == 0 then {}
    else CreditPoints(watched, tx, n - 1)
         + if Watches(watched, tx.outputs[n - 1].scriptPubkey) then {CreatedPoint(tx, n - 1)} else {}
  }

  function TxCredits(watched: set<Hash20>, tx: Transaction): set<OutPoint> {
    CreditPoints(watched, tx, |tx.outputs|)
  }

  function AllCredits(watched: set<Hash20>, txs: seq<Transaction>): set<OutPoint> {
    if txs == [] then {} else AllCredits(watched, txs[..|txs| - 1]) + TxCredits(watched, txs[|txs| - 1])
  }

  /** No transaction of the list spends a watched output that an earlier one created. */
  predicate NoSelfSpend(watched: set<Hash20>, txs: seq<Transaction>) {
    forall j | 0 <= j < |txs| :: AllCredits(watched, txs[..j]) !! OutPoints(txs[j].inputs)
  }

  function RemovedPoints(undo: WalletUndo): set<OutPoint> {
    set c | c in undo.removed :: c.outpoint
  }

  function CreatedPoints(undo: WalletUndo): set<OutPoint> {
    set o | o in undo.created
  }

  /** Coins that differ from the ones at the start only by what the undo data records, which took
      nothing away that was not there at the start. */
  ghost predicate Balanced(start: Coins, s: Scan) {
    && (forall c | c in s.undo.removed :: c.outpoint in start && start[c.outpoint] == c)
    && (forall o :: BalancedAt(start, s, o))
  }

  ghost predicate BalancedAt(start: Coins, s: Scan, o: OutPoint) {
    if o in CreatedPoints(s.undo) then o in start ==> o in RemovedPoints(s.undo)
    else
      && (o in s.coins <==> o in start && o !in RemovedPoints(s.undo))
      && (o in s.coins ==> s.coins[o] == start[o])
  }

  lemma RemovedSnoc(undo: WalletUndo, c: WalletUtxo)
    ensures RemovedPoints(undo.(removed := undo.removed + [c])) == RemovedPoints(undo) + {c.outpoint}
  {
    assert forall d :: d in undo.removed + [c] <==> d in undo.removed || d == c;
  }

  lemma {:induction false} ReinsertAt(coins: Coins, start: Coins, removed: seq<WalletUtxo>, o: OutPoint)
    requires forall c | c in removed :: c.outpoint in start && start[c.outpoint] == c
    ensures var r := Reinsert(coins, removed);
      if o in (set c | c in removed :: c.outpoint) then o in r && o in start && r[o] == start[o]
      else (o in r <==> o in coins) && (o in r ==> r[o] == coins[o])
  {
    if removed != [] {
      var n := |removed| - 1;
      ReinsertAt(coins, start, removed[..n], o);
      assert removed == removed[..n] + [removed[n]];
      RemovedSnoc(WalletUndo([], removed[..n]), removed[n]);
      assert RemovedPoints(WalletUndo([], removed)) == (set c | c in removed :: c.outpoint);
      assert RemovedPoints(WalletUndo([], removed[..n])) == (set c | c in removed[..n] :: c.outpoint);
    }
  }

  /** Balanced undo data gives back exactly the coins at the start. */
  lemma BalancedReverts(start: Coins, s: Scan)
    requires Balanced(start, s)
    ensures RevertCoins(s.coins, s.undo) == start
  {
    hide Reinsert, Balanced;
    var base, r := s.coins - CreatedPoints(s.undo), RevertCoins(s.coins, s.undo);
    forall o
      ensures (o in r <==> o in start) && (o in r ==> r[o] == start[o])
    {
      BalancedParts(start, s, o);
      ReinsertAt(base, start, s.undo.removed, o);
    }
  }

  lemma BalancedParts(start: Coins, s: Scan, o: OutPoint)
    requires Balanced(start, s)
    ensures BalancedAt(start, s, o)
    ensures forall c | c in s.undo.removed :: c.outpoint in start && start[c.outpoint] == c
  {
  }

  lemma DebitBalanced(start: Coins, s: Scan, o: OutPoint)
    requires Balanced(start, s) && o !in CreatedPoints(s.undo) && (o in s.coins ==> s.coins[o].outpoint == o)
    ensures Balanced(start, Debit(s, o)) && Debit(s, o).undo.created == s.undo.created
  {
    if o in s.coins {
      RemovedSnoc(s.undo, s.coins[o]);
      assert BalancedAt(start, s, o);
      var s' := Debit(s, o);
      forall p
        ensures BalancedAt(start, s', p)
      {
        assert BalancedAt(start, s, p);
      }
    }
  }

  lemma CreditBalanced(start: Coins, s: Scan, watched: set<Hash20>, o: OutPoint, output: TxOutput)
    requires Balanced(start, s) && (o in s.coins ==> o in CreatedPoints(s.undo))
    ensures Balanced(start, Credit(s, watched, o, output))
    ensures CreatedPoints(Credit(s, watched, o, output).undo) ==
      CreatedPoints(s.undo) + if Watches(watched, output.scriptPubkey) then {o} else {}
  {
    hide Watches;
    if Watches(watched, output.scriptPubkey) {
      var s' := Credit(s, watched, o, output);
      assert CreatedPoints(s'.undo) == CreatedPoints(s.undo) + {o};
      forall p
        ensures BalancedAt(start, s', p)
      {
        assert BalancedAt(start, s, p);
        assert BalancedAt(start, s, o);
      }
    }
  }

  /** Coins are keyed by their own outpoint. */
  ghost predicate Keyed(coins: Coins) {
    forall o | o in coins :: coins[o].outpoint == o
  }

  lemma {:induction false} DebitsBalanced(start: Coins, s: Scan, inputs: seq<TxInput>)
    requires Balanced(start, s) && Keyed(s.coins) && CreatedPoints(s.undo) !! OutPoints(inputs)
    ensures var d := DebitInputs(s, inputs);
      Balanced(start, d) && Keyed(d.coins) && d.undo.created == s.undo.created
    ensures forall o | o in DebitInputs(s, inputs).coins :: o in s.coins && o !in OutPoints(inputs)
  {
    hide Balanced;
    if inputs != [] {
      var n := |inputs| - 1;
      assert inputs == inputs[..n] + [inputs[n]];
      assert OutPoints(inputs) == OutPoints(inputs[..n]) + {OutPointOf(inputs[n])};
      DebitsBalanced(start, s, inputs[..n]);
      DebitBalanced(start, DebitInputs(s, inputs[..n]), OutPointOf(inputs[n]));
    }
  }

  lemma {:induction false} CreditsBalanced(start: Coins, s: Scan, watched: set<Hash20>, tx: Transaction, n: nat)
    requires Balanced(start, s) && Keyed(s.coins) && n <= |tx.outputs|
    requires forall o | o in CreatedList(tx) :: o !in s.coins
    ensures var c := CreditOutputs(s, watched, tx, n);
      && Balanced(start, c) && Keyed(c.coins)
      && CreatedPoints(c.undo) == CreatedPoints(s.undo) + CreditPoints(watched, tx, n)
      && (forall o | o in CreatedList(tx) && o in c.coins :: o in CreatedPoints(c.undo))
  {
    hide Balanced, Watches, CreatedPoint;
    if n > 0 {
      CreditsBalanced(start, s, watched, tx, n - 1);
      assert CreatedList(tx)[n - 1] == CreatedPoint(tx, n - 1);
      CreditBalanced(start, CreditOutputs(s, watched, tx, n - 1), watched, CreatedPoint(tx, n - 1), tx.outputs[n - 1]);
    }
  }

  lemma ScanTxBalanced(start: Coins, s: Scan, m: Utxos, watched: set<Hash20>, tx: Transaction)
    requires Balanced(start, s) && s.coins == View(m, watched) && Fresh(m, tx) && NULL_POINT !in m
    requires CreatedPoints(s.undo) !! OutPoints(tx.inputs)
    ensures var c := ScanTx(s, watched, tx);
      Balanced(start, c) && CreatedPoints(c.undo) == CreatedPoints(s.undo) + TxCredits(watched, tx)
  {
    hide Balanced, DebitInputs, CreditOutputs, CreatedList, Watches;
    DebitsBalanced(start, s, tx.inputs);
    forall o | o in CreatedList(tx)
      ensures o !in DebitInputs(s, tx.inputs).coins
    {
      if o in m {
        assert o in Spent(tx);
      }
    }
    CreditsBalanced(start, DebitInputs(s, tx.inputs), watched, tx, |tx.outputs|);
  }

  lemma NoSelfSpendPrefix(watched: set<Hash20>, txs: seq<Transaction>)
    requires NoSelfSpend(watched, txs) && txs != []
    ensures var n := |txs| - 1;
      NoSelfSpend(watched, txs[..n]) && AllCredits(watched, txs[..n]) !! OutPoints(txs[n].inputs)
  {
    hide AllCredits, OutPoints;
    var before := txs[..|txs| - 1];
    forall j | 0 <= j < |before|
      ensures AllCredits(watched, before[..j]) !! OutPoints(before[j].inputs)
    {
      assert before[..j] == txs[..j];
    }
  }

  lemma AllFreshPrefix(m: Utxos, txs: seq<Transaction>)
    requires AllFresh(m, txs) && txs != []
    ensures var n := |txs| - 1;
      AllFresh(m, txs[..n]) && Fresh(ApplyTxs(m, txs[..n]), txs[n])
  {
    hide Fresh, ApplyTxs;
    var before := txs[..|txs| - 1];
    forall j | 0 <= j < |before|
      ensures Fresh(ApplyTxs(m, before[..j]), before[j])
    {
      assert before[..j] == txs[..j];
    }
  }

  lemma {:induction false} ScanTxsBalanced(m: Utxos, watched: set<Hash20>, txs: seq<Transaction>)
    requires AllFresh(m, txs) && OutputsFew(txs) && NULL_POINT !in m && NoSelfSpend(watched, txs)
    ensures var c := ScanTxs(ScanStart(View(m, watched)), watched, txs);
      Balanced(View(m, watched), c) && CreatedPoints(c.undo) == AllCredits(watched, txs)
    decreases |txs|
  {
    hide View, ScanTx, ApplyTx, Fresh, Balanced, TxCredits, OutPoints, NoSelfSpend, AllFresh;
    var start := ScanStart(View(m, watched));
    if txs == [] {
      StartBalanced(View(m, watched));
    } else {
      var n := |txs| - 1;
      var before := txs[..n];
      NoSelfSpendPrefix(watched, txs);
      AllFreshPrefix(m, txs);
      ScanTxsBalanced(m, watched, before);
      ScanTxsView(start, m, watched, before);
      ScanTxBalanced(View(m, watched), ScanTxs(start, watched, before), ApplyTxs(m, before), watched, txs[n]);
    }
  }

  lemma StartBalanced(coins: Coins)
    ensures Balanced(coins, ScanStart(coins)) && CreatedPoints(ScanStart(coins).undo) == {}
    ensures RemovedPoints(ScanStart(coins).undo) == {}
  {
  }

  // ---- the other direction: a block that spends its own watched outputs ----

  /** Every created coin is still there or has been recorded as removed. */
  ghost predicate Traced(s: Scan) {
    Keyed(s.coins) && forall o | o in CreatedPoints(s.undo) :: o in s.coins || o in RemovedPoints(s.undo)
  }

  lemma DebitTraced(s: Scan, o: OutPoint)
    requires Traced(s)
    ensures var d := Debit(s, o);
      && Traced(d) && d.undo.created == s.undo.created
      && RemovedPoints(d.undo) == RemovedPoints(s.undo) + (if o in s.coins then {o} else {})
      && (forall p :: p in d.coins <==> p in s.coins && p != o)
  {
    if o in s.coins {
      RemovedSnoc(s.undo, s.coins[o]);
    }
  }

  lemma {:induction false} DebitsTraced(s: Scan, inputs: seq<TxInput>)
    requires Traced(s)
    ensures var d := DebitInputs(s, inputs);
      && Traced(d) && d.undo.created == s.undo.created
      && RemovedPoints(s.undo) <= RemovedPoints(d.undo)
      && (forall o | o in OutPoints(inputs) && o in CreatedPoints(s.undo) :: o in RemovedPoints(d.undo))
  {
    hide Traced, Debit, RemovedPoints;
    if inputs != [] {
      var n := |inputs| - 1;
      DebitsTraced(s, inputs[..n]);
      var d, o := DebitInputs(s, inputs[..n]), OutPointOf(inputs[n]);
      DebitTraced(d, o);
      assert inputs == inputs[..n] + [inputs[n]];
      assert OutPoints(inputs) == OutPoints(inputs[..n]) + {o};
      TracedAt(d, o);
    }
  }

  lemma TracedAt(s: Scan, o: OutPoint)
    requires Traced(s)
    ensures o in CreatedPoints(s.undo) ==> o in s.coins || o in RemovedPoints(s.undo)
  {
  }

  lemma {:induction false} CreditsTraced(s: Scan, watched: set<Hash20>, tx: Transaction, n: nat)
    requires Traced(s) && n <= |tx.outputs|
    ensures var c := CreditOutputs(s, watched, tx, n);
      && Traced(c) && RemovedPoints(c.undo) == RemovedPoints(s.undo)
      && CreatedPoints(c.undo) == CreatedPoints(s.undo) + CreditPoints(watched, tx, n)
  {
    hide Watches, CreatedPoint;
    if n > 0 {
      CreditsTraced(s, watched, tx, n - 1);
      var c, o := CreditOutputs(s, watched, tx, n - 1), CreatedPoint(tx, n - 1);
      CreditTraced(c, watched, o, tx.outputs[n - 1]);
    }
  }

  lemma CreditTraced(s: Scan, watched: set<Hash20>, o: OutPoint, output: TxOutput)
    requires Traced(s)
    ensures var c := Credit(s, watched, o, output);
      && Traced(c) && c.undo.removed == s.undo.removed
      && CreatedPoints(c.undo) == CreatedPoints(s.undo) + if Watches(watched, output.scriptPubkey) then {o} else {}
  {
    hide Watches;
  }

  /** A watched output that a later transaction of the list spends ends up among the removed coins. */
  lemma {:induction false} SelfSpendIsRemoved(start: Coins, watched: set<Hash20>, txs: seq<Transaction>)
    requires Keyed(start)
    ensures var c := ScanBlock(start, watched, txs);
      Traced(c) && CreatedPoints(c.undo) == AllCredits(watched, txs)
    ensures forall j, o | 0 <= j < |txs| && o in AllCredits(watched, txs[..j]) && o in OutPoints(txs[j].inputs) ::
      o in RemovedPoints(ScanBlock(start, watched, txs).undo)
    decreases |txs|
  {
    hide Traced, RemovedPoints, CreditPoints, DebitInputs, CreditOutputs, OutPoints;
    if txs == [] {
      StartTraced(start);
    } else {
      var n := |txs| - 1;
      var before := txs[..n];
      SelfSpendIsRemoved(start, watched, before);
      var s := ScanBlock(start, watched, before);
      DebitsTraced(s, txs[n].inputs);
      CreditsTraced(DebitInputs(s, txs[n].inputs), watched, txs[n], |txs[n].outputs|);
      assert forall i | 0 <= i < n :: before[..i] == txs[..i];
    }
  }

  lemma StartTraced(start: Coins)
    requires Keyed(start)
    ensures Traced(ScanStart(start)) && CreatedPoints(ScanStart(start).undo) == {}
  {
  }

  lemma {:induction false} ReinsertKeys(coins: Coins, removed: seq<WalletUtxo>, c: WalletUtxo)
    requires c in removed
    ensures c.outpoint in Reinsert(coins, removed)
  {
    var n := |removed| - 1;
    if c != removed[n] {
      assert removed == removed[..n] + [removed[n]];
      ReinsertKeys(coins, removed[..n], c);
    }
  }

  /** The wallet undoes a block exactly if the block spends no watched output of its own. Only an output
      that was unspent before the block too, and that the block creates again, can come out right although
      the block spends it. */
  lemma UndoExactIff(m: Utxos, watched: set<Hash20>, txs: seq<Transaction>)
    requires AllFresh(m, txs) && OutputsFew(txs) && NULL_POINT !in m
    ensures NoSelfSpend(watched, txs) ==> UndoIsExact(View(m, watched), watched, txs)
    ensures UndoIsExact(View(m, watched), watched, txs) ==>
      forall o | SelfSpent(watched, txs, o) :: o in m
    ensures (forall o | o in AllCredits(watched, txs) :: o !in m) ==>
      (UndoIsExact(View(m, watched), watched, txs) <==> NoSelfSpend(watched, txs))
  {
    hide Balanced, ScanTxs, RevertCoins, OutPoints, AllCredits, AllFresh, NoSelfSpend, SelfSpent;
    var start := View(m, watched);
    if NoSelfSpend(watched, txs) {
      ScanTxsBalanced(m, watched, txs);
      BalancedReverts(start, ScanBlock(start, watched, txs));
    } else {
      var o := SelfSpentPoint(watched, txs);
      SelfSpendStays(start, watched, txs, o);
    }
    forall o | o !in m && SelfSpent(watched, txs, o)
      ensures !UndoIsExact(start, watched, txs)
    {
      SelfSpendStays(start, watched, txs, o);
    }
  }

  /** Scanning the transactions and undoing them gives back the coins at the start. */
  predicate UndoIsExact(start: Coins, watched: set<Hash20>, txs: seq<Transaction>) {
    var c := ScanBlock(start, watched, txs);
    RevertCoins(c.coins, c.undo) == start
  }

  /** A transaction of the list spends this watched output, which an earlier one created. */
  ghost predicate SelfSpent(watched: set<Hash20>, txs: seq<Transaction>, o: OutPoint) {
    exists j | 0 <= j < |txs| :: o in AllCredits(watched, txs[..j]) && o in OutPoints(txs[j].inputs)
  }

  lemma CommonPoint(a: set<OutPoint>, b: set<OutPoint>) returns (o: OutPoint)
    requires !(a !! b)
    ensures o in a && o in b
  {
    assert (forall p | p in a :: p !in b) ==> a !! b;
    o :| o in a && o in b;
  }

  lemma SelfSpentPoint(watched: set<Hash20>, txs: seq<Transaction>) returns (o: OutPoint)
    requires !NoSelfSpend(watched, txs)
    ensures SelfSpent(watched, txs, o) && o in AllCredits(watched, txs)
  {
    hide OutPoints, AllCredits;
    var j :| 0 <= j < |txs| && !(AllCredits(watched, txs[..j]) !! OutPoints(txs[j].inputs));
    o := CommonPoint(AllCredits(watched, txs[..j]), OutPoints(txs[j].inputs));
    CreditsPrefix(watched, txs, j);
  }

  /** Undoing a block that spends a watched output of its own leaves that output behind. */
  lemma SelfSpendStays(start: Coins, watched: set<Hash20>, txs: seq<Transaction>, o: OutPoint)
    requires Keyed(start) && SelfSpent(watched, txs, o)
    ensures var c := ScanBlock(start, watched, txs);
      o in AllCredits(watched, txs) && o in RevertCoins(c.coins, c.undo)
  {
    hide ScanBlock, Reinsert, OutPoints, AllCredits, Traced;
    SelfSpendIsRemoved(start, watched, txs);
    var c := ScanBlock(start, watched, txs);
    var j :| 0 <= j < |txs| && o in AllCredits(watched, txs[..j]) && o in OutPoints(txs[j].inputs);
    CreditsPrefix(watched, txs, j);
    assert o in RemovedPoints(c.undo);
    var coin :| coin in c.undo.removed && coin.outpoint == o;
    ReinsertKeys(c.coins - (set p | p in c.undo.created), c.undo.removed, coin);
  }

  lemma {:induction false} CreditsPrefix(watched: set<Hash20>, txs: seq<Transaction>, j: nat)
    requires j <= |txs|
    ensures AllCredits(watched, txs[..j]) <= AllCredits(watched, txs)
    decreases |txs|
  {
    hide TxCredits;
    if j == |txs| {
      assert txs[..j] == txs;
    } else {
      CreditsPrefix(watched, txs[..|txs| - 1], j);
      assert txs[..|txs| - 1][..j] == txs[..j];
    }
  }

  // ---- events ----

  datatype WalletState = WalletState(watched: set<Hash20>, coins: Coins, undo: map<Hash, WalletUndo>)

  /** What one event does; a connect event reads the block that is active at its height now. */
  function ApplyEvent(w: WalletState, active: seq<Block>, event: ChainEvent): WalletState
    requires event.BlockConnected? ==> event.height < |active|
  {
    match event
    case BlockConnected(height, _, _) =>
      var scan := ScanBlock(w.coins, w.watched, active[height].transactions);
      WalletState(w.watched, scan.coins, w.undo[BlockHash(active[height]) := scan.undo])
    case BlockDisconnected(_, hash) =>
      if hash in w.undo then WalletState(w.watched, RevertCoins(w.coins, w.undo[hash]), w.undo - {hash}) else w
    case _ => w
  }

  /** Every connect event has an active block at its height. */
  predicate HeightsExist(active: seq<Block>, events: seq<ChainEvent>) {
    forall i | 0 <= i < |events| :: events[i].BlockConnected? ==> events[i].height < |active|
  }

  function ApplyAll(w: WalletState, active: seq<Block>, events: seq<ChainEvent>): WalletState
    requires HeightsExist(active, events)
  {
    if events == [] then w
    else ApplyEvent(ApplyAll(w, active, events[..|events| - 1]), active, events[|events| - 1])
  }

  lemma ApplyAllSnoc(w: WalletState, active: seq<Block>, events: seq<ChainEvent>, i: nat)
    requires i < |events| && HeightsExist(active, events[..i + 1])
    ensures HeightsExist(active, events[..i])
    ensures events[i].BlockConnected? ==> events[i].height < |active|
    ensures ApplyAll(w, active, events[..i + 1]) == ApplyEvent(ApplyAll(w, active, events[..i]), active, events[i])
  {
    hide ApplyEvent;
    assert forall k | 0 <= k < i :: events[..i][k] == events[..i + 1][k];
    assert events[..i + 1][..i] == events[..i];
    assert events[..i + 1][i] == events[i];
  }

  class Wallet {
    var watched: set<Hash20>
    var utxos: Coins
    var blockUndo: map<Hash, WalletUndo>

    constructor ()
      ensures State() == WalletState({}, map[], map[])
    {
      watched, utxos, blockUndo := {}, map[], map[];
    }

    ghost function State(): WalletState
      reads this
    {
      WalletState(watched, utxos, blockUndo)
    }

    method WatchAddress(pubkeyHash: Hash20)
      modifies this`watched
      ensures State() == old(State()).(watched := old(watched) + {pubkeyHash})
    {
      watched := watched + {pubkeyHash};
    }

    /** Scans the transactions of a block, recording how to undo it. */
    method ConnectBlock(block: Block)
      modifies this`utxos, this`blockUndo
      ensures var scan := ScanBlock(old(utxos), watched, block.transactions);
        utxos == scan.coins && blockUndo == old(blockUndo)[BlockHash(block) := scan.undo]
    {
      hide BlockHash, Txid, Watches;
      var created: seq<OutPoint>, removed: seq<WalletUtxo> := [], [];
      ghost var start, txs := ScanStart(utxos), block.transactions;
      assert txs[..0] == [];
      for t := 0 to |block.transactions|
        invariant blockUndo == old(blockUndo)
        invariant Scan(utxos, WalletUndo(created, removed)) == ScanTxs(start, watched, txs[..t])
      {
        var tx := block.transactions[t];
        ghost var s := ScanTxs(start, watched, txs[..t]);
        assert tx.inputs[..0] == [];
        for i := 0 to |tx.inputs|
          invariant blockUndo == old(blockUndo)
          invariant Scan(utxos, WalletUndo(created, removed)) == DebitInputs(s, tx.inputs[..i])
        {
          var outpoint := OutPointOf(tx.inputs[i]);
          assert tx.inputs[..i + 1][..i] == tx.inputs[..i];
          if outpoint in utxos {
            removed := removed + [utxos[outpoint]];
            utxos := utxos - {outpoint};
          }
        }
        assert tx.inputs[..|tx.inputs|] == tx.inputs;
        var txid := Txid(tx);
        for i := 0 to |tx.outputs|
          invariant blockUndo == old(blockUndo)
          invariant Scan(utxos, WalletUndo(created, removed)) == CreditOutputs(DebitInputs(s, tx.inputs), watched, tx, i)
        {
          var output := tx.outputs[i];
          if Watches(watched, output.scriptPubkey) {
            var outpoint := OutPoint(txid, i % 0x1_0000_0000);
            utxos := utxos[outpoint := WalletUtxo(outpoint, output.value, output.scriptPubkey)];
            created := created + [outpoint];
          }
        }
        assert txs[..t + 1][..t] == txs[..t];
      }
      assert txs[..|txs|] == txs;
      blockUndo := blockUndo[BlockHash(block) := WalletUndo(created, removed)];
    }

    method DisconnectBlock(hash: Hash)
      modifies this`utxos, this`blockUndo
      ensures hash in old(blockUndo) ==>
        utxos == RevertCoins(old(utxos), old(blockUndo)[hash]) && blockUndo == old(blockUndo) - {hash}
      ensures hash !in old(blockUndo) ==> utxos == old(utxos) && blockUndo == old(blockUndo)
    {
      if hash in blockUndo {
        var undo := blockUndo[hash];
        blockUndo := blockUndo - {hash};
        ghost var before := utxos;
        for i := 0 to |undo.created|
          invariant blockUndo == old(blockUndo) - {hash}
          invariant utxos == before - (set o | o in undo.created[..i])
        {
          assert undo.created[..i + 1] == undo.created[..i] + [undo.created[i]];
          utxos := utxos - {undo.created[i]};
        }
        assert undo.created[..|undo.created|] == undo.created;
        ghost var base := utxos;
        assert undo.removed[..0] == [];
        for i := 0 to |undo.removed|
          invariant blockUndo == old(blockUndo) - {hash}
          invariant utxos == Reinsert(base, undo.removed[..i])
        {
          assert undo.removed[..i + 1][..i] == undo.removed[..i];
          utxos := utxos[undo.removed[i].outpoint := undo.removed[i]];
        }
        assert undo.removed[..|undo.removed|] == undo.removed;
      }
    }

    /** Applies events in order; stops at the first connect event whose height has no active block, with
        the events before it applied. */
    method ApplyEvents(events: seq<ChainEvent>, chain: Chain.Chain) returns (r: Result<(), WalletError>, ghost n: nat)
      modifies this
      ensures n <= |events| && HeightsExist(chain.blocks, events[..n])
      ensures State() == ApplyAll(old(State()), chain.blocks, events[..n])
      ensures r.Ok? <==> n == |events|
      ensures r.Err? ==> n < |events| && events[n].BlockConnected? && events[n].height >= |chain.blocks|
      ensures r.Err? ==> r.error == MissingActiveBlock(events[n].height)
    {
      hide ScanBlock, RevertCoins, BlockHash;
      n := 0;
      assert events[..0] == [];
      for i := 0 to |events|
        invariant n == i && HeightsExist(chain.blocks, events[..i])
        invariant State() == ApplyAll(old(State()), chain.blocks, events[..i])
      {
        match events[i] {
          case BlockConnected(height, _, _) =>
            var block := chain.ActiveBlockAt(height);
            if block.None? {
              return Err(MissingActiveBlock(height)), i;
            }
            ConnectBlock(block.value);
          case BlockDisconnected(_, hash) =>
            DisconnectBlock(hash);
          case _ =>
        }
        assert events[..i + 1] == events[..i] + [events[i]];
        ApplyAllSnoc(old(State()), chain.blocks, events, i);
        n := i + 1;
      }
      assert events[..|events|] == events;
      r := Ok(());
    }
  }

  // ---- the wallet follows the chain ----

  /** The index holds this block, under its hash. */
  predicate IndexHas(known: Known, block: Block) {
    BlockHash(block) in known && known[BlockHash(block)].block == block
  }

  ghost predicate OrdinaryAt(bs: seq<Block>, known: Known, watched: set<Hash20>, i: nat)
    requires i < |bs|
  {
    && IndexHas(known, bs[i])
    && OutputsFew(bs[i].transactions)
    && AllFresh(Replay(bs[..i]), bs[i].transactions)
    && NoSelfSpend(watched, bs[i].transactions)
    && BlockHash(bs[i]) !in Hashes(bs[..i])
  }

  /** What the wallet relies on of an active chain: linked and fresh, in the index, no hash twice, and no block that
      spends watched outputs of its own. */
  ghost predicate Ordinary(bs: seq<Block>, known: Known, watched: set<Hash20>) {
    Linked(bs) && forall i | 0 <= i < |bs| :: OrdinaryAt(bs, known, watched, i)
  }

  function UndoFor(bs: seq<Block>, watched: set<Hash20>, i: nat): WalletUndo
    requires i < |bs|
  {
    ScanBlock(View(Replay(bs[..i]), watched), watched, bs[i].transactions).undo
  }

  ghost predicate UndoStored(w: WalletState, bs: seq<Block>, i: nat)
    requires i < |bs|
  {
    BlockHash(bs[i]) in w.undo && w.undo[BlockHash(bs[i])] == UndoFor(bs, w.watched, i)
  }

  /** The coins are the watched part of the replay of these blocks, and every block can be undone. */
  ghost predicate Synced(w: WalletState, bs: seq<Block>) {
    w.coins == View(Replay(bs), w.watched) && forall i | 0 <= i < |bs| :: UndoStored(w, bs, i)
  }

  /** A wallet with nothing in it is in step with a chain that has no block. */
  lemma NewWalletSynced(watched: set<Hash20>)
    ensures Synced(WalletState(watched, map[], map[]), [])
  {
  }

  lemma OrdinaryPrefix(bs: seq<Block>, known: Known, watched: set<Hash20>, n: nat)
    requires Ordinary(bs, known, watched) && n <= |bs|
    ensures Ordinary(bs[..n], known, watched)
  {
    hide BlockHash, AllFresh, Replay, NoSelfSpend, OutputsFew, Hashes;
    var shorter := bs[..n];
    forall i | 0 <= i < n
      ensures OrdinaryAt(shorter, known, watched, i)
    {
      assert OrdinaryAt(bs, known, watched, i);
      assert shorter[..i] == bs[..i];
    }
  }

  lemma {:induction false} NullNeverUnspent(bs: seq<Block>, known: Known, watched: set<Hash20>)
    requires Ordinary(bs, known, watched)
    ensures NULL_POINT !in Replay(bs)
    decreases |bs|
  {
    hide BlockHash, AllFresh, NoSelfSpend, OutputsFew, Hashes, Linked, ApplyTxs;
    if bs != [] {
      var n := |bs| - 1;
      OrdinaryPrefix(bs, known, watched, n);
      NullNeverUnspent(bs[..n], known, watched);
      assert OrdinaryAt(bs, known, watched, n);
      ScanTxsView(ScanStart(View(Replay(bs[..n]), watched)), Replay(bs[..n]), watched, bs[n].transactions);
    }
  }

  lemma ScanOfBlock(bs: seq<Block>, known: Known, watched: set<Hash20>, n: nat)
    requires |bs| == n + 1 && Ordinary(bs, known, watched)
    ensures var scan := ScanBlock(View(Replay(bs[..n]), watched), watched, bs[n].transactions);
      && scan.coins == View(Replay(bs), watched)
      && RevertCoins(scan.coins, scan.undo) == View(Replay(bs[..n]), watched)
    ensures BlockHash(bs[n]) !in Hashes(bs[..n])
  {
    hide BlockHash, AllFresh, NoSelfSpend, OutputsFew, Hashes, Linked, ApplyTxs, ScanTxs, RevertCoins, View, Balanced;
    assert OrdinaryAt(bs, known, watched, n);
    OrdinaryPrefix(bs, known, watched, n);
    NullNeverUnspent(bs[..n], known, watched);
    var m, txs := Replay(bs[..n]), bs[n].transactions;
    ScanTxsView(ScanStart(View(m, watched)), m, watched, txs);
    ScanTxsBalanced(m, watched, txs);
    BalancedReverts(View(m, watched), ScanBlock(View(m, watched), watched, txs));
  }

  lemma UndoKept(w: WalletState, w': WalletState, bs: seq<Block>, longer: seq<Block>, i: nat)
    requires i < |bs| <= |longer| && longer[..|bs|] == bs && w'.watched == w.watched
    requires UndoStored(w, bs, i) && BlockHash(bs[i]) in w'.undo
    requires w'.undo[BlockHash(bs[i])] == w.undo[BlockHash(bs[i])]
    ensures UndoStored(w', longer, i)
  {
    hide BlockHash, ScanBlock, View, Replay;
    assert longer[i] == longer[..|bs|][i];
    assert longer[..i] == bs[..i];
  }

  /** Connecting the next active block keeps the wallet in step. */
  lemma ConnectSynced(w: WalletState, active: seq<Block>, known: Known, n: nat, event: ChainEvent)
    requires n < |active| && Ordinary(active[..n + 1], known, w.watched)
    requires Synced(w, active[..n]) && event.BlockConnected? && event.height == n
    ensures Synced(ApplyEvent(w, active, event), active[..n + 1])
  {
    hide BlockHash, ScanBlock, View, Replay, UndoStored, RevertCoins, Ordinary;
    var bs, longer := active[..n], active[..n + 1];
    assert longer[..n] == bs && longer[n] == active[n];
    ScanOfBlock(longer, known, w.watched, n);
    var w' := ApplyEvent(w, active, event);
    forall i | 0 <= i < n
      ensures UndoStored(w', longer, i)
    {
      assert UndoStored(w, bs, i);
      StoredHash(w, bs, i);
      assert Hashes(bs)[i] == BlockHash(bs[i]);
      UndoKept(w, w', bs, longer, i);
    }
    NewUndoStored(w', longer, n);
  }

  lemma StoredHash(w: WalletState, bs: seq<Block>, i: nat)
    requires i < |bs| && UndoStored(w, bs, i)
    ensures BlockHash(bs[i]) in w.undo && w.undo[BlockHash(bs[i])] == UndoFor(bs, w.watched, i)
  {
    hide BlockHash, ScanBlock, View, Replay;
  }

  lemma NewUndoStored(w: WalletState, bs: seq<Block>, i: nat)
    requires i < |bs| && BlockHash(bs[i]) in w.undo
    requires w.undo[BlockHash(bs[i])] == ScanBlock(View(Replay(bs[..i]), w.watched), w.watched, bs[i].transactions).undo
    ensures UndoStored(w, bs, i)
  {
    hide BlockHash, ScanBlock, View, Replay;
  }

  /** Disconnecting the last block keeps the wallet in step. */
  lemma DisconnectSynced(w: WalletState, active: seq<Block>, bs: seq<Block>, known: Known, event: ChainEvent)
    requires bs != [] && Ordinary(bs, known, w.watched) && Synced(w, bs)
    requires event.BlockDisconnected? && event.hash == BlockHash(bs[|bs| - 1])
    ensures Synced(ApplyEvent(w, active, event), bs[..|bs| - 1])
  {
    hide BlockHash, ScanBlock, View, Replay, UndoStored, RevertCoins, Ordinary;
    var n := |bs| - 1;
    var shorter := bs[..n];
    ScanOfBlock(bs, known, w.watched, n);
    assert UndoStored(w, bs, n);
    StoredHash(w, bs, n);
    var w' := ApplyEvent(w, active, event);
    forall i | 0 <= i < n
      ensures UndoStored(w', shorter, i)
    {
      assert UndoStored(w, bs, i);
      StoredHash(w, bs, i);
      assert Hashes(shorter)[i] == BlockHash(shorter[i]) == BlockHash(bs[i]);
      assert shorter[..i] == bs[..i];
      NewUndoStored(w', shorter, i);
    }
  }

  /** Linked lists of blocks that share a block share everything before it. */
  lemma {:induction false} SamePrefix(a: seq<Block>, b: seq<Block>, known: Known, n: nat)
    requires Linked(a) && Linked(b) && 0 < n <= |a| && n <= |b|
    requires (forall i | 0 <= i < n :: IndexHas(known, a[i]) && IndexHas(known, b[i])) && a[n - 1] == b[n - 1]
    ensures a[..n] == b[..n]
    decreases n
  {
    hide BlockHash;
    if n > 1 {
      assert PrevOf(a[n - 1]) == BlockHash(a[n - 2]) && PrevOf(b[n - 1]) == BlockHash(b[n - 2]);
      SamePrefix(a, b, known, n - 1);
    }
    assert a[..n] == a[..n - 1] + [a[n - 1]] && b[..n] == b[..n - 1] + [b[n - 1]];
  }

  lemma AllIndexed(bs: seq<Block>, known: Known, watched: set<Hash20>)
    requires Ordinary(bs, known, watched)
    ensures forall i | 0 <= i < |bs| :: IndexHas(known, bs[i])
  {
    hide BlockHash, AllFresh, NoSelfSpend, OutputsFew, Hashes, Linked, Replay;
    forall i | 0 <= i < |bs|
      ensures IndexHas(known, bs[i])
    {
      assert OrdinaryAt(bs, known, watched, i);
    }
  }

  /** A connect event replayed on a prefix of the old or the new chain pushes the next block of the new one. */
  lemma ConnectsOnPrefix(known: Known, watched: set<Hash20>, from: seq<Block>, to: seq<Block>,
                         bs: seq<Block>, event: ChainEvent)
    requires Ordinary(from, known, watched) && Ordinary(to, known, watched)
    requires (bs <= from || bs <= to) && event.BlockConnected? && HashActive(to, event)
    requires ReplayEvent(known, Some(Hashes(bs)), event).Some?
    ensures |bs| < |to| && event.height == |bs| && bs == to[..|bs|]
  {
    hide BlockHash, Hashes, Ordinary;
    AllIndexed(from, known, watched);
    AllIndexed(to, known, watched);
    var n := |bs|;
    if n > 0 {
      TopOfHashes(bs);
      assert known[event.hash].block == to[n];
      OrdinaryIsLinked(to, known, watched);
      OrdinaryIsLinked(from, known, watched);
      assert PrevOf(to[n]) == BlockHash(to[n - 1]);
      if bs <= from {
        assert bs == from[..n] && bs[n - 1] == from[n - 1];
        assert IndexHas(known, from[n - 1]) && IndexHas(known, to[n - 1]);
        SamePrefix(from, to, known, n);
      } else {
        assert bs == to[..n];
      }
    } else {
      assert bs == to[..0];
    }
  }

  lemma OrdinaryIsLinked(bs: seq<Block>, known: Known, watched: set<Hash20>)
    requires Ordinary(bs, known, watched)
    ensures Linked(bs)
  {
    hide OrdinaryAt;
  }

  lemma TopOfHashes(bs: seq<Block>)
    requires bs != []
    ensures Hashes(bs)[|bs| - 1] == BlockHash(bs[|bs| - 1])
  {
    hide BlockHash;
  }

  lemma SameHashes(a: seq<Block>, b: seq<Block>, known: Known)
    requires Hashes(a) == Hashes(b)
    requires (forall i | 0 <= i < |a| :: IndexHas(known, a[i])) && (forall i | 0 <= i < |b| :: IndexHas(known, b[i]))
    ensures a == b
  {
    hide BlockHash;
    assert |a| == |Hashes(a)| == |b|;
    forall i | 0 <= i < |a|
      ensures a[i] == b[i]
    {
      assert Hashes(a)[i] == BlockHash(a[i]) && Hashes(b)[i] == BlockHash(b[i]);
      assert IndexHas(known, a[i]) && IndexHas(known, b[i]);
    }
  }

  /** One event: the wallet stays in step with a prefix of the old or of the new chain. */
  lemma EventSynced(w: WalletState, known: Known, from: seq<Block>, to: seq<Block>, bs: seq<Block>,
                    event: ChainEvent) returns (bs': seq<Block>)
    requires Ordinary(from, known, w.watched) && Ordinary(to, known, w.watched)
    requires (bs <= from || bs <= to) && Synced(w, bs) && HashActive(to, event)
    requires ReplayEvent(known, Some(Hashes(bs)), event).Some?
    ensures bs' <= from || bs' <= to
    ensures Some(Hashes(bs')) == ReplayEvent(known, Some(Hashes(bs)), event)
    ensures Synced(ApplyEvent(w, to, event), bs') && ApplyEvent(w, to, event).watched == w.watched
  {
    hide BlockHash, Synced, Ordinary, ScanBlock, RevertCoins, Hashes;
    var n := |bs|;
    bs' := bs;
    if event.BlockConnected? {
      ConnectsOnPrefix(known, w.watched, from, to, bs, event);
      bs' := to[..n + 1];
      assert bs' == bs + [to[n]];
      HashesSnoc(bs, to[n]);
      OrdinaryPrefix(to, known, w.watched, n + 1);
      ConnectSynced(w, to, known, n, event);
    } else if event.BlockDisconnected? {
      TopOfHashes(bs);
      bs' := bs[..n - 1];
      assert bs == bs' + [bs[n - 1]];
      HashesSnoc(bs', bs[n - 1]);
      if bs <= from {
        assert bs == from[..n];
        OrdinaryPrefix(from, known, w.watched, n);
      } else {
        assert bs == to[..n];
        OrdinaryPrefix(to, known, w.watched, n);
      }
      DisconnectSynced(w, to, bs, known, event);
    }
  }

  lemma {:induction false} EventsSynced(w: WalletState, known: Known, from: seq<Block>, to: seq<Block>,
                                        events: seq<ChainEvent>) returns (bs: seq<Block>)
    requires Ordinary(from, known, w.watched) && Ordinary(to, known, w.watched)
    requires Synced(w, from) && HashesActive(to, events)
    requires ReplayEvents(known, Some(Hashes(from)), events).Some?
    ensures bs <= from || bs <= to
    ensures Some(Hashes(bs)) == ReplayEvents(known, Some(Hashes(from)), events)
    ensures HeightsExist(to, events)
    ensures Synced(ApplyAll(w, to, events), bs) && ApplyAll(w, to, events).watched == w.watched
    decreases |events|
  {
    hide BlockHash, Synced, Ordinary, ApplyEvent, ReplayEvent, Hashes;
    bs := from;
    if events != [] {
      var n := |events| - 1;
      var before := events[..n];
      assert HashesActive(to, before) && HashActive(to, events[n]);
      ReplayNone(known, events[n]);
      bs := EventsSynced(w, known, from, to, before);
      assert forall i | 0 <= i < n :: events[i] == before[i];
      bs := EventSynced(ApplyAll(w, to, before), known, from, to, bs, events[n]);
    }
  }

  /** If every connect event carries the hash of the block active at its height, the events between two
      states of a chain take the wallet from the one to the other: its coins become the watched part of
      the chain's unspent outputs, through any reorganisation. */
  lemma WalletFollowsChain(w: WalletState, known: Known, from: seq<Block>, to: seq<Block>,
                           before: seq<ChainEvent>, after: seq<ChainEvent>)
    requires Ordinary(from, known, w.watched) && Ordinary(to, known, w.watched)
    requires Synced(w, from) && EventsTurn(known, before, after, from, to)
    requires HashesActive(to, after[|before|..])
    ensures HeightsExist(to, after[|before|..])
    ensures Synced(ApplyAll(w, to, after[|before|..]), to)
    ensures ApplyAll(w, to, after[|before|..]).coins == View(Replay(to), w.watched)
  {
    hide BlockHash, Ordinary, ApplyEvent, ReplayEvents, Hashes, HashesActive, ApplyAll, HeightsExist, View,
         UndoStored, Replay;
    var bs := EventsSynced(w, known, from, to, after[|before|..]);
    AllIndexed(from, known, w.watched);
    AllIndexed(to, known, w.watched);
    forall i | 0 <= i < |bs|
      ensures IndexHas(known, bs[i])
    {
      assert bs <= from ==> bs[i] == from[i];
      assert bs <= to ==> bs[i] == to[i];
    }
    SameHashes(bs, to, known);
  }

  predicate NoBlockSelfSpends(watched: set<Hash20>, blocks: seq<Block>) {
    forall i | 0 <= i < |blocks| :: NoSelfSpend(watched, blocks[i].transactions)
  }

  lemma OrdinaryActive(bs: seq<Block>, known: Known, watched: set<Hash20>)
    requires ValidChain(bs) && FreshChain(bs) && AllActive(known, bs) && NoBlockSelfSpends(watched, bs)
    ensures Ordinary(bs, known, watched)
  {
    hide BlockHash, NoSelfSpend, AllFresh, Replay, ValidChain, FreshChain, OutputsFew, Hashes, WithinBlockLimits;
    ValidIsLinked(bs);
    forall i | 0 <= i < |bs|
      ensures OrdinaryAt(bs, known, watched, i)
    {
      assert ActiveAt(known, bs, i);
      Value.BlockOfValidChain(bs, i);
      FewOutputs(bs[i]);
      Value.FreshAt(bs, i);
      AllActivePrefix(known, bs, i);
    }
  }

  /** The active blocks of a valid chain are what the wallet relies on, if none of them spends watched
      outputs of its own. */
  lemma ActiveIsOrdinary(chain: Chain.Chain, watched: set<Hash20>)
    requires chain.Valid()
    requires NoBlockSelfSpends(watched, chain.blocks)
    ensures Ordinary(chain.blocks, chain.known, watched)
    ensures chain.utxo.entries == Replay(chain.blocks)
  {
    hide BlockHash, Replay, ValidChain, FreshChain, TreeInv, Admissible, AllActive, NoBlockSelfSpends, Ordinary;
    hide Chain.Chain.Valid;
    chain.ActiveChainIsValid();
    chain.ValidIsChainInv();
    OrdinaryActive(chain.blocks, chain.known, watched);
  }

  lemma ValidIsLinked(bs: seq<Block>)
    requires ValidChain(bs)
    ensures Linked(bs)
  {
    hide MayFollow, ValidGenesis, BlockHash;
  }

  lemma FewOutputs(block: Block)
    requires WithinBlockLimits(block)
    ensures OutputsFew(block.transactions)
  {
    hide WithinBlockLimits;
    forall i | 0 <= i < |block.transactions|
      ensures |block.transactions[i].outputs| < 0x1_0000_0000
    {
      Value.OutputsFit(block, block.transactions[i]);
    }
  }

  // ---- a wallet that follows a running chain ----

  datatype FollowError =
    | ChainFailed(chainError: ChainError)
    | EventsLost(cursorError: CursorError)
    | WalletFailed(walletError: WalletError)

  /** What the wallet relies on of a chain at one time it can rely on later. */
  lemma OrdinaryKept(bs: seq<Block>, known: Known, later: Known, watched: set<Hash20>)
    requires KeepsNodes(known, later) && Ordinary(bs, known, watched)
    ensures Ordinary(bs, later, watched)
  {
    hide BlockHash, AllFresh, NoSelfSpend, OutputsFew, Hashes, Linked, Replay;
    forall i | 0 <= i < |bs|
      ensures OrdinaryAt(bs, later, watched, i)
    {
      assert OrdinaryAt(bs, known, watched, i);
    }
  }

  /** The wallet was in step with these blocks when it had taken the events before its mark. */
  ghost predicate Behind(w: WalletState, known: Known, from: seq<Block>, to: seq<Block>, log: seq<ChainEvent>,
                         mark: nat) {
    && Synced(w, from) && Ordinary(from, known, w.watched)
    && mark <= |log| && EventsTurn(known, log[..mark], log, from, to)
  }

  /** The wallet has taken every event, and its coins are the watched part of the chain's unspent outputs. */
  ghost predicate InStep(w: WalletState, s: ChainState, mark: nat) {
    Synced(w, s.blocks) && w.coins == View(s.utxos, w.watched) && mark == |s.log|
  }

  lemma InStepIsBehind(w: WalletState, known: Known, later: Known, blocks: seq<Block>, to: seq<Block>,
                       log: seq<ChainEvent>, longer: seq<ChainEvent>)
    requires Synced(w, blocks) && Ordinary(blocks, known, w.watched) && KeepsNodes(known, later)
    requires EventsTurn(later, log, longer, blocks, to)
    ensures Behind(w, later, blocks, to, longer, |log|)
  {
    hide Synced, Ordinary, ReplayEvents, Hashes, KeepsNodes;
    OrdinaryKept(blocks, known, later, w.watched);
    assert longer[..|log|] == log;
  }

  lemma CaughtUp(w: WalletState, s: ChainState, from: seq<Block>, mark: nat)
    requires Behind(w, s.known, from, s.blocks, s.log, mark) && Ordinary(s.blocks, s.known, w.watched)
    requires HashesActive(s.blocks, s.log[mark..]) && s.utxos == Replay(s.blocks)
    ensures HeightsExist(s.blocks, s.log[mark..])
    ensures InStep(ApplyAll(w, s.blocks, s.log[mark..]), s, |s.log|)
  {
    hide Synced, Ordinary, EventsTurn, HashesActive, ApplyAll, HeightsExist, View, Replay;
    WalletFollowsChain(w, s.known, from, s.blocks, s.log[..mark], s.log);
    WatchedKept(w, s.blocks, s.log[mark..]);
  }

  lemma {:induction false} WatchedKept(w: WalletState, active: seq<Block>, events: seq<ChainEvent>)
    requires HeightsExist(active, events)
    ensures ApplyAll(w, active, events).watched == w.watched
    decreases |events|
  {
    hide ScanBlock, RevertCoins, BlockHash;
    if events != [] {
      WatchedKept(w, active, events[..|events| - 1]);
    }
  }

  /** The journal has dropped an event after the mark. */
  predicate Missed(log: seq<ChainEvent>, capacity: nat, mark: nat) {
    mark < Dropped(|log|, capacity)
  }

  /** The first n events have been applied: all of them, or those before the first connect event whose
      height has no active block, which is then the error. */
  ghost predicate Applied(before: WalletState, after: WalletState, active: seq<Block>, events: seq<ChainEvent>,
                          n: nat, error: Option<FollowError>) {
    && n <= |events| && HeightsExist(active, events[..n]) && after == ApplyAll(before, active, events[..n])
    && match error
       case None => n == |events|
       case Some(e) =>
         && n < |events| && events[n].BlockConnected? && events[n].height >= |active|
         && e == WalletFailed(MissingActiveBlock(events[n].height))
  }

  /** The wallet has been behind these blocks since its mark, no old or new block spends watched outputs of
      its own, and every connect event since is of a block active at its height. */
  ghost predicate CanFollow(w: WalletState, s: ChainState, from: seq<Block>, mark: nat) {
    && Behind(w, s.known, from, s.blocks, s.log, mark)
    && NoBlockSelfSpends(w.watched, s.blocks)
    && HashesActive(s.blocks, s.log[mark..])
  }

  /** How a visit of the wallet to the chain ends: with lost events exactly if the journal has dropped one of
      them, otherwise with the events applied; and in step with the chain if it can follow. */
  ghost predicate Visited(before: WalletState, after: WalletState, s: ChainState, from: seq<Block>, capacity: nat,
                          mark: nat, mark': nat, n: nat, error: Option<FollowError>) {
    if Missed(s.log, capacity, mark) then
      after == before && mark' == mark && error == Some(EventsLost(CursorError(mark, Dropped(|s.log|, capacity) + 1)))
    else
      && mark <= |s.log| && mark' == |s.log|
      && Applied(before, after, s.blocks, s.log[mark..], n, error)
      && (CanFollow(before, s, from, mark) ==> error == None && InStep(after, s, mark'))
  }

  lemma VisitedInTime(w: WalletState, w': WalletState, s: ChainState, from: seq<Block>, capacity: nat, mark: nat,
                      n: nat, error: Option<FollowError>)
    requires mark <= |s.log| && !Missed(s.log, capacity, mark)
    requires NoBlockSelfSpends(w.watched, s.blocks) ==> Ordinary(s.blocks, s.known, w.watched)
    requires s.utxos == Replay(s.blocks) && Applied(w, w', s.blocks, s.log[mark..], n, error)
    ensures Visited(w, w', s, from, capacity, mark, |s.log|, n, error)
  {
    hide Behind, Ordinary, HashesActive, ApplyAll, InStep, Replay, Missed, Dropped, NoBlockSelfSpends;
    if CanFollow(w, s, from, mark) {
      CaughtUp(w, s, from, mark);
      assert s.log[mark..][..|s.log[mark..]|] == s.log[mark..];
    }
  }

  /** Takes the events since the wallet's last visit and applies them. */
  method CatchUp(wallet: Wallet, chain: Chain.Chain, ghost from: seq<Block>)
      returns (r: Result<(), FollowError>, ghost n: nat)
    requires chain.Valid()
    modifies wallet, chain.eventJournal`walletHighWater
    ensures chain.Valid()
    ensures Visited(old(wallet.State()), wallet.State(), chain.State(), from, chain.eventJournal.capacity,
                    old(chain.eventJournal.walletHighWater), chain.eventJournal.walletHighWater, n,
                    if r.Ok? then None else Some(r.error))
  {
    hide BlockHash, Behind, Ordinary, NoBlockSelfSpends, HashesActive, ApplyAll, InStep, Replay, CanFollow;
    hide Chain.Chain.Valid;
    n := 0;
    ghost var w, mark := wallet.State(), chain.eventJournal.walletHighWater;
    if NoBlockSelfSpends(wallet.watched, chain.blocks) {
      ActiveIsOrdinary(chain, wallet.watched);
    }
    UtxosAreReplay(chain);
    chain.JournalBounds();
    var taken := chain.TakeEvents();
    if taken.Err? {
      return Err(EventsLost(taken.error)), n;
    }
    var applied;
    applied, n := wallet.ApplyEvents(taken.value, chain);
    r := if applied.Ok? then Ok(()) else Err(WalletFailed(applied.error));
    VisitedInTime(w, wallet.State(), chain.State(), from, chain.eventJournal.capacity, mark, n,
                  if r.Ok? then None else Some(r.error));
  }

  lemma UtxosAreReplay(chain: Chain.Chain)
    requires chain.Valid()
    ensures chain.utxo.entries == Replay(chain.blocks)
  {
    hide BlockHash, Replay, ValidChain, FreshChain;
    hide Chain.Chain.Valid;
    chain.ActiveChainIsValid();
  }

  ghost predicate Steady(promoted: seq<Attempt>) {
    forall a | a in promoted :: !Reorganizes(a)
  }

  /** What connecting a block does to the wallet: nothing if the chain fails, and otherwise a visit with the
      chain's result. If the wallet was in step, no active block spends watched outputs of its own, the
      journal held the events, and the promotion of orphans did not reorganise, it is in step again. */
  ghost predicate Followed(before: WalletState, after: WalletState, s: ChainState, s': ChainState, capacity: nat,
                           mark: nat, mark': nat, connected: Result<ConnectResult, ChainError>, promoted: seq<Attempt>,
                           n: nat, r: Result<ConnectResult, FollowError>) {
    match connected
    case Err(e) => r == Err(ChainFailed(e)) && after == before && mark' == mark
    case Ok(result) =>
      && (r.Ok? ==> r.value == result)
      && Visited(before, after, s', s.blocks, capacity, mark, mark', n, if r.Ok? then None else Some(r.error))
      && (Tracks(before, s, s', capacity, mark, promoted) ==> r.Ok? && InStep(after, s', mark'))
  }

  ghost predicate Tracks(w: WalletState, s: ChainState, s': ChainState, capacity: nat, mark: nat,
                         promoted: seq<Attempt>) {
    && InStep(w, s, mark)
    && NoBlockSelfSpends(w.watched, s.blocks) && NoBlockSelfSpends(w.watched, s'.blocks)
    && !Missed(s'.log, capacity, mark) && Steady(promoted)
  }

  /** A wallet that tracks the chain can follow it over the connection of a block. */
  lemma TrackingFollows(w: WalletState, s: ChainState, s': ChainState, block: Block,
                        connected: Result<ConnectResult, ChainError>, first: Attempt, promoted: seq<Attempt>,
                        capacity: nat, mark: nat)
    requires connected.Ok? && ConnectOutcome(s, s', block, connected, first, promoted)
    requires Tracks(w, s, s', capacity, mark, promoted) && Ordinary(s.blocks, s.known, w.watched)
    ensures CanFollow(w, s', s.blocks, mark)
  {
    hide BlockHash, Tried, NoneReady, PromotionsEnd, EventsTurn, Num, Reorganizes, Synced, Ordinary, NoBlockSelfSpends,
         View, Missed, KeepsNodes, Behind, ActiveSince, HashesActive;
    CallConnects(s, s', block, connected, first, promoted);
    EventsTurnGrows(s'.known, s.log, s'.log, s.blocks, s'.blocks);
    SinceIsAfter(s'.blocks, s.log, s'.log);
    InStepIsBehind(w, s.known, s'.known, s.blocks, s'.blocks, s.log, s'.log);
  }

  /** Connects a block and, if the chain does not fail, lets the wallet take the events of it. */
  method ConnectAndFollow(wallet: Wallet, chain: Chain.Chain, block: Block)
      returns (r: Result<ConnectResult, FollowError>, ghost connected: Result<ConnectResult, ChainError>,
               ghost first: Attempt, ghost promoted: seq<Attempt>, ghost n: nat)
    requires chain.Valid() && block in chain.universe
    modifies wallet, chain, chain.utxo, chain.eventJournal, chain.disconnectedJournal
    ensures chain.Valid()
    ensures ConnectOutcome(old(chain.State()), chain.State(), block, connected, first, promoted)
    ensures Followed(old(wallet.State()), wallet.State(), old(chain.State()), chain.State(),
                     chain.eventJournal.capacity, old(chain.eventJournal.walletHighWater),
                     chain.eventJournal.walletHighWater, connected, promoted, n, r)
  {
    hide BlockHash, Ordinary, NoBlockSelfSpends, ConnectOutcome, Tracks, CanFollow, Missed, InStep, Applied;
    hide Chain.Chain.Valid;
    n := 0;
    ghost var w, before, mark := wallet.State(), chain.State(), chain.eventJournal.walletHighWater;
    if NoBlockSelfSpends(wallet.watched, chain.blocks) {
      ActiveIsOrdinary(chain, wallet.watched);
    }
    var result;
    result, first, promoted := chain.ConnectBlock(block);
    connected := result;
    if result.Err? {
      return Err(ChainFailed(result.error)), connected, first, promoted, n;
    }
    ghost var after := chain.State();
    var caught;
    caught, n := CatchUp(wallet, chain, before.blocks);
    r := if caught.Ok? then Ok(result.value) else Err(caught.error);
    if Tracks(w, before, after, chain.eventJournal.capacity, mark, promoted) {
      TracksParts(w, before, after, chain.eventJournal.capacity, mark, promoted);
      TrackingFollows(w, before, after, block, connected, first, promoted, chain.eventJournal.capacity, mark);
    }
  }

  lemma SinceIsAfter(active: seq<Block>, log: seq<ChainEvent>, longer: seq<ChainEvent>)
    requires ActiveSince(active, log, longer) && log <= longer
    ensures HashesActive(active, longer[|log|..])
  {
    hide HashActive;
  }

  lemma TracksParts(w: WalletState, s: ChainState, s': ChainState, capacity: nat, mark: nat, promoted: seq<Attempt>)
    requires Tracks(w, s, s', capacity, mark, promoted)
    ensures NoBlockSelfSpends(w.watched, s.blocks) && !Missed(s'.log, capacity, mark)
  {
    hide NoBlockSelfSpends, InStep, Steady, Missed;
  }

  /** What a new wallet has after the genesis event. */
  function GenesisWallet(watched: set<Hash20>, genesis: Block): WalletState {
    ApplyEvent(WalletState(watched, map[], map[]), [genesis], ConnectEvent(genesis, 0))
  }

  lemma GenesisApplied(watched: set<Hash20>, genesis: Block, log: seq<ChainEvent>, w: WalletState, n: nat,
                       error: Option<FollowError>)
    requires GenesisLogged(log, genesis) && Applied(WalletState(watched, map[], map[]), w, [genesis], log[0..], n, error)
    ensures error == None && w == GenesisWallet(watched, genesis)
  {
    hide BlockHash, ApplyEvent;
    var start := WalletState(watched, map[], map[]);
    assert log[0..] == log && log[..0] == [];
    assert error == None;
    assert log[0..][..n] == log;
    assert ApplyAll(start, [genesis], []) == start;
  }

  lemma GenesisCanFollow(watched: set<Hash20>, s: ChainState, genesis: Block)
    requires GenesisLogged(s.log, genesis) && EventsTurn(s.known, [], s.log, [], [genesis]) && s.blocks == [genesis]
    requires NoBlockSelfSpends(watched, [genesis])
    ensures CanFollow(WalletState(watched, map[], map[]), s, [], 0)
  {
    hide BlockHash, Synced, EventsTurn, OrdinaryAt, NoSelfSpend;
    NewWalletSynced(watched);
    assert s.log[..0] == [] && s.log[0..] == s.log;
  }

  /** A new chain, which is the genesis block alone, and a new wallet that watches one address and has taken
      the genesis event; in step, if the genesis block spends no watched output of its own. */
  method BeginFollowing(genesis: Block, networkTime: u32, eventCapacity: nat, pubkeyHash: Hash20,
                        ghost universe: iset<Block>)
      returns (r: Result<(Chain.Chain, Wallet), FollowError>)
    requires Admissible(genesis, universe) && genesis in universe
    ensures r.Err? ==> r.error.ChainFailed?
    ensures r.Ok? ==> fresh(r.value.0) && fresh(r.value.0.utxo) && fresh(r.value.1)
    ensures r.Ok? ==> fresh(r.value.0.eventJournal) && fresh(r.value.0.disconnectedJournal)
    ensures r.Ok? <==> networkTime != 0 && GenesisAccepted(genesis, networkTime)
    ensures r.Ok? ==> Begun(r.value.0, r.value.1, genesis, universe, pubkeyHash)
  {
    hide BlockHash, EventsTurn, Admissible, GenesisAccepted, GenesisLogged, InStep, CanFollow, NoBlockSelfSpends, Applied,
         GenesisWallet, Dropped;
    hide Chain.Chain.Valid;
    var created := Chain.Chain.NewGenesis(genesis, networkTime, eventCapacity, universe);
    if created.Err? {
      return Err(ChainFailed(created.error));
    }
    var chain := created.value;
    var wallet := new Wallet();
    wallet.WatchAddress(pubkeyHash);
    assert wallet.watched == {pubkeyHash};
    ghost var w, s := wallet.State(), chain.State();
    GenesisKept(s.log, genesis, chain);
    if NoBlockSelfSpends({pubkeyHash}, [genesis]) {
      GenesisCanFollow({pubkeyHash}, s, genesis);
    }
    ghost var n;
    var caught;
    caught, n := CatchUp(wallet, chain, []);
    GenesisApplied({pubkeyHash}, genesis, s.log, wallet.State(), n, if caught.Ok? then None else Some(caught.error));
    r := Ok((chain, wallet));
  }

  lemma GenesisKept(log: seq<ChainEvent>, genesis: Block, chain: Chain.Chain)
    requires chain.Valid() && GenesisLogged(log, genesis)
    ensures !Missed(log, chain.eventJournal.capacity, 0)
  {
    hide BlockHash;
    hide Chain.Chain.Valid;
    chain.JournalBounds();
  }

  /** A valid chain of the genesis block and a wallet that has taken its event. */
  ghost predicate Begun(chain: Chain.Chain, wallet: Wallet, genesis: Block, universe: iset<Block>, pubkeyHash: Hash20)
    reads chain, chain.utxo, chain.eventJournal, chain.disconnectedJournal, wallet
  {
    && chain.genesis == genesis && chain.universe == universe && chain.blocks == [genesis] && chain.orphans == map[]
    && GenesisLogged(chain.eventJournal.log, genesis)
    && wallet.State() == GenesisWallet({pubkeyHash}, genesis)
    && (NoBlockSelfSpends({pubkeyHash}, [genesis]) ==>
          InStep(wallet.State(), chain.State(), chain.eventJournal.walletHighWater))
    && chain.Valid()
  }
}
