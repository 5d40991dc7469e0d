/** The unspent-output set: what a transaction does to it, the undo data that reverts it, and
    when a transaction is valid against it. */
module Utxo {
  import opened Types
  import opened Codec
  import Crypto
  import Script

  datatype UtxoEntry = UtxoEntry(value: u64, scriptPubkey: Bytes)

  type Utxos = map<OutPoint, UtxoEntry>

  datatype TxUndo = TxUndo(removed: seq<(OutPoint, UtxoEntry)>, created: seq<OutPoint>)

  datatype UtxoError =
    | MissingInput(outpoint: OutPoint)
    | ValueOverflow
    | InputOutputMismatch(inputs: nat, outputs: nat)
    | DuplicateSpend(outpoint: OutPoint)

  datatype ScriptCheckError = Absent(outpoint: OutPoint) | Rejected

  const U64_LIMIT := 0x1_0000_0000_0000_0000

  predicate IsCoinbase(tx: Transaction) {
    |tx.inputs| == 1 && tx.inputs[0].previousOutput == ZERO_HASH && tx.inputs[0].index == U32_MAX
  }

  // ---- the effect of a transaction ----

  function OutPoints(inputs: seq<TxInput>): set<OutPoint> {
    set input | input in inputs :: OutPointOf(input)
  }

  /** The inputs a transaction spends; a coinbase spends none. */
  function SpentInputs(tx: Transaction): seq<TxInput> {
    if IsCoinbase(tx) then [] else tx.inputs
  }

  function Spent(tx: Transaction): set<OutPoint> {
    OutPoints(SpentInputs(tx))
  }

  /** The outpoint of output i; the index keeps its low 32 bits. */
  function CreatedPoint(tx: Transaction, i: nat): OutPoint {
    OutPoint(Txid(tx), i % 0x1_0000_0000)
  }

  function CreatedList(tx: Transaction): seq<OutPoint> {
    seq(|tx.outputs|, (i: nat) => CreatedPoint(tx, i))
  }

  function Created(tx: Transaction): set<OutPoint> {
    set o | o in CreatedList(tx)
  }

  function EntryOf(output: TxOutput): UtxoEntry {
    UtxoEntry(output.value, output.scriptPubkey)
  }

  function AddOutputs(m: Utxos, tx: Transaction, n: nat): Utxos
    requires n <= |tx.outputs|
  {
    if n == 0 then m else AddOutputs(m, tx, n - 1)[CreatedPoint(tx, n - 1) := EntryOf(tx.outputs[n - 1])]
  }

  function ApplyTx(m: Utxos, tx: Transaction): Utxos {
    AddOutputs(m - Spent(tx), tx, |tx.outputs|)
  }

  lemma CreatedPrefix(tx: Transaction, n: nat)
    requires 0 < n <= |tx.outputs|
    ensures CreatedList(tx)[..n] == CreatedList(tx)[..n - 1] + [CreatedPoint(tx, n - 1)]
  {
    hide CreatedPoint;
  }

  /** Outside the created outpoints, applying a transaction only removes what it spends. */
  lemma {:induction false} AddOutputsKeys(m: Utxos, tx: Transaction, n: nat)
    requires n <= |tx.outputs|
    ensures AddOutputs(m, tx, n).Keys == m.Keys + set o | o in CreatedList(tx)[..n]
    ensures forall o | o in m && o !in CreatedList(tx)[..n] :: AddOutputs(m, tx, n)[o] == m[o]
  {
    hide CreatedPoint, CreatedList, EntryOf;
    if n > 0 {
      AddOutputsKeys(m, tx, n - 1);
      CreatedPrefix(tx, n);
    }
  }

  lemma ApplyTxKeys(m: Utxos, tx: Transaction)
    ensures ApplyTx(m, tx).Keys == (m.Keys - Spent(tx)) + Created(tx)
    ensures forall o | o in m && o !in Spent(tx) && o !in Created(tx) :: ApplyTx(m, tx)[o] == m[o]
  {
    AddOutputsKeys(m - Spent(tx), tx, |tx.outputs|);
    assert CreatedList(tx)[..|tx.outputs|] == CreatedList(tx);
  }

  lemma {:induction false} AddedAt(m: Utxos, tx: Transaction, n: nat, i: nat)
    requires i < n <= |tx.outputs| <= 0x1_0000_0000
    ensures var o := OutPoint(Txid(tx), i); o in AddOutputs(m, tx, n) && AddOutputs(m, tx, n)[o] == EntryOf(tx.outputs[i])
  {
    hide Txid;
    if i < n - 1 {
      AddedAt(m, tx, n - 1, i);
    }
  }

  /** Output i of an applied transaction is found at index i under its id, with its value and script. */
  lemma OutputIsAt(m: Utxos, tx: Transaction, i: nat)
    requires i < |tx.outputs| <= 0x1_0000_0000
    ensures OutPoint(Txid(tx), i) in ApplyTx(m, tx)
    ensures ApplyTx(m, tx)[OutPoint(Txid(tx), i)] == UtxoEntry(tx.outputs[i].value, tx.outputs[i].scriptPubkey)
  {
    hide Txid, Spent;
    AddedAt(m - Spent(tx), tx, |tx.outputs|, i);
  }

  lemma NotCreatedHere(tx: Transaction, o: OutPoint)
    requires |tx.outputs| <= 0x1_0000_0000 && (o.txid != Txid(tx) || o.index >= |tx.outputs|)
    ensures o !in Created(tx)
  {
    hide Txid;
  }

  /** Every other outpoint is unspent after a transaction exactly if it was before and no input names it, with
      the same entry; the null outpoint of a coinbase spends nothing. */
  lemma OthersAreKept(m: Utxos, tx: Transaction, o: OutPoint)
    requires |tx.outputs| <= 0x1_0000_0000 && (o.txid != Txid(tx) || o.index >= |tx.outputs|)
    ensures o in ApplyTx(m, tx) <==>
      && o in m
      && ((|tx.inputs| == 1 && tx.inputs[0].previousOutput == ZERO_HASH && tx.inputs[0].index == 0xffff_ffff)
          || forall input | input in tx.inputs :: input.previousOutput != o.txid || input.index != o.index)
    ensures o in ApplyTx(m, tx) ==> ApplyTx(m, tx)[o] == m[o]
  {
    hide Txid, ApplyTx, CreatedList;
    NotCreatedHere(tx, o);
    ApplyTxKeys(m, tx);
    if IsCoinbase(tx) {
      assert Spent(tx) == {};
    } else {
      assert o in Spent(tx) <==> exists input | input in tx.inputs :: OutPointOf(input) == o;
    }
  }

  // ---- undo ----

  /** The entries the first n of the given inputs take out of m, in input order. */
  function Removed(m: Utxos, inputs: seq<TxInput>, n: nat): seq<(OutPoint, UtxoEntry)>
    requires n <= |inputs|
  {
    if n == 0 then [] else
      var o := OutPointOf(inputs[n - 1]);
      Removed(m, inputs, n - 1) + if o in m && o !in OutPoints(inputs[..n - 1]) then [(o, m[o])] else []
  }

  function UndoOf(m: Utxos, tx: Transaction): TxUndo {
    TxUndo(Removed(m, SpentInputs(tx), |SpentInputs(tx)|), CreatedList(tx))
  }

  function InsertPairs(m: Utxos, pairs: seq<(OutPoint, UtxoEntry)>, n: nat): Utxos
    requires n <= |pairs|
  {
    if n == 0 then m else InsertPairs(m, pairs, n - 1)[pairs[n - 1].0 := pairs[n - 1].1]
  }

  function Revert(m: Utxos, undo: TxUndo): Utxos {
    InsertPairs(m - (set o | o in undo.created), undo.removed, |undo.removed|)
  }

  function KeysOf(pairs: seq<(OutPoint, UtxoEntry)>): set<OutPoint> {
    set p | p in pairs :: p.0
  }

  ghost predicate AgreeWith(m: Utxos, pairs: seq<(OutPoint, UtxoEntry)>) {
    forall i | 0 <= i < |pairs| :: pairs[i].0 in m && pairs[i].1 == m[pairs[i].0]
  }

  lemma KeysOfSnoc(pairs: seq<(OutPoint, UtxoEntry)>, p: (OutPoint, UtxoEntry))
    ensures KeysOf(pairs + [p]) == KeysOf(pairs) + {p.0}
  {
    assert forall q :: q in pairs + [p] <==> q in pairs || q == p;
  }

  lemma {:induction false} RemovedKeys(m: Utxos, inputs: seq<TxInput>, n: nat)
    requires n <= |inputs|
    ensures AgreeWith(m, Removed(m, inputs, n))
    ensures KeysOf(Removed(m, inputs, n)) == m.Keys * OutPoints(inputs[..n])
  {
    if n > 0 {
      RemovedKeys(m, inputs, n - 1);
      var o := OutPointOf(inputs[n - 1]);
      assert inputs[..n] == inputs[..n - 1] + [inputs[n - 1]];
      assert OutPoints(inputs[..n]) == OutPoints(inputs[..n - 1]) + {o};
      if o in m && o !in OutPoints(inputs[..n - 1]) {
        KeysOfSnoc(Removed(m, inputs, n - 1), (o, m[o]));
        assert m.Keys * OutPoints(inputs[..n]) == m.Keys * OutPoints(inputs[..n - 1]) + {o};
      } else {
        assert m.Keys * OutPoints(inputs[..n]) == m.Keys * OutPoints(inputs[..n - 1]);
      }
    }
  }

  /** Inserting pairs that agree with m yields m on their keys and leaves the base elsewhere. */
  lemma {:induction false} InsertPairsAt(base: Utxos, m: Utxos, pairs: seq<(OutPoint, UtxoEntry)>, n: nat, o: OutPoint)
    requires n <= |pairs| && AgreeWith(m, pairs)
    ensures var r := InsertPairs(base, pairs, n);
      if o in KeysOf(pairs[..n]) then o in r && o in m && r[o] == m[o]
      else (o in r <==> o in base) && (o in r ==> r[o] == base[o])
  {
    if n > 0 {
      InsertPairsAt(base, m, pairs, n - 1, o);
      assert pairs[..n] == pairs[..n - 1] + [pairs[n - 1]];
      KeysOfSnoc(pairs[..n - 1], pairs[n - 1]);
    }
  }

  /** No output of tx lands on an outpoint that is unspent in m, unless tx itself spends it. */
  predicate Fresh(m: Utxos, tx: Transaction) {
    forall o | o in CreatedList(tx) && o in m :: o in Spent(tx)
  }

  /** What undoing tx right after applying it leaves: m without the outpoints tx overwrote. */
  lemma RevertApplied(m: Utxos, tx: Transaction)
    ensures Revert(ApplyTx(m, tx), UndoOf(m, tx)) == m - (Created(tx) - Spent(tx))
  {
    hide ApplyTx, InsertPairs, Removed, IsCoinbase;
    var inputs := SpentInputs(tx);
    assert inputs[..|inputs|] == inputs;
    var undo := UndoOf(m, tx);
    RemovedKeys(m, inputs, |inputs|);
    assert KeysOf(undo.removed) == m.Keys * Spent(tx);
    assert undo.removed[..|undo.removed|] == undo.removed;
    ApplyTxKeys(m, tx);
    var base := ApplyTx(m, tx) - (set o | o in undo.created);
    var r, expected := Revert(ApplyTx(m, tx), undo), m - (Created(tx) - Spent(tx));
    forall o
      ensures (o in r <==> o in expected) && (o in r ==> r[o] == m[o])
    {
      InsertPairsAt(base, m, undo.removed, |undo.removed|, o);
    }
  }

  /** Undo restores the set if and only if the transaction overwrote nothing. */
  lemma UndoExact(m: Utxos, tx: Transaction)
    ensures Revert(ApplyTx(m, tx), UndoOf(m, tx)) == m <==> Fresh(m, tx)
  {
    RevertApplied(m, tx);
    var kept := m - (Created(tx) - Spent(tx));
    if Fresh(m, tx) {
      assert kept.Keys == m.Keys;
    } else {
      var o :| o in CreatedList(tx) && o in m && o !in Spent(tx);
      assert o !in kept;
    }
  }

  /** Undo restores the set if none of the outputs was there before. */
  lemma UndoRestores(m: Utxos, tx: Transaction)
    requires forall i | 0 <= i < |tx.outputs| :: OutPoint(Txid(tx), i % 0x1_0000_0000) !in m
    ensures Revert(ApplyTx(m, tx), UndoOf(m, tx)) == m
  {
    hide Txid, ApplyTx, Revert, UndoOf, Spent;
    UndoExact(m, tx);
    forall o | o in CreatedList(tx)
      ensures o !in m
    {
      var i :| 0 <= i < |tx.outputs| && CreatedList(tx)[i] == o;
    }
  }

  // ---- lists of transactions ----

  function ApplyTxs(m: Utxos, txs: seq<Transaction>): Utxos {
    if txs == [] then m else ApplyTx(ApplyTxs(m, txs[..|txs| - 1]), txs[|txs| - 1])
  }

  /** A list is applied from its first transaction to its last. */
  lemma {:induction false} ApplyTxsConcat(m: Utxos, txs: seq<Transaction>, more: seq<Transaction>)
    ensures ApplyTxs(m, txs + more) == ApplyTxs(ApplyTxs(m, txs), more)
    decreases |more|
  {
    hide ApplyTx;
    if more == [] {
      assert txs + more == txs;
    } else {
      var n := |more| - 1;
      assert (txs + more)[..|txs| + n] == txs + more[..n];
      ApplyTxsConcat(m, txs, more[..n]);
    }
  }

  lemma ApplyOne(m: Utxos, tx: Transaction)
    ensures ApplyTxs(m, [tx]) == ApplyTx(m, tx)
  {
    hide ApplyTx;
    assert [tx][..0] == [];
    assert ApplyTxs(m, []) == m;
  }

  function UndosOf(m: Utxos, txs: seq<Transaction>): (undos: seq<TxUndo>)
    ensures |undos| == |txs|
  {
    if txs == [] then [] else
      UndosOf(m, txs[..|txs| - 1]) + [UndoOf(ApplyTxs(m, txs[..|txs| - 1]), txs[|txs| - 1])]
  }

  /** Undo entries applied last to first. */
  function RevertAll(m: Utxos, undos: seq<TxUndo>): Utxos
    decreases |undos|
  {
    if undos == [] then m else RevertAll(Revert(m, undos[|undos| - 1]), undos[..|undos| - 1])
  }

  predicate AllFresh(m: Utxos, txs: seq<Transaction>) {
    forall i | 0 <= i < |txs| :: Fresh(ApplyTxs(m, txs[..i]), txs[i])
  }

  /** The undo list of a block, run in reverse, restores the set the block was applied to, also when
      its transactions spend each other. */
  lemma {:induction false} UndoListRestores(m: Utxos, txs: seq<Transaction>)
    requires AllFresh(m, txs)
    ensures RevertAll(ApplyTxs(m, txs), UndosOf(m, txs)) == m
    decreases |txs|
  {
    hide Fresh, Revert, UndoOf, ApplyTx;
    if txs != [] {
      var n := |txs| - 1;
      var before := txs[..n];
      UndoExact(ApplyTxs(m, before), txs[n]);
      assert UndosOf(m, txs)[..n] == UndosOf(m, before);
      forall i | 0 <= i < |before|
        ensures Fresh(ApplyTxs(m, before[..i]), before[i])
      {
        assert before[..i] == txs[..i];
      }
      UndoListRestores(m, before);
    }
  }

  /** Freshness is needed: two coinbases with the same id, and undoing the second loses the output
      of the first. */
  lemma DuplicateCoinbaseLosesOutput(coinbase: Transaction)
    requires IsCoinbase(coinbase) && |coinbase.outputs| == 1
    ensures var once := ApplyTx(map[], coinbase);
      && CreatedPoint(coinbase, 0) in once
      && CreatedPoint(coinbase, 0) !in Revert(ApplyTx(once, coinbase), UndoOf(once, coinbase))
  {
    var once := ApplyTx(map[], coinbase);
    ApplyTxKeys(map[], coinbase);
    assert CreatedList(coinbase)[0] == CreatedPoint(coinbase, 0);
    RevertApplied(once, coinbase);
  }

  // ---- validity ----

  function ValueAt(m: Utxos, o: OutPoint): nat {
    if o in m then m[o].value else 0
  }

  function InputSum(m: Utxos, inputs: seq<TxInput>): nat {
    if inputs == [] then 0 else InputSum(m, inputs[..|inputs| - 1]) + ValueAt(m, OutPointOf(inputs[|inputs| - 1]))
  }

  function OutputSum(outputs: seq<TxOutput>): nat {
    if outputs == [] then 0 else OutputSum(outputs[..|outputs| - 1]) + outputs[|outputs| - 1].value
  }

  predicate InputsPresent(m: Utxos, inputs: seq<TxInput>) {
    forall input | input in inputs :: OutPointOf(input) in m
  }

  /** A transaction spends existing outputs and creates no value; sums fit in 64 bits. */
  predicate TxValid(m: Utxos, tx: Transaction) {
    && OutputSum(tx.outputs) < U64_LIMIT
    && (IsCoinbase(tx) ||
        (InputsPresent(m, tx.inputs) && OutputSum(tx.outputs) <= InputSum(m, tx.inputs) < U64_LIMIT))
  }

  function PrevScripts(m: Utxos, inputs: seq<TxInput>): seq<Bytes>
    requires InputsPresent(m, inputs)
  {
    seq(|inputs|, i requires 0 <= i < |inputs| => m[OutPointOf(inputs[i])].scriptPubkey)
  }

  /** Every input with a non-empty locking script carries an unlocking script that satisfies it. */
  predicate ScriptsOk(m: Utxos, tx: Transaction)
    requires InputsPresent(m, tx.inputs)
  {
    forall i | 0 <= i < |tx.inputs| :: InputScriptOk(tx, PrevScripts(m, tx.inputs), i)
  }

  predicate InputScriptOk(tx: Transaction, scripts: seq<Bytes>, i: nat)
    requires i < |tx.inputs| && |scripts| == |tx.inputs|
  {
    scripts[i] == [] || Script.Verify(tx.inputs[i].scriptSig, scripts[i], Crypto.SighashAll(tx, i, scripts)).Ok?
  }

  lemma {:induction false} SumsMonotone(m: Utxos, inputs: seq<TxInput>, outputs: seq<TxOutput>, i: nat, j: nat)
    requires i <= |inputs| && j <= |outputs|
    ensures InputSum(m, inputs[..i]) <= InputSum(m, inputs)
    ensures OutputSum(outputs[..j]) <= OutputSum(outputs)
    decreases |inputs| - i + |outputs| - j
  {
    if i < |inputs| {
      SumsMonotone(m, inputs, outputs, i + 1, j);
      assert inputs[..i + 1][..i] == inputs[..i];
    } else if j < |outputs| {
      SumsMonotone(m, inputs, outputs, i, j + 1);
      assert outputs[..j + 1][..j] == outputs[..j];
    } else {
      assert inputs[..i] == inputs && outputs[..j] == outputs;
    }
  }

  method SumOutputs(tx: Transaction) returns (r: Result<u64, UtxoError>)
    ensures r == if OutputSum(tx.outputs) < U64_LIMIT then Ok(OutputSum(tx.outputs)) else Err(ValueOverflow)
  {
    var sum: u64 := 0;
    for j := 0 to |tx.outputs|
      invariant sum == OutputSum(tx.outputs[..j])
    {
      assert tx.outputs[..j + 1][..j] == tx.outputs[..j];
      SumsMonotone(map[], [], tx.outputs, 0, j + 1);
      var next := sum + tx.outputs[j].value;
      if next >= U64_LIMIT {
        return Err(ValueOverflow);
      }
      sum := next;
    }
    assert tx.outputs[..|tx.outputs|] == tx.outputs;
    r := Ok(sum);
  }

  class UtxoSet {
    var entries: Utxos

    constructor ()
      ensures entries == map[]
    {
      entries := map[];
    }

    constructor Clone(m: Utxos)
      ensures entries == m
    {
      entries := m;
    }

    /** Sums the values of the inputs; the error is that of the first input that is missing or
        overflows the sum. */
    method SumInputs(tx: Transaction) returns (r: Result<u64, UtxoError>)
      ensures r.Ok? <==> InputsPresent(entries, tx.inputs) && InputSum(entries, tx.inputs) < U64_LIMIT
      ensures r.Ok? ==> r.value == InputSum(entries, tx.inputs)
      ensures r.Err? ==> exists i | 0 <= i < |tx.inputs| ::
        && InputsPresent(entries, tx.inputs[..i])
        && InputSum(entries, tx.inputs[..i]) < U64_LIMIT
        && (if OutPointOf(tx.inputs[i]) !in entries then r.error == MissingInput(OutPointOf(tx.inputs[i]))
            else r.error == ValueOverflow && InputSum(entries, tx.inputs[..i + 1]) >= U64_LIMIT)
    {
      var sum: u64 := 0;
      for i := 0 to |tx.inputs|
        invariant InputsPresent(entries, tx.inputs[..i])
        invariant sum == InputSum(entries, tx.inputs[..i])
      {
        var outpoint := OutPointOf(tx.inputs[i]);
        assert tx.inputs[..i + 1] == tx.inputs[..i] + [tx.inputs[i]];
        if outpoint !in entries {
          return Err(MissingInput(outpoint));
        }
        SumsMonotone(entries, tx.inputs, [], i + 1, 0);
        var next := sum + entries[outpoint].value;
        if next >= U64_LIMIT {
          return Err(ValueOverflow);
        }
        sum := next;
      }
      assert tx.inputs[..|tx.inputs|] == tx.inputs;
      r := Ok(sum);
    }

    method ValidateTransaction(tx: Transaction) returns (r: Result<(), UtxoError>)
      ensures r.Ok? <==> TxValid(entries, tx)
      ensures r.Err? && r.error.InputOutputMismatch? ==>
        && !IsCoinbase(tx) && InputsPresent(entries, tx.inputs)
        && r.error == InputOutputMismatch(InputSum(entries, tx.inputs), OutputSum(tx.outputs))
        && InputSum(entries, tx.inputs) < OutputSum(tx.outputs)
      ensures r.Err? && r.error.MissingInput? ==>
        !IsCoinbase(tx) && r.error.outpoint in OutPoints(tx.inputs) && r.error.outpoint !in entries
      ensures r.Err? ==> !r.error.DuplicateSpend?
    {
      if IsCoinbase(tx) {
        var _ :- SumOutputs(tx);
        return Ok(());
      }
      var sumIn :- SumInputs(tx);
      var sumOut :- SumOutputs(tx);
      if sumIn < sumOut {
        return Err(InputOutputMismatch(sumIn, sumOut));
      }
      r := Ok(());
    }

    /** Verifies the script of every input against the outputs it spends. */
    method VerifyScripts(tx: Transaction) returns (r: Result<(), ScriptCheckError>)
      ensures r.Ok? <==> InputsPresent(entries, tx.inputs) && ScriptsOk(entries, tx)
      ensures r.Err? && r.error.Absent? ==> r.error.outpoint in OutPoints(tx.inputs) && r.error.outpoint !in entries
      ensures r.Err? && r.error.Rejected? ==> InputsPresent(entries, tx.inputs)
    {
      var scripts: seq<Bytes> := [];
      for i := 0 to |tx.inputs|
        invariant InputsPresent(entries, tx.inputs[..i])
        invariant scripts == PrevScripts(entries, tx.inputs[..i])
      {
        var outpoint := OutPointOf(tx.inputs[i]);
        assert tx.inputs[..i + 1] == tx.inputs[..i] + [tx.inputs[i]];
        if outpoint !in entries {
          return Err(Absent(outpoint));
        }
        scripts := scripts + [entries[outpoint].scriptPubkey];
      }
      assert tx.inputs[..|tx.inputs|] == tx.inputs;
      for i := 0 to |tx.inputs|
        invariant forall j | 0 <= j < i :: InputScriptOk(tx, scripts, j)
      {
        if scripts[i] != [] {
          var verdict := Script.VerifyScript(tx.inputs[i].scriptSig, scripts[i], Crypto.SighashAll(tx, i, scripts));
          if verdict.Err? {
            assert !InputScriptOk(tx, scripts, i);
            return Err(Rejected);
          }
        }
      }
      r := Ok(());
    }

    method ApplyTransaction(tx: Transaction) returns (undo: TxUndo)
      modifies this
      ensures entries == ApplyTx(old(entries), tx)
      ensures undo == UndoOf(old(entries), tx)
      ensures |tx.outputs| <= 0x1_0000_0000 ==> forall i | 0 <= i < |tx.outputs| ::
        && OutPoint(Txid(tx), i) in entries
        && entries[OutPoint(Txid(tx), i)] == UtxoEntry(tx.outputs[i].value, tx.outputs[i].scriptPubkey)
    {
      hide Txid, IsCoinbase;
      ghost var m := entries;
      var removed := [];
      var inputs := SpentInputs(tx);
      for i := 0 to |inputs|
        invariant entries == m - OutPoints(inputs[..i])
        invariant removed == Removed(m, inputs, i)
      {
        var outpoint := OutPointOf(inputs[i]);
        assert inputs[..i + 1] == inputs[..i] + [inputs[i]];
        assert OutPoints(inputs[..i + 1]) == OutPoints(inputs[..i]) + {outpoint};
        if outpoint in entries {
          removed := removed + [(outpoint, entries[outpoint])];
          entries := entries - {outpoint};
        }
      }
      assert inputs[..|inputs|] == inputs;
      var created := [];
      for i := 0 to |tx.outputs|
        invariant entries == AddOutputs(m - Spent(tx), tx, i)
        invariant created == CreatedList(tx)[..i]
      {
        var outpoint := CreatedPoint(tx, i);
        entries := entries[outpoint := EntryOf(tx.outputs[i])];
        created := created + [outpoint];
      }
      undo := TxUndo(removed, created);
      if |tx.outputs| <= 0x1_0000_0000 {
        forall i | 0 <= i < |tx.outputs| { OutputIsAt(m, tx, i); }
      }
    }

    method DisconnectUndo(undo: TxUndo)
      modifies this
      ensures entries == Revert(old(entries), undo)
    {
      ghost var m := entries;
      for i := 0 to |undo.created|
        invariant entries == m - (set o | o in undo.created[..i])
      {
        assert undo.created[..i + 1] == undo.created[..i] + [undo.created[i]];
        entries := entries - {undo.created[i]};
      }
      assert undo.created[..|undo.created|] == undo.created;
      ghost var base := entries;
      for i := 0 to |undo.removed|
        invariant entries == InsertPairs(base, undo.removed, i)
      {
        entries := entries[undo.removed[i].0 := undo.removed[i].1];
      }
    }
  }
}
