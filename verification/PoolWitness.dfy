/** A pool that evicts the parent of the transaction it admits. */
module PoolWitness {
  import opened Types
  import opened Limits
  import opened Codec
  import opened Utxo
  import opened Consensus
  import opened Pool
  import opened PoolIndex
  import opened Mempool

  /** A payment of ten units, to an empty locking script, out of the first output of a transaction. */
  function Payment(from: Hash): Transaction {
    Transaction(1, [TxInput(from, 0, [], 0)], [TxOutput(10, [])], 0)
  }

  function Parent(from: Hash): MempoolEntry {
    MempoolEntry(Payment(from), 0, 60, 0)
  }

  function Child(from: Hash): Transaction {
    Payment(Txid(Payment(from)))
  }

  function Funds(from: Hash): Utxos {
    map[OutPoint(from, 0) := UtxoEntry(10, [])]
  }

  lemma PaymentSize(from: Hash)
    ensures SerializedSize(Payment(from)) == 60
  {
    var tx := Payment(from);
    assert InputSize(tx.inputs[0]) == 41 && OutputSize(tx.outputs[0]) == 9;
    assert tx.inputs[1..] == [] && tx.outputs[1..] == [];
    assert SumOver(InputSize, tx.inputs) == InputSize(tx.inputs[0]) + SumOver(InputSize, tx.inputs[1..]);
    assert SumOver(OutputSize, tx.outputs) == OutputSize(tx.outputs[0]) + SumOver(OutputSize, tx.outputs[1..]);
  }

  lemma PaymentIsStructural(from: Hash)
    ensures Structural(Payment(from)) && !IsCoinbase(Payment(from)) && InputsDiffer(Payment(from))
    ensures OutPoints(Payment(from).inputs) == {OutPoint(from, 0)}
  {
    hide SerializedSize;
    PaymentSize(from);
    assert OutPointOf(Payment(from).inputs[0]) == OutPoint(from, 0);
  }

  lemma PaymentSums(m: Utxos, from: Hash)
    requires OutPoint(from, 0) in m && m[OutPoint(from, 0)] == UtxoEntry(10, [])
    ensures InputSum(m, Payment(from).inputs) == 10 && OutputSum(Payment(from).outputs) == 10
    ensures InputsPresent(m, Payment(from).inputs) && ScriptsOk(m, Payment(from))
  {
    var tx := Payment(from);
    assert tx.inputs[..0] == [] && tx.outputs[..0] == [];
    assert InputSum(m, tx.inputs) == InputSum(m, tx.inputs[..0]) + ValueAt(m, OutPointOf(tx.inputs[0]));
    assert OutputSum(tx.outputs) == OutputSum(tx.outputs[..0]) + 10;
    forall i | 0 <= i < |tx.inputs|
      ensures InputScriptOk(tx, PrevScripts(m, tx.inputs), i)
    {
      assert PrevScripts(m, tx.inputs)[i] == [];
    }
  }

  lemma PaymentIsValid(m: Utxos, from: Hash)
    requires OutPoint(from, 0) in m && m[OutPoint(from, 0)] == UtxoEntry(10, [])
    ensures ValidFor(m, Payment(from))
  {
    hide Structural, InputsDiffer, IsCoinbase, InputSum, OutputSum, InputsPresent, ScriptsOk;
    PaymentIsStructural(from);
    PaymentSums(m, from);
  }

  lemma ParentCreates(m: Utxos, from: Hash)
    ensures var id := Txid(Payment(from)); var view := ApplyTx(m, Payment(from));
      OutPoint(id, 0) in view && view[OutPoint(id, 0)] == UtxoEntry(10, [])
  {
    hide Txid;
  }

  lemma OnlyVictim(e: MempoolEntry, request: Request)
    requires Exceeds(request.limits, [e], request.size) && e.feeRate <= request.rate
    ensures Victims(map[Id(e) := e], [e], request) == {Id(e)}
  {
    hide Id, Exceeds;
    var entries := map[Id(e) := e];
    var family := Family(entries, Id(e));
    assert LowestOf(entries) == Id(e);
    assert family == {Id(e)};
    assert entries - family == map[];
  }

  lemma OneListed(e: MempoolEntry, nextSeq: nat)
    requires EntryOk(Id(e), e) && e.seqNo < nextSeq
    ensures Listed(map[Id(e) := e], [e], nextSeq)
  {
    hide Id, EntryOk;
    var entries := map[Id(e) := e];
    assert entries.Keys == {Id(e)};
    assert |entries| == |entries.Keys| == 1;
  }

  lemma ParentListed(from: Hash)
    ensures Listed(map[Id(Parent(from)) := Parent(from)], [Parent(from)], 1)
    ensures Replayable(Funds(from), [Parent(from)])
  {
    hide Txid, Structural, InputsDiffer, IsCoinbase, SerializedSize, ValidFor;
    PaymentSize(from);
    PaymentIsStructural(from);
    OneListed(Parent(from), 1);
    PaymentIsValid(Funds(from), from);
    assert [Parent(from)][..0] == [];
  }

  lemma ChildEntry(view: Utxos, from: Hash)
    requires OutPoint(Txid(Payment(from)), 0) in view
    requires view[OutPoint(Txid(Payment(from)), 0)] == UtxoEntry(10, [])
    ensures EntryFor(view, Child(from), 1) == MempoolEntry(Child(from), 0, 60, 1)
  {
    hide Txid, SerializedSize, InputSum, OutputSum;
    PaymentSize(Txid(Payment(from)));
    PaymentSums(view, Txid(Payment(from)));
  }

  lemma ChildPasses(from: Hash)
    requires Txid(Payment(from)) != from && Txid(Child(from)) != Txid(Payment(from))
    ensures var e := Parent(from);
      && Passes(PoolState(map[Id(e) := e], [e], 1), Funds(from), Child(from))
      && EntryFor(PoolView(Funds(from), [e]), Child(from), 1) == MempoolEntry(Child(from), 0, 60, 1)
      && InputSum(PoolView(Funds(from), [e]), Child(from).inputs) == OutputSum(Child(from).outputs)
  {
    hide Txid, ValidFor, EntryFor, InputSum, OutputSum, OutPoints, ApplyTx;
    var e, m := Parent(from), Funds(from);
    assert [e][..0] == [];
    assert PoolView(m, [e]) == ApplyTx(m, Payment(from));
    ParentCreates(m, from);
    PaymentIsValid(PoolView(m, [e]), Id(e));
    PaymentSums(PoolView(m, [e]), Id(e));
    PaymentIsStructural(from);
    PaymentIsStructural(Id(e));
    ChildEntry(PoolView(m, [e]), from);
  }

  lemma ChildAloneFails(from: Hash, e: MempoolEntry)
    requires Txid(Payment(from)) != from && e.tx == Child(from)
    ensures !Replayable(Funds(from), [e])
  {
    hide Txid, Structural, InputsDiffer, ScriptsOk;
    assert [e][..0] == [];
    assert OutPointOf(Child(from).inputs[0]) !in Funds(from);
  }

  /** A full pool of one payment is offered a payment that spends it, at the same fee rate: the parent is
      evicted for the child, which is admitted and can no longer be replayed. */
  lemma OwnParentEvicted(from: Hash) returns (before: PoolState, after: PoolState)
    requires Txid(Payment(from)) != from && Txid(Child(from)) != Txid(Payment(from))
    ensures Listed(before.entries, before.order, before.nextSeq) && Replayable(Funds(from), before.order)
    ensures AcceptOutcome(MempoolLimits(1, 1000), before, after, Funds(from), Child(from),
                          Ok(AcceptedTx(Txid(Child(from)), 0, 60)))
    ensures !Replayable(Funds(from), after.order)
  {
    hide Txid, Replayable, Listed, EntryFor, InputSum, OutputSum, Victims, PoolView, Passes, SerializedSize, Payment;
    var e := Parent(from);
    var entry := MempoolEntry(Child(from), 0, 60, 1);
    before := PoolState(map[Id(e) := e], [e], 1);
    after := PoolState(map[Txid(Child(from)) := entry], [entry], 2);
    ParentListed(from);
    ChildPasses(from);
    PaymentSize(Id(e));
    OnlyVictim(e, Request(MempoolLimits(1, 1000), 60, 0));
    assert Keep([e], {Id(e)}) == [];
    assert before.entries - {Id(e)} == map[];
    ChildAloneFails(from, entry);
  }
}
