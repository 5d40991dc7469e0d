/** The legacy wire encoding of transactions and blocks: encoders, bounded parsers, and what makes the
    two inverse to each other. The loops that implement them are in Serializer. */
module Codec {
  import opened Types
  import opened Wire
  import opened Limits
  import Crypto

  // ---- lists of items ----

  function EncodeMany<T>(encode: T -> Bytes, xs: seq<T>): Bytes {
    if xs == [] then [] else encode(xs[0]) + EncodeMany(encode, xs[1..])
  }

  function ParseMany<T>(parse: Bytes -> Parsed<T>, s: Bytes, n: nat): (r: Parsed<seq<T>>)
    ensures r.Ok? ==> |r.value.0| == n
    decreases n
  {
    if n == 0 then Ok(([], s)) else
      var (x, rest) :- parse(s);
      var (xs, rest') :- ParseMany(parse, rest, n - 1);
      Ok(([x] + xs, rest'))
  }

  /** Parsing inverts encoding in front of any remaining bytes. */
  ghost predicate Inverts<T(!new)>(parse: Bytes -> Parsed<T>, encode: T -> Bytes, within: T -> bool) {
    forall x, rest | within(x) :: parse(encode(x) + rest) == Ok((x, rest))
  }

  /** Whatever parses is within the limits and is the encoding of what it parses to. */
  ghost predicate Canonical<T(!new)>(parse: Bytes -> Parsed<T>, encode: T -> Bytes, within: T -> bool) {
    forall s | parse(s).Ok? :: s == encode(parse(s).value.0) + parse(s).value.1 && within(parse(s).value.0)
  }

  lemma {:induction false} ParseManyRoundTrip<T(!new)>(
      parse: Bytes -> Parsed<T>, encode: T -> Bytes, within: T -> bool, xs: seq<T>, rest: Bytes)
    requires Inverts(parse, encode, within)
    requires forall x | x in xs :: within(x)
    ensures ParseMany(parse, EncodeMany(encode, xs) + rest, |xs|) == Ok((xs, rest))
  {
    if xs == [] {
      assert [] + rest == rest;
    } else {
      assert within(xs[0]);
      ParseManyRoundTrip(parse, encode, within, xs[1..], rest);
      assert EncodeMany(encode, xs) + rest == encode(xs[0]) + (EncodeMany(encode, xs[1..]) + rest);
      assert [xs[0]] + xs[1..] == xs;
    }
  }

  lemma {:induction false} ParseManyCanonical<T(!new)>(
      parse: Bytes -> Parsed<T>, encode: T -> Bytes, within: T -> bool, s: Bytes, n: nat)
    requires Canonical(parse, encode, within)
    ensures var r := ParseMany(parse, s, n);
      r.Ok? ==> s == EncodeMany(encode, r.value.0) + r.value.1 && forall x | x in r.value.0 :: within(x)
    decreases n
  {
    var r := ParseMany(parse, s, n);
    if n > 0 && r.Ok? {
      var (x, rest) := parse(s).value;
      ParseManyCanonical(parse, encode, within, rest, n - 1);
      var (xs, rest') := ParseMany(parse, rest, n - 1).value;
      assert ([x] + xs)[1..] == xs;
      assert encode(x) + (EncodeMany(encode, xs) + rest') == (encode(x) + EncodeMany(encode, xs)) + rest';
    }
  }

  lemma {:induction false} EncodeManySnoc<T>(encode: T -> Bytes, xs: seq<T>, x: T)
    ensures EncodeMany(encode, xs + [x]) == EncodeMany(encode, xs) + encode(x)
  {
    if xs == [] {
      assert ([] + [x])[1..] == [];
    } else {
      assert (xs + [x])[1..] == xs[1..] + [x];
      EncodeManySnoc(encode, xs[1..], x);
    }
  }

  // ---- inputs and outputs ----

  function EncodeScript(script: Bytes): Bytes {
    CompactSize(|script|) + script
  }

  function EncodeInput(input: TxInput): Bytes {
    input.previousOutput + (EncodeU32(input.index) + (EncodeScript(input.scriptSig) + EncodeU32(input.sequence)))
  }

  function EncodeOutput(output: TxOutput): Bytes {
    EncodeU64(output.value) + EncodeScript(output.scriptPubkey)
  }

  function ParseScript(s: Bytes, context: string): Parsed<Bytes> {
    var (length, rest) :- ParseLimitedLength(s, context, MAX_SCRIPT_SIZE);
    ParseBytes(rest, length, context)
  }

  function ParseInput(s: Bytes): Parsed<TxInput> {
    var (previousOutput, s1) :- ParseHash(s, "previous output hash");
    var (index, s2) :- ParseU32(s1, "previous output index");
    var (scriptSig, s3) :- ParseScript(s2, "scriptSig");
    var (sequence, s4) :- ParseU32(s3, "input sequence");
    Ok((TxInput(previousOutput, index, scriptSig, sequence), s4))
  }

  function ParseOutput(s: Bytes): Parsed<TxOutput> {
    var (value, s1) :- ParseU64(s, "output value");
    var (scriptPubkey, s2) :- ParseScript(s1, "scriptPubKey");
    Ok((TxOutput(value, scriptPubkey), s2))
  }

  predicate InputWithinLimits(input: TxInput) { |input.scriptSig| <= MAX_SCRIPT_SIZE }

  predicate OutputWithinLimits(output: TxOutput) { |output.scriptPubkey| <= MAX_SCRIPT_SIZE }

  lemma FieldSplit(a: Bytes, b: Bytes)
    ensures (a + b)[..|a|] == a && (a + b)[|a|..] == b
  {
  }

  lemma ScriptRoundTrip(script: Bytes, rest: Bytes, context: string)
    requires |script| <= MAX_SCRIPT_SIZE
    ensures ParseScript(EncodeScript(script) + rest, context) == Ok((script, rest))
  {
    assert EncodeScript(script) + rest == CompactSize(|script|) + (script + rest);
    CompactSizeRoundTrip(|script|, script + rest, context);
    FieldSplit(script, rest);
  }

  lemma ScriptCanonical(s: Bytes, context: string)
    ensures var r := ParseScript(s, context);
      r.Ok? ==> s == EncodeScript(r.value.0) + r.value.1 && |r.value.0| <= MAX_SCRIPT_SIZE
  {
    CompactSizeCanonical(s, context);
    var r := ParseScript(s, context);
    if r.Ok? {
      var (length, rest) := ParseLimitedLength(s, context, MAX_SCRIPT_SIZE).value;
      assert rest == r.value.0 + r.value.1;
      assert CompactSize(length) + rest == (CompactSize(length) + r.value.0) + r.value.1;
    }
  }

  lemma InputInverts()
    ensures Inverts(ParseInput, EncodeInput, InputWithinLimits)
  {
    forall x: TxInput, rest: Bytes | InputWithinLimits(x)
      ensures ParseInput(EncodeInput(x) + rest) == Ok((x, rest))
    {
      var s4 := EncodeU32(x.sequence) + rest;
      var s3 := EncodeScript(x.scriptSig) + s4;
      var s2 := EncodeU32(x.index) + s3;
      assert EncodeInput(x) + rest == x.previousOutput + s2;
      FieldSplit(x.previousOutput, s2);
      FieldSplit(EncodeU32(x.index), s3);
      ScriptRoundTrip(x.scriptSig, s4, "scriptSig");
      FieldSplit(EncodeU32(x.sequence), rest);
      WordsRoundTrip(x.index, 0, 0);
      WordsRoundTrip(x.sequence, 0, 0);
    }
  }

  lemma ParsedInputIsCanonical(s: Bytes)
    requires ParseInput(s).Ok?
    ensures s == EncodeInput(ParseInput(s).value.0) + ParseInput(s).value.1
    ensures InputWithinLimits(ParseInput(s).value.0)
  {
    var (x, rest) := ParseInput(s).value;
    var s1 := s[32..];
    var s2 := s1[4..];
    ScriptCanonical(s2, "scriptSig");
    var s3 := ParseScript(s2, "scriptSig").value.1;
    WordsCanonical(s1[..4]);
    WordsCanonical(s3[..4]);
    FourFields(s, x.previousOutput, EncodeU32(x.index), EncodeScript(x.scriptSig), EncodeU32(x.sequence),
               s1, s2, s3, rest);
  }

  /** Reassembles a string cut into four fields and a rest. */
  lemma FourFields(s: Bytes, a: Bytes, b: Bytes, c: Bytes, d: Bytes, s1: Bytes, s2: Bytes, s3: Bytes, rest: Bytes)
    requires s == a + s1 && s1 == b + s2 && s2 == c + s3 && s3 == d + rest
    ensures s == a + (b + (c + d)) + rest
  {
  }

  lemma InputCanonical()
    ensures Canonical(ParseInput, EncodeInput, InputWithinLimits)
  {
    forall s: Bytes | ParseInput(s).Ok?
      ensures s == EncodeInput(ParseInput(s).value.0) + ParseInput(s).value.1
      ensures InputWithinLimits(ParseInput(s).value.0)
    {
      ParsedInputIsCanonical(s);
    }
  }

  lemma OutputInverts()
    ensures Inverts(ParseOutput, EncodeOutput, OutputWithinLimits)
  {
    forall x: TxOutput, rest: Bytes | OutputWithinLimits(x)
      ensures ParseOutput(EncodeOutput(x) + rest) == Ok((x, rest))
    {
      var s1 := EncodeScript(x.scriptPubkey) + rest;
      assert EncodeOutput(x) + rest == EncodeU64(x.value) + s1;
      FieldSplit(EncodeU64(x.value), s1);
      WordsRoundTrip(0, x.value, 0);
      ScriptRoundTrip(x.scriptPubkey, rest, "scriptPubKey");
    }
  }

  lemma ParsedOutputIsCanonical(s: Bytes)
    requires ParseOutput(s).Ok?
    ensures s == EncodeOutput(ParseOutput(s).value.0) + ParseOutput(s).value.1
    ensures OutputWithinLimits(ParseOutput(s).value.0)
  {
    var (x, rest) := ParseOutput(s).value;
    ScriptCanonical(s[8..], "scriptPubKey");
    WordsCanonical(s[..8]);
    TwoFields(s, EncodeU64(x.value), EncodeScript(x.scriptPubkey), s[8..], rest);
  }

  lemma TwoFields(s: Bytes, a: Bytes, b: Bytes, s1: Bytes, rest: Bytes)
    requires s == a + s1 && s1 == b + rest
    ensures s == a + b + rest
  {
  }

  lemma OutputCanonical()
    ensures Canonical(ParseOutput, EncodeOutput, OutputWithinLimits)
  {
    forall s: Bytes | ParseOutput(s).Ok?
      ensures s == EncodeOutput(ParseOutput(s).value.0) + ParseOutput(s).value.1
      ensures OutputWithinLimits(ParseOutput(s).value.0)
    {
      ParsedOutputIsCanonical(s);
    }
  }

  // ---- transactions ----

  function EncodeInputs(inputs: seq<TxInput>): Bytes {
    CompactSize(|inputs|) + EncodeMany(EncodeInput, inputs)
  }

  function EncodeOutputs(outputs: seq<TxOutput>): Bytes {
    CompactSize(|outputs|) + EncodeMany(EncodeOutput, outputs)
  }

  function EncodeTransaction(tx: Transaction): Bytes {
    EncodeI32(tx.version) + (EncodeInputs(tx.inputs) + (EncodeOutputs(tx.outputs) + EncodeU32(tx.lockTime)))
  }

  function Txid(tx: Transaction): Hash {
    Crypto.Sha256d(EncodeTransaction(tx))
  }

  // ---- where the fields are ----

  lemma {:induction false} EncodeManyConcat<T>(encode: T -> Bytes, xs: seq<T>, ys: seq<T>)
    ensures EncodeMany(encode, xs + ys) == EncodeMany(encode, xs) + EncodeMany(encode, ys)
  {
    if xs == [] {
      assert [] + ys == ys;
    } else {
      assert (xs + ys)[1..] == xs[1..] + ys;
      EncodeManyConcat(encode, xs[1..], ys);
      assert EncodeMany(encode, xs + ys) == encode(xs[0]) + (EncodeMany(encode, xs[1..]) + EncodeMany(encode, ys));
    }
  }

  /** Item i of a list is written right after the items before it. */
  lemma ItemAt<T>(encode: T -> Bytes, xs: seq<T>, i: nat)
    requires i < |xs|
    ensures EncodeMany(encode, xs) == EncodeMany(encode, xs[..i]) + encode(xs[i]) + EncodeMany(encode, xs[i + 1..])
  {
    EncodeManyConcat(encode, xs[..i], xs[i..]);
    assert xs == xs[..i] + xs[i..] && xs[i..][1..] == xs[i + 1..];
  }

  lemma CutFive(s: Bytes, a: Bytes, b: Bytes, c: Bytes, d: Bytes, e: Bytes)
    requires s == a + (b + ((c + d) + e))
    ensures |s| == |a| + |b| + |c| + |d| + |e|
    ensures s[..|a|] == a && s[|a|..|a| + |b|] == b
    ensures s[|a| + |b|..|a| + |b| + |c|] == c && s[|a| + |b| + |c|..|a| + |b| + |c| + |d|] == d
    ensures s[|a| + |b| + |c| + |d|..] == e
  {
  }

  lemma InputLayout(input: TxInput)
    ensures var s, n := EncodeInput(input), CompactSizeLength(|input.scriptSig|);
      && |s| == 36 + n + |input.scriptSig| + 4
      && s[..32] == input.previousOutput && FromLe(s[32..36]) == input.index
      && s[36..36 + n] == CompactSize(|input.scriptSig|)
      && s[36 + n..36 + n + |input.scriptSig|] == input.scriptSig
      && FromLe(s[36 + n + |input.scriptSig|..]) == input.sequence
  {
    hide FromLe, CompactSize, EncodeU32;
    WordValues(input.index, 0, 0);
    WordValues(input.sequence, 0, 0);
    CutFive(EncodeInput(input), input.previousOutput, EncodeU32(input.index), CompactSize(|input.scriptSig|),
            input.scriptSig, EncodeU32(input.sequence));
  }

  lemma OutputLayout(output: TxOutput)
    ensures var s, n := EncodeOutput(output), CompactSizeLength(|output.scriptPubkey|);
      && |s| == 8 + n + |output.scriptPubkey|
      && FromLe(s[..8]) == output.value
      && s[8..8 + n] == CompactSize(|output.scriptPubkey|) && s[8 + n..] == output.scriptPubkey
  {
    hide FromLe;
    WordValues(0, output.value, 0);
    var s := EncodeOutput(output);
    assert s == EncodeU64(output.value) + CompactSize(|output.scriptPubkey|) + output.scriptPubkey;
    assert s[..8] == EncodeU64(output.value);
  }

  lemma Regroup(a: Bytes, b: Bytes, c: Bytes, d: Bytes, e: Bytes, f: Bytes)
    ensures a + ((b + c) + ((d + e) + f)) == a + b + c + d + e + f
  {
  }

  /** Version, count and list of the inputs, count and list of the outputs, lock time; the id is the hash
      of this. */
  lemma TransactionLayout(tx: Transaction) returns (version: Bytes, lockTime: Bytes)
    ensures |version| == 4 && FromLe(version) == tx.version % 0x1_0000_0000
    ensures |lockTime| == 4 && FromLe(lockTime) == tx.lockTime
    ensures Txid(tx) == Crypto.Sha256d(
      version + CompactSize(|tx.inputs|) + EncodeMany(EncodeInput, tx.inputs)
      + CompactSize(|tx.outputs|) + EncodeMany(EncodeOutput, tx.outputs) + lockTime)
  {
    hide FromLe, EncodeMany, CompactSize, EncodeI32, EncodeU32;
    WordValues(tx.lockTime, 0, tx.version);
    version, lockTime := EncodeI32(tx.version), EncodeU32(tx.lockTime);
    Regroup(version, CompactSize(|tx.inputs|), EncodeMany(EncodeInput, tx.inputs),
            CompactSize(|tx.outputs|), EncodeMany(EncodeOutput, tx.outputs), lockTime);
  }

  /** Different transactions within the limits with one id are a collision of the hash. */
  lemma TxidBinds(x: Transaction, y: Transaction)
    requires WithinLimits(x) && WithinLimits(y) && x != y && Txid(x) == Txid(y)
    ensures EncodeTransaction(x) != EncodeTransaction(y)
    ensures Crypto.Sha256d(EncodeTransaction(x)) == Crypto.Sha256d(EncodeTransaction(y))
  {
    if EncodeTransaction(x) == EncodeTransaction(y) {
      TransactionPrefixFree(x, y, [], []);
    }
  }

  // ---- parsing ----

  function ParseList<T>(parse: Bytes -> Parsed<T>, s: Bytes, context: string, limit: nat): Parsed<seq<T>> {
    var (count, rest) :- ParseLimitedLength(s, context, limit);
    ParseMany(parse, rest, count)
  }

  function ParseTransaction(s: Bytes): Parsed<Transaction> {
    var (version, s1) :- ParseI32(s, "transaction version");
    var (inputs, s2) :- ParseList(ParseInput, s1, "transaction input count", MAX_TRANSACTION_INPUTS);
    var (outputs, s3) :- ParseList(ParseOutput, s2, "transaction output count", MAX_TRANSACTION_OUTPUTS);
    var (lockTime, s4) :- ParseU32(s3, "transaction locktime");
    Ok((Transaction(version, inputs, outputs, lockTime), s4))
  }

  predicate WithinLimits(tx: Transaction) {
    && |tx.inputs| <= MAX_TRANSACTION_INPUTS
    && |tx.outputs| <= MAX_TRANSACTION_OUTPUTS
    && (forall x | x in tx.inputs :: InputWithinLimits(x))
    && (forall x | x in tx.outputs :: OutputWithinLimits(x))
  }

  lemma ListRoundTrip<T(!new)>(parse: Bytes -> Parsed<T>, encode: T -> Bytes, within: T -> bool,
                               xs: seq<T>, rest: Bytes, context: string, limit: u32)
    requires Inverts(parse, encode, within)
    requires |xs| <= limit && forall x | x in xs :: within(x)
    ensures ParseList(parse, CompactSize(|xs|) + EncodeMany(encode, xs) + rest, context, limit) == Ok((xs, rest))
  {
    var body := EncodeMany(encode, xs) + rest;
    assert CompactSize(|xs|) + EncodeMany(encode, xs) + rest == CompactSize(|xs|) + body;
    CompactSizeRoundTrip(|xs|, body, context);
    ParseManyRoundTrip(parse, encode, within, xs, rest);
  }

  lemma ListCanonical<T(!new)>(parse: Bytes -> Parsed<T>, encode: T -> Bytes, within: T -> bool,
                               s: Bytes, context: string, limit: nat)
    requires Canonical(parse, encode, within)
    ensures var r := ParseList(parse, s, context, limit);
      r.Ok? ==>
        && s == CompactSize(|r.value.0|) + EncodeMany(encode, r.value.0) + r.value.1
        && |r.value.0| <= limit
        && forall x | x in r.value.0 :: within(x)
  {
    var r := ParseList(parse, s, context, limit);
    if r.Ok? {
      CompactSizeCanonical(s, context);
      var (count, rest) := ParseLimitedLength(s, context, limit).value;
      ParseManyCanonical(parse, encode, within, rest, count);
      assert s == CompactSize(count) + (EncodeMany(encode, r.value.0) + r.value.1);
    }
  }

  lemma TransactionInverts()
    ensures Inverts(ParseTransaction, EncodeTransaction, WithinLimits)
  {
    forall x: Transaction, rest: Bytes | WithinLimits(x)
      ensures ParseTransaction(EncodeTransaction(x) + rest) == Ok((x, rest))
    {
      var s3 := EncodeU32(x.lockTime) + rest;
      var s2 := EncodeOutputs(x.outputs) + s3;
      var s1 := EncodeInputs(x.inputs) + s2;
      assert EncodeTransaction(x) + rest == EncodeI32(x.version) + s1;
      FieldSplit(EncodeI32(x.version), s1);
      InputInverts();
      ListRoundTrip(ParseInput, EncodeInput, InputWithinLimits, x.inputs, s2,
                    "transaction input count", MAX_TRANSACTION_INPUTS);
      OutputInverts();
      ListRoundTrip(ParseOutput, EncodeOutput, OutputWithinLimits, x.outputs, s3,
                    "transaction output count", MAX_TRANSACTION_OUTPUTS);
      FieldSplit(EncodeU32(x.lockTime), rest);
      WordsRoundTrip(x.lockTime, 0, x.version);
    }
  }

  lemma ParsedTransactionIsCanonical(s: Bytes)
    requires ParseTransaction(s).Ok?
    ensures s == EncodeTransaction(ParseTransaction(s).value.0) + ParseTransaction(s).value.1
    ensures WithinLimits(ParseTransaction(s).value.0)
  {
    hide FromLe, LeBytes, CompactSize, ParseInput, ParseOutput, EncodeInput, EncodeOutput;
    var (x, rest) := ParseTransaction(s).value;
    var s1 := s[4..];
    var (inputs, s2) := ParseList(ParseInput, s1, "transaction input count", MAX_TRANSACTION_INPUTS).value;
    var (outputs, s3) := ParseList(ParseOutput, s2, "transaction output count", MAX_TRANSACTION_OUTPUTS).value;
    InputCanonical();
    ListCanonical(ParseInput, EncodeInput, InputWithinLimits, s1, "transaction input count", MAX_TRANSACTION_INPUTS);
    OutputCanonical();
    ListCanonical(ParseOutput, EncodeOutput, OutputWithinLimits, s2,
                  "transaction output count", MAX_TRANSACTION_OUTPUTS);
    WordsCanonical(s[..4]);
    WordsCanonical(s3[..4]);
    FourFields(s, EncodeI32(x.version), EncodeInputs(inputs), EncodeOutputs(outputs), EncodeU32(x.lockTime),
               s1, s2, s3, rest);
  }

  lemma TransactionCanonical()
    ensures Canonical(ParseTransaction, EncodeTransaction, WithinLimits)
  {
    forall s: Bytes | ParseTransaction(s).Ok?
      ensures s == EncodeTransaction(ParseTransaction(s).value.0) + ParseTransaction(s).value.1
      ensures WithinLimits(ParseTransaction(s).value.0)
    {
      ParsedTransactionIsCanonical(s);
    }
  }

  /** Decoding one complete transaction. */
  function DecodeTransaction(bytes: Bytes): Result<Transaction, DecodeError> {
    if |bytes| > MAX_TRANSACTION_SERIALIZED_SIZE then
      Err(LimitExceeded("transaction size", |bytes|, MAX_TRANSACTION_SERIALIZED_SIZE))
    else
      var (tx, rest) :- ParseTransaction(bytes);
      if rest != [] then Err(TrailingBytes("transaction", |rest|)) else Ok(tx)
  }

  /** The codec of transactions is exact: bytes decode to x if and only if they are the encoding of x
      and x is within the limits. */
  lemma TransactionCodecExact(bytes: Bytes, x: Transaction)
    ensures DecodeTransaction(bytes) == Ok(x) <==>
      bytes == EncodeTransaction(x) && WithinLimits(x) && |bytes| <= MAX_TRANSACTION_SERIALIZED_SIZE
  {
    TransactionInverts();
    TransactionCanonical();
    if WithinLimits(x) {
      assert ParseTransaction(EncodeTransaction(x) + []) == Ok((x, []));
      assert EncodeTransaction(x) + [] == EncodeTransaction(x);
    }
    if DecodeTransaction(bytes) == Ok(x) {
      assert bytes == EncodeTransaction(x) + [];
    }
  }

  /** No encoding of a transaction within the limits is a proper prefix of another. */
  lemma TransactionPrefixFree(x: Transaction, y: Transaction, s: Bytes, t: Bytes)
    requires WithinLimits(x) && WithinLimits(y)
    requires EncodeTransaction(x) + s == EncodeTransaction(y) + t
    ensures x == y && s == t
  {
    TransactionInverts();
    assert ParseTransaction(EncodeTransaction(x) + s) == Ok((x, s));
    assert ParseTransaction(EncodeTransaction(y) + t) == Ok((y, t));
  }

  // ---- sizes ----

  function SumOver<T>(size: T -> nat, xs: seq<T>): nat {
    if xs == [] then 0 else size(xs[0]) + SumOver(size, xs[1..])
  }

  function InputSize(input: TxInput): nat {
    32 + 4 + CompactSizeLength(|input.scriptSig|) + |input.scriptSig| + 4
  }

  function OutputSize(output: TxOutput): nat {
    8 + CompactSizeLength(|output.scriptPubkey|) + |output.scriptPubkey|
  }

  function SerializedSize(tx: Transaction): nat {
    4 + CompactSizeLength(|tx.inputs|) + SumOver(InputSize, tx.inputs)
    + CompactSizeLength(|tx.outputs|) + SumOver(OutputSize, tx.outputs) + 4
  }

  lemma {:induction false} EncodeManyLength<T(!new)>(encode: T -> Bytes, size: T -> nat, xs: seq<T>)
    requires forall x :: |encode(x)| == size(x)
    ensures |EncodeMany(encode, xs)| == SumOver(size, xs)
  {
    if xs != [] {
      EncodeManyLength(encode, size, xs[1..]);
    }
  }

  lemma SerializedSizeIsExact(tx: Transaction)
    ensures SerializedSize(tx) == |EncodeTransaction(tx)|
  {
    EncodeManyLength(EncodeInput, InputSize, tx.inputs);
    EncodeManyLength(EncodeOutput, OutputSize, tx.outputs);
  }

  /** A transaction has fewer outputs than bytes, so no output index of a size-checked one wraps. */
  lemma {:induction false} OutputCountBelowSize(outputs: seq<TxOutput>)
    ensures 9 * |outputs| <= SumOver(OutputSize, outputs)
  {
    if outputs != [] {
      OutputCountBelowSize(outputs[1..]);
    }
  }

  // ---- blocks ----

  function EncodeHeader(header: BlockHeader): (s: Bytes)
    ensures |s| == 80
  {
    EncodeI32(header.version) + (header.prevBlockhash + (header.merkleRoot +
    (EncodeU32(header.time) + (EncodeU32(header.bits) + EncodeU32(header.nonce)))))
  }

  function BlockHash(block: Block): Hash {
    Crypto.Sha256d(EncodeHeader(block.header))
  }

  function EncodeBlock(block: Block): Bytes {
    EncodeHeader(block.header) + (CompactSize(|block.transactions|) + EncodeMany(EncodeTransaction, block.transactions))
  }

  function BlockSize(block: Block): nat {
    80 + CompactSizeLength(|block.transactions|) + SumOver(SerializedSize, block.transactions)
  }

  lemma BlockSizeIsExact(block: Block)
    ensures BlockSize(block) == |EncodeBlock(block)|
  {
    forall tx { SerializedSizeIsExact(tx); }
    EncodeManyLength(EncodeTransaction, SerializedSize, block.transactions);
  }

  lemma CutHeader(s: Bytes, a: Bytes, b: Bytes, c: Bytes, d: Bytes, e: Bytes, f: Bytes)
    requires |a| == |d| == |e| == |f| == 4 && |b| == |c| == 32
    requires s == a + (b + (c + (d + (e + f))))
    ensures |s| == 80 && s[..4] == a && s[4..36] == b && s[36..68] == c
    ensures s[68..72] == d && s[72..76] == e && s[76..] == f
  {
  }

  /** A block is known by the hash of 80 bytes: version, parent, Merkle root, time, bits and nonce. */
  lemma HeaderLayout(block: Block) returns (s: Bytes)
    ensures BlockHash(block) == Crypto.Sha256d(s) && |s| == 80
    ensures FromLe(s[..4]) == block.header.version % 0x1_0000_0000
    ensures s[4..36] == block.header.prevBlockhash && s[36..68] == block.header.merkleRoot
    ensures FromLe(s[68..72]) == block.header.time && FromLe(s[72..76]) == block.header.bits
    ensures FromLe(s[76..]) == block.header.nonce
  {
    hide FromLe;
    var header := block.header;
    WordValues(header.time, 0, header.version);
    WordValues(header.bits, 0, 0);
    WordValues(header.nonce, 0, 0);
    s := EncodeHeader(header);
    hide EncodeI32, EncodeU32;
    CutHeader(s, EncodeI32(header.version), header.prevBlockhash, header.merkleRoot, EncodeU32(header.time),
              EncodeU32(header.bits), EncodeU32(header.nonce));
  }

  /** Blocks with one hash and different headers are a collision of the hash. */
  lemma BlockHashBinds(x: Block, y: Block)
    requires x.header != y.header && BlockHash(x) == BlockHash(y)
    ensures EncodeHeader(x.header) != EncodeHeader(y.header)
    ensures Crypto.Sha256d(EncodeHeader(x.header)) == Crypto.Sha256d(EncodeHeader(y.header))
  {
    HeaderCodecExact(EncodeHeader(x.header), x.header);
    HeaderCodecExact(EncodeHeader(x.header), y.header);
  }

  function ParseHeader(s: Bytes): Parsed<BlockHeader> {
    var (version, s1) :- ParseI32(s, "block version");
    var (prevBlockhash, s2) :- ParseHash(s1, "previous block hash");
    var (merkleRoot, s3) :- ParseHash(s2, "merkle root");
    var (time, s4) :- ParseU32(s3, "block time");
    var (bits, s5) :- ParseU32(s4, "block bits");
    var (nonce, s6) :- ParseU32(s5, "block nonce");
    Ok((BlockHeader(version, prevBlockhash, merkleRoot, time, bits, nonce), s6))
  }

  lemma HeaderRoundTrip(header: BlockHeader, rest: Bytes)
    ensures ParseHeader(EncodeHeader(header) + rest) == Ok((header, rest))
  {
    var s6 := EncodeU32(header.nonce) + rest;
    var s5 := EncodeU32(header.bits) + s6;
    var s4 := EncodeU32(header.time) + s5;
    var s3 := header.merkleRoot + s4;
    var s2 := header.prevBlockhash + s3;
    assert EncodeHeader(header) + rest == EncodeI32(header.version) + s2;
    FieldSplit(EncodeI32(header.version), s2);
    FieldSplit(header.prevBlockhash, s3);
    FieldSplit(header.merkleRoot, s4);
    FieldSplit(EncodeU32(header.time), s5);
    FieldSplit(EncodeU32(header.bits), s6);
    FieldSplit(EncodeU32(header.nonce), rest);
    WordsRoundTrip(header.time, 0, header.version);
    WordsRoundTrip(header.bits, 0, 0);
    WordsRoundTrip(header.nonce, 0, 0);
  }

  lemma HeaderCanonical(s: Bytes)
    ensures ParseHeader(s).Ok? <==> |s| >= 80
    ensures |s| >= 80 ==> s == EncodeHeader(ParseHeader(s).value.0) + ParseHeader(s).value.1
  {
    if |s| >= 80 {
      var s1 := s[4..];
      var s2 := s1[32..];
      var s3 := s2[32..];
      var s4 := s3[4..];
      var s5 := s4[4..];
      WordsCanonical(s[..4]);
      WordsCanonical(s3[..4]);
      WordsCanonical(s4[..4]);
      WordsCanonical(s5[..4]);
      var (x, rest) := ParseHeader(s).value;
      assert s5 == EncodeU32(x.nonce) + rest;
      assert s4 == EncodeU32(x.bits) + s5;
      assert s3 == EncodeU32(x.time) + s4;
      assert s2 == x.merkleRoot + s3;
      assert s1 == x.prevBlockhash + s2;
      assert s == EncodeI32(x.version) + s1;
      assert s == EncodeHeader(x) + rest;
    }
  }

  function DecodeHeader(bytes: Bytes): Result<BlockHeader, DecodeError> {
    var (header, rest) :- ParseHeader(bytes);
    if rest != [] then Err(TrailingBytes("block header", |rest|)) else Ok(header)
  }

  /** Every 80-byte string is the encoding of exactly one header, and nothing else decodes. */
  lemma HeaderCodecExact(bytes: Bytes, header: BlockHeader)
    ensures DecodeHeader(bytes) == Ok(header) <==> bytes == EncodeHeader(header)
    ensures DecodeHeader(bytes).Ok? <==> |bytes| == 80
  {
    HeaderCanonical(bytes);
    HeaderRoundTrip(header, []);
    assert EncodeHeader(header) + [] == EncodeHeader(header);
    if |bytes| >= 80 {
      var (x, rest) := ParseHeader(bytes).value;
      assert rest == [] ==> bytes == EncodeHeader(x);
    }
  }

  function ParseBlock(s: Bytes): Parsed<Block> {
    var (header, s1) :- ParseHeader(s);
    var (transactions, s2) :- ParseList(ParseTransaction, s1, "block transaction count", MAX_TRANSACTIONS_PER_BLOCK);
    Ok((Block(header, transactions), s2))
  }

  function DecodeBlock(bytes: Bytes): Result<Block, DecodeError> {
    if |bytes| > MAX_BLOCK_SERIALIZED_SIZE then
      Err(LimitExceeded("block size", |bytes|, MAX_BLOCK_SERIALIZED_SIZE))
    else
      var (block, rest) :- ParseBlock(bytes);
      if rest != [] then Err(TrailingBytes("block", |rest|)) else Ok(block)
  }

  predicate BlockWithinLimits(block: Block) {
    |block.transactions| <= MAX_TRANSACTIONS_PER_BLOCK && forall tx | tx in block.transactions :: WithinLimits(tx)
  }

  lemma BlockInverts(block: Block, rest: Bytes)
    requires BlockWithinLimits(block)
    ensures ParseBlock(EncodeBlock(block) + rest) == Ok((block, rest))
  {
    var s1 := CompactSize(|block.transactions|) + EncodeMany(EncodeTransaction, block.transactions) + rest;
    assert EncodeBlock(block) + rest == EncodeHeader(block.header) + s1;
    HeaderRoundTrip(block.header, s1);
    TransactionInverts();
    ListRoundTrip(ParseTransaction, EncodeTransaction, WithinLimits, block.transactions, rest,
                  "block transaction count", MAX_TRANSACTIONS_PER_BLOCK);
  }

  lemma BlockCanonical(s: Bytes)
    ensures var r := ParseBlock(s);
      r.Ok? ==> s == EncodeBlock(r.value.0) + r.value.1 && BlockWithinLimits(r.value.0)
  {
    HeaderCanonical(s);
    var r := ParseBlock(s);
    if r.Ok? {
      var (x, rest) := r.value;
      var s1 := ParseHeader(s).value.1;
      TransactionCanonical();
      ListCanonical(ParseTransaction, EncodeTransaction, WithinLimits, s1,
                    "block transaction count", MAX_TRANSACTIONS_PER_BLOCK);
      assert s == EncodeHeader(x.header) +
        (CompactSize(|x.transactions|) + EncodeMany(EncodeTransaction, x.transactions) + rest);
    }
  }

  /** The codec of blocks is exact in the same sense. */
  lemma BlockCodecExact(bytes: Bytes, x: Block)
    ensures DecodeBlock(bytes) == Ok(x) <==>
      bytes == EncodeBlock(x) && BlockWithinLimits(x) && |bytes| <= MAX_BLOCK_SERIALIZED_SIZE
  {
    BlockCanonical(bytes);
    if BlockWithinLimits(x) {
      BlockInverts(x, []);
      assert EncodeBlock(x) + [] == EncodeBlock(x);
    }
    if DecodeBlock(bytes) == Ok(x) {
      assert bytes == EncodeBlock(x) + [];
    }
  }

  /** Distinct blocks within the limits have encodings neither of which is a prefix of the other. */
  lemma BlockPrefixFree(x: Block, y: Block, s: Bytes, t: Bytes)
    requires BlockWithinLimits(x) && BlockWithinLimits(y)
    requires EncodeBlock(x) + s == EncodeBlock(y) + t
    ensures x == y && s == t
  {
    BlockInverts(x, s);
    BlockInverts(y, t);
  }
}
