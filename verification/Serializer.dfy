/** The serializers and decoders of the program, which build vectors in loops, proved against
    the encoders and parsers of Codec. */
module Serializer {
  import opened Types
  import opened Wire
  import opened Limits
  import opened Codec

  lemma NothingAppended<T>(encode: T -> Bytes, head: Bytes, xs: seq<T>)
    ensures head + EncodeMany(encode, xs[..0]) == head
    ensures xs[..|xs|] == xs
  {
  }

  method AppendInput(out: Bytes, input: TxInput) returns (grown: Bytes)
    ensures grown == out + EncodeInput(input)
  {
    grown := out + input.previousOutput;
    grown := grown + EncodeU32(input.index);
    grown := grown + CompactSize(|input.scriptSig|);
    grown := grown + input.scriptSig;
    grown := grown + EncodeU32(input.sequence);
  }

  method AppendOutput(out: Bytes, output: TxOutput) returns (grown: Bytes)
    ensures grown == out + EncodeOutput(output)
  {
    grown := out + EncodeU64(output.value);
    grown := grown + CompactSize(|output.scriptPubkey|);
    grown := grown + output.scriptPubkey;
  }

  /** One more item written: the buffer holds the encodings of one more item of the list. */
  lemma ItemAppended<T>(encode: T -> Bytes, head: Bytes, xs: seq<T>, i: nat)
    requires i < |xs|
    ensures head + EncodeMany(encode, xs[..i]) + encode(xs[i]) == head + EncodeMany(encode, xs[..i + 1])
  {
    EncodeManySnoc(encode, xs[..i], xs[i]);
    assert xs[..i + 1] == xs[..i] + [xs[i]];
    assert head + EncodeMany(encode, xs[..i]) + encode(xs[i]) == head + (EncodeMany(encode, xs[..i]) + encode(xs[i]));
  }

  method AppendInputs(out: Bytes, inputs: seq<TxInput>) returns (grown: Bytes)
    ensures grown == out + EncodeInputs(inputs)
  {
    hide EncodeMany, EncodeInput;
    ghost var head := out + CompactSize(|inputs|);
    grown := out + CompactSize(|inputs|);
    NothingAppended(EncodeInput, head, inputs);
    for i := 0 to |inputs|
      invariant grown == head + EncodeMany(EncodeInput, inputs[..i])
    {
      grown := AppendInput(grown, inputs[i]);
      ItemAppended(EncodeInput, head, inputs, i);
    }
  }

  method AppendOutputs(out: Bytes, outputs: seq<TxOutput>) returns (grown: Bytes)
    ensures grown == out + EncodeOutputs(outputs)
  {
    hide EncodeMany, EncodeOutput;
    ghost var head := out + CompactSize(|outputs|);
    grown := out + CompactSize(|outputs|);
    NothingAppended(EncodeOutput, head, outputs);
    for i := 0 to |outputs|
      invariant grown == head + EncodeMany(EncodeOutput, outputs[..i])
    {
      grown := AppendOutput(grown, outputs[i]);
      ItemAppended(EncodeOutput, head, outputs, i);
    }
  }

  method SerializeTransaction(tx: Transaction) returns (out: Bytes)
    ensures out == EncodeTransaction(tx)
  {
    hide EncodeI32, EncodeU32, EncodeInputs, EncodeOutputs;
    out := EncodeI32(tx.version);
    out := AppendInputs(out, tx.inputs);
    out := AppendOutputs(out, tx.outputs);
    out := out + EncodeU32(tx.lockTime);
  }

  method SerializeHeader(header: BlockHeader) returns (out: Bytes)
    ensures out == EncodeHeader(header)
  {
    hide EncodeI32, EncodeU32;
    out := EncodeI32(header.version);
    out := out + header.prevBlockhash;
    out := out + header.merkleRoot;
    out := out + EncodeU32(header.time);
    out := out + EncodeU32(header.bits);
    out := out + EncodeU32(header.nonce);
  }

  method SerializeBlock(block: Block) returns (out: Bytes)
    ensures out == EncodeBlock(block)
  {
    hide EncodeMany, EncodeTransaction;
    out := SerializeHeader(block.header);
    out := out + CompactSize(|block.transactions|);
    ghost var head := out;
    NothingAppended(EncodeTransaction, head, block.transactions);
    for i := 0 to |block.transactions|
      invariant out == head + EncodeMany(EncodeTransaction, block.transactions[..i])
    {
      var encoded := SerializeTransaction(block.transactions[i]);
      out := out + encoded;
      ItemAppended(EncodeTransaction, head, block.transactions, i);
    }
  }

  /** What is left to parse of a list, given the items read so far. */
  ghost function Resume<T>(xs: seq<T>, rest: Parsed<seq<T>>): Parsed<seq<T>> {
    match rest
    case Ok((ys, s)) => Ok((xs + ys, s))
    case Err(e) => Err(e)
  }

  lemma ResumeStart<T>(all: Parsed<seq<T>>)
    ensures Resume([], all) == all
  {
    if all.Ok? {
      assert [] + all.value.0 == all.value.0;
    }
  }

  lemma ResumeEnd<T>(parse: Bytes -> Parsed<T>, xs: seq<T>, s: Bytes)
    ensures Resume(xs, ParseMany(parse, s, 0)) == Ok((xs, s))
  {
    assert xs + [] == xs;
  }

  lemma ResumeStep<T>(parse: Bytes -> Parsed<T>, xs: seq<T>, s: Bytes, n: nat)
    requires n > 0
    ensures Resume(xs, ParseMany(parse, s, n)) ==
      match parse(s)
      case Ok((x, rest)) => Resume(xs + [x], ParseMany(parse, rest, n - 1))
      case Err(e) => Err(e)
  {
    match parse(s)
    case Ok((x, rest)) =>
      match ParseMany(parse, rest, n - 1) {
        case Ok((ys, _)) => assert xs + ([x] + ys) == xs + [x] + ys;
        case Err(_) =>
      }
    case Err(_) =>
  }

  method ReadScript(reader: WireReader, context: string) returns (r: Result<Bytes, DecodeError>)
    requires reader.Valid()
    modifies reader
    ensures reader.Reads(ParseScript(old(reader.Rest()), context), r)
  {
    var length :- reader.ReadLimitedLength(context, MAX_SCRIPT_SIZE);
    r := reader.ReadBytes(length, context);
  }

  method ReadInput(reader: WireReader) returns (r: Result<TxInput, DecodeError>)
    requires reader.Valid()
    modifies reader
    ensures reader.Reads(ParseInput(old(reader.Rest())), r)
  {
    var previousOutput :- reader.ReadHash("previous output hash");
    var index :- reader.ReadU32("previous output index");
    var scriptSig :- ReadScript(reader, "scriptSig");
    var sequence :- reader.ReadU32("input sequence");
    r := Ok(TxInput(previousOutput, index, scriptSig, sequence));
  }

  method ReadOutput(reader: WireReader) returns (r: Result<TxOutput, DecodeError>)
    requires reader.Valid()
    modifies reader
    ensures reader.Reads(ParseOutput(old(reader.Rest())), r)
  {
    var value :- reader.ReadU64("output value");
    var scriptPubkey :- ReadScript(reader, "scriptPubKey");
    r := Ok(TxOutput(value, scriptPubkey));
  }

  method ReadInputs(reader: WireReader) returns (r: Result<seq<TxInput>, DecodeError>)
    requires reader.Valid()
    modifies reader
    ensures reader.Reads(ParseList(ParseInput, old(reader.Rest()), "transaction input count", MAX_TRANSACTION_INPUTS), r)
  {
    hide ParseMany, ParseInput, Resume;
    var count :- reader.ReadLimitedLength("transaction input count", MAX_TRANSACTION_INPUTS);
    ghost var all := ParseMany(ParseInput, reader.Rest(), count);
    ResumeStart(all);
    var inputs := [];
    for i := 0 to count
      invariant reader.Valid()
      invariant all == Resume(inputs, ParseMany(ParseInput, reader.Rest(), count - i))
    {
      ResumeStep(ParseInput, inputs, reader.Rest(), count - i);
      var input :- ReadInput(reader);
      inputs := inputs + [input];
    }
    ResumeEnd(ParseInput, inputs, reader.Rest());
    r := Ok(inputs);
  }

  method ReadOutputs(reader: WireReader) returns (r: Result<seq<TxOutput>, DecodeError>)
    requires reader.Valid()
    modifies reader
    ensures reader.Reads(ParseList(ParseOutput, old(reader.Rest()), "transaction output count", MAX_TRANSACTION_OUTPUTS), r)
  {
    hide ParseMany, ParseOutput, Resume;
    var count :- reader.ReadLimitedLength("transaction output count", MAX_TRANSACTION_OUTPUTS);
    ghost var all := ParseMany(ParseOutput, reader.Rest(), count);
    ResumeStart(all);
    var outputs := [];
    for i := 0 to count
      invariant reader.Valid()
      invariant all == Resume(outputs, ParseMany(ParseOutput, reader.Rest(), count - i))
    {
      ResumeStep(ParseOutput, outputs, reader.Rest(), count - i);
      var output :- ReadOutput(reader);
      outputs := outputs + [output];
    }
    ResumeEnd(ParseOutput, outputs, reader.Rest());
    r := Ok(outputs);
  }

  method DecodeTransactionFrom(reader: WireReader) returns (r: Result<Transaction, DecodeError>)
    requires reader.Valid()
    modifies reader
    ensures reader.Reads(ParseTransaction(old(reader.Rest())), r)
  {
    var version :- reader.ReadI32("transaction version");
    var inputs :- ReadInputs(reader);
    var outputs :- ReadOutputs(reader);
    var lockTime :- reader.ReadU32("transaction locktime");
    r := Ok(Transaction(version, inputs, outputs, lockTime));
  }

  method DeserializeTransaction(bytes: Bytes) returns (r: Result<Transaction, DecodeError>)
    ensures r == DecodeTransaction(bytes)
    ensures forall x :: r == Ok(x) <==>
      bytes == EncodeTransaction(x) && WithinLimits(x) && |bytes| <= MAX_TRANSACTION_SERIALIZED_SIZE
  {
    forall x { TransactionCodecExact(bytes, x); }
    if |bytes| > MAX_TRANSACTION_SERIALIZED_SIZE {
      return Err(LimitExceeded("transaction size", |bytes|, MAX_TRANSACTION_SERIALIZED_SIZE));
    }
    var reader := new WireReader(bytes);
    var transaction :- DecodeTransactionFrom(reader);
    var _ :- reader.Finish("transaction");
    r := Ok(transaction);
  }

  method DecodeHeaderFrom(reader: WireReader) returns (r: Result<BlockHeader, DecodeError>)
    requires reader.Valid()
    modifies reader
    ensures reader.Reads(ParseHeader(old(reader.Rest())), r)
  {
    var version :- reader.ReadI32("block version");
    var prevBlockhash :- reader.ReadHash("previous block hash");
    var merkleRoot :- reader.ReadHash("merkle root");
    var time :- reader.ReadU32("block time");
    var bits :- reader.ReadU32("block bits");
    var nonce :- reader.ReadU32("block nonce");
    r := Ok(BlockHeader(version, prevBlockhash, merkleRoot, time, bits, nonce));
  }

  method DeserializeHeader(bytes: Bytes) returns (r: Result<BlockHeader, DecodeError>)
    ensures r == DecodeHeader(bytes)
    ensures forall header :: r == Ok(header) <==> bytes == EncodeHeader(header)
  {
    forall header { HeaderCodecExact(bytes, header); }
    var reader := new WireReader(bytes);
    var header :- DecodeHeaderFrom(reader);
    var _ :- reader.Finish("block header");
    r := Ok(header);
  }

  method ReadTransactions(reader: WireReader) returns (r: Result<seq<Transaction>, DecodeError>)
    requires reader.Valid()
    modifies reader
    ensures reader.Reads(
      ParseList(ParseTransaction, old(reader.Rest()), "block transaction count", MAX_TRANSACTIONS_PER_BLOCK), r)
  {
    hide ParseMany, ParseTransaction, Resume;
    var count :- reader.ReadLimitedLength("block transaction count", MAX_TRANSACTIONS_PER_BLOCK);
    ghost var all := ParseMany(ParseTransaction, reader.Rest(), count);
    ResumeStart(all);
    var transactions := [];
    for i := 0 to count
      invariant reader.Valid()
      invariant all == Resume(transactions, ParseMany(ParseTransaction, reader.Rest(), count - i))
    {
      ResumeStep(ParseTransaction, transactions, reader.Rest(), count - i);
      var transaction :- DecodeTransactionFrom(reader);
      transactions := transactions + [transaction];
    }
    ResumeEnd(ParseTransaction, transactions, reader.Rest());
    r := Ok(transactions);
  }

  method DeserializeBlock(bytes: Bytes) returns (r: Result<Block, DecodeError>)
    ensures r == DecodeBlock(bytes)
    ensures forall x :: r == Ok(x) <==>
      bytes == EncodeBlock(x) && BlockWithinLimits(x) && |bytes| <= MAX_BLOCK_SERIALIZED_SIZE
  {
    hide ParseList, ParseHeader, EncodeBlock;
    forall x { BlockCodecExact(bytes, x); }
    if |bytes| > MAX_BLOCK_SERIALIZED_SIZE {
      return Err(LimitExceeded("block size", |bytes|, MAX_BLOCK_SERIALIZED_SIZE));
    }
    var reader := new WireReader(bytes);
    var header :- DecodeHeaderFrom(reader);
    var transactions :- ReadTransactions(reader);
    var _ :- reader.Finish("block");
    r := Ok(Block(header, transactions));
  }
}
