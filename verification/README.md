# bitrst

A Dafny model of the consensus core of `bitrst`, a Bitcoin node: the block chain with reorganisations and
orphans, the transaction pool, 256-bit and compact-target arithmetic, the wire codec, the script interpreter,
the event journals, the Merkle root and the wallet's view of the chain.

What the source changes in place is changed in place here: `Chain`, `Mempool`, `UtxoSet`, `Wallet`, the two
journals, `WireReader` and `Stack` are classes, and loops are loops. Each method is proved against functions
on values (`Replay`, `ApplyTxs`, `TargetOf`, `Run`, `ParseTransaction`, `Greedy`, ...), and the lemmas state
what those mean.

How the files build on each other:

- `Types`, `Wire`, `Codec`, `Serializer`: values, the parsers and printers, and the loops that refine them.
- `Script`: the interpreter and the P2PKH templates.
- `Arith`, `Uint256`, `Pow`, `Difficulty`: byte-array arithmetic against its meaning in numbers.
- `Merkle`, `Journals`, `Utxo`: the Merkle root, the bounded journals, the unspent outputs and undo data.
- `Consensus`, `Value`, `PlainRules`: what a valid chain is, the conservation of value on it, and its rules block by
  block and input by input in numbers and bytes, without the predicates they are checked with.
- `BlockTree`, `ChainRules`, `ChainSteps`, `Chain`: the index as a tree, header rules and event replay, single
  steps, and the chain as a class. `Chain.Valid` is the invariant of every run: it holds after `NewGenesis`
  and is kept by `ConnectBlock`, `SetNetworkTime` and `TakeEvents`, whatever they return.
- `LongBranch`: how a long branch of light blocks brings the check of a block past the end of the active chain.
- `Wallet`: the wallet's coins along the chain's events, and a wallet that follows a running chain.
- `Pool`, `PoolIndex`, `Mempool`, `PoolWitness`: the pool as a list in admission order, its indexes and evictions,
  the pool as a class, and a pool in which an admission goes wrong.

Standing hypotheses, all explicit in the contracts:

- Double SHA-256, HASH160, the signature check and the signature hash are constants without a value; every
  statement holds for whatever functions they are. Injectivity is assumed only where it is written:
  `CollisionFree` for the nodes of two Merkle trees. Blocks may share a hash, as two with one header do.
- `Admissible` speaks of the blocks that reach a node and pass the checks of their own (limits, proof of work,
  Merkle root, coinbase), and of no others: none hashes to the genesis block's parent hash, their valid chains
  are fresh (no created outpoint is still unspent, except one the same transaction spends; nothing in the code
  enforces BIP 30), linked chains of them have less than 2^256 work, and computing the work of such a block
  overflows no byte if some valid chain of them asks for its bits. The last is no matter of course:
  `EasiestBitsOverflow`, `AdjustedBitsOverflow` and `ShortBitsOverflow` are bits whose work does overflow one;
  `MaxBitsCompute` and `DefaultBitsCompute` are bits the program itself uses, which do not, and
  `PlainMantissaComputes` is a test by which a caller can rule it out.
- Sequence counters and heights are natural numbers: they are assumed not to wrap.

Where the code and its comments disagree the code is followed: on an equal fee rate the newcomer evicts the
older entry (crates/bitrst-core/src/mempool.rs:496-509), although the comment at
crates/bitrst-core/src/mempool.rs:8-11 says that it is rejected.

## Model

| member | source | states |
|---|---|---|
| Wire.FromLeInvertsLeBytes | crates/bitrst-core/src/wire.rs:66-79 | reading a k-byte little-endian word back gives the number that was written, for every number that fits |
| Wire.LeBytesInvertsFromLe | crates/bitrst-core/src/wire.rs:66-79 | writing the number read from any byte string gives that string back |
| Wire.WordsRoundTrip | crates/bitrst-core/src/wire.rs:66-79 | u32, u64 and i32 (two's complement) words round-trip |
| Wire.WordsCanonical | crates/bitrst-core/src/wire.rs:66-79 | every 4- or 8-byte string is the encoding of the word it decodes to |
| Wire.FourBytes | crates/bitrst-core/src/wire.rs:66-69 | the value of four bytes is the sum of the bytes times 1, 2^8, 2^16 and 2^24 |
| Wire.WordValues | crates/bitrst-core/src/transaction.rs:67-91 | words are written in 4 or 8 bytes with the value of the number, a negative one as itself plus 2^32 |
| Wire.CompactSizeRoundTrip | crates/bitrst-core/src/transaction.rs:200-216 | an encoded compact size followed by anything is read back exactly, leaving the rest |
| Wire.CompactSizeCanonical | crates/bitrst-core/src/wire.rs:137-154 | an accepted compact size is the canonical encoding of its value: longer forms are rejected |
| Wire.CompactSizeForms | crates/bitrst-core/src/transaction.rs:200-216 | below 0xfd the size is its own byte; above it is a tag 0xfd, 0xfe or 0xff and the value in two, four or eight bytes, the least that hold it |
| Wire.WireReader.ReadBytes | crates/bitrst-core/src/wire.rs:82-99 | the reader takes exactly the next bytes and advances past them, or fails and stays where it is |
| Wire.WireReader.ReadU32 | crates/bitrst-core/src/wire.rs:66-69 | the reader refines the word parser on the unread suffix |
| Wire.WireReader.ReadI32 | crates/bitrst-core/src/wire.rs:72-75 | the reader refines the signed-word parser on the unread suffix |
| Wire.WireReader.ReadU64 | crates/bitrst-core/src/wire.rs:77-80 | the reader refines the long-word parser on the unread suffix |
| Wire.WireReader.ReadHash | crates/bitrst-core/src/wire.rs:156-172 | the reader refines the 32-byte parser on the unread suffix |
| Wire.WireReader.ReadCompactSize | crates/bitrst-core/src/wire.rs:137-154 | the reader refines the canonical compact-size parser on the unread suffix |
| Wire.WireReader.ReadLimitedLength | crates/bitrst-core/src/wire.rs:101-121 | a length above its limit is refused; otherwise the reader refines the length parser |
| Wire.WireReader.Finish | crates/bitrst-core/src/wire.rs:128-135 | succeeds exactly if nothing is unread, and otherwise reports how much is |
| Codec.TransactionCodecExact | crates/bitrst-core/src/transaction.rs:67-154 | bytes decode to a transaction if and only if they are its encoding and both are within the limits (round trip and canonicity in one) |
| Codec.TransactionPrefixFree | crates/bitrst-core/src/transaction.rs:67-154 | no encoding of a transaction is a proper prefix of another's |
| Codec.TransactionLayout | crates/bitrst-core/src/transaction.rs:67-91 | a transaction id is the hash of version, input count, inputs, output count, outputs and lock time in this order |
| Codec.InputLayout | crates/bitrst-core/src/transaction.rs:71-78 | the byte offsets of previous id, index, script length, script and sequence in an input |
| Codec.OutputLayout | crates/bitrst-core/src/transaction.rs:80-86 | the byte offsets of value, script length and script in an output |
| Codec.ItemAt | crates/bitrst-core/src/transaction.rs:67-91 | item i of a list is written right after the items before it |
| Codec.TxidBinds | crates/bitrst-core/src/transaction.rs:184-187 | two different transactions within the limits with one id are a collision of the hash |
| Codec.SerializedSizeIsExact | crates/bitrst-core/src/transaction.rs:157-181 | the computed size is the length of the encoding, for every transaction |
| Codec.OutputCountBelowSize | crates/bitrst-core/src/transaction.rs:157-181 | each output takes at least nine bytes of the size |
| Codec.HeaderCodecExact | crates/bitrst-core/src/block.rs:30-66 | 80 bytes and only 80 bytes decode to a header, and to the one they encode |
| Codec.HeaderLayout | crates/bitrst-core/src/block.rs:30-41 | a block hash is the hash of 80 bytes: version at 0, parent at 4, Merkle root at 36, time at 68, bits at 72, nonce at 76 |
| Codec.BlockHashBinds | crates/bitrst-core/src/block.rs:69-71 | two different headers with one hash are a collision of the hash |
| Codec.BlockCodecExact | crates/bitrst-core/src/block.rs:130-169 | bytes decode to a block if and only if they are its encoding and both are within the limits |
| Codec.BlockPrefixFree | crates/bitrst-core/src/block.rs:130-169 | no encoding of a block is a proper prefix of another's |
| Codec.BlockSizeIsExact | crates/bitrst-core/src/block.rs:115-127 | the computed block size is the length of the encoding |
| Serializer.SerializeTransaction | crates/bitrst-core/src/transaction.rs:67-91 | the loop that grows the buffer produces the specified encoding |
| Serializer.DecodeTransactionFrom | crates/bitrst-core/src/transaction.rs:116-154 | the reading loops refine the transaction parser on the unread suffix, errors included |
| Serializer.DeserializeTransaction | crates/bitrst-core/src/transaction.rs:102-114 | the result is a transaction exactly for its own encoding within the limits |
| Serializer.SerializeHeader | crates/bitrst-core/src/block.rs:30-41 | the fields are written in the specified order |
| Serializer.DeserializeHeader | crates/bitrst-core/src/block.rs:45-66 | the result is a header exactly for its own encoding |
| Serializer.SerializeBlock | crates/bitrst-core/src/block.rs:130-145 | the loop that grows the buffer produces the specified encoding |
| Serializer.DeserializeBlock | crates/bitrst-core/src/block.rs:148-169 | the result is a block exactly for its own encoding within the limits |
| Script.RunConcat | crates/bitrst-script/src/interpreter.rs:57-113 | if a runs, running a followed by b is running a and then b |
| Script.PushDataExact | crates/bitrst-script/src/p2pkh.rs:6-31 | the push script leaves exactly the data on the stack if and only if the data is shorter than 2^32 bytes |
| Script.OversizedPushTruncates | crates/bitrst-script/src/p2pkh.rs:25-30 | for every longer data the length prefix loses its high bits and something else is pushed |
| Script.P2pkhVerifies | crates/bitrst-script/src/interpreter.rs:42-55 | a P2PKH pair verifies if and only if the key hashes to the committed hash and the signature check accepts, with the exact error otherwise |
| Script.P2pkhUnlocks | crates/bitrst-script/src/interpreter.rs:42-113 | whatever the unlocking script is, it satisfies a P2PKH lock (25 bytes, written out) exactly if it runs and leaves on top a key of the committed hash and below it a signature that the check accepts |
| Script.OpcodesMean | crates/bitrst-script/src/interpreter.rs:83-108 | what each opcode, given as a number, leaves of a stack with a below b on top, or its error |
| Script.OpcodesFail | crates/bitrst-script/src/interpreter.rs:83-109 | a stack too short for an opcode underflows, and every other byte above 0x4e is unknown |
| Script.EqualPushes | crates/bitrst-script/src/interpreter.rs:88-92 | pushing a, pushing b and testing equality leaves a true item exactly if a and b are the same |
| Script.PushForms | crates/bitrst-script/src/p2pkh.rs:6-31 | a push is a length byte up to 75, and 0x4c, 0x4d or 0x4e with one, two or four length bytes above, followed by the data |
| Script.TruthIsNonzero | crates/bitrst-script/src/stack.rs:50-60 | an item is true exactly if as a little-endian number it is neither zero nor its sign bit alone |
| Script.ExecuteScript | crates/bitrst-script/src/interpreter.rs:57-113 | the program-counter loop over the mutable stack refines the recursive meaning of the script |
| Script.VerifyScript | crates/bitrst-script/src/interpreter.rs:42-55 | running both scripts on one stack and testing its top refines the specified verdict |
| Script.ReadPush | crates/bitrst-script/src/interpreter.rs:115-123 | reads exactly the next bytes or reports the early end |
| Script.ReadLength | crates/bitrst-script/src/interpreter.rs:125-155 | reads a little-endian length or reports the early end |
| Script.ScriptBool | crates/bitrst-script/src/stack.rs:50-60 | the loop finds out whether the bytes are anything but zero or negative zero |
| Script.Stack.Push | crates/bitrst-script/src/stack.rs:18-20 | adds the item on top and changes nothing below |
| Script.Stack.Pop | crates/bitrst-script/src/stack.rs:23-25 | takes the top item off, or fails on the empty stack |
| Script.Stack.Dup | crates/bitrst-script/src/stack.rs:36-40 | repeats the top item, or fails on the empty stack |
| Script.Stack.TopIsTrue | crates/bitrst-script/src/stack.rs:43-47 | the truth of the top item, or failure on the empty stack |
| Uint256.CompareLeIsNumeric | crates/bitrst-core/src/uint256.rs:6-8 | comparing bytes from the most significant end is comparing the numbers |
| Uint256.AddU256Le | crates/bitrst-core/src/uint256.rs:11-27 | the carry loop adds exactly, and fails exactly if the sum or its first partial sum leaves its width |
| Uint256.NotU256Le | crates/bitrst-core/src/uint256.rs:30-36 | complement is subtraction from 2^256 - 1 |
| Uint256.ShlOneU256Le | crates/bitrst-core/src/uint256.rs:80-89 | doubles modulo 2^256 |
| Uint256.SubU256Le | crates/bitrst-core/src/uint256.rs:91-106 | exact difference, failure exactly for a negative one, and byte overflow exactly when a borrow meets a 255 |
| Uint256.SetBit | crates/bitrst-core/src/uint256.rs:114-118 | adds the power of two of a clear bit and changes nothing else |
| Uint256.BitOfByte | crates/bitrst-core/src/uint256.rs:108-112 | the bit of the byte is the bit of the number |
| Uint256.PartialRemainderBound | crates/bitrst-core/src/uint256.rs:39-64 | in every step of the division the shifted remainder is at most the dividend, so the shift never loses a bit |
| Uint256.DivU256Le | crates/bitrst-core/src/uint256.rs:39-64 | the bit-by-bit long division is exact floor division on every run in which no byte overflows |
| Uint256.OverflowExactlyForUnsafe | crates/bitrst-core/src/uint256.rs:91-106 | some dividend makes the division overflow a byte if and only if the divisor has a 255 above a nonzero low part and below another byte than 255 |
| Uint256.UnsafeOverflows | crates/bitrst-core/src/uint256.rs:91-106 | a concrete overflowing dividend for every such divisor |
| Uint256.NoOnesNeverOverflows | crates/bitrst-core/src/uint256.rs:91-106 | a divisor without a byte 255 never overflows, whatever the dividend |
| Uint256.WorkFromTarget | crates/bitrst-core/src/uint256.rs:69-78 | the work is floor(2^256 / (t + 1)) for 1 <= t < 2^256 - 1, on every run in which no byte overflows |
| Uint256.WorkIsPositiveAndAntitone | crates/bitrst-core/src/uint256.rs:69-78 | work is at least one and never grows with the target |
| Pow.WorkIsFloor | crates/bitrst-core/src/chain.rs:936-940 | bits have work exactly if their target is not zero, and it is the greatest w with w (t + 1) <= 2^256 |
| Uint256.AddChainWork | crates/bitrst-core/src/chain.rs:34-46 | the carry loop adds work modulo 2^256 |
| Pow.FromBits | crates/bitrst-core/src/pow.rs:21-46 | the bytes filled in are the number that the compact form stands for, and the same bits are rejected |
| Pow.TargetOfParts | crates/bitrst-core/src/pow.rs:21-46 | the target of exponent e and mantissa m is m * 256^(e - 3), rounded down; there is none for a zero mantissa, a sign bit or an exponent above 32 |
| Pow.SignificantSize | crates/bitrst-core/src/pow.rs:106-114 | the loop finds the least number of bytes that holds the target |
| Pow.ToBits | crates/bitrst-core/src/pow.rs:77-103 | the shifts and the sign-bit correction give the specified compact form |
| Pow.EncodedParts | crates/bitrst-core/src/pow.rs:77-104 | the compact form of 0 < t < 2^255 has the least exponent that leaves the sign bit free and the leading three bytes of t; rounding clears the bytes below them |
| Pow.EncodeThenDecode | crates/bitrst-core/src/pow.rs:77-103 | for 0 < t < 2^255 encoding and decoding rounds down with an error below t / 2^15; from 2^255 on the encoded form does not decode |
| Pow.RoundDownError | crates/bitrst-core/src/pow.rs:77-103 | what rounding to the mantissa of an exponent loses |
| Pow.RoundedMonotone | crates/bitrst-core/src/pow.rs:77-103 | rounding keeps the order of targets |
| Pow.DecodeEncodeDecode | crates/bitrst-core/src/pow.rs:21-103 | a target that was decoded survives encoding and decoding unchanged, except zero, which is the one decoded target without an encoding |
| Pow.MeetsIsNumeric | crates/bitrst-core/src/pow.rs:61-66 | a hash meets a target exactly if it is at most the target as a number |
| Pow.ComputeBlockWork | crates/bitrst-core/src/chain.rs:936-940 | the work of the bits, failing exactly where decoding or the work is undefined |
| Pow.EasiestBitsOverflow | crates/bitrst-core/src/chain.rs:936-940 | the work of the bits 0x207fffff overflows a byte: the first subtraction of the division borrows from a 255 |
| Pow.AdjustedBitsOverflow | crates/bitrst-core/src/chain.rs:936-940 | so does the work of 0x1d00fffe, one unit harder than the easiest bits of the main network |
| Pow.ShortBitsOverflow | crates/bitrst-core/src/chain.rs:936-940 | and the work of 0x04000bff, whose mantissa is 255 in its lowest byte alone: at small exponents that byte matters |
| Pow.PlainMantissaComputes | crates/bitrst-core/src/chain.rs:936-940 | if the middle byte of the mantissa is not 255, and the lowest byte is not either or the exponent is at least 19, the work is computed without overflow |
| Pow.MaxBitsCompute | crates/bitrst-core/src/chain.rs:936-940 | the work of 0x1d00ffff, the easiest bits of the main network, is computed without overflow although its mantissa has two bytes of 255: only two steps of its division subtract |
| Pow.DefaultBitsCompute | src/cli/chain.rs:12 | so is the work of 0x1f00ffff, the bits that the command line starts its chains from |
| Difficulty.MulDivThreshold | crates/bitrst-core/src/difficulty.rs:98-125 | multiply, carry and divide give the exact floor of t * n / d, for all operands; for 32-bit ones it fails exactly if the result needs more than 256 bits |
| Difficulty.DivLeByU64 | crates/bitrst-core/src/difficulty.rs:127-153 | byte-wise division of a number of any length is exact floor division; for 32-bit divisors it fails exactly if the quotient needs more than 256 bits, and always for zero |
| Difficulty.CapToMaxTarget | crates/bitrst-core/src/difficulty.rs:82-92 | the smaller of the threshold and the maximum target |
| Difficulty.AdjustBits | crates/bitrst-core/src/difficulty.rs:64-80 | the byte computation gives the specified adjustment, errors included; AdjustedTarget says what that is in numbers |
| Difficulty.AdjustedTarget | crates/bitrst-core/src/difficulty.rs:52-80 | the new target is t * seconds / 1209600 for 302400 to 4838400 seconds, t / 4 below and 4 t above, at most 0xffff * 256^26, rounded to the compact form; an undefined old target, a zero result and one above 256 bits are the three errors |
| Difficulty.AdjustmentSucceeds | crates/bitrst-core/src/difficulty.rs:64-80 | when an adjustment succeeds, and the exact target its bits decode to |
| Difficulty.AdjustmentBand | crates/bitrst-core/src/difficulty.rs:52-80 | an adjusted target never exceeds the maximum nor four times the old one, and falls below a quarter of it only by rounding |
| Difficulty.AdjustmentMonotone | crates/bitrst-core/src/difficulty.rs:52-80 | a longer observed timespan never gives a harder target |
| Difficulty.MaxTargetDecodes | crates/bitrst-core/src/difficulty.rs:82-92 | the maximum compact bits decode to the maximum target |
| Merkle.MerkleRoot | crates/bitrst-core/src/merkle.rs:8-31 | the loop that replaces the level by its parents computes the specified root, missing exactly for an empty or too long list; RootOfHalves says what it is in hashes |
| Merkle.RootOfHalves | crates/bitrst-core/src/merkle.rs:17-28 | the root of n ids, 2^h < n <= 2^(h+1), is the hash of the root of the first 2^h followed by the root of the others, hashed with itself until it is as high |
| Merkle.RootOfTwo | crates/bitrst-core/src/merkle.rs:21-24 | the root of a and b is the hash of a followed by b |
| Merkle.RootOfThree | crates/bitrst-core/src/merkle.rs:17-28 | the root of a, b and c is the hash of the hash of a and b followed by the hash of c and c |
| Merkle.CommittedIds | crates/bitrst-core/src/block.rs:182-196 | a header commits to the ids of its transactions in their order |
| Merkle.RootIsTree | crates/bitrst-core/src/merkle.rs:8-31 | the levels compute the recursive tree of least height in which missing leaves repeat the last one |
| Merkle.RootBinds | crates/bitrst-core/src/merkle.rs:8-31 | two lists of equal length with the same root are equal, if hashing the nodes of both trees causes no collision |
| Merkle.RepeatedLastKeepsRoot | crates/bitrst-core/src/merkle.rs:8-31 | repeating the last element of an odd list longer than one keeps the root, within the transaction limit |
| Utxo.UtxoSet.ApplyTransaction | crates/bitrst-core/src/utxo.rs:144-177 | removing and inserting in the loops gives the specified set and undo data; output i is then at index i under the id, with its value and script, if there are at most 2^32 |
| Utxo.OutputIsAt | crates/bitrst-core/src/utxo.rs:161-174 | after any transaction of at most 2^32 outputs, index i under its id holds the value and script of output i |
| Utxo.OthersAreKept | crates/bitrst-core/src/utxo.rs:144-177 | every other outpoint is unspent afterwards exactly if it was before and no input names it, with the same entry; the null outpoint of a coinbase spends nothing |
| Utxo.ApplyOne | crates/bitrst-core/src/chain.rs:872-878 | a list of one transaction does what that transaction does |
| Utxo.ApplyTxsConcat | crates/bitrst-core/src/chain.rs:872-878 | a list of transactions is applied from the first to the last |
| Utxo.UtxoSet.DisconnectUndo | crates/bitrst-core/src/utxo.rs:180-187 | deleting the created and re-inserting the removed entries gives the specified set |
| Utxo.UndoExact | crates/bitrst-core/src/utxo.rs:144-187 | undoing a transaction restores the set if and only if it overwrote no unspent output but one it spends itself |
| Utxo.UndoRestores | crates/bitrst-core/src/utxo.rs:144-187 | undoing restores the set if none of the transaction's outpoints was in it |
| Utxo.RevertApplied | crates/bitrst-core/src/utxo.rs:144-187 | what exactly is left after undoing any transaction |
| Utxo.UndoListRestores | crates/bitrst-core/src/utxo.rs:144-187 | the undo list of a block, run backwards, restores the set, also when its transactions spend each other |
| Utxo.DuplicateCoinbaseLosesOutput | crates/bitrst-core/src/utxo.rs:166-174 | without freshness it does not: undoing a repeated coinbase deletes the output of the first |
| Utxo.UtxoSet.SumInputs | crates/bitrst-core/src/utxo.rs:113-131 | the sum of the spent values, or the error of the first input that is missing or overflows |
| Utxo.UtxoSet.ValidateTransaction | crates/bitrst-core/src/utxo.rs:113-142 | accepts exactly the transactions that spend what is there, create no value and fit in 64 bits |
| Utxo.SumOutputs | crates/bitrst-core/src/utxo.rs:199-212 | the sum of the outputs, failing exactly on 64-bit overflow |
| Utxo.UtxoSet.VerifyScripts | crates/bitrst-core/src/mempool.rs:655-682 | accepts exactly if every input with a non-empty locking script satisfies it |
| Consensus.MedianSplits | crates/bitrst-core/src/chain.rs:880-896 | the middle of the sorted times has more than half of them at most it and no more than half below it |
| Consensus.MedianNeverDecreases | crates/bitrst-core/src/chain.rs:880-896 | a time above the median of a window pushed in front never lowers the median, full window or not |
| Consensus.OutOfRangeExactly | crates/bitrst-core/src/chain.rs:898-928 | the index runs past the active chain exactly for a height above it that ends a period whose first block is in it |
| Consensus.ValidChainSnoc | crates/bitrst-core/src/chain.rs:765-878 | a chain is valid exactly block by block: one more block that may follow keeps it so |
| Consensus.ValidChainPrefix | crates/bitrst-core/src/chain.rs:765-878 | every prefix of a valid chain is valid |
| Value.ValueConserved | crates/bitrst-core/src/utxo.rs:113-177 | on every valid and fresh chain the unspent value plus all fees is the sum of the coinbase outputs, and fees are not negative |
| Value.TotalApplied | crates/bitrst-core/src/utxo.rs:144-177 | what a transaction does to the total unspent value |
| Value.BlockConserves | crates/bitrst-core/src/chain.rs:815-878 | what a block does to the total unspent value |
| PlainRules.SpendsAreUnlocked | crates/bitrst-core/src/chain.rs:836-866 | on a valid chain every input of every transaction but a coinbase spends an output unspent at that point, whose script is empty or accepts the input's with the signature hash over the scripts of all outputs spent |
| PlainRules.SpendsAreSigned | crates/bitrst-core/src/chain.rs:852-866 | on a valid chain nobody spends an output locked to the hash of a public key without that key and a signature of the spending input that the check accepts |
| PlainRules.NoValueFromNothing | crates/bitrst-core/src/utxo.rs:113-142 | on a valid chain the inputs of every transaction but a coinbase pay for its outputs |
| PlainRules.NoDoubleSpend | crates/bitrst-core/src/chain.rs:823-834 | on a valid chain no two inputs of a block, the coinbase aside, name the same outpoint |
| PlainRules.BlocksFit | crates/bitrst-core/src/chain.rs:729-790 | every block of a valid chain has at most 4000000 bytes, 25000 transactions and 10000 bytes a script, meets its target, commits to its ids, and has the null outpoint as the only input of its first transaction and of no other |
| PlainRules.BlocksFollow | crates/bitrst-core/src/chain.rs:880-896 | every block of a valid chain but the first names its parent and is later than the median of the last eleven times, or of all there are |
| PlainRules.BitsStay | crates/bitrst-core/src/chain.rs:903-908 | on a valid chain the bits stay within a period of 2016 blocks |
| PlainRules.BitsAdjust | crates/bitrst-core/src/chain.rs:916-927 | at the start of a period they are adjusted to the seconds from the first to the last block of the period before, none if the last is earlier |
| PlainRules.BitsAside | crates/bitrst-core/src/chain.rs:898-920 | the bits asked of a height off the tip: the tip's within a period, the easiest ones for a period that starts above the chain |
| PlainRules.LaterEndIsNotHarder | crates/bitrst-core/src/chain.rs:922-927 | a period that ends later never makes the next one harder |
| PlainRules.CoinbasePlainly | crates/bitrst-core/src/chain.rs:781-790 | the coinbase rule holds exactly if the first transaction, and no other, has the null outpoint as its only input |
| BlockTree.BranchIsChain | crates/bitrst-core/src/chain.rs:465-527 | the branch of every known block is linked from the genesis block, as long as its height says, and its recorded work is the total of its blocks |
| BlockTree.AncestorTimesAreRecent | crates/bitrst-core/src/chain.rs:880-896 | walking parents in the index collects the times of the branch |
| BlockTree.MedianMonotone | crates/bitrst-core/src/chain.rs:792-801 | on every branch of the index the median time past never decreases from a block to its child |
| BlockTree.ActiveBranch | crates/bitrst-core/src/chain.rs:648-672 | the branch of an active block is the active chain up to it |
| BlockTree.JoinKeepsInv | crates/bitrst-core/src/chain.rs:471-490 | a block that may follow joins the active chain: index, chain, hashes and outputs stay consistent |
| BlockTree.RetractKeepsInv | crates/bitrst-core/src/chain.rs:674-700 | the tip leaves by its stored undo data: everything stays consistent with the shorter chain |
| BlockTree.RollbackKeepsInv | crates/bitrst-core/src/chain.rs:575-588 | restoring the snapshots after a failed reorganisation is consistent with the rewritten index |
| BlockTree.TreeInsert | crates/bitrst-core/src/chain.rs:471-527 | a new block under a known parent keeps the index a tree with added-up work |
| BlockTree.ChildWorkFits | crates/bitrst-core/src/chain.rs:465-466 | adding the work of a child that passes the checks of its own stays below 2^256 |
| ChainRules.AcceptedMayFollow | crates/bitrst-core/src/chain.rs:754-878 | a block that passes the checks on top of the active chain satisfies every rule against the replay of that chain |
| ChainRules.VerdictOfActive | crates/bitrst-core/src/chain.rs:754-813 | what the checks read from the index and the cached outputs is what the active blocks and their replay say |
| ChainRules.HeaderPlainly | crates/bitrst-core/src/chain.rs:765-813 | which error a header gets in plain terms: target missed, other Merkle root, coinbase misplaced, time not after the median or more than 7200 seconds ahead, other bits; none exactly if all hold |
| ChainRules.TipInRange | crates/bitrst-core/src/chain.rs:898-928 | no block checked on the chain it extends meets that |
| ChainRules.ForkPathUnique | crates/bitrst-core/src/chain.rs:648-672 | a block has one fork path at most, so what becomes of a heavier branch depends on the state and the block alone |
| ChainRules.ReplayEventsConcat | crates/bitrst-core/src/chain_event_journal.rs:65-74 | replaying two event lists in turn is replaying their concatenation |
| ChainRules.RecordsAfterDisconnect | crates/bitrst-core/src/chain.rs:695-698 | recording a disconnected block keeps the two journals in step |
| ChainSteps.ReversedPath | crates/bitrst-core/src/chain.rs:666-671 | the walk to the active branch, reversed, is a linked list of inactive blocks above the fork block |
| ChainSteps.OvertakesExactly | crates/bitrst-core/src/chain.rs:514-646 | a block that makes its branch the heaviest takes over if and only if every block of the fork path passes every check against the chain it extends: the old chain up to the fork block and the path before it |
| ChainSteps.OutcomeByWork | crates/bitrst-core/src/chain.rs:465-527 | a reorganisation always gains work, a side branch never has more than the tip, so the branch seen first stays on a tie, and a connected block adds its own work |
| ChainSteps.PooledPlainly | crates/bitrst-core/src/chain.rs:530-565 | a new orphan drives out nobody from a pool below 256, and otherwise exactly the one that arrived first |
| ChainSteps.CallConnects | crates/bitrst-core/src/chain.rs:435-528 | if the promotion of orphans does not reorganise, every connect event a successful call logs is of a block active at its height when the call ends |
| Chain.Chain.NewGenesis | crates/bitrst-core/src/chain.rs:286-335 | succeeds exactly for an acceptable genesis block and a nonzero time, with a valid chain of that block alone |
| Chain.Chain.ConnectBlock | crates/bitrst-core/src/chain.rs:435-528 | keeps the whole invariant, on success and on failure; the result, the new state and the events are those of one attempt, decided by work, and, if that moved the tip, of the promotion of orphans: an error then is the error of the last promoted orphan, and a success leaves no orphan whose parent is known; that every script is checked is ActiveSpendsAreUnlocked |
| Chain.Chain.ConnectSingle | crates/bitrst-core/src/chain.rs:439-528 | which of the four results or errors there is follows from the state and the block: an error exactly if a check of the block fails, with the first failing one named and the state unchanged, or if the block makes its branch the heaviest and some block of the fork path fails against the chain it extends, with blocks, outputs, work and orphans as they were |
| Chain.Chain.ExtendTip | crates/bitrst-core/src/chain.rs:471-499 | the block is appended, recorded with its work and undo data, and logged |
| Chain.Chain.RecordSide | crates/bitrst-core/src/chain.rs:501-512 | only the index grows |
| Chain.Chain.OvertakeTip | crates/bitrst-core/src/chain.rs:514-527 | a heavier branch becomes the active one exactly if each of its blocks passes the checks on the chain it extends; otherwise nothing active changes |
| Chain.Chain.ReorgToBlock | crates/bitrst-core/src/chain.rs:568-589 | if all blocks of the fork path pass, the new chain is the old one up to the fork block and then the path, and the depth is the number of blocks left; otherwise blocks, hashes, outputs and work are restored, the error is that of the first block that fails, and the log leads to where the path broke |
| Chain.Chain.TryReorgToBlock | crates/bitrst-core/src/chain.rs:591-646 | rewinds and connects the path; fails exactly if a block of it fails against the chain it extends, with the error of the first such block, and then only index entries off the old branch have been rewritten |
| Chain.Chain.RewindTo | crates/bitrst-core/src/chain.rs:602-605 | disconnects exactly the blocks above the fork block and never the fork block |
| Chain.Chain.ConnectForkBlock | crates/bitrst-core/src/chain.rs:607-642 | joins a path block, with its parent's work and its own, if and only if it passes every check against the chain it extends and its replay; otherwise the error is that of the first failing check and index and log are untouched |
| Chain.Chain.CollectForkPath | crates/bitrst-core/src/chain.rs:648-672 | terminates, never misses an ancestor, and returns a linked list of inactive blocks that starts under an active one |
| Chain.Chain.ConnectToTip | crates/bitrst-core/src/chain.rs:471-494 | applying, recording and logging a block keeps chain, index, outputs and journals consistent |
| Chain.Chain.DisconnectTipBlock | crates/bitrst-core/src/chain.rs:674-700 | the tip is undone from its stored data, work falls back to the new tip's, and both journals record it |
| Chain.Chain.InsertOrphan | crates/bitrst-core/src/chain.rs:530-549 | the pool gains the block, numbered by arrival, never exceeds 256, and the log gains exactly the events of that |
| Chain.Chain.MakeOrphanRoom | crates/bitrst-core/src/chain.rs:530-533 | a full pool loses exactly its oldest entry |
| Chain.Chain.EvictOldestOrphan | crates/bitrst-core/src/chain.rs:551-565 | the entry that goes arrived no later than any other |
| Chain.Chain.ProcessOrphans | crates/bitrst-core/src/chain.rs:702-712 | terminates and keeps the invariant; it is a run of attempts on formerly pooled blocks, each made after the ready orphans have left the pool; it fails exactly with the error of the last of them, and on success every former orphan is known or still waits for its parent |
| Chain.Chain.EnqueueReadyOrphans | crates/bitrst-core/src/chain.rs:714-727 | the orphans with known parents, and only they, leave the pool and become the end of the queue |
| Chain.Chain.ValidateHeader | crates/bitrst-core/src/chain.rs:765-813 | the verdict is the first rule the header breaks, in the order of the checks |
| Chain.Chain.ValidateTransactions | crates/bitrst-core/src/chain.rs:815-870 | accepts exactly if no outpoint is spent twice and each transaction is valid and unlocked after those before it; PlainRules says input by input what that is |
| Chain.Chain.ValidateBlockLimits | crates/bitrst-core/src/chain.rs:729-752 | accepts exactly the blocks within the size, count and script limits |
| Chain.Chain.ApplyBlockTransactions | crates/bitrst-core/src/chain.rs:872-878 | the loop applies the transactions in order and collects their undo data |
| Chain.Chain.MedianPastTimeBefore | crates/bitrst-core/src/chain.rs:880-896 | the walk over at most eleven ancestors computes the specified median |
| Chain.Chain.ComputeExpectedBits | crates/bitrst-core/src/chain.rs:898-928 | the bits a block at this height must carry |
| Chain.Chain.SetNetworkTime | crates/bitrst-core/src/chain.rs:372-378 | changes the network time only, and only to a nonzero one |
| Chain.Chain.TakeEvents | crates/bitrst-core/src/chain.rs:399-401 | the events after the wallet's mark, which moves to the end of the log, or an error exactly if one of them was dropped; the invariant is kept |
| Chain.Chain.ActiveChainIsValid | crates/bitrst-core/src/chain.rs:765-878 | in every valid state the active chain satisfies every rule against the replay of its own prefixes, and outputs and hashes are its replay |
| Chain.Chain.ActiveSpendsAreUnlocked | crates/bitrst-core/src/chain.rs:836-866 | in every valid state every input on the active chain spends an output unspent at that point and satisfies its script, and pays for the outputs |
| Chain.Chain.ActiveSpendsAreSigned | crates/bitrst-core/src/chain.rs:852-866 | in every valid state no output locked to the hash of a public key has been spent without that key and a signature of the spending input |
| Chain.Chain.ActiveBlocksFit | crates/bitrst-core/src/chain.rs:729-813 | in every valid state each active block is within the limits, mined, committed to and rightly linked and timed |
| Chain.Chain.TotalIsSum | crates/bitrst-core/src/chain.rs:465-496 | in every valid state the total work is the sum of the work of the active blocks |
| Chain.Chain.ValueIsConserved | crates/bitrst-core/src/utxo.rs:113-177 | in every valid state the unspent value plus all fees is what the active coinbases created |
| Chain.Chain.TipIsHeaviest | crates/bitrst-core/src/chain.rs:465-527 | in every valid state, also after a failed reorganisation, each known block has its parent's work and its own, the total is the tip's work, and no known block has more |
| Chain.Chain.OutOfRangeAside | crates/bitrst-core/src/chain.rs:765-928 | in every valid state the check of a block runs past the active chain exactly if the block passes the checks before and its parent ends a period that starts inside the active chain, on a side branch at least as long as the active chain and no heavier |
| LongBranch.GrowBeside | crates/bitrst-core/src/chain.rs:439-512 | connecting blocks that fit one after the other on a branch beside the tip records them all and leaves the active chain as it was; if the branch then ends a period past the active chain, the state is one in which the next check on it runs past the active chain |
| Chain.Chain.OrphansAreApart | crates/bitrst-core/src/chain.rs:446-455 | in every valid state orphans are unknown blocks under their own hashes, at most 256 |
| Chain.Chain.RetainedDisconnectHasBlock | crates/bitrst-core/src/chain.rs:674-700 | in every valid state each disconnect event still in the event journal has its block in the other journal |
| Chain.Chain.StoredUndoIsExact | crates/bitrst-core/src/chain.rs:674-700 | in every valid state the undo data stored for any active block takes the replay up to it back to the replay before it |
| Journals.ChainEventJournal.Push | crates/bitrst-core/src/chain_event_journal.rs:65-74 | appends to the unbounded log that the bounded journal stands for |
| Journals.ChainEventJournal.HoldsNewest | crates/bitrst-core/src/chain_event_journal.rs:65-74 | the journal holds the last events of the log, as many as fit, each with its position |
| Journals.ChainEventJournal.CollectEvents | crates/bitrst-core/src/chain_event_journal.rs:121-148 | returns exactly the log after the cursor, or an error exactly if an event of it was dropped |
| Journals.ChainEventJournal.TakeEvents | crates/bitrst-core/src/chain_event_journal.rs:98-118 | the same from the wallet's mark, which moves to the end on success only |
| Journals.CollectsConcatenate | crates/bitrst-core/src/chain_event_journal.rs:121-148 | a consumer whose collects succeed sees every event once and in order |
| Journals.CollectFailsExactly | crates/bitrst-core/src/chain_event_journal.rs:121-148 | a collect fails exactly if an event after the cursor is no longer among the last ones that fit, and otherwise gives all after it |
| Journals.DisconnectedBlockJournal.Record | crates/bitrst-core/src/disconnected_block_journal.rs:46-57 | appends to the unbounded log that the bounded journal stands for |
| Journals.DisconnectedBlockJournal.BlocksSince | crates/bitrst-core/src/disconnected_block_journal.rs:59-78 | a success returns every block ever recorded after the cursor |
| Journals.RecoveryIsComplete | crates/bitrst-core/src/disconnected_block_journal.rs:59-78 | no recorded block after the cursor is missing from a successful recovery |
| Journals.BlocksAfterAre | crates/bitrst-core/src/disconnected_block_journal.rs:73-77 | the blocks after a cursor are those of the entries from the first above it on, in order |
| Journals.RefusedThoughComplete | crates/bitrst-core/src/disconnected_block_journal.rs:63-71 | a refusal need not mean a loss: a cursor well before the only record is refused although nothing was dropped |
| Journals.RefusalExact | crates/bitrst-core/src/disconnected_block_journal.rs:63-71 | exactly when a recovery is refused although the whole answer is retained |
| Journals.RetainedDisconnectsHaveBlocks | crates/bitrst-core/src/disconnected_block_journal.rs:46-57 | with equal capacities every disconnect event still in the event journal has its block in the other |
| Wallet.RecognisesTemplate | crates/bitrst-wallet/src/wallet.rs:127-141 | the recogniser accepts exactly the P2PKH template, with its hash |
| Wallet.CoinsPlainly | crates/bitrst-wallet/src/wallet.rs:82-92 | a coin is an unspent output whose script is 0x76 0xa9 20, a watched hash, 0x88 0xac, with its value and script |
| Wallet.Wallet.ApplyEvents | crates/bitrst-wallet/src/wallet.rs:50-114 | applies events in order and stops exactly at the first connect event without an active block at its height |
| Wallet.Wallet.ConnectBlock | crates/bitrst-wallet/src/wallet.rs:58-97 | the nested loops over a block refine the specified scan of coins and undo data |
| Wallet.Wallet.DisconnectBlock | crates/bitrst-wallet/src/wallet.rs:98-107 | reverts by the stored undo data and forgets it |
| Wallet.ScanTxsView | crates/bitrst-wallet/src/wallet.rs:64-96 | scanning a fresh block keeps the coins the watched part of the unspent outputs |
| Wallet.UndoExactIff | crates/bitrst-wallet/src/wallet.rs:98-107 | a block that spends no watched output of its own is undone exactly; if the undo is exact, every output it so spends was unspent before it; and if no watched output it creates was, the undo is exact if and only if there is no such spend |
| Wallet.SelfSpendStays | crates/bitrst-wallet/src/wallet.rs:98-107 | every watched output that a block creates and spends again is among the coins after the block is undone |
| Wallet.ConnectSynced | crates/bitrst-wallet/src/wallet.rs:58-97 | connecting the next active block keeps the wallet in step with the chain |
| Wallet.DisconnectSynced | crates/bitrst-wallet/src/wallet.rs:98-107 | disconnecting the last block keeps the wallet in step with the chain |
| Wallet.WalletFollowsChain | crates/bitrst-wallet/src/wallet.rs:50-114 | if every connect event carries the hash active at its height, the events between two states of a chain take the wallet's coins to the watched part of the new unspent outputs, through reorganisations too; blocks with one hash are told apart by the index, which holds one of them |
| Wallet.ActiveIsOrdinary | crates/bitrst-wallet/src/wallet.rs:50-114 | the active chain of every valid chain state meets what the wallet relies on, if no block spends watched outputs of its own |
| Wallet.CatchUp | src/cli/wallet/balance.rs:50-51 | takes the pending events of a running chain: an error for lost events exactly if the journal dropped one, otherwise the events applied up to the first connect event without an active block; and if the wallet was in step before them, no block active then or now spends watched outputs of its own and every connect event is of a block active at its height, the coins are the watched part of the chain's unspent outputs |
| Wallet.ConnectAndFollow | tests/wallet_events.rs:74-81 | connects the block with the chain's own result and outcome, and then the wallet takes the events of it, or keeps its state if the chain failed; if it was in step, no block active before or after spends watched outputs of its own, the journal held the events and the promotion of orphans did not reorganise, it is in step again, also when the block reorganises the chain |
| Wallet.BeginFollowing | src/cli/wallet/balance.rs:47-51 | succeeds exactly for an acceptable genesis block and a nonzero time, with the valid chain of that block alone and a wallet that has taken its event, in step if the genesis block spends no watched output of its own |
| Mempool.Mempool.AcceptTx | crates/bitrst-core/src/mempool.rs:209-246 | result and new state follow from the old state: a failed check changes nothing; a transaction that passes is admitted with its exact fee, size and rate after exactly the victims were evicted, or refused when there is no room without them and each entry left outranks it; all indexes and limits are kept |
| Mempool.RateOfEntry | crates/bitrst-core/src/mempool.rs:229-240 | the rate of an entry is inputs minus outputs over the length of its encoding, rounded down |
| Pool.ValidPlainly | crates/bitrst-core/src/mempool.rs:575-625 | what is admitted has at most 4000000 bytes, an input, an output, scripts of at most 10000 bytes, is no coinbase and names no outpoint twice |
| Pool.EntriesAreUnlocked | crates/bitrst-core/src/mempool.rs:567-573 | every input of every entry of a replayable pool spends an output unspent at that point and satisfies its script, and pays for the outputs |
| Mempool.Mempool.NoDoubleSpend | crates/bitrst-core/src/mempool.rs:449-463 | in every valid state of the pool no two inputs name the same outpoint |
| Mempool.Mempool.MakeRoomFor | crates/bitrst-core/src/mempool.rs:475-488 | evicts exactly the victims, a function of the pool and the request, and succeeds exactly if the newcomer then fits; VictimsHaveReason and VictimsSuffice say who they are in rates, ages and sizes |
| Mempool.AcceptKeepsReplayable | crates/bitrst-core/src/mempool.rs:209-246 | a refused or rejected transaction keeps the pool replayable, and so does an admitted one whose parents are not among the victims; if no victim has outputs on the chain the pool is replayable only then |
| Mempool.RichAncestorsAreKept | crates/bitrst-core/src/mempool.rs:475-520 | no parent of a transaction is a victim if all its ancestors in the pool have a higher fee rate than it |
| PoolWitness.OwnParentEvicted | crates/bitrst-core/src/mempool.rs:209-246 | a full pool in which a parent of the same fee rate is evicted for its child, which is admitted and can no longer be replayed |
| PoolIndex.LowestUnique | crates/bitrst-core/src/mempool.rs:511-520 | there is one lowest entry at most, so what is evicted depends on the pool and the request alone |
| PoolIndex.LowestPlainly | crates/bitrst-core/src/mempool.rs:511-520 | the lowest entry is the one such that every other has a higher rate, or the same rate and a higher admission number |
| PoolIndex.VictimsHaveReason | crates/bitrst-core/src/mempool.rs:475-520 | each victim is, or descends from, an entry that was evicted while the newcomer still broke a limit, paid no more than it, and paid least of all then left, the oldest of those |
| PoolIndex.VictimsSuffice | crates/bitrst-core/src/mempool.rs:475-488 | when the victims have gone, the newcomer fits or every entry left has a higher rate |
| PoolIndex.VictimsClosed | crates/bitrst-core/src/mempool.rs:475-488 | the victims take everything with them that leans on them |
| PoolIndex.VictimsSpare | crates/bitrst-core/src/mempool.rs:475-488 | a set of entries that holds its members' parents and outranks the newcomer loses none to the victims |
| Mempool.Mempool.DescendantsOf | crates/bitrst-core/src/mempool.rs:545-556 | the worklist computes the least set closed under spending outputs of the root or of a member |
| Mempool.Mempool.RemoveEntryAndDescendants | crates/bitrst-core/src/mempool.rs:558-564 | removes exactly the family of the entry, the least set with it that is closed under spending outputs of a member |
| Mempool.Mempool.RemoveEntry | crates/bitrst-core/src/mempool.rs:537-543 | removes one entry and keeps the order, the spend index and the byte count exact |
| Mempool.Mempool.InsertEntry | crates/bitrst-core/src/mempool.rs:522-535 | adds one entry at the end and keeps the order, the spend index and the byte count exact |
| Mempool.Mempool.LowestPriorityTxid | crates/bitrst-core/src/mempool.rs:511-520 | finds the entry of the lowest fee rate, the oldest among equals: every other has a higher rate, or the same and no lower number |
| Mempool.Mempool.ConflictsOf | crates/bitrst-core/src/mempool.rs:352-394 | the fixpoint loop computes the least set with the block's transactions that is closed under conflicting with the block or spending an output of a member |
| Mempool.Mempool.RemoveForBlock | crates/bitrst-core/src/mempool.rs:352-399 | removes exactly that set |
| Mempool.NothingConflicts | crates/bitrst-core/src/mempool.rs:352-399 | afterwards the pool holds none of the block's transactions and nothing that spends an output of theirs or what they spend |
| Pool.ConnectKeepsReplayable | crates/bitrst-core/src/mempool.rs:352-399 | what is left replays on the unspent outputs after the block: connecting a block makes nothing invalid that it does not remove |
| Mempool.Mempool.FindInvalid | crates/bitrst-core/src/mempool.rs:413-429 | lists exactly what a greedy replay in admission order rejects |
| Mempool.Mempool.RevalidatePool | crates/bitrst-core/src/mempool.rs:401-411 | leaves exactly the entries that the greedy replay keeps |
| Mempool.OnePassSuffices | crates/bitrst-core/src/mempool.rs:401-411 | the greedy replay of what it left rejects nothing: a second pass finds no entry to remove |
| Pool.GreedyReplayable | crates/bitrst-core/src/mempool.rs:401-429 | the greedy replay leaves a replayable pool, and a pool as it is exactly if it is replayable |
| Pool.DroppedIsInvalid | crates/bitrst-core/src/mempool.rs:413-429 | an entry that the greedy replay drops is not valid after those it kept before it |
| Pool.RemovalKeepsReplayable | crates/bitrst-core/src/mempool.rs:558-564 | removing entries with everything that leans on them keeps the rest replayable |
| Pool.NewcomerSurvivesIff | crates/bitrst-core/src/mempool.rs:209-246 | a validated newcomer is still valid after evictions exactly if none of its parents was evicted |
| Mempool.Mempool.RestoreCandidates | crates/bitrst-core/src/mempool.rs:431-447 | terminates; the run is a list of passes, each a chain of attempts offering what the pass before left over, the first one the candidates; the last pass, and only it, admitted nothing or left nothing over |
| Mempool.Mempool.RestorePass | crates/bitrst-core/src/mempool.rs:434-442 | one pass is a chain of attempts, each with the outcome of an admission, that offers every pending transaction in order; what is left over is what was not admitted, and there was progress exactly if something was |
| Mempool.Mempool.SynchronizeToChain | crates/bitrst-core/src/mempool.rs:255-276 | removes the conflicts of each connected block in turn, then everything the greedy replay on the new outputs rejects, and then restores the transactions of the disconnected blocks |
| Mempool.RestorableIff | crates/bitrst-core/src/mempool.rs:261-267 | a transaction is offered again exactly if it is no coinbase and stands after the first transaction of a disconnected block |
| Mempool.RestoreOfBlock | crates/bitrst-core/src/mempool.rs:261-267 | of a block without another coinbase all transactions after the first are offered, in order |
| Mempool.RestoreListConcat | crates/bitrst-core/src/mempool.rs:261-267 | the blocks are taken in turn |
| Mempool.LeftoversFail | crates/bitrst-core/src/mempool.rs:431-447 | if the last pass refused nothing for lack of room, each transaction it left over fails a check on the final pool |
| Mempool.CandidatesAccounted | crates/bitrst-core/src/mempool.rs:431-447 | the transactions admitted in all passes and those left over are together exactly the candidates, repeats counted |
| Mempool.RestorationReplays | crates/bitrst-core/src/mempool.rs:431-447 | restoration keeps the pool replayable if no admission evicts a parent of the transaction it admits |
| Mempool.SynchronizedReplays | crates/bitrst-core/src/mempool.rs:255-276 | under that condition a synchronised pool replays on the new outputs, whatever valid pool and whatever connected blocks it started from |
| Mempool.ExtensionKeepsReplayable | crates/bitrst-core/src/mempool.rs:255-276 | if the connected blocks extend the chain the pool replayed on, what remains replays on the chain after them and revalidation removes nothing |
| Mempool.Mempool.BuildValidationView | crates/bitrst-core/src/mempool.rs:465-473 | the chain's outputs after the pool's transactions in admission order |
| Pool.ViewIsReplay | crates/bitrst-core/src/mempool.rs:465-473 | the view is what a block of the pool's transactions, in admission order, would leave unspent |
| Mempool.Mempool.OrderedEntries | crates/bitrst-core/src/mempool.rs:465-469 | sorting by admission number lists every entry once in admission order |
| Mempool.Mempool.CheckMempoolConflicts | crates/bitrst-core/src/mempool.rs:449-463 | succeeds exactly if no input is spent in the pool, and otherwise names a spent outpoint and its owner |
| Mempool.IsValidForView | crates/bitrst-core/src/mempool.rs:567-573 | decides validity for a view |
| Mempool.CheckDuplicateInputs | crates/bitrst-core/src/mempool.rs:575-588 | succeeds exactly if all inputs differ, and otherwise reports a repeated one |
| Mempool.ValidateTxStructure | crates/bitrst-core/src/mempool.rs:590-625 | accepts exactly the well-formed transactions, with their size |
| Mempool.Mempool.ComputeFee | crates/bitrst-core/src/mempool.rs:627-653 | inputs minus outputs, failing exactly if an input is missing, the sum overflows or the outputs exceed it |

## Left out

- Command line, configuration, signals, and the network crate (sockets, peers, framing, handshake): input and output.
- Block storage on disk: storage is taken never to fail; the in-memory store, which the chain only writes to, is not part of the model.
- The lock-wrapped handles of chain and pool: every call is one atomic step here.
- Key generation, signing, addresses, the hash that signatures cover, and mining: uninterpreted or out of scope.
- The bound on how far a block's time may lead the network time is checked in `ValidateHeader` but is no part of what makes a chain valid, because the network time changes between checks.
- An index past the active chain in the expected-bits rule, a panic in the source, is the error `OutOfRange`; `Chain.Chain.OutOfRangeAside` says exactly when it occurs and `LongBranch.GrowBeside` gets there from blocks that fit, which are taken as given. The debug-only assertion there is not modelled.
- A byte sum of 256 in `sub_u256_le`, a panic in a checked build, is the outcome `ByteOverflow`; the value a wrapping build goes on with is not modelled.
- Relay and resync entry points of the pool that only combine modelled operations or drop one entry: `is_valid_tx`, `serve_transaction`, `apply_chain_events`, `resync_to_active_chain`.
- Accessors of chain, pool and wallet, among them the wallet's balance, are left out.
- Events across a failure: the source does not take back the events of a failed reorganisation, so the log then leads to the chain where the path broke and not to the active one; a wallet that takes those events is outside `ConnectAndFollow`.
- The command line discards the genesis event before its wallet is made (src/cli/chain.rs:40), so that wallet never sees the outputs of the genesis block; `BeginFollowing` takes the event.
- The order in which hash maps are iterated is arbitrary here, as it is there; results do not depend on it.
- Chain.Chain.ProcessOrphans: the orphans still queued when one fails have left the pool and are not connected, as in the source; which ones those are depends on the order of the hash map.
- Wallet.UndoExactIff: has no equivalence for a block that creates a watched output that was unspent before it, which needs a transaction to recreate an output that the block spends; it gives one implication each way there.
- Pow.PlainMantissaComputes: goes one way. If the middle byte of the mantissa is 255, or only the lowest one at an exponent below 19, whether a byte overflows depends on the remainders of single division steps; `WorkOverflows` states that exactly for each target, and the model has no shorter condition on such bits.
- Merkle.RootBinds: compares lists of equal length, because a repeated last element does keep the root.
- Uint256.DivU256Le: gives no quotient on runs in which a byte overflows; `OverflowExactlyForUnsafe` says for which divisors there are any.
