/** Value types shared by every module: bytes, machine words, hashes, blocks and
    transactions, and the failure-compatible result of a fallible operation. */
module Types {
  type byte = x: int | 0 <= x < 0x100
  type u32 = x: int | 0 <= x < 0x1_0000_0000
  type u64 = x: int | 0 <= x < 0x1_0000_0000_0000_0000
  type i32 = x: int | -0x8000_0000 <= x < 0x8000_0000

  type Bytes = seq<byte>

  const ZERO_BYTES_32: Bytes := [
    0, 0, 0, 0, 0, 0, 0, 0, 0, 0, 0, 0, 0, 0, 0, 0,
    0, 0, 0, 0, 0, 0, 0, 0, 0, 0, 0, 0, 0, 0, 0, 0]

  /** A 256-bit value in internal byte order: index 0 is the least significant byte. */
  type Hash = s: Bytes | |s| == 32 witness ZERO_BYTES_32

  /** A HASH160 digest. */
  type Hash20 = s: Bytes | |s| == 20 witness ZERO_BYTES_32[..20]

  const ZERO_HASH: Hash := ZERO_BYTES_32

  const U32_MAX: u32 := 0xffff_ffff

  /** Success or failure of an operation of the program; usable with `:-`. */
  datatype Result<+T, +E> = Ok(value: T) | Err(error: E) {
    predicate IsFailure() {
      Err?
    }

    function PropagateFailure<U>(): Result<U, E>
      requires Err?
    {
      Err(error)
    }

    function Extract(): T
      requires Ok?
    {
      value
    }
  }

  datatype Option<+T> = None | Some(value: T)

  datatype TxInput = TxInput(previousOutput: Hash, index: u32, scriptSig: Bytes, sequence: u32)

  datatype TxOutput = TxOutput(value: u64, scriptPubkey: Bytes)

  datatype Transaction = Transaction(version: i32, inputs: seq<TxInput>, outputs: seq<TxOutput>, lockTime: u32)

  datatype BlockHeader = BlockHeader(
    version: i32, prevBlockhash: Hash, merkleRoot: Hash, time: u32, bits: u32, nonce: u32)

  datatype Block = Block(header: BlockHeader, transactions: seq<Transaction>)

  /** One spendable output of a transaction. */
  datatype OutPoint = OutPoint(txid: Hash, index: u32)

  function OutPointOf(input: TxInput): OutPoint {
    OutPoint(input.previousOutput, input.index)
  }
}

/** The cryptographic primitives. They are constants without a value: every theorem of
    the project holds whatever functions they are. */
module Crypto {
  import opened Types

  const Sha256d: Bytes -> Hash
  const Hash160: Bytes -> Hash20
  const VerifyDerSignature: (Bytes, Bytes, Hash) -> bool
  const SighashAll: (Transaction, nat, seq<Bytes>) -> Hash
}

/** Protocol limits. */
module Limits {
  const MAX_BLOCK_SERIALIZED_SIZE := 4_000_000
  const MAX_TRANSACTION_SERIALIZED_SIZE := MAX_BLOCK_SERIALIZED_SIZE
  const MAX_ORPHAN_BLOCKS := 256
  const MAX_TRANSACTIONS_PER_BLOCK := 25_000
  const MAX_TRANSACTION_INPUTS := 25_000
  const MAX_TRANSACTION_OUTPUTS := 25_000
  const MAX_SCRIPT_SIZE := 10_000
}
