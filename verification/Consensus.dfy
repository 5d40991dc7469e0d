/** The consensus rules on plain sequences of blocks: replay from nothing, median time past,
    expected difficulty, and what makes a chain valid. */
module Consensus {
  import opened Types
  import opened Limits
  import opened Wire
  import opened Codec
  import opened Utxo
  import opened Merkle
  import opened Pow
  import opened Difficulty
  import Uint256

  const MEDIAN_WINDOW: nat := 11
  const MAX_FUTURE_BLOCK_TIME: u32 := 7200

  // ---- replay ----

  /** Each block names the one before it as its parent. */
  ghost predicate Linked(bs: seq<Block>) {
    forall i, j | 0 <= i && j == i + 1 && j < |bs| :: bs[j].header.prevBlockhash == BlockHash(bs[i])
  }

  /** The unspent outputs after applying the blocks to the empty set. */
  function Replay(bs: seq<Block>): Utxos {
    if bs == [] then map[] else ApplyTxs(Replay(bs[..|bs| - 1]), bs[|bs| - 1].transactions)
  }

  lemma ReplaySnoc(bs: seq<Block>, b: Block)
    ensures Replay(bs + [b]) == ApplyTxs(Replay(bs), b.transactions)
  {
    assert (bs + [b])[..|bs|] == bs;
  }

  // ---- median time past ----

  function InsertSorted(x: u32, s: seq<u32>): seq<u32> {
    if s == [] || x <= s[0] then [x] + s else [s[0]] + InsertSorted(x, s[1..])
  }

  function SortTimes(s: seq<u32>): (sorted: seq<u32>)
    ensures |sorted| == |s|
  {
    if s == [] then [] else InsertLength(s[0], SortTimes(s[1..])); InsertSorted(s[0], SortTimes(s[1..]))
  }

  lemma {:induction false} InsertLength(x: u32, s: seq<u32>)
    ensures |InsertSorted(x, s)| == |s| + 1
  {
    if s != [] && x > s[0] {
      InsertLength(x, s[1..]);
    }
  }

  /** The middle of the sorted times, zero if there are none. */
  function Median(times: seq<u32>): u32 {
    if times == [] then 0 else SortTimes(times)[|times| / 2]
  }

  /** How many of the times are at most v. */
  function CountUpTo(s: seq<u32>, v: int): nat {
    if s == [] then 0 else (if s[0] <= v then 1 else 0) + CountUpTo(s[1..], v)
  }

  function CountBelow(s: seq<u32>, v: int): nat {
    CountUpTo(s, v - 1)
  }

  lemma {:induction false} InsertCounts(x: u32, s: seq<u32>, v: int)
    ensures CountUpTo(InsertSorted(x, s), v) == (if x <= v then 1 else 0) + CountUpTo(s, v)
  {
    if s == [] || x <= s[0] {
      assert ([x] + s)[1..] == s;
    } else {
      InsertCounts(x, s[1..], v);
      assert ([s[0]] + InsertSorted(x, s[1..]))[1..] == InsertSorted(x, s[1..]);
    }
  }

  ghost predicate Ascending(s: seq<u32>) {
    forall i, j | 0 <= i <= j < |s| :: s[i] <= s[j]
  }

  lemma {:induction false} InsertAscending(x: u32, s: seq<u32>)
    requires Ascending(s)
    ensures Ascending(InsertSorted(x, s))
    ensures forall y | y in InsertSorted(x, s) :: y == x || y in s
  {
    if s != [] && x > s[0] {
      InsertAscending(x, s[1..]);
      var rest := InsertSorted(x, s[1..]);
      assert forall i | 0 <= i < |rest| :: rest[i] in rest;
      assert forall y | y in s[1..] :: s[0] <= y;
    } else if s != [] {
      assert forall y | y in s :: s[0] <= y;
    }
  }

  /** Sorting puts the times in order and keeps how many are at most any bound. */
  lemma {:induction false} SortedTimes(s: seq<u32>, v: int)
    ensures Ascending(SortTimes(s)) && CountUpTo(SortTimes(s), v) == CountUpTo(s, v)
  {
    if s != [] {
      SortedTimes(s[1..], v);
      InsertAscending(s[0], SortTimes(s[1..]));
      InsertCounts(s[0], SortTimes(s[1..]), v);
    }
  }

  lemma {:induction false} CountInSorted(s: seq<u32>, k: nat)
    requires Ascending(s) && k < |s|
    ensures CountUpTo(s, s[k]) > k
    ensures CountBelow(s, s[k]) <= k
  {
    if k == 0 {
      var first: int := s[0];
      CountNone(s, first - 1);
    } else {
      CountInSorted(s[1..], k - 1);
    }
  }

  lemma {:induction false} CountNone(s: seq<u32>, v: int)
    requires forall i | 0 <= i < |s| :: s[i] > v
    ensures CountUpTo(s, v) == 0
  {
    if s != [] {
      CountNone(s[1..], v);
    }
  }

  lemma {:induction false} CountMonotone(s: seq<u32>, v: int, w: int)
    requires v <= w
    ensures CountUpTo(s, v) <= CountUpTo(s, w)
  {
    if s != [] {
      CountMonotone(s[1..], v, w);
    }
  }

  /** What makes a time the median: more than half the times are at most it, no more than half below. */
  lemma MedianSplits(s: seq<u32>)
    requires s != []
    ensures CountUpTo(s, Median(s)) > |s| / 2
    ensures CountBelow(s, Median(s)) <= |s| / 2
  {
    hide CountUpTo, SortTimes;
    var sorted := SortTimes(s);
    SortedTimes(s, Median(s));
    var m: int := Median(s);
    SortedTimes(s, m - 1);
    CountInSorted(sorted, |s| / 2);
  }

  lemma {:induction false} CountPrefix(s: seq<u32>, n: nat, v: int)
    requires n <= |s|
    ensures CountUpTo(s[..n], v) <= CountUpTo(s, v)
  {
    if n > 0 {
      CountPrefix(s[1..], n - 1, v);
      assert s[..n][1..] == s[1..][..n - 1];
    }
  }

  /** A time above the median pushed in front of a window of at most eleven times never lowers the
      median, whether the window is full and drops its oldest time or is still filling. */
  lemma MedianNeverDecreases(window: seq<u32>, time: u32)
    requires 0 < |window| <= MEDIAN_WINDOW && time > Median(window)
    ensures Median([time] + window[..if |window| == MEDIAN_WINDOW then |window| - 1 else |window|]) >= Median(window)
  {
    hide CountUpTo, Median;
    var n := if |window| == MEDIAN_WINDOW then |window| - 1 else |window|;
    var kept := window[..n];
    var next := [time] + kept;
    var m: int, m': int := Median(window), Median(next);
    MedianSplits(window);
    MedianSplits(next);
    if m' < m {
      CountCons(time, kept, m');
      CountPrefix(window, n, m');
      CountMonotone(window, m', m - 1);
      assert false;
    }
  }

  lemma CountCons(x: u32, s: seq<u32>, v: int)
    ensures CountUpTo([x] + s, v) == (if x <= v then 1 else 0) + CountUpTo(s, v)
  {
    assert ([x] + s)[1..] == s;
  }

  /** The times of the last n blocks, newest first. */
  function RecentTimes(bs: seq<Block>, n: nat): seq<u32>
    decreases n
  {
    if n == 0 || bs == [] then [] else [bs[|bs| - 1].header.time] + RecentTimes(bs[..|bs| - 1], n - 1)
  }

  function MedianPast(bs: seq<Block>): u32 {
    Median(RecentTimes(bs, MEDIAN_WINDOW))
  }

  // ---- expected difficulty ----

  datatype BitsError = NoTip | OutOfRange | AdjustmentFailed(error: DifficultyError)

  /** The bits a block at this height must carry, computed from the given active blocks: those of the
      tip, or at the start of a period the adjusted ones. `OutOfRange` is an index past the end. */
  function ExpectedBits(bs: seq<Block>, height: nat, blockBits: u32): Result<u32, BitsError> {
    if height == 0 then Ok(blockBits)
    else if height % DIFFICULTY_ADJUSTMENT_INTERVAL != 0 then
      if bs == [] then Err(NoTip) else Ok(bs[|bs| - 1].header.bits)
    else
      var start := height - DIFFICULTY_ADJUSTMENT_INTERVAL;
      if start >= |bs| then Ok(MAX_COMPACT_BITS)
      else if height > |bs| then Err(OutOfRange)
      else
        var first, last := bs[start].header, bs[height - 1].header;
        var timespan := if last.time < first.time then 0 else last.time - first.time;
        match AdjustedBits(last.bits, timespan)
        case Ok(bits) => Ok(bits)
        case Err(e) => Err(AdjustmentFailed(e))
  }

  /** A height above the chain that ends a period whose first block is in the chain. */
  predicate PastPeriodEnd(bs: seq<Block>, height: nat) {
    height % DIFFICULTY_ADJUSTMENT_INTERVAL == 0 && height - DIFFICULTY_ADJUSTMENT_INTERVAL < |bs| < height
  }

  /** When the index runs past the end of the chain. */
  lemma OutOfRangeExactly(bs: seq<Block>, height: nat, blockBits: u32)
    ensures ExpectedBits(bs, height, blockBits) == Err(OutOfRange) <==> PastPeriodEnd(bs, height)
  {
    hide AdjustedBits;
  }

  // ---- validity ----

  function CoinbaseCount(txs: seq<Transaction>): nat {
    if txs == [] then 0 else CoinbaseCount(txs[..|txs| - 1]) + if IsCoinbase(txs[|txs| - 1]) then 1 else 0
  }

  predicate WithinBlockLimits(block: Block) {
    && BlockSize(block) <= MAX_BLOCK_SERIALIZED_SIZE
    && |block.transactions| <= MAX_TRANSACTIONS_PER_BLOCK
    && forall tx | tx in block.transactions :: ScriptsWithinLimits(tx)
  }

  predicate ScriptsWithinLimits(tx: Transaction) {
    && (forall input | input in tx.inputs :: |input.scriptSig| <= MAX_SCRIPT_SIZE)
    && (forall output | output in tx.outputs :: |output.scriptPubkey| <= MAX_SCRIPT_SIZE)
  }

  predicate MeetsTarget(block: Block) {
    TargetOf(block.header.bits).Some? && FromLe(BlockHash(block)) <= TargetOf(block.header.bits).value
  }

  predicate CoinbaseFirst(txs: seq<Transaction>) {
    CoinbaseCount(txs) == 1 && IsCoinbase(txs[0])
  }

  /** The rules that need no chain: proof of work, commitment, coinbase, and a defined work. */
  predicate Sealed(block: Block) {
    && WithinBlockLimits(block)
    && MeetsTarget(block)
    && MerkleMatches(block)
    && |block.transactions| > 0
    && CoinbaseFirst(block.transactions)
    && BlockWork(block.header.bits).Some?
  }

  /** The outpoints a list of transactions spends, in order. */
  function SpendList(txs: seq<Transaction>): seq<OutPoint> {
    if txs == [] then [] else SpendList(txs[..|txs| - 1]) + InputPoints(SpentInputs(txs[|txs| - 1]))
  }

  function InputPoints(inputs: seq<TxInput>): seq<OutPoint> {
    seq(|inputs|, i requires 0 <= i < |inputs| => OutPointOf(inputs[i]))
  }

  ghost predicate Distinct<T>(s: seq<T>) {
    forall i, j | 0 <= i < j < |s| :: s[i] != s[j]
  }

  predicate TxAccepted(m: Utxos, tx: Transaction) {
    TxValid(m, tx) && (IsCoinbase(tx) || ScriptsOk(m, tx))
  }

  ghost predicate AllAccepted(m: Utxos, txs: seq<Transaction>) {
    forall i | 0 <= i < |txs| :: TxAccepted(ApplyTxs(m, txs[..i]), txs[i])
  }

  /** No outpoint is spent twice and each transaction is valid after the ones before it. */
  ghost predicate TxsValid(m: Utxos, txs: seq<Transaction>) {
    Distinct(SpendList(txs)) && AllAccepted(m, txs)
  }

  /** A block may follow these blocks. (The bound on how far its time may lead the network's is left
      out: it holds of the moment of the check, not of the chain.) */
  ghost predicate MayFollow(bs: seq<Block>, block: Block) {
    && Sealed(block)
    && block.header.time > MedianPast(bs)
    && ExpectedBits(bs, |bs|, block.header.bits) == Ok(block.header.bits)
    && TxsValid(Replay(bs), block.transactions)
  }

  ghost predicate ValidGenesis(block: Block) {
    Sealed(block) && TxsValid(map[], block.transactions)
  }

  /** Every block satisfies every rule against the replay of its own prefix. */
  ghost predicate ValidChain(bs: seq<Block>) {
    && bs != []
    && Linked(bs)
    && ValidGenesis(bs[0])
    && forall i | 1 <= i < |bs| :: MayFollow(bs[..i], bs[i])
  }

  lemma ValidChainSnoc(bs: seq<Block>, block: Block)
    requires ValidChain(bs) && MayFollow(bs, block) && block.header.prevBlockhash == BlockHash(bs[|bs| - 1])
    ensures ValidChain(bs + [block])
  {
    hide MayFollow, ValidGenesis, BlockHash;
    var longer := bs + [block];
    forall i | 1 <= i < |longer|
      ensures MayFollow(longer[..i], longer[i])
    {
      assert longer[..i] == bs[..i];
      assert i == |bs| ==> bs[..i] == bs;
    }
  }

  lemma ValidChainPrefix(bs: seq<Block>, n: nat)
    requires ValidChain(bs) && 0 < n <= |bs|
    ensures ValidChain(bs[..n])
  {
    hide MayFollow, ValidGenesis, BlockHash;
    var shorter := bs[..n];
    forall i | 1 <= i < |shorter|
      ensures MayFollow(shorter[..i], shorter[i])
    {
      assert shorter[..i] == bs[..i];
    }
  }

  // ---- the standing hypotheses ----

  /** No block creates an output that is already unspent, other than one its transaction spends. */
  ghost predicate FreshChain(bs: seq<Block>) {
    forall i | 0 <= i < |bs| :: AllFresh(Replay(bs[..i]), bs[i].transactions)
  }

  /** Total work of a list of blocks. */
  function WorkOfChain(bs: seq<Block>): nat {
    if bs == [] then 0 else WorkOfChain(bs[..|bs| - 1]) + WorkOfBlock(bs[|bs| - 1])
  }

  function WorkOfBlock(block: Block): nat {
    match BlockWork(block.header.bits)
    case None => 0
    case Some(w) => w
  }

  /** Some height above the genesis block asks for these bits on this chain. */
  ghost predicate AsksFor(bs: seq<Block>, bits: u32) {
    exists height: nat | height > 0 :: ExpectedBits(bs, height, bits) == Ok(bits)
  }

  /** What is assumed of the blocks that reach a node with this genesis. Nothing is of those that fail a check
      of their own; of the others, none hashes to the genesis block's parent, the work of their linked chains
      stays below 2^256, their valid chains are fresh (BIP 30), and computing the work of bits that a valid
      chain asks for overflows no byte. */
  ghost predicate Admissible(genesis: Block, universe: iset<Block>) {
    && (Sealed(genesis) ==> WorkComputes(genesis.header.bits))
    && (forall b | b in universe && Sealed(b) :: BlockHash(b) != genesis.header.prevBlockhash)
    && (forall bs: seq<Block> | InUniverse(bs, genesis, universe) ::
          WorkOfChain(bs) < Uint256.Limit() && (ValidChain(bs) ==> FreshChain(bs)))
    && (forall bs: seq<Block>, b | InUniverse(bs, genesis, universe) && ValidChain(bs) && b in universe && Sealed(b)
                                   && AsksFor(bs, b.header.bits) ::
          WorkComputes(b.header.bits))
  }

  /** A linked list of sealed blocks of the universe from the genesis block. */
  ghost predicate InUniverse(bs: seq<Block>, genesis: Block, universe: iset<Block>) {
    bs != [] && bs[0] == genesis && Linked(bs) && forall i | 0 <= i < |bs| :: bs[i] in universe && Sealed(bs[i])
  }
}
