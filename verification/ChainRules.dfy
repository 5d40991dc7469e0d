/** Results, errors and event replay of the chain, and the shape of a fork path. */
module ChainRules {
  import opened Types
  import opened Codec
  import opened Utxo
  import opened Merkle
  import opened Wire
  import opened Pow
  import opened Consensus
  import opened BlockTree
  import opened Journals
  import PlainRules

  datatype ConnectResult =
    | Connected(height: nat, hash: Hash)
    | Orphaned(hash: Hash)
    | Reorganized(oldTip: Hash, newTip: Hash)
    | SideChain(height: nat, hash: Hash)

  datatype ChainError =
    | InvalidProofOfWork
    | MerkleRootMismatch
    | InvalidCoinbaseCount(count: nat)
    | InvalidTimestamp(blockTime: u32, medianPast: u32, networkTime: u32)
    | UnexpectedBits(height: nat, expected: u32, actual: u32)
    | BitsUnavailable(bitsError: BitsError)
    | TransactionInvalid(utxoError: UtxoError)
    | InvalidScript
    | BlockAlreadyKnown
    | BlockTooLarge
    | TooManyTransactions
    | ScriptTooLarge
    | MissingAncestor
    | NoActiveTip
    | InvalidNetworkTime

  // ---- header rules ----

  predicate ValidBlockTime(blockTime: u32, medianPast: u32, networkTime: u32) {
    && blockTime > medianPast
    && blockTime <= (if networkTime > U32_MAX - MAX_FUTURE_BLOCK_TIME then U32_MAX else networkTime + MAX_FUTURE_BLOCK_TIME)
  }

  /** The verdict on a header, given the median time past of its parent if it has one: the first rule it
      breaks, in the order of the checks. */
  function HeaderRules(active: seq<Block>, networkTime: u32, block: Block, medianPast: Option<u32>, height: nat)
      : Result<(), ChainError> {
    var header := block.header;
    if !MeetsTarget(block) then Err(InvalidProofOfWork)
    else if !MerkleMatches(block) then Err(MerkleRootMismatch)
    else if !CoinbaseFirst(block.transactions) then Err(InvalidCoinbaseCount(CoinbaseCount(block.transactions)))
    else if medianPast.Some? && !ValidBlockTime(header.time, medianPast.value, networkTime) then
      Err(InvalidTimestamp(header.time, medianPast.value, networkTime))
    else
      match ExpectedBits(active, height, header.bits)
      case Err(cause) => Err(BitsUnavailable(cause))
      case Ok(expected) =>
        if header.bits != expected then Err(UnexpectedBits(height, expected, header.bits)) else Ok(())
  }

  /** The verdict on a header whose parent, if it has one, is looked up in the index. */
  function HeaderVerdict(known: Known, active: seq<Block>, networkTime: u32, block: Block,
                         parent: Option<Hash>, height: nat): Result<(), ChainError> {
    HeaderRules(active, networkTime, block, if parent.Some? then Some(MedianBefore(known, parent.value)) else None, height)
  }

  /** The verdict in plain terms: mined, committed to, one coinbase at the front, a time after the median and no
      more than two hours ahead, the bits that the chain asks for; the error names the first of these that fails. */
  lemma HeaderPlainly(active: seq<Block>, networkTime: u32, block: Block, medianPast: u32, height: nat)
    ensures
      var header, target := block.header, TargetOf(block.header.bits);
      var r := HeaderRules(active, networkTime, block, Some(medianPast), height);
      if target.None? || FromLe(BlockHash(block)) > target.value then r == Err(InvalidProofOfWork)
      else if RootOf(Txids(block.transactions)) != Some(header.merkleRoot) then r == Err(MerkleRootMismatch)
      else if exists j | 0 <= j < |block.transactions| ::
        PlainRules.NamesNothing(block.transactions[j].inputs) != (j == 0) then r.Err? && r.error.InvalidCoinbaseCount?
      else if header.time <= medianPast || header.time > networkTime + 7200 then
        r == Err(InvalidTimestamp(header.time, medianPast, networkTime))
      else match ExpectedBits(active, height, header.bits)
        case Err(cause) => r == Err(BitsUnavailable(cause))
        case Ok(bits) => if header.bits != bits then r == Err(UnexpectedBits(height, bits, header.bits)) else r == Ok(())
  {
    hide BlockHash, TargetOf, RootOf, Txids, ExpectedBits, CoinbaseFirst, CoinbaseCount, FromLe;
    PlainRules.CoinbasePlainly(block.transactions);
    if block.transactions == [] {
      NoRoot();
    }
  }

  lemma NoRoot()
    ensures RootOf([]) == None && Txids([]) == []
  {
  }

  // ---- the verdict on a block that extends a chain ----

  function VerdictOn(chain: seq<Block>, networkTime: u32, block: Block): Result<(), ChainError> {
    HeaderRules(chain, networkTime, block, Some(MedianPast(chain)), |chain|)
  }

  /** No block that extends a chain makes the index run past its end. */
  lemma TipInRange(chain: seq<Block>, networkTime: u32, block: Block)
    ensures VerdictOn(chain, networkTime, block) != Err(BitsUnavailable(OutOfRange))
  {
    hide MeetsTarget, MerkleMatches, CoinbaseFirst, CoinbaseCount, ExpectedBits, MedianPast, ValidBlockTime;
    OutOfRangeExactly(chain, |chain|, block.header.bits);
  }

  /** The checks of a header that come before the expected bits. */
  predicate PassesUpToBits(known: Known, networkTime: u32, block: Block) {
    && MeetsTarget(block) && MerkleMatches(block) && CoinbaseFirst(block.transactions)
    && ValidBlockTime(block.header.time, MedianBefore(known, PrevOf(block)), networkTime)
  }

  lemma VerdictOutOfRange(known: Known, active: seq<Block>, networkTime: u32, block: Block, height: nat)
    ensures
      HeaderVerdict(known, active, networkTime, block, Some(PrevOf(block)), height) == Err(BitsUnavailable(OutOfRange))
      <==>
      PassesUpToBits(known, networkTime, block) && ExpectedBits(active, height, block.header.bits) == Err(OutOfRange)
  {
    hide MeetsTarget, MerkleMatches, CoinbaseFirst, CoinbaseCount, ExpectedBits, MedianBefore, ValidBlockTime;
  }

  /** The block passes every check against the blocks before it and their replay, at this network time. */
  ghost predicate PassesOn(chain: seq<Block>, networkTime: u32, block: Block) {
    VerdictOn(chain, networkTime, block).Ok? && TxsValid(Replay(chain), block.transactions)
  }

  /** The block fails a check against the blocks before it and their replay, and this is the error. */
  ghost predicate FailsOn(chain: seq<Block>, networkTime: u32, block: Block, e: ChainError) {
    match VerdictOn(chain, networkTime, block)
    case Err(cause) => e == cause
    case Ok(_) => !TxsValid(Replay(chain), block.transactions) && (e.TransactionInvalid? || e == InvalidScript)
  }

  /** The result is the verdict on the block as the next one of the chain. */
  ghost predicate Judged(chain: seq<Block>, networkTime: u32, block: Block, r: Result<(), ChainError>) {
    match r
    case Err(e) => FailsOn(chain, networkTime, block, e)
    case Ok(_) => PassesOn(chain, networkTime, block)
  }

  /** What is checked against the index and the cached outputs is the verdict on the active blocks alone. */
  lemma VerdictOfActive(known: Known, blocks: seq<Block>, active: set<Hash>, utxos: Utxos, genesis: Block,
                        universe: iset<Block>, networkTime: u32, block: Block)
    requires ChainInv(known, blocks, active, utxos, genesis, universe) && PrevOf(block) == TipOf(blocks)
    ensures HeaderVerdict(known, blocks, networkTime, block, Some(PrevOf(block)), |blocks|) ==
      VerdictOn(blocks, networkTime, block)
    ensures utxos == Replay(blocks)
  {
    hide BlockHash, HeaderRules, Admissible, TreeInv, AllActive, ValidChain, MedianBefore, MedianPast, Replay, Hashes;
    MedianOfActive(known, blocks, active, utxos, genesis, universe);
  }

  /** A header accepted on top of the active chain, with valid transactions and a defined work, may
      follow it. */
  lemma AcceptedMayFollow(known: Known, blocks: seq<Block>, active: set<Hash>, utxos: Utxos, genesis: Block,
                          universe: iset<Block>, networkTime: u32, block: Block)
    requires TreeInv(known, genesis, universe) && Admissible(genesis, universe)
    requires ActiveInv(known, blocks, active, utxos, genesis)
    requires WithinBlockLimits(block) && BlockWork(block.header.bits).Some?
    requires PrevOf(block) == TipOf(blocks)
    requires HeaderVerdict(known, blocks, networkTime, block, Some(PrevOf(block)), |blocks|).Ok?
    requires TxsValid(utxos, block.transactions)
    ensures MayFollow(blocks, block)
  {
    hide BlockHash, Admissible, TreeInv, AllActive, ValidChain, MedianBefore, MedianPast, WithinBlockLimits, MeetsTarget,
         MerkleMatches, BlockWork, TxsValid, Replay, ExpectedBits, Hashes;
    MedianOfActive(known, blocks, active, utxos, genesis, universe);
  }

  // ---- event replay ----

  /** The known block of this hash has this many transactions, and the top of the stack is its parent. */
  predicate ChildOf(known: Known, stack: seq<Hash>, hash: Hash, txCount: nat) {
    && hash in known && |known[hash].block.transactions| == txCount
    && (stack == [] || PrevOf(known[hash].block) == stack[|stack| - 1])
  }

  /** The stack of active hashes after an event: a connect pushes a child of the top at its height, a
      disconnect pops the top at its height. */
  function ReplayEvent(known: Known, stack: Option<seq<Hash>>, event: ChainEvent): Option<seq<Hash>> {
    match stack
    case None => None
    case Some(s) =>
      match event
      case BlockConnected(height, hash, txCount) =>
        if height == |s| && ChildOf(known, s, hash, txCount) then Some(s + [hash]) else None
      case BlockDisconnected(height, hash) =>
        if |s| > 0 && height == |s| - 1 && s[|s| - 1] == hash then Some(s[..|s| - 1]) else None
      case _ => stack
  }

  function ReplayEvents(known: Known, stack: Option<seq<Hash>>, events: seq<ChainEvent>)
      : Option<seq<Hash>> {
    if events == [] then stack
    else ReplayEvent(known, ReplayEvents(known, stack, events[..|events| - 1]), events[|events| - 1])
  }

  lemma {:induction false} ReplayEventsConcat(known: Known, stack: Option<seq<Hash>>,
                                              a: seq<ChainEvent>, b: seq<ChainEvent>)
    ensures ReplayEvents(known, stack, a + b) == ReplayEvents(known, ReplayEvents(known, stack, a), b)
    decreases |b|
  {
    hide ReplayEvent;
    if b == [] {
      assert a + b == a;
    } else {
      var n := |b| - 1;
      assert (a + b)[..|a| + n] == a + b[..n];
      ReplayEventsConcat(known, stack, a, b[..n]);
    }
  }

  /** The events logged since `before` turn the active hashes of `from` into those of `to`. */
  predicate EventsTurn(known: Known, before: seq<ChainEvent>, after: seq<ChainEvent>,
                             from: seq<Block>, to: seq<Block>) {
    && before <= after
    && ReplayEvents(known, Some(Hashes(from)), after[|before|..]) == Some(Hashes(to))
  }

  lemma EventsTurnNothing(known: Known, log: seq<ChainEvent>, blocks: seq<Block>)
    ensures EventsTurn(known, log, log, blocks, blocks)
  {
    assert log[|log|..] == [];
  }

  lemma EventsTurnTrans(known: Known, a: seq<ChainEvent>, b: seq<ChainEvent>, c: seq<ChainEvent>,
                        x: seq<Block>, y: seq<Block>, z: seq<Block>)
    requires EventsTurn(known, a, b, x, y) && EventsTurn(known, b, c, y, z)
    ensures EventsTurn(known, a, c, x, z)
  {
    hide ReplayEvents, Hashes;
    assert c[|a|..] == b[|a|..] + c[|b|..];
    ReplayEventsConcat(known, Some(Hashes(x)), b[|a|..], c[|b|..]);
  }

  lemma ReplayEventKept(known: Known, later: Known, stack: Option<seq<Hash>>, event: ChainEvent)
    requires KeepsNodes(known, later) && ReplayEvent(known, stack, event).Some?
    ensures ReplayEvent(later, stack, event) == ReplayEvent(known, stack, event)
  {
  }

  lemma ReplayNone(known: Known, event: ChainEvent)
    ensures ReplayEvent(known, None, event) == None
  {
  }

  lemma {:induction false} ReplayEventsKept(known: Known, later: Known, stack: Option<seq<Hash>>,
                                            events: seq<ChainEvent>)
    requires KeepsNodes(known, later) && ReplayEvents(known, stack, events).Some?
    ensures ReplayEvents(later, stack, events) == ReplayEvents(known, stack, events)
    decreases |events|
  {
    hide KeepsNodes, ReplayEvent;
    if events != [] {
      var n := |events| - 1;
      ReplayNone(known, events[n]);
      ReplayEventsKept(known, later, stack, events[..n]);
      ReplayEventKept(known, later, ReplayEvents(known, stack, events[..n]), events[n]);
    }
  }

  /** What the events did on an index they do on every later one. */
  lemma EventsTurnKept(known: Known, later: Known, before: seq<ChainEvent>, after: seq<ChainEvent>,
                       from: seq<Block>, to: seq<Block>)
    requires KeepsNodes(known, later) && EventsTurn(known, before, after, from, to)
    ensures EventsTurn(later, before, after, from, to)
  {
    hide KeepsNodes, ReplayEvents, Hashes;
    ReplayEventsKept(known, later, Some(Hashes(from)), after[|before|..]);
  }

  lemma EventsTurnOne(known: Known, log: seq<ChainEvent>, event: ChainEvent, from: seq<Block>, to: seq<Block>)
    requires ReplayEvent(known, Some(Hashes(from)), event) == Some(Hashes(to))
    ensures EventsTurn(known, log, log + [event], from, to)
  {
    hide ReplayEvent, Hashes;
    assert (log + [event])[|log|..] == [event];
    assert [event][..0] == [];
    var start := Some(Hashes(from));
    assert ReplayEvents(known, start, []) == start;
    assert ReplayEvents(known, start, [event]) == ReplayEvent(known, ReplayEvents(known, start, []), event);
  }

  function ConnectEvent(block: Block, height: nat): ChainEvent {
    BlockConnected(height, BlockHash(block), |block.transactions|)
  }

  lemma ConnectEventTurns(known: Known, log: seq<ChainEvent>, blocks: seq<Block>, block: Block)
    requires BlockHash(block) in known && known[BlockHash(block)].block == block
    requires blocks != [] ==> PrevOf(block) == TipOf(blocks)
    ensures EventsTurn(known, log, log + [ConnectEvent(block, |blocks|)], blocks, blocks + [block])
  {
    hide BlockHash;
    HashesSnoc(blocks, block);
    assert ChildOf(known, Hashes(blocks), BlockHash(block), |block.transactions|);
    EventsTurnOne(known, log, ConnectEvent(block, |blocks|), blocks, blocks + [block]);
  }

  lemma DisconnectEventTurns(known: Known, log: seq<ChainEvent>, blocks: seq<Block>, n: nat)
    requires |blocks| == n + 1
    ensures EventsTurn(known, log, log + [BlockDisconnected(n, BlockHash(blocks[n]))], blocks, blocks[..n])
  {
    hide BlockHash;
    assert blocks == blocks[..n] + [blocks[n]];
    HashesSnoc(blocks[..n], blocks[n]);
    assert Hashes(blocks)[..n] == Hashes(blocks[..n]);
    EventsTurnOne(known, log, BlockDisconnected(n, BlockHash(blocks[n])), blocks, blocks[..n]);
  }

  lemma OtherEventTurns(known: Known, log: seq<ChainEvent>, event: ChainEvent, blocks: seq<Block>)
    requires !event.BlockConnected? && !event.BlockDisconnected?
    ensures EventsTurn(known, log, log + [event], blocks, blocks)
  {
    EventsTurnOne(known, log, event, blocks, blocks);
  }

  // ---- connect events of active blocks ----

  /** Each connect event carries the hash of the block that is active at its height. */
  ghost predicate HashesActive(active: seq<Block>, events: seq<ChainEvent>) {
    forall i | 0 <= i < |events| :: HashActive(active, events[i])
  }

  ghost predicate HashActive(active: seq<Block>, event: ChainEvent) {
    event.BlockConnected? ==> event.height < |active| && event.hash == BlockHash(active[event.height])
  }

  /** The connect events logged since `before` are of active blocks. */
  ghost predicate ActiveSince(active: seq<Block>, before: seq<ChainEvent>, log: seq<ChainEvent>) {
    forall i | |before| <= i < |log| :: HashActive(active, log[i])
  }

  lemma ActiveSinceNow(active: seq<Block>, log: seq<ChainEvent>)
    ensures ActiveSince(active, log, log)
  {
  }

  lemma ActiveSinceGrows(active: seq<Block>, longer: seq<Block>, before: seq<ChainEvent>, log: seq<ChainEvent>)
    requires ActiveSince(active, before, log) && active <= longer
    ensures ActiveSince(longer, before, log)
  {
    hide BlockHash;
  }

  lemma ActiveSinceSnoc(active: seq<Block>, before: seq<ChainEvent>, log: seq<ChainEvent>, event: ChainEvent)
    requires ActiveSince(active, before, log) && HashActive(active, event)
    ensures ActiveSince(active, before, log + [event])
  {
    hide BlockHash;
  }

  lemma ActiveSinceTrans(active: seq<Block>, before: seq<ChainEvent>, log: seq<ChainEvent>, longer: seq<ChainEvent>)
    requires ActiveSince(active, before, log) && log <= longer && ActiveSince(active, log, longer)
    ensures ActiveSince(active, before, longer)
  {
    hide HashActive;
    assert forall i | 0 <= i < |log| :: longer[i] == log[i];
  }

  /** A block put on the tip is active at the height its connect event names. */
  lemma ActiveSinceConnect(active: seq<Block>, before: seq<ChainEvent>, log: seq<ChainEvent>, block: Block)
    requires ActiveSince(active, before, log)
    ensures ActiveSince(active + [block], before, log + [ConnectEvent(block, |active|)])
  {
    hide BlockHash;
    ActiveSinceGrows(active, active + [block], before, log);
    ActiveSinceSnoc(active + [block], before, log, ConnectEvent(block, |active|));
  }

  // ---- the disconnect journal follows the event journal ----

  lemma RecordsAfterOther(log: seq<ChainEvent>, recorded: seq<BlockEntry>, event: ChainEvent)
    requires RecordsDisconnects(log, recorded) && !event.BlockDisconnected?
    ensures RecordsDisconnects(log + [event], recorded)
  {
    hide BlockHash, Increasing, HasRecord;
    forall i | 0 <= i < |recorded|
      ensures IsDisconnectOf(log + [event], recorded[i])
    {
      assert IsDisconnectOf(log, recorded[i]);
    }
  }

  lemma HasRecordSnoc(recorded: seq<BlockEntry>, entry: BlockEntry, eventSeq: nat)
    requires HasRecord(recorded, eventSeq) || entry.eventSeq == eventSeq
    ensures HasRecord(recorded + [entry], eventSeq)
  {
    var longer := recorded + [entry];
    if HasRecord(recorded, eventSeq) {
      var i :| 0 <= i < |recorded| && recorded[i].eventSeq == eventSeq;
      assert longer[i] == recorded[i];
    } else {
      assert longer[|recorded|] == entry;
    }
  }

  lemma RecordsAfterDisconnect(log: seq<ChainEvent>, recorded: seq<BlockEntry>, height: nat, block: Block)
    requires RecordsDisconnects(log, recorded)
    ensures RecordsDisconnects(log + [BlockDisconnected(height, BlockHash(block))],
                               recorded + [BlockEntry(|log| + 1, block)])
  {
    hide BlockHash, HasRecord;
    var event, entry := BlockDisconnected(height, BlockHash(block)), BlockEntry(|log| + 1, block);
    var log', recorded' := log + [event], recorded + [entry];
    forall i | 0 <= i < |recorded|
      ensures IsDisconnectOf(log', recorded[i]) && recorded[i].eventSeq < entry.eventSeq
    {
      assert IsDisconnectOf(log, recorded[i]);
    }
    IncreasingSnoc(recorded, entry);
    assert IsDisconnectOf(log', entry);
    hide Increasing, IsDisconnectOf;
    forall p | 0 <= p < |log'| && log'[p].BlockDisconnected?
      ensures HasRecord(recorded', p + 1)
    {
      HasRecordSnoc(recorded, entry, p + 1);
    }
  }

  lemma IncreasingSnoc(recorded: seq<BlockEntry>, entry: BlockEntry)
    requires Increasing(recorded) && forall i | 0 <= i < |recorded| :: recorded[i].eventSeq < entry.eventSeq
    ensures Increasing(recorded + [entry])
  {
  }

  // ---- fork paths ----

  /** A linked list of known inactive blocks that ends with the given one and starts under an active block. */
  ghost predicate ForkPath(known: Known, active: set<Hash>, path: seq<Block>, fork: Hash, last: Block) {
    && path != [] && path[|path| - 1] == last
    && fork in active && PrevOf(path[0]) == fork
    && Linked(path)
    && (forall i | 0 <= i < |path| - 1 :: InactiveNode(known, active, path[i]))
  }

  ghost predicate InactiveNode(known: Known, active: set<Hash>, block: Block) {
    BlockHash(block) in known && known[BlockHash(block)].block == block && BlockHash(block) !in active
  }

  lemma ParentInactive(known: Known, active: set<Hash>, path: seq<Block>, fork: Hash, last: Block)
    requires ForkPath(known, active, path, fork, last)
    ensures |path| > 1 ==> PrevOf(last) !in active
  {
    hide BlockHash;
    if |path| > 1 {
      assert InactiveNode(known, active, path[|path| - 2]);
    }
  }

  lemma ShortForkPath(known: Known, active: set<Hash>, path: seq<Block>, fork: Hash, last: Block)
    requires ForkPath(known, active, path, fork, last) && PrevOf(last) in active
    ensures path == [last] && fork == PrevOf(last)
  {
    hide BlockHash, InactiveNode;
    ParentInactive(known, active, path, fork, last);
  }

  lemma LongForkPath(known: Known, active: set<Hash>, path: seq<Block>, fork: Hash, last: Block)
    requires ForkPath(known, active, path, fork, last) && PrevOf(last) !in active
    ensures |path| > 1 && PrevOf(last) in known
    ensures ForkPath(known, active, path[..|path| - 1], fork, known[PrevOf(last)].block)
    ensures path == path[..|path| - 1] + [last]
  {
    hide BlockHash;
    assert InactiveNode(known, active, path[|path| - 2]);
  }

  /** A block has one fork path at most: the walk along its parents to the first active one. */
  lemma {:induction false} ForkPathUnique(known: Known, active: set<Hash>, path: seq<Block>, fork: Hash,
                                          path': seq<Block>, fork': Hash, last: Block)
    requires ForkPath(known, active, path, fork, last) && ForkPath(known, active, path', fork', last)
    ensures path == path' && fork == fork'
    decreases |path|
  {
    hide BlockHash, ForkPath;
    if PrevOf(last) in active {
      ShortForkPath(known, active, path, fork, last);
      ShortForkPath(known, active, path', fork', last);
    } else {
      LongForkPath(known, active, path, fork, last);
      LongForkPath(known, active, path', fork', last);
      ForkPathUnique(known, active, path[..|path| - 1], fork, path'[..|path'| - 1], fork', known[PrevOf(last)].block);
    }
  }

  function Reversed<T>(s: seq<T>): (r: seq<T>)
    ensures |r| == |s|
    ensures forall i | 0 <= i < |s| :: r[i] == s[|s| - 1 - i]
  {
    if s == [] then [] else Reversed(s[1..]) + [s[0]]
  }
}
