/** What single steps of the chain do to its index, its heaviest tip and its orphans: the predicates
    that the chain's invariant is made of, and the lemmas by which each step keeps them. */
module ChainSteps {
  import opened Types
  import opened Limits
  import opened Wire
  import opened Codec
  import opened Utxo
  import opened Merkle
  import opened Pow
  import opened Consensus
  import opened BlockTree
  import opened ChainRules
  import opened Journals
  import Value
  import Arith
  import Uint256

  datatype OrphanEntry = OrphanEntry(block: Block, receivedAt: nat)

  type Orphans = map<Hash, OrphanEntry>

  /** The orphan pool: keyed by hash, apart from the index, bounded, numbered by arrival. */
  ghost predicate OrphansOk(orphans: Orphans, receiveSeq: nat, known: Known, universe: iset<Block>) {
    && |orphans| <= MAX_ORPHAN_BLOCKS
    && (forall h | h in orphans :: OrphanOk(orphans[h], h, receiveSeq, known, universe))
    && (forall h, k | h in orphans && k in orphans && h != k :: orphans[h].receivedAt != orphans[k].receivedAt)
  }

  ghost predicate OrphanOk(entry: OrphanEntry, h: Hash, receiveSeq: nat, known: Known, universe: iset<Block>) {
    BlockHash(entry.block) == h && h !in known && entry.block in universe && entry.receivedAt <= receiveSeq
  }

  /** The recorded total is the work of the tip, and no known block has more. */
  ghost predicate HeaviestTip(known: Known, blocks: seq<Block>, totalWork: Hash) {
    && blocks != []
    && TipOf(blocks) in known
    && known[TipOf(blocks)].work == totalWork
    && forall h | h in known :: Num(known[h].work) <= Num(totalWork)
  }

  /** A block not yet known whose parent is, fit to be validated on its branch. */
  ghost predicate Joining(known: Known, universe: iset<Block>, block: Block) {
    && BlockHash(block) !in known && PrevOf(block) in known
    && block in universe && WithinBlockLimits(block) && BlockWork(block.header.bits).Some?
  }

  lemma JoiningFacts(known: Known, universe: iset<Block>, block: Block)
    requires Joining(known, universe, block)
    ensures BlockHash(block) !in known && PrevOf(block) in known && block in universe
  {
    hide BlockHash, WithinBlockLimits, BlockWork;
  }

  /** A reorganisation: the new active chain is the old one up to the fork block followed by the fork
      path, a linked list of inactive blocks that ends with the new one; the depth is the number of
      blocks left behind. */
  ghost predicate ReorgsTo(known: Known, active: set<Hash>, before: seq<Block>, after: seq<Block>, newBlock: Block,
                           path: seq<Block>, fork: Hash, depth: nat) {
    && ForkPath(known, active, path, fork, newBlock)
    && fork in known && known[fork].height < |before|
    && BlockHash(before[known[fork].height]) == fork
    && after == before[..known[fork].height + 1] + path
    && depth == |before| - 1 - known[fork].height
  }

  lemma ReorgEndsAt(known: Known, active: set<Hash>, before: seq<Block>, after: seq<Block>, newBlock: Block,
                    path: seq<Block>, fork: Hash, depth: nat)
    requires ReorgsTo(known, active, before, after, newBlock, path, fork, depth)
    ensures after != [] && after[|after| - 1] == newBlock
  {
    hide BlockHash;
  }

  /** The blocks above the fork block have left the chain. */
  ghost predicate RewoundTo(known: Known, fork: Hash, before: seq<Block>, after: seq<Block>) {
    fork in known && known[fork].height < |before| && after == before[..known[fork].height + 1]
  }

  /** The last block has left the chain; both journals have an entry for it. */
  ghost predicate TipLeft(before: seq<Block>, after: seq<Block>, log: seq<ChainEvent>, log': seq<ChainEvent>,
                          recorded: seq<BlockEntry>, recorded': seq<BlockEntry>) {
    && before != []
    && var n := |before| - 1;
    && after == before[..n]
    && log' == log + [BlockDisconnected(n, BlockHash(before[n]))]
    && recorded' == recorded + [BlockEntry(|log'|, before[n])]
  }

  /** The block is in the index and is not the genesis block. */
  ghost predicate KnownAs(known: Known, genesis: Block, block: Block) {
    var h := BlockHash(block);
    h in known && known[h].block == block && h != BlockHash(genesis)
  }

  /** The index after a reorganisation: the old nodes and the new block with its work. */
  ghost predicate GrownBy(before: Known, after: Known, block: Block, work: Hash) {
    && KeepsNodes(before, after)
    && after.Keys == before.Keys + {BlockHash(block)}
    && after[BlockHash(block)].block == block && after[BlockHash(block)].work == work
  }

  lemma KeepsNodesRefl(known: Known)
    ensures KeepsNodes(known, known)
  {
  }

  lemma KeepsNodesTrans(a: Known, b: Known, c: Known)
    requires KeepsNodes(a, b) && KeepsNodes(b, c)
    ensures KeepsNodes(a, c)
  {
  }

  lemma KeptWork(before: Known, after: Known, h: Hash)
    requires KeepsNodes(before, after) && h in before
    ensures h in after && after[h].work == before[h].work
  {
  }

  /** The index after a block has joined the active chain: only its own entry is new, with the work of
      its parent and its own. */
  ghost predicate Joined(before: Known, after: Known, block: Block) {
    && KeepsNodes(before, after)
    && after.Keys == before.Keys + {BlockHash(block)}
    && (forall h | h in before && h != BlockHash(block) :: after[h] == before[h])
    && after[BlockHash(block)].block == block
    && CandidateWork(after, block, after[BlockHash(block)].work)
  }

  /** The index after the first i blocks of a fork path have joined. */
  ghost predicate Climbed(tree: Known, known: Known, active: set<Hash>, path: seq<Block>, last: Block, i: nat,
                          work: Hash) {
    && path != [] && path[|path| - 1] == last
    && KeepsNodes(tree, known) && AgreeOn(tree, known, active)
    && (forall k | 0 <= k < |path| :: BlockHash(path[k]) !in active)
    && (forall k | 0 <= k < |path| - 1 :: BlockHash(path[k]) in tree)
    && BlockHash(last) !in tree && CandidateWork(tree, last, work)
    && if i < |path| then known.Keys == tree.Keys else GrownBy(tree, known, last, work)
  }

  lemma ForkIsKnown(known: Known, blocks: seq<Block>, active: set<Hash>, utxos: Utxos, genesis: Block,
                    path: seq<Block>, fork: Hash, last: Block)
    requires ActiveInv(known, blocks, active, utxos, genesis) && ForkPath(known, active, path, fork, last)
    ensures fork in known && fork in active && AgreeOn(known, known, active) && BlockHash(genesis) in active
  {
    hide BlockHash, ActiveInv, InactiveNode, Linked;
    ActiveIsSubset(known, blocks, active, utxos, genesis);
  }

  /** Each block of a fork path names as its parent the one before it, the first one the fork block. */
  lemma PathParent(known: Known, active: set<Hash>, path: seq<Block>, fork: Hash, last: Block, i: nat)
    requires ForkPath(known, active, path, fork, last) && i < |path|
    ensures PrevOf(path[i]) == if i == 0 then fork else BlockHash(path[i - 1])
  {
    hide BlockHash, InactiveNode;
  }

  lemma ClimbStart(tree: Known, active: set<Hash>, path: seq<Block>, fork: Hash, last: Block, universe: iset<Block>,
                   work: Hash)
    requires ForkPath(tree, active, path, fork, last) && AgreeOn(tree, tree, active)
    requires Joining(tree, universe, last) && CandidateWork(tree, last, work)
    ensures Climbed(tree, tree, active, path, last, 0, work)
  {
    hide BlockHash, WorkOfBlock, WithinBlockLimits, BlockWork, Num;
    forall k | 0 <= k < |path| - 1
      ensures BlockHash(path[k]) !in active && BlockHash(path[k]) in tree
    {
      assert InactiveNode(tree, active, path[k]);
    }
  }

  lemma ClimbStep(tree: Known, before: Known, after: Known, active: set<Hash>, path: seq<Block>, last: Block, i: nat,
                  work: Hash)
    requires i < |path| && Climbed(tree, before, active, path, last, i, work)
    requires Joined(before, after, path[i])
    ensures Climbed(tree, after, active, path, last, i + 1, work)
  {
    hide BlockHash, WorkOfBlock, KeepsNodes, Num, Joined, GrownBy;
    KeepsNodesTrans(tree, before, after) by {
      JoinedFacts(before, after, path[i]);
    }
    assert AgreeOn(tree, after, active) by {
      JoinedFacts(before, after, path[i]);
    }
    if i + 1 < |path| {
      JoinedFacts(before, after, path[i]);
    } else {
      LastJoined(tree, before, after, path[i], work);
    }
  }

  lemma JoinedFacts(before: Known, after: Known, block: Block)
    requires Joined(before, after, block)
    ensures KeepsNodes(before, after)
    ensures after.Keys == before.Keys + {BlockHash(block)}
    ensures forall h | h in before && h != BlockHash(block) :: h in after && after[h] == before[h]
  {
    hide BlockHash, WorkOfBlock, Num, KeepsNodes;
  }

  /** The block that ends the fork path gets the work computed for it in advance. */
  lemma LastJoined(tree: Known, before: Known, after: Known, last: Block, work: Hash)
    requires before.Keys == tree.Keys && KeepsNodes(tree, after) && Joined(before, after, last)
    requires CandidateWork(tree, last, work)
    ensures GrownBy(tree, after, last, work)
  {
    hide BlockHash, WorkOfBlock, KeepsNodes, FromLe;
    KeptWork(tree, after, PrevOf(last));
    Arith.FromLeInjective(after[BlockHash(last)].work, work);
  }

  lemma ClimbEnd(tree: Known, known: Known, active: set<Hash>, path: seq<Block>, last: Block, work: Hash)
    requires Climbed(tree, known, active, path, last, |path|, work)
    ensures GrownBy(tree, known, last, work) && path != []
  {
  }

  lemma EventsTurnGrows(known: Known, before: seq<ChainEvent>, after: seq<ChainEvent>,
                        from: seq<Block>, to: seq<Block>)
    requires EventsTurn(known, before, after, from, to)
    ensures before <= after
  {
  }

  /** A known block of the given hash is this one, which is not the genesis block. */
  ghost predicate KnownOnlyAs(known: Known, genesis: Block, block: Block) {
    BlockHash(block) in known ==> KnownAs(known, genesis, block)
  }

  /** What each block of a fork path brings to its connection. */
  lemma PathBlockJoins(path: seq<Block>, i: nat, block: Block, tree: Known, known: Known, active: set<Hash>,
                       genesis: Block, universe: iset<Block>, fork: Hash, last: Block, work: Hash)
    requires i < |path| && path[i] == block
    requires ForkPath(tree, active, path, fork, last) && Climbed(tree, known, active, path, last, i, work)
    requires BlockHash(genesis) in active && Joining(tree, universe, last)
    requires Admissible(genesis, universe) && TreeInv(known, genesis, universe)
    ensures block in universe && WithinBlockLimits(block) && BlockWork(block.header.bits).Some?
    ensures KnownOnlyAs(known, genesis, block)
    ensures SameTree(tree, known) && AgreeOn(tree, known, active)
  {
    hide BlockHash, WithinBlockLimits, BlockWork, Admissible, TreeInv, MeetsTarget, MerkleMatches, CoinbaseFirst, ChildOk,
         WorkOfBlock, Num;
    if i < |path| - 1 {
      assert InactiveNode(tree, active, path[i]);
      ParentOf(known, genesis, universe, BlockHash(path[i]));
    }
  }

  lemma ShrunkHashes(longer: seq<Block>, shorter: seq<Block>)
    requires shorter <= longer
    ensures (set h | h in Hashes(shorter)) <= (set h | h in Hashes(longer))
  {
    hide BlockHash;
    assert forall i | 0 <= i < |shorter| :: Hashes(shorter)[i] == Hashes(longer)[i];
  }

  /** Each block is the child of the next. */
  ghost predicate LinkedDown(path: seq<Block>) {
    forall i, j | 0 <= i && j == i + 1 && j < |path| :: PrevOf(path[i]) == BlockHash(path[j])
  }

  ghost predicate InactiveTail(known: Known, active: set<Hash>, path: seq<Block>) {
    forall i | 0 < i < |path| :: InactiveNode(known, active, path[i])
  }

  lemma ReversedLinked(path: seq<Block>)
    requires LinkedDown(path)
    ensures Linked(Reversed(path))
  {
    hide BlockHash, Reversed;
    var r, n := Reversed(path), |path|;
    forall i, j | 0 <= i && j == i + 1 && j < n
      ensures PrevOf(r[j]) == BlockHash(r[i])
    {
      var a, b := n - 1 - j, n - 1 - i;
      assert r[j] == path[a] && r[i] == path[b] && b == a + 1;
    }
  }

  lemma ReversedPath(known: Known, active: set<Hash>, path: seq<Block>, block: Block)
    requires path != [] && path[0] == block && PrevOf(path[|path| - 1]) in active
    requires LinkedDown(path) && InactiveTail(known, active, path)
    ensures ForkPath(known, active, Reversed(path), PrevOf(path[|path| - 1]), block)
  {
    hide BlockHash, InactiveNode, Reversed, LinkedDown, Linked;
    var r, n := Reversed(path), |path|;
    ReversedLinked(path);
    forall i | 0 <= i < n - 1
      ensures InactiveNode(known, active, r[i])
    {
      assert r[i] == path[n - 1 - i];
    }
  }

  // ---- side chains and the heaviest tip ----

  /** Comparing the bytes of two works compares the works. */
  lemma CompareWork(a: Hash, b: Hash)
    ensures Uint256.CompareLe(a, b) != Uint256.Greater <==> Num(a) <= Num(b)
  {
    hide FromLe;
    Uint256.CompareLeIsNumeric(a, b);
  }

  /** The check of a block with a known parent runs past the end of the active chain. */
  predicate RunsPastEnd(s: ChainState, block: Block) {
    PrevOf(block) in s.known &&
      HeaderVerdict(s.known, s.blocks, s.networkTime, block, Some(PrevOf(block)), s.known[PrevOf(block)].height + 1)
        == Err(BitsUnavailable(OutOfRange))
  }

  /** A known block at the last height of a period that starts inside the active chain, on a side branch at
      least as long as the active chain and no heavier. */
  predicate EndsLongPeriod(s: ChainState, h: Hash) {
    && h in s.known && h !in s.active
    && PastPeriodEnd(s.blocks, s.known[h].height + 1)
    && Num(s.known[h].work) <= Num(s.total)
  }

  /** A header accepted on a known parent, with a defined work, makes a sound child of it. */
  lemma AcceptedIsChild(known: Known, blocks: seq<Block>, networkTime: u32, meta: BlockMeta)
    requires PrevOf(meta.block) in known && meta.height == known[PrevOf(meta.block)].height + 1
    requires WithinBlockLimits(meta.block) && BlockWork(meta.block.header.bits).Some?
    requires HeaderVerdict(known, blocks, networkTime, meta.block, Some(PrevOf(meta.block)), meta.height).Ok?
    requires CandidateWork(known, meta.block, meta.work)
    ensures Sealed(meta.block) && ChildOk(known, meta)
  {
    hide BlockHash, WithinBlockLimits, MeetsTarget, MerkleMatches, BlockWork, MedianBefore, ExpectedBits, WorkOfBlock;
  }

  /** Recording a new block beside the active chain. */
  lemma SideKeepsInv(known: Known, blocks: seq<Block>, active: set<Hash>, utxos: Utxos,
                     genesis: Block, universe: iset<Block>, meta: BlockMeta)
    requires ChainInv(known, blocks, active, utxos, genesis, universe)
    requires BlockHash(meta.block) !in known && meta.block in universe && Sealed(meta.block) && ChildOk(known, meta)
    ensures ChainInv(known[BlockHash(meta.block) := meta], blocks, active, utxos, genesis, universe)
    ensures KeepsNodes(known, known[BlockHash(meta.block) := meta])
  {
    hide BlockHash, Admissible, TreeInv, ActiveInv, ChildOk, Sealed, KeepsNodes;
    TreeInsert(known, genesis, universe, meta);
    InsertKeepsNodes(known, genesis, universe, meta);
    ActiveIsSubset(known, blocks, active, utxos, genesis);
    ActiveKept(known, known[BlockHash(meta.block) := meta], blocks, active, utxos, genesis);
  }

  lemma TipHasTotal(known: Known, blocks: seq<Block>, total: Hash)
    requires HeaviestTip(known, blocks, total)
    ensures blocks != [] && TipOf(blocks) in known
    ensures known[TipOf(blocks)].work == total
  {
    hide BlockHash, FromLe;
  }

  /** A tip that gained the work of the only new block is the heaviest. */
  lemma NewTipIsHeaviest(before: Known, after: Known, blocks: seq<Block>, total: Hash, longer: seq<Block>, work: Hash)
    requires HeaviestTip(before, blocks, total)
    requires longer != [] && GrownBy(before, after, longer[|longer| - 1], work) && Num(work) >= Num(total)
    ensures HeaviestTip(after, longer, work)
  {
    hide BlockHash, FromLe;
    forall h | h in after
      ensures Num(after[h].work) <= Num(work)
    {
      assert h in before || h == BlockHash(longer[|longer| - 1]);
    }
  }

  /** A new block with no more work than the tip leaves it the heaviest. */
  lemma OldTipIsHeaviest(before: Known, after: Known, blocks: seq<Block>, total: Hash, side: Block, work: Hash)
    requires HeaviestTip(before, blocks, total)
    requires GrownBy(before, after, side, work) && Num(work) <= Num(total)
    ensures HeaviestTip(after, blocks, total)
  {
    hide BlockHash, FromLe;
    forall h | h in after
      ensures Num(after[h].work) <= Num(total)
    {
      assert h in before || h == BlockHash(side);
    }
  }

  lemma SameTreeIsHeaviest(before: Known, after: Known, blocks: seq<Block>, total: Hash)
    requires HeaviestTip(before, blocks, total) && SameTree(before, after)
    ensures HeaviestTip(after, blocks, total)
  {
    hide BlockHash, FromLe;
    forall h | h in after
      ensures Num(after[h].work) <= Num(total)
    {
      assert h in before;
    }
  }

  /** The index of a chain that has only its genesis block. */
  function GenesisKnown(genesis: Block, work: Hash): Known {
    map[BlockHash(genesis) := BlockMeta(genesis, 0, work, UndosOf(map[], genesis.transactions))]
  }

  predicate GenesisVerdict(genesis: Block, networkTime: u32) {
    HeaderVerdict(map[], [], networkTime, genesis, None, 0).Ok?
  }

  lemma GenesisIsValid(genesis: Block, networkTime: u32)
    requires WithinBlockLimits(genesis) && GenesisVerdict(genesis, networkTime)
    requires BlockWork(genesis.header.bits).Some? && TxsValid(map[], genesis.transactions)
    ensures Sealed(genesis) && ValidChain([genesis])
  {
    hide BlockHash, WithinBlockLimits, MeetsTarget, MerkleMatches, BlockWork, TxsValid, CoinbaseFirst, ExpectedBits,
         MayFollow;
    assert CoinbaseFirst(genesis.transactions);
    HasCoinbase(genesis.transactions);
  }

  lemma HasCoinbase(txs: seq<Transaction>)
    requires CoinbaseFirst(txs)
    ensures txs != []
  {
    hide IsCoinbase;
  }

  lemma GenesisIsActive(genesis: Block, work: Hash)
    requires ValidChain([genesis])
    ensures ActiveInv(GenesisKnown(genesis, work), [genesis], {BlockHash(genesis)},
                      ApplyTxs(map[], genesis.transactions), genesis)
  {
    hide BlockHash, ValidChain, UndosOf, ApplyTxs;
    var known := GenesisKnown(genesis, work);
    assert [genesis][..0] == [];
    assert Replay([]) == map[];
    assert ActiveAt(known, [genesis], 0);
    assert Hashes([genesis]) == [BlockHash(genesis)];
    assert (set k | k in Hashes([genesis])) == {BlockHash(genesis)};
    assert Replay([genesis]) == ApplyTxs(Replay([]), genesis.transactions);
  }

  lemma GenesisTree(genesis: Block, universe: iset<Block>, work: Hash)
    requires Sealed(genesis) && genesis in universe && Num(work) == WorkOfBlock(genesis)
    ensures TreeInv(GenesisKnown(genesis, work), genesis, universe)
  {
    hide BlockHash, Sealed, WorkOfBlock, FromLe, UndosOf, ChildOk;
  }

  ghost predicate GenesisAccepted(genesis: Block, networkTime: u32) {
    && WithinBlockLimits(genesis) && GenesisVerdict(genesis, networkTime)
    && TxsValid(map[], genesis.transactions) && BlockWork(genesis.header.bits).Some?
  }

  ghost predicate GenesisLogged(log: seq<ChainEvent>, genesis: Block) {
    log == [ConnectEvent(genesis, 0)]
  }

  lemma GenesisHeaviest(genesis: Block, work: Hash)
    ensures HeaviestTip(GenesisKnown(genesis, work), [genesis], work)
  {
    hide BlockHash, FromLe, UndosOf;
  }

  lemma NoOrphans(known: Known, universe: iset<Block>)
    ensures OrphansOk(map[], 0, known, universe)
  {
  }

  // ---- orphans ----

  lemma OrphansAfterGrowth(orphans: Orphans, receiveSeq: nat, before: Known, after: Known, universe: iset<Block>, h: Hash)
    requires OrphansOk(orphans, receiveSeq, before, universe)
    requires after.Keys == before.Keys + {h} && h !in orphans
    ensures OrphansOk(orphans, receiveSeq, after, universe)
  {
    hide BlockHash;
    assert forall k | k in orphans :: OrphanOk(orphans[k], k, receiveSeq, before, universe);
  }

  lemma OrphansSameTree(orphans: Orphans, receiveSeq: nat, before: Known, after: Known, universe: iset<Block>)
    requires OrphansOk(orphans, receiveSeq, before, universe) && SameTree(before, after)
    ensures OrphansOk(orphans, receiveSeq, after, universe)
  {
    hide BlockHash;
    assert forall k | k in orphans :: OrphanOk(orphans[k], k, receiveSeq, before, universe);
    assert forall k | k in orphans :: k !in after.Keys;
  }

  /** The pool with room for one more and the log: unchanged, or without its oldest entry if it was full. */
  ghost predicate MadeRoom(before: Orphans, after: Orphans, log: seq<ChainEvent>, log': seq<ChainEvent>) {
    if |before| < MAX_ORPHAN_BLOCKS then after == before && log' == log
    else exists h | Oldest(before, h) :: after == before - {h} && log' == log + [OrphanEvicted(h)]
  }

  ghost predicate Oldest(orphans: Orphans, h: Hash) {
    h in orphans && forall k | k in orphans :: orphans[h].receivedAt <= orphans[k].receivedAt
  }

  /** The pool and the log after a block has been put into the pool. */
  ghost predicate Pooled(before: Orphans, after: Orphans, block: Block, receivedAt: nat, log: seq<ChainEvent>,
                         log': seq<ChainEvent>) {
    exists room, mid | MadeRoom(before, room, log, mid) ::
      && after == room[BlockHash(block) := OrphanEntry(block, receivedAt)]
      && log' == mid + [OrphanAdded(BlockHash(block), |after|)]
  }

  lemma RoomMade(before: Orphans, after: Orphans, h: Hash, log: seq<ChainEvent>)
    requires |before| >= MAX_ORPHAN_BLOCKS && Oldest(before, h) && after == before - {h}
    ensures MadeRoom(before, after, log, log + [OrphanEvicted(h)]) && h in before
  {
  }

  lemma RoomKept(orphans: Orphans, log: seq<ChainEvent>)
    requires |orphans| < MAX_ORPHAN_BLOCKS
    ensures MadeRoom(orphans, orphans, log, log)
  {
  }

  lemma PooledInRoom(before: Orphans, room: Orphans, block: Block, receivedAt: nat, log: seq<ChainEvent>,
                     mid: seq<ChainEvent>)
    requires MadeRoom(before, room, log, mid)
    ensures var after := room[BlockHash(block) := OrphanEntry(block, receivedAt)];
      Pooled(before, after, block, receivedAt, log, mid + [OrphanAdded(BlockHash(block), |after|)])
  {
    hide BlockHash, MadeRoom;
  }

  /** What pooling a block does to the others: nobody leaves a pool of fewer than 256, and who leaves a full one
      arrived before everyone else in it. */
  lemma PooledPlainly(before: Orphans, after: Orphans, block: Block, receivedAt: nat, log: seq<ChainEvent>,
                      log': seq<ChainEvent>)
    requires Pooled(before, after, block, receivedAt, log, log') && BlockHash(block) !in before
    ensures BlockHash(block) in after && after[BlockHash(block)] == OrphanEntry(block, receivedAt)
    ensures forall h | h in after && h != BlockHash(block) :: h in before && after[h] == before[h]
    ensures forall h | h in before && h !in after ::
      |before| >= 256 && forall k | k in before :: before[h].receivedAt <= before[k].receivedAt
    ensures |before| >= 256 ==> exists h :: h in before && h !in after
    ensures forall h, k | h in before && k in before && h !in after && k !in after :: h == k
  {
    hide BlockHash;
  }

  lemma SizeWithout(orphans: Orphans, h: Hash)
    requires h in orphans
    ensures |orphans - {h}| == |orphans| - 1
  {
    assert (orphans - {h}).Keys == orphans.Keys - {h};
    assert |orphans - {h}| == |(orphans - {h}).Keys| && |orphans| == |orphans.Keys|;
  }

  lemma SizeWith(orphans: Orphans, h: Hash, entry: OrphanEntry)
    requires h !in orphans
    ensures |orphans[h := entry]| == |orphans| + 1
  {
    assert orphans[h := entry].Keys == orphans.Keys + {h};
    assert |orphans[h := entry]| == |orphans[h := entry].Keys| && |orphans| == |orphans.Keys|;
  }

  lemma OrphansWithout(orphans: Orphans, receiveSeq: nat, known: Known, universe: iset<Block>, h: Hash)
    requires OrphansOk(orphans, receiveSeq, known, universe) && h in orphans
    ensures OrphansOk(orphans - {h}, receiveSeq, known, universe)
    ensures |orphans - {h}| < MAX_ORPHAN_BLOCKS
  {
    hide OrphanOk;
    SizeWithout(orphans, h);
  }

  lemma OrphansWith(orphans: Orphans, receiveSeq: nat, known: Known, universe: iset<Block>, block: Block)
    requires OrphansOk(orphans, receiveSeq, known, universe) && |orphans| < MAX_ORPHAN_BLOCKS
    requires BlockHash(block) !in known && BlockHash(block) !in orphans && block in universe
    ensures OrphansOk(orphans[BlockHash(block) := OrphanEntry(block, receiveSeq + 1)], receiveSeq + 1, known, universe)
  {
    hide BlockHash;
    SizeWith(orphans, BlockHash(block), OrphanEntry(block, receiveSeq + 1));
    assert forall k | k in orphans :: OrphanOk(orphans[k], k, receiveSeq, known, universe);
  }

  // ---- promotion of orphans ----

  /** An orphan that can be connected: its parent is known. */
  predicate Ready(orphans: Orphans, known: Known, h: Hash)
    requires h in orphans
  {
    PrevOf(orphans[h].block) in known
  }

  /** No orphan has a known parent. */
  predicate NoneWaits(orphans: Orphans, known: Known) {
    forall h | h in orphans :: orphans[h].block.header.prevBlockhash !in known
  }

  /** After a block that has moved the tip no orphan is left whose parent is known. */
  predicate NoneLeftReady(orphans: Orphans, known: Known, r: Result<ConnectResult, ChainError>) {
    r.Ok? && (r.value.Connected? || r.value.Reorganized?) ==> NoneWaits(orphans, known)
  }

  lemma NoneReadyPlainly(orphans: Orphans, known: Known)
    ensures NoneReady(orphans, known) <==> NoneWaits(orphans, known)
  {
    assert forall h | h in orphans :: Ready(orphans, known, h) <==> orphans[h].block.header.prevBlockhash in known;
    hide Ready;
  }

  ghost predicate NoneReady(orphans: Orphans, known: Known) {
    forall h | h in orphans :: !Ready(orphans, known, h)
  }

  /** A block taken out of the pool for connection: unknown, unpooled, under a known parent. */
  ghost predicate Dequeued(block: Block, orphans: Orphans, known: Known, universe: iset<Block>) {
    block in universe && PrevOf(block) in known && BlockHash(block) !in known && BlockHash(block) !in orphans
  }

  ghost predicate QueueOk(queue: seq<Block>, orphans: Orphans, known: Known, universe: iset<Block>) {
    && (forall i | 0 <= i < |queue| :: Dequeued(queue[i], orphans, known, universe))
    && (forall i, j | 0 <= i < j < |queue| :: BlockHash(queue[i]) != BlockHash(queue[j]))
  }

  lemma Enqueued(queue: seq<Block>, orphans: Orphans, receiveSeq: nat, known: Known, universe: iset<Block>, h: Hash)
    requires QueueOk(queue, orphans, known, universe) && OrphansOk(orphans, receiveSeq, known, universe)
    requires h in orphans && Ready(orphans, known, h)
    ensures QueueOk(queue + [orphans[h].block], orphans - {h}, known, universe)
  {
    hide BlockHash;
    assert OrphanOk(orphans[h], h, receiveSeq, known, universe);
    var longer := queue + [orphans[h].block];
    forall i | 0 <= i < |queue|
      ensures Dequeued(longer[i], orphans - {h}, known, universe) && BlockHash(longer[i]) != h
    {
      assert Dequeued(queue[i], orphans, known, universe);
    }
  }

  /** Some of the ready orphans have been taken out of the pool, these are the ones still to take. */
  ghost predicate TakenReady(before: Orphans, orphans: Orphans, known: Known, ready: set<Hash>) {
    && (forall h | h in orphans :: h in before && orphans[h] == before[h])
    && (forall h | h in before && h !in orphans :: Ready(before, known, h))
    && (forall h :: h in ready <==> h in orphans && Ready(orphans, known, h))
  }

  lemma NoneTaken(orphans: Orphans, known: Known)
    ensures TakenReady(orphans, orphans, known, set h | h in orphans && Ready(orphans, known, h))
  {
  }

  lemma ReadyIsPooled(before: Orphans, orphans: Orphans, known: Known, ready: set<Hash>, h: Hash)
    requires TakenReady(before, orphans, known, ready) && h in ready
    ensures h in orphans && Ready(orphans, known, h) && h in before && before[h] == orphans[h]
  {
  }

  lemma PooledHash(orphans: Orphans, receiveSeq: nat, known: Known, universe: iset<Block>, h: Hash)
    requires OrphansOk(orphans, receiveSeq, known, universe) && h in orphans
    ensures BlockHash(orphans[h].block) == h
  {
    hide BlockHash;
    assert OrphanOk(orphans[h], h, receiveSeq, known, universe);
  }

  lemma TakeReady(before: Orphans, orphans: Orphans, known: Known, ready: set<Hash>, h: Hash)
    requires TakenReady(before, orphans, known, ready) && h in ready
    ensures TakenReady(before, orphans - {h}, known, ready - {h})
  {
  }

  lemma AllTaken(before: Orphans, orphans: Orphans, known: Known)
    requires TakenReady(before, orphans, known, {})
    ensures orphans == Waiting(before, known)
  {
  }

  /** Connecting the first queued block leaves the others fit for connection. */
  lemma QueueAdvances(queue: seq<Block>, orphans: Orphans, before: Known, after: Known, universe: iset<Block>)
    requires queue != [] && QueueOk(queue, orphans, before, universe)
    requires after.Keys == before.Keys + {BlockHash(queue[0])}
    ensures QueueOk(queue[1..], orphans, after, universe)
  {
    hide BlockHash;
    var rest := queue[1..];
    forall i | 0 <= i < |rest|
      ensures Dequeued(rest[i], orphans, after, universe)
    {
      assert Dequeued(queue[i + 1], orphans, before, universe);
      assert BlockHash(queue[0]) != BlockHash(queue[i + 1]);
    }
  }

  // ---- outcomes ----

  /** The observable state of a chain. */
  datatype ChainState = ChainState(
    universe: iset<Block>, blocks: seq<Block>, active: set<Hash>, known: Known, utxos: Utxos, total: Hash,
    orphans: Orphans, networkTime: u32, log: seq<ChainEvent>)

  /** The block passes every check that is made of it before it is given a place. */
  ghost predicate Admitted(s: ChainState, block: Block) {
    && WithinBlockLimits(block)
    && BlockHash(block) !in s.known && BlockHash(block) !in s.orphans
    && (PrevOf(block) in s.known ==> AdmittedUnder(s, block, s.known[PrevOf(block)].height + 1))
  }

  ghost predicate AdmittedUnder(s: ChainState, block: Block, height: nat) {
    && HeaderVerdict(s.known, s.blocks, s.networkTime, block, Some(PrevOf(block)), height).Ok?
    && TxsValid(s.utxos, block.transactions)
    && BlockWork(block.header.bits).Some?
  }

  /** The block would make another branch than the active one the heaviest. */
  ghost predicate Overtakes(s: ChainState, block: Block) {
    && PrevOf(block) in s.known && PrevOf(block) != TipOf(s.blocks)
    && Num(s.known[PrevOf(block)].work) + WorkOfBlock(block) > Num(s.total)
  }

  /** The active chain has moved to the branch of a new block, which has this work. */
  ghost predicate Moved(before: ChainState, after: ChainState, block: Block, work: Hash,
                        path: seq<Block>, fork: Hash, depth: nat) {
    && ReorgsTo(before.known, before.active, before.blocks, after.blocks, block, path, fork, depth)
    && GrownBy(before.known, after.known, block, work)
    && after.total == work && after.orphans == before.orphans
    && EventsTurn(after.known, before.log, after.log, before.blocks, after.blocks)
    && ActiveSince(after.blocks, before.log, after.log)
  }

  lemma ForkBlockJoins(known: Known, blocks: seq<Block>, active: set<Hash>, utxos: Utxos, genesis: Block,
                       block: Block, work: Hash)
    requires KnownOnlyAs(known, genesis, block) && RecordedAbove(known, active, genesis, block, |blocks|, work)
    requires ActiveInv(known, blocks, active, utxos, genesis)
    ensures JoinsAs(known, BlockMeta(block, |blocks|, work, [])) && BlockHash(block) !in active
  {
    hide BlockHash, ActiveInv;
    ActiveIsSubset(known, blocks, active, utxos, genesis);
  }

  lemma JoinedAfter(before: Known, meta: BlockMeta)
    requires KeepsNodes(before, before[BlockHash(meta.block) := meta]) && CandidateWork(before, meta.block, meta.work)
    ensures Joined(before, before[BlockHash(meta.block) := meta], meta.block)
  {
    hide BlockHash, WorkOfBlock, FromLe, KeepsNodes;
    KeptWork(before, before[BlockHash(meta.block) := meta], PrevOf(meta.block));
  }

  /** The active chain up to a fork block. */
  function BaseOf(s: ChainState, fork: Hash): seq<Block> {
    if fork in s.known && s.known[fork].height < |s.blocks| then s.blocks[..s.known[fork].height + 1] else []
  }

  /** Each of the first n blocks of the path passes every check on the chain it extends. */
  ghost predicate BranchPasses(base: seq<Block>, networkTime: u32, path: seq<Block>, n: nat) {
    n <= |path| && forall i | 0 <= i < n :: PassesOn(base + path[..i], networkTime, path[i])
  }

  /** Block i of the path is the first to fail a check, with this error; the log leads to the fork block
      and up the path to where it broke. */
  ghost predicate BrokeAt(before: ChainState, known: Known, log: seq<ChainEvent>,
                          path: seq<Block>, fork: Hash, i: nat, e: ChainError)
    requires i < |path|
  {
    var base := BaseOf(before, fork);
    && BranchPasses(base, before.networkTime, path, i)
    && FailsOn(base + path[..i], before.networkTime, path[i], e)
    && EventsTurn(known, before.log, log, before.blocks, base + path[..i])
  }

  ghost predicate Broke(before: ChainState, known: Known, log: seq<ChainEvent>,
                        path: seq<Block>, fork: Hash, e: ChainError) {
    exists i | 0 <= i < |path| :: BrokeAt(before, known, log, path, fork, i, e)
  }

  /** How an attempt to reorganise to a new block ends: the path either passes as a whole and is adopted,
      or breaks at a block that fails, and then the active state is as it was. */
  ghost predicate ReorgResult(before: ChainState, after: ChainState, block: Block, work: Hash, r: Result<nat, ChainError>,
                              path: seq<Block>, fork: Hash) {
    match r
    case Err(e) =>
      && Untouched(before, after)
      && ForkPath(before.known, before.active, path, fork, block) && Broke(before, after.known, after.log, path, fork, e)
    case Ok(depth) =>
      && Moved(before, after, block, work, path, fork, depth)
      && BranchPasses(BaseOf(before, fork), before.networkTime, path, |path|)
  }

  lemma BranchStart(base: seq<Block>, networkTime: u32, path: seq<Block>)
    ensures BranchPasses(base, networkTime, path, 0)
  {
  }

  lemma BranchGrows(base: seq<Block>, networkTime: u32, path: seq<Block>, i: nat)
    requires i < |path| && BranchPasses(base, networkTime, path, i) && PassesOn(base + path[..i], networkTime, path[i])
    ensures BranchPasses(base, networkTime, path, i + 1)
  {
    hide PassesOn;
  }

  lemma BaseIs(s: ChainState, fork: Hash)
    requires fork in s.known && s.known[fork].height < |s.blocks|
    ensures BaseOf(s, fork) == s.blocks[..s.known[fork].height + 1]
  {
  }

  lemma BrokenBranch(before: ChainState, known: Known, log: seq<ChainEvent>,
                     path: seq<Block>, fork: Hash, i: nat, e: ChainError)
    requires i < |path| && BranchPasses(BaseOf(before, fork), before.networkTime, path, i)
    requires FailsOn(BaseOf(before, fork) + path[..i], before.networkTime, path[i], e)
    requires EventsTurn(known, before.log, log, before.blocks, BaseOf(before, fork) + path[..i])
    ensures Broke(before, known, log, path, fork, e)
  {
    hide BranchPasses, FailsOn, EventsTurn, BaseOf;
    assert BrokeAt(before, known, log, path, fork, i, e);
  }

  /** Where a reorganisation stands when the first i blocks of the fork path have been connected. */
  ghost predicate Climbing(start: ChainState, path: seq<Block>, fork: Hash, last: Block, work: Hash, i: nat,
                           known: Known, blocks: seq<Block>, log: seq<ChainEvent>) {
    && i <= |path| && blocks == BaseOf(start, fork) + path[..i]
    && Climbed(start.known, known, start.active, path, last, i, work)
    && BranchPasses(BaseOf(start, fork), start.networkTime, path, i)
    && ActiveSince(blocks, start.log, log)
    && EventsTurn(known, start.log, log, start.blocks, blocks)
  }

  lemma ClimbingStart(start: ChainState, path: seq<Block>, fork: Hash, last: Block, work: Hash, log: seq<ChainEvent>)
    requires Climbed(start.known, start.known, start.active, path, last, 0, work)
    requires ActiveSince([], start.log, log)
    requires EventsTurn(start.known, start.log, log, start.blocks, BaseOf(start, fork))
    ensures Climbing(start, path, fork, last, work, 0, start.known, BaseOf(start, fork), log)
  {
    hide BaseOf, Climbed, BranchPasses, ActiveSince, EventsTurn;
    var base := BaseOf(start, fork);
    BranchStart(base, start.networkTime, path);
    ActiveSinceGrows([], base, start.log, log);
    assert base + path[..0] == base;
  }

  lemma ClimbingStep(start: ChainState, path: seq<Block>, fork: Hash, last: Block, work: Hash, i: nat,
                     known: Known, blocks: seq<Block>, log: seq<ChainEvent>, known': Known, log': seq<ChainEvent>)
    requires i < |path| && Climbing(start, path, fork, last, work, i, known, blocks, log)
    requires PassesOn(blocks, start.networkTime, path[i]) && Joined(known, known', path[i])
    requires ActiveSince(blocks + [path[i]], log, log')
    requires EventsTurn(known', log, log', blocks, blocks + [path[i]])
    ensures Climbing(start, path, fork, last, work, i + 1, known', blocks + [path[i]], log')
  {
    hide BaseOf, Climbed, BranchPasses, ActiveSince, EventsTurn, PassesOn, Joined;
    var longer := blocks + [path[i]];
    assert path[..i + 1] == path[..i] + [path[i]];
    BranchGrows(BaseOf(start, fork), start.networkTime, path, i);
    ClimbStep(start.known, known, known', start.active, path, last, i, work);
    JoinedFacts(known, known', path[i]);
    EventsTurnKept(known, known', start.log, log, start.blocks, blocks);
    EventsTurnTrans(known', start.log, log, log', start.blocks, blocks, longer);
    ActiveSinceGrows(blocks, longer, start.log, log);
    EventsTurnGrows(known', log, log', blocks, longer);
    ActiveSinceTrans(longer, start.log, log, log');
  }

  lemma ClimbingParts(start: ChainState, path: seq<Block>, fork: Hash, last: Block, work: Hash, i: nat,
                      known: Known, blocks: seq<Block>, log: seq<ChainEvent>)
    requires Climbing(start, path, fork, last, work, i, known, blocks, log)
    ensures Climbed(start.known, known, start.active, path, last, i, work) && start.log <= log
  {
    hide BaseOf, Climbed, BranchPasses, ActiveSince, EventsTurn;
    EventsTurnGrows(known, start.log, log, start.blocks, blocks);
  }

  lemma ClimbingBreaks(start: ChainState, path: seq<Block>, fork: Hash, last: Block, work: Hash, i: nat,
                       known: Known, blocks: seq<Block>, log: seq<ChainEvent>, e: ChainError)
    requires i < |path| && Climbing(start, path, fork, last, work, i, known, blocks, log)
    requires FailsOn(blocks, start.networkTime, path[i], e)
    ensures Broke(start, known, log, path, fork, e)
  {
    hide BaseOf, Climbed, BranchPasses, ActiveSince, EventsTurn, FailsOn, Broke;
    BrokenBranch(start, known, log, path, fork, i, e);
  }

  lemma ClimbingEnd(start: ChainState, path: seq<Block>, fork: Hash, last: Block, work: Hash,
                    known: Known, blocks: seq<Block>, log: seq<ChainEvent>)
    requires Climbing(start, path, fork, last, work, |path|, known, blocks, log)
    ensures blocks == BaseOf(start, fork) + path && GrownBy(start.known, known, last, work)
    ensures BranchPasses(BaseOf(start, fork), start.networkTime, path, |path|)
    ensures ActiveSince(blocks, start.log, log) && EventsTurn(known, start.log, log, start.blocks, blocks)
  {
    hide BaseOf, Climbed, BranchPasses, ActiveSince, EventsTurn, GrownBy;
    ClimbEnd(start.known, known, start.active, path, last, work);
    assert path[..|path|] == path;
  }

  /** A branch that breaks is not one that passes. */
  lemma BrokenNotPassing(before: ChainState, known: Known, log: seq<ChainEvent>,
                         path: seq<Block>, fork: Hash, e: ChainError)
    requires Broke(before, known, log, path, fork, e)
    ensures !BranchPasses(BaseOf(before, fork), before.networkTime, path, |path|)
  {
    hide VerdictOn, TxsValid, Replay, EventsTurn, BaseOf;
    var i :| 0 <= i < |path| && BrokeAt(before, known, log, path, fork, i, e);
    assert !PassesOn(BaseOf(before, fork) + path[..i], before.networkTime, path[i]);
  }

  /** What a failed reorganisation has changed before the active state is restored. */
  ghost predicate Spoiled(before: ChainState, after: ChainState) {
    && SameTree(before.known, after.known) && AgreeOn(before.known, after.known, before.active)
    && before.log <= after.log && after.orphans == before.orphans
  }

  /** The work for the tip's child is what the index has for it if it is known, one above the tip and inactive. */
  ghost predicate RecordedAbove(known: Known, active: set<Hash>, genesis: Block, block: Block, height: nat, work: Hash) {
    KnownAs(known, genesis, block) ==>
      && known[BlockHash(block)].height == height && BlockHash(block) !in active
      && known[BlockHash(block)].work == work
  }

  /** Only events and the undo data of inactive blocks differ. */
  ghost predicate Untouched(before: ChainState, after: ChainState) {
    && after.blocks == before.blocks && after.active == before.active && after.utxos == before.utxos
    && after.total == before.total && after.orphans == before.orphans
    && SameTree(before.known, after.known) && AgreeOn(before.known, after.known, before.active)
    && before.log <= after.log
  }

  /** The block is new in the index, with its parent's work and its own. */
  ghost predicate Recorded(before: ChainState, after: ChainState, block: Block, work: Hash) {
    && CandidateWork(before.known, block, work)
    && GrownBy(before.known, after.known, block, work)
    && after.orphans == before.orphans
  }

  ghost predicate SameActive(before: ChainState, after: ChainState) {
    && after.blocks == before.blocks && after.active == before.active && after.utxos == before.utxos
    && after.total == before.total
  }

  /** What one attempt to connect a block does, orphans left aside. Which result there is depends on the
      state and the block alone: it is an error exactly if a check fails, or the block makes its branch the
      heaviest and a block of the fork path fails a check on the chain it extends. */
  ghost predicate Outcome(before: ChainState, after: ChainState, block: Block, r: Result<ConnectResult, ChainError>,
                          path: seq<Block>, fork: Hash, depth: nat) {
    match r
    case Err(e) => if Admitted(before, block) then Refused(before, after, block, path, fork, e) else after == before
    case Ok(result) =>
      && Admitted(before, block)
      && EventsTurn(after.known, before.log, after.log, before.blocks, after.blocks)
      && match result
         case Orphaned(hash) => hash == BlockHash(block) && OrphanOutcome(before, after, block)
         case Connected(height, hash) => hash == BlockHash(block) && TipOutcome(before, after, block, height)
         case SideChain(height, hash) => hash == BlockHash(block) && SideOutcome(before, after, block, height)
         case Reorganized(oldTip, newTip) =>
           && oldTip == TipOf(before.blocks) && newTip == BlockHash(block)
           && ReorgOutcome(before, after, block, path, fork, depth)
  }

  /** A heavier branch is refused because one of its blocks fails. */
  ghost predicate Refused(before: ChainState, after: ChainState, block: Block, path: seq<Block>, fork: Hash,
                          e: ChainError) {
    && Overtakes(before, block) && Untouched(before, after)
    && ForkPath(before.known, before.active, path, fork, block) && Broke(before, after.known, after.log, path, fork, e)
  }

  ghost predicate OrphanOutcome(before: ChainState, after: ChainState, block: Block) {
    && PrevOf(block) !in before.known
    && SameActive(before, after) && after.known == before.known
    && exists receivedAt: nat :: Pooled(before.orphans, after.orphans, block, receivedAt, before.log, after.log)
  }

  ghost predicate TipOutcome(before: ChainState, after: ChainState, block: Block, height: nat) {
    && PrevOf(block) in before.known && PrevOf(block) == TipOf(before.blocks) && height == |before.blocks|
    && after.blocks == before.blocks + [block]
    && Recorded(before, after, block, after.total)
    && after.log == before.log + [ConnectEvent(block, height)]
  }

  ghost predicate SideOutcome(before: ChainState, after: ChainState, block: Block, height: nat) {
    && PrevOf(block) in before.known && PrevOf(block) != TipOf(before.blocks) && !Overtakes(before, block)
    && height == before.known[PrevOf(block)].height + 1
    && SameActive(before, after) && after.log == before.log
    && exists work: Hash :: Recorded(before, after, block, work)
  }

  ghost predicate ReorgOutcome(before: ChainState, after: ChainState, block: Block,
                               path: seq<Block>, fork: Hash, depth: nat) {
    && Overtakes(before, block)
    && ReorgsTo(before.known, before.active, before.blocks, after.blocks, block, path, fork, depth)
    && BranchPasses(BaseOf(before, fork), before.networkTime, path, |path|)
    && ActiveSince(after.blocks, before.log, after.log)
    && Recorded(before, after, block, after.total)
    && after.log != [] && after.log[|after.log| - 1] == ChainReorg(depth, TipOf(before.blocks), BlockHash(block))
  }

  /** The error names the first check that fails: limits, novelty, header, transactions, work. */
  ghost predicate ErrorFits(s: ChainState, block: Block, r: Result<ConnectResult, ChainError>) {
    if !WithinBlockLimits(block) then
      r.Err? && r.error in {BlockTooLarge, TooManyTransactions, ScriptTooLarge}
    else if BlockHash(block) in s.known || BlockHash(block) in s.orphans then
      r == Err(BlockAlreadyKnown)
    else if PrevOf(block) in s.known then
      match HeaderVerdict(s.known, s.blocks, s.networkTime, block, Some(PrevOf(block)), s.known[PrevOf(block)].height + 1)
      case Err(e) => r == Err(e)
      case Ok(_) =>
        if !TxsValid(s.utxos, block.transactions) then r.Err? && (r.error.TransactionInvalid? || r.error == InvalidScript)
        else BlockWork(block.header.bits).None? ==> r == Err(InvalidProofOfWork)
    else
      r.Ok?
  }

  /** A block that makes its branch the heaviest takes over exactly if every block of the branch passes the
      checks on the chain it extends. */
  lemma OvertakesExactly(before: ChainState, after: ChainState, block: Block, r: Result<ConnectResult, ChainError>,
                         path: seq<Block>, fork: Hash, depth: nat, path': seq<Block>, fork': Hash)
    requires Outcome(before, after, block, r, path, fork, depth) && Admitted(before, block) && Overtakes(before, block)
    requires ForkPath(before.known, before.active, path', fork', block)
    ensures r.Ok? <==> BranchPasses(BaseOf(before, fork'), before.networkTime, path', |path'|)
    ensures r.Ok? ==> r == Ok(Reorganized(TipOf(before.blocks), BlockHash(block)))
  {
    hide BlockHash, Admitted, EventsTurn, Untouched, Recorded, GrownBy, BranchPasses, BaseOf, WorkOfBlock, FromLe, Broke,
         ForkPath;
    if r.Err? {
      BrokenNotPassing(before, after.known, after.log, path, fork, r.error);
    }
    ForkPathUnique(before.known, before.active, path, fork, path', fork', block);
  }

  /** What the four results mean in work: a reorganisation always gains work, a side branch never has more than
      the tip, and only a connected or reorganising block touches the active chain. */
  ghost predicate DecidedByWork(before: ChainState, after: ChainState, block: Block, r: Result<ConnectResult, ChainError>) {
    hide *;
    && (r.Err? || r.value.Orphaned? || r.value.SideChain? ==>
          after.blocks == before.blocks && after.utxos == before.utxos && after.total == before.total)
    && (r.Ok? ==> (r.value.Orphaned? <==> block.header.prevBlockhash !in before.known))
    && (r.Ok? && !r.value.Orphaned? ==>
          && block.header.prevBlockhash in before.known
          && var work := FromLe(before.known[block.header.prevBlockhash].work) + WorkOfBlock(block);
          && (r.value.SideChain? ==> work <= FromLe(before.total))
          && (r.value.Reorganized? ==> FromLe(after.total) == work > FromLe(before.total))
          && (r.value.Connected? ==> FromLe(after.total) == work && after.blocks == before.blocks + [block]))
  }

  lemma OutcomeByWork(before: ChainState, after: ChainState, block: Block, r: Result<ConnectResult, ChainError>,
                      path: seq<Block>, fork: Hash, depth: nat)
    requires Outcome(before, after, block, r, path, fork, depth)
    ensures DecidedByWork(before, after, block, r)
  {
    hide BlockHash, FromLe, WorkOfBlock, KeepsNodes, Admitted, EventsTurn, ReorgsTo, Pooled, BranchPasses, BaseOf, ForkPath,
         Broke, AgreeOn, SameTree, HeaviestTip, GrownBy, ActiveSince;
  }

  lemma RejectedOutcome(s: ChainState, block: Block, e: ChainError, path: seq<Block>, fork: Hash, depth: nat)
    requires !Admitted(s, block)
    ensures Outcome(s, s, block, Err(e), path, fork, depth)
  {
    hide Admitted, Refused;
  }

  lemma OrphanedOutcome(before: ChainState, after: ChainState, block: Block, path: seq<Block>, fork: Hash, depth: nat)
    requires Admitted(before, block) && EventsTurn(after.known, before.log, after.log, before.blocks, after.blocks)
    requires OrphanOutcome(before, after, block)
    ensures Outcome(before, after, block, Ok(Orphaned(BlockHash(block))), path, fork, depth)
  {
    hide BlockHash, Admitted, EventsTurn, OrphanOutcome;
  }

  lemma ConnectedOutcome(before: ChainState, after: ChainState, block: Block, height: nat,
                         path: seq<Block>, fork: Hash, depth: nat)
    requires Admitted(before, block) && EventsTurn(after.known, before.log, after.log, before.blocks, after.blocks)
    requires TipOutcome(before, after, block, height)
    ensures Outcome(before, after, block, Ok(Connected(height, BlockHash(block))), path, fork, depth)
  {
    hide BlockHash, Admitted, EventsTurn, TipOutcome;
  }

  lemma SideChainOutcome(before: ChainState, after: ChainState, block: Block, height: nat,
                         path: seq<Block>, fork: Hash, depth: nat)
    requires Admitted(before, block) && EventsTurn(after.known, before.log, after.log, before.blocks, after.blocks)
    requires SideOutcome(before, after, block, height)
    ensures Outcome(before, after, block, Ok(SideChain(height, BlockHash(block))), path, fork, depth)
  {
    hide BlockHash, Admitted, EventsTurn, SideOutcome;
  }

  /** The sum of a known parent's work and the block's own. */
  lemma AddedWork(known: Known, block: Block, blockWork: Hash)
    requires PrevOf(block) in known && Num(blockWork) == WorkOfBlock(block)
    requires Num(known[PrevOf(block)].work) + WorkOfBlock(block) < Uint256.Limit()
    ensures FromLe(known[PrevOf(block)].work) + FromLe(blockWork) < Uint256.Limit()
  {
    hide FromLe, WorkOfBlock;
  }

  lemma CandidateIs(known: Known, block: Block, blockWork: Hash, work: Hash)
    requires PrevOf(block) in known && Num(blockWork) == WorkOfBlock(block)
    requires FromLe(work) == FromLe(known[PrevOf(block)].work) + FromLe(blockWork)
    ensures CandidateWork(known, block, work)
  {
    hide FromLe, WorkOfBlock;
  }

  /** The block has no work, or passes the checks of its own and has bits that the chain asks for. */
  ghost predicate WorkMayBeComputed(blocks: seq<Block>, block: Block) {
    BlockWork(block.header.bits).Some? ==> Sealed(block) && AsksFor(blocks, block.header.bits)
  }

  /** An accepted header is what the work of a block is computed after. */
  lemma AcceptedMayBeComputed(known: Known, blocks: seq<Block>, networkTime: u32, block: Block, height: nat)
    requires WithinBlockLimits(block) && height > 0
    requires HeaderVerdict(known, blocks, networkTime, block, Some(PrevOf(block)), height).Ok?
    ensures WorkMayBeComputed(blocks, block)
  {
    hide BlockHash, WithinBlockLimits, MeetsTarget, MerkleMatches, BlockWork, MedianBefore, ExpectedBits, CoinbaseFirst;
    HasCoinbase(block.transactions);
    assert ExpectedBits(blocks, height, block.header.bits) == Ok(block.header.bits);
  }

  lemma GenesisComputes(genesis: Block, universe: iset<Block>)
    requires Admissible(genesis, universe) && (BlockWork(genesis.header.bits).Some? ==> Sealed(genesis))
    ensures WorkComputes(genesis.header.bits)
  {
    hide BlockHash, Sealed, WorkComputes, BlockWork, ValidChain, FreshChain, InUniverse, AsksFor;
    if BlockWork(genesis.header.bits).None? {
      NoWorkComputes(genesis.header.bits);
    }
  }

  lemma GenesisIsSealed(genesis: Block, networkTime: u32)
    requires WithinBlockLimits(genesis) && GenesisVerdict(genesis, networkTime)
    ensures BlockWork(genesis.header.bits).Some? ==> Sealed(genesis)
  {
    hide BlockHash, WithinBlockLimits, MeetsTarget, MerkleMatches, BlockWork, CoinbaseFirst, ExpectedBits;
    HasCoinbase(genesis.transactions);
  }

  /** The work of a new block and of the branch it makes can be computed. */
  lemma WorkFits(known: Known, blocks: seq<Block>, active: set<Hash>, utxos: Utxos, genesis: Block,
                 universe: iset<Block>, block: Block)
    requires ChainInv(known, blocks, active, utxos, genesis, universe)
    requires block in universe && PrevOf(block) in known && WorkMayBeComputed(blocks, block)
    ensures WorkComputes(block.header.bits)
    ensures BlockWork(block.header.bits).Some? ==>
      Num(known[PrevOf(block)].work) + WorkOfBlock(block) < Uint256.Limit()
  {
    hide BlockHash, BlockWork, Sealed, AsksFor, WorkComputes, TreeInv, ActiveInv, Admissible, WorkOfBlock, Num;
    if BlockWork(block.header.bits).Some? {
      AskedComputes(known, blocks, active, utxos, genesis, universe, block);
      ChildWorkFits(known, genesis, universe, block);
    } else {
      NoWorkComputes(block.header.bits);
    }
  }

  /** However an attempt ends, the index keeps its nodes and the tip's work does not shrink; under a known
      parent the orphans stay and a success adds exactly the block. */
  lemma AttemptFacts(before: ChainState, after: ChainState, block: Block, r: Result<ConnectResult, ChainError>,
                     path: seq<Block>, fork: Hash, depth: nat)
    requires Outcome(before, after, block, r, path, fork, depth)
    requires HeaviestTip(before.known, before.blocks, before.total)
    ensures KeepsNodes(before.known, after.known) && Num(after.total) >= Num(before.total)
    ensures PrevOf(block) in before.known ==> after.orphans == before.orphans
    ensures PrevOf(block) in before.known && r.Ok? ==> after.known.Keys == before.known.Keys + {BlockHash(block)}
  {
    hide BlockHash, FromLe, WorkOfBlock, KeepsNodes, Admitted, EventsTurn, ReorgsTo, Pooled, BranchPasses, BaseOf, ForkPath,
         Broke, AgreeOn;
    KeepsNodesRefl(before.known);
    TipHasTotal(before.known, before.blocks, before.total);
    if r.Err? {
      if Admitted(before, block) {
        SameTreeKeepsNodes(before.known, after.known);
      }
    } else if r.value.SideChain? {
      assert exists work: Hash :: Recorded(before, after, block, work);
    }
  }

  /** Where the chain stands after promoting orphans: no less work, the old nodes, no new orphan. */
  ghost predicate Promoted(before: ChainState, after: ChainState) {
    && KeepsNodes(before.known, after.known)
    && Num(after.total) >= Num(before.total)
    && (forall h | h in after.orphans :: h in before.orphans && after.orphans[h] == before.orphans[h])
    && after.networkTime == before.networkTime
  }

  lemma PromotedTrans(a: ChainState, b: ChainState, c: ChainState)
    requires Promoted(a, b) && Promoted(b, c)
    ensures Promoted(a, c)
  {
    hide KeepsNodes, FromLe;
    KeepsNodesTrans(a.known, b.known, c.known);
  }

  lemma PromotedOrphans(before: ChainState, after: ChainState)
    requires Promoted(before, after)
    ensures forall h | h in after.orphans :: h in before.orphans && after.orphans[h] == before.orphans[h]
  {
    hide KeepsNodes, FromLe;
  }

  lemma PromotedNodes(before: ChainState, after: ChainState)
    requires Promoted(before, after)
    ensures KeepsNodes(before.known, after.known)
  {
    hide KeepsNodes, FromLe;
  }

  lemma PromotedWork(before: ChainState, after: ChainState)
    requires Promoted(before, after)
    ensures Num(after.total) >= Num(before.total) && after.networkTime == before.networkTime
  {
    hide FromLe, KeepsNodes;
  }

  lemma AttemptPromotes(before: ChainState, after: ChainState, block: Block, r: Result<ConnectResult, ChainError>,
                        path: seq<Block>, fork: Hash, depth: nat)
    requires Outcome(before, after, block, r, path, fork, depth) && after.networkTime == before.networkTime
    requires HeaviestTip(before.known, before.blocks, before.total) && PrevOf(block) in before.known
    ensures Promoted(before, after) && after.orphans == before.orphans
    ensures r.Ok? ==> after.known.Keys == before.known.Keys + {BlockHash(block)}
  {
    hide BlockHash, FromLe, Outcome, HeaviestTip, KeepsNodes;
    AttemptFacts(before, after, block, r, path, fork, depth);
  }

  /** The orphans whose parent is not known. */
  function Waiting(orphans: Orphans, known: Known): Orphans {
    map h | h in orphans && !Ready(orphans, known, h) :: orphans[h]
  }

  /** The state without the orphans whose parent is known. */
  function Drained(s: ChainState): ChainState {
    s.(orphans := Waiting(s.orphans, s.known))
  }

  lemma OrphansShrunk(before: ChainState, after: ChainState)
    requires after == Drained(before)
    ensures Promoted(before, after)
  {
    KeepsNodesRefl(before.known);
  }

  lemma QueueEmpty(orphans: Orphans, known: Known, universe: iset<Block>)
    ensures QueueOk([], orphans, known, universe)
  {
  }

  lemma QueueHead(queue: seq<Block>, orphans: Orphans, known: Known, universe: iset<Block>)
    requires queue != [] && QueueOk(queue, orphans, known, universe)
    ensures Dequeued(queue[0], orphans, known, universe)
  {
    hide BlockHash, Dequeued;
  }

  /** One attempt to connect a block: the states around it, its result, and the branch it took over or
      failed to. */
  datatype Attempt = Attempt(before: ChainState, block: Block, result: Result<ConnectResult, ChainError>,
                             path: seq<Block>, fork: Hash, depth: nat, after: ChainState)

  ghost predicate Tried(a: Attempt) {
    && Outcome(a.before, a.after, a.block, a.result, a.path, a.fork, a.depth)
    && ErrorFits(a.before, a.block, a.result)
  }

  /** The block is in the pool, under its own hash. */
  ghost predicate InPool(orphans: Orphans, block: Block) {
    BlockHash(block) in orphans && orphans[BlockHash(block)].block == block
  }

  /** The state an attempt of a run starts from, before its ready orphans are taken out. */
  function StateAt(start: ChainState, trace: seq<Attempt>, i: nat): ChainState
    requires i <= |trace|
  {
    if i == 0 then start else trace[i - 1].after
  }

  /** Attempts on blocks of the pool at the start, one after the other, each after the orphans that have
      become ready have left the pool; all but the last succeed. */
  ghost predicate Promotions(start: ChainState, trace: seq<Attempt>) {
    hide *;
    && (forall i | 0 <= i < |trace| - 1 :: trace[i].result.Ok?)
    && (forall i | 0 <= i < |trace| :: PromotionAt(start, trace, i))
  }

  ghost predicate PromotionAt(start: ChainState, trace: seq<Attempt>, i: nat)
    requires i < |trace|
  {
    Tried(trace[i]) && trace[i].before == Drained(StateAt(start, trace, i)) && InPool(start.orphans, trace[i].block)
  }

  /** How the promotion of orphans ends: well, with every orphan of the start still waiting for its parent
      or known, or with the error of its last attempt. */
  ghost predicate PromotionsEnd(start: ChainState, trace: seq<Attempt>, end: ChainState, error: Option<ChainError>) {
    && match error {
         case Some(e) => trace != [] && trace[|trace| - 1].result == Err(e) && end == trace[|trace| - 1].after
         case None =>
           && (trace != [] ==> trace[|trace| - 1].result.Ok?)
           && end == Drained(StateAt(start, trace, |trace|))
           && start.orphans.Keys <= end.orphans.Keys + end.known.Keys
       }
    && Promotions(start, trace)
  }

  lemma NoPromotions(start: ChainState)
    ensures Promotions(start, []) && StateAt(start, [], 0) == start
  {
    hide PromotionAt;
  }

  lemma PromotionsSnoc(start: ChainState, trace: seq<Attempt>, a: Attempt)
    requires Promotions(start, trace) && (trace != [] ==> trace[|trace| - 1].result.Ok?)
    requires Tried(a) && a.before == Drained(StateAt(start, trace, |trace|)) && InPool(start.orphans, a.block)
    ensures Promotions(start, trace + [a]) && StateAt(start, trace + [a], |trace| + 1) == a.after
  {
    hide Tried, InPool, Drained;
    var longer := trace + [a];
    forall i | 0 <= i < |longer|
      ensures PromotionAt(start, longer, i)
    {
      if i < |trace| {
        assert PromotionAt(start, trace, i) && longer[i] == trace[i];
      }
    }
  }

  lemma PromotionsFail(start: ChainState, trace: seq<Attempt>, a: Attempt)
    requires Promotions(start, trace) && trace != [] && trace[|trace| - 1] == a && a.result.Err?
    ensures PromotionsEnd(start, trace, a.after, Some(a.result.error))
  {
    hide Promotions, Drained;
  }

  function QueuedHashes(queue: seq<Block>): set<Hash> {
    set b | b in queue :: BlockHash(b)
  }

  /** The ready orphans are the new end of the queue. */
  ghost predicate Enqueues(before: Orphans, after: Orphans, queue: seq<Block>, longer: seq<Block>) {
    && queue <= longer
    && (forall b | b in longer :: b in queue || InPool(before, b))
    && before.Keys <= after.Keys + QueuedHashes(longer)
  }

  lemma EnqueuesNothing(orphans: Orphans, queue: seq<Block>)
    ensures Enqueues(orphans, orphans, queue, queue)
  {
    hide BlockHash;
  }

  lemma EnqueuesOne(before: Orphans, orphans: Orphans, queue: seq<Block>, longer: seq<Block>, h: Hash)
    requires Enqueues(before, orphans, queue, longer) && h in orphans && h in before && orphans[h] == before[h]
    requires BlockHash(orphans[h].block) == h
    ensures Enqueues(before, orphans - {h}, queue, longer + [orphans[h].block])
  {
    hide BlockHash;
    var next := longer + [orphans[h].block];
    assert next[|longer|] in next && forall b | b in longer :: b in next;
  }

  /** Every orphan of the start is in the pool, known or queued; every queued block was an orphan then. */
  ghost predicate Accounted(start: Orphans, orphans: Orphans, known: Known, queue: seq<Block>) {
    && start.Keys <= orphans.Keys + known.Keys + QueuedHashes(queue)
    && (forall b | b in queue :: InPool(start, b))
  }

  lemma AccountedFirst(start: Orphans, orphans: Orphans, known: Known, queue: seq<Block>)
    requires Enqueues(start, orphans, [], queue)
    ensures Accounted(start, orphans, known, queue)
  {
    hide BlockHash, InPool;
  }

  lemma AccountedNext(start: Orphans, before: Orphans, after: Orphans, known: Known, known': Known, queue: seq<Block>,
                      longer: seq<Block>)
    requires Accounted(start, before, known, queue) && queue != []
    requires known'.Keys == known.Keys + {BlockHash(queue[0])}
    requires forall h | h in before :: h in start && before[h] == start[h]
    requires Enqueues(before, after, queue[1..], longer)
    ensures Accounted(start, after, known', longer)
  {
    hide BlockHash;
    assert queue == [queue[0]] + queue[1..];
    forall h | h in start
      ensures h in after || h in known' || h in QueuedHashes(longer)
    {
      if h !in before && h !in known {
        var b :| b in queue && BlockHash(b) == h;
        assert b == queue[0] || b in queue[1..];
        assert b in queue[1..] ==> b in longer;
      }
    }
  }

  lemma QueueHeadPooled(start: Orphans, orphans: Orphans, known: Known, queue: seq<Block>)
    requires Accounted(start, orphans, known, queue) && queue != []
    ensures InPool(start, queue[0])
  {
    hide InPool, QueuedHashes;
  }

  lemma PromotionsDone(start: ChainState, trace: seq<Attempt>, end: ChainState)
    requires Promotions(start, trace) && (trace != [] ==> trace[|trace| - 1].result.Ok?)
    requires end == Drained(StateAt(start, trace, |trace|)) && Accounted(start.orphans, end.orphans, end.known, [])
    ensures PromotionsEnd(start, trace, end, None)
  {
    hide Promotions, Drained;
    assert QueuedHashes([]) == {};
  }

  predicate Promotes(result: Result<ConnectResult, ChainError>) {
    result.Ok? && (result.value.Connected? || result.value.Reorganized?)
  }

  /** Where the promotion of orphans stands before its next attempt. */
  ghost predicate Promoting(start: ChainState, trace: seq<Attempt>, s: ChainState, queue: seq<Block>) {
    && (trace != [] ==> trace[|trace| - 1].result.Ok?)
    && s == Drained(StateAt(start, trace, |trace|)) && s.universe == start.universe
    && QueueOk(queue, s.orphans, s.known, s.universe) && NoneReady(s.orphans, s.known)
    && Accounted(start.orphans, s.orphans, s.known, queue)
    && Promoted(start, s) && Promotions(start, trace)
    && EventsTurn(s.known, start.log, s.log, start.blocks, s.blocks)
  }

  lemma PromotingStart(start: ChainState, s: ChainState, queue: seq<Block>)
    requires s == Drained(start) && QueueOk(queue, s.orphans, s.known, s.universe)
    requires Enqueues(start.orphans, s.orphans, [], queue)
    ensures Promoting(start, [], s, queue)
  {
    hide QueueOk, Accounted, Promoted, Promotions, EventsTurn, Enqueues, Waiting, NoneReady;
    NoPromotions(start);
    AccountedFirst(start.orphans, s.orphans, s.known, queue);
    OrphansShrunk(start, s);
    ReadyAgain(start.orphans, s.known, s.orphans);
    EventsTurnNothing(s.known, start.log, start.blocks);
  }

  /** The next attempt is made for the head of the queue. */
  ghost predicate TriesHead(s: ChainState, queue: seq<Block>, a: Attempt) {
    && queue != [] && a.block == queue[0] && a.before == s && Tried(a)
    && HeaviestTip(s.known, s.blocks, s.total)
    && a.after.networkTime == s.networkTime && a.after.universe == s.universe
  }

  lemma PromotingHead(start: ChainState, trace: seq<Attempt>, s: ChainState, queue: seq<Block>)
    requires Promoting(start, trace, s, queue) && queue != []
    ensures queue[0] in s.universe && QueueOk(queue, s.orphans, s.known, s.universe)
  {
    hide QueueOk, Accounted, Promoted, Promotions, EventsTurn, NoneReady, StateAt, Waiting;
    QueueHead(queue, s.orphans, s.known, s.universe);
  }

  /** What an attempt on the head of the queue leaves. */
  ghost predicate HeadTried(start: ChainState, trace: seq<Attempt>, s: ChainState, queue: seq<Block>, a: Attempt) {
    && queue != [] && Promotions(start, trace + [a]) && StateAt(start, trace + [a], |trace| + 1) == a.after
    && Promoted(start, a.after) && a.after.orphans == s.orphans
    && match a.result
       case Err(e) => PromotionsEnd(start, trace + [a], a.after, Some(e))
       case Ok(_) =>
         && QueueOk(queue[1..], a.after.orphans, a.after.known, a.after.universe)
         && EventsTurn(a.after.known, start.log, a.after.log, start.blocks, a.after.blocks)
         && a.after.known.Keys == s.known.Keys + {BlockHash(a.block)}
  }

  lemma PromotingTry(start: ChainState, trace: seq<Attempt>, s: ChainState, queue: seq<Block>, a: Attempt)
    requires Promoting(start, trace, s, queue) && TriesHead(s, queue, a)
    ensures HeadTried(start, trace, s, queue, a)
  {
    hide BlockHash, QueueOk, Accounted, Promoted, Promotions, EventsTurn, NoneReady, HeaviestTip, Outcome, ErrorFits,
         PromotionsEnd, StateAt, InPool, Num, Waiting;
    QueueHead(queue, s.orphans, s.known, s.universe);
    QueueHeadPooled(start.orphans, s.orphans, s.known, queue);
    PromotionsSnoc(start, trace, a);
    AttemptPromotes(s, a.after, a.block, a.result, a.path, a.fork, a.depth);
    PromotedTrans(start, s, a.after);
    if a.result.Err? {
      PromotionsFail(start, trace + [a], a);
    } else {
      OutcomeTurns(s, a.after, a.block, a.result, a.path, a.fork, a.depth);
      PromotedNodes(s, a.after);
      EventsTurnKept(s.known, a.after.known, start.log, s.log, start.blocks, s.blocks);
      EventsTurnTrans(a.after.known, start.log, s.log, a.after.log, start.blocks, s.blocks, a.after.blocks);
      QueueAdvances(queue, s.orphans, s.known, a.after.known, s.universe);
    }
  }

  lemma PromotingStep(start: ChainState, trace: seq<Attempt>, s: ChainState, queue: seq<Block>, a: Attempt,
                      s': ChainState, longer: seq<Block>)
    requires Promoting(start, trace, s, queue) && TriesHead(s, queue, a) && a.result.Ok?
    requires s' == Drained(a.after) && QueueOk(longer, s'.orphans, s'.known, s'.universe)
    requires Enqueues(a.after.orphans, s'.orphans, queue[1..], longer)
    ensures Promoting(start, trace + [a], s', longer)
  {
    hide BlockHash, QueueOk, Accounted, Promoted, Promotions, EventsTurn, NoneReady, HeaviestTip, Outcome, ErrorFits,
         PromotionsEnd, StateAt, InPool, Num, Waiting, Enqueues, Tried;
    PromotingTry(start, trace, s, queue, a);
    PromotedOrphans(start, a.after);
    AccountedNext(start.orphans, a.after.orphans, s'.orphans, s.known, s'.known, queue, longer);
    OrphansShrunk(a.after, s');
    PromotedTrans(start, a.after, s');
    ReadyAgain(a.after.orphans, s'.known, s'.orphans);
  }

  lemma PromotingEnd(start: ChainState, trace: seq<Attempt>, s: ChainState)
    requires Promoting(start, trace, s, [])
    ensures PromotionsEnd(start, trace, s, None) && Promoted(start, s) && NoneReady(s.orphans, s.known)
    ensures EventsTurn(s.known, start.log, s.log, start.blocks, s.blocks)
  {
    hide QueueOk, Accounted, Promoted, Promotions, EventsTurn, NoneReady, PromotionsEnd, StateAt, Waiting;
    PromotionsDone(start, trace, s);
  }

  /** How a block is connected: one attempt, and if it moved the tip, the promotion of orphans. If that
      fails, its error is the result although the block itself is connected. */
  ghost predicate ConnectOutcome(before: ChainState, after: ChainState, block: Block,
                                 r: Result<ConnectResult, ChainError>, first: Attempt, promoted: seq<Attempt>) {
    && first.before == before && first.block == block && Tried(first)
    && KeepsNodes(before.known, after.known) && Num(after.total) >= Num(before.total)
    && (r.Ok? ==> EventsTurn(after.known, before.log, after.log, before.blocks, after.blocks))
    && if Promotes(first.result) then
         && (r.Ok? ==> r == first.result && NoneReady(after.orphans, after.known))
         && PromotionsEnd(first.after, promoted, after, if r.Ok? then None else Some(r.error))
       else
         r == first.result && after == first.after && promoted == []
  }

  lemma OutcomeTurns(before: ChainState, after: ChainState, block: Block, r: Result<ConnectResult, ChainError>,
                     path: seq<Block>, fork: Hash, depth: nat)
    requires Outcome(before, after, block, r, path, fork, depth) && r.Ok?
    ensures EventsTurn(after.known, before.log, after.log, before.blocks, after.blocks)
  {
    hide EventsTurn, Admitted, OrphanOutcome, TipOutcome, SideOutcome, ReorgOutcome;
  }

  lemma ReadyAgain(before: Orphans, known: Known, after: Orphans)
    requires after == Waiting(before, known)
    ensures NoneReady(after, known)
  {
  }

  // ---- connect events of a whole call ----

  predicate Reorganizes(a: Attempt) {
    a.result.Ok? && a.result.value.Reorganized?
  }

  lemma OrphanConnects(before: ChainState, after: ChainState, block: Block)
    requires OrphanOutcome(before, after, block)
    ensures ActiveSince(after.blocks, before.log, after.log) && before.blocks <= after.blocks
  {
    hide BlockHash;
  }

  lemma TipConnects(before: ChainState, after: ChainState, block: Block, height: nat)
    requires TipOutcome(before, after, block, height)
    ensures ActiveSince(after.blocks, before.log, after.log) && before.blocks <= after.blocks
  {
    hide BlockHash, ActiveSince, Recorded, ConnectEvent;
    ActiveSinceNow(before.blocks, before.log);
    ActiveSinceConnect(before.blocks, before.log, before.log, block);
  }

  lemma SideConnects(before: ChainState, after: ChainState, block: Block, height: nat)
    requires SideOutcome(before, after, block, height)
    ensures ActiveSince(after.blocks, before.log, after.log) && before.blocks <= after.blocks
  {
    hide BlockHash, ActiveSince, Recorded, Overtakes;
    ActiveSinceNow(after.blocks, after.log);
  }

  lemma ReorgConnects(before: ChainState, after: ChainState, block: Block, path: seq<Block>, fork: Hash, depth: nat)
    requires ReorgOutcome(before, after, block, path, fork, depth)
    ensures ActiveSince(after.blocks, before.log, after.log)
  {
    hide BlockHash, ActiveSince, Recorded, Overtakes, ReorgsTo, BranchPasses, BaseOf;
  }

  /** A successful attempt logs connects of blocks that are active when it ends; only a reorganisation
      takes blocks off the active chain. */
  lemma AttemptConnects(a: Attempt)
    requires Tried(a) && a.result.Ok?
    ensures ActiveSince(a.after.blocks, a.before.log, a.after.log) && a.before.log <= a.after.log
    ensures !Reorganizes(a) ==> a.before.blocks <= a.after.blocks
  {
    hide BlockHash, Admitted, ErrorFits, ActiveSince, OrphanOutcome, TipOutcome, SideOutcome, ReorgOutcome, EventsTurn;
    EventsTurnGrows(a.after.known, a.before.log, a.after.log, a.before.blocks, a.after.blocks);
    match a.result.value
    case Orphaned(_) => OrphanConnects(a.before, a.after, a.block);
    case Connected(height, _) => TipConnects(a.before, a.after, a.block, height);
    case SideChain(height, _) => SideConnects(a.before, a.after, a.block, height);
    case Reorganized(_, _) => ReorgConnects(a.before, a.after, a.block, a.path, a.fork, a.depth);
  }

  /** As long as no attempt of a run reorganises, the connect events are of blocks still active. */
  lemma {:induction false} PromotionsConnect(origin: seq<ChainEvent>, start: ChainState, trace: seq<Attempt>, n: nat)
    requires Promotions(start, trace) && n <= |trace| && (forall i | 0 <= i < n :: trace[i].result.Ok?)
    requires ActiveSince(start.blocks, origin, start.log) && (forall i | 0 <= i < n :: !Reorganizes(trace[i]))
    ensures ActiveSince(StateAt(start, trace, n).blocks, origin, StateAt(start, trace, n).log)
  {
    hide Tried, ActiveSince, InPool, Waiting;
    if n > 0 {
      PromotionsConnect(origin, start, trace, n - 1);
      var a := trace[n - 1];
      assert PromotionAt(start, trace, n - 1);
      AttemptConnects(a);
      ActiveSinceGrows(a.before.blocks, a.after.blocks, origin, a.before.log);
      ActiveSinceTrans(a.after.blocks, origin, a.before.log, a.after.log);
    }
  }

  /** If the promotion of orphans does not reorganise the chain, every connect event of a successful call
      is of a block that is active when it ends. */
  lemma CallConnects(before: ChainState, after: ChainState, block: Block, r: Result<ConnectResult, ChainError>,
                     first: Attempt, promoted: seq<Attempt>)
    requires Promotes(first.result) ==> forall a | a in promoted :: !Reorganizes(a)
    requires r.Ok? && ConnectOutcome(before, after, block, r, first, promoted)
    ensures ActiveSince(after.blocks, before.log, after.log)
  {
    hide BlockHash, Tried, ActiveSince, EventsTurn, NoneReady, Promotions, Waiting, Num, Reorganizes;
    AttemptConnects(first);
    if Promotes(first.result) {
      PromotionsAllOk(first.after, promoted, after);
      PromotionsConnect(before.log, first.after, promoted, |promoted|);
    }
  }

  lemma PromotionsAllOk(start: ChainState, trace: seq<Attempt>, end: ChainState)
    requires PromotionsEnd(start, trace, end, None)
    ensures Promotions(start, trace) && forall i | 0 <= i < |trace| :: trace[i].result.Ok?
    ensures end == Drained(StateAt(start, trace, |trace|))
  {
    hide PromotionAt, Drained;
  }

  // ---- facts about lists used by the validators ----

  lemma NotDistinct<T>(prefix: seq<T>, all: seq<T>, x: T)
    requires prefix + [x] <= all && x in prefix
    ensures !Distinct(all)
  {
    var i :| 0 <= i < |prefix| && prefix[i] == x;
    assert all[i] == (prefix + [x])[i] && all[|prefix|] == (prefix + [x])[|prefix|];
  }

  lemma DistinctSnoc<T>(s: seq<T>, x: T)
    requires Distinct(s) && x !in s
    ensures Distinct(s + [x])
  {
  }

  lemma EmptyList(m: Utxos)
    ensures ApplyTxs(m, []) == m && SpendList([]) == [] && Distinct(SpendList([]))
  {
  }

  lemma ListSnoc(m: Utxos, txs: seq<Transaction>, i: nat)
    requires i < |txs|
    ensures ApplyTxs(m, txs[..i + 1]) == ApplyTx(ApplyTxs(m, txs[..i]), txs[i])
    ensures SpendList(txs[..i + 1]) == SpendList(txs[..i]) + InputPoints(SpentInputs(txs[i]))
  {
    hide ApplyTx, IsCoinbase;
    assert txs[..i + 1][..i] == txs[..i];
  }

  lemma {:induction false} SpendListPrefix(txs: seq<Transaction>, n: nat)
    requires n <= |txs| && Distinct(SpendList(txs))
    ensures Distinct(SpendList(txs[..n]))
    decreases |txs|
  {
    hide Distinct, SpendList;
    if n < |txs| {
      Value.SpendListSplit(txs);
      SpendListPrefix(txs[..|txs| - 1], n);
      assert txs[..|txs| - 1][..n] == txs[..n];
    } else {
      assert txs[..n] == txs;
    }
  }
}
