/** The index of known blocks as a tree, the active chain as a path in it, and the lemmas by which
    extending, retracting and rewriting keep them consistent. */
module BlockTree {
  import opened Types
  import opened Wire
  import opened Codec
  import opened Utxo
  import opened Pow
  import opened Consensus
  import Uint256

  datatype BlockMeta = BlockMeta(block: Block, height: nat, work: Hash, undo: seq<TxUndo>)

  type Known = map<Hash, BlockMeta>

  function PrevOf(block: Block): Hash {
    block.header.prevBlockhash
  }

  function Num(work: Hash): nat {
    FromLe(work)
  }

  function TipOf(blocks: seq<Block>): Hash {
    if blocks == [] then ZERO_HASH else BlockHash(blocks[|blocks| - 1])
  }

  /** The work of a block is its parent's and its own. */
  ghost predicate CandidateWork(known: Known, block: Block, work: Hash) {
    PrevOf(block) in known && Num(work) == Num(known[PrevOf(block)].work) + WorkOfBlock(block)
  }

  /** The times met walking from h towards the genesis block, at most n of them. */
  function AncestorTimes(known: Known, h: Hash, n: nat): seq<u32>
    decreases n
  {
    if n == 0 || h !in known then []
    else [known[h].block.header.time] + AncestorTimes(known, PrevOf(known[h].block), n - 1)
  }

  function MedianBefore(known: Known, h: Hash): u32 {
    Median(AncestorTimes(known, h, MEDIAN_WINDOW))
  }

  // ---- the tree ----

  /** A known block other than the genesis block: one above its known parent, with its parent's work
      plus its own, and a time above the median of its ancestors'. */
  ghost predicate ChildOk(known: Known, meta: BlockMeta) {
    var p := PrevOf(meta.block);
    && CandidateWork(known, meta.block, meta.work)
    && meta.height == known[p].height + 1
    && meta.block.header.time > MedianBefore(known, p)
  }

  ghost predicate NodeOk(known: Known, genesis: Block, universe: iset<Block>, h: Hash)
    requires h in known
  {
    var meta := known[h];
    && BlockHash(meta.block) == h
    && meta.block in universe
    && Sealed(meta.block)
    && (h == BlockHash(genesis) || ChildOk(known, meta))
  }

  ghost predicate RootOk(known: Known, genesis: Block) {
    var h := BlockHash(genesis);
    && h in known
    && known[h].block == genesis
    && known[h].height == 0
    && Num(known[h].work) == WorkOfBlock(genesis)
  }

  ghost predicate TreeInv(known: Known, genesis: Block, universe: iset<Block>) {
    && RootOk(known, genesis)
    && forall h | h in known :: NodeOk(known, genesis, universe, h)
  }

  /** The blocks from the genesis block to h. */
  function Branch(known: Known, h: Hash): seq<Block>
    decreases if h in known then known[h].height else 0
  {
    if h !in known then []
    else
      var p := PrevOf(known[h].block);
      if p in known && known[p].height < known[h].height then Branch(known, p) + [known[h].block]
      else [known[h].block]
  }

  /** What the invariant says of one node; the genesis block alone has no known parent. */
  lemma ParentOf(known: Known, genesis: Block, universe: iset<Block>, h: Hash)
    requires TreeInv(known, genesis, universe) && Admissible(genesis, universe) && h in known
    ensures BlockHash(known[h].block) == h && known[h].block in universe && Sealed(known[h].block)
    ensures h == BlockHash(genesis) <==> known[h].height == 0
    ensures h == BlockHash(genesis) ==>
      PrevOf(known[h].block) !in known && known[h].block == genesis && Num(known[h].work) == WorkOfBlock(genesis)
    ensures h != BlockHash(genesis) ==> ChildOk(known, known[h])
  {
    hide BlockHash, Sealed, ValidChain, FreshChain;
    assert NodeOk(known, genesis, universe, h);
    forall k | k in known
      ensures k != PrevOf(genesis)
    {
      assert NodeOk(known, genesis, universe, k);
    }
  }

  lemma BranchStep(known: Known, h: Hash)
    requires h in known && PrevOf(known[h].block) in known && known[PrevOf(known[h].block)].height < known[h].height
    ensures Branch(known, h) == Branch(known, PrevOf(known[h].block)) + [known[h].block]
  {
  }

  lemma LinkedSnoc(b: seq<Block>, block: Block)
    requires b != [] && Linked(b) && PrevOf(block) == BlockHash(b[|b| - 1])
    ensures Linked(b + [block])
  {
    hide BlockHash;
  }

  lemma InUniverseSnoc(b: seq<Block>, block: Block, genesis: Block, universe: iset<Block>)
    requires InUniverse(b, genesis, universe) && PrevOf(block) == BlockHash(b[|b| - 1])
    requires block in universe && Sealed(block)
    ensures InUniverse(b + [block], genesis, universe)
    ensures WorkOfChain(b + [block]) == WorkOfChain(b) + WorkOfBlock(block)
  {
    hide BlockHash, WorkOfBlock, Sealed, Linked;
    LinkedSnoc(b, block);
    assert (b + [block])[..|b|] == b;
  }

  /** A branch is a linked list from the genesis block whose total work is the work recorded at its end. */
  lemma {:induction false} BranchIsChain(known: Known, genesis: Block, universe: iset<Block>, h: Hash)
    requires TreeInv(known, genesis, universe) && Admissible(genesis, universe) && h in known
    ensures var b := Branch(known, h);
      && |b| == known[h].height + 1
      && b[|b| - 1] == known[h].block && BlockHash(known[h].block) == h
      && InUniverse(b, genesis, universe)
      && Num(known[h].work) == WorkOfChain(b)
    decreases known[h].height
  {
    hide BlockHash, Sealed, Admissible, MedianBefore, WorkOfBlock, WorkOfChain, InUniverse, TreeInv, Branch;
    ParentOf(known, genesis, universe, h);
    if h == BlockHash(genesis) {
      RootBranch(known, genesis, universe, h);
    } else {
      var p := PrevOf(known[h].block);
      BranchIsChain(known, genesis, universe, p);
      BranchStep(known, h);
      InUniverseSnoc(Branch(known, p), known[h].block, genesis, universe);
    }
  }

  lemma RootBranch(known: Known, genesis: Block, universe: iset<Block>, h: Hash)
    requires h in known && known[h].block == genesis && PrevOf(genesis) !in known
    requires genesis in universe && Sealed(genesis)
    ensures Branch(known, h) == [genesis]
    ensures InUniverse([genesis], genesis, universe) && WorkOfChain([genesis]) == WorkOfBlock(genesis)
  {
    hide BlockHash, WorkOfBlock, Sealed;
    assert [genesis][..0] == [];
  }

  lemma {:induction false} AncestorTimesAreRecent(known: Known, genesis: Block, universe: iset<Block>, h: Hash, n: nat)
    requires TreeInv(known, genesis, universe) && Admissible(genesis, universe) && h in known
    ensures AncestorTimes(known, h, n) == RecentTimes(Branch(known, h), n)
    decreases n
  {
    hide BlockHash, Sealed, Admissible, MedianBefore, WorkOfBlock, TreeInv, FromLe, AncestorTimes, RecentTimes, Branch;
    if n == 0 {
      NoTimes(known, h, Branch(known, h));
    } else {
      ParentOf(known, genesis, universe, h);
      var p := PrevOf(known[h].block);
      TimesStep(known, h, n);
      if h == BlockHash(genesis) {
        RootBranch(known, genesis, universe, h);
        NoMoreTimes(known, p, n - 1);
        RecentStep([], genesis, n);
        assert [] + [genesis] == [genesis];
      } else {
        AncestorTimesAreRecent(known, genesis, universe, p, n - 1);
        BranchStep(known, h);
        RecentStep(Branch(known, p), known[h].block, n);
      }
    }
  }

  lemma NoTimes(known: Known, h: Hash, blocks: seq<Block>)
    ensures AncestorTimes(known, h, 0) == [] == RecentTimes(blocks, 0)
  {
  }

  lemma NoMoreTimes(known: Known, h: Hash, n: nat)
    requires h !in known
    ensures AncestorTimes(known, h, n) == [] == RecentTimes([], n)
  {
  }

  lemma TimesStep(known: Known, h: Hash, n: nat)
    requires h in known && n > 0
    ensures AncestorTimes(known, h, n) ==
      [known[h].block.header.time] + AncestorTimes(known, PrevOf(known[h].block), n - 1)
  {
  }

  lemma RecentStep(blocks: seq<Block>, block: Block, n: nat)
    requires n > 0
    ensures RecentTimes(blocks + [block], n) == [block.header.time] + RecentTimes(blocks, n - 1)
  {
    assert (blocks + [block])[..|blocks|] == blocks;
  }

  lemma {:induction false} AncestorTimesPrefix(known: Known, h: Hash, n: nat)
    requires n > 0
    ensures |AncestorTimes(known, h, n)| <= n
    ensures var longer := AncestorTimes(known, h, n);
      AncestorTimes(known, h, n - 1) == if |longer| == n then longer[..n - 1] else longer
    decreases n
  {
    if h in known && n > 1 {
      AncestorTimesPrefix(known, PrevOf(known[h].block), n - 1);
    }
  }

  /** On every branch the median time past never decreases from a block to its child. */
  lemma MedianMonotone(known: Known, genesis: Block, universe: iset<Block>, h: Hash)
    requires TreeInv(known, genesis, universe) && Admissible(genesis, universe)
    requires h in known && h != BlockHash(genesis)
    ensures MedianBefore(known, PrevOf(known[h].block)) <= MedianBefore(known, h)
  {
    hide BlockHash, Sealed, Admissible, WorkOfBlock, Median;
    ParentOf(known, genesis, universe, h);
    var p, time := PrevOf(known[h].block), known[h].block.header.time;
    var window := AncestorTimes(known, p, MEDIAN_WINDOW);
    AncestorTimesPrefix(known, p, MEDIAN_WINDOW);
    MedianNeverDecreases(window, time);
    assert AncestorTimes(known, h, MEDIAN_WINDOW) == [time] + AncestorTimes(known, p, MEDIAN_WINDOW - 1);
    assert window[..|window|] == window;
  }

  /** Adding the work of a sealed child never leaves 256 bits. */
  lemma ChildWorkFits(known: Known, genesis: Block, universe: iset<Block>, block: Block)
    requires TreeInv(known, genesis, universe) && Admissible(genesis, universe)
    requires block in universe && Sealed(block) && PrevOf(block) in known
    ensures Num(known[PrevOf(block)].work) + WorkOfBlock(block) < Uint256.Limit()
  {
    hide BlockHash, Sealed, ValidChain, FreshChain, WorkOfBlock, WorkOfChain, TreeInv, Branch, InUniverse, AsksFor,
         WorkComputes, Num;
    var p := PrevOf(block);
    BranchIsChain(known, genesis, universe, p);
    InUniverseSnoc(Branch(known, p), block, genesis, universe);
  }

  // ---- changes of the index ----

  /** `after` has the nodes of `before` up to their undo data, and none of them has gained a parent. */
  ghost predicate KeepsNodes(before: Known, after: Known) {
    forall h | h in before ::
      && h in after
      && after[h].block == before[h].block
      && after[h].height == before[h].height
      && after[h].work == before[h].work
      && (PrevOf(before[h].block) in after ==> PrevOf(before[h].block) in before)
  }

  lemma {:induction false} AncestorTimesKept(before: Known, after: Known, h: Hash, n: nat)
    requires KeepsNodes(before, after) && h in before
    ensures AncestorTimes(after, h, n) == AncestorTimes(before, h, n)
    decreases n
  {
    if n > 1 && PrevOf(before[h].block) in before {
      AncestorTimesKept(before, after, PrevOf(before[h].block), n - 1);
    }
  }

  lemma NodeKept(before: Known, after: Known, genesis: Block, universe: iset<Block>, h: Hash)
    requires KeepsNodes(before, after) && h in before && NodeOk(before, genesis, universe, h)
    ensures NodeOk(after, genesis, universe, h)
  {
    hide BlockHash, Sealed, WorkOfBlock, Median, AncestorTimes;
    if h != BlockHash(genesis) {
      AncestorTimesKept(before, after, PrevOf(before[h].block), MEDIAN_WINDOW);
    }
  }

  /** The same nodes with the same blocks, heights and work; only undo data may differ. */
  ghost predicate SameTree(before: Known, after: Known) {
    before.Keys == after.Keys && KeepsNodes(before, after)
  }

  lemma SameTreeKeepsInv(before: Known, after: Known, genesis: Block, universe: iset<Block>)
    requires TreeInv(before, genesis, universe) && SameTree(before, after)
    ensures TreeInv(after, genesis, universe)
  {
    hide BlockHash, NodeOk;
    forall h | h in after
      ensures NodeOk(after, genesis, universe, h)
    {
      NodeKept(before, after, genesis, universe, h);
    }
  }

  lemma NotGenesisParent(genesis: Block, universe: iset<Block>, block: Block)
    requires Admissible(genesis, universe) && block in universe && Sealed(block)
    ensures BlockHash(block) != PrevOf(genesis)
  {
    hide BlockHash, Sealed, WorkComputes, ValidChain, FreshChain, AsksFor, InUniverse;
  }

  lemma InsertKeepsNodes(known: Known, genesis: Block, universe: iset<Block>, meta: BlockMeta)
    requires TreeInv(known, genesis, universe) && Admissible(genesis, universe)
    requires BlockHash(meta.block) !in known && meta.block in universe && Sealed(meta.block)
    ensures KeepsNodes(known, known[BlockHash(meta.block) := meta])
  {
    hide BlockHash, Sealed, WorkOfBlock, MedianBefore, Admissible, TreeInv;
    var added := BlockHash(meta.block);
    NotGenesisParent(genesis, universe, meta.block);
    forall h | h in known
      ensures PrevOf(known[h].block) != added
    {
      ParentOf(known, genesis, universe, h);
    }
  }

  lemma InsertedNodeOk(known: Known, after: Known, genesis: Block, universe: iset<Block>, meta: BlockMeta)
    requires KeepsNodes(known, after) && ChildOk(known, meta)
    requires meta.block in universe && Sealed(meta.block)
    requires after == known[BlockHash(meta.block) := meta] && BlockHash(meta.block) !in known
    ensures NodeOk(after, genesis, universe, BlockHash(meta.block))
  {
    hide BlockHash, Sealed, WorkOfBlock, Median, AncestorTimes;
    AncestorTimesKept(known, after, PrevOf(meta.block), MEDIAN_WINDOW);
  }

  /** A new block under a known parent. */
  lemma TreeInsert(known: Known, genesis: Block, universe: iset<Block>, meta: BlockMeta)
    requires TreeInv(known, genesis, universe) && Admissible(genesis, universe)
    requires BlockHash(meta.block) !in known && meta.block in universe && Sealed(meta.block)
    requires ChildOk(known, meta)
    ensures TreeInv(known[BlockHash(meta.block) := meta], genesis, universe)
  {
    hide BlockHash, Sealed, Admissible, KeepsNodes, ChildOk, NodeOk;
    var added := BlockHash(meta.block);
    var after := known[added := meta];
    InsertKeepsNodes(known, genesis, universe, meta);
    InsertedNodeOk(known, after, genesis, universe, meta);
    forall h | h in known
      ensures NodeOk(after, genesis, universe, h)
    {
      NodeKept(known, after, genesis, universe, h);
    }
    assert BlockHash(genesis) in known;
  }

  // ---- the active chain ----

  function Hashes(blocks: seq<Block>): (hashes: seq<Hash>)
    ensures |hashes| == |blocks|
  {
    seq(|blocks|, i requires 0 <= i < |blocks| => BlockHash(blocks[i]))
  }

  /** The active block at height i is known at that height, with the undo data of its own transactions. */
  ghost predicate ActiveAt(known: Known, blocks: seq<Block>, i: nat)
    requires i < |blocks|
  {
    var h := BlockHash(blocks[i]);
    && h in known
    && known[h].block == blocks[i]
    && known[h].height == i
    && known[h].undo == UndosOf(Replay(blocks[..i]), blocks[i].transactions)
  }

  ghost predicate ActiveInv(known: Known, blocks: seq<Block>, active: set<Hash>, utxos: Utxos, genesis: Block) {
    && blocks != [] && blocks[0] == genesis
    && AllActive(known, blocks)
    && active == (set h | h in Hashes(blocks))
    && utxos == Replay(blocks)
    && ValidChain(blocks)
  }

  lemma ActiveHashesDistinct(known: Known, blocks: seq<Block>, i: nat, j: nat)
    requires AllActive(known, blocks)
    requires i < |blocks| && j < |blocks| && BlockHash(blocks[i]) == BlockHash(blocks[j])
    ensures i == j
  {
    hide BlockHash, Replay, UndosOf;
    assert ActiveAt(known, blocks, i) && ActiveAt(known, blocks, j);
  }

  /** The branch of an active block is the active chain up to it. */
  lemma {:induction false} ActiveBranch(known: Known, blocks: seq<Block>, active: set<Hash>, utxos: Utxos,
                                        genesis: Block, universe: iset<Block>, i: nat)
    requires TreeInv(known, genesis, universe) && Admissible(genesis, universe)
    requires ActiveInv(known, blocks, active, utxos, genesis) && i < |blocks|
    ensures BlockHash(blocks[i]) in known
    ensures Branch(known, BlockHash(blocks[i])) == blocks[..i + 1]
    decreases i
  {
    hide BlockHash, Sealed, Admissible, MedianBefore, WorkOfBlock, Replay, UndosOf, ValidGenesis, MayFollow, TreeInv;
    assert ActiveAt(known, blocks, i);
    var h := BlockHash(blocks[i]);
    ParentOf(known, genesis, universe, h);
    if i == 0 {
      assert blocks[..1] == [blocks[0]];
    } else {
      ActiveBranch(known, blocks, active, utxos, genesis, universe, i - 1);
      assert PrevOf(blocks[i]) == BlockHash(blocks[i - 1]);
      assert blocks[..i + 1] == blocks[..i] + [blocks[i]];
    }
  }

  /** On a branch that is active the walk in the index gives the median time past of the chain. */
  lemma MedianOfActive(known: Known, blocks: seq<Block>, active: set<Hash>, utxos: Utxos,
                       genesis: Block, universe: iset<Block>)
    requires TreeInv(known, genesis, universe) && Admissible(genesis, universe)
    requires ActiveInv(known, blocks, active, utxos, genesis)
    ensures MedianBefore(known, TipOf(blocks)) == MedianPast(blocks)
  {
    hide BlockHash, Sealed, Admissible, TreeInv, RecentTimes, Median, Branch, Replay, UndosOf, ValidChain;
    var tip := |blocks| - 1;
    ActiveBranch(known, blocks, active, utxos, genesis, universe, tip);
    AncestorTimesAreRecent(known, genesis, universe, BlockHash(blocks[tip]), MEDIAN_WINDOW);
    assert blocks[..tip + 1] == blocks;
  }

  /** The work recorded for the tip is that of the active chain. */
  lemma BranchOfTip(known: Known, blocks: seq<Block>, active: set<Hash>, utxos: Utxos,
                    genesis: Block, universe: iset<Block>)
    requires ChainInv(known, blocks, active, utxos, genesis, universe)
    requires blocks != [] && TipOf(blocks) in known
    ensures FromLe(known[TipOf(blocks)].work) == WorkOfChain(blocks)
  {
    hide BlockHash, Admissible, TreeInv, ActiveInv, Branch, InUniverse, WorkOfChain, FromLe;
    var tip := |blocks| - 1;
    BranchIsChain(known, genesis, universe, BlockHash(blocks[tip]));
    ActiveBranch(known, blocks, active, utxos, genesis, universe, tip);
    assert blocks[..tip + 1] == blocks;
  }

  lemma HashesSnoc(blocks: seq<Block>, block: Block)
    ensures Hashes(blocks + [block]) == Hashes(blocks) + [BlockHash(block)]
    ensures (set h | h in Hashes(blocks + [block])) == (set h | h in Hashes(blocks)) + {BlockHash(block)}
  {
    hide BlockHash;
    assert Hashes(blocks + [block]) == Hashes(blocks) + [BlockHash(block)];
  }

  lemma ActiveAtKept(before: Known, after: Known, blocks: seq<Block>, longer: seq<Block>, i: nat)
    requires i < |blocks| <= |longer| && longer[..|blocks|] == blocks
    requires ActiveAt(before, blocks, i)
    requires BlockHash(blocks[i]) in after && after[BlockHash(blocks[i])] == before[BlockHash(blocks[i])]
    ensures ActiveAt(after, longer, i)
  {
    hide BlockHash, Replay, UndosOf;
    assert longer[i] == longer[..|blocks|][i] == blocks[i];
    assert longer[..i] == blocks[..i];
  }

  ghost predicate AllActive(known: Known, blocks: seq<Block>) {
    forall i | 0 <= i < |blocks| :: ActiveAt(known, blocks, i)
  }

  lemma AllActiveSnoc(known: Known, blocks: seq<Block>, meta: BlockMeta)
    requires AllActive(known, blocks) && BlockHash(meta.block) !in Hashes(blocks)
    requires meta.height == |blocks| && meta.undo == UndosOf(Replay(blocks), meta.block.transactions)
    ensures AllActive(known[BlockHash(meta.block) := meta], blocks + [meta.block])
  {
    hide BlockHash, Replay, UndosOf;
    var after, longer := known[BlockHash(meta.block) := meta], blocks + [meta.block];
    assert longer[..|blocks|] == blocks;
    forall i | 0 <= i < |blocks|
      ensures ActiveAt(after, longer, i)
    {
      assert Hashes(blocks)[i] == BlockHash(blocks[i]);
      ActiveAtKept(known, after, blocks, longer, i);
    }
    assert ActiveAt(after, longer, |blocks|);
  }

  lemma AllActivePrefix(known: Known, blocks: seq<Block>, n: nat)
    requires AllActive(known, blocks) && n < |blocks|
    ensures AllActive(known, blocks[..n])
    ensures BlockHash(blocks[n]) !in Hashes(blocks[..n])
  {
    hide BlockHash, Replay, UndosOf;
    var shorter := blocks[..n];
    forall i | 0 <= i < n
      ensures ActiveAt(known, shorter, i) && Hashes(shorter)[i] != BlockHash(blocks[n])
    {
      assert ActiveAt(known, blocks, i);
      assert shorter[..i] == blocks[..i];
      if Hashes(shorter)[i] == BlockHash(blocks[n]) {
        ActiveHashesDistinct(known, blocks, i, n);
      }
    }
  }

  /** The active chain grows by a block that may follow it. */
  lemma ActiveExtend(known: Known, blocks: seq<Block>, active: set<Hash>, utxos: Utxos, genesis: Block, meta: BlockMeta)
    requires ActiveInv(known, blocks, active, utxos, genesis)
    requires MayFollow(blocks, meta.block) && PrevOf(meta.block) == TipOf(blocks)
    requires BlockHash(meta.block) !in active
    requires meta.height == |blocks| && meta.undo == UndosOf(utxos, meta.block.transactions)
    ensures ActiveInv(known[BlockHash(meta.block) := meta], blocks + [meta.block], active + {BlockHash(meta.block)},
                      ApplyTxs(utxos, meta.block.transactions), genesis)
  {
    hide BlockHash, Replay, UndosOf, ValidChain, MayFollow, ApplyTxs, ActiveAt, Hashes;
    ValidChainSnoc(blocks, meta.block);
    ReplaySnoc(blocks, meta.block);
    HashesSnoc(blocks, meta.block);
    AllActiveSnoc(known, blocks, meta);
  }

  /** The active chain shrinks by its tip, and the stored undo data, run in reverse, gives the replay
      of what is left. */
  lemma ActiveRetract(known: Known, blocks: seq<Block>, active: set<Hash>, utxos: Utxos, genesis: Block)
    requires ActiveInv(known, blocks, active, utxos, genesis) && |blocks| > 1 && FreshChain(blocks)
    ensures var n := |blocks| - 1; var tip := BlockHash(blocks[n]);
      && tip in known
      && ActiveInv(known, blocks[..n], active - {tip}, RevertAll(utxos, known[tip].undo), genesis)
  {
    var n := |blocks| - 1;
    hide BlockHash, Replay, UndosOf, ValidChain, RevertAll, FreshChain, ActiveAt, Hashes, ApplyTxs;
    assert blocks == blocks[..n] + [blocks[n]];
    StoredUndoRestores(known, blocks);
    HashesSnoc(blocks[..n], blocks[n]);
    ValidChainPrefix(blocks, n);
    AllActivePrefix(known, blocks, n);
  }

  lemma StoredUndoRestores(known: Known, blocks: seq<Block>)
    requires AllActive(known, blocks) && blocks != [] && FreshChain(blocks)
    ensures var n := |blocks| - 1; var tip := BlockHash(blocks[n]);
      tip in known && RevertAll(Replay(blocks), known[tip].undo) == Replay(blocks[..n])
  {
    var n := |blocks| - 1;
    hide BlockHash, UndosOf, AllFresh, RevertAll, ApplyTxs;
    assert ActiveAt(known, blocks, n);
    UndoListRestores(Replay(blocks[..n]), blocks[n].transactions);
  }

  /** Entries of blocks that are not active may be rewritten. */
  lemma ActiveKept(before: Known, after: Known, blocks: seq<Block>, active: set<Hash>, utxos: Utxos, genesis: Block)
    requires ActiveInv(before, blocks, active, utxos, genesis)
    requires forall h | h in active :: h in before && h in after && after[h] == before[h]
    ensures ActiveInv(after, blocks, active, utxos, genesis)
  {
    hide BlockHash, Replay, UndosOf, ValidChain;
    forall i | 0 <= i < |blocks|
      ensures ActiveAt(after, blocks, i)
    {
      assert Hashes(blocks)[i] == BlockHash(blocks[i]);
      assert ActiveAt(before, blocks, i);
      assert blocks[..|blocks|] == blocks;
      ActiveAtKept(before, after, blocks, blocks, i);
    }
  }

  lemma ActiveIsKnown(known: Known, blocks: seq<Block>, active: set<Hash>, utxos: Utxos, genesis: Block, h: Hash)
      returns (i: nat)
    requires ActiveInv(known, blocks, active, utxos, genesis) && h in active
    ensures i < |blocks| && BlockHash(blocks[i]) == h && h in known && known[h].height == i && known[h].block == blocks[i]
  {
    hide BlockHash, Replay, UndosOf, ValidChain;
    i :| 0 <= i < |blocks| && Hashes(blocks)[i] == h;
    assert ActiveAt(known, blocks, i);
  }

  lemma ActiveInUniverse(known: Known, blocks: seq<Block>, active: set<Hash>, utxos: Utxos,
                         genesis: Block, universe: iset<Block>)
    requires TreeInv(known, genesis, universe) && ActiveInv(known, blocks, active, utxos, genesis)
    ensures InUniverse(blocks, genesis, universe) && ValidChain(blocks)
  {
    hide BlockHash, Sealed, Replay, UndosOf, ValidGenesis, MayFollow, ChildOk;
    forall i | 0 <= i < |blocks|
      ensures blocks[i] in universe && Sealed(blocks[i])
    {
      assert ActiveAt(known, blocks, i);
      assert NodeOk(known, genesis, universe, BlockHash(blocks[i]));
    }
  }

  /** The valid chains of the universe are fresh, so the active chain is. */
  lemma ActiveIsFresh(known: Known, blocks: seq<Block>, active: set<Hash>, utxos: Utxos,
                      genesis: Block, universe: iset<Block>)
    requires TreeInv(known, genesis, universe) && Admissible(genesis, universe)
    requires ActiveInv(known, blocks, active, utxos, genesis)
    ensures FreshChain(blocks)
  {
    hide Sealed, ActiveInv, TreeInv, ValidChain, FreshChain, WorkOfChain, InUniverse, AsksFor, WorkComputes, BlockHash;
    ActiveInUniverse(known, blocks, active, utxos, genesis, universe);
  }

  /** The work of bits that the active chain asks for can be computed. */
  lemma AskedComputes(known: Known, blocks: seq<Block>, active: set<Hash>, utxos: Utxos,
                      genesis: Block, universe: iset<Block>, block: Block)
    requires TreeInv(known, genesis, universe) && Admissible(genesis, universe)
    requires ActiveInv(known, blocks, active, utxos, genesis)
    requires block in universe && Sealed(block) && AsksFor(blocks, block.header.bits)
    ensures WorkComputes(block.header.bits)
  {
    hide Sealed, ActiveInv, TreeInv, ValidChain, FreshChain, WorkOfChain, InUniverse, AsksFor, WorkComputes, BlockHash;
    ActiveInUniverse(known, blocks, active, utxos, genesis, universe);
  }

  // ---- whole steps ----

  ghost predicate ChainInv(known: Known, blocks: seq<Block>, active: set<Hash>, utxos: Utxos,
                           genesis: Block, universe: iset<Block>) {
    && Admissible(genesis, universe)
    && TreeInv(known, genesis, universe)
    && ActiveInv(known, blocks, active, utxos, genesis)
  }

  /** The entry of a block about to join the active chain: a new one, or the known one with new undo data. */
  ghost predicate JoinsAs(known: Known, meta: BlockMeta) {
    var h := BlockHash(meta.block);
    h in known ==> known[h].block == meta.block && known[h].height == meta.height && known[h].work == meta.work
  }

  lemma RewriteIsSameTree(known: Known, meta: BlockMeta)
    requires BlockHash(meta.block) in known && JoinsAs(known, meta)
    ensures SameTree(known, known[BlockHash(meta.block) := meta])
  {
    hide BlockHash;
    assert known[BlockHash(meta.block) := meta].Keys == known.Keys;
  }

  lemma JoinTree(known: Known, genesis: Block, universe: iset<Block>, meta: BlockMeta)
    requires TreeInv(known, genesis, universe) && Admissible(genesis, universe)
    requires meta.block in universe && Sealed(meta.block) && ChildOk(known, meta) && JoinsAs(known, meta)
    ensures TreeInv(known[BlockHash(meta.block) := meta], genesis, universe)
    ensures KeepsNodes(known, known[BlockHash(meta.block) := meta])
  {
    hide BlockHash, Sealed, Admissible, TreeInv, ChildOk, KeepsNodes, SameTree, JoinsAs;
    if BlockHash(meta.block) in known {
      RewriteIsSameTree(known, meta);
      SameTreeKeepsInv(known, known[BlockHash(meta.block) := meta], genesis, universe);
      SameTreeKeepsNodes(known, known[BlockHash(meta.block) := meta]);
    } else {
      TreeInsert(known, genesis, universe, meta);
      InsertKeepsNodes(known, genesis, universe, meta);
    }
  }

  lemma FollowerIsChildOk(known: Known, blocks: seq<Block>, active: set<Hash>, utxos: Utxos,
                          genesis: Block, universe: iset<Block>, meta: BlockMeta)
    requires ChainInv(known, blocks, active, utxos, genesis, universe)
    requires MayFollow(blocks, meta.block) && PrevOf(meta.block) == TipOf(blocks)
    requires meta.height == |blocks| && CandidateWork(known, meta.block, meta.work)
    ensures Sealed(meta.block) && ChildOk(known, meta)
  {
    hide BlockHash, Sealed, MayFollow, Admissible, TreeInv, ActiveInv, MedianBefore, MedianPast, WorkOfBlock;
    TipIsKnown(known, blocks, active, utxos, genesis);
    MayFollowFacts(blocks, meta.block);
    MedianOfActive(known, blocks, active, utxos, genesis, universe);
  }

  /** A block that may follow the active chain joins it, whether or not it was known before. */
  lemma JoinKeepsInv(known: Known, blocks: seq<Block>, active: set<Hash>, utxos: Utxos,
                     genesis: Block, universe: iset<Block>, meta: BlockMeta)
    requires ChainInv(known, blocks, active, utxos, genesis, universe)
    requires MayFollow(blocks, meta.block) && PrevOf(meta.block) == TipOf(blocks)
    requires meta.block in universe && BlockHash(meta.block) !in active
    requires meta.height == |blocks| && meta.undo == UndosOf(utxos, meta.block.transactions)
    requires CandidateWork(known, meta.block, meta.work)
    requires JoinsAs(known, meta)
    ensures ChainInv(known[BlockHash(meta.block) := meta], blocks + [meta.block], active + {BlockHash(meta.block)},
                     ApplyTxs(utxos, meta.block.transactions), genesis, universe)
    ensures KeepsNodes(known, known[BlockHash(meta.block) := meta])
  {
    hide BlockHash, Sealed, MayFollow, Admissible, TreeInv, ActiveInv, WorkOfBlock, ChildOk, JoinsAs,
         UndosOf, ApplyTxs, KeepsNodes;
    FollowerIsChildOk(known, blocks, active, utxos, genesis, universe, meta);
    JoinTree(known, genesis, universe, meta);
    ActiveExtend(known, blocks, active, utxos, genesis, meta);
  }

  lemma SameTreeKeepsNodes(before: Known, after: Known)
    requires SameTree(before, after)
    ensures KeepsNodes(before, after)
  {
  }

  lemma MayFollowFacts(blocks: seq<Block>, block: Block)
    requires blocks != [] && MayFollow(blocks, block)
    ensures Sealed(block) && block.header.time > MedianPast(blocks)
  {
    hide Sealed, MedianPast, ExpectedBits, TxsValid, Replay;
  }

  /** The tip is known at the last height. */
  lemma TipIsKnown(known: Known, blocks: seq<Block>, active: set<Hash>, utxos: Utxos, genesis: Block)
    requires ActiveInv(known, blocks, active, utxos, genesis)
    ensures blocks != []
    ensures var tip := TipOf(blocks);
      tip in known && tip in active && known[tip].height == |blocks| - 1 && known[tip].block == blocks[|blocks| - 1]
  {
    hide BlockHash, Replay, UndosOf, ValidChain;
    assert ActiveAt(known, blocks, |blocks| - 1);
    assert Hashes(blocks)[|blocks| - 1] == BlockHash(blocks[|blocks| - 1]);
  }

  /** Disconnecting the tip with its stored undo data. */
  lemma RetractKeepsInv(known: Known, blocks: seq<Block>, active: set<Hash>, utxos: Utxos,
                        genesis: Block, universe: iset<Block>)
    requires ChainInv(known, blocks, active, utxos, genesis, universe) && |blocks| > 1
    ensures var n := |blocks| - 1; var tip := BlockHash(blocks[n]);
      && tip in known
      && ChainInv(known, blocks[..n], active - {tip}, RevertAll(utxos, known[tip].undo), genesis, universe)
  {
    hide BlockHash, FreshChain, ActiveInv, TreeInv, Admissible, RevertAll;
    ActiveIsFresh(known, blocks, active, utxos, genesis, universe);
    ActiveRetract(known, blocks, active, utxos, genesis);
  }

  /** Restoring the active chain after the index was rewritten only off the active branch. */
  lemma RollbackKeepsInv(before: Known, after: Known, blocks: seq<Block>, active: set<Hash>, utxos: Utxos,
                         genesis: Block, universe: iset<Block>)
    requires ChainInv(before, blocks, active, utxos, genesis, universe)
    requires SameTree(before, after) && AgreeOn(before, after, active)
    ensures ChainInv(after, blocks, active, utxos, genesis, universe)
  {
    hide BlockHash, ActiveInv, TreeInv, Admissible, SameTree;
    SameTreeKeepsInv(before, after, genesis, universe);
    ActiveKept(before, after, blocks, active, utxos, genesis);
  }

  ghost predicate AgreeOn(before: Known, after: Known, hashes: set<Hash>) {
    forall h | h in hashes :: h in before && h in after && after[h] == before[h]
  }

  lemma ActiveIsSubset(known: Known, blocks: seq<Block>, active: set<Hash>, utxos: Utxos, genesis: Block)
    requires ActiveInv(known, blocks, active, utxos, genesis)
    ensures forall h | h in active :: h in known && known[h].height < |blocks|
    ensures BlockHash(genesis) in active
  {
    hide BlockHash, Replay, UndosOf, ValidChain, Hashes;
    forall h | h in active
      ensures h in known && known[h].height < |blocks|
    {
      var i := ActiveIsKnown(known, blocks, active, utxos, genesis, h);
    }
    HashInActive(blocks, 0);
  }

  lemma HashInActive(blocks: seq<Block>, i: nat)
    requires i < |blocks|
    ensures BlockHash(blocks[i]) in Hashes(blocks)
  {
    hide BlockHash;
    assert Hashes(blocks)[i] == BlockHash(blocks[i]);
  }

  /** A known child of the tip that is recorded one higher is not active, and joins with the work it has. */
  lemma KnownChildOfTip(known: Known, blocks: seq<Block>, active: set<Hash>, utxos: Utxos,
                        genesis: Block, universe: iset<Block>, h: Hash)
    requires ChainInv(known, blocks, active, utxos, genesis, universe)
    requires h in known && h != BlockHash(genesis) && PrevOf(known[h].block) == TipOf(blocks)
    ensures known[h].height == |blocks| && h !in active
    ensures CandidateWork(known, known[h].block, known[h].work)
    ensures known[h].block in universe && WithinBlockLimits(known[h].block) && BlockHash(known[h].block) == h
  {
    hide BlockHash, ActiveInv, TreeInv, Admissible, WorkOfBlock, MedianBefore, WithinBlockLimits;
    TipIsKnown(known, blocks, active, utxos, genesis);
    ParentOf(known, genesis, universe, h);
    ActiveIsSubset(known, blocks, active, utxos, genesis);
  }
}
