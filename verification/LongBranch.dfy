/** How the check of a block comes to run past the end of the active chain: a long branch of light blocks
    grows beside the tip until it ends a period. */
module LongBranch {
  import opened Types
  import opened Codec
  import opened Utxo
  import opened Merkle
  import opened Pow
  import opened Consensus
  import opened BlockTree
  import opened ChainRules
  import opened ChainSteps
  import Chain

  /** The block passes every check as the next one of a branch, and leaves it no heavier than the tip. */
  ghost predicate FitsBeside(s: ChainState, branch: seq<Block>, block: Block) {
    && ValidBlockTime(block.header.time, MedianPast(branch), s.networkTime)
    && ExpectedBits(s.blocks, |branch|, block.header.bits) == Ok(block.header.bits)
    && WorkOfChain(branch) + WorkOfBlock(block) <= Num(s.total)
    && TxsValid(s.utxos, block.transactions)
    && block in s.universe && Sealed(block) && PrevOf(block) == TipOf(branch)
  }

  ghost predicate AllFit(s: ChainState, base: seq<Block>, side: seq<Block>) {
    forall i | 0 <= i < |side| :: FitsBeside(s, base + side[..i], side[i])
  }

  /** The chain has none of these blocks, and no two of them have one hash. */
  ghost predicate NewBlocks(s: ChainState, side: seq<Block>) {
    && (forall i | 0 <= i < |side| :: BlockHash(side[i]) !in s.known && BlockHash(side[i]) !in s.orphans)
    && (forall i, j | 0 <= i < j < |side| :: BlockHash(side[i]) != BlockHash(side[j]))
  }

  /** Blocks that are new to the chain and fit one after the other beside its tip, on the branch of a known
      block. */
  ghost predicate FitBeside(s: ChainState, root: Hash, side: seq<Block>) {
    && root in s.known && root != TipOf(s.blocks)
    && NewBlocks(s, side) && AllFit(s, Branch(s.known, root), side)
  }

  /** Some of the blocks have been recorded beside the tip, which is where it was. */
  ghost predicate Grown(start: ChainState, s: ChainState, root: Hash, side: seq<Block>, n: nat, end: Hash) {
    && n <= |side| && SameActive(start, s) && KeepsNodes(start.known, s.known)
    && s.universe == start.universe && s.networkTime == start.networkTime && s.orphans == start.orphans
    && end in s.known && end != TipOf(s.blocks)
    && Branch(s.known, end) == Branch(start.known, root) + side[..n]
    && (n == 0 ==> end == root) && (n > 0 ==> end !in start.known)
    && (forall i | n <= i < |side| :: BlockHash(side[i]) !in s.known)
  }

  lemma {:induction false} BranchKept(before: Known, after: Known, h: Hash)
    requires KeepsNodes(before, after) && h in before
    ensures Branch(after, h) == Branch(before, h)
    decreases before[h].height
  {
    var p := PrevOf(before[h].block);
    if p in before && before[p].height < before[h].height {
      BranchKept(before, after, p);
    }
  }

  /** The facts of the index about the end of the branch. */
  lemma EndOfBranch(known: Known, blocks: seq<Block>, active: set<Hash>, utxos: Utxos, genesis: Block,
                    universe: iset<Block>, end: Hash)
    requires ChainInv(known, blocks, active, utxos, genesis, universe) && end in known
    ensures var b := Branch(known, end);
      && |b| == known[end].height + 1 && TipOf(b) == end
      && Num(known[end].work) == WorkOfChain(b) && MedianBefore(known, end) == MedianPast(b)
    ensures BlockHash(genesis) in known && TipOf(blocks) in known && forall h | h in active :: h in known
  {
    hide BlockHash, TreeInv, Admissible, ActiveInv, Branch, Median, WorkOfChain, InUniverse, Num, AncestorTimes,
         RecentTimes;
    BranchIsChain(known, genesis, universe, end);
    AncestorTimesAreRecent(known, genesis, universe, end, MEDIAN_WINDOW);
    ActiveIsSubset(known, blocks, active, utxos, genesis);
    TipIsKnown(known, blocks, active, utxos, genesis);
  }

  /** A block that fits is admitted beside the tip. */
  lemma FitsIsAdmitted(s: ChainState, branch: seq<Block>, end: Hash, block: Block)
    requires FitsBeside(s, branch, block) && end in s.known && end != TipOf(s.blocks)
    requires |branch| == s.known[end].height + 1 && TipOf(branch) == end
    requires Num(s.known[end].work) == WorkOfChain(branch) && MedianBefore(s.known, end) == MedianPast(branch)
    requires BlockHash(block) !in s.known && BlockHash(block) !in s.orphans
    ensures Admitted(s, block) && !Overtakes(s, block) && PrevOf(block) == end
  {
    hide BlockHash, MedianPast, MedianBefore, ExpectedBits, TxsValid, WorkOfChain, WorkOfBlock, Num, MeetsTarget,
         MerkleMatches, BlockWork, WithinBlockLimits, CoinbaseFirst, TipOf;
  }

  /** An admitted block under a known parent beside the tip that does not overtake it is recorded and no more. */
  lemma RecordedBeside(before: ChainState, after: ChainState, block: Block, r: Result<ConnectResult, ChainError>,
                       first: Attempt, promoted: seq<Attempt>)
    requires ConnectOutcome(before, after, block, r, first, promoted)
    requires Admitted(before, block) && !Overtakes(before, block)
    requires PrevOf(block) in before.known && PrevOf(block) != TipOf(before.blocks)
    ensures r.Ok? && SameActive(before, after) && after.orphans == before.orphans
    ensures exists work: Hash :: GrownBy(before.known, after.known, block, work)
  {
    hide BlockHash, Admitted, Overtakes, ErrorFits, EventsTurn, GrownBy, CandidateWork, KeepsNodes, PromotionsEnd, NoneReady,
         ReorgsTo, BranchPasses, BaseOf, Pooled, Num, TipOf, SameActive, ActiveSince, ConnectEvent;
    assert first.result.Ok? && first.result.value.SideChain?;
    var work: Hash :| Recorded(before, first.after, block, work);
  }

  lemma FitParts(s: ChainState, root: Hash, side: seq<Block>)
    requires FitBeside(s, root, side)
    ensures root in s.known && NewBlocks(s, side)
  {
    hide BlockHash, NewBlocks, AllFit, Branch, TipOf;
  }

  lemma GrownStart(s: ChainState, root: Hash, side: seq<Block>)
    requires FitBeside(s, root, side)
    ensures Grown(s, s, root, side, 0, root)
  {
    hide BlockHash, FitsBeside, Branch, TipOf;
    KeepsNodesRefl(s.known);
    assert Branch(s.known, root) + side[..0] == Branch(s.known, root);
  }

  lemma GrownByFacts(before: Known, after: Known, block: Block, work: Hash)
    requires GrownBy(before, after, block, work)
    ensures KeepsNodes(before, after) && after.Keys == before.Keys + {BlockHash(block)}
    ensures BlockHash(block) in after && after[BlockHash(block)].block == block
  {
    hide BlockHash, KeepsNodes;
  }

  lemma BranchGrows(before: Known, after: Known, block: Block, work: Hash, end: Hash)
    requires GrownBy(before, after, block, work) && end in before && PrevOf(block) == end
    requires end in after && BlockHash(block) in after && after[BlockHash(block)].height == after[end].height + 1
    ensures Branch(after, BlockHash(block)) == Branch(before, end) + [block]
  {
    hide BlockHash, Branch, KeepsNodes, GrownBy;
    GrownByFacts(before, after, block, work);
    BranchKept(before, after, end);
    BranchStep(after, BlockHash(block));
  }

  lemma GrownStep(start: ChainState, s: ChainState, s': ChainState, root: Hash, side: seq<Block>, n: nat, end: Hash,
                  work: Hash)
    requires n < |side| && Grown(start, s, root, side, n, end) && FitBeside(start, root, side)
    requires SameActive(s, s') && s'.orphans == s.orphans && s'.universe == s.universe && s'.networkTime == s.networkTime
    requires GrownBy(s.known, s'.known, side[n], work) && BlockHash(side[n]) !in s.known && TipOf(s.blocks) in s.known
    requires BlockHash(side[n]) in s'.known
    requires Branch(s'.known, BlockHash(side[n])) == Branch(s.known, end) + [side[n]]
    ensures Grown(start, s', root, side, n + 1, BlockHash(side[n]))
  {
    hide BlockHash, FitBeside, NewBlocks, Branch, TipOf, KeepsNodes, GrownBy, SameActive;
    GrownByFacts(s.known, s'.known, side[n], work);
    KeepsNodesTrans(start.known, s.known, s'.known);
    SameActiveTrans(start, s, s');
    NewToStart(start.known, s.known, BlockHash(side[n]));
    FitParts(start, root, side);
    OthersStayNew(start, s.known, s'.known, side, n);
    assert side[..n + 1] == side[..n] + [side[n]];
  }

  lemma SameActiveTrans(a: ChainState, b: ChainState, c: ChainState)
    requires SameActive(a, b) && SameActive(b, c)
    ensures SameActive(a, c) && c.blocks == b.blocks
  {
  }

  lemma OthersStayNew(s: ChainState, known: Known, after: Known, side: seq<Block>, n: nat)
    requires n < |side| && after.Keys == known.Keys + {BlockHash(side[n])}
    requires forall i | n <= i < |side| :: BlockHash(side[i]) !in known
    requires NewBlocks(s, side)
    ensures forall i | n + 1 <= i < |side| :: BlockHash(side[i]) !in after
  {
    hide BlockHash;
    forall i | n + 1 <= i < |side|
      ensures BlockHash(side[i]) !in after
    {
      assert BlockHash(side[n]) != BlockHash(side[i]);
      assert BlockHash(side[i]) !in known.Keys && BlockHash(side[i]) !in after.Keys;
    }
  }

  lemma NewToStart(start: Known, known: Known, h: Hash)
    requires KeepsNodes(start, known) && h !in known
    ensures h !in start
  {
  }

  lemma GrownEnds(start: ChainState, s: ChainState, root: Hash, side: seq<Block>, end: Hash)
    requires Grown(start, s, root, side, |side|, end)
    ensures SameActive(start, s) && end in s.known && Branch(s.known, end) == Branch(start.known, root) + side
    ensures side != [] ==> end !in start.known
  {
    hide BlockHash, Branch, TipOf, KeepsNodes;
    assert side[..|side|] == side;
  }

  lemma NextFits(start: ChainState, s: ChainState, root: Hash, side: seq<Block>, n: nat, end: Hash)
    requires FitBeside(start, root, side) && n < |side| && Grown(start, s, root, side, n, end)
    ensures FitsBeside(s, Branch(s.known, end), side[n])
    ensures BlockHash(side[n]) !in s.known && BlockHash(side[n]) !in s.orphans
    ensures end in s.known && end != TipOf(s.blocks) && side[n] in s.universe
  {
    hide BlockHash, Branch, TipOf, KeepsNodes, Sealed, MedianPast, ExpectedBits, TxsValid, WorkOfChain, WorkOfBlock, Num,
         ValidBlockTime;
  }

  /** The branch is longer than the active chain and ends a period that starts inside it. */
  predicate OutgrowsPeriod(s: ChainState, root: Hash, side: seq<Block>) {
    side != [] && PastPeriodEnd(s.blocks, |Branch(s.known, root)| + |side|)
  }

  /** The new block is one above its parent. */
  lemma ChildHeight(chain: Chain.Chain, before: Known, block: Block, work: Hash)
    requires chain.Valid() && GrownBy(before, chain.known, block, work)
    requires BlockHash(block) !in before && BlockHash(chain.genesis) in before
    ensures BlockHash(block) in chain.known && PrevOf(block) in chain.known
    ensures chain.known[BlockHash(block)].height == chain.known[PrevOf(block)].height + 1
  {
    hide BlockHash, TreeInv, ActiveInv, Admissible, Sealed, CandidateWork, MedianBefore, KeepsNodes;
    hide Chain.Chain.Valid;
    chain.ValidIsChainInv();
    ParentOf(chain.known, chain.genesis, chain.universe, BlockHash(block));
    ChildOfKnown(chain.known, block);
  }

  lemma ChildOfKnown(known: Known, block: Block)
    requires BlockHash(block) in known && known[BlockHash(block)].block == block && ChildOk(known, known[BlockHash(block)])
    ensures PrevOf(block) in known && known[BlockHash(block)].height == known[PrevOf(block)].height + 1
  {
    hide BlockHash, Num, WorkOfBlock, MedianBefore;
  }

  lemma LongEnd(chain: Chain.Chain, start: ChainState, root: Hash, side: seq<Block>, end: Hash)
    requires OutgrowsPeriod(start, root, side) && Grown(start, chain.State(), root, side, |side|, end)
    requires chain.Valid() && forall h | h in start.active :: h in start.known
    ensures EndsLongPeriod(chain.State(), end)
  {
    hide BlockHash, ChainInv, Branch, TipOf, KeepsNodes, Num, WorkOfChain, MedianBefore, MedianPast, PastPeriodEnd, Grown;
    hide Chain.Chain.Valid;
    GrownEnds(start, chain.State(), root, side, end);
    chain.ValidIsChainInv();
    EndOfBranch(chain.known, chain.blocks, chain.activeHashes, chain.utxo.entries, chain.genesis, chain.universe, end);
    chain.TipIsHeaviest(end);
  }

  /** Connects blocks that fit beside the tip. If the branch they end is longer than the active chain and ends
      a period that starts inside it, the next block whose check comes as far as the expected bits runs past
      the end of the active chain. */
  method GrowBeside(chain: Chain.Chain, root: Hash, side: seq<Block>) returns (ghost end: Hash)
    requires chain.Valid() && FitBeside(chain.State(), root, side)
    modifies chain, chain.utxo, chain.eventJournal, chain.disconnectedJournal
    ensures chain.Valid() && Grown(old(chain.State()), chain.State(), root, side, |side|, end)
    ensures OutgrowsPeriod(old(chain.State()), root, side) ==> EndsLongPeriod(chain.State(), end)
  {
    hide BlockHash, FitBeside, NewBlocks, Branch, TipOf, KeepsNodes, FitsBeside, Admitted, Overtakes, ConnectOutcome,
         Num, GrownBy, WorkOfChain, MedianBefore, MedianPast, OutgrowsPeriod, Grown, SameActive, EndsLongPeriod, ChainInv;
    hide Chain.Chain.Valid;
    ghost var start := chain.State();
    end := root;
    chain.ValidIsChainInv();
    FitParts(start, root, side);
    EndOfBranch(chain.known, chain.blocks, chain.activeHashes, chain.utxo.entries, chain.genesis, chain.universe, root);
    GrownStart(start, root, side);
    for i := 0 to |side|
      invariant chain.Valid() && Grown(start, chain.State(), root, side, i, end)
    {
      ghost var before := chain.State();
      NextFits(start, before, root, side, i, end);
      chain.ValidIsChainInv();
      EndOfBranch(chain.known, chain.blocks, chain.activeHashes, chain.utxo.entries, chain.genesis, chain.universe, end);
      FitsIsAdmitted(before, Branch(before.known, end), end, side[i]);
      ghost var first, promoted;
      var r;
      r, first, promoted := chain.ConnectBlock(side[i]);
      ghost var after := chain.State();
      RecordedBeside(before, after, side[i], r, first, promoted);
      ghost var work: Hash :| GrownBy(before.known, after.known, side[i], work);
      ChildHeight(chain, before.known, side[i], work);
      BranchGrows(before.known, after.known, side[i], work, end);
      GrownStep(start, before, after, root, side, i, end, work);
      end := BlockHash(side[i]);
    }
    if OutgrowsPeriod(start, root, side) {
      LongEnd(chain, start, root, side, end);
    }
  }
}
