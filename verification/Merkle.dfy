/** The Merkle commitment to a list of transaction ids. */
module Merkle {
  import opened Types
  import opened Limits
  import opened Arith
  import opened Codec
  import Crypto

  function Join(left: Bytes, right: Bytes): Bytes {
    left + right
  }

  function PairHash(left: Hash, right: Hash): Hash {
    Crypto.Sha256d(Join(left, right))
  }

  function LeftOf(level: seq<Hash>, k: nat): Hash
    requires 2 * k < |level|
  {
    level[2 * k]
  }

  /** The right node of pair k; a missing one is its left neighbour again. */
  function RightOf(level: seq<Hash>, k: nat): Hash
    requires 2 * k < |level|
  {
    if 2 * k + 1 < |level| then level[2 * k + 1] else level[2 * k]
  }

  /** The parents of a level: neighbours are paired, and a last node without one is paired with itself. */
  function NextLevel(level: seq<Hash>): (next: seq<Hash>)
    ensures |next| == (|level| + 1) / 2
  {
    if level == [] then []
    else if |level| == 1 then [PairHash(level[0], level[0])]
    else [PairHash(level[0], level[1])] + NextLevel(level[2..])
  }

  function Root(level: seq<Hash>): Hash
    requires level != []
    decreases |level|
  {
    if |level| == 1 then level[0] else Root(NextLevel(level))
  }

  function RootOf(txids: seq<Hash>): Option<Hash> {
    if txids == [] || |txids| > MAX_TRANSACTIONS_PER_BLOCK then None else Some(Root(txids))
  }

  function Txids(transactions: seq<Transaction>): (ids: seq<Hash>)
    ensures |ids| == |transactions|
  {
    seq(|transactions|, i requires 0 <= i < |transactions| => Txid(transactions[i]))
  }

  /** The header commits to the transactions of the block. */
  predicate MerkleMatches(block: Block) {
    RootOf(Txids(block.transactions)) == Some(block.header.merkleRoot)
  }

  // ---- the level-by-level computation is a binary tree ----

  /** The tree of height h over the leaves: a subtree with no leaves is replaced by its left sibling. */
  function Tree(leaves: seq<Hash>, h: nat): Hash
    requires 0 < |leaves| <= Pow2(h)
    decreases h
  {
    if h == 0 then leaves[0]
    else if |leaves| <= Pow2(h - 1) then
      var left := Tree(leaves, h - 1);
      PairHash(left, left)
    else
      PairHash(Tree(leaves[..Pow2(h - 1)], h - 1), Tree(leaves[Pow2(h - 1)..], h - 1))
  }

  /** The least height whose tree has room for n leaves. */
  function Height(n: nat): (h: nat)
    requires n > 0
    ensures n <= Pow2(h)
    ensures h > 0 ==> Pow2(h - 1) < n
  {
    if n == 1 then 0 else
      var h := Height((n + 1) / 2);
      assert h > 0 ==> Pow2(h) == 2 * Pow2(h - 1);
      h + 1
  }

  lemma {:induction false} NextLevelAt(level: seq<Hash>, k: nat)
    requires 2 * k < |level|
    ensures NextLevel(level)[k] == PairHash(LeftOf(level, k), RightOf(level, k))
    decreases |level|
  {
    hide PairHash;
    if k > 0 {
      NextLevelAt(level[2..], k - 1);
    }
  }

  lemma SplitLow(level: seq<Hash>, k: nat, i: nat)
    requires i < k && 2 * k < |level|
    ensures NextLevel(level)[i] == NextLevel(level[..2 * k])[i]
  {
    hide NextLevel, PairHash;
    var low := level[..2 * k];
    NextLevelAt(level, i);
    NextLevelAt(low, i);
    assert LeftOf(low, i) == LeftOf(level, i) && RightOf(low, i) == RightOf(level, i);
  }

  lemma ShiftedPair(level: seq<Hash>, high: seq<Hash>, cut: nat, k: nat, i: nat)
    requires cut == 2 * k && cut <= |level| && high == level[cut..] && 2 * i < |high|
    ensures LeftOf(high, i) == LeftOf(level, k + i) && RightOf(high, i) == RightOf(level, k + i)
  {
    var p := 2 * i;
    assert high[p] == level[cut + p];
    if p + 1 < |high| {
      assert high[p + 1] == level[cut + p + 1];
    }
  }

  lemma SplitHigh(level: seq<Hash>, high: seq<Hash>, k: nat, i: nat, j: nat)
    requires 2 * k <= |level| && high == level[2 * k..] && 2 * i < |high| && j == k + i
    ensures j < |NextLevel(level)| && i < |NextLevel(high)|
    ensures NextLevel(level)[j] == NextLevel(high)[i]
  {
    ShiftedPair(level, high, 2 * k, k, i);
    hide *;
    NextLevelAt(level, j);
    NextLevelAt(high, i);
  }

  lemma LowSplit(level: seq<Hash>, low: seq<Hash>, k: nat)
    requires 2 * k < |level| && low == level[..2 * k]
    ensures |NextLevel(low)| == k <= |NextLevel(level)|
    ensures NextLevel(level)[..k] == NextLevel(low)
  {
    hide NextLevel;
    forall i | 0 <= i < k
      ensures NextLevel(level)[i] == NextLevel(low)[i]
    {
      SplitLow(level, k, i);
    }
  }

  lemma HighSplit(level: seq<Hash>, high: seq<Hash>, k: nat)
    requires 2 * k < |level| && high == level[2 * k..]
    ensures k + |NextLevel(high)| == |NextLevel(level)|
    ensures NextLevel(level)[k..] == NextLevel(high)
  {
    hide NextLevel;
    forall i | 0 <= i < |NextLevel(high)|
      ensures NextLevel(level)[k + i] == NextLevel(high)[i]
    {
      SplitHigh(level, high, k, i, k + i);
    }
  }

  /** Halving commutes with cutting at an even position. */
  lemma NextLevelSplit(level: seq<Hash>, k: nat)
    requires 2 * k < |level|
    ensures NextLevel(level)[..k] == NextLevel(level[..2 * k])
    ensures NextLevel(level)[k..] == NextLevel(level[2 * k..])
  {
    hide NextLevel;
    LowSplit(level, level[..2 * k], k);
    HighSplit(level, level[2 * k..], k);
  }

  lemma TreeOfOnePair(leaves: seq<Hash>)
    requires 0 < |leaves| <= 2
    ensures |leaves| <= Pow2(1) && |NextLevel(leaves)| == 1 <= Pow2(0)
    ensures Tree(leaves, 1) == Tree(NextLevel(leaves), 0)
  {
    assert Pow2(0) == 1 && Pow2(1) == 2;
    NextLevelAt(leaves, 0);
    if |leaves| == 2 {
      assert leaves[..1][0] == leaves[0] && leaves[1..][0] == leaves[1];
    }
  }

  lemma {:induction false} TreeOfNextLevel(leaves: seq<Hash>, h: nat)
    requires h > 0 && 0 < |leaves| <= Pow2(h)
    ensures |NextLevel(leaves)| <= Pow2(h - 1)
    ensures Tree(leaves, h) == Tree(NextLevel(leaves), h - 1)
    decreases h
  {
    hide NextLevel, PairHash;
    if h == 1 {
      TreeOfOnePair(leaves);
    } else {
      var half := Pow2(h - 1);
      assert half == 2 * Pow2(h - 2);
      if |leaves| <= half {
        TreeOfNextLevel(leaves, h - 1);
      } else {
        NextLevelSplit(leaves, Pow2(h - 2));
        TreeOfNextLevel(leaves[..half], h - 1);
        TreeOfNextLevel(leaves[half..], h - 1);
      }
    }
  }

  /** The level-by-level root is the root of the recursive tree of least height. */
  lemma {:induction false} RootIsTree(leaves: seq<Hash>)
    requires leaves != []
    ensures Root(leaves) == Tree(leaves, Height(|leaves|))
    decreases |leaves|
  {
    if |leaves| > 1 {
      TreeOfNextLevel(leaves, Height(|leaves|));
      RootIsTree(NextLevel(leaves));
    }
  }

  // ---- the root without levels ----

  /** A node hashed with itself, and the result with itself, n times over. */
  function SelfPaired(node: Hash, n: nat): Hash {
    if n == 0 then node else
      var below := SelfPaired(node, n - 1);
      Crypto.Sha256d(below + below)
  }

  lemma HeightIs(n: nat, h: nat)
    requires 0 < n <= Pow2(h) && (h > 0 ==> Pow2(h - 1) < n)
    ensures Height(n) == h
  {
    if Height(n) < h {
      Pow2Mono(Height(n), h - 1);
    } else if h < Height(n) {
      Pow2Mono(h, Height(n) - 1);
    }
  }

  /** The tree of a list in more height than it needs. */
  lemma {:induction false} TreeWithRoom(leaves: seq<Hash>, g: nat, h: nat)
    requires g <= h && 0 < |leaves| <= Pow2(g) && Pow2(g) <= Pow2(h)
    ensures Tree(leaves, h) == SelfPaired(Tree(leaves, g), h - g)
    decreases h
  {
    if g < h {
      Pow2Mono(g, h - 1);
      TreeWithRoom(leaves, g, h - 1);
    }
  }

  /** The root of a list of more than 2^h and at most 2^(h+1) ids: the hash of the root of its first 2^h ids
      followed by the root of the others, paired with itself until it is as high. */
  lemma RootOfHalves(txids: seq<Hash>, h: nat, g: nat)
    requires Pow2(h) < |txids| <= Pow2(h + 1)
    requires g <= h && |txids| - Pow2(h) <= Pow2(g) && (g > 0 ==> Pow2(g - 1) < |txids| - Pow2(h))
    ensures Root(txids) == Crypto.Sha256d(Root(txids[..Pow2(h)]) + SelfPaired(Root(txids[Pow2(h)..]), h - g))
  {
    var left, right := txids[..Pow2(h)], txids[Pow2(h)..];
    if h > 0 {
      assert Pow2(h) == 2 * Pow2(h - 1);
    }
    HeightIs(|txids|, h + 1);
    HeightIs(|left|, h);
    HeightIs(|right|, g);
    hide Height, Root;
    RootIsTree(txids);
    RootIsTree(left);
    RootIsTree(right);
    Pow2Mono(g, h);
    TreeWithRoom(right, g, h);
  }

  /** Which lists have a root, and the root of one id. */
  lemma RootsOf(txids: seq<Hash>, a: Hash)
    ensures RootOf(txids) == if 0 < |txids| <= 25_000 then Some(Root(txids)) else None
    ensures Root([a]) == a
  {
    hide NextLevel;
  }

  lemma RootOfTwo(a: Hash, b: Hash)
    ensures RootOf([a, b]) == Some(Crypto.Sha256d(a + b))
  {
    hide Root;
    var pair := [a, b];
    assert Pow2(0) == 1 && Pow2(1) == 2;
    RootOfHalves(pair, 0, 0);
    assert pair[..1] == [a] && pair[1..] == [b];
    RootsOf(pair, a);
    RootsOf(pair, b);
  }

  lemma RootOfThree(a: Hash, b: Hash, c: Hash)
    ensures RootOf([a, b, c]) == Some(Crypto.Sha256d(Crypto.Sha256d(a + b) + Crypto.Sha256d(c + c)))
  {
    hide Root;
    var ids := [a, b, c];
    assert Pow2(0) == 1 && Pow2(1) == 2 && Pow2(2) == 4;
    RootOfHalves(ids, 1, 0);
    assert ids[..2] == [a, b] && ids[2..] == [c];
    RootOfTwo(a, b);
    RootsOf(ids, c);
    assert SelfPaired(c, 1) == Crypto.Sha256d(c + c) by { assert SelfPaired(c, 0) == c; }
  }

  /** What the ids committed to are. */
  lemma CommittedIds(block: Block, i: nat)
    requires i < |block.transactions|
    ensures Txids(block.transactions)[i] == Txid(block.transactions[i])
    ensures MerkleMatches(block) <==>
      0 < |block.transactions| <= 25_000 && Root(Txids(block.transactions)) == block.header.merkleRoot
  {
    hide Root, Txid;
  }

  // ---- binding ----

  /** Everything hashed on the way to the root. */
  function Preimages(level: seq<Hash>): set<Bytes>
    decreases |level|
  {
    if |level| <= 1 then {} else LevelPreimages(level) + Preimages(NextLevel(level))
  }

  function LevelPreimages(level: seq<Hash>): set<Bytes> {
    set k | 0 <= k < (|level| + 1) / 2 :: Join(LeftOf(level, k), RightOf(level, k))
  }

  ghost predicate CollisionFree(preimages: set<Bytes>) {
    forall x, y | x in preimages && y in preimages && Crypto.Sha256d(x) == Crypto.Sha256d(y) :: x == y
  }

  lemma JoinInjective(a: Hash, b: Hash, c: Hash, d: Hash)
    requires Join(a, b) == Join(c, d)
    ensures a == c && b == d
  {
    assert Join(a, b)[..32] == a && Join(a, b)[32..] == b;
    assert Join(c, d)[..32] == c && Join(c, d)[32..] == d;
  }

  lemma NoCollision(preimages: set<Bytes>, x: Bytes, y: Bytes)
    requires CollisionFree(preimages) && x in preimages && y in preimages
    requires Crypto.Sha256d(x) == Crypto.Sha256d(y)
    ensures x == y
  {
  }

  lemma EqualPair(a: seq<Hash>, b: seq<Hash>, k: nat)
    requires |a| == |b| && 2 * k < |a| && NextLevel(a)[k] == NextLevel(b)[k]
    requires CollisionFree(LevelPreimages(a) + LevelPreimages(b))
    ensures LeftOf(a, k) == LeftOf(b, k) && RightOf(a, k) == RightOf(b, k)
  {
    hide NextLevel, Join, CollisionFree, LeftOf, RightOf;
    NextLevelAt(a, k);
    NextLevelAt(b, k);
    var x, y := Join(LeftOf(a, k), RightOf(a, k)), Join(LeftOf(b, k), RightOf(b, k));
    assert x in LevelPreimages(a) && y in LevelPreimages(b);
    NoCollision(LevelPreimages(a) + LevelPreimages(b), x, y);
    JoinInjective(LeftOf(a, k), RightOf(a, k), LeftOf(b, k), RightOf(b, k));
  }

  lemma EqualNode(a: seq<Hash>, b: seq<Hash>, i: nat, k: nat)
    requires |a| == |b| && NextLevel(a) == NextLevel(b) && i < |a| && k == i / 2
    requires CollisionFree(LevelPreimages(a) + LevelPreimages(b))
    ensures a[i] == b[i]
  {
    hide NextLevel, CollisionFree, LevelPreimages;
    EqualPair(a, b, k);
    if i % 2 == 0 {
      assert i == 2 * k;
    } else {
      assert i == 2 * k + 1;
    }
  }

  lemma EqualParents(a: seq<Hash>, b: seq<Hash>)
    requires |a| == |b| && NextLevel(a) == NextLevel(b)
    requires CollisionFree(LevelPreimages(a) + LevelPreimages(b))
    ensures a == b
  {
    hide NextLevel, CollisionFree, LevelPreimages;
    forall i | 0 <= i < |a|
      ensures a[i] == b[i]
    {
      EqualNode(a, b, i, i / 2);
    }
  }

  /** Two lists of equal length with the same root are equal, unless the hash collides on two of the
      strings hashed for them. */
  lemma {:induction false} RootBinds(a: seq<Hash>, b: seq<Hash>)
    requires a != [] && |a| == |b| && Root(a) == Root(b)
    requires CollisionFree(Preimages(a) + Preimages(b))
    ensures a == b
    decreases |a|
  {
    if |a| > 1 {
      RootBinds(NextLevel(a), NextLevel(b));
      EqualParents(a, b);
    } else {
      assert a == [a[0]] && b == [b[0]];
    }
  }

  /** Repeating the last id of an odd list longer than one does not change its root. */
  lemma RepeatedLastKeepsRoot(txids: seq<Hash>)
    requires |txids| > 1 && |txids| % 2 == 1 && |txids| < MAX_TRANSACTIONS_PER_BLOCK
    ensures RootOf(txids + [txids[|txids| - 1]]) == RootOf(txids)
  {
    var longer := txids + [txids[|txids| - 1]];
    var next, next' := NextLevel(txids), NextLevel(longer);
    hide NextLevel, PairHash;
    forall i | 0 <= i < |next|
      ensures next[i] == next'[i]
    {
      NextLevelAt(txids, i);
      NextLevelAt(longer, i);
    }
    assert next == next';
    RootStep(txids);
    RootStep(longer);
  }

  lemma RootStep(level: seq<Hash>)
    requires |level| > 1
    ensures NextLevel(level) != [] && Root(level) == Root(NextLevel(level))
  {
  }

  /** The loop that replaces the level by its parents until one node is left. */
  method MerkleRoot(txids: seq<Hash>) returns (r: Option<Hash>)
    ensures r == RootOf(txids)
  {
    if txids == [] || |txids| > MAX_TRANSACTIONS_PER_BLOCK {
      return None;
    }
    hide NextLevel, PairHash, Root;
    var level := txids;
    while |level| > 1
      invariant level != [] && Root(level) == Root(txids)
      decreases |level|
    {
      RootStep(level);
      level := Parents(level);
    }
    RootOfOne(level);
    r := Some(level[0]);
  }

  lemma RootOfOne(level: seq<Hash>)
    requires |level| == 1
    ensures Root(level) == level[0]
  {
  }

  method Parents(level: seq<Hash>) returns (nextLevel: seq<Hash>)
    ensures nextLevel == NextLevel(level)
  {
    hide NextLevel, PairHash;
    nextLevel := [];
    var i := 0;
    while i < |level|
      invariant i % 2 == 0 && i <= |level| + 1
      invariant |nextLevel| == i / 2 <= |NextLevel(level)|
      invariant nextLevel == NextLevel(level)[..|nextLevel|]
    {
      var left := level[i];
      var right := if i + 1 < |level| then level[i + 1] else left;
      NextLevelAt(level, i / 2);
      nextLevel := nextLevel + [PairHash(left, right)];
      i := i + 2;
    }
  }
}
