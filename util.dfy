/**
 * The tree builder, which folds a power-of-two list of leaves level by level
 * into a root and keeps every level, and the two helpers that append leaves to
 * a caller's vector.
 */
module Util {
  import opened Types
  import opened FirstLevel
  import opened InnerLevel

  predicate IsPowerOfTwo(n: nat)
    decreases n
  {
    n == 1 || (n >= 2 && n % 2 == 0 && IsPowerOfTwo(n / 2))
  }

  function Log2(n: nat): (k: nat)
    requires IsPowerOfTwo(n)
    ensures Pow2(k) == n
    decreases n
  {
    if n == 1 then 0 else 1 + Log2(n / 2)
  }

  function Pow2(k: nat): (p: nat)
    ensures p >= 1
  {
    if k == 0 then 1 else 2 * Pow2(k - 1)
  }

  /** Prefixes a successful list of results; an error passes through unchanged. */
  function Prepend<T>(prefix: seq<T>, r: Result<seq<T>>): (s: Result<seq<T>>)
    ensures s.Ok? == r.Ok?
    ensures s.Ok? ==> s.value == prefix + r.value
    ensures s.Err? ==> s == r
  {
    if r.Ok? then Ok(prefix + r.value) else r
  }

  /**
   * The merge of the `i`-th disjoint adjacent pair of a level. The builder is
   * modelled for either boundary rule: `AsWritten` is the program's
   * `compute_parent`, `Corrected` the merge of the line-47 finding.
   */
  function MergePair(rule: BoundaryRule, level: seq<Node>, i: nat): Result<Node>
    requires i < |level| / 2
  {
    Merge(rule, level[2 * i], level[2 * i + 1])
  }

  /**
   * The level above `level`: node `i` is the merge of nodes `2i` and `2i+1`
   * (see NextLevelMerges); it fails with the error of the leftmost pair whose
   * merge fails (see NextLevelFailsAtFirstError).
   */
  function NextLevel(rule: BoundaryRule, level: seq<Node>): (r: Result<seq<Node>>)
    requires |level| % 2 == 0
    ensures r.Ok? ==> |r.value| == |level| / 2
    decreases |level|
  {
    if |level| == 0 then Ok([])
    else
      match Merge(rule, level[0], level[1])
      case Err(e) => Err(e)
      case Ok(parent) => Prepend([parent], NextLevel(rule, level[2..]))
  }

  /** Pair `i + 1` of a level is pair `i` of the level without its first two nodes. */
  lemma MergePairShift(rule: BoundaryRule, level: seq<Node>, i: nat)
    requires |level| % 2 == 0 && i + 1 < |level| / 2
    ensures MergePair(rule, level[2..], i) == MergePair(rule, level, i + 1)
  {
    assert level[2..][2 * i] == level[2 * (i + 1)];
    assert level[2..][2 * i + 1] == level[2 * (i + 1) + 1];
  }

  /** Node `i` of a level that builds is the merge of pair `i` of the level below. */
  lemma {:induction false} NextLevelNodes(rule: BoundaryRule, level: seq<Node>)
    requires |level| % 2 == 0 && NextLevel(rule, level).Ok?
    ensures forall i :: 0 <= i < |level| / 2 ==> MergePair(rule, level, i) == Ok(NextLevel(rule, level).value[i])
    decreases |level|
  {
    if |level| > 0 {
      NextLevelNodes(rule, level[2..]);
      forall i | 0 <= i < |level| / 2 ensures MergePair(rule, level, i) == Ok(NextLevel(rule, level).value[i]) {
        NodeOfNextLevel(rule, level, i);
      }
    }
  }

  /** One step of NextLevelNodes: node `i` from node `i - 1` of the level above the rest. */
  lemma NodeOfNextLevel(rule: BoundaryRule, level: seq<Node>, i: nat)
    requires |level| % 2 == 0 && 0 <= i < |level| / 2 && NextLevel(rule, level).Ok?
    requires i > 0 ==> MergePair(rule, level[2..], i - 1) == Ok(NextLevel(rule, level[2..]).value[i - 1])
    ensures MergePair(rule, level, i) == Ok(NextLevel(rule, level).value[i])
  {
    var next := NextLevel(rule, level).value;
    if i > 0 {
      var rest := NextLevel(rule, level[2..]).value;
      assert next == [next[0]] + rest;
      assert next[i] == rest[i - 1];
      MergePairShift(rule, level, i - 1);
    }
  }

  /** A level can be built exactly when every pair merges; node `i` is then the merge of pair `i`. */
  lemma NextLevelMerges(rule: BoundaryRule, level: seq<Node>)
    requires |level| % 2 == 0
    ensures NextLevel(rule, level).Ok? <==> forall i :: 0 <= i < |level| / 2 ==> MergePair(rule, level, i).Ok?
    ensures NextLevel(rule, level).Ok? ==>
      forall i :: 0 <= i < |level| / 2 ==> MergePair(rule, level, i) == Ok(NextLevel(rule, level).value[i])
  {
    if NextLevel(rule, level).Ok? {
      NextLevelNodes(rule, level);
    } else {
      NextLevelFailsAtFirstError(rule, level);
    }
  }

  /** A failing level reports the error of its leftmost failing pair. */
  lemma {:induction false} NextLevelFailsAtFirstError(rule: BoundaryRule, level: seq<Node>)
    requires |level| % 2 == 0 && NextLevel(rule, level).Err?
    ensures exists k :: 0 <= k < |level| / 2 && MergePair(rule, level, k) == Err(NextLevel(rule, level).error)
                        && forall j :: 0 <= j < k ==> MergePair(rule, level, j).Ok?
    decreases |level|
  {
    if MergePair(rule, level, 0).Ok? {
      NextLevelFailsAtFirstError(rule, level[2..]);
      var k :| 0 <= k < |level[2..]| / 2 && MergePair(rule, level[2..], k) == Err(NextLevel(rule, level).error)
               && forall j :: 0 <= j < k ==> MergePair(rule, level[2..], j).Ok?;
      FirstErrorShift(rule, level, k);
    }
  }

  /** One step of NextLevelFailsAtFirstError: the first failing pair of the rest, one pair further on. */
  lemma FirstErrorShift(rule: BoundaryRule, level: seq<Node>, k: nat)
    requires |level| % 2 == 0 && k + 1 < |level| / 2 && MergePair(rule, level, 0).Ok?
    requires MergePair(rule, level[2..], k).Err?
    requires forall j :: 0 <= j < k ==> MergePair(rule, level[2..], j).Ok?
    ensures MergePair(rule, level, k + 1) == MergePair(rule, level[2..], k)
    ensures forall j :: 0 <= j < k + 1 ==> MergePair(rule, level, j).Ok?
  {
    MergePairShift(rule, level, k);
    forall j | 0 < j < k + 1 ensures MergePair(rule, level, j).Ok? {
      MergePairShift(rule, level, j - 1);
    }
  }

  /**
   * Every level from `level` up to the root; a failing merge anywhere fails
   * the whole build (shape in BuildLevelsShape and LevelSizes).
   */
  function BuildLevels(rule: BoundaryRule, level: seq<Node>): (r: Result<seq<seq<Node>>>)
    requires IsPowerOfTwo(|level|)
    decreases |level|
  {
    if |level| == 1 then Ok([level])
    else
      match NextLevel(rule, level)
      case Err(e) => Err(e)
      case Ok(next) => Prepend([level], BuildLevels(rule, next))
  }

  /**
   * A successful build of `N` leaves has log2(N) + 1 levels; the first is the
   * leaves unchanged, the last holds the single root, and each level is
   * NextLevel of the one below.
   */
  lemma {:induction false} BuildLevelsShape(rule: BoundaryRule, level: seq<Node>)
    requires IsPowerOfTwo(|level|) && BuildLevels(rule, level).Ok?
    ensures var levels := BuildLevels(rule, level).value;
      && |levels| == Log2(|level|) + 1
      && levels[0] == level
      && |levels[|levels| - 1]| == 1
      && forall j :: 0 <= j < |levels| - 1 ==>
           |levels[j]| % 2 == 0 && NextLevel(rule, levels[j]) == Ok(levels[j + 1])
    decreases |level|
  {
    if |level| != 1 {
      var next := NextLevel(rule, level).value;
      BuildLevelsShape(rule, next);
      var levels := BuildLevels(rule, level).value;
      assert levels == [level] + BuildLevels(rule, next).value;
      forall j | 0 < j < |levels| - 1
        ensures |levels[j]| % 2 == 0 && NextLevel(rule, levels[j]) == Ok(levels[j + 1])
      {
        assert levels[j] == BuildLevels(rule, next).value[j - 1];
        assert levels[j + 1] == BuildLevels(rule, next).value[j];
      }
    }
  }

  lemma Pow2Step(n: nat, j: nat)
    requires j > 0
    ensures n * Pow2(j) == (n * 2) * Pow2(j - 1)
  {
    assert Pow2(j) == 2 * Pow2(j - 1);
  }

  /** Level `j` of a successful build of `N` leaves has `N / 2^j` nodes. */
  lemma {:induction false} LevelSizes(rule: BoundaryRule, leaves: seq<Node>, j: nat)
    requires IsPowerOfTwo(|leaves|) && BuildLevels(rule, leaves).Ok?
    requires j < |BuildLevels(rule, leaves).value|
    ensures |BuildLevels(rule, leaves).value[j]| * Pow2(j) == |leaves|
  {
    BuildLevelsShape(rule, leaves);
    var levels := BuildLevels(rule, leaves).value;
    if j > 0 {
      LevelSizes(rule, leaves, j - 1);
      assert NextLevel(rule, levels[j - 1]) == Ok(levels[j]);
      assert |levels[j]| * 2 == |levels[j - 1]|;
      Pow2Step(|levels[j]|, j);
    }
  }

  lemma PrependEmpty<T>(r: Result<seq<T>>)
    ensures Prepend([], r) == r
  {
    if r.Ok? {
      assert [] + r.value == r.value;
    }
  }

  lemma PrependPrepend<T>(a: seq<T>, b: seq<T>, r: Result<seq<T>>)
    ensures Prepend(a, Prepend(b, r)) == Prepend(a + b, r)
  {
    if r.Ok? {
      assert a + (b + r.value) == (a + b) + r.value;
    }
  }

  lemma EvenAfterPair(n: nat, i: nat)
    requires n % 2 == 0 && i % 2 == 0 && i + 2 <= n
    ensures (n - (i + 2)) % 2 == 0
  {
  }

  /** In an even-sized level, an even index below the size starts a full pair. */
  lemma PairFits(n: nat, i: nat)
    requires n % 2 == 0 && i % 2 == 0 && i < n
    ensures i + 2 <= n && (i + 2) % 2 == 0
  {
  }

  /** The inner loop's invariant survives one more pair. */
  lemma InnerStep(rule: BoundaryRule, lowerLevel: seq<Node>, currentLevel: seq<Node>, i: nat, parent: Result<Node>)
    requires |lowerLevel| % 2 == 0 && i % 2 == 0 && i + 2 <= |lowerLevel|
    requires NextLevel(rule, lowerLevel) == Prepend(currentLevel, NextLevel(rule, lowerLevel[i..]))
    requires parent == Merge(rule, lowerLevel[i], lowerLevel[i + 1])
    ensures parent.Err? ==> NextLevel(rule, lowerLevel) == Err(parent.error)
    ensures parent.Ok? ==>
      NextLevel(rule, lowerLevel) == Prepend(currentLevel + [parent.value], NextLevel(rule, lowerLevel[i + 2..]))
  {
    assert lowerLevel[i..][2..] == lowerLevel[i + 2..];
    EvenAfterPair(|lowerLevel|, i);
    if parent.Ok? {
      var rest := NextLevel(rule, lowerLevel[i + 2..]);
      if rest.Ok? {
        assert currentLevel + ([parent.value] + rest.value) == (currentLevel + [parent.value]) + rest.value;
      }
    }
  }

  lemma SplitLast<T>(s: seq<T>)
    requires |s| >= 1
    ensures s[..|s| - 1] + [s[|s| - 1]] == s
  {
  }

  lemma DropLast<T>(s: seq<T>, x: T)
    ensures (s + [x])[..|s + [x]| - 1] == s
  {
  }

  /** The outer loop's invariant survives one more level. */
  lemma OuterStep(rule: BoundaryRule, leaves: seq<Node>, tree: seq<seq<Node>>, currentLevel: seq<Node>)
    requires |tree| >= 1 && IsPowerOfTwo(|leaves|) && IsPowerOfTwo(|tree[|tree| - 1]|)
    requires |tree[|tree| - 1]| != 1
    requires BuildLevels(rule, leaves) == Prepend(tree[..|tree| - 1], BuildLevels(rule, tree[|tree| - 1]))
    requires NextLevel(rule, tree[|tree| - 1]) == Ok(currentLevel)
    ensures IsPowerOfTwo(|currentLevel|) && |currentLevel| < |tree[|tree| - 1]|
    ensures var grown := tree + [currentLevel];
      BuildLevels(rule, leaves) == Prepend(grown[..|grown| - 1], BuildLevels(rule, currentLevel))
  {
    var last := tree[|tree| - 1];
    assert |currentLevel| == |last| / 2;
    assert BuildLevels(rule, last) == Prepend([last], BuildLevels(rule, currentLevel));
    var grown := tree + [currentLevel];
    DropLast(tree, currentLevel);
    var below := tree[..|tree| - 1];
    SplitLast(tree);
    PrependPrepend(below, [tree[|tree| - 1]], BuildLevels(rule, currentLevel));
  }

  /**
   * One level of the builder: merges the pairs of `lowerLevel` left to
   * right, stopping at the first merge that fails.
   */
  method BuildLevel(rule: BoundaryRule, lowerLevel: seq<Node>) returns (r: Result<seq<Node>>)
    requires |lowerLevel| % 2 == 0
    ensures r == NextLevel(rule, lowerLevel)
  {
    var currentLevel := [];
    var i := 0;
    assert lowerLevel[0..] == lowerLevel;
    PrependEmpty(NextLevel(rule, lowerLevel));
    while i < |lowerLevel|
      invariant 0 <= i <= |lowerLevel| && i % 2 == 0
      invariant NextLevel(rule, lowerLevel) == Prepend(currentLevel, NextLevel(rule, lowerLevel[i..]))
    {
      PairFits(|lowerLevel|, i);
      var parent := Merge(rule, lowerLevel[i], lowerLevel[i + 1]);
      InnerStep(rule, lowerLevel, currentLevel, i, parent);
      if parent.Err? {
        return Err(parent.error);
      }
      currentLevel := currentLevel + [parent.value];
      i := i + 2;
    }
    assert lowerLevel[i..] == [] && currentLevel + [] == currentLevel;
    r := Ok(currentLevel);
  }

  /**
   * The builder's loop, proved to compute BuildLevels. The program is
   * `BuildBinaryTree(AsWritten, leaves)`.
   */
  method BuildBinaryTree(rule: BoundaryRule, leaves: seq<Node>) returns (r: Result<seq<seq<Node>>>)
    requires IsPowerOfTwo(|leaves|)
    ensures r == BuildLevels(rule, leaves)
  {
    var tree := [leaves];
    PrependEmpty(BuildLevels(rule, leaves));
    while |tree[|tree| - 1]| != 1
      invariant |tree| >= 1 && IsPowerOfTwo(|tree[|tree| - 1]|)
      invariant BuildLevels(rule, leaves) == Prepend(tree[..|tree| - 1], BuildLevels(rule, tree[|tree| - 1]))
      decreases |tree[|tree| - 1]|
    {
      var lowerLevel := tree[|tree| - 1];
      var currentLevel := BuildLevel(rule, lowerLevel);
      if currentLevel.Err? {
        return Err(currentLevel.error);
      }
      OuterStep(rule, leaves, tree, currentLevel.value);
      tree := tree + [currentLevel.value];
    }
    SplitLast(tree);
    r := Ok(tree);
  }


  /** The leaves PushDepositsWithPubkey appends when the vector already holds `start` leaves. */
  function DepositRun(start: nat, pubkey: Pubkey, balance: u64, validSignatureBitmask: seq<bool>,
                      epochData: ValidatorEpochData): (run: seq<Node>)
    requires start + |validSignatureBitmask| <= U64_MODULUS
    ensures |run| == |validSignatureBitmask|
    ensures forall i :: 0 <= i < |run| ==>
      && WellFormedLeaf(run[i]) && !run[i].leftmost.isFictional
      && run[i].leftmost.depositIndex == start + i
      && run[i].leftmost.validator.pubkey == pubkey && run[i].leftmost.validator.balance == balance
      && StatsOf(run[i].leftmost.validator.statusBits) == StatusCounts(epochData)
      && (run[i].leftmost.counted <==> validSignatureBitmask[i] && start + i <= ETH1_DATA_DEPOSIT_COUNT)
  {
    seq(|validSignatureBitmask|, i requires 0 <= i < |validSignatureBitmask| =>
      CreateLeafNode(pubkey, start + i, balance, validSignatureBitmask[i], epochData, false))
  }

  /** A caller-owned, growable vector of nodes. */
  class NodeVector {
    var items: seq<Node>

    constructor ()
      ensures items == []
    {
      items := [];
    }

    method PushBack(node: Node)
      modifies this
      ensures items == old(items) + [node]
    {
      items := items + [node];
    }
  }

  /**
   * Appends one deposit leaf per signature bit; each new leaf takes the
   * vector's size at that moment as its deposit index.
   */
  method PushDepositsWithPubkey(deposits: NodeVector, pubkey: Pubkey, balance: u64,
                                validSignatureBitmask: seq<bool>, epochData: ValidatorEpochData)
    requires |deposits.items| + |validSignatureBitmask| <= U64_MODULUS
    modifies deposits
    ensures deposits.items == old(deposits.items)
              + DepositRun(|old(deposits.items)|, pubkey, balance, validSignatureBitmask, epochData)
  {
    ghost var start := |deposits.items|;
    for i := 0 to |validSignatureBitmask|
      invariant deposits.items == old(deposits.items)
                  + DepositRun(start, pubkey, balance, validSignatureBitmask[..i], epochData)
    {
      var depositIndex := |deposits.items|;
      var leaf := CreateLeafNode(pubkey, depositIndex, balance, validSignatureBitmask[i], epochData, false);
      deposits.PushBack(leaf);
      assert DepositRun(start, pubkey, balance, validSignatureBitmask[..i + 1], epochData)
          == DepositRun(start, pubkey, balance, validSignatureBitmask[..i], epochData) + [leaf];
    }
    assert validSignatureBitmask[..|validSignatureBitmask|] == validSignatureBitmask;
  }

  /** Appends `count` padding leaves. */
  method PushFictionalDeposits(deposits: NodeVector, count: nat)
    modifies deposits
    ensures deposits.items == old(deposits.items) + seq(count, _ => CreateFictionalLeaf())
  {
    for i := 0 to count
      invariant deposits.items == old(deposits.items) + seq(i, _ => CreateFictionalLeaf())
    {
      var leaf := CreateLeafNode(0, 0, 0, false, ValidatorEpochData(0, 0), true);
      deposits.PushBack(leaf);
      assert seq(i + 1, _ => CreateFictionalLeaf()) == seq(i, _ => CreateFictionalLeaf()) + [leaf];
    }
  }
}
