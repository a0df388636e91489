/**
 * What the tree computes, stated independently of the merge: over a sorted
 * run of leaves, every real deposit counts once, and every validator with at
 * least one counted deposit contributes its balance and status exactly once.
 * The lemmas here prove that the corrected merge, folded level by level by
 * the tree builder, produces exactly these totals (reduced to unsigned 64
 * bits) at the root.
 *
 * Runs are index ranges `lo..hi` of the whole leaf sequence, and the five
 * components of an aggregate are handled one `Field` at a time.
 */
module Dedup {
  import opened Types
  import opened FirstLevel
  import opened InnerLevel
  import opened Util

  /** The five components of an aggregate. */
  datatype Field = Balance | DepositsCount | NonActivated | Active | Exited

  /** One component of an aggregate. */
  function Component(acc: AccumulatedData, f: Field): u64 {
    match f
    case Balance => acc.balance
    case DepositsCount => acc.depositsCount
    case NonActivated => acc.validatorStats.nonActivatedValidatorsCount
    case Active => acc.validatorStats.activeValidatorsCount
    case Exited => acc.validatorStats.exitedValidatorsCount
  }

  /** Aggregates that agree on every component are equal. */
  lemma ComponentsDetermine(a: AccumulatedData, b: AccumulatedData)
    requires forall f: Field :: Component(a, f) == Component(b, f)
    ensures a == b
  {
    assert Component(a, Balance) == Component(b, Balance);
    assert Component(a, DepositsCount) == Component(b, DepositsCount);
    assert Component(a, NonActivated) == Component(b, NonActivated);
    assert Component(a, Active) == Component(b, Active);
    assert Component(a, Exited) == Component(b, Exited);
  }

  /** A validator's share of a component when it is counted: its balance or its status bit (never a deposit). */
  function Contribution(v: ValidatorData, f: Field): u64 {
    match f
    case Balance => v.balance
    case DepositsCount => 0
    case NonActivated => Bit(v.statusBits.nonActivated)
    case Active => Bit(v.statusBits.active)
    case Exited => Bit(v.statusBits.exited)
  }

  function PubkeyOf(leaf: Node): Pubkey {
    leaf.leftmost.validator.pubkey
  }

  /** Some leaf of the run `lo..hi` with this pubkey is counted. */
  predicate CountedIn(leaves: seq<Node>, lo: nat, hi: nat, pubkey: Pubkey)
    requires hi <= |leaves|
  {
    exists i :: lo <= i < hi && PubkeyOf(leaves[i]) == pubkey && leaves[i].leftmost.counted
  }

  /**
   * What leaf `i` adds to a component of the run starting at `lo`: one
   * deposit if it is real, and its validator's contribution if it is counted
   * and no earlier leaf of the run with the same pubkey is counted.
   */
  function StepAt(leaves: seq<Node>, lo: nat, i: nat, f: Field): nat
    requires lo <= i < |leaves|
  {
    var leaf := leaves[i];
    var deposit := if f == DepositsCount && !leaf.leftmost.isFictional then 1 else 0;
    var isFirstCounted := leaf.leftmost.counted && !CountedIn(leaves, lo, i, PubkeyOf(leaf));
    deposit + if isFirstCounted then Contribution(leaf.leftmost.validator, f) else 0
  }

  /** The reference total of one component over the run `lo..hi`, accumulated leaf by leaf. */
  function RangeTotal(leaves: seq<Node>, lo: nat, hi: nat, f: Field): nat
    requires lo <= hi <= |leaves|
    decreases hi - lo
  {
    if hi == lo then 0 else RangeTotal(leaves, lo, hi - 1, f) + StepAt(leaves, lo, hi - 1, f)
  }

  /** The reference total of one component over all the leaves. */
  function Expected(leaves: seq<Node>, f: Field): nat {
    RangeTotal(leaves, 0, |leaves|, f)
  }

  /** The reference totals of all the leaves, each reduced to 64 bits. */
  function ExpectedAccumulated(leaves: seq<Node>): AccumulatedData {
    AccumulatedData(
      Wrap(Expected(leaves, Balance)),
      Wrap(Expected(leaves, DepositsCount)),
      ValidatorStats(Wrap(Expected(leaves, NonActivated)), Wrap(Expected(leaves, Active)), Wrap(Expected(leaves, Exited))))
  }

  /**
   * Leaves in the order the caller must supply them: by pubkey, real
   * deposits before padding, and real deposit indices strictly increasing.
   */
  predicate SortedLeaves(leaves: seq<Node>) {
    forall i, j :: 0 <= i < j < |leaves| ==>
      && PubkeyOf(leaves[i]) <= PubkeyOf(leaves[j])
      && (!leaves[j].leftmost.isFictional ==>
            !leaves[i].leftmost.isFictional && leaves[i].leftmost.depositIndex < leaves[j].leftmost.depositIndex)
  }

  /** All leaves of one pubkey carry the same validator balance and status. */
  predicate ConsistentValidators(leaves: seq<Node>) {
    forall i, j :: 0 <= i < |leaves| && 0 <= j < |leaves| && PubkeyOf(leaves[i]) == PubkeyOf(leaves[j]) ==>
      leaves[i].leftmost.validator == leaves[j].leftmost.validator
  }

  predicate ValidRun(leaves: seq<Node>) {
    SortedLeaves(leaves) && ConsistentValidators(leaves)
  }

  predicate WellFormedLeaves(leaves: seq<Node>) {
    forall i :: 0 <= i < |leaves| ==> WellFormedLeaf(leaves[i])
  }

  /**
   * The padding sentinel sorts last: a sorted, consistent run of real leaves
   * whose pubkeys all lie below FIELD_ORDER - 1 stays sorted, consistent and
   * well-formed when any number of padding leaves is appended.
   */
  lemma PaddingKeepsRunValid(deposits: seq<Node>, count: nat)
    requires ValidRun(deposits) && WellFormedLeaves(deposits)
    requires forall i :: 0 <= i < |deposits| ==> !deposits[i].leftmost.isFictional && PubkeyOf(deposits[i]) < FIELD_ORDER - 1
    ensures var padded := deposits + seq(count, _ => CreateFictionalLeaf());
      ValidRun(padded) && WellFormedLeaves(padded)
  {
    var padded := deposits + seq(count, _ => CreateFictionalLeaf());
    forall i | |deposits| <= i < |padded|
      ensures padded[i] == CreateFictionalLeaf()
    {
    }
    forall i, j | 0 <= i < j < |padded|
      ensures && PubkeyOf(padded[i]) <= PubkeyOf(padded[j])
              && (!padded[j].leftmost.isFictional ==>
                    !padded[i].leftmost.isFictional && padded[i].leftmost.depositIndex < padded[j].leftmost.depositIndex)
    {
      if j < |deposits| {
        assert padded[i] == deposits[i] && padded[j] == deposits[j];
      } else if i < |deposits| {
        assert padded[i] == deposits[i];
      }
    }
    forall i, j | 0 <= i < |padded| && 0 <= j < |padded| && PubkeyOf(padded[i]) == PubkeyOf(padded[j])
      ensures padded[i].leftmost.validator == padded[j].leftmost.validator
    {
      if i < |deposits| && j < |deposits| {
        assert padded[i] == deposits[i] && padded[j] == deposits[j];
      }
    }
    forall i | 0 <= i < |padded| ensures WellFormedLeaf(padded[i]) {
      if i < |deposits| {
        assert padded[i] == deposits[i];
      }
    }
  }

  /**
   * `n` summarizes the non-empty run `lo..hi`: its bounds are the identities
   * of the run's first and last leaves, each bound is counted exactly when
   * some leaf of the run with its pubkey is counted, and each component of
   * its aggregate is the reference total of the run (mod 2^64).
   */
  predicate Covers(n: Node, leaves: seq<Node>, lo: nat, hi: nat) {
    && lo < hi <= |leaves|
    && SameIdentity(n.leftmost, leaves[lo].leftmost)
    && SameIdentity(n.rightmost, leaves[hi - 1].leftmost)
    && n.leftmost.counted == CountedIn(leaves, lo, hi, n.leftmost.validator.pubkey)
    && n.rightmost.counted == CountedIn(leaves, lo, hi, n.rightmost.validator.pubkey)
    && forall f: Field :: Component(n.accumulated, f) == Wrap(RangeTotal(leaves, lo, hi, f))
  }

  lemma CountedInSplit(leaves: seq<Node>, lo: nat, mid: nat, hi: nat, pubkey: Pubkey)
    requires lo <= mid <= hi <= |leaves|
    ensures CountedIn(leaves, lo, hi, pubkey) <==> CountedIn(leaves, lo, mid, pubkey) || CountedIn(leaves, mid, hi, pubkey)
  {
    if CountedIn(leaves, lo, hi, pubkey) {
      var i :| lo <= i < hi && PubkeyOf(leaves[i]) == pubkey && leaves[i].leftmost.counted;
      if i < mid {
        assert CountedIn(leaves, lo, mid, pubkey);
      } else {
        assert CountedIn(leaves, mid, hi, pubkey);
      }
    }
  }

  lemma CountedInOne(leaves: seq<Node>, i: nat, pubkey: Pubkey)
    requires i < |leaves|
    ensures CountedIn(leaves, i, i + 1, pubkey) <==> PubkeyOf(leaves[i]) == pubkey && leaves[i].leftmost.counted
  {
  }

  /** In a sorted sequence, a pubkey counted in a run lies between the run's first and last pubkeys. */
  lemma CountedInBounds(leaves: seq<Node>, lo: nat, hi: nat, pubkey: Pubkey)
    requires hi <= |leaves| && SortedLeaves(leaves) && CountedIn(leaves, lo, hi, pubkey)
    ensures lo < hi && PubkeyOf(leaves[lo]) <= pubkey <= PubkeyOf(leaves[hi - 1])
  {
    var i :| lo <= i < hi && PubkeyOf(leaves[i]) == pubkey && leaves[i].leftmost.counted;
  }

  /** The last leaf of `lo..mid` and the first of `mid..hi` share a pubkey that is counted in both runs. */
  predicate SharedAtSeam(leaves: seq<Node>, lo: nat, mid: nat, hi: nat)
    requires lo < mid < hi <= |leaves|
  {
    var p := PubkeyOf(leaves[mid]);
    PubkeyOf(leaves[mid - 1]) == p && CountedIn(leaves, lo, mid, p) && CountedIn(leaves, mid, hi, p)
  }

  /** What joining two adjacent runs counts twice: the contribution of the validator shared at the seam. */
  function Overlap(leaves: seq<Node>, lo: nat, mid: nat, hi: nat, f: Field): nat
    requires lo < mid < hi <= |leaves|
  {
    if SharedAtSeam(leaves, lo, mid, hi) then Contribution(leaves[mid - 1].leftmost.validator, f) else 0
  }

  /**
   * The order facts at the seam of `lo..mid` and `mid..hi` that joining
   * needs, about the last leaf `x` of the joined run.
   */
  predicate SeamOrdered(leaves: seq<Node>, lo: nat, mid: nat, hi: nat)
    requires lo < mid < hi <= |leaves|
  {
    var x, lastL := leaves[hi - 1], leaves[mid - 1];
    && PubkeyOf(lastL) <= PubkeyOf(leaves[mid]) <= PubkeyOf(x)
    && (CountedIn(leaves, lo, mid, PubkeyOf(x)) ==> PubkeyOf(x) <= PubkeyOf(lastL))
    && (PubkeyOf(x) == PubkeyOf(lastL) ==> x.leftmost.validator == lastL.leftmost.validator)
  }

  lemma SeamFacts(leaves: seq<Node>, lo: nat, mid: nat, hi: nat)
    requires lo < mid < hi <= |leaves| && ValidRun(leaves)
    ensures SeamOrdered(leaves, lo, mid, hi)
  {
    var x := leaves[hi - 1];
    if CountedIn(leaves, lo, mid, PubkeyOf(x)) {
      CountedInBounds(leaves, lo, mid, PubkeyOf(x));
    }
  }

  /**
   * Extending the right run by leaf `hi` changes both sides of the join
   * equation by the same amount.
   */
  lemma ConcatStep(leaves: seq<Node>, lo: nat, mid: nat, hi: nat, f: Field)
    requires lo < mid < hi < |leaves| && SeamOrdered(leaves, lo, mid, hi + 1)
    ensures StepAt(leaves, lo, hi, f) + Overlap(leaves, lo, mid, hi + 1, f)
         == Overlap(leaves, lo, mid, hi, f) + StepAt(leaves, mid, hi, f)
  {
    var p, px := PubkeyOf(leaves[mid]), PubkeyOf(leaves[hi]);
    CountedInSplit(leaves, lo, mid, hi, px);
    CountedInSplit(leaves, mid, hi, hi + 1, p);
    CountedInOne(leaves, hi, p);
  }

  /**
   * Joining two adjacent runs of a sorted, consistent sequence: the total of
   * the whole plus what the seam counts twice equals the totals of the parts.
   */
  lemma {:induction false} RangeConcat(leaves: seq<Node>, lo: nat, mid: nat, hi: nat, f: Field)
    requires lo < mid < hi <= |leaves| && ValidRun(leaves)
    ensures RangeTotal(leaves, lo, hi, f) + Overlap(leaves, lo, mid, hi, f)
         == RangeTotal(leaves, lo, mid, f) + RangeTotal(leaves, mid, hi, f)
    decreases hi
  {
    if hi == mid + 1 {
      var p := PubkeyOf(leaves[mid]);
      assert RangeTotal(leaves, mid, hi, f) == StepAt(leaves, mid, mid, f) by {
        assert !CountedIn(leaves, mid, mid, p);
      }
      SeamFacts(leaves, lo, mid, hi);
      CountedInOne(leaves, mid, p);
    } else {
      var h := hi - 1;
      assert RangeTotal(leaves, lo, h, f) + Overlap(leaves, lo, mid, h, f)
          == RangeTotal(leaves, lo, mid, f) + RangeTotal(leaves, mid, h, f) by {
        RangeConcat(leaves, lo, mid, h, f);
      }
      assert StepAt(leaves, lo, h, f) + Overlap(leaves, lo, mid, hi, f)
          == Overlap(leaves, lo, mid, h, f) + StepAt(leaves, mid, h, f) by {
        SeamFacts(leaves, lo, mid, hi);
        ConcatStep(leaves, lo, mid, h, f);
      }
    }
  }

  /** A well-formed leaf summarizes the run holding just that leaf. */
  lemma LeafCovers(leaves: seq<Node>, i: nat)
    requires i < |leaves| && WellFormedLeaf(leaves[i])
    ensures Covers(leaves[i], leaves, i, i + 1)
  {
    var leaf := leaves[i];
    CountedInOne(leaves, i, PubkeyOf(leaf));
    assert !CountedIn(leaves, i, i, PubkeyOf(leaf));
    forall f: Field ensures Component(leaf.accumulated, f) == Wrap(RangeTotal(leaves, i, i + 1, f)) {
      assert RangeTotal(leaves, i, i + 1, f) == StepAt(leaves, i, i, f);
    }
  }

  /** The merged leftmost flag is set exactly when the leftmost pubkey is counted somewhere in the joined run. */
  lemma LeftmostFlagCovers(left: Node, right: Node, leaves: seq<Node>, lo: nat, mid: nat, hi: nat)
    requires Covers(left, leaves, lo, mid) && Covers(right, leaves, mid, hi) && SortedLeaves(leaves)
    ensures CalcCountedData(left, right).0 == CountedIn(leaves, lo, hi, left.leftmost.validator.pubkey)
  {
    var p0 := left.leftmost.validator.pubkey;
    CountedInSplit(leaves, lo, mid, hi, p0);
    if CountedIn(leaves, mid, hi, p0) {
      CountedInBounds(leaves, mid, hi, p0);
      assert PubkeyOf(leaves[lo]) <= PubkeyOf(leaves[mid]);
    }
  }

  /** The merged rightmost flag is set exactly when the rightmost pubkey is counted somewhere in the joined run. */
  lemma RightmostFlagCovers(left: Node, right: Node, leaves: seq<Node>, lo: nat, mid: nat, hi: nat)
    requires Covers(left, leaves, lo, mid) && Covers(right, leaves, mid, hi) && SortedLeaves(leaves)
    ensures CalcCountedData(left, right).1 == CountedIn(leaves, lo, hi, right.rightmost.validator.pubkey)
  {
    var q := right.rightmost.validator.pubkey;
    CountedInSplit(leaves, lo, mid, hi, q);
    if CountedIn(leaves, lo, mid, q) {
      CountedInBounds(leaves, lo, mid, q);
      assert PubkeyOf(leaves[mid - 1]) <= PubkeyOf(leaves[hi - 1]);
    }
  }

  /** Summing two aggregates sums each component (mod 2^64). */
  lemma ComponentOfSum(left: Node, right: Node, f: Field)
    ensures Component(AccumulateData(left, right), f)
         == AddU64(Component(left.accumulated, f), Component(right.accumulated, f))
  {
  }

  /** The double-counting correction takes the seam validator's contribution out of each component. */
  lemma ComponentOfCorrection(acc: AccumulatedData, left: Node, right: Node, f: Field)
    ensures Component(AccountForDoubleCounting(acc, left, right), f)
         == if DoubleCounted(left, right) then SubU64(Component(acc, f), Contribution(left.rightmost.validator, f))
            else Component(acc, f)
  {
  }

  /**
   * The arithmetic of one component: if the children hold `l` and `r`, and
   * `l + r` exceeds `total` by exactly what the correction takes out, the
   * corrected sum holds `total` (all mod 2^64).
   */
  lemma CorrectedComponent(left: Node, right: Node, f: Field, l: nat, r: nat, total: nat, overlap: nat)
    requires Component(left.accumulated, f) == Wrap(l) && Component(right.accumulated, f) == Wrap(r)
    requires l + r == total + overlap
    requires overlap == if DoubleCounted(left, right) then Contribution(left.rightmost.validator, f) as nat else 0
    ensures Component(AccountForDoubleCounting(AccumulateData(left, right), left, right), f) == Wrap(total)
  {
    var sum := Component(AccumulateData(left, right), f);
    assert sum == Wrap(l + r) by {
      ComponentOfSum(left, right, f);
      WrapAdd(l, r);
    }
    ComponentOfCorrection(AccumulateData(left, right), left, right, f);
    if DoubleCounted(left, right) {
      WrapSub(total + overlap, Contribution(left.rightmost.validator, f));
    }
  }

  /**
   * The correction fires exactly when the last leaf of the left run and the
   * first leaf of the right run share a pubkey that is counted in both runs.
   */
  lemma DoubleCountedAtSeam(left: Node, right: Node, leaves: seq<Node>, lo: nat, mid: nat, hi: nat)
    requires Covers(left, leaves, lo, mid) && Covers(right, leaves, mid, hi)
    ensures DoubleCounted(left, right) <==> SharedAtSeam(leaves, lo, mid, hi)
  {
  }

  /** Each component of the parent's aggregate is the reference total of the joined run. */
  lemma ParentComponentCovers(left: Node, right: Node, leaves: seq<Node>, lo: nat, mid: nat, hi: nat, f: Field)
    requires Covers(left, leaves, lo, mid) && Covers(right, leaves, mid, hi) && ValidRun(leaves)
    ensures Component(AccountForDoubleCounting(AccumulateData(left, right), left, right), f)
         == Wrap(RangeTotal(leaves, lo, hi, f))
  {
    var total, overlap := RangeTotal(leaves, lo, hi, f), Overlap(leaves, lo, mid, hi, f);
    var l, r := RangeTotal(leaves, lo, mid, f), RangeTotal(leaves, mid, hi, f);
    assert l + r == total + overlap by {
      RangeConcat(leaves, lo, mid, hi, f);
    }
    DoubleCountedAtSeam(left, right, leaves, lo, mid, hi);
    CorrectedComponent(left, right, f, l, r, total, overlap);
  }

  /**
   * Merging the summaries of two adjacent runs of a sorted, consistent
   * sequence passes both checks and summarizes the joined run.
   */
  lemma ParentCovers(left: Node, right: Node, leaves: seq<Node>, lo: nat, mid: nat, hi: nat)
    requires Covers(left, leaves, lo, mid) && Covers(right, leaves, mid, hi) && ValidRun(leaves)
    ensures Merge(Corrected, left, right).Ok?
    ensures Covers(Merge(Corrected, left, right).value, leaves, lo, hi)
  {
    assert CheckSorted(left, right) == None by {
      assert PubkeyOf(leaves[mid - 1]) <= PubkeyOf(leaves[mid]);
      if !leaves[hi - 1].leftmost.isFictional {
        assert !leaves[mid].leftmost.isFictional;
      }
    }
    LeftmostFlagCovers(left, right, leaves, lo, mid, hi);
    RightmostFlagCovers(left, right, leaves, lo, mid, hi);
    forall f: Field
      ensures Component(AccountForDoubleCounting(AccumulateData(left, right), left, right), f)
           == Wrap(RangeTotal(leaves, lo, hi, f))
    {
      ParentComponentCovers(left, right, leaves, lo, mid, hi, f);
    }
  }

  /** Node `k` of `level` summarizes the `k`-th run of `width` leaves from `start`, and the runs end with the leaves. */
  predicate LevelCovers(level: seq<Node>, leaves: seq<Node>, start: nat, width: nat)
    decreases |level|
  {
    if |level| == 0 then start == |leaves|
    else Covers(level[0], leaves, start, start + width) && LevelCovers(level[1..], leaves, start + width, width)
  }

  /** The leaves from `i` on, taken as a level, cover themselves one by one. */
  lemma {:induction false} LeavesCoverThemselves(leaves: seq<Node>, i: nat)
    requires i <= |leaves| && WellFormedLeaves(leaves)
    ensures LevelCovers(leaves[i..], leaves, i, 1)
    decreases |leaves| - i
  {
    if i < |leaves| {
      assert leaves[i..][0] == leaves[i] && leaves[i..][1..] == leaves[i + 1..];
      LeafCovers(leaves, i);
      LeavesCoverThemselves(leaves, i + 1);
    }
  }

  /** Each level the builder makes from a covering level covers runs twice as wide. */
  lemma {:induction false} NextLevelCovers(level: seq<Node>, leaves: seq<Node>, start: nat, width: nat)
    requires |level| % 2 == 0 && LevelCovers(level, leaves, start, width) && ValidRun(leaves)
    ensures NextLevel(Corrected, level).Ok? && LevelCovers(NextLevel(Corrected, level).value, leaves, start, 2 * width)
    decreases |level|
  {
    if |level| > 0 {
      assert Covers(level[1], leaves, start + width, start + 2 * width)
          && LevelCovers(level[2..], leaves, start + 2 * width, width) by {
        assert level[1..][0] == level[1] && level[1..][1..] == level[2..];
      }
      var merged := Merge(Corrected, level[0], level[1]);
      ParentCovers(level[0], level[1], leaves, start, start + width, start + 2 * width);
      NextLevelCovers(level[2..], leaves, start + 2 * width, width);
      var next := NextLevel(Corrected, level).value;
      assert next[0] == merged.value && next[1..] == NextLevel(Corrected, level[2..]).value;
    }
  }

  /** A covering level of power-of-two size builds without error to a root that summarizes every leaf. */
  lemma {:induction false} BuildCovers(level: seq<Node>, leaves: seq<Node>, width: nat)
    requires IsPowerOfTwo(|level|) && LevelCovers(level, leaves, 0, width) && ValidRun(leaves)
    ensures BuildLevels(Corrected, level).Ok?
    ensures var levels := BuildLevels(Corrected, level).value;
      |levels| > 0 && |levels[|levels| - 1]| == 1 && Covers(levels[|levels| - 1][0], leaves, 0, |leaves|)
    decreases |level|
  {
    if |level| > 1 {
      var next := NextLevel(Corrected, level);
      NextLevelCovers(level, leaves, 0, width);
      BuildCovers(next.value, leaves, 2 * width);
      assert BuildLevels(Corrected, level).value == [level] + BuildLevels(Corrected, next.value).value;
    }
  }

  /**
   * The main property of the tree. For a power-of-two run of well-formed,
   * sorted leaves in which each pubkey names one validator, the build
   * succeeds, and the root's aggregate holds exactly one deposit per real
   * leaf and, once per validator with a counted deposit, that validator's
   * balance and status (each reduced to 64 bits). The root's bounds are the
   * first and last leaves, each counted exactly when its validator has a
   * counted deposit somewhere.
   */
  lemma RootIsDeduplicatedTotal(leaves: seq<Node>)
    requires IsPowerOfTwo(|leaves|) && WellFormedLeaves(leaves) && ValidRun(leaves)
    ensures BuildLevels(Corrected, leaves).Ok?
    ensures var levels := BuildLevels(Corrected, leaves).value;
      |levels| > 0 && |levels[|levels| - 1]| == 1 && Covers(levels[|levels| - 1][0], leaves, 0, |leaves|)
    ensures var levels := BuildLevels(Corrected, leaves).value;
      |levels| > 0 && |levels[|levels| - 1]| == 1 && levels[|levels| - 1][0].accumulated == ExpectedAccumulated(leaves)
  {
    LeavesCoverThemselves(leaves, 0);
    assert leaves[0..] == leaves;
    BuildCovers(leaves, leaves, 1);
    var levels: seq<seq<Node>> := BuildLevels(Corrected, leaves).value;
    var root: Node := levels[|levels| - 1][0];
    ComponentsDetermine(root.accumulated, ExpectedAccumulated(leaves));
  }

  /** Sum of the leaves' own deposit counts. */
  function DepositsSum(level: seq<Node>): nat
    decreases |level|
  {
    if |level| == 0 then 0 else level[0].accumulated.depositsCount + DepositsSum(level[1..])
  }

  /** A merge never corrects the deposit count, so a level keeps the sum of the one below (mod 2^64). */
  lemma {:induction false} NextLevelKeepsDeposits(rule: BoundaryRule, level: seq<Node>)
    requires |level| % 2 == 0 && NextLevel(rule, level).Ok?
    ensures Wrap(DepositsSum(NextLevel(rule, level).value)) == Wrap(DepositsSum(level))
    decreases |level|
  {
    if |level| > 0 {
      var next := NextLevel(rule, level).value;
      var rest := NextLevel(rule, level[2..]).value;
      var a: nat, b: nat := level[0].accumulated.depositsCount, level[1].accumulated.depositsCount;
      var d := DepositsSum(level[2..]);
      var ab := AddU64(a, b);
      assert DepositsSum(next) == ab + DepositsSum(rest) by {
        assert next[0].accumulated.depositsCount == ab;
        assert next[1..] == rest;
      }
      assert DepositsSum(level) == a + b + d by {
        assert level[1..][0] == level[1] && level[1..][1..] == level[2..];
      }
      NextLevelKeepsDeposits(rule, level[2..]);
      PairSumWraps(a, b, DepositsSum(rest), d);
    }
  }

  /** Replacing two counts by their 64-bit sum, and a tail by one equal mod 2^64, keeps the total mod 2^64. */
  lemma PairSumWraps(a: u64, b: u64, rest: nat, d: nat)
    requires Wrap(rest) == Wrap(d)
    ensures Wrap(AddU64(a, b) + rest) == Wrap(a + b + d)
  {
    WrapAdd(a, b);
    WrapAdd(AddU64(a, b), rest);
    WrapAdd(a + b, d);
  }

  /**
   * Whatever the leaves, a successful build's root counts every leaf's
   * deposits: its deposit count is the sum of the leaves' (mod 2^64).
   */
  lemma {:induction false} RootKeepsAllDeposits(rule: BoundaryRule, leaves: seq<Node>)
    requires IsPowerOfTwo(|leaves|) && BuildLevels(rule, leaves).Ok?
    ensures var levels := BuildLevels(rule, leaves).value;
      |levels| > 0 && |levels[|levels| - 1]| == 1
      && levels[|levels| - 1][0].accumulated.depositsCount == Wrap(DepositsSum(leaves))
    decreases |leaves|
  {
    if |leaves| == 1 {
      assert leaves[1..] == [];
    } else {
      var next := NextLevel(rule, leaves).value;
      NextLevelKeepsDeposits(rule, leaves);
      RootKeepsAllDeposits(rule, next);
      var levels := BuildLevels(rule, leaves).value;
      assert levels == [leaves] + BuildLevels(rule, next).value;
    }
  }

  /** Number of real (non-padding) leaves. */
  function RealLeaves(level: seq<Node>): nat
    decreases |level|
  {
    if |level| == 0 then 0 else (if level[0].leftmost.isFictional then 0 else 1) + RealLeaves(level[1..])
  }

  /** A well-formed leaf holds one deposit when real and none when padding, so the leaves' deposits are the real leaves. */
  lemma {:induction false} DepositsSumCountsRealLeaves(leaves: seq<Node>)
    requires WellFormedLeaves(leaves)
    ensures DepositsSum(leaves) == RealLeaves(leaves)
    decreases |leaves|
  {
    if |leaves| > 0 {
      assert WellFormedLeaves(leaves[1..]) by {
        forall i | 0 <= i < |leaves[1..]| ensures WellFormedLeaf(leaves[1..][i]) {
          assert leaves[1..][i] == leaves[i + 1];
        }
      }
      DepositsSumCountsRealLeaves(leaves[1..]);
      assert WellFormedLeaf(leaves[0]);
    }
  }

  /**
   * Whatever their order, well-formed leaves that build successfully give a
   * root whose deposit count is the number of real leaves (mod 2^64):
   * deposits are never deduplicated, and padding counts for nothing.
   */
  lemma RootCountsRealDeposits(rule: BoundaryRule, leaves: seq<Node>)
    requires IsPowerOfTwo(|leaves|) && WellFormedLeaves(leaves) && BuildLevels(rule, leaves).Ok?
    ensures var levels := BuildLevels(rule, leaves).value;
      |levels| > 0 && |levels[|levels| - 1]| == 1
      && levels[|levels| - 1][0].accumulated.depositsCount == Wrap(RealLeaves(leaves))
  {
    RootKeepsAllDeposits(rule, leaves);
    DepositsSumCountsRealLeaves(leaves);
  }
}
