/**
 * The merge of two adjacent nodes into their parent: boundary records are
 * inherited with recomputed `counted` flags, aggregates are summed, and a
 * validator summed on both sides of the new boundary is subtracted once.
 */
module InnerLevel {
  import opened Types
  import opened FirstLevel

  datatype Result<T> = Ok(value: T) | Err(error: MergeError)

  /** The two sortedness checks that guard a merge, in the order they are made. */
  datatype MergeError =
    | OrderingViolation  // left.rightmost.pubkey > right.leftmost.pubkey
    | IndexViolation     // deposit indices not increasing and `right` not all-fictional

  predicate HasSamePubkeyAndIsCounted(pubkey: Pubkey, data: BoundsData) {
    pubkey == data.validator.pubkey && data.counted
  }

  /** Both records are counted and belong to the same validator. */
  function PubkeysAreSameAndAreCounted(first: BoundsData, second: BoundsData): (r: bool)
    ensures r <==> first.counted && HasSamePubkeyAndIsCounted(first.validator.pubkey, second)
    ensures r <==> second.counted && HasSamePubkeyAndIsCounted(second.validator.pubkey, first)
  {
    var pubkeysAreSame := first.validator.pubkey == second.validator.pubkey;
    var bothAreCounted := first.counted && second.counted;
    pubkeysAreSame && bothAreCounted
  }

  /**
   * The recomputed `counted` flags of the parent's two exposed records: an
   * exposed record is counted when some boundary record of the two children
   * with its pubkey (itself included) is counted.
   */
  function CalcCountedData(left: Node, right: Node): (r: (bool, bool))
  {
    var leftmostPubkey := left.leftmost.validator.pubkey;
    var rightmostPubkey := right.rightmost.validator.pubkey;
    var leftmostCounted := left.leftmost.counted
      || HasSamePubkeyAndIsCounted(leftmostPubkey, left.rightmost)
      || HasSamePubkeyAndIsCounted(leftmostPubkey, right.leftmost)
      || HasSamePubkeyAndIsCounted(leftmostPubkey, right.rightmost);
    var rightmostCounted := right.rightmost.counted
      || HasSamePubkeyAndIsCounted(rightmostPubkey, left.leftmost)
      || HasSamePubkeyAndIsCounted(rightmostPubkey, left.rightmost)
      || HasSamePubkeyAndIsCounted(rightmostPubkey, right.leftmost);
    (leftmostCounted, rightmostCounted)
  }

  /** The identity of a boundary record: everything but its `counted` flag. */
  predicate SameIdentity(a: BoundsData, b: BoundsData) {
    a.validator == b.validator && a.depositIndex == b.depositIndex && a.isFictional == b.isFictional
  }

  /**
   * The parent's boundary records as the code computes them: the leftmost is
   * `left.leftmost` and the rightmost is `right.rightmost`, but BOTH take the
   * leftmost-side `counted` flag; the rightmost-side flag is dropped.
   */
  function InheritBoundsDataFromChildren(left: Node, right: Node): (r: (BoundsData, BoundsData))
    ensures SameIdentity(r.0, left.leftmost) && SameIdentity(r.1, right.rightmost)
    ensures r.0.counted == CalcCountedData(left, right).0
    ensures r.1.counted == r.0.counted
    ensures left.leftmost.counted ==> r.0.counted && r.1.counted
  {
    var (leftCountedData, _) := CalcCountedData(left, right);
    var leftData := BoundsData(left.leftmost.validator, left.leftmost.depositIndex, leftCountedData,
                               left.leftmost.isFictional);
    var rightData := BoundsData(right.rightmost.validator, right.rightmost.depositIndex, leftCountedData,
                                right.rightmost.isFictional);
    (leftData, rightData)
  }

  /**
   * The parent's boundary records with each exposed record taking its own
   * recomputed flag: the leftmost from its side, the rightmost from its side.
   */
  function InheritBoundsDataCorrected(left: Node, right: Node): (r: (BoundsData, BoundsData))
    ensures SameIdentity(r.0, left.leftmost) && SameIdentity(r.1, right.rightmost)
    ensures r.0.counted == CalcCountedData(left, right).0
    ensures r.1.counted == CalcCountedData(left, right).1
    ensures left.leftmost.counted ==> r.0.counted
    ensures right.rightmost.counted ==> r.1.counted
  {
    var (leftCountedData, rightCountedData) := CalcCountedData(left, right);
    var leftData := BoundsData(left.leftmost.validator, left.leftmost.depositIndex, leftCountedData,
                               left.leftmost.isFictional);
    var rightData := BoundsData(right.rightmost.validator, right.rightmost.depositIndex, rightCountedData,
                                right.rightmost.isFictional);
    (leftData, rightData)
  }

  /** Fieldwise unsigned 64-bit sum of two sets of status counts. */
  function AccumulateValidatorStats(left: ValidatorStats, right: ValidatorStats): (r: ValidatorStats)
    ensures r.nonActivatedValidatorsCount
            == (left.nonActivatedValidatorsCount + right.nonActivatedValidatorsCount) % U64_MODULUS
    ensures r.activeValidatorsCount == (left.activeValidatorsCount + right.activeValidatorsCount) % U64_MODULUS
    ensures r.exitedValidatorsCount == (left.exitedValidatorsCount + right.exitedValidatorsCount) % U64_MODULUS
  {
    ValidatorStats(
      AddU64(left.nonActivatedValidatorsCount, right.nonActivatedValidatorsCount),
      AddU64(left.activeValidatorsCount, right.activeValidatorsCount),
      AddU64(left.exitedValidatorsCount, right.exitedValidatorsCount))
  }

  /** Fieldwise unsigned 64-bit sum of the children's aggregates. */
  function AccumulateData(left: Node, right: Node): (r: AccumulatedData)
    ensures r.balance == (left.accumulated.balance + right.accumulated.balance) % U64_MODULUS
    ensures r.depositsCount == (left.accumulated.depositsCount + right.accumulated.depositsCount) % U64_MODULUS
    ensures r.validatorStats
            == AccumulateValidatorStats(left.accumulated.validatorStats, right.accumulated.validatorStats)
  {
    AccumulatedData(
      AddU64(left.accumulated.balance, right.accumulated.balance),
      AddU64(left.accumulated.depositsCount, right.accumulated.depositsCount),
      AccumulateValidatorStats(left.accumulated.validatorStats, right.accumulated.validatorStats))
  }

  /** The sum does not depend on the order of the children. */
  lemma AccumulateDataCommutes(left: Node, right: Node)
    ensures AccumulateData(left, right) == AccumulateData(right, left)
  {
  }

  /** Summing three aggregates gives the same result whichever pair is summed first. */
  lemma {:induction false} AccumulateDataAssociates(a: Node, b: Node, c: Node, ab: Node, bc: Node)
    requires ab.accumulated == AccumulateData(a, b)
    requires bc.accumulated == AccumulateData(b, c)
    ensures AccumulateData(ab, c) == AccumulateData(a, bc)
  {
    AddAssociates(a.accumulated.balance, b.accumulated.balance, c.accumulated.balance);
    AddAssociates(a.accumulated.depositsCount, b.accumulated.depositsCount, c.accumulated.depositsCount);
    var sa, sb, sc := a.accumulated.validatorStats, b.accumulated.validatorStats, c.accumulated.validatorStats;
    AddAssociates(sa.nonActivatedValidatorsCount, sb.nonActivatedValidatorsCount, sc.nonActivatedValidatorsCount);
    AddAssociates(sa.activeValidatorsCount, sb.activeValidatorsCount, sc.activeValidatorsCount);
    AddAssociates(sa.exitedValidatorsCount, sb.exitedValidatorsCount, sc.exitedValidatorsCount);
  }

  lemma AddAssociates(x: u64, y: u64, z: u64)
    ensures AddU64(AddU64(x, y), z) == AddU64(x, AddU64(y, z))
  {
    WrapAdd(x + y, z);
    WrapAdd(x, y + z);
    WrapAdd(x, y);
    WrapAdd(y, z);
  }

  /** A zero aggregate is neutral for the sum. */
  lemma AccumulateDataZeroIdentity(n: Node, zero: Node)
    requires zero.accumulated == ZERO_ACCUMULATED
    ensures AccumulateData(n, zero) == n.accumulated
    ensures AccumulateData(zero, n) == n.accumulated
  {
  }

  /** The correction fires when the records meeting at the new boundary are the same counted validator. */
  predicate DoubleCounted(left: Node, right: Node) {
    PubkeysAreSameAndAreCounted(left.rightmost, right.leftmost)
  }

  /**
   * Removes the second copy of a validator summed on both sides of the new
   * boundary: its balance and the status count of each of its status bits
   * are subtracted once (unsigned 64-bit), the deposit count is kept.
   */
  function AccountForDoubleCounting(accumulatedData: AccumulatedData, left: Node, right: Node)
    : (r: AccumulatedData)
    ensures !DoubleCounted(left, right) ==> r == accumulatedData
    ensures r.depositsCount == accumulatedData.depositsCount
    ensures DoubleCounted(left, right) ==>
      var v := left.rightmost.validator;
      && AddU64(r.balance, v.balance) == accumulatedData.balance
      && AddU64(r.validatorStats.nonActivatedValidatorsCount, Bit(v.statusBits.nonActivated))
         == accumulatedData.validatorStats.nonActivatedValidatorsCount
      && AddU64(r.validatorStats.activeValidatorsCount, Bit(v.statusBits.active))
         == accumulatedData.validatorStats.activeValidatorsCount
      && AddU64(r.validatorStats.exitedValidatorsCount, Bit(v.statusBits.exited))
         == accumulatedData.validatorStats.exitedValidatorsCount
    ensures DoubleCounted(left, right) && left.rightmost.validator.balance <= accumulatedData.balance ==>
      r.balance == accumulatedData.balance - left.rightmost.validator.balance
  {
    if !PubkeysAreSameAndAreCounted(left.rightmost, right.leftmost) then accumulatedData
    else
      var v := left.rightmost.validator;
      var stats := accumulatedData.validatorStats;
      AccumulatedData(
        SubU64(accumulatedData.balance, v.balance),
        accumulatedData.depositsCount,
        ValidatorStats(
          SubU64(stats.nonActivatedValidatorsCount, Bit(v.statusBits.nonActivated)),
          SubU64(stats.activeValidatorsCount, Bit(v.statusBits.active)),
          SubU64(stats.exitedValidatorsCount, Bit(v.statusBits.exited))))
  }

  /** Both bounds of the node are padding records. */
  predicate IsZeroProof(node: Node) {
    node.leftmost.isFictional && node.rightmost.isFictional
  }

  /** The checks made before a merge, with the first one that fails. */
  function CheckSorted(left: Node, right: Node): (r: Option<MergeError>)
    ensures r == None <==> && left.rightmost.validator.pubkey <= right.leftmost.validator.pubkey
                           && (left.rightmost.depositIndex < right.leftmost.depositIndex || IsZeroProof(right))
    ensures r == Some(OrderingViolation) <==> left.rightmost.validator.pubkey > right.leftmost.validator.pubkey
  {
    if !(left.rightmost.validator.pubkey <= right.leftmost.validator.pubkey) then Some(OrderingViolation)
    else if !(left.rightmost.depositIndex < right.leftmost.depositIndex || IsZeroProof(right)) then
      Some(IndexViolation)
    else None
  }

  datatype Option<T> = None | Some(value: T)

  /** The merge as written: guarded by the two checks, with the as-written boundary flags. */
  function ComputeParent(left: Node, right: Node): (r: Result<Node>)
    ensures r.Err? <==> CheckSorted(left, right).Some?
    ensures r.Err? ==> r.error == CheckSorted(left, right).value
    ensures r.Ok? ==> && SameIdentity(r.value.leftmost, left.leftmost)
                      && SameIdentity(r.value.rightmost, right.rightmost)
                      && r.value.leftmost.counted == CalcCountedData(left, right).0
                      && r.value.rightmost.counted == r.value.leftmost.counted
    ensures r.Ok? ==> r.value.accumulated.depositsCount
                      == (left.accumulated.depositsCount + right.accumulated.depositsCount) % U64_MODULUS
    ensures r.Ok? ==> r.value.accumulated == AccountForDoubleCounting(AccumulateData(left, right), left, right)
  {
    match CheckSorted(left, right)
    case Some(e) => Err(e)
    case None =>
      var (leftBoundsData, rightBoundsData) := InheritBoundsDataFromChildren(left, right);
      var accumulatedData := AccountForDoubleCounting(AccumulateData(left, right), left, right);
      Ok(Node(leftBoundsData, rightBoundsData, accumulatedData))
  }

  /** The merge with each exposed record keeping its own recomputed flag. */
  function ComputeParentCorrected(left: Node, right: Node): (r: Result<Node>)
    ensures r.Err? <==> CheckSorted(left, right).Some?
    ensures r.Err? ==> r.error == CheckSorted(left, right).value
    ensures r.Ok? ==> && SameIdentity(r.value.leftmost, left.leftmost)
                      && SameIdentity(r.value.rightmost, right.rightmost)
                      && r.value.leftmost.counted == CalcCountedData(left, right).0
                      && r.value.rightmost.counted == CalcCountedData(left, right).1
    ensures r.Ok? ==> r.value.accumulated.depositsCount
                      == (left.accumulated.depositsCount + right.accumulated.depositsCount) % U64_MODULUS
    ensures r.Ok? ==> r.value.accumulated == AccountForDoubleCounting(AccumulateData(left, right), left, right)
  {
    match CheckSorted(left, right)
    case Some(e) => Err(e)
    case None =>
      var (leftBoundsData, rightBoundsData) := InheritBoundsDataCorrected(left, right);
      var accumulatedData := AccountForDoubleCounting(AccumulateData(left, right), left, right);
      Ok(Node(leftBoundsData, rightBoundsData, accumulatedData))
  }

  /**
   * Which flag the parent's rightmost record takes: the leftmost-side flag,
   * as `compute_parent` is written, or its own recomputed flag.
   */
  datatype BoundaryRule = AsWritten | Corrected

  /** The merge under a boundary rule; the tree builder is modelled for either. */
  function Merge(rule: BoundaryRule, left: Node, right: Node): (r: Result<Node>)
    ensures r.Err? <==> CheckSorted(left, right).Some?
    ensures r.Err? ==> r.error == CheckSorted(left, right).value
    ensures r.Ok? ==> && SameIdentity(r.value.leftmost, left.leftmost)
                      && SameIdentity(r.value.rightmost, right.rightmost)
                      && r.value.leftmost.counted == CalcCountedData(left, right).0
                      && r.value.accumulated == AccountForDoubleCounting(AccumulateData(left, right), left, right)
    ensures r.Ok? ==> r.value.rightmost.counted
                      == if rule == AsWritten then CalcCountedData(left, right).0 else CalcCountedData(left, right).1
  {
    match rule
    case AsWritten => ComputeParent(left, right)
    case Corrected => ComputeParentCorrected(left, right)
  }

  /**
   * The two rules fail on the same pairs with the same error, and their
   * parents differ at most in the rightmost record's `counted` flag.
   */
  lemma MergeRulesAgree(left: Node, right: Node)
    ensures Merge(AsWritten, left, right).Ok? == Merge(Corrected, left, right).Ok?
    ensures Merge(AsWritten, left, right).Err? ==> Merge(AsWritten, left, right) == Merge(Corrected, left, right)
    ensures Merge(AsWritten, left, right).Ok? ==>
      var w, c := Merge(AsWritten, left, right).value, Merge(Corrected, left, right).value;
      w.leftmost == c.leftmost && w.accumulated == c.accumulated
      && w.rightmost == c.rightmost.(counted := w.rightmost.counted)
  {
  }

  /**
   * The index check compares deposit indices across pubkeys, not only within
   * one: a run ordered by (pubkey, deposit index) whose second pubkey has the
   * smaller index is refused.
   */
  lemma IndexCheckSpansPubkeys()
    ensures var active := ValidatorEpochData(CURRENT_EPOCH, CURRENT_EPOCH + 1);
      var a := CreateDepositLeaf(1, 1, 10, true, active);
      var b := CreateDepositLeaf(2, 0, 10, true, active);
      a.leftmost.validator.pubkey < b.leftmost.validator.pubkey
      && ComputeParent(a, b) == Err(IndexViolation)
  {
  }

  /**
   * Merging two zero subtrees (in pubkey order) succeeds, fires no correction,
   * and yields a zero subtree, under either boundary rule.
   */
  lemma {:induction false} ZeroSubtreesMergeToZero(left: Node, right: Node)
    requires ZeroSubtree(left) && ZeroSubtree(right)
    requires left.rightmost.validator.pubkey <= right.leftmost.validator.pubkey
    ensures !DoubleCounted(left, right)
    ensures ComputeParent(left, right).Ok? && ZeroSubtree(ComputeParent(left, right).value)
    ensures ComputeParentCorrected(left, right).Ok? && ZeroSubtree(ComputeParentCorrected(left, right).value)
  {
    assert CheckSorted(left, right) == None;
    assert AccumulateData(left, right) == ZERO_ACCUMULATED;
  }

  /**
   * Two counted deposits of one active validator with balance 10 merge to a
   * balance of 10 and one active validator, not 20 and two.
   */
  lemma AdjacentDuplicateCountedOnce()
    ensures var active := ValidatorEpochData(CURRENT_EPOCH, CURRENT_EPOCH + 1);
      var a := CreateDepositLeaf(7, 3, 10, true, active);
      var b := CreateDepositLeaf(7, 4, 10, true, active);
      && ComputeParent(a, b).Ok?
      && ComputeParent(a, b).value.accumulated == AccumulatedData(10, 2, ValidatorStats(0, 1, 0))
      && ComputeParentCorrected(a, b) == ComputeParent(a, b)
  {
  }
}
