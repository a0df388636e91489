/**
 * Leaf construction: turning one deposit (or one padding slot) into a tree leaf.
 */
module FirstLevel {
  import opened Types

  /** Converts a status set to the status counts it stands for. */
  function StatsOf(bits: StatusBits): (stats: ValidatorStats)
    ensures stats.nonActivatedValidatorsCount + stats.activeValidatorsCount + stats.exitedValidatorsCount
            == Bit(bits.nonActivated) + Bit(bits.active) + Bit(bits.exited)
  {
    ValidatorStats(Bit(bits.nonActivated), Bit(bits.active), Bit(bits.exited))
  }

  /** The aggregate a well-formed leaf carries for its boundary record. */
  function LeafAccumulated(b: BoundsData): (acc: AccumulatedData)
    ensures acc.depositsCount == (if b.isFictional then 0 else 1)
    ensures !b.counted ==> acc.balance == 0 && acc.validatorStats == ZERO_STATS
    ensures b.counted ==> acc.balance == b.validator.balance && acc.validatorStats == StatsOf(b.validator.statusBits)
  {
    AccumulatedData(
      if b.counted then b.validator.balance else 0,
      if b.isFictional then 0 else 1,
      if b.counted then StatsOf(b.validator.statusBits) else ZERO_STATS)
  }

  /**
   * What every leaf satisfies: one record serves as both bounds, a fictional
   * record is never counted, and the aggregate is the record's own
   * contribution (its deposit, and its balance and status only when counted).
   */
  predicate WellFormedLeaf(n: Node) {
    && n.leftmost == n.rightmost
    && (n.leftmost.isFictional ==> !n.leftmost.counted)
    && n.accumulated == LeafAccumulated(n.leftmost)
  }

  /** A node whose bounds are both fictional, both uncounted, and whose aggregate is zero. */
  predicate ZeroSubtree(n: Node) {
    && n.leftmost.isFictional && n.rightmost.isFictional
    && !n.leftmost.counted && !n.rightmost.counted
    && n.accumulated == ZERO_ACCUMULATED
  }

  /** Classification of a validator against CURRENT_EPOCH, one count per status. */
  function StatusCounts(epochData: ValidatorEpochData): (stats: ValidatorStats)
  {
    ValidatorStats(
      if CURRENT_EPOCH < epochData.activationEpoch then 1 else 0,
      if CURRENT_EPOCH >= epochData.activationEpoch && CURRENT_EPOCH < epochData.exitEpoch then 1 else 0,
      if CURRENT_EPOCH >= epochData.exitEpoch then 1 else 0)
  }

  /** A validator with a proper epoch window has exactly one status at CURRENT_EPOCH. */
  lemma StatusIsExclusive(epochData: ValidatorEpochData)
    requires epochData.activationEpoch <= epochData.exitEpoch
    ensures var s := StatusCounts(epochData);
      s.nonActivatedValidatorsCount + s.activeValidatorsCount + s.exitedValidatorsCount == 1
    ensures var s := StatusCounts(epochData);
      && (s.nonActivatedValidatorsCount == 1 <==> CURRENT_EPOCH < epochData.activationEpoch)
      && (s.activeValidatorsCount == 1 <==> epochData.activationEpoch <= CURRENT_EPOCH < epochData.exitEpoch)
      && (s.exitedValidatorsCount == 1 <==> epochData.exitEpoch <= CURRENT_EPOCH)
  {
  }

  /** Setting each bit of a fresh three-bit set from the matching count. */
  function StatusBitsOf(stats: ValidatorStats): (bits: StatusBits)
    requires stats.nonActivatedValidatorsCount <= 1 && stats.activeValidatorsCount <= 1
    requires stats.exitedValidatorsCount <= 1
    ensures StatsOf(bits) == stats
  {
    StatusBits(
      stats.nonActivatedValidatorsCount != 0,
      stats.activeValidatorsCount != 0,
      stats.exitedValidatorsCount != 0)
  }

  /**
   * A leaf for a real deposit. It is counted exactly when its signature is
   * valid and its index is at most ETH1_DATA_DEPOSIT_COUNT; it always counts
   * as one deposit, and contributes its balance and status only when counted.
   */
  function CreateDepositLeaf(
    pubkey: Pubkey,
    depositIndex: u64,
    balance: u64,
    signatureIsValid: bool,
    epochData: ValidatorEpochData
  ): (n: Node)
    ensures WellFormedLeaf(n)
    ensures n.leftmost.validator.pubkey == pubkey && n.leftmost.validator.balance == balance
    ensures n.leftmost.depositIndex == depositIndex && !n.leftmost.isFictional
    ensures n.leftmost.counted <==> signatureIsValid && depositIndex <= ETH1_DATA_DEPOSIT_COUNT
    ensures StatsOf(n.leftmost.validator.statusBits) == StatusCounts(epochData)
    ensures n.accumulated.depositsCount == 1
    ensures n.leftmost.counted ==> n.accumulated == AccumulatedData(balance, 1, StatusCounts(epochData))
    ensures !n.leftmost.counted ==> n.accumulated == AccumulatedData(0, 1, ZERO_STATS)
  {
    var stats := StatusCounts(epochData);
    var statusBits := StatusBitsOf(stats);
    var depositIsProcessed := ETH1_DATA_DEPOSIT_COUNT >= depositIndex;
    var validatorIsDefinitelyInChain := signatureIsValid && depositIsProcessed;
    var boundsData := BoundsData(
      ValidatorData(pubkey, balance, statusBits),
      depositIndex,
      validatorIsDefinitelyInChain,
      false);
    var accumulated :=
      if validatorIsDefinitelyInChain then AccumulatedData(balance, 1, stats)
      else AccumulatedData(0, 1, ZERO_STATS);
    Node(boundsData, boundsData, accumulated)
  }

  /** The pubkey of a padding leaf. */
  const FICTIONAL_PUBKEY: Pubkey := FIELD_ORDER - 1

  /**
   * A padding leaf: a fictional, never-counted record under the sentinel
   * pubkey FIELD_ORDER - 1, with every other field zero and a zero aggregate
   * (it does not even count as a deposit).
   */
  function CreateFictionalLeaf(): (n: Node)
    ensures WellFormedLeaf(n) && ZeroSubtree(n)
    ensures n.leftmost.validator == ValidatorData(FICTIONAL_PUBKEY, 0, NO_STATUS)
    ensures n.leftmost.depositIndex == 0
    ensures n.accumulated.depositsCount == 0
  {
    var boundsData := BoundsData(ValidatorData(FIELD_ORDER - 1, 0, NO_STATUS), 0, false, true);
    Node(boundsData, boundsData, ZERO_ACCUMULATED)
  }

  /** Either kind of leaf; a padding leaf ignores all the deposit arguments. */
  function CreateLeafNode(
    pubkey: Pubkey,
    depositIndex: u64,
    balance: u64,
    signatureIsValid: bool,
    epochData: ValidatorEpochData,
    isFictional: bool
  ): (n: Node)
    ensures WellFormedLeaf(n)
    ensures n.leftmost.isFictional == isFictional
    ensures isFictional ==> n == CreateFictionalLeaf()
    ensures !isFictional ==> n == CreateDepositLeaf(pubkey, depositIndex, balance, signatureIsValid, epochData)
  {
    if isFictional then CreateFictionalLeaf()
    else CreateDepositLeaf(pubkey, depositIndex, balance, signatureIsValid, epochData)
  }
}
