/**
 * A concrete run of four deposits on which the merge as written loses a
 * validator, and the same run under the corrected merge.
 *
 * Pubkey 2 has two deposits: the first with an invalid signature, the second
 * counted. Merging the first pair as written marks the pair's rightmost
 * record (pubkey 2) as counted, because it copies the leftmost record's flag
 * (pubkey 1). The next merge then takes pubkey 2 for a validator counted on
 * both sides of the seam and subtracts it, although the left side never
 * counted it.
 */
module Findings {
  import opened Types
  import opened FirstLevel
  import opened InnerLevel
  import opened Util
  import opened Dedup

  /** A validator active at CURRENT_EPOCH. */
  const ACTIVE: ValidatorEpochData := ValidatorEpochData(0, FAR_AWAY_EPOCH)

  /** Pubkey 1 counted; pubkey 2 first with an invalid signature, then counted; pubkey 3 counted. */
  function SampleLeaves(): (leaves: seq<Node>)
    ensures |leaves| == 4 && WellFormedLeaves(leaves)
  {
    [CreateDepositLeaf(1, 0, 10, true, ACTIVE),
     CreateDepositLeaf(2, 1, 10, false, ACTIVE),
     CreateDepositLeaf(2, 2, 10, true, ACTIVE),
     CreateDepositLeaf(3, 3, 10, true, ACTIVE)]
  }

  /**
   * As written: the left pair claims pubkey 2 is counted although no leaf of
   * the pair counts it, and the program's build reports at the root a
   * balance of 20 and two active validators for three counted validators of
   * balance 10, which is not the reference total of the run.
   */
  lemma AsWrittenMergeLosesValidator()
    ensures var s := SampleLeaves();
      && ComputeParent(s[0], s[1]).Ok?
      && ComputeParent(s[0], s[1]).value.rightmost.validator.pubkey == 2
      && ComputeParent(s[0], s[1]).value.rightmost.counted
      && !CountedIn(s, 0, 2, 2)
    ensures var s := SampleLeaves();
      && IsPowerOfTwo(|s|)
      && BuildLevels(AsWritten, s).Ok?
      && var levels := BuildLevels(AsWritten, s).value;
      && |levels| == 3 && |levels[2]| == 1
      && levels[2][0].accumulated == AccumulatedData(20, 4, ValidatorStats(0, 2, 0))
      && levels[2][0].accumulated != ExpectedAccumulated(s)
  {
    var s := SampleLeaves();
    assert !CountedIn(s, 0, 2, 2) by {
      assert !s[1].leftmost.counted;
    }
    SampleBuilds(AsWritten);
    CorrectedMergeCountsEveryValidator();
  }

  /** The builder's level above a pair whose merge succeeds is that one parent. */
  lemma NextLevelOfPair(rule: BoundaryRule, level: seq<Node>)
    requires |level| == 2 && Merge(rule, level[0], level[1]).Ok?
    ensures NextLevel(rule, level) == Ok([Merge(rule, level[0], level[1]).value])
  {
    var parent := Merge(rule, level[0], level[1]).value;
    assert NextLevel(rule, level[2..]) == Ok([]);
    assert [parent] + [] == [parent];
  }

  /** The sample is sorted by pubkey, with increasing deposit indices, and one validator per pubkey. */
  lemma SampleIsValidRun()
    ensures ValidRun(SampleLeaves()) && IsPowerOfTwo(|SampleLeaves()|)
  {
    var s := SampleLeaves();
    assert IsPowerOfTwo(2);
    var v1, v2, v3 := s[0].leftmost, s[1].leftmost, s[3].leftmost;
    assert v1.validator.pubkey == 1 && v1.depositIndex == 0 && !v1.isFictional;
    assert v2.validator.pubkey == 2 && v2.depositIndex == 1 && !v2.isFictional;
    assert s[2].leftmost.validator == v2.validator && s[2].leftmost.depositIndex == 2 && !s[2].leftmost.isFictional;
    assert v3.validator.pubkey == 3 && v3.depositIndex == 3 && !v3.isFictional;
    assert SortedLeaves(s);
    assert ConsistentValidators(s);
  }

  /**
   * The sample builds to three levels under either rule; the root holds a
   * balance of 20 and two active validators as written, 30 and three when
   * corrected.
   */
  lemma SampleBuilds(rule: BoundaryRule)
    ensures var s := SampleLeaves();
      && IsPowerOfTwo(|s|)
      && BuildLevels(rule, s).Ok?
      && var levels := BuildLevels(rule, s).value;
      && |levels| == 3 && |levels[2]| == 1
      && levels[2][0].accumulated
         == if rule == AsWritten then AccumulatedData(20, 4, ValidatorStats(0, 2, 0))
            else AccumulatedData(30, 4, ValidatorStats(0, 3, 0))
  {
    var s := SampleLeaves();
    var left := Merge(rule, s[0], s[1]);
    var right := Merge(rule, s[2], s[3]);
    assert left.Ok? && left.value.rightmost.counted == (rule == AsWritten);
    assert right.Ok?;
    var tail := s[2..];
    assert tail[0] == s[2] && tail[1] == s[3];
    NextLevelOfPair(rule, tail);
    assert NextLevel(rule, s) == Ok([left.value] + [right.value]);
    assert [left.value] + [right.value] == [left.value, right.value];
    var root := Merge(rule, left.value, right.value);
    assert root.Ok?;
    assert root.value.accumulated
        == if rule == AsWritten then AccumulatedData(20, 4, ValidatorStats(0, 2, 0))
           else AccumulatedData(30, 4, ValidatorStats(0, 3, 0));
    NextLevelOfPair(rule, [left.value, right.value]);
    assert IsPowerOfTwo(|s|) && IsPowerOfTwo(2);
    var top := [root.value];
    assert BuildLevels(rule, top) == Ok([top]);
    assert BuildLevels(rule, [left.value, right.value]) == Ok([[left.value, right.value]] + [top]);
    assert BuildLevels(rule, s) == Ok([s] + ([[left.value, right.value]] + [top]));
  }

  /**
   * Corrected: the same run builds to a root holding a balance of 30 and
   * three active validators, which is the reference total of the run.
   */
  lemma CorrectedMergeCountsEveryValidator()
    ensures var s := SampleLeaves();
      && IsPowerOfTwo(|s|)
      && BuildLevels(Corrected, s).Ok?
      && var levels := BuildLevels(Corrected, s).value;
      && |levels| == 3 && |levels[2]| == 1
      && levels[2][0].accumulated == AccumulatedData(30, 4, ValidatorStats(0, 3, 0))
      && levels[2][0].accumulated == ExpectedAccumulated(s)
  {
    SampleIsValidRun();
    SampleBuilds(Corrected);
    RootIsDeduplicatedTotal(SampleLeaves());
  }
}
