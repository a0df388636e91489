# Deposits accumulator, modelled in Dafny

The reference implementation summarizes a list of validator deposits with a
binary tree built bottom-up. Each leaf is one deposit, or one fictional
padding record that makes the leaf count a power of two. Each inner node
summarizes a run of adjacent leaves:

- its leftmost and rightmost boundary records;
- the total balance;
- the number of deposits;
- the number of non-activated, active and exited validators.

A validator may have several deposits. Its balance and status must be
counted once, and only if at least one of its deposits is "counted". A
deposit is counted when its signature is valid and its index is at most
`ETH1_DATA_DEPOSIT_COUNT`. The leaves are sorted by pubkey, so two deposits
of one validator can only meet at the boundary a merge creates. The merge:

1. recomputes the `counted` flags of the two records it exposes;
2. sums the children's aggregates;
3. subtracts the validator once when the records meeting at the boundary are
   the same counted validator.

The project has six modules:

- `Types` (`types.dfy`): the records and the configuration constants. The
  C++ `uint64_t` is the subset type `u64`, and the wrap-around additions and
  subtractions are written out.
- `FirstLevel` (`first_level.dfy`): building leaves from deposits and padding
  (`first_level.h`).
- `InnerLevel` (`inner_level.dfy`): the merge of two nodes (`inner_level.h`).
  It is modelled as written, and also in a corrected form (see Findings).
- `Util` (`util.dfy`): the imperative tree builder and the two helpers that
  append leaves to a caller's vector (`util.h`). The builder's loops are
  proved to compute the recursive `BuildLevels`. The vector is a class whose
  `PushBack` updates it in place. The builder takes a `BoundaryRule`:
  - `AsWritten` merges with `compute_parent` as written, so
    `BuildBinaryTree(AsWritten, leaves)` is the program.
  - `Corrected` merges with the corrected merge (see Findings).

  The shape, level-size, node, first-error and deposit-count lemmas hold for
  both rules.
- `Dedup` (`dedup.dfy`): a reference definition of what the tree must
  compute, and the proof that the builder computes it under the corrected
  rule.
  - Over a run of leaves, every real deposit counts once.
  - Every validator with a counted deposit contributes its balance and
    status once.
  - `RootIsDeduplicatedTotal` proves the root of the corrected build holds
    exactly these totals, reduced to 64 bits. It needs sorted,
    validator-consistent, well-formed leaves of power-of-two count.
  - The program's build does not always reach these totals (see Findings).
- `Findings` (`findings.dfy`): a four-leaf input on which the merge as written
  loses a validator, and the same input under the corrected merge.

Where the code and the design description disagree, the model follows the
code:

- A padding leaf has `deposits_count` 0, not 1 (first_level.h:59). The root's
  deposit count is therefore the number of real leaves, not the number of
  leaves.
- The subtractions of the double-counting correction are unsigned and can
  wrap. The model writes out the wrap-around; it does not assume the
  subtractions never go below zero.
- The exposed rightmost record takes the leftmost-side flag
  (inner_level.h:47), not the symmetric rule. See Findings.
- The comment at inner_level.h:96 asks for leaves sorted by (pubkey, deposit
  index). The index check at inner_level.h:98 is stronger: it requires deposit
  indices to increase across the whole run, across pubkeys too. For example,
  (pubkey 1, index 1) followed by (pubkey 2, index 0) is refused
  (`InnerLevel.IndexCheckSpansPubkeys`). The model's `SortedLeaves` follows the
  check.

`compute_parent`'s two `assert`s (inner_level.h:97-98) become an error
result, `Err(OrderingViolation)` or `Err(IndexViolation)`, checked in that
order. A failing merge makes the whole build fail.

## Model

| member | source | states |
|---|---|---|
| Types.AddU64 | inner_level.h:85-86 | a 64-bit sum is the mathematical sum reduced mod 2^64, and is exact when it fits |
| Types.SubU64 | inner_level.h:58-62 | a 64-bit difference wraps below zero; adding the subtrahend back gives the minuend, and it is exact when there is no underflow |
| Types.Bit | inner_level.h:60-62 | a status bit read as a count is 1 exactly when the bit is set, else 0 |
| FirstLevel.StatusIsExclusive | first_level.h:8-10 | if activation epoch <= exit epoch, exactly one status count is 1, and each is 1 exactly under its own epoch condition |
| FirstLevel.StatusBitsOf | first_level.h:12-15 | the three status bits read back as the three status counts they were set from |
| FirstLevel.LeafAccumulated | first_level.h:31-41 | a leaf's aggregate has deposit count 1 for a real record and 0 for padding; balance and status only when counted, zero otherwise |
| FirstLevel.CreateDepositLeaf | first_level.h:7-48 | well-formed leaf with leftmost == rightmost; keeps pubkey, balance and index; never fictional; counted iff signature valid and index <= 16; status bits match the epoch classification; aggregate is (balance, 1, status) when counted, else (0, 1, zero) |
| FirstLevel.CreateFictionalLeaf | first_level.h:50-61 | padding leaf: pubkey FIELD_ORDER - 1, zero balance, index and status; fictional and uncounted; all-zero aggregate, deposit count included |
| FirstLevel.CreateLeafNode | first_level.h:63-74 | the padding leaf whatever the other arguments when `isFictional`, otherwise the deposit leaf; always well-formed |
| InnerLevel.PubkeysAreSameAndAreCounted | inner_level.h:11-15 | true iff both records are counted and have the same pubkey, stated from either record's side |
| InnerLevel.InheritBoundsDataFromChildren | inner_level.h:34-52 | as written: the leftmost and rightmost identities come from left.leftmost and right.rightmost, and BOTH flags equal the leftmost-side recomputed flag |
| InnerLevel.InheritBoundsDataCorrected | inner_level.h:34-52 | same identities; each exposed record takes its own side's recomputed flag, so a counted boundary stays counted |
| InnerLevel.AccumulateValidatorStats | inner_level.h:75-81 | each status count is the sum of the children's counts mod 2^64 |
| InnerLevel.AccumulateData | inner_level.h:83-89 | balance and deposit count are the children's sums mod 2^64; stats are the fieldwise stats sum |
| InnerLevel.AccumulateDataCommutes | inner_level.h:83-89 | the sum does not depend on the order of the children |
| InnerLevel.AccumulateDataAssociates | inner_level.h:83-89 | summing three aggregates gives the same result in either grouping |
| InnerLevel.AccumulateDataZeroIdentity | inner_level.h:83-89 | an all-zero aggregate is neutral on both sides |
| InnerLevel.AccountForDoubleCounting | inner_level.h:55-73 | unchanged unless left.rightmost and right.leftmost are the same counted pubkey; deposit count never changes; when it fires, adding that validator's balance and status bits back (mod 2^64) restores each input component, and the balance is the exact difference when it does not underflow |
| InnerLevel.AdjacentDuplicateCountedOnce | inner_level.h:55-73 | two counted deposits of one active validator with balance 10 merge to balance 10, two deposits and one active validator |
| InnerLevel.CheckSorted | inner_level.h:91-98 | no error iff left.rightmost.pubkey <= right.leftmost.pubkey and (left.rightmost index < right.leftmost index or both bounds of `right` fictional); the ordering error takes precedence |
| InnerLevel.ComputeParent | inner_level.h:95-108 | as written: Err exactly when a check fails, with that check's error; otherwise identities from the outer records, both flags equal to the recomputed leftmost flag, deposit count summed mod 2^64, aggregate the corrected sum of the children |
| InnerLevel.ComputeParentCorrected | inner_level.h:95-108 | same checks; each exposed flag is its recomputed flag; aggregate is the corrected sum of the children |
| InnerLevel.Merge | inner_level.h:95-108 | either rule: Err exactly when a check fails, with its error; otherwise outer identities, recomputed leftmost flag, corrected aggregate; rightmost flag is the leftmost-side flag as written, its own when corrected |
| InnerLevel.MergeRulesAgree | inner_level.h:44-49 | the two rules fail on the same pairs with the same error, and their parents differ at most in the rightmost `counted` flag |
| InnerLevel.IndexCheckSpansPubkeys | inner_level.h:96-98 | a pair ordered by (pubkey, index) whose second pubkey has the smaller index is refused with the index error |
| InnerLevel.ZeroSubtreesMergeToZero | inner_level.h:91-108 | two zero subtrees in pubkey order merge without error or correction into a zero subtree, under either merge |
| Util.NextLevel | util.h:15-21 | under either rule, a successful level above has half as many nodes |
| Util.NextLevelNodes | util.h:17-21 | under either rule (AsWritten calls `compute_parent` as util.h:20 does), node i of a level that builds is the merge of nodes 2i and 2i+1 below |
| Util.NextLevelMerges | util.h:17-21 | under either rule, a level builds iff every pair merges, and node i is then the merge of nodes 2i and 2i+1 |
| Util.NextLevelFailsAtFirstError | util.h:17-21 | under either rule, a failing level reports the error of its leftmost failing pair, and all pairs before it merge |
| Util.BuildLevelsShape | util.h:8-26 | under either rule, for N leaves: log2(N) + 1 levels, level 0 is the leaves unchanged, the last level is one root, and each level is the one above its predecessor |
| Util.LevelSizes | util.h:8-26 | under either rule, level j of a successful build has N / 2^j nodes |
| Util.BuildLevel | util.h:15-21 | the pair loop returns exactly the level above under the given rule (or the first merge error) |
| Util.BuildBinaryTree | util.h:8-26 | the level loop returns exactly BuildLevels of the leaves under the given rule; with AsWritten this is the program |
| Util.DepositRun | util.h:36-40 | the i-th appended leaf is a real, well-formed leaf with index start + i, the given pubkey, balance and status, counted iff signature bit i is set and the index is <= 16 |
| Util.NodeVector.PushBack | util.h:39 | appends one node and changes nothing else |
| Util.PushDepositsWithPubkey | util.h:28-41 | the vector becomes its old contents followed by exactly the DepositRun leaves |
| Util.PushFictionalDeposits | util.h:43-49 | the vector becomes its old contents followed by exactly `count` padding leaves |
| Dedup.ComponentOfSum | inner_level.h:83-89 | each component of a merged aggregate is the 64-bit sum of the children's |
| Dedup.ComponentOfCorrection | inner_level.h:55-73 | the correction subtracts the boundary validator's share of each component, and nothing when it does not fire |
| Dedup.RangeConcat | inner_level.h:55-62 | over sorted, consistent leaves, the reference total of two adjacent runs plus the seam validator counted in both equals the sum of the runs' totals |
| Dedup.LeafCovers | first_level.h:31-46 | a well-formed leaf summarizes its one-leaf run |
| Dedup.LeftmostFlagCovers | inner_level.h:21-24 | the recomputed leftmost flag is set iff its pubkey is counted somewhere in the joined run |
| Dedup.RightmostFlagCovers | inner_level.h:26-29 | the recomputed rightmost flag is set iff its pubkey is counted somewhere in the joined run |
| Dedup.CorrectedComponent | inner_level.h:55-89 | if the children hold l and r mod 2^64, and l + r exceeds a total by exactly the seam validator's share when the correction fires (by nothing otherwise), the corrected sum holds that total mod 2^64 |
| Dedup.DoubleCountedAtSeam | inner_level.h:11-15 | for summaries of adjacent runs, the correction fires iff the leaves on either side of the seam share a pubkey counted in both runs |
| Dedup.ParentComponentCovers | inner_level.h:55-89 | each component of the merged, corrected aggregate is the reference total of the joined run mod 2^64 |
| Dedup.ParentCovers | inner_level.h:95-108 | under the corrected rule, merging summaries of adjacent runs of sorted, consistent leaves passes both checks and summarizes the joined run |
| Dedup.LeavesCoverThemselves | first_level.h:43-46 | well-formed leaves, taken as level 0, summarize their one-leaf runs |
| Dedup.NextLevelCovers | util.h:17-21 | under the corrected rule, a level summarizing runs of width w builds into one summarizing runs of width 2w |
| Dedup.BuildCovers | util.h:12-23 | under the corrected rule, a summarizing power-of-two level builds without error to a root summarizing every leaf |
| Dedup.RootIsDeduplicatedTotal | util.h:8-26 | the corrected build: for sorted, consistent, well-formed power-of-two leaves, the build succeeds; the root's aggregate is one deposit per real leaf plus, once per validator with a counted deposit, its balance and status (mod 2^64); its bounds are the first and last leaves, each counted iff its validator is counted |
| Dedup.NextLevelKeepsDeposits | util.h:17-21 | under either rule, a merged level keeps the sum of the deposit counts (mod 2^64): merges never deduplicate deposits |
| Dedup.RootKeepsAllDeposits | util.h:8-26 | under either rule, for any leaves that build, the root's deposit count is the sum of the leaves' (mod 2^64) |
| Dedup.PaddingKeepsRunValid | first_level.h:50-61 | appending padding leaves (pubkey FIELD_ORDER - 1) to a sorted, consistent, well-formed run of real leaves with smaller pubkeys keeps it sorted, consistent and well-formed |
| Dedup.DepositsSumCountsRealLeaves | first_level.h:34-59 | the deposit counts of well-formed leaves add up to the number of real leaves |
| Dedup.RootCountsRealDeposits | util.h:8-26 | under either rule, for well-formed leaves that build, in any order, the root's deposit count is the number of real leaves (mod 2^64) |
| Findings.AsWrittenMergeLosesValidator | inner_level.h:44-49 | on the sample run, the as-written pair merge marks pubkey 2 counted although no leaf of the pair counts it; the program's build (AsWritten) has a root with balance 20 and 2 active validators, which differs from the reference totals |
| Findings.SampleBuilds | util.h:8-26 | the sample builds to three levels under either rule; root (20, 4, 2 active) as written, (30, 4, 3 active) corrected |
| Findings.CorrectedMergeCountsEveryValidator | inner_level.h:44-49 | on the same run, the corrected build's root has balance 30 and 3 active validators, which equals the reference totals |

## Left out

- main.cpp, the driver that prints the tree, and `debug_print_node` (types.h:54-66): console output only. The driver's 32-leaf input is not evaluated as a concrete lemma. For the corrected build, `RootIsDeduplicatedTotal` covers such input. The program's build on it is not evaluated. `Findings` evaluates a smaller run under both rules.
- The `Data`/`Node` structs of types.h:41-52 are stale. The records follow how first_level.h and inner_level.h use them.
- The process abort of a failed `assert` becomes an `Err` result. The message text is not modelled.
- Util.BuildBinaryTree: the input must have power-of-two length (`requires`). The source reads out of range on an odd level above 1 and loops forever on an empty input; neither behaviour is modelled.
- Util.PushDepositsWithPubkey: the signature bitmask is a sequence rather than a fixed-size array. The model requires that the new indices fit in 64 bits (`size_t`).
- Util.PushFictionalDeposits: the source's unused `deposit_index` local is not modelled.
- Util.NodeVector: only the appends the helpers make are modelled. Reallocation and aliasing of the C++ vector are not.
- Dedup.RootIsDeduplicatedTotal: this is the exactly-once result. It assumes sorted input with one validator record per pubkey, which an external loader guarantees. Unsorted input is covered only by the `Err` results of the merge checks. The result is proved for the corrected rule only, because the program's rule does not meet it (Findings). For the program's build the model proves the shape, the failure behaviour and the deposit count.

## Findings

| source | as written | input that shows it | evidently intended | confidence | as-written member | corrected member |
|---|---|---|---|---|---|---|
| inner_level.h:47 | the parent's rightmost record takes `left_counted_data`, the flag recomputed for the leftmost record; the `right_counted_data` of lines 26-29 is discarded | four deposit leaves, each with balance 10, all active: (pubkey 1, index 0, valid), (pubkey 2, index 1, invalid signature), (pubkey 2, index 2, valid), (pubkey 3, index 3, valid). The first pair's rightmost (pubkey 2) is marked counted because pubkey 1 is; the root merge then subtracts pubkey 2, giving balance 20 and 2 active validators instead of 30 and 3 | `.counted = right_counted_data`, so each exposed record keeps its own recomputed flag | high (proved in Dafny, not executed) | Findings.AsWrittenMergeLosesValidator | Findings.CorrectedMergeCountsEveryValidator |
