/**
 * Value types shared by the leaf constructor, the merge and the tree builder,
 * together with the configuration constants and the unsigned 64-bit
 * arithmetic the merge performs.
 *
 * The record shapes follow how the leaf constructor and the merge use them
 * (a boundary record with `counted` and `is_fictional` flags, an aggregate
 * with balance, deposit count and status counts), not the older `Data`
 * struct that types.h still declares.
 */
module Types {

  /** Number of distinct values of a C++ `uint64_t`. */
  const U64_MODULUS: int := 0x1_0000_0000_0000_0000

  /** A C++ `uint64_t` (also used for `size_t` indices). */
  type u64 = x: int | 0 <= x < U64_MODULUS

  type Pubkey = u64

  /** The reference epoch every deposit is classified against. */
  const CURRENT_EPOCH: u64 := 100
  /** Highest deposit index already processed at the reference checkpoint (inclusive bound). */
  const ETH1_DATA_DEPOSIT_COUNT: u64 := 16
  /** `-1` converted to an unsigned 64-bit value. */
  const FAR_AWAY_EPOCH: u64 := U64_MODULUS - 1
  const FIELD_ORDER: u64 := 0xffff_ffff_0000_0001

  datatype ValidatorEpochData = ValidatorEpochData(activationEpoch: u64, exitEpoch: u64)

  /** The three status counts of an aggregate. */
  datatype ValidatorStats = ValidatorStats(
    nonActivatedValidatorsCount: u64,
    activeValidatorsCount: u64,
    exitedValidatorsCount: u64)

  /** The three-bit status set of one validator, one named field per bit. */
  datatype StatusBits = StatusBits(nonActivated: bool, active: bool, exited: bool)

  datatype ValidatorData = ValidatorData(pubkey: Pubkey, balance: u64, statusBits: StatusBits)

  /** A boundary (leftmost or rightmost) deposit record of a node. */
  datatype BoundsData = BoundsData(
    validator: ValidatorData,
    depositIndex: u64,
    counted: bool,
    isFictional: bool)

  datatype AccumulatedData = AccumulatedData(
    balance: u64,
    depositsCount: u64,
    validatorStats: ValidatorStats)

  datatype Node = Node(leftmost: BoundsData, rightmost: BoundsData, accumulated: AccumulatedData)

  const ZERO_STATS: ValidatorStats := ValidatorStats(0, 0, 0)
  const NO_STATUS: StatusBits := StatusBits(false, false, false)
  const ZERO_ACCUMULATED: AccumulatedData := AccumulatedData(0, 0, ZERO_STATS)

  /** Reading one bit of a status set as a count, as `status_bits[k]` does when subtracted. */
  function Bit(b: bool): (r: u64)
    ensures r <= 1 && (r == 1 <==> b)
  {
    if b then 1 else 0
  }

  /** Unsigned 64-bit addition: the mathematical sum reduced modulo 2^64. */
  function AddU64(a: u64, b: u64): (r: u64)
    ensures r == (a + b) % U64_MODULUS
    ensures a + b < U64_MODULUS ==> r == a + b
  {
    if a + b < U64_MODULUS then a + b else a + b - U64_MODULUS
  }

  /** Unsigned 64-bit subtraction: wraps around below zero. */
  function SubU64(a: u64, b: u64): (r: u64)
    ensures r == (a - b) % U64_MODULUS
    ensures AddU64(r, b) == a
    ensures b <= a ==> r == a - b
  {
    if b <= a then a - b else a - b + U64_MODULUS
  }

  /** Reduction of an unbounded count to its unsigned 64-bit value. */
  function Wrap(x: nat): (r: u64)
    ensures x < U64_MODULUS ==> r == x
  {
    x % U64_MODULUS
  }

  /** Adding wrapped values is wrapping the sum. */
  lemma WrapAdd(x: nat, y: nat)
    ensures AddU64(Wrap(x), Wrap(y)) == Wrap(x + y)
  {
    var qx, qy := x / U64_MODULUS, y / U64_MODULUS;
    assert x == qx * U64_MODULUS + Wrap(x);
    assert y == qy * U64_MODULUS + Wrap(y);
    var s := Wrap(x) + Wrap(y);
    if s < U64_MODULUS {
      assert x + y == (qx + qy) * U64_MODULUS + s;
    } else {
      assert x + y == (qx + qy + 1) * U64_MODULUS + (s - U64_MODULUS);
    }
  }

  /** Subtracting a part from a wrapped total is wrapping the difference. */
  lemma WrapSub(x: nat, y: u64)
    requires y <= x
    ensures SubU64(Wrap(x), y) == Wrap(x - y)
  {
    var q := x / U64_MODULUS;
    assert x == q * U64_MODULUS + Wrap(x);
    if y <= Wrap(x) {
      assert x - y == q * U64_MODULUS + (Wrap(x) - y);
    } else {
      assert q >= 1;
      assert x - y == (q - 1) * U64_MODULUS + (Wrap(x) - y + U64_MODULUS);
    }
  }
}
