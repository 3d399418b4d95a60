/**
  * Fee arithmetic: the base fee of EIP-1559 (`crates/core/types/block.rs`) and the approximated exponential behind the blob
  * fee of EIP-4844 (the same file, and `crates/levm/src/block.rs` with a wider type).
  */
module Fees {
  import opened Prelude

  const ELASTICITY_MULTIPLIER: nat := 2
  const BASE_FEE_MAX_CHANGE_DENOMINATOR: nat := 8
  const GAS_LIMIT_ADJUSTMENT_FACTOR: nat := 1024
  const GAS_LIMIT_MINIMUM: nat := 5000
  const U64_LIMIT: nat := USIZE_LIMIT
  const U128_LIMIT: nat := 0x1_0000000000000000_0000000000000000

  // ---------------------------------------------------------------------------------------------
  // Base fee
  // ---------------------------------------------------------------------------------------------

  /** The result of 64-bit arithmetic, which panics when a value does not fit. */
  datatype Checked<+T> = Fine(value: T) | Overflow

  /** What the gas limit check computes without regard to overflow. */
  predicate CheckGasLimit(gasLimit: nat, parentGasLimit: nat) {
    var delta := parentGasLimit / GAS_LIMIT_ADJUSTMENT_FACTOR;
    gasLimit < parentGasLimit + delta && gasLimit > parentGasLimit - delta && gasLimit >= GAS_LIMIT_MINIMUM
  }

  /** A gas limit that passes the check has a parent with a positive target: no division by zero follows. */
  lemma TargetIsPositive(gasLimit: nat, parentGasLimit: nat)
    requires CheckGasLimit(gasLimit, parentGasLimit)
    ensures parentGasLimit / ELASTICITY_MULTIPLIER >= 2498
  {
  }

  /** The base fee over unbounded integers, as in EIP-1559. */
  function BaseFee(gasLimit: nat, parentGasLimit: nat, parentGasUsed: nat, parentFee: nat): (r: Option<nat>)
  {
    if !CheckGasLimit(gasLimit, parentGasLimit) then None
    else
      var target := parentGasLimit / ELASTICITY_MULTIPLIER;
      TargetIsPositive(gasLimit, parentGasLimit);
      if parentGasUsed == target then Some(parentFee)
      else if parentGasUsed > target then
        var change := Change(parentFee, parentGasUsed - target, target);
        Some(parentFee + if change > 1 then change else 1)
      else
        var change := Change(parentFee, target - parentGasUsed, target);
        ChangeFits(parentFee, target - parentGasUsed, target);
        Some(parentFee - change)
  }

  function Change(fee: nat, delta: nat, target: nat): nat
    requires target > 0
  {
    fee * delta / target / BASE_FEE_MAX_CHANGE_DENOMINATOR
  }

  lemma Quotient(a: nat, b: nat, t: nat)
    requires t > 0 && b <= t
    ensures a * b / t <= a
  {
    assert a * b <= a * t;
    MulDiv(a * b, a, t);
  }

  lemma MulDiv(x: nat, a: nat, t: nat)
    requires t > 0 && x <= a * t
    ensures x / t <= a
  {
    assert (a + 1) * t == a * t + t;
    SmallerQuotient(x, a + 1, t);
  }

  lemma SmallerQuotient(x: nat, a: nat, d: nat)
    requires d > 0 && x < a * d
    ensures x / d < a
  {
    if x / d >= a {
      assert false;
    }
  }

  lemma DivGrows(a: nat, b: nat, d: nat)
    requires d > 0 && a <= b
    ensures a / d <= b / d
  {
    var q := b / d;
    assert (q + 1) * d == q * d + d;
    SmallerQuotient(a, q + 1, d);
  }

  lemma ChangeFits(fee: nat, delta: nat, target: nat)
    requires target > 0 && delta <= target
    ensures Change(fee, delta, target) <= fee / BASE_FEE_MAX_CHANGE_DENOMINATOR <= fee
  {
    Quotient(fee, delta, target);
    DivGrows(fee * delta / target, fee, BASE_FEE_MAX_CHANGE_DENOMINATOR);
  }

  /**
    * One step: the fee drops by at most an eighth, does not fall below 7 once there, and, when the parent's gas limit is
    * even and its gas used within it, rises by at most an eighth, or by one.
    */
  lemma BaseFeeStep(gasLimit: nat, parentGasLimit: nat, parentGasUsed: nat, parentFee: nat)
    requires CheckGasLimit(gasLimit, parentGasLimit)
    ensures var r := BaseFee(gasLimit, parentGasLimit, parentGasUsed, parentFee);
            && r.Some?
            && r.value >= parentFee - parentFee / 8
            && (parentFee >= 7 ==> r.value >= 7)
            && (parentGasLimit % 2 == 0 && parentGasUsed <= parentGasLimit ==>
                  r.value <= parentFee + if parentFee / 8 > 1 then parentFee / 8 else 1)
  {
    hide Change;
    var target := parentGasLimit / ELASTICITY_MULTIPLIER;
    TargetIsPositive(gasLimit, parentGasLimit);
    if parentGasUsed < target {
      ChangeFits(parentFee, target - parentGasUsed, target);
    } else if parentGasLimit % 2 == 0 && parentGasUsed <= parentGasLimit {
      ChangeFits(parentFee, parentGasUsed - target, target);
    }
  }

  /** With an odd gas limit a full parent can raise the fee by more than an eighth. */
  lemma OddLimitOvershoots()
    ensures BaseFee(5001, 5001, 5001, 2503) == Some(2503 + 2503 / 8 + 1)
  {
  }

  // ---------------------------------------------------------------------------------------------
  // Base fee by what it is
  // ---------------------------------------------------------------------------------------------

  /** The gas limit may change by less than a 1024th of the parent's, and not below 5000. */
  lemma LimitStep(gasLimit: nat, parentGasLimit: nat)
    ensures var step := if gasLimit > parentGasLimit then gasLimit - parentGasLimit else parentGasLimit - gasLimit;
            CheckGasLimit(gasLimit, parentGasLimit) <==> gasLimit >= 5000 && 1024 * (step + 1) <= parentGasLimit
  {
  }

  /**
    * EIP-1559 without divisions: `next` follows `fee` after a parent that used this much of its limit. The fee falls by the
    * largest `d` with 8 * target * d <= fee * (target - used), or rises by the largest `d`, at least one, with
    * 8 * target * d <= fee * (used - target).
    */
  predicate Follows(limit: nat, used: nat, fee: nat, next: nat) {
    var target := limit / 2;
    if used == target then next == fee
    else if used < target then next <= fee && LargestStep(8 * target, fee * (target - used), fee - next)
    else next > fee && LargestRise(8 * target, fee * (used - target), next - fee)
  }

  /** The largest `d` with unit * d <= whole. */
  predicate LargestStep(unit: nat, whole: nat, d: nat) {
    unit * d <= whole < unit * (d + 1)
  }

  /** The same, but at least one. */
  predicate LargestRise(unit: nat, whole: nat, d: nat) {
    d >= 1 && (d == 1 || unit * d <= whole) && whole < unit * (d + 1)
  }

  lemma ChangeMeans(fee: nat, delta: nat, target: nat)
    requires target > 0
    ensures LargestStep(8 * target, fee * delta, Change(fee, delta, target))
  {
    var x := fee * delta;
    var y := x / target;
    var q := y / 8;
    DivTimes(x, target);
    AboveQuotient(x, target);
    Times(8 * q, y, target);
    Times(y + 1, 8 * q + 8, target);
    assert 8 * q * target == 8 * target * q && (8 * q + 8) * target == 8 * target * (q + 1);
  }

  lemma AboveQuotient(x: nat, d: nat)
    requires d > 0
    ensures x < (x / d + 1) * d
  {
  }

  lemma OneStep(t: nat, x: nat, a: nat, b: nat)
    requires t > 0 && LargestStep(t, x, a) && LargestStep(t, x, b)
    ensures a == b
  {
    if a < b {
      Times(a + 1, b, t);
      assert false;
    }
    if b < a {
      Times(b + 1, a, t);
      assert false;
    }
  }

  /** At most one fee follows. */
  lemma OneFollows(limit: nat, used: nat, fee: nat, x: nat, y: nat)
    requires limit >= 2 && Follows(limit, used, fee, x) && Follows(limit, used, fee, y)
    ensures x == y
  {
    hide LargestStep, LargestRise;
    var target := limit / 2;
    if used < target {
      OneStep(8 * target, fee * (target - used), fee - x, fee - y);
    } else if used > target {
      OneRise(8 * target, fee * (used - target), x - fee, y - fee);
    }
  }

  lemma OneRise(t: nat, x: nat, a: nat, b: nat)
    requires t > 0 && LargestRise(t, x, a) && LargestRise(t, x, b)
    ensures a == b
  {
    if a < b {
      Times(a + 1, b, t);
      assert false;
    }
    if b < a {
      Times(b + 1, a, t);
      assert false;
    }
  }

  /** Main law of the base fee: it is there if and only if the limit passes, and it is the one that follows. */
  lemma BaseFeeFollows(gasLimit: nat, parentGasLimit: nat, parentGasUsed: nat, parentFee: nat, next: nat)
    ensures BaseFee(gasLimit, parentGasLimit, parentGasUsed, parentFee) == Some(next) <==>
            CheckGasLimit(gasLimit, parentGasLimit) && Follows(parentGasLimit, parentGasUsed, parentFee, next)
  {
    if CheckGasLimit(gasLimit, parentGasLimit) {
      TargetIsPositive(gasLimit, parentGasLimit);
      var fee := BaseFee(gasLimit, parentGasLimit, parentGasUsed, parentFee).value;
      FeeFollows(gasLimit, parentGasLimit, parentGasUsed, parentFee);
      if Follows(parentGasLimit, parentGasUsed, parentFee, next) {
        OneFollows(parentGasLimit, parentGasUsed, parentFee, fee, next);
      }
    }
  }

  lemma FeeFollows(gasLimit: nat, parentGasLimit: nat, parentGasUsed: nat, parentFee: nat)
    requires CheckGasLimit(gasLimit, parentGasLimit)
    ensures Follows(parentGasLimit, parentGasUsed, parentFee, BaseFee(gasLimit, parentGasLimit, parentGasUsed, parentFee).value)
  {
    hide Change;
    var target := parentGasLimit / 2;
    TargetIsPositive(gasLimit, parentGasLimit);
    if parentGasUsed < target {
      ChangeMeans(parentFee, target - parentGasUsed, target);
      ChangeFits(parentFee, target - parentGasUsed, target);
    } else if parentGasUsed > target {
      ChangeMeans(parentFee, parentGasUsed - target, target);
      var q := Change(parentFee, parentGasUsed - target, target);
      if q == 0 {
        Times(1, 2, 8 * target);
      }
    }
  }

  /** After an empty parent the fee falls by an eighth, after a full one with an even limit it rises by an eighth, or one. */
  lemma ExtremeParents(limit: nat, fee: nat)
    requires limit >= 2
    ensures Follows(limit, 0, fee, fee - fee / 8)
    ensures limit % 2 == 0 ==> Follows(limit, limit, fee, fee + if fee / 8 > 1 then fee / 8 else 1)
  {
    var target, q := limit / 2, fee / 8;
    Times(8 * q, fee, target);
    Times(fee + 1, 8 * q + 8, target);
    assert 8 * q * target == 8 * target * q && (8 * q + 8) * target == 8 * target * (q + 1);
    assert (fee + 1) * target == fee * target + target;
    if q == 0 {
      assert 8 * target * 1 <= 8 * target * 2;
    }
  }

  /** The more gas the parent used, the higher the fee. */
  lemma MoreGasMoreFee(gasLimit: nat, parentGasLimit: nat, used: nat, more: nat, fee: nat)
    requires CheckGasLimit(gasLimit, parentGasLimit) && used <= more
    ensures BaseFee(gasLimit, parentGasLimit, used, fee).value <= BaseFee(gasLimit, parentGasLimit, more, fee).value
  {
    hide Change;
    var target := parentGasLimit / 2;
    TargetIsPositive(gasLimit, parentGasLimit);
    if more < target {
      ChangeGrows(fee, target - more, target - used, target);
      ChangeFits(fee, target - used, target);
    } else if used > target {
      ChangeGrows(fee, used - target, more - target, target);
    } else if used < target {
      ChangeFits(fee, target - used, target);
    }
  }

  lemma ChangeGrows(fee: nat, a: nat, b: nat, target: nat)
    requires target > 0 && a <= b
    ensures Change(fee, a, target) <= Change(fee, b, target)
  {
    Times(a, b, fee);
    DivGrows(fee * a, fee * b, target);
    DivGrows(fee * a / target, fee * b / target, 8);
  }

  // ---------------------------------------------------------------------------------------------
  // Base fee in 64 bits
  // ---------------------------------------------------------------------------------------------

  function CheckGasLimit64(gasLimit: nat, parentGasLimit: nat): Checked<bool> {
    if parentGasLimit + parentGasLimit / GAS_LIMIT_ADJUSTMENT_FACTOR >= U64_LIMIT then Overflow
    else Fine(CheckGasLimit(gasLimit, parentGasLimit))
  }

  /** `calculate_base_fee_per_gas`: the product, and the sum with a rise, may overflow. */
  function BaseFee64(gasLimit: nat, parentGasLimit: nat, parentGasUsed: nat, parentFee: nat): (r: Checked<Option<nat>>) {
    var check := CheckGasLimit64(gasLimit, parentGasLimit);
    if check.Overflow? then Overflow
    else if !check.value then Fine(None)
    else
      var target := parentGasLimit / ELASTICITY_MULTIPLIER;
      TargetIsPositive(gasLimit, parentGasLimit);
      if parentGasUsed == target then Fine(Some(parentFee))
      else if parentGasUsed > target then
        if parentFee * (parentGasUsed - target) >= U64_LIMIT then Overflow
        else
          var change := Change(parentFee, parentGasUsed - target, target);
          var delta := if change > 1 then change else 1;
          if parentFee + delta >= U64_LIMIT then Overflow else Fine(Some(parentFee + delta))
      else if parentFee * (target - parentGasUsed) >= U64_LIMIT then Overflow
      else
        var change := Change(parentFee, target - parentGasUsed, target);
        ChangeFits(parentFee, target - parentGasUsed, target);
        Fine(Some(parentFee - change))
  }

  /** How far a parent was from its target. */
  function Distance(gasLimit: nat, gasUsed: nat): nat {
    var target := gasLimit / ELASTICITY_MULTIPLIER;
    if gasUsed > target then gasUsed - target else target - gasUsed
  }

  /** What a caller can check: a gas limit with room to grow, and a fee that leaves room for the product and for a rise. */
  predicate LimitFits(parentGasLimit: nat) {
    parentGasLimit + parentGasLimit / GAS_LIMIT_ADJUSTMENT_FACTOR < U64_LIMIT
  }

  predicate FeeFits(parentGasLimit: nat, parentGasUsed: nat, parentFee: nat) {
    var target := parentGasLimit / ELASTICITY_MULTIPLIER;
    && parentFee * Distance(parentGasLimit, parentGasUsed) < U64_LIMIT
    && (parentGasUsed > target && target > 0 ==>
          && parentFee + 1 < U64_LIMIT
          && parentFee * (parentGasUsed - target) < 8 * target * (U64_LIMIT - parentFee))
  }

  lemma ChangeBelow(fee: nat, delta: nat, target: nat, bound: nat)
    requires target > 0
    ensures Change(fee, delta, target) < bound <==> fee * delta < 8 * target * bound
  {
    hide Change;
    ChangeMeans(fee, delta, target);
    var q := Change(fee, delta, target);
    if q < bound {
      Times(q + 1, bound, 8 * target);
    } else {
      Times(bound, q, 8 * target);
    }
  }

  /**
    * The exact outcome: for 64-bit arguments the code panics if and only if the gas limit check overflows, or it succeeds
    * and the fee arithmetic overflows; otherwise it computes what EIP-1559 asks for.
    */
  lemma BaseFeeExact(gasLimit: nat, parentGasLimit: nat, parentGasUsed: nat, parentFee: nat)
    requires parentFee < U64_LIMIT
    ensures var r := BaseFee64(gasLimit, parentGasLimit, parentGasUsed, parentFee);
            && (r.Overflow? <==>
                  || !LimitFits(parentGasLimit)
                  || (CheckGasLimit(gasLimit, parentGasLimit) && !FeeFits(parentGasLimit, parentGasUsed, parentFee)))
            && (r.Fine? ==> r.value == BaseFee(gasLimit, parentGasLimit, parentGasUsed, parentFee))
            && (r.Fine? && r.value.Some? ==> Follows(parentGasLimit, parentGasUsed, parentFee, r.value.value))
  {
    hide Change, Follows;
    if CheckGasLimit(gasLimit, parentGasLimit) {
      FeeFollows(gasLimit, parentGasLimit, parentGasUsed, parentFee);
      TargetIsPositive(gasLimit, parentGasLimit);
      var target := parentGasLimit / 2;
      if parentGasUsed == target {
        assert parentFee * 0 == 0;
      } else if parentGasUsed > target {
        ChangeBelow(parentFee, parentGasUsed - target, target, U64_LIMIT - parentFee);
      }
    }
  }

  /** A full block of 30 million gas with a fee of 2000 gwei: the next base fee is not computed. */
  lemma FeeOverflows()
    ensures BaseFee64(30_000_000, 30_000_000, 30_000_000, 2_000_000_000_000) == Overflow
  {
  }

  // ---------------------------------------------------------------------------------------------
  // How much the fee can rise
  // ---------------------------------------------------------------------------------------------

  lemma AddDiv(a: nat, b: nat, d: nat)
    requires d > 0
    ensures (a * d + b) / d == a + b / d
  {
    var q := b / d;
    assert b == q * d + b % d;
    assert (a + q) * d == a * d + q * d;
    UniqueQuotient(a * d + b, a + q, b % d, d);
  }

  lemma UniqueQuotient(x: nat, q: nat, r: nat, d: nat)
    requires d > 0 && r < d && x == q * d + r
    ensures x / d == q
  {
    assert (q + 1) * d == q * d + d;
    SmallerQuotient(x, q + 1, d);
    QuotientAtLeast(x, q, d);
  }

  /**
    * For a parent within its gas limit the rise is at most an eighth, or one, exactly when the limit is even, or it was not
    * used up, or the fee is too small for the extra unit of gas to matter.
    */
  lemma RiseBound(gasLimit: nat, parentGasLimit: nat, parentGasUsed: nat, parentFee: nat)
    requires CheckGasLimit(gasLimit, parentGasLimit) && parentGasUsed <= parentGasLimit
    ensures var r := BaseFee(gasLimit, parentGasLimit, parentGasUsed, parentFee);
            && r.Some?
            && (r.value <= parentFee + (if parentFee / 8 > 1 then parentFee / 8 else 1) <==>
                  || parentGasLimit % 2 == 0
                  || parentGasUsed < parentGasLimit
                  || parentFee % 8 + parentFee / (parentGasLimit / 2) < 8)
  {
    hide Change;
    var target := parentGasLimit / ELASTICITY_MULTIPLIER;
    TargetIsPositive(gasLimit, parentGasLimit);
    if parentGasUsed < target {
      ChangeFits(parentFee, target - parentGasUsed, target);
    } else if parentGasUsed - target <= target {
      ChangeFits(parentFee, parentGasUsed - target, target);
    } else {
      assert parentGasUsed - target == target + 1;
      FullChange(parentFee, target);
    }
  }

  /** All of that for the code: whenever it gives a fee, the fee keeps these bounds. */
  lemma FeeStep64(gasLimit: nat, parentGasLimit: nat, parentGasUsed: nat, parentFee: nat)
    requires parentFee < U64_LIMIT && BaseFee64(gasLimit, parentGasLimit, parentGasUsed, parentFee).Fine?
    requires BaseFee64(gasLimit, parentGasLimit, parentGasUsed, parentFee).value.Some?
    ensures var fee := BaseFee64(gasLimit, parentGasLimit, parentGasUsed, parentFee).value.value;
            && Follows(parentGasLimit, parentGasUsed, parentFee, fee)
            && fee >= parentFee - parentFee / 8
            && (parentFee >= 7 ==> fee >= 7)
            && (parentGasUsed <= parentGasLimit ==>
                  (fee <= parentFee + (if parentFee / 8 > 1 then parentFee / 8 else 1) <==>
                     || parentGasLimit % 2 == 0
                     || parentGasUsed < parentGasLimit
                     || parentFee % 8 + parentFee / (parentGasLimit / 2) < 8))
  {
    hide BaseFee64, BaseFee, CheckGasLimit, Follows;
    BaseFeeExact(gasLimit, parentGasLimit, parentGasUsed, parentFee);
    FeeMeansChecked(gasLimit, parentGasLimit, parentGasUsed, parentFee);
    FeeFollows(gasLimit, parentGasLimit, parentGasUsed, parentFee);
    BaseFeeStep(gasLimit, parentGasLimit, parentGasUsed, parentFee);
    if parentGasUsed <= parentGasLimit {
      RiseBound(gasLimit, parentGasLimit, parentGasUsed, parentFee);
    }
  }

  lemma FeeMeansChecked(gasLimit: nat, parentGasLimit: nat, parentGasUsed: nat, parentFee: nat)
    ensures BaseFee(gasLimit, parentGasLimit, parentGasUsed, parentFee).Some? <==> CheckGasLimit(gasLimit, parentGasLimit)
  {
    hide Change;
  }

  /** The change after a full parent with an odd gas limit. */
  lemma FullChange(fee: nat, target: nat)
    requires target >= 8
    ensures Change(fee, target + 1, target) == fee / 8 + (fee % 8 + fee / target) / 8
    ensures fee < 8 ==> Change(fee, target + 1, target) == 0
  {
    assert fee * (target + 1) == fee * target + fee;
    AddDiv(fee, fee, target);
    AddDiv(fee / 8, fee % 8 + fee / target, 8);
  }

  // ---------------------------------------------------------------------------------------------
  // The approximated exponential
  // ---------------------------------------------------------------------------------------------

  /** Until `i * denominator` passes the numerator this counts down; afterwards the accumulator does. */
  ghost function Rank(numerator: nat, denominator: nat, i: nat): nat {
    if denominator * i <= numerator then numerator - denominator * i + 1 else 0
  }

  function NextTerm(accum: nat, numerator: nat, denominator: nat, i: nat): nat
    requires denominator > 0 && i > 0
  {
    Positive(denominator, i);
    accum * numerator / (denominator * i)
  }

  lemma Positive(a: nat, b: nat)
    requires a > 0 && b > 0
    ensures a * b > 0
  {
  }

  /** The terms from the `i`-th on, the `i`-th being `accum`. */
  function Sum(accum: nat, numerator: nat, denominator: nat, i: nat): nat
    requires denominator > 0 && i > 0
    decreases Rank(numerator, denominator, i), accum
  {
    if accum == 0 then 0
    else
      TermShrinks(accum, numerator, denominator, i);
      accum + Sum(NextTerm(accum, numerator, denominator, i), numerator, denominator, i + 1)
  }

  lemma TermShrinks(accum: nat, numerator: nat, denominator: nat, i: nat)
    requires denominator > 0 && i > 0 && accum > 0
    ensures var r, r2 := Rank(numerator, denominator, i), Rank(numerator, denominator, i + 1);
            r2 < r || (r2 == r == 0 && NextTerm(accum, numerator, denominator, i) < accum)
  {
    var d := denominator * i;
    Positive(denominator, i);
    assert denominator * (i + 1) == d + denominator;
    if numerator < d {
      assert accum * numerator < accum * d;
      SmallerQuotient(accum * numerator, accum, d);
    }
  }

  function FakeExponential(factor: nat, numerator: nat, denominator: nat): nat
    requires denominator > 0
  {
    Sum(factor * denominator, numerator, denominator, 1) / denominator
  }

  /**
    * The loop, for machine words below `limit`: 64 bits in one place of the source, 128 in the other. `None` stands for an
    * overflow or a division by zero; otherwise the result is that of unbounded arithmetic.
    */
  method FakeExponentialWithin(limit: nat, factor: nat, numerator: nat, denominator: nat) returns (r: Option<nat>)
    ensures denominator == 0 ==> r.None?
    ensures r.Some? ==> r.value == FakeExponential(factor, numerator, denominator)
    ensures denominator > 0 ==>
              (r.Some? <==> NoOverflow(limit, 0, factor * denominator, numerator, denominator, 1))
  {
    hide NextTerm, Rank;
    if denominator == 0 || factor * denominator >= limit {
      return None;
    }
    var i: nat, output: nat, accum: nat := 1, 0, factor * denominator;
    ghost var first := accum;
    while accum > 0
      invariant i > 0
      invariant output + Sum(accum, numerator, denominator, i) == Sum(first, numerator, denominator, 1)
      invariant NoOverflow(limit, output, accum, numerator, denominator, i) <==>
                NoOverflow(limit, 0, first, numerator, denominator, 1)
      decreases Rank(numerator, denominator, i), accum
    {
      TermShrinks(accum, numerator, denominator, i);
      output := output + accum;
      if output >= limit || accum * numerator >= limit || denominator * i >= limit || i + 1 >= limit {
        return None;
      }
      accum := NextTerm(accum, numerator, denominator, i);
      i := i + 1;
    }
    r := Some(output / denominator);
  }

  /** No intermediate value of the loop reaches `limit`. */
  predicate NoOverflow(limit: nat, output: nat, accum: nat, numerator: nat, denominator: nat, i: nat)
    requires denominator > 0 && i > 0
    decreases Rank(numerator, denominator, i), accum
  {
    accum < limit &&
    (accum == 0 ||
     (TermShrinks(accum, numerator, denominator, i);
      && output + accum < limit && accum * numerator < limit && denominator * i < limit && i + 1 < limit
      && NoOverflow(limit, output + accum, NextTerm(accum, numerator, denominator, i), numerator, denominator, i + 1)))
  }

  lemma {:induction false} WiderNeverOverflows(
    limit: nat, wider: nat, output: nat, accum: nat, numerator: nat, denominator: nat, i: nat)
    requires denominator > 0 && i > 0 && limit <= wider
    requires NoOverflow(limit, output, accum, numerator, denominator, i)
    ensures NoOverflow(wider, output, accum, numerator, denominator, i)
    decreases Rank(numerator, denominator, i), accum
  {
    hide NextTerm, Rank;
    if accum > 0 {
      TermShrinks(accum, numerator, denominator, i);
      WiderNeverOverflows(
        limit, wider, output + accum, NextTerm(accum, numerator, denominator, i), numerator, denominator, i + 1);
    }
  }

  /** Whenever the 64-bit version gives a result, the 128-bit version gives the same. */
  method BothWidths(factor: nat, numerator: nat, denominator: nat) returns (narrow: Option<nat>, wide: Option<nat>)
    ensures narrow.Some? ==> wide == narrow
  {
    narrow := FakeExponentialWithin(U64_LIMIT, factor, numerator, denominator);
    wide := FakeExponentialWithin(U128_LIMIT, factor, numerator, denominator);
    if narrow.Some? {
      WiderNeverOverflows(U64_LIMIT, U128_LIMIT, 0, factor * denominator, numerator, denominator, 1);
    }
  }

  lemma AtLeastFactor(factor: nat, numerator: nat, denominator: nat)
    requires denominator > 0
    ensures FakeExponential(factor, numerator, denominator) >= factor
  {
    hide NextTerm;
    var first := factor * denominator;
    var s := Sum(first, numerator, denominator, 1);
    assert s >= first;
    QuotientAtLeast(s, factor, denominator);
  }

  lemma BelowProduct(x: nat, a: nat, d: nat)
    requires d > 0 && x / d < a
    ensures x < a * d
  {
    var q := x / d;
    assert (q + 1) * d == q * d + d;
    assert (q + 1) * d <= a * d;
  }

  lemma QuotientAtLeast(x: nat, a: nat, d: nat)
    requires d > 0 && a * d <= x
    ensures a <= x / d
  {
    if x / d < a {
      BelowProduct(x, a, d);
      assert false;
    }
  }

  lemma NextTermGrows(a: nat, n: nat, b: nat, m: nat, denominator: nat, i: nat)
    requires denominator > 0 && i > 0 && a <= b && n <= m
    ensures NextTerm(a, n, denominator, i) <= NextTerm(b, m, denominator, i)
  {
    Positive(denominator, i);
    assert a * n <= b * n <= b * m;
    DivGrows(a * n, b * m, denominator * i);
  }

  lemma {:induction false} SumGrows(a: nat, n: nat, b: nat, m: nat, denominator: nat, i: nat)
    requires denominator > 0 && i > 0 && a <= b && n <= m
    ensures Sum(a, n, denominator, i) <= Sum(b, m, denominator, i)
    decreases Rank(m, denominator, i), b
  {
    hide NextTerm, Rank;
    if a > 0 {
      TermShrinks(b, m, denominator, i);
      TermShrinks(a, n, denominator, i);
      NextTermGrows(a, n, b, m, denominator, i);
      SumGrows(NextTerm(a, n, denominator, i), n, NextTerm(b, m, denominator, i), m, denominator, i + 1);
    }
  }

  /** A larger numerator never gives a smaller fee. */
  lemma MonotoneInNumerator(factor: nat, n: nat, m: nat, denominator: nat)
    requires denominator > 0 && n <= m
    ensures FakeExponential(factor, n, denominator) <= FakeExponential(factor, m, denominator)
  {
    hide Sum;
    SumGrows(factor * denominator, n, factor * denominator, m, denominator, 1);
    DivGrows(
      Sum(factor * denominator, n, denominator, 1), Sum(factor * denominator, m, denominator, 1), denominator);
  }

  // ---------------------------------------------------------------------------------------------
  // When the exponential overflows
  // ---------------------------------------------------------------------------------------------

  /** A run that stays below the limit does so with a smaller numerator and smaller values to start from. */
  lemma {:induction false} SmallerFits(
    limit: nat, o: nat, a: nat, n: nat, p: nat, b: nat, m: nat, denominator: nat, i: nat)
    requires denominator > 0 && i > 0 && o <= p && a <= b && n <= m && NoOverflow(limit, p, b, m, denominator, i)
    ensures NoOverflow(limit, o, a, n, denominator, i)
    decreases Rank(m, denominator, i), b
  {
    hide NextTerm, Rank;
    if a > 0 {
      TermShrinks(b, m, denominator, i);
      NextTermGrows(a, n, b, m, denominator, i);
      assert a * n <= b * n <= b * m;
      SmallerFits(
        limit, o + a, NextTerm(a, n, denominator, i), n, p + b, NextTerm(b, m, denominator, i), m, denominator, i + 1);
    }
  }

  /** For one factor and one denominator the numerators that overflow are those from some point on. */
  lemma OverflowsUpward(limit: nat, factor: nat, n: nat, m: nat, denominator: nat)
    requires denominator > 0 && n <= m && !NoOverflow(limit, 0, factor * denominator, n, denominator, 1)
    ensures !NoOverflow(limit, 0, factor * denominator, m, denominator, 1)
  {
    hide NoOverflow;
    if NoOverflow(limit, 0, factor * denominator, m, denominator, 1) {
      SmallerFits(limit, 0, factor * denominator, n, 0, factor * denominator, m, denominator, 1);
    }
  }

  // The exponential without its loop

  /**
    * The rounded Taylor series: each term is the largest whole number that is at most numerator / (denominator * k) times the
    * term before it, and the series ends with its first zero.
    */
  ghost predicate IsSeries(ts: seq<nat>, first: nat, numerator: nat, denominator: nat) {
    && ts != [] && ts[0] == first && ts[|ts| - 1] == 0
    && (forall k | 0 <= k < |ts| - 1 :: ts[k] > 0)
    && forall k | 0 < k < |ts| :: LargestStep(denominator * k, ts[k - 1] * numerator, ts[k])
  }

  ghost function Total(ts: seq<nat>): nat {
    if ts == [] then 0 else ts[0] + Total(ts[1..])
  }

  /** There is one such series, and the result is the largest `r` with denominator * r <= its sum. */
  lemma FakeExponentialIs(factor: nat, numerator: nat, denominator: nat) returns (ts: seq<nat>)
    requires denominator > 0
    ensures IsSeries(ts, factor * denominator, numerator, denominator)
    ensures LargestStep(denominator, Total(ts), FakeExponential(factor, numerator, denominator))
    ensures forall us | IsSeries(us, factor * denominator, numerator, denominator) :: us == ts
  {
    hide Sum, Total, LargestStep, FakeExponential;
    var first := factor * denominator;
    ts := Series(first, numerator, denominator, 1);
    SeriesAdds(ts, numerator, denominator, 1);
    assert ts[0..] == ts;
    Divided(factor, numerator, denominator);
    forall us | IsSeries(us, first, numerator, denominator)
      ensures us == ts
    {
      SameSeries(us, ts, first, numerator, denominator, if |us| < |ts| then |us| - 1 else |ts| - 1);
    }
  }

  lemma Divided(factor: nat, numerator: nat, denominator: nat)
    requires denominator > 0
    ensures LargestStep(
              denominator, Sum(factor * denominator, numerator, denominator, 1),
              FakeExponential(factor, numerator, denominator))
  {
    hide Sum;
    var s := Sum(factor * denominator, numerator, denominator, 1);
    DivTimes(s, denominator);
    AboveQuotient(s, denominator);
  }

  /** The terms from the `i`-th on. */
  lemma {:induction false} Series(accum: nat, numerator: nat, denominator: nat, i: nat) returns (ts: seq<nat>)
    requires denominator > 0 && i > 0
    ensures ts != [] && ts[0] == accum && ts[|ts| - 1] == 0
    ensures forall k | 0 <= k < |ts| - 1 :: ts[k] > 0
    ensures forall k | 0 < k < |ts| :: LargestStep(denominator * (k + i - 1), ts[k - 1] * numerator, ts[k])
    decreases Rank(numerator, denominator, i), accum
  {
    hide NextTerm, Rank, LargestStep;
    if accum == 0 {
      ts := [0];
    } else {
      TermShrinks(accum, numerator, denominator, i);
      var next := NextTerm(accum, numerator, denominator, i);
      var rest := Series(next, numerator, denominator, i + 1);
      TermIsLargest(accum, numerator, denominator, i);
      ts := [accum] + rest;
      forall k | 0 < k < |ts|
        ensures LargestStep(denominator * (k + i - 1), ts[k - 1] * numerator, ts[k])
      {
        if k > 1 {
          assert (k - 1) + (i + 1) - 1 == k + i - 1;
          assert rest[k - 2] == ts[k - 1] && rest[k - 1] == ts[k];
        }
      }
    }
  }

  lemma TermIsLargest(accum: nat, numerator: nat, denominator: nat, i: nat)
    requires denominator > 0 && i > 0
    ensures LargestStep(denominator * i, accum * numerator, NextTerm(accum, numerator, denominator, i))
  {
    Positive(denominator, i);
    var x, d := accum * numerator, denominator * i;
    DivTimes(x, d);
    AboveQuotient(x, d);
  }

  lemma {:induction false} SeriesAdds(ts: seq<nat>, numerator: nat, denominator: nat, i: nat)
    requires denominator > 0 && 0 < i <= |ts| && IsSeries(ts, ts[0], numerator, denominator)
    ensures Sum(ts[i - 1], numerator, denominator, i) == Total(ts[i - 1..])
    decreases |ts| - i
  {
    hide NextTerm, LargestStep;
    assert ts[i - 1..][1..] == ts[i..];
    if i < |ts| {
      TermIsLargest(ts[i - 1], numerator, denominator, i);
      Positive(denominator, i);
      OneStep(denominator * i, ts[i - 1] * numerator, ts[i], NextTerm(ts[i - 1], numerator, denominator, i));
      SeriesAdds(ts, numerator, denominator, i + 1);
    }
  }

  lemma {:induction false} SameSeries(us: seq<nat>, ts: seq<nat>, first: nat, numerator: nat, denominator: nat, k: nat)
    requires denominator > 0 && k < |us| && k < |ts|
    requires IsSeries(us, first, numerator, denominator) && IsSeries(ts, first, numerator, denominator)
    ensures us[..k + 1] == ts[..k + 1]
    ensures k == |us| - 1 || k == |ts| - 1 ==> us == ts
  {
    hide LargestStep;
    if k > 0 {
      SameSeries(us, ts, first, numerator, denominator, k - 1);
      assert us[k - 1] == us[..k][k - 1] == ts[k - 1];
      Positive(denominator, k);
      OneStep(denominator * k, ts[k - 1] * numerator, us[k], ts[k]);
      assert us[..k + 1] == us[..k] + [us[k]] && ts[..k + 1] == ts[..k] + [ts[k]];
    }
  }

  /** One round of the loop, with the next term given. */
  lemma Onward(limit: nat, output: nat, accum: nat, numerator: nat, denominator: nat, i: nat, next: nat)
    requires denominator > 0 && i > 0 && accum > 0
    requires next * (denominator * i) <= accum * numerator < (next + 1) * (denominator * i)
    requires output + accum < limit && accum * numerator < limit && denominator * i < limit && i + 1 < limit && accum < limit
    ensures NoOverflow(limit, output, accum, numerator, denominator, i) <==>
            NoOverflow(limit, output + accum, next, numerator, denominator, i + 1)
  {
    hide Rank;
    TermShrinks(accum, numerator, denominator, i);
    QuotientIs(accum * numerator, denominator * i, next);
  }

  lemma QuotientIs(x: nat, y: nat, q: nat)
    requires y > 0 && q * y <= x < (q + 1) * y
    ensures x / y == q
  {
    QuotientAtLeast(x, q, y);
    SmallerQuotient(x, q + 1, y);
  }

  lemma Times(a: nat, b: nat, c: nat)
    requires a <= b
    ensures a * c <= b * c && c * a <= c * b
    ensures a < b && c > 0 ==> a * c < b * c && c * a < c * b
  {
  }

  lemma DivTimes(x: nat, y: nat)
    requires y > 0
    ensures x / y * y <= x
  {
  }

  /** Once the terms fall, the sum of those to come is at most `scale` times the next one. */
  lemma {:induction false} Falls(
    limit: nat, output: nat, accum: nat, numerator: nat, denominator: nat, i: nat, scale: nat)
    requires denominator > 0 && i > 0 && scale > 0 && denominator * i + scale * numerator <= scale * (denominator * i)
    requires output + accum * scale < limit && accum * numerator < limit && denominator * (i + accum) < limit
    ensures NoOverflow(limit, output, accum, numerator, denominator, i)
    decreases accum
  {
    hide Rank, NextTerm, NoOverflow;
    if accum == 0 {
      NoTerms(limit, output, numerator, denominator, i);
      FallsStart(denominator, i, accum, limit);
    } else {
      var next := NextTerm(accum, numerator, denominator, i);
      Positive(denominator, i);
      NextTermIs(accum, numerator, denominator, i);
      Fallen(accum, numerator, denominator * i, next, scale);
      FallsBounds(denominator, i, accum, next, numerator, limit);
      FallsOn(denominator, i, numerator, scale);
      Times(1, scale, accum);
      Falls(limit, output + accum, next, numerator, denominator, i + 1, scale);
      OneRound(limit, output, accum, numerator, denominator, i);
    }
  }

  lemma NextTermIs(accum: nat, numerator: nat, denominator: nat, i: nat)
    requires denominator > 0 && i > 0 && denominator * i > 0
    ensures NextTerm(accum, numerator, denominator, i) == accum * numerator / (denominator * i)
  {
  }

  lemma NoTerms(limit: nat, output: nat, numerator: nat, denominator: nat, i: nat)
    requires denominator > 0 && i > 0
    ensures NoOverflow(limit, output, 0, numerator, denominator, i) <==> 0 < limit
  {
  }

  lemma FallsStart(denominator: nat, i: nat, accum: nat, limit: nat)
    requires denominator * (i + accum) < limit
    ensures 0 < limit
  {
  }

  lemma OneRound(limit: nat, output: nat, accum: nat, numerator: nat, denominator: nat, i: nat)
    requires denominator > 0 && i > 0 && 0 < accum < limit
    requires output + accum < limit && accum * numerator < limit && denominator * i < limit && i + 1 < limit
    requires NoOverflow(limit, output + accum, NextTerm(accum, numerator, denominator, i), numerator, denominator, i + 1)
    ensures NoOverflow(limit, output, accum, numerator, denominator, i)
  {
    hide Rank, NextTerm;
  }

  /** A term that falls by the given ratio leaves its share of the sum. */
  lemma Fallen(accum: nat, numerator: nat, y: nat, next: nat, scale: nat)
    requires y > 0 && accum > 0 && y + scale * numerator <= scale * y && next == accum * numerator / y
    ensures next < accum && accum + next * scale <= accum * scale
  {
    if numerator >= y {
      Times(y, numerator, scale);
      assert false;
    }
    Times(numerator, y, accum);
    SmallerQuotient(accum * numerator, accum, y);
    DivTimes(accum * numerator, y);
    Times(next * y, accum * numerator, scale);
    Times(y + scale * numerator, scale * y, accum);
    Shares(accum, numerator, y, next, scale);
    if accum + next * scale > accum * scale {
      Times(accum * scale, accum + next * scale, y);
      assert false;
    }
  }

  lemma Shares(accum: nat, numerator: nat, y: nat, next: nat, scale: nat)
    ensures (accum + next * scale) * y == accum * y + next * y * scale
    ensures (y + scale * numerator) * accum == accum * y + accum * numerator * scale
    ensures scale * y * accum == accum * scale * y
  {
  }

  lemma FallsOn(denominator: nat, i: nat, numerator: nat, scale: nat)
    requires scale > 0 && denominator * i + scale * numerator <= scale * (denominator * i)
    ensures denominator * (i + 1) + scale * numerator <= scale * (denominator * (i + 1))
  {
    var y := denominator * i;
    assert denominator * (i + 1) == y + denominator;
    assert scale * (y + denominator) == scale * y + scale * denominator;
    Times(1, scale, denominator);
  }

  lemma FallsBounds(denominator: nat, i: nat, accum: nat, next: nat, numerator: nat, limit: nat)
    requires denominator > 0 && i > 0 && next < accum && denominator * (i + accum) < limit && accum * numerator < limit
    ensures denominator * (i + 1 + next) < limit && next * numerator < limit
    ensures denominator * i < limit && i + 1 < limit && accum < limit
  {
    Times(i + 1 + next, i + accum, denominator);
    Times(next, accum, numerator);
    Times(i, i + accum, denominator);
    Times(1, denominator, i + accum);
  }

  /** `BLOB_BASE_FEE_UPDATE_FRACTION`. */
  const BLOB_FRACTION: nat := 3338477

  /** The least excess of blob gas whose fee does not fit the 64-bit loop. */
  const EXCESS_LIMIT: nat := 46488066

  lemma LargestExcess()
    ensures NoOverflow(U64_LIMIT, 0, BLOB_FRACTION, EXCESS_LIMIT - 1, BLOB_FRACTION, 1)
  {
    hide NoOverflow;
    Onward(U64_LIMIT, 0, 3338477, 46488065, BLOB_FRACTION, 1, 46488065);
    Onward(U64_LIMIT, 3338477, 46488065, 46488065, BLOB_FRACTION, 2, 323671570);
    Onward(U64_LIMIT, 49826542, 323671570, 46488065, BLOB_FRACTION, 3, 1502368194);
    Onward(U64_LIMIT, 373498112, 1502368194, 46488065, BLOB_FRACTION, 4, 5230093711);
    Onward(U64_LIMIT, 1875866306, 5230093711, 46488065, BLOB_FRACTION, 5, 14565739790);
    Onward(U64_LIMIT, 7105960017, 14565739790, 46488065, BLOB_FRACTION, 6, 33804489199);
    Onward(U64_LIMIT, 21671699807, 33804489199, 46488065, BLOB_FRACTION, 7, 67246458754);
    Onward(U64_LIMIT, 55476189006, 67246458754, 46488065, BLOB_FRACTION, 8, 117050295148);
    Onward(U64_LIMIT, 122722647760, 117050295148, 46488065, BLOB_FRACTION, 9, 181101932578);
    Onward(U64_LIMIT, 239772942908, 181101932578, 46488065, BLOB_FRACTION, 10, 252183208490);
    Onward(U64_LIMIT, 420874875486, 252183208490, 46488065, BLOB_FRACTION, 11, 319239455819);
    Onward(U64_LIMIT, 673058083976, 319239455819, 46488065, BLOB_FRACTION, 12, 370448974504);
    Onward(U64_LIMIT, 992297539795, 370448974504, 46488065, BLOB_FRACTION, 13, 396805904330);
    Falls(U64_LIMIT, 1362746514299, 396805904330, 46488065, BLOB_FRACTION, 14, 187);
  }

  lemma LeastExcess()
    ensures !NoOverflow(U64_LIMIT, 0, BLOB_FRACTION, EXCESS_LIMIT, BLOB_FRACTION, 1)
  {
    hide NoOverflow;
    Onward(U64_LIMIT, 0, 3338477, 46488066, BLOB_FRACTION, 1, 46488066);
    Onward(U64_LIMIT, 3338477, 46488066, 46488066, BLOB_FRACTION, 2, 323671584);
    Onward(U64_LIMIT, 49826543, 323671584, 46488066, BLOB_FRACTION, 3, 1502368291);
    Onward(U64_LIMIT, 373498127, 1502368291, 46488066, BLOB_FRACTION, 4, 5230094161);
    Onward(U64_LIMIT, 1875866418, 5230094161, 46488066, BLOB_FRACTION, 5, 14565741357);
    Onward(U64_LIMIT, 7105960579, 14565741357, 46488066, BLOB_FRACTION, 6, 33804493563);
    Onward(U64_LIMIT, 21671701936, 33804493563, 46488066, BLOB_FRACTION, 7, 67246468881);
    Onward(U64_LIMIT, 55476195499, 67246468881, 46488066, BLOB_FRACTION, 8, 117050315293);
    Onward(U64_LIMIT, 122722664380, 117050315293, 46488066, BLOB_FRACTION, 9, 181101967642);
    Onward(U64_LIMIT, 239772979673, 181101967642, 46488066, BLOB_FRACTION, 10, 252183262741);
    Onward(U64_LIMIT, 420874947315, 252183262741, 46488066, BLOB_FRACTION, 11, 319239531362);
    Onward(U64_LIMIT, 673058210056, 319239531362, 46488066, BLOB_FRACTION, 12, 370449070134);
    Onward(U64_LIMIT, 992297741418, 370449070134, 46488066, BLOB_FRACTION, 13, 396806015299);
    TooLarge(U64_LIMIT, 1362746811552, 396806015299, 46488066, BLOB_FRACTION, 14);
  }

  lemma TooLarge(limit: nat, output: nat, accum: nat, numerator: nat, denominator: nat, i: nat)
    requires denominator > 0 && i > 0 && accum > 0 && accum * numerator >= limit
    ensures !NoOverflow(limit, output, accum, numerator, denominator, i)
  {
  }

  /** The fee per blob gas fits 64 bits if and only if the excess is below the limit. */
  lemma BlobFeeFits(excess: nat)
    ensures NoOverflow(U64_LIMIT, 0, 1 * BLOB_FRACTION, excess, BLOB_FRACTION, 1) <==> excess < EXCESS_LIMIT
  {
    hide NoOverflow;
    if excess < EXCESS_LIMIT {
      LargestExcess();
      SmallerFits(U64_LIMIT, 0, BLOB_FRACTION, excess, 0, BLOB_FRACTION, EXCESS_LIMIT - 1, BLOB_FRACTION, 1);
    } else {
      LeastExcess();
      OverflowsUpward(U64_LIMIT, 1, EXCESS_LIMIT, excess, BLOB_FRACTION);
    }
  }

  /** `calculate_base_fee_per_blob_gas` for the parent's excess of blob gas; the result `None` is the overflow. */
  method BlobBaseFee(excess: Option<nat>) returns (r: Option<nat>)
    ensures r.None? <==> excess.Some? && excess.value >= EXCESS_LIMIT
    ensures r.Some? ==> r.value == FakeExponential(1, if excess.Some? then excess.value else 0, BLOB_FRACTION)
  {
    hide NoOverflow, FakeExponential;
    var n := if excess.Some? then excess.value else 0;
    BlobFeeFits(n);
    r := FakeExponentialWithin(U64_LIMIT, 1, n, BLOB_FRACTION);
  }
}
