/**
 * The gas limit a new block derives from its parent, against the limits a verifier accepts
 * (core/src/machine.rs, core/src/block.rs, core/src/verification/mod.rs).
 */
module GasLimit {
  import opened Basics

  const I64_LIMIT: int := 0x8000_0000_0000_0000

  /** Division of signed machine integers drops the fraction, toward zero. */
  function TruncDiv(a: int, b: int): int
    requires b > 0
  {
    if a >= 0 then a / b else -(-a / b)
  }

  /** The low 64 bits of an unsigned integer, read as a signed one. */
  function AsI64(x: nat): int {
    var low := x % 0x1_0000_0000_0000_0000;
    if low < I64_LIMIT then low else low - 0x1_0000_0000_0000_0000
  }

  predicate IsI64(x: int) {
    -I64_LIMIT <= x < I64_LIMIT
  }

  /** The limits a block may aim at, from the configured range (`OpenBlock::new`). */
  datatype Targets = Targets(floor: nat, ceil: nat)

  function TargetsOf(range: (nat, nat), minGasLimit: nat): Targets {
    var floor := if range.0 > minGasLimit then range.0 else minGasLimit;
    Targets(floor, if range.1 > floor then range.1 else floor)
  }

  /** `set_gas_limit_from_parent`; nothing when the signed arithmetic overflows. */
  function NextLimit(limit: nat, used: nat, divisor: nat, targets: Targets): Option<nat>
    requires 0 < divisor < I64_LIMIT
  {
    if limit < targets.floor then Some(limit + limit / divisor)
    else if limit > targets.ceil then
      assert limit / divisor <= limit by { Quotient(limit, divisor); }
      Some(limit - limit / divisor)
    else
      var used64, limit64 := AsI64(used), AsI64(limit);
      var scaled := used64 * 4;
      if !IsI64(scaled) || !IsI64(TruncDiv(scaled, 3) - limit64) then None
      else
        var next := limit64 + TruncDiv(TruncDiv(scaled, 3) - limit64, divisor);
        if !IsI64(next) then None else Some(if next < 0 then 0 else next)
  }

  /** The gas limit check of `verify_parent`. */
  predicate AcceptedAfter(parentLimit: nat, limit: nat, divisor: nat)
    requires 0 < divisor
  {
    parentLimit - parentLimit / divisor <= limit <= parentLimit + parentLimit / divisor
  }

  lemma TimesMonotone(d: nat, x: int, y: int)
    requires x <= y
    ensures d * x <= d * y
  {
  }

  lemma DivideMod(a: nat, d: nat)
    requires d > 0
    ensures a == d * (a / d) + a % d && a % d < d
  {
  }

  lemma QuotientAtMost(a: nat, d: nat, q: int)
    requires d > 0 && a < d * (q + 1)
    ensures a / d <= q
  {
    DivideMod(a, d);
    if a / d >= q + 1 {
      TimesMonotone(d, q + 1, a / d);
    }
  }

  lemma QuotientAtLeast(a: nat, d: nat, q: int)
    requires d > 0 && d * q <= a
    ensures q <= a / d
  {
    DivideMod(a, d);
    if a / d + 1 <= q {
      TimesMonotone(d, a / d + 1, q);
      TimesPlusOne(d, a / d);
    }
  }

  lemma TimesPlusOne(d: nat, x: int)
    ensures d * (x + 1) == d * x + d
  {
  }

  lemma TimesSum(d: nat, x: int, y: int)
    ensures d * (x + y) == d * x + d * y
  {
  }

  lemma Quotient(a: nat, b: nat)
    requires b > 0
    ensures a / b <= a
  {
    TimesPlusOne(b, a);
    assert b * a >= a;
    QuotientAtMost(a, b, a);
  }

  lemma QuotientMonotone(a: nat, b: nat, d: nat)
    requires d > 0 && a <= b
    ensures a / d <= b / d
  {
    DivideMod(a, d);
    QuotientAtLeast(b, d, a / d);
  }

  lemma QuotientGap(a: nat, b: nat, d: nat)
    requires d > 0 && a <= b
    ensures b / d <= a / d + (b - a)
  {
    DivideMod(a, d);
    GapProduct(d, a / d, b - a);
    QuotientAtMost(b, d, a / d + (b - a));
  }

  lemma GapProduct(d: nat, x: nat, k: nat)
    requires d > 0
    ensures d * (x + k + 1) >= d * x + k + d
  {
    TimesSum(d, x, k + 1);
    TimesPlusOne(d, k);
    assert d * k >= k;
  }

  lemma TruncBounds(diff: int, limit: nat, divisor: nat)
    requires divisor > 0 && 0 - limit <= diff <= limit
    ensures 0 - limit / divisor <= TruncDiv(diff, divisor) <= limit / divisor
  {
    var size: nat := if diff >= 0 then diff else 0 - diff;
    QuotientMonotone(size, limit, divisor);
    QuotientAtLeast(size, divisor, 0);
    assert TruncDiv(diff, divisor) == if diff >= 0 then size / divisor else 0 - size / divisor;
  }

  lemma TruncDown(limit: nat, divisor: nat)
    requires divisor > 0
    ensures TruncDiv(0 - limit, divisor) == 0 - limit / divisor
  {
    if limit == 0 {
      QuotientAtMost(0, divisor, 0);
      QuotientAtLeast(0, divisor, 0);
    }
  }

  lemma SmallAsI64(x: nat)
    requires x < I64_LIMIT
    ensures AsI64(x) == x
  {
  }

  const SAFE_LIMIT: nat := 0x2000_0000_0000_0000

  predicate Between(limit: nat, targets: Targets) {
    targets.floor <= limit <= targets.ceil
  }

  /**
   * Inside the targets the limit moves by at most one part in `divisor`, and after an empty parent by exactly
   * that much down.
   */
  lemma MiddleStep(limit: nat, used: nat, divisor: nat, targets: Targets)
    requires 0 < divisor < I64_LIMIT && used <= limit && Between(limit, targets) && limit < SAFE_LIMIT
    ensures NextLimit(limit, used, divisor, targets).Some?
    ensures AcceptedAfter(limit, NextLimit(limit, used, divisor, targets).value, divisor)
    ensures used == 0 ==> NextLimit(limit, used, divisor, targets).value == limit - limit / divisor
  {
    SmallAsI64(used);
    SmallAsI64(limit);
    var diff := used * 4 / 3 - limit;
    Quotient(limit, divisor);
    TruncBounds(diff, limit, divisor);
    TruncDown(limit, divisor);
    assert TruncDiv(used * 4, 3) - limit == diff && IsI64(diff) && IsI64(used * 4);
  }

  /**
   * Inside the targets the limit does not rise after a parent less than three quarters full, and does not
   * fall otherwise.
   */
  lemma MiddleDirection(limit: nat, used: nat, divisor: nat, targets: Targets)
    requires 0 < divisor < I64_LIMIT && used <= limit && Between(limit, targets) && limit < SAFE_LIMIT
    ensures NextLimit(limit, used, divisor, targets).Some?
    ensures used * 4 < limit * 3 ==> NextLimit(limit, used, divisor, targets).value <= limit
    ensures used * 4 >= limit * 3 ==> NextLimit(limit, used, divisor, targets).value >= limit
  {
    MiddleStep(limit, used, divisor, targets);
    SmallAsI64(used);
    SmallAsI64(limit);
    var diff := used * 4 / 3 - limit;
    assert TruncDiv(used * 4, 3) - limit == diff;
    if diff >= 0 {
      QuotientAtLeast(diff, divisor, 0);
    } else {
      QuotientAtLeast(0 - diff, divisor, 0);
    }
  }

  /** Truncated quotients are ordered as what they are taken of, and differ where that differs by two divisors. */
  lemma StepsOrdered(d: nat, a: int, b: int, x: int, y: int)
    requires d > 0 && a <= b
    requires (a >= 0 ==> 0 <= d * x <= a < d * (x + 1)) && (a <= 0 ==> 0 <= d * -x <= -a < d * (-x + 1))
    requires (b >= 0 ==> 0 <= d * y <= b < d * (y + 1)) && (b <= 0 ==> 0 <= d * -y <= -b < d * (-y + 1))
    ensures x <= y && (b - a >= 2 * d ==> x < y)
  {
    TimesPlusOne(d, x);
    TimesPlusOne(d, y);
    TimesPlusOne(d, -x);
    TimesPlusOne(d, -y);
    assert d * -x == -(d * x) && d * -y == -(d * y);
    if x > y {
      TimesMonotone(d, y + 1, x);
    }
    if x == y {
      assert d * x == d * y;
    }
  }

  /**
   * Between the targets the step times the divisor is the distance from four thirds of the gas used, rounded
   * to zero.
   */
  lemma MiddleExact(limit: nat, used: nat, divisor: nat, targets: Targets)
    requires 0 < divisor < I64_LIMIT && used <= limit && Between(limit, targets) && limit < SAFE_LIMIT
    ensures NextLimit(limit, used, divisor, targets).Some?
    ensures var step, distance := NextLimit(limit, used, divisor, targets).value - limit, used * 4 / 3 - limit;
            && (distance >= 0 ==> 0 <= divisor * step <= distance < divisor * (step + 1))
            && (distance <= 0 ==> 0 <= divisor * -step <= -distance < divisor * (-step + 1))
  {
    MiddleStep(limit, used, divisor, targets);
    SmallAsI64(used);
    SmallAsI64(limit);
    var distance := used * 4 / 3 - limit;
    assert TruncDiv(used * 4, 3) - limit == distance;
    var size: nat := if distance >= 0 then distance else -distance;
    var q := size / divisor;
    DivideMod(size, divisor);
    TimesPlusOne(divisor, q);
    Quotient(size, divisor);
    QuotientAtLeast(size, divisor, 0);
    assert NextLimit(limit, used, divisor, targets).value - limit == if distance >= 0 then q else -q;
    TimesMonotone(divisor, 0, q);
  }

  /** The more the parent used, the higher the next limit. */
  lemma MiddleMonotone(limit: nat, used: nat, more: nat, divisor: nat, targets: Targets)
    requires 0 < divisor < I64_LIMIT && used <= more <= limit && Between(limit, targets) && limit < SAFE_LIMIT
    ensures NextLimit(limit, used, divisor, targets).Some? && NextLimit(limit, more, divisor, targets).Some?
    ensures NextLimit(limit, used, divisor, targets).value <= NextLimit(limit, more, divisor, targets).value
    ensures (more - used) * 4 >= 3 * (2 * divisor + 1) ==>
              NextLimit(limit, used, divisor, targets).value < NextLimit(limit, more, divisor, targets).value
  {
    MiddleExact(limit, used, divisor, targets);
    MiddleExact(limit, more, divisor, targets);
    var x, y := NextLimit(limit, used, divisor, targets).value - limit,
      NextLimit(limit, more, divisor, targets).value - limit;
    StepsOrdered(divisor, used * 4 / 3 - limit, more * 4 / 3 - limit, x, y);
  }

  /** A full parent raises the limit by a third of it, divided by the divisor. */
  lemma FullParentRises(limit: nat, divisor: nat, targets: Targets)
    requires 0 < divisor < I64_LIMIT && Between(limit, targets) && limit < SAFE_LIMIT
    ensures NextLimit(limit, limit, divisor, targets) == Some(limit + limit / 3 / divisor)
  {
    MiddleExact(limit, limit, divisor, targets);
    var step, third := NextLimit(limit, limit, divisor, targets).value - limit, limit / 3;
    assert limit * 4 / 3 - limit == third;
    QuotientAtMost(third, divisor, step);
    QuotientAtLeast(third, divisor, step);
  }

  lemma MiddleOverflows(limit: nat, divisor: nat, targets: Targets)
    requires 0 < divisor < I64_LIMIT && Between(limit, targets)
    ensures NextLimit(limit, SAFE_LIMIT, divisor, targets).None?
  {
    SmallAsI64(SAFE_LIMIT);
  }

  lemma OutsideStep(limit: nat, used: nat, divisor: nat, targets: Targets)
    requires 0 < divisor < I64_LIMIT && !Between(limit, targets)
    ensures limit / divisor <= limit
    ensures NextLimit(limit, used, divisor, targets) ==
            Some(if limit < targets.floor then limit + limit / divisor else limit - limit / divisor)
  {
    Quotient(limit, divisor);
  }

  ghost predicate Fine(limit: nat, used: nat, divisor: nat, targets: Targets)
    requires 0 < divisor < I64_LIMIT
  {
    NextLimit(limit, used, divisor, targets).Some?
      && AcceptedAfter(limit, NextLimit(limit, used, divisor, targets).value, divisor)
  }

  ghost predicate AlwaysFine(limit: nat, divisor: nat, targets: Targets)
    requires 0 < divisor < I64_LIMIT
  {
    forall used: nat | used <= limit :: Fine(limit, used, divisor, targets)
  }

  lemma OutsideFine(limit: nat, divisor: nat, targets: Targets)
    requires 0 < divisor < I64_LIMIT && !Between(limit, targets)
    ensures AlwaysFine(limit, divisor, targets)
  {
    forall used: nat | used <= limit
      ensures Fine(limit, used, divisor, targets)
    {
      OutsideStep(limit, used, divisor, targets);
      QuotientAtLeast(limit, divisor, 0);
    }
  }

  lemma MiddleFine(limit: nat, divisor: nat, targets: Targets)
    requires 0 < divisor < I64_LIMIT && Between(limit, targets) && limit < SAFE_LIMIT
    ensures AlwaysFine(limit, divisor, targets)
  {
    forall used: nat | used <= limit
      ensures Fine(limit, used, divisor, targets)
    {
      MiddleStep(limit, used, divisor, targets);
    }
  }

  /**
   * A block built on a parent that used no more gas than its limit passes the verifier's check against
   * that parent, whatever the parent used, if and only if the parent's limit is outside the targets or
   * small enough for the signed arithmetic.
   */
  lemma BuiltIsAcceptedIff(limit: nat, divisor: nat, targets: Targets)
    requires 0 < divisor < I64_LIMIT
    ensures AlwaysFine(limit, divisor, targets) <==> limit < targets.floor || limit > targets.ceil || limit < SAFE_LIMIT
  {
    if !Between(limit, targets) {
      OutsideFine(limit, divisor, targets);
    } else if limit < SAFE_LIMIT {
      MiddleFine(limit, divisor, targets);
    } else {
      MiddleOverflows(limit, divisor, targets);
      assert !Fine(limit, SAFE_LIMIT, divisor, targets);
    }
  }

  ghost predicate Enough(limit: nat, used: nat, divisor: nat, targets: Targets, minGasLimit: nat)
    requires 0 < divisor < I64_LIMIT
  {
    NextLimit(limit, used, divisor, targets).Some? && NextLimit(limit, used, divisor, targets).value >= minGasLimit
  }

  /**
   * It also passes the check against the chain's minimum, whatever the parent used, exactly when one downward
   * step does.
   */
  lemma BuiltIsEnoughIff(limit: nat, divisor: nat, targets: Targets, minGasLimit: nat)
    requires 0 < divisor < I64_LIMIT && limit < SAFE_LIMIT
    ensures (forall used: nat | used <= limit :: Enough(limit, used, divisor, targets, minGasLimit))
            <==> (if limit < targets.floor then limit + limit / divisor else limit - limit / divisor) >= minGasLimit
  {
    if !Between(limit, targets) {
      forall used: nat | used <= limit
        ensures Enough(limit, used, divisor, targets, minGasLimit) <==>
                (if limit < targets.floor then limit + limit / divisor else limit - limit / divisor) >= minGasLimit
      {
        OutsideStep(limit, used, divisor, targets);
      }
      assert Enough(limit, 0, divisor, targets, minGasLimit) <==>
             (if limit < targets.floor then limit + limit / divisor else limit - limit / divisor) >= minGasLimit;
    } else {
      forall used: nat | used <= limit
        ensures limit - limit / divisor >= minGasLimit ==> Enough(limit, used, divisor, targets, minGasLimit)
      {
        MiddleStep(limit, used, divisor, targets);
      }
      MiddleStep(limit, 0, divisor, targets);
      assert Enough(limit, 0, divisor, targets, minGasLimit) <==> limit - limit / divisor >= minGasLimit;
    }
  }

  /** With this range configured, no block built on a parent from the minimum up to 2^61 falls below the minimum. */
  ghost predicate RangeIsSafe(range: (nat, nat), divisor: nat, minGasLimit: nat)
    requires 0 < divisor < I64_LIMIT
  {
    forall limit: nat, used: nat | minGasLimit <= limit < SAFE_LIMIT && used <= limit ::
      Enough(limit, used, divisor, TargetsOf(range, minGasLimit), minGasLimit)
  }

  /** Above a floor one step below which is still enough, every step down is. */
  lemma StepIsEnough(limit: nat, used: nat, divisor: nat, targets: Targets, minGasLimit: nat)
    requires 0 < divisor < I64_LIMIT && used <= limit && minGasLimit <= limit < SAFE_LIMIT
    requires limit < targets.floor || targets.floor - targets.floor / divisor >= minGasLimit
    ensures Enough(limit, used, divisor, targets, minGasLimit)
  {
    if targets.floor <= limit {
      QuotientGap(targets.floor, limit, divisor);
    } else {
      QuotientAtLeast(limit, divisor, 0);
    }
    if Between(limit, targets) {
      MiddleStep(limit, used, divisor, targets);
    } else {
      OutsideStep(limit, used, divisor, targets);
    }
  }

  /**
   * A configured range is safe if and only if its floor, once raised to the minimum, is beyond the signed
   * arithmetic or leaves room for one step down.
   */
  lemma RangeIsSafeIff(range: (nat, nat), divisor: nat, minGasLimit: nat)
    requires 0 < divisor < I64_LIMIT
    ensures var floor := TargetsOf(range, minGasLimit).floor;
            RangeIsSafe(range, divisor, minGasLimit) <==>
            floor >= SAFE_LIMIT || floor - floor / divisor >= minGasLimit
  {
    var targets := TargetsOf(range, minGasLimit);
    if targets.floor >= SAFE_LIMIT || targets.floor - targets.floor / divisor >= minGasLimit {
      forall limit: nat, used: nat | minGasLimit <= limit < SAFE_LIMIT && used <= limit
        ensures Enough(limit, used, divisor, targets, minGasLimit)
      {
        StepIsEnough(limit, used, divisor, targets, minGasLimit);
      }
    } else {
      MiddleStep(targets.floor, 0, divisor, targets);
      assert !Enough(targets.floor, 0, divisor, targets, minGasLimit);
    }
  }

  /** The range a node uses unless told otherwise is safe on the main network. */
  lemma DefaultRangeIsSafe()
    ensures RangeIsSafe((15_000_000, 20_000_000), 1024, 1_050_000)
  {
    RangeIsSafeIff((15_000_000, 20_000_000), 1024, 1_050_000);
  }

  /**
   * A floor configured no higher than the minimum is not safe: a block on an empty parent at the minimum falls
   * below it, on the main network by 1025.
   */
  lemma LowFloorUndercuts(range: (nat, nat), divisor: nat, minGasLimit: nat)
    requires 0 < divisor <= minGasLimit < SAFE_LIMIT && range.0 <= minGasLimit
    ensures !RangeIsSafe(range, divisor, minGasLimit)
    ensures var next := NextLimit(minGasLimit, 0, divisor, TargetsOf(range, minGasLimit));
            next.Some? && next.value == minGasLimit - minGasLimit / divisor < minGasLimit
    ensures NextLimit(1_050_000, 0, 1024, TargetsOf((0, 0), 1_050_000)) == Some(1_048_975)
  {
    RangeIsSafeIff(range, divisor, minGasLimit);
    QuotientAtLeast(minGasLimit, divisor, 1);
    MiddleStep(minGasLimit, 0, divisor, TargetsOf(range, minGasLimit));
    MiddleStep(1_050_000, 0, 1024, TargetsOf((0, 0), 1_050_000));
  }

  // ---------------------------------------------------------------------------------------------
  // Runs

  /** The limits between which a chain of built blocks stays. */
  ghost predicate InBand(limit: nat, divisor: nat, targets: Targets)
    requires 0 < divisor
  {
    targets.floor - targets.floor / divisor <= limit <= targets.ceil + targets.ceil / divisor
  }

  ghost predicate Workable(divisor: nat, targets: Targets) {
    0 < divisor < I64_LIMIT && targets.floor <= targets.ceil < SAFE_LIMIT
  }

  /** The limits of a chain of built blocks; the `i`-th parent used `used(i)` gas, at most its limit. */
  function LimitAt(start: nat, used: nat -> nat, divisor: nat, targets: Targets, n: nat): Option<nat>
    requires 0 < divisor < I64_LIMIT
  {
    if n == 0 then Some(start)
    else
      var limit := LimitAt(start, used, divisor, targets, n - 1);
      if limit.None? then None
      else NextLimit(limit.value, if used(n - 1) <= limit.value then used(n - 1) else limit.value, divisor, targets)
  }

  lemma OutsideInBand(limit: nat, divisor: nat, targets: Targets)
    requires Workable(divisor, targets) && InBand(limit, divisor, targets) && !Between(limit, targets)
             && limit / divisor <= limit
    ensures InBand(if limit < targets.floor then limit + limit / divisor else limit - limit / divisor, divisor, targets)
  {
    if limit < targets.floor {
      QuotientMonotone(limit, targets.floor, divisor);
      QuotientMonotone(targets.floor, targets.ceil, divisor);
      QuotientAtLeast(limit, divisor, 0);
    } else {
      QuotientGap(targets.floor, limit, divisor);
      QuotientAtLeast(limit, divisor, 0);
    }
  }

  lemma MiddleInBand(limit: nat, next: nat, divisor: nat, targets: Targets)
    requires Workable(divisor, targets) && Between(limit, targets) && AcceptedAfter(limit, next, divisor)
    ensures InBand(next, divisor, targets)
  {
    QuotientGap(targets.floor, limit, divisor);
    QuotientMonotone(limit, targets.ceil, divisor);
  }

  lemma StepInBand(limit: nat, used: nat, divisor: nat, targets: Targets)
    requires Workable(divisor, targets) && used <= limit && InBand(limit, divisor, targets)
    ensures NextLimit(limit, used, divisor, targets).Some?
    ensures InBand(NextLimit(limit, used, divisor, targets).value, divisor, targets)
  {
    if !Between(limit, targets) {
      OutsideStep(limit, used, divisor, targets);
      OutsideInBand(limit, divisor, targets);
    } else {
      MiddleStep(limit, used, divisor, targets);
      MiddleInBand(limit, NextLimit(limit, used, divisor, targets).value, divisor, targets);
    }
  }

  /** Whatever the blocks use, a chain that starts inside the band stays inside it. */
  lemma {:induction false} BandHolds(start: nat, used: nat -> nat, divisor: nat, targets: Targets, n: nat)
    requires Workable(divisor, targets) && InBand(start, divisor, targets)
    ensures LimitAt(start, used, divisor, targets, n).Some?
            && InBand(LimitAt(start, used, divisor, targets, n).value, divisor, targets)
    decreases n
  {
    if n > 0 {
      BandHolds(start, used, divisor, targets, n - 1);
      var limit := LimitAt(start, used, divisor, targets, n - 1).value;
      StepInBand(limit, if used(n - 1) <= limit then used(n - 1) else limit, divisor, targets);
    }
  }

  /** A limit of at least `divisor` below the floor climbs, block by block, until it reaches the floor. */
  lemma {:induction false} ClimbsToFloor(start: nat, used: nat -> nat, divisor: nat, targets: Targets, n: nat)
    returns (k: nat)
    requires Workable(divisor, targets) && divisor <= start && n >= targets.floor - start
    ensures k <= n && LimitAt(start, used, divisor, targets, k).Some?
            && LimitAt(start, used, divisor, targets, k).value >= targets.floor
  {
    k := 0;
    while LimitAt(start, used, divisor, targets, k).value < targets.floor
      invariant k <= n && LimitAt(start, used, divisor, targets, k).Some?
      invariant LimitAt(start, used, divisor, targets, k).value >= start + k
                || LimitAt(start, used, divisor, targets, k).value >= targets.floor
      decreases n - k
    {
      var limit := LimitAt(start, used, divisor, targets, k).value;
      OutsideStep(limit, if used(k) <= limit then used(k) else limit, divisor, targets);
      QuotientAtLeast(limit, divisor, 1);
      k := k + 1;
    }
  }

  /** The floor is the configured one, raised to the minimum; the ceiling the configured one, raised to the floor. */
  lemma TargetsFit(range: (nat, nat), minGasLimit: nat)
    ensures var targets := TargetsOf(range, minGasLimit);
            && minGasLimit <= targets.floor <= targets.ceil && range.0 <= targets.floor && range.1 <= targets.ceil
            && targets.floor in {minGasLimit, range.0} && targets.ceil in {targets.floor, range.1}
  {
  }
}
