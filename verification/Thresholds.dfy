/**
 Acceptance thresholds in integer basis points. bigint division truncates toward zero
 and throws on a zero divisor. Participation and approval follow one curve of the capped
 ratio between amount and balance, each with its own constant; three floors separate
 the integer curve from the smooth one, and the lemmas bound what they cost and show
 that none of them breaks monotonicity.
 */
module Thresholds {
  import opened Wrappers

  /** The quotient of two bigints, None where the division throws. */
  function Quotient(a: int, b: int): Option<int> {
    if b == 0 then None
    else if a >= 0 then Some(if b > 0 then a / b else -(a / -b))
    else Some(if b > 0 then -(-a / b) else -a / -b)
  }

  const UNIT := 10_000

  datatype Expectations = Expectations(
    requiredParticipationBp: int, requiredApprovalBp: int, requiredParticipation: int, amountWithBond: int)

  /** The amount as a share of the balance, at most one. */
  function CappedRatio(amount: int, balance: int): Option<int> {
    match Quotient(amount * UNIT, balance)
    case None => None
    case Some(ratio) => Some(if ratio > UNIT then UNIT else ratio)
  }

  /** The divisor of the curve; the inner division is by a constant. */
  function Divisor(constant: nat, capped: int): int
    requires capped <= UNIT
  {
    capped + constant * (UNIT - capped) / UNIT
  }

  function Curve(constant: nat, capped: int): Option<int>
    requires capped <= UNIT
  {
    Quotient(capped * UNIT, Divisor(constant, capped))
  }

  const PARTICIPATION_CONSTANT := 500
  const APPROVAL_CONSTANT := 1_000

  /** lifecycleExpectations; None where it throws. */
  function LifecycleExpectations(amount: int, balance: int, totalCurrency: int): Option<Expectations> {
    match CappedRatio(amount, balance)
    case None => None
    case Some(capped) =>
      match Curve(PARTICIPATION_CONSTANT, capped)
      case None => None
      case Some(p) =>
        match Curve(APPROVAL_CONSTANT, capped)
        case None => None
        case Some(a) =>
          var participation := 2_000 + Quotient(3_000 * p, UNIT).value;
          var approval := 5_100 + Quotient(1_900 * a, UNIT).value;
          Some(Expectations(
            participation, approval, Quotient(totalCurrency * participation, UNIT).value, amount + Quotient(amount, 10).value))
  }

  lemma QuotientTimes(a: int, b: int, m: nat, d: nat)
    requires b != 0 && m == (if a < 0 then -a else a) && d == (if b < 0 then -b else b)
    ensures Quotient(a, b).Some?
    ensures Quotient(a, b).value * b == if a < 0 then -(m / d * d) else m / d * d
  {
    SignsOfProduct(m / d, d);
  }

  /** What a multiple of the divisor leaves of a: less than the divisor, on the side of a. */
  predicate Truncates(a: int, b: int, multiple: int) {
    var rest := a - multiple;
    (rest == 0 || (rest > 0 <==> a > 0)) && (if rest < 0 then -rest else rest) < (if b < 0 then -b else b)
  }

  /** bigint division truncates: what is left over is smaller than the divisor and has the sign of the dividend. */
  lemma QuotientTruncates(a: int, b: int)
    ensures Quotient(a, b).None? <==> b == 0
    ensures b != 0 ==> Truncates(a, b, Quotient(a, b).value * b)
  {
    if b != 0 {
      var m, d := if a < 0 then -a else a, if b < 0 then -b else b;
      QuotientTimes(a, b, m, d);
      RemainderIsSmall(m, d);
      MultipleTruncates(a, b, m / d * d);
    }
  }

  lemma MultipleTruncates(a: int, b: int, k: int)
    requires 0 <= (if a < 0 then -a else a) - k < (if b < 0 then -b else b) && k >= 0
    ensures Truncates(a, b, if a < 0 then -k else k)
  {
  }

  lemma RemainderIsSmall(m: nat, d: nat)
    requires d > 0
    ensures 0 <= m - m / d * d < d && m / d * d >= 0
  {
    assert m == m / d * d + m % d;
  }

  lemma SignsOfProduct(q: int, d: int)
    ensures (-q) * d == -(q * d) && q * (-d) == -(q * d) && (-q) * (-d) == q * d
  {
  }

  // ---------------------------------------------------------------- where it is defined

  lemma DivisorIsZero(capped: int)
    requires capped <= UNIT
    ensures Divisor(PARTICIPATION_CONSTANT, capped) == 0 <==> capped == -526
    ensures Divisor(APPROVAL_CONSTANT, capped) == 0 <==> capped == -1_111
  {
  }

  /** The computation throws for no other reason than a zero balance or one of two negative ratios. */
  lemma ThrowsExactlyAt(amount: int, balance: int, totalCurrency: int)
    ensures LifecycleExpectations(amount, balance, totalCurrency).None? <==>
      balance == 0 || CappedRatio(amount, balance) == Some(-526) || CappedRatio(amount, balance) == Some(-1_111)
  {
    if balance != 0 {
      DivisorIsZero(CappedRatio(amount, balance).value);
    }
  }

  /** Both exceptions occur: a negative amount can make the documented formula divide by zero. */
  lemma NegativeAmountsCanThrow(totalCurrency: int)
    ensures LifecycleExpectations(-526, 10_000, totalCurrency).None?
    ensures LifecycleExpectations(-1_111, 10_000, totalCurrency).None?
  {
    assert Quotient(-526 * UNIT, 10_000) == Some(-526);
    assert Quotient(-1_111 * UNIT, 10_000) == Some(-1_111);
    ThrowsExactlyAt(-526, 10_000, totalCurrency);
    ThrowsExactlyAt(-1_111, 10_000, totalCurrency);
  }

  // ---------------------------------------------------------------- bounds

  lemma RatioInRange(amount: nat, balance: int)
    requires balance > 0
    ensures CappedRatio(amount, balance).Some? && 0 <= CappedRatio(amount, balance).value <= UNIT
  {
  }

  lemma QuotientAtMost(a: nat, b: int, m: nat)
    requires b > 0 && a <= m * b
    ensures a / b <= m
  {
    if a / b > m {
      MulLe(m + 1, a / b, b);
    }
  }

  lemma MulLe(x: nat, y: nat, z: nat)
    requires x <= y
    ensures x * z <= y * z
  {
  }

  lemma DivisorInRange(constant: nat, capped: int)
    requires 0 <= capped <= UNIT && (constant == PARTICIPATION_CONSTANT || constant == APPROVAL_CONSTANT)
    ensures Divisor(constant, capped) > 0 && Divisor(constant, capped) >= capped
  {
  }

  lemma CurveInRange(constant: nat, capped: int)
    requires 0 <= capped <= UNIT && (constant == PARTICIPATION_CONSTANT || constant == APPROVAL_CONSTANT)
    ensures Divisor(constant, capped) > 0
    ensures Curve(constant, capped).Some? && 0 <= Curve(constant, capped).value <= UNIT
    ensures Curve(constant, capped).value == capped * UNIT / Divisor(constant, capped)
  {
    DivisorInRange(constant, capped);
    QuotientAtMost(capped * UNIT, Divisor(constant, capped), UNIT);
  }

  /** For every amount and positive balance: no exception, and both thresholds within their bounds. */
  lemma ThresholdsInRange(amount: nat, balance: int, totalCurrency: int)
    requires balance > 0
    ensures LifecycleExpectations(amount, balance, totalCurrency).Some?
    ensures
      var e := LifecycleExpectations(amount, balance, totalCurrency).value;
      2_000 <= e.requiredParticipationBp <= 5_000 && 5_100 <= e.requiredApprovalBp <= 7_000
  {
    RatioInRange(amount, balance);
    var capped := CappedRatio(amount, balance).value;
    CurveInRange(PARTICIPATION_CONSTANT, capped);
    CurveInRange(APPROVAL_CONSTANT, capped);
  }

  // ---------------------------------------------------------------- monotonicity

  lemma MulAssociates(x: nat, y: nat, z: nat)
    ensures x * y * z == x * (y * z) == x * (z * y)
  {
  }

  lemma QuotientsCompare(q: nat, b: nat, a: nat, r: nat, d: nat, c: nat)
    requires b > 0 && d > 0 && q * b <= a && c < (r + 1) * d && a * d <= c * b
    ensures q <= r
  {
    MulLe(q * b, a, d);
    MulLt(c, (r + 1) * d, b);
    MulAssociates(q, b, d);
    MulAssociates(r + 1, d, b);
    ProductLess(q, r + 1, b * d);
  }

  /** Floors of comparable fractions. */
  lemma FloorsCompare(a: nat, b: int, c: nat, d: int)
    requires b > 0 && d > 0 && a * d <= c * b
    ensures a / b <= c / d
  {
    QuotientBounds(a, b);
    QuotientBounds(c, d);
    QuotientsCompare(a / b, b, a, c / d, d, c);
  }

  lemma ProductLess(x: nat, y: nat, z: nat)
    requires x * z < y * z
    ensures x < y
  {
    assert (y - x) * z == y * z - x * z;
  }

  lemma MulLt(x: nat, y: nat, z: nat)
    requires x < y && z > 0
    ensures x * z < y * z
  {
  }

  lemma DivisorGrowsSlowly(constant: nat, x: int, y: int)
    requires 0 <= x <= y <= UNIT && (constant == PARTICIPATION_CONSTANT || constant == APPROVAL_CONSTANT)
    ensures Divisor(constant, y) - y <= Divisor(constant, x) - x
    ensures Divisor(constant, x) - x >= 0
  {
  }

  /** A larger ratio never lowers the curve. */
  lemma CurveIsMonotone(constant: nat, x: int, y: int)
    requires 0 <= x <= y <= UNIT && (constant == PARTICIPATION_CONSTANT || constant == APPROVAL_CONSTANT)
    ensures Curve(constant, x).Some? && Curve(constant, y).Some?
    ensures Curve(constant, x).value <= Curve(constant, y).value
  {
    CurveInRange(constant, x);
    CurveInRange(constant, y);
    DivisorGrowsSlowly(constant, x, y);
    var g, h := Divisor(constant, x) - x, Divisor(constant, y) - y;
    CrossMultiply(x, y, g, h);
    FloorsCompare(x * UNIT, x + g, y * UNIT, y + h);
  }

  lemma CrossMultiply(x: nat, y: nat, g: nat, h: nat)
    requires x <= y && h <= g
    ensures x * UNIT * (y + h) <= y * UNIT * (x + g)
  {
    assert x * h <= y * g by {
      MulLe(x, y, h);
      MulLe(h, g, y);
    }
    assert x * (y + h) == x * y + x * h && y * (x + g) == x * y + y * g;
    assert x * UNIT * (y + h) == UNIT * (x * (y + h)) && y * UNIT * (x + g) == UNIT * (y * (x + g));
  }

  /** The capped ratio rises with the amount and falls with the balance. */
  lemma RatioIsMonotone(amount: nat, balance: int, more: nat, less: int)
    requires amount <= more && 0 < less <= balance
    ensures CappedRatio(amount, balance).Some? && CappedRatio(more, less).Some?
    ensures CappedRatio(amount, balance).value <= CappedRatio(more, less).value
  {
    assert amount * UNIT * less <= more * UNIT * balance by {
      MulLe(amount * UNIT, more * UNIT, less);
      MulLe(less, balance, more * UNIT);
    }
    FloorsCompare(amount * UNIT, balance, more * UNIT, less);
  }

  lemma ScaledFloorIsMonotone(span: nat, p: nat, q: nat)
    requires p <= q
    ensures span * p / UNIT <= span * q / UNIT
  {
    MulLe(p, q, span);
  }

  /** Both thresholds are nondecreasing in the amount and nonincreasing in the balance. */
  lemma ThresholdsAreMonotone(amount: nat, balance: int, more: nat, less: int, totalCurrency: int)
    requires amount <= more && 0 < less <= balance
    ensures
      var e, f := LifecycleExpectations(amount, balance, totalCurrency), LifecycleExpectations(more, less, totalCurrency);
      && e.Some? && f.Some?
      && e.value.requiredParticipationBp <= f.value.requiredParticipationBp
      && e.value.requiredApprovalBp <= f.value.requiredApprovalBp
  {
    RatioInRange(amount, balance);
    RatioInRange(more, less);
    RatioIsMonotone(amount, balance, more, less);
    var x, y := CappedRatio(amount, balance).value, CappedRatio(more, less).value;
    CurveIsMonotone(PARTICIPATION_CONSTANT, x, y);
    CurveIsMonotone(APPROVAL_CONSTANT, x, y);
    CurveInRange(PARTICIPATION_CONSTANT, x);
    CurveInRange(APPROVAL_CONSTANT, x);
    ScaledFloorIsMonotone(3_000, Curve(PARTICIPATION_CONSTANT, x).value, Curve(PARTICIPATION_CONSTANT, y).value);
    ScaledFloorIsMonotone(1_900, Curve(APPROVAL_CONSTANT, x).value, Curve(APPROVAL_CONSTANT, y).value);
  }

  // ---------------------------------------------------------------- distance from the unfloored formula

  /** The divisor of the formula without floors, times UNIT. */
  function ExactDivisor(constant: nat, capped: int): int {
    UNIT * capped + constant * (UNIT - capped)
  }

  /** span times the curve without floors: span * capped / (capped + constant * (UNIT - capped) / UNIT). */
  function ExactCurve(constant: nat, span: nat, capped: int): real
    requires ExactDivisor(constant, capped) != 0
  {
    (span * UNIT * capped) as real / ExactDivisor(constant, capped) as real
  }

  lemma ExactDivisorBounds(constant: nat, capped: int)
    requires 0 <= capped <= UNIT && (constant == PARTICIPATION_CONSTANT || constant == APPROVAL_CONSTANT)
    ensures UNIT * Divisor(constant, capped) <= ExactDivisor(constant, capped) < UNIT * (Divisor(constant, capped) + 1)
    ensures 100 * Divisor(constant, capped) >= 95 * capped + 49_900
  {
  }

  /** Twice the geometric mean is at most the sum. */
  lemma SquareOfSum(u: nat, v: nat)
    ensures (u + v) * (u + v) >= 4 * u * v
  {
    assert (u + v) * (u + v) - 4 * u * v == (u - v) * (u - v);
  }

  lemma DivisorSquare(constant: nat, capped: int)
    requires 0 <= capped <= UNIT && (constant == PARTICIPATION_CONSTANT || constant == APPROVAL_CONSTANT)
    ensures Divisor(constant, capped) * Divisor(constant, capped) >= 1_000 * capped
  {
    var d := Divisor(constant, capped);
    ExactDivisorBounds(constant, capped);
    DivisorInRange(constant, capped);
    SquareOfSum(95 * capped, 49_900);
    SquareIsMonotone(95 * capped + 49_900, 100 * d);
    assert (100 * d) * (100 * d) == 10_000 * (d * d);
  }

  lemma SquareIsMonotone(x: nat, y: nat)
    requires x <= y
    ensures x * x <= y * y
  {
    MulLe(x, y, x);
    MulLe(x, y, y);
  }

  lemma CurveFromAbove(k: nat, d: nat, n: nat, x: nat)
    requires k * d <= UNIT * x && n <= UNIT * (d + 1)
    ensures k * n <= UNIT * UNIT * x + UNIT * k
  {
    MulLe(n, UNIT * (d + 1), k);
    assert UNIT * (d + 1) * k == UNIT * (k * d) + UNIT * k;
  }

  lemma CurveFromBelow(k: nat, d: nat, n: nat, x: nat)
    requires UNIT * x <= (k + 1) * d && UNIT * d <= n
    ensures UNIT * UNIT * x <= k * n + n
  {
    MulLe(UNIT * d, n, k + 1);
    assert UNIT * d * (k + 1) == UNIT * ((k + 1) * d);
    assert n * (k + 1) == k * n + n;
  }

  lemma CurveIsSmall(k: nat, d: nat, x: nat)
    requires d > 0 && k * d <= UNIT * x && d * d >= 1_000 * x
    ensures k <= 10 * d
  {
    assert (10 * d + 1) * d == 10 * (d * d) + d;
    ProductLess(k, 10 * d + 1, d);
  }

  lemma QuotientBounds(a: nat, d: int)
    requires d > 0
    ensures a / d >= 0 && a / d * d <= a < (a / d + 1) * d
  {
    assert (a / d + 1) * d == a / d * d + d;
  }

  /** The floored curve k of a ratio against the exact one, multiplied out by the exact divisor n. */
  lemma CurveIsClose(constant: nat, x: int)
    requires 0 <= x <= UNIT && (constant == PARTICIPATION_CONSTANT || constant == APPROVAL_CONSTANT)
    ensures Curve(constant, x).Some?
    ensures
      var n, k := ExactDivisor(constant, x), Curve(constant, x).value;
      n > 0 && k >= 0 && 1_000 * k <= n && UNIT * UNIT * x - n <= k * n <= UNIT * UNIT * x + UNIT * k
  {
    CurveInRange(constant, x);
    ExactDivisorBounds(constant, x);
    DivisorSquare(constant, x);
    var n, d, k := ExactDivisor(constant, x), Divisor(constant, x), Curve(constant, x).value;
    QuotientBounds(x * UNIT, d);
    CurveFromAbove(k, d, n, x);
    CurveFromBelow(k, d, n, x);
    CurveIsSmall(k, d, x);
  }

  /** From a curve to a threshold: another floor, and a smaller span. kn and qn are the products with n. */
  lemma ScaledBounds(span: nat, k: nat, q: nat, x: nat, n: nat, kn: int, qn: int)
    requires span == 3_000 || span == 1_900
    requires UNIT * qn <= span * kn <= UNIT * qn + UNIT * n
    requires 1_000 * k <= n && UNIT * UNIT * x - n <= kn <= UNIT * UNIT * x + UNIT * k
    ensures span * UNIT * x - 3 * n <= qn <= span * UNIT * x + 3 * n
  {
  }

  lemma ScaledProducts(span: nat, k: nat, n: nat)
    ensures
      var q := span * k / UNIT;
      UNIT * (q * n) <= span * (k * n) <= UNIT * (q * n) + UNIT * n
  {
    var q := span * k / UNIT;
    MulLe(UNIT * q, span * k, n);
    MulLe(span * k, UNIT * q + UNIT, n);
    assert UNIT * q * n == UNIT * (q * n) && span * k * n == span * (k * n);
    assert (UNIT * q + UNIT) * n == UNIT * (q * n) + UNIT * n;
  }

  /** A scaled floor of the curve, multiplied out. */
  lemma ScaledIsClose(constant: nat, span: nat, x: int)
    requires 0 <= x <= UNIT && (constant == PARTICIPATION_CONSTANT || constant == APPROVAL_CONSTANT)
    requires span == 3_000 || span == 1_900
    ensures Curve(constant, x).Some? && Curve(constant, x).value >= 0 && ExactDivisor(constant, x) > 0
    ensures
      var n, q := ExactDivisor(constant, x), span * Curve(constant, x).value / UNIT;
      span * UNIT * x - 3 * n <= q * n <= span * UNIT * x + 3 * n
  {
    CurveIsClose(constant, x);
    var n, k := ExactDivisor(constant, x), Curve(constant, x).value;
    ScaledProducts(span, k, n);
    ScaledBounds(span, k, span * k / UNIT, x, n, k * n, span * k / UNIT * n);
  }

  lemma RealOfProduct(q: int, n: int)
    ensures (q * n) as real == q as real * n as real
  {
  }

  lemma ShiftedProduct(exact: real, m: real)
    ensures (exact - 3.0) * m == exact * m - 3.0 * m && (exact + 3.0) * m == exact * m + 3.0 * m
  {
  }

  lemma DividesOut(q: int, target: int, n: int)
    requires n > 0 && target - 3 * n <= q * n <= target + 3 * n
    ensures target as real / n as real - 3.0 <= q as real <= target as real / n as real + 3.0
  {
    RealOfProduct(q, n);
    var exact := target as real / n as real;
    assert exact * n as real == target as real;
    ShiftedProduct(exact, n as real);
    RealProductOrder(exact - 3.0, q as real, n as real);
    RealProductOrder(q as real, exact + 3.0, n as real);
  }

  lemma RealProductOrder(x: real, y: real, m: real)
    requires m > 0.0 && x * m <= y * m
    ensures x <= y
  {
    assert (y - x) * m >= 0.0;
  }

  /** For every ratio both thresholds are within three basis points of the formula without floors. */
  lemma ThresholdsAreClose(amount: nat, balance: int, totalCurrency: int)
    requires balance > 0
    ensures
      var capped, e := CappedRatio(amount, balance).value, LifecycleExpectations(amount, balance, totalCurrency).value;
      && ExactDivisor(500, capped) > 0 && ExactDivisor(1_000, capped) > 0
      && Within(e.requiredParticipationBp, 2_000.0 + ExactCurve(500, 3_000, capped))
      && Within(e.requiredApprovalBp, 5_100.0 + ExactCurve(1_000, 1_900, capped))
  {
    RatioInRange(amount, balance);
    ThresholdsInRange(amount, balance, totalCurrency);
    var x := CappedRatio(amount, balance).value;
    ScaledIsClose(PARTICIPATION_CONSTANT, 3_000, x);
    ScaledIsClose(APPROVAL_CONSTANT, 1_900, x);
    CurveInRange(PARTICIPATION_CONSTANT, x);
    CurveInRange(APPROVAL_CONSTANT, x);
    DividesOut(
      3_000 * Curve(PARTICIPATION_CONSTANT, x).value / UNIT, 3_000 * UNIT * x, ExactDivisor(PARTICIPATION_CONSTANT, x));
    DividesOut(1_900 * Curve(APPROVAL_CONSTANT, x).value / UNIT, 1_900 * UNIT * x, ExactDivisor(APPROVAL_CONSTANT, x));
  }

  predicate Within(bp: int, exact: real) {
    exact - 3.0 <= bp as real <= exact + 3.0
  }

  /** The ratio is the amount in ten-thousandths of the balance, rounded down, and at most the whole. */
  lemma RatioIsCappedShare(amount: nat, balance: int)
    requires balance > 0
    ensures CappedRatio(amount, balance).Some?
    ensures
      var x := CappedRatio(amount, balance).value;
      if amount >= balance then x == 10_000 else x * balance <= amount * 10_000 < (x + 1) * balance && x < 10_000
  {
    var a, q := amount * 10_000, amount * 10_000 / balance;
    QuotientBounds(a, balance);
    if amount >= balance {
      MulLe(10_000, q, balance) by { if q < 10_000 { MulLe(q + 1, 10_000, balance); } }
    } else {
      if q >= 10_000 { MulLe(10_000, q, balance); }
    }
  }

  lemma CurveEnds(constant: nat)
    requires constant == PARTICIPATION_CONSTANT || constant == APPROVAL_CONSTANT
    ensures Curve(constant, 0) == Some(0) && Curve(constant, 10_000) == Some(10_000)
  {
    assert Divisor(constant, 0) == constant && Divisor(constant, 10_000) == 10_000;
  }

  /** At the ends of the curve the thresholds are the documented ones. */
  lemma ThresholdsAtTheEnds(amount: nat, balance: int, totalCurrency: int)
    requires balance > 0 && (amount == 0 || amount >= balance)
    ensures LifecycleExpectations(amount, balance, totalCurrency).Some?
    ensures
      var e := LifecycleExpectations(amount, balance, totalCurrency).value;
      if amount == 0 then e.requiredParticipationBp == 2_000 && e.requiredApprovalBp == 5_100
      else e.requiredParticipationBp == 5_000 && e.requiredApprovalBp == 7_000
  {
    RatioIsCappedShare(amount, balance);
    CurveEnds(PARTICIPATION_CONSTANT);
    CurveEnds(APPROVAL_CONSTANT);
    if amount == 0 { NoAmountNoRatio(balance); }
  }

  lemma NoAmountNoRatio(balance: int)
    requires balance > 0
    ensures CappedRatio(0, balance) == Some(0)
  {
  }

  /** The required participation is that share of the total currency, rounded down: between a fifth and a half of it. */
  lemma ParticipationIsShareOfCurrency(amount: nat, balance: int, totalCurrency: nat)
    requires balance > 0
    ensures LifecycleExpectations(amount, balance, totalCurrency).Some?
    ensures
      var e := LifecycleExpectations(amount, balance, totalCurrency).value;
      && e.requiredParticipation * 10_000 <= totalCurrency * e.requiredParticipationBp < (e.requiredParticipation + 1) * 10_000
      && totalCurrency / 5 <= e.requiredParticipation <= totalCurrency / 2
  {
    ThresholdsInRange(amount, balance, totalCurrency);
    var bp := LifecycleExpectations(amount, balance, totalCurrency).value.requiredParticipationBp;
    MulLe(2_000, bp, totalCurrency);
    MulLe(bp, 5_000, totalCurrency);
  }

  /** The amount with its bond is eleven tenths of the amount, rounded down. */
  lemma BondIsATenth(amount: nat, balance: int, totalCurrency: int)
    requires balance > 0
    ensures LifecycleExpectations(amount, balance, totalCurrency).Some?
    ensures LifecycleExpectations(amount, balance, totalCurrency).value.amountWithBond == 11 * amount / 10
  {
    ThresholdsInRange(amount, balance, totalCurrency);
  }
}
