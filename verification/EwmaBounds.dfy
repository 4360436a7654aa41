/**
 What the moving average keeps on every run, and how it converges under
 constant input although outliers are clipped and the mean absolute deviation is not.
 */
module EwmaBounds {
  import opened Ewma

  // ---- Arithmetic on one step, over plain numbers ----

  lemma MulMonotone(k: real, a: real, b: real)
    requires k >= 0.0 && a <= b
    ensures k * a <= k * b
  {}

  lemma NonNegativeProduct(a: real, b: real)
    requires a >= 0.0 && b >= 0.0
    ensures a * b >= 0.0
  {}

  lemma SquareMonotone(a: real, b: real)
    requires 0.0 <= a <= b
    ensures a * a <= b * b
  {
    MulMonotone(a, a, b);
    MulMonotone(b, a, b);
  }

  lemma SquareOfAbs(x: real)
    ensures x * x == Abs(x) * Abs(x) && x * x >= 0.0
  {}

  /** A convex combination stays within common bounds. */
  lemma Convex(alpha: real, a: real, b: real, lo: real, hi: real)
    requires 0.0 <= alpha <= 1.0 && lo <= a <= hi && lo <= b <= hi
    ensures lo <= (1.0 - alpha) * a + alpha * b <= hi
  {
    NonNegativeProduct(1.0 - alpha, hi - a);
    NonNegativeProduct(alpha, hi - b);
    NonNegativeProduct(1.0 - alpha, a - lo);
    NonNegativeProduct(alpha, b - lo);
  }

  lemma Share(alpha: real, b: real)
    requires 0.0 <= alpha <= 1.0
    ensures b >= 0.0 ==> 0.0 <= alpha * b <= b
    ensures b <= 0.0 ==> b <= alpha * b <= 0.0
  {
    if b >= 0.0 {
      NonNegativeProduct(alpha, b);
      NonNegativeProduct(1.0 - alpha, b);
    } else {
      NonNegativeProduct(alpha, -b);
      NonNegativeProduct(1.0 - alpha, -b);
    }
  }

  /** `b` points the same way as `delta` and is no longer. */
  predicate Towards(b: real, delta: real) {
    (delta >= 0.0 ==> 0.0 <= b <= delta) && (delta <= 0.0 ==> delta <= b <= 0.0)
  }

  lemma ClampShortens(delta: real, limit: real)
    requires limit >= 0.0
    ensures Towards(Clamp(delta, -limit, limit), delta)
    ensures Abs(Clamp(delta, -limit, limit)) == MinReal(Abs(delta), limit)
  {}

  lemma BoundedIsShorter(s: Stats, x: real, sqrt: real -> real)
    ensures Towards(Bounded(s, x, sqrt), x - s.mean)
    ensures Abs(Bounded(s, x, sqrt)) == MinReal(Abs(x - s.mean), 3.0 * RobustStddevOf(s, sqrt))
  {
    ClampShortens(x - s.mean, 3.0 * RobustStddevOf(s, sqrt));
  }

  lemma ShareIsTowards(alpha: real, b: real)
    requires 0.0 <= alpha <= 1.0
    ensures Towards(alpha * b, b) && Abs(alpha * b) == alpha * Abs(b)
  {
    Share(alpha, b);
    if b < 0.0 {
      assert alpha * (-b) == -(alpha * b);
    }
  }

  predicate Between(a: real, x: real, b: real) {
    a <= x <= b || b <= x <= a
  }

  /** How far one sample moves the mean. */
  function Shift(s: Stats, alpha: real, x: real, sqrt: real -> real): real {
    alpha * Bounded(s, x, sqrt)
  }

  lemma UpdatedMean(s: Stats, alpha: real, x: real, sqrt: real -> real)
    ensures Updated(s, alpha, x, sqrt).mean == s.mean + Shift(s, alpha, x, sqrt)
  {
    hide Bounded;
  }

  lemma ShiftIsShare(s: Stats, alpha: real, x: real, sqrt: real -> real)
    requires 0.0 <= alpha <= 1.0
    ensures Towards(Shift(s, alpha, x, sqrt), Bounded(s, x, sqrt))
    ensures Abs(Shift(s, alpha, x, sqrt)) == alpha * Abs(Bounded(s, x, sqrt))
  {
    var shift := Shift(s, alpha, x, sqrt);
    assert shift == alpha * Bounded(s, x, sqrt);
    hide *;
    ShareIsTowards(alpha, Bounded(s, x, sqrt));
  }

  lemma ShiftIsLimited(s: Stats, alpha: real, x: real, sqrt: real -> real)
    requires 0.0 <= alpha <= 1.0
    ensures Abs(Shift(s, alpha, x, sqrt)) <= alpha * (3.0 * RobustStddevOf(s, sqrt))
  {
    hide Bounded, RobustStddevOf, Shift;
    ShiftIsShare(s, alpha, x, sqrt);
    BoundedIsShorter(s, x, sqrt);
    MulMonotone(alpha, Abs(Bounded(s, x, sqrt)), 3.0 * RobustStddevOf(s, sqrt));
  }

  /** The new mean lies between the old mean and the sample, and one sample moves it by a bounded amount. */
  lemma MeanMovesTowardsSample(s: Stats, alpha: real, x: real, sqrt: real -> real)
    requires 0.0 <= alpha <= 1.0
    ensures Between(s.mean, Updated(s, alpha, x, sqrt).mean, x)
    ensures Abs(Updated(s, alpha, x, sqrt).mean - s.mean) <= alpha * (3.0 * RobustStddevOf(s, sqrt))
  {
    hide Bounded, RobustStddevOf, Updated, Shift;
    UpdatedMean(s, alpha, x, sqrt);
    BoundedIsShorter(s, x, sqrt);
    ShiftIsShare(s, alpha, x, sqrt);
    ShiftIsLimited(s, alpha, x, sqrt);
  }

  // ---- The hull invariant ----

  predicate InHull(s: Stats, m: real) {
    0.0 <= s.mean <= m && 0.0 <= s.mad <= m && 0.0 <= s.variance <= m * m
  }

  lemma VarianceStaysBetween(alpha: real, v: real, b: real, m: real)
    requires 0.0 <= alpha <= 1.0 && 0.0 <= v <= m * m && Abs(b) <= m
    ensures 0.0 <= (1.0 - alpha) * v + alpha * b * b <= m * m
  {
    SquareOfAbs(b);
    SquareMonotone(Abs(b), m);
    Convex(alpha, v, b * b, 0.0, m * m);
    assert alpha * b * b == alpha * (b * b);
  }

  lemma UpdatedSpreadStaysBetween(s: Stats, alpha: real, x: real, m: real, sqrt: real -> real)
    requires 0.0 <= alpha <= 1.0 && InHull(s, m) && 0.0 <= x <= m
    ensures 0.0 <= Updated(s, alpha, x, sqrt).variance <= m * m
    ensures 0.0 <= Updated(s, alpha, x, sqrt).mad <= m
    ensures Updated(s, alpha, x, sqrt).samples == s.samples + 1
  {
    hide Bounded, RobustStddevOf;
    BoundedIsShorter(s, x, sqrt);
    VarianceStaysBetween(alpha, s.variance, Bounded(s, x, sqrt), m);
    Convex(alpha, s.mad, Abs(x - s.mean), 0.0, m);
  }

  lemma UpdateKeepsHull(s: Stats, alpha: real, x: real, m: real, sqrt: real -> real)
    requires 0.0 <= alpha <= 1.0 && InHull(s, m) && 0.0 <= x <= m
    ensures InHull(Updated(s, alpha, x, sqrt), m)
    ensures Updated(s, alpha, x, sqrt).samples == s.samples + 1
  {
    hide Updated;
    MeanMovesTowardsSample(s, alpha, x, sqrt);
    UpdatedSpreadStaysBetween(s, alpha, x, m, sqrt);
  }

  /** With samples in [0, m], the estimates never leave the hull of what was seen. */
  lemma {:induction false} RunKeepsHull(alpha: real, xs: seq<real>, m: real, sqrt: real -> real)
    requires 0.0 <= alpha <= 1.0 && m >= 0.0
    requires forall i :: 0 <= i < |xs| ==> 0.0 <= xs[i] <= m
    ensures InHull(Fold(EMPTY, alpha, xs, sqrt), m) && Fold(EMPTY, alpha, xs, sqrt).samples == |xs|
  {
    hide Updated;
    if xs == [] {
      NonNegativeProduct(m, m);
    } else {
      var n := |xs| - 1;
      RunKeepsHull(alpha, xs[..n], m, sqrt);
      UpdateKeepsHull(Fold(EMPTY, alpha, xs[..n], sqrt), alpha, xs[n], m, sqrt);
    }
  }

  // ---- Convergence under constant input ----

  /** `n` updates with the same sample. */
  function Constant(s: Stats, alpha: real, c: real, n: nat, sqrt: real -> real): Stats {
    if n == 0 then s else Updated(Constant(s, alpha, c, n - 1, sqrt), alpha, c, sqrt)
  }

  function Error(s: Stats, c: real): real {
    Abs(c - s.mean)
  }

  /** The share of the error that clipping leaves usable: 4.4478 is 3 times 1.4826. */
  function Usable(alpha: real): real {
    MinReal(1.0, 4.4478 * alpha)
  }

  lemma UsableIsShare(alpha: real)
    requires 0.0 < alpha <= 1.0
    ensures 0.0 < Usable(alpha) <= 1.0 && 0.0 < alpha * Usable(alpha) <= 1.0
  {
    Share(alpha, Usable(alpha));
  }

  predicate NonNegative(s: Stats) {
    s.mad >= 0.0 && s.variance >= 0.0
  }

  /** From the second constant sample on, the mean absolute deviation is in proportion to the error. */
  predicate Settled(s: Stats, alpha: real, c: real) {
    NonNegative(s) && s.mad >= alpha * Error(s, c)
  }

  lemma SpreadStaysNonNegative(alpha: real, v: real, mad: real, b: real, e: real)
    requires 0.0 < alpha <= 1.0 && v >= 0.0 && mad >= 0.0 && e >= 0.0
    ensures (1.0 - alpha) * v + alpha * b * b >= 0.0
    ensures (1.0 - alpha) * mad + alpha * e >= alpha * e >= 0.0
  {
    SquareOfAbs(b);
    NonNegativeProduct(1.0 - alpha, v);
    NonNegativeProduct(alpha, b * b);
    assert alpha * b * b == alpha * (b * b);
    NonNegativeProduct(1.0 - alpha, mad);
    NonNegativeProduct(alpha, e);
  }

  lemma UpdatedSpread(s: Stats, alpha: real, x: real, sqrt: real -> real)
    requires 0.0 < alpha <= 1.0 && NonNegative(s)
    ensures NonNegative(Updated(s, alpha, x, sqrt))
    ensures Updated(s, alpha, x, sqrt).mad >= alpha * Error(s, x)
  {
    hide Bounded;
    SpreadStaysNonNegative(alpha, s.variance, s.mad, Bounded(s, x, sqrt), Error(s, x));
  }

  /** The error after a constant sample, in terms of the error and the clipped deviation. */
  lemma ErrorStep(s: Stats, alpha: real, c: real, sqrt: real -> real)
    requires 0.0 < alpha <= 1.0
    ensures Error(Updated(s, alpha, c, sqrt), c) == Error(s, c) - alpha * Abs(Bounded(s, c, sqrt))
    ensures Error(Updated(s, alpha, c, sqrt), c) <= Error(s, c)
  {
    hide Bounded, Updated, Shift;
    UpdatedMean(s, alpha, c, sqrt);
    BoundedIsShorter(s, c, sqrt);
    ShiftIsShare(s, alpha, c, sqrt);
  }

  lemma FirstSampleSettles(s: Stats, alpha: real, c: real, sqrt: real -> real)
    requires 0.0 < alpha <= 1.0 && NonNegative(s)
    ensures Settled(Updated(s, alpha, c, sqrt), alpha, c)
  {
    hide Bounded, Updated;
    UpdatedSpread(s, alpha, c, sqrt);
    ErrorStep(s, alpha, c, sqrt);
    MulMonotone(alpha, Error(Updated(s, alpha, c, sqrt), c), Error(s, c));
  }

  /** A limit in proportion to the error leaves the usable share of it. */
  lemma LimitLeavesShare(alpha: real, e: real, mad: real, limit: real)
    requires 0.0 < alpha <= 1.0 && e >= 0.0 && mad >= alpha * e && limit >= 4.4478 * mad
    ensures Usable(alpha) * e <= MinReal(e, limit)
  {
    NonNegativeProduct(e, 1.0 - Usable(alpha));
    NonNegativeProduct(e, 4.4478 * alpha - Usable(alpha));
    assert e * (4.4478 * alpha) == 4.4478 * (alpha * e);
  }

  lemma ScaleCoversDeviation(s: Stats, sqrt: real -> real)
    ensures 3.0 * RobustStddevOf(s, sqrt) >= 4.4478 * s.mad
  {}

  /** On a settled state, clipping leaves at least the usable share of the error. */
  lemma ClippingIsMild(s: Stats, alpha: real, c: real, sqrt: real -> real)
    requires 0.0 < alpha <= 1.0 && Settled(s, alpha, c)
    ensures Usable(alpha) * Error(s, c) <= Abs(Bounded(s, c, sqrt)) <= Error(s, c)
  {
    hide Bounded, RobustStddevOf, Usable;
    ScaleCoversDeviation(s, sqrt);
    LimitLeavesShare(alpha, Error(s, c), s.mad, 3.0 * RobustStddevOf(s, sqrt));
    BoundedIsShorter(s, c, sqrt);
  }

  lemma ErrorShrinks(s: Stats, alpha: real, c: real, sqrt: real -> real)
    requires 0.0 < alpha <= 1.0 && Settled(s, alpha, c)
    ensures Error(Updated(s, alpha, c, sqrt), c) <= (1.0 - alpha * Usable(alpha)) * Error(s, c)
  {
    hide Bounded, Updated, Usable;
    ClippingIsMild(s, alpha, c, sqrt);
    ErrorStep(s, alpha, c, sqrt);
    ShrinkArithmetic(alpha, Usable(alpha), Error(s, c), Abs(Bounded(s, c, sqrt)));
  }

  lemma ShrinkArithmetic(alpha: real, u: real, e: real, b: real)
    requires alpha >= 0.0 && u * e <= b
    ensures e - alpha * b <= (1.0 - alpha * u) * e
  {
    MulMonotone(alpha, u * e, b);
    assert alpha * (u * e) == (alpha * u) * e;
  }

  function Power(q: real, n: nat): real {
    if n == 0 then 1.0 else q * Power(q, n - 1)
  }

  /** One more factor on both sides. */
  lemma PowerStep(q: real, n: nat, before: real, after: real, start: real)
    requires n > 0 && q >= 0.0 && before <= Power(q, n - 1) * start && after <= q * before
    ensures after <= Power(q, n) * start
  {
    MulMonotone(q, before, Power(q, n - 1) * start);
    assert q * (Power(q, n - 1) * start) == (q * Power(q, n - 1)) * start;
  }

  lemma BetweenTrans(a: real, x: real, y: real, b: real)
    requires Between(a, x, b) && Between(x, y, b)
    ensures Between(a, y, b)
  {}

  /**
   Geometric convergence despite clipping: from any state, after the first
   constant sample each further one shrinks the error by the same factor, and
   the mean never overshoots.
   */
  lemma {:induction false} MeanConverges(s: Stats, alpha: real, c: real, n: nat, sqrt: real -> real)
    requires 0.0 < alpha <= 1.0 && NonNegative(s)
    ensures Settled(Constant(s, alpha, c, n + 1, sqrt), alpha, c)
    ensures Error(Constant(s, alpha, c, n + 1, sqrt), c) <= Power(1.0 - alpha * Usable(alpha), n) * Error(s, c)
    ensures Between(s.mean, Constant(s, alpha, c, n + 1, sqrt).mean, c)
  {
    hide Updated, Usable;
    var q := 1.0 - alpha * Usable(alpha);
    var t := Constant(s, alpha, c, n, sqrt);
    assert Constant(s, alpha, c, n + 1, sqrt) == Updated(t, alpha, c, sqrt);
    MeanMovesTowardsSample(t, alpha, c, sqrt);
    if n == 0 {
      FirstSampleSettles(s, alpha, c, sqrt);
      ErrorStep(s, alpha, c, sqrt);
    } else {
      MeanConverges(s, alpha, c, n - 1, sqrt);
      FirstSampleSettles(t, alpha, c, sqrt);
      ErrorShrinks(t, alpha, c, sqrt);
      UsableIsShare(alpha);
      PowerStep(q, n, Error(t, c), Error(Updated(t, alpha, c, sqrt), c), Error(s, c));
      BetweenTrans(s.mean, t.mean, Updated(t, alpha, c, sqrt).mean, c);
    }
  }

  // ---- Decay of the variance, and the way back to Warming ----

  /** Bounds the variance, and shrinks under constant input. */
  function Energy(s: Stats, c: real): real {
    EnergyOf(s.variance, Error(s, c))
  }

  function EnergyOf(v: real, e: real): real {
    v + 2.0 * (e * e)
  }

  /** The energy left when a deviation `b` out of an error `e` is taken in. */
  function EnergyLeft(alpha: real, v: real, e: real, b: real): real {
    SpreadLeft(alpha, v) + MovedLeft(alpha, e, b)
  }

  function SpreadLeft(alpha: real, v: real): real {
    (1.0 - alpha) * v
  }

  function MovedLeft(alpha: real, e: real, b: real): real {
    alpha * (b * b) + 2.0 * ((e - alpha * b) * (e - alpha * b))
  }

  /** At least the share `u` of the error `e` is left in `b`. */
  predicate Leaves(u: real, e: real, b: real) {
    0.0 <= u * e <= b <= e
  }

  /** A product that proofs can treat as one number. */
  function Times(a: real, b: real): real {
    a * b
  }

  lemma TimesMonotone(k: real, a: real, b: real)
    requires k >= 0.0 && a <= b
    ensures Times(k, a) <= Times(k, b)
  {}

  lemma TimesNonNegative(a: real, b: real)
    requires a >= 0.0 && b >= 0.0
    ensures Times(a, b) >= 0.0
  {}

  lemma TimesCommutes(a: real, b: real)
    ensures Times(a, b) == Times(b, a)
  {}

  lemma TimesShare(alpha: real, x: real)
    requires 0.0 <= alpha <= 1.0 && x >= 0.0
    ensures Times(alpha, x) <= x
  {
    NonNegativeProduct(1.0 - alpha, x);
    assert (1.0 - alpha) * x == x - alpha * x;
  }

  lemma LeavesTimes(u: real, e: real, b: real)
    requires Leaves(u, e, b)
    ensures 0.0 <= Times(u, e) <= b <= e
  {}

  /** `alpha^2 b^2 <= alpha b^2 <= alpha e b` and `e b >= u e^2`. */
  lemma MovedProducts(alpha: real, u: real, e: real, b: real)
    requires 0.0 < alpha <= 1.0 && Leaves(u, e, b)
    ensures Times(alpha, Times(alpha, Times(b, b))) <= Times(alpha, Times(b, b)) <= Times(alpha, Times(e, b))
    ensures Times(alpha, Times(e, b)) >= Times(alpha, Times(e, Times(u, e)))
  {
    hide *;
    LeavesTimes(u, e, b);
    TimesNonNegative(b, b);
    TimesNonNegative(alpha, Times(b, b));
    TimesShare(alpha, Times(alpha, Times(b, b)));
    TimesMonotone(b, b, e);
    TimesCommutes(b, e);
    TimesMonotone(alpha, Times(b, b), Times(e, b));
    TimesMonotone(e, Times(u, e), b);
    TimesMonotone(alpha, Times(e, Times(u, e)), Times(e, b));
  }

  lemma MovedExpands(alpha: real, e: real, b: real)
    ensures MovedLeft(alpha, e, b)
            == Times(alpha, Times(b, b)) + 2.0 * Times(e, e) - 4.0 * Times(alpha, Times(e, b))
               + 2.0 * Times(alpha, Times(alpha, Times(b, b)))
  {}

  lemma DecayExpands(alpha: real, u: real, q: real, e: real)
    requires q == 1.0 - alpha * u / 2.0
    ensures q * (2.0 * (e * e)) == 2.0 * Times(e, e) - Times(alpha, Times(e, Times(u, e)))
  {}

  /** The factor by which one constant sample shrinks the energy. */
  function Decay(alpha: real): real {
    1.0 - alpha * Usable(alpha) / 2.0
  }

  lemma SpreadArithmetic(alpha: real, u: real, q: real, v: real)
    requires 0.0 < alpha <= 1.0 && 0.0 < u <= 1.0 && v >= 0.0 && q == 1.0 - alpha * u / 2.0
    ensures SpreadLeft(alpha, v) <= q * v
  {
    Share(u, alpha);
    MulMonotone(v, 1.0 - alpha, q);
  }

  lemma MovedArithmetic(alpha: real, u: real, q: real, e: real, b: real)
    requires 0.0 < alpha <= 1.0 && e >= 0.0 && Leaves(u, e, b) && q == 1.0 - alpha * u / 2.0
    ensures MovedLeft(alpha, e, b) <= q * (2.0 * (e * e))
  {
    hide *;
    MovedProducts(alpha, u, e, b);
    MovedExpands(alpha, e, b);
    DecayExpands(alpha, u, q, e);
  }

  lemma EnergyArithmetic(alpha: real, u: real, q: real, v: real, e: real, b: real)
    requires 0.0 < alpha <= 1.0 && 0.0 < u <= 1.0 && v >= 0.0 && e >= 0.0 && Leaves(u, e, b)
    requires q == 1.0 - alpha * u / 2.0
    ensures EnergyLeft(alpha, v, e, b) <= q * EnergyOf(v, e)
  {
    hide SpreadLeft, MovedLeft, Leaves;
    SpreadArithmetic(alpha, u, q, v);
    MovedArithmetic(alpha, u, q, e, b);
    Distribute(q, v, 2.0 * (e * e));
  }

  lemma Distribute(q: real, x: real, y: real)
    ensures q * (x + y) == q * x + q * y
  {}

  lemma EnergyOfUpdate(s: Stats, alpha: real, c: real, sqrt: real -> real)
    requires 0.0 < alpha <= 1.0
    ensures Energy(Updated(s, alpha, c, sqrt), c)
            == EnergyLeft(alpha, s.variance, Error(s, c), Abs(Bounded(s, c, sqrt)))
  {
    hide Bounded;
    ErrorStep(s, alpha, c, sqrt);
    var b := Bounded(s, c, sqrt);
    SquareOfAbs(b);
    assert alpha * b * b == alpha * (b * b);
  }

  lemma SettledLeavesShare(s: Stats, alpha: real, c: real, sqrt: real -> real)
    requires 0.0 < alpha <= 1.0 && Settled(s, alpha, c)
    ensures s.variance >= 0.0 && Error(s, c) >= 0.0
    ensures Leaves(Usable(alpha), Error(s, c), Abs(Bounded(s, c, sqrt)))
  {
    hide Bounded, Usable;
    ClippingIsMild(s, alpha, c, sqrt);
    UsableIsShare(alpha);
    NonNegativeProduct(Usable(alpha), Error(s, c));
  }

  lemma EnergyShrinks(s: Stats, alpha: real, c: real, sqrt: real -> real)
    requires 0.0 < alpha <= 1.0 && Settled(s, alpha, c)
    ensures Energy(Updated(s, alpha, c, sqrt), c) <= Decay(alpha) * Energy(s, c)
  {
    hide *;
    DecayAndEnergy(s, alpha, c);
    SettledLeavesShare(s, alpha, c, sqrt);
    UsableIsShare(alpha);
    EnergyOfUpdate(s, alpha, c, sqrt);
    EnergyArithmetic(alpha, Usable(alpha), Decay(alpha), s.variance, Error(s, c), Abs(Bounded(s, c, sqrt)));
  }

  lemma DecayAndEnergy(s: Stats, alpha: real, c: real)
    ensures Decay(alpha) == 1.0 - alpha * Usable(alpha) / 2.0
    ensures Energy(s, c) == EnergyOf(s.variance, Error(s, c))
  {
    hide Usable, EnergyOf, Error;
  }

  lemma DecayIsShare(alpha: real)
    requires 0.0 < alpha <= 1.0
    ensures 0.0 <= Decay(alpha) < 1.0
  {
    UsableIsShare(alpha);
  }

  /** The energy after the first constant sample decays geometrically, for every smoothing factor. */
  lemma {:induction false} EnergyDecays(s: Stats, alpha: real, c: real, n: nat, sqrt: real -> real)
    requires 0.0 < alpha <= 1.0 && NonNegative(s)
    ensures Energy(Constant(s, alpha, c, n + 1, sqrt), c)
            <= Power(Decay(alpha), n) * Energy(Constant(s, alpha, c, 1, sqrt), c)
  {
    hide Updated, Usable, Energy, Decay;
    if n == 0 {
    } else {
      var t := Constant(s, alpha, c, n, sqrt);
      assert Constant(s, alpha, c, n + 1, sqrt) == Updated(t, alpha, c, sqrt);
      EnergyDecays(s, alpha, c, n - 1, sqrt);
      MeanConverges(s, alpha, c, n - 1, sqrt);
      EnergyShrinks(t, alpha, c, sqrt);
      DecayIsShare(alpha);
      PowerStep(Decay(alpha), n, Energy(t, c), Energy(Updated(t, alpha, c, sqrt), c),
                Energy(Constant(s, alpha, c, 1, sqrt), c));
    }
  }

  /** From a smoothing factor of 0.225 on (the default is 0.4), nothing is clipped and the factor is 1 - alpha/2. */
  lemma FastSmoothingIsUnclipped(alpha: real, s: Stats, c: real, sqrt: real -> real)
    requires 0.225 <= alpha <= 1.0 && Settled(s, alpha, c)
    ensures Decay(alpha) == 1.0 - alpha / 2.0 && Bounded(s, c, sqrt) == c - s.mean
  {
    ClippingIsMild(s, alpha, c, sqrt);
    BoundedIsShorter(s, c, sqrt);
  }

  /** A power below one falls at least as fast as 1/(1 + n x). */
  lemma {:induction false} PowerFalls(x: real, n: nat)
    requires 0.0 <= x <= 1.0
    ensures 0.0 <= Power(1.0 - x, n) && Power(1.0 - x, n) * (1.0 + n as real * x) <= 1.0
  {
    if n == 0 {
    } else {
      PowerFalls(x, n - 1);
      PowerFallsStep(x, (n - 1) as real, Power(1.0 - x, n - 1));
      assert n as real == (n - 1) as real + 1.0;
    }
  }

  lemma PowerFallsStep(x: real, k: real, p: real)
    requires 0.0 <= x <= 1.0 && k >= 0.0 && p >= 0.0 && p * (1.0 + k * x) <= 1.0
    ensures 0.0 <= (1.0 - x) * p && (1.0 - x) * p * (1.0 + (k + 1.0) * x) <= 1.0
  {
    NonNegativeProduct(1.0 - x, p);
    NonNegativeProduct(x, x);
    NonNegativeProduct(k + 1.0, x * x);
    assert (1.0 - x) * (1.0 + (k + 1.0) * x) == 1.0 + k * x - (k + 1.0) * (x * x);
    MulMonotone(p, (1.0 - x) * (1.0 + (k + 1.0) * x), 1.0 + k * x);
    assert (1.0 - x) * p * (1.0 + (k + 1.0) * x) == p * ((1.0 - x) * (1.0 + (k + 1.0) * x));
  }

  /** How many updates after the first are certain to bring the energy `e` under `target`. */
  predicate Enough(n: nat, alpha: real, e: real, target: real) {
    e < target * (1.0 + n as real * (1.0 - Decay(alpha)))
  }

  lemma ScaledDown(p: real, grown: real, e: real, target: real)
    requires p >= 0.0 && p * grown <= 1.0 && e < target * grown && target > 0.0
    ensures p * e < target
  {
    if p > 0.0 {
      assert p * e < p * (target * grown);
      assert p * (target * grown) == target * (p * grown);
      MulMonotone(target, p * grown, 1.0);
    }
  }

  lemma EnergyBoundsVariance(s: Stats, c: real)
    ensures s.variance <= Energy(s, c)
  {
    NonNegativeProduct(Error(s, c), Error(s, c));
  }

  /** After enough constant samples, the variance is below any given positive target. */
  lemma {:induction false} VarianceFallsBelow(s: Stats, alpha: real, c: real, n: nat, target: real, sqrt: real -> real)
    requires 0.0 < alpha <= 1.0 && NonNegative(s) && target > 0.0
    requires Enough(n, alpha, Energy(Constant(s, alpha, c, 1, sqrt), c), target)
    ensures Constant(s, alpha, c, n + 1, sqrt).variance < target
  {
    hide Updated, Decay, Energy, Constant, Power;
    var x := 1.0 - Decay(alpha);
    DecayIsShare(alpha);
    EnergyDecays(s, alpha, c, n, sqrt);
    PowerFalls(x, n);
    assert 1.0 - x == Decay(alpha);
    ScaledDown(Power(Decay(alpha), n), 1.0 + n as real * x, Energy(Constant(s, alpha, c, 1, sqrt), c), target);
    EnergyBoundsVariance(Constant(s, alpha, c, n + 1, sqrt), c);
  }

  /** How many samples are enough for an energy of `e`. */
  function Needed(alpha: real, e: real, target: real): nat {
    var step := target * (1.0 - Decay(alpha));
    if step <= 0.0 || e <= 0.0 then 0 else (e / step).Floor + 1
  }

  /** From that many on it always is enough, for every energy up to `e`. */
  lemma NeededIsEnough(alpha: real, e: real, target: real, n: nat, energy: real)
    requires 0.0 < alpha <= 1.0 && target > 0.0
    requires n >= Needed(alpha, e, target) && energy <= e
    ensures Enough(n, alpha, energy, target)
  {
    hide Decay;
    DecayIsShare(alpha);
    var x := 1.0 - Decay(alpha);
    PositiveProduct(target, x);
    EnoughArithmetic(target, x, n as real, e, energy);
  }

  lemma EnoughArithmetic(target: real, x: real, n: real, e: real, energy: real)
    requires target > 0.0 && x > 0.0 && target * x > 0.0 && n >= 0.0 && energy <= e
    requires e > 0.0 ==> e / (target * x) <= n
    ensures energy < target * (1.0 + n * x)
  {
    var step := target * x;
    NonNegativeProduct(step, n);
    assert target * (1.0 + n * x) == target + step * n;
    if e > 0.0 {
      MulMonotone(step, e / step, n);
      assert step * (e / step) == e;
    }
  }

  lemma PositiveProduct(a: real, b: real)
    requires a > 0.0 && b > 0.0
    ensures a * b > 0.0
  {}
}
