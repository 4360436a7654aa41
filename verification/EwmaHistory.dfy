/**
 The moving average told by its samples: after any run, each of its three
 values is a sum over all samples seen, the older the less they weigh. The sums
 are taken from the first sample on, not by the recurrence.
 */
module EwmaHistory {
  import opened Ewma
  import opened EwmaBounds

  /** What a value still weighs when `age` more have come. */
  function Weight(alpha: real, age: nat): real {
    alpha * Power(1.0 - alpha, age)
  }

  function Weighted(alpha: real, ys: seq<real>): real {
    if ys == [] then 0.0
    else Times(Weight(alpha, |ys| - 1), ys[0]) + Weighted(alpha, ys[1..])
  }

  function Total(ys: seq<real>): real {
    if ys == [] then 0.0 else ys[0] + Total(ys[1..])
  }

  lemma WeightFades(alpha: real, age: nat)
    ensures Weight(alpha, age + 1) == (1.0 - alpha) * Weight(alpha, age)
  {
    var p := Power(1.0 - alpha, age);
    assert alpha * ((1.0 - alpha) * p) == (1.0 - alpha) * (alpha * p);
  }

  lemma {:induction false} WeightedAppend(alpha: real, ys: seq<real>, y: real)
    ensures Weighted(alpha, ys + [y]) == (1.0 - alpha) * Weighted(alpha, ys) + alpha * y
  {
    hide Weight, Times;
    if ys == [] {
      LastWeighs(alpha, y);
      assert ([] + [y])[1..] == [];
    } else {
      WeightedAppend(alpha, ys[1..], y);
      assert (ys + [y])[1..] == ys[1..] + [y];
      WeightFades(alpha, |ys| - 1);
      Reweigh(alpha, Weight(alpha, |ys| - 1), Weight(alpha, |ys|), ys[0], Weighted(alpha, ys[1..]), y);
    }
  }

  lemma LastWeighs(alpha: real, y: real)
    ensures Times(Weight(alpha, 0), y) == alpha * y
  {}

  lemma Reweigh(alpha: real, w: real, faded: real, y0: real, rest: real, y: real)
    requires faded == (1.0 - alpha) * w
    ensures Times(faded, y0) + ((1.0 - alpha) * rest + alpha * y) == (1.0 - alpha) * (Times(w, y0) + rest) + alpha * y
  {
    assert (1.0 - alpha) * w * y0 == (1.0 - alpha) * (w * y0);
  }

  lemma {:induction false} TotalAppend(ys: seq<real>, y: real)
    ensures Total(ys + [y]) == Total(ys) + y
  {
    if ys == [] {
      assert ([] + [y])[1..] == [];
    } else {
      TotalAppend(ys[1..], y);
      assert (ys + [y])[1..] == ys[1..] + [y];
    }
  }

  /** The average before sample `i`. */
  function Earlier(alpha: real, xs: seq<real>, i: nat, sqrt: real -> real): Stats
    requires i <= |xs|
  {
    Fold(EMPTY, alpha, xs[..i], sqrt)
  }

  /** How far each sample was from the mean before it, unclipped. */
  function Distances(alpha: real, xs: seq<real>, sqrt: real -> real): (ys: seq<real>)
    ensures |ys| == |xs|
  {
    seq(|xs|, i requires 0 <= i < |xs| => Abs(xs[i] - Earlier(alpha, xs, i, sqrt).mean))
  }

  /** The deviation of each sample from the mean before it, within three times the robust deviation before it. */
  function Deviations(alpha: real, xs: seq<real>, sqrt: real -> real): (ys: seq<real>)
    ensures |ys| == |xs|
  {
    seq(|xs|, i requires 0 <= i < |xs| =>
      var before := Earlier(alpha, xs, i, sqrt);
      var limit := 3.0 * RobustStddevOf(before, sqrt);
      Clamp(xs[i] - before.mean, -limit, limit))
  }

  function Shares(alpha: real, ys: seq<real>): (zs: seq<real>)
    ensures |zs| == |ys|
  {
    seq(|ys|, i requires 0 <= i < |ys| => Times(alpha, ys[i]))
  }

  function Squares(ys: seq<real>): (zs: seq<real>)
    ensures |zs| == |ys|
  {
    seq(|ys|, i requires 0 <= i < |ys| => Times(ys[i], ys[i]))
  }

  lemma SharesAppend(alpha: real, ys: seq<real>, y: real)
    ensures Shares(alpha, ys + [y]) == Shares(alpha, ys) + [Times(alpha, y)]
  {
    hide Times;
  }

  lemma SquaresAppend(ys: seq<real>, y: real)
    ensures Squares(ys + [y]) == Squares(ys) + [Times(y, y)]
  {
    hide Times;
  }

  lemma {:induction false} HistoriesGrow(alpha: real, xs: seq<real>, x: real, sqrt: real -> real)
    ensures var s := Fold(EMPTY, alpha, xs, sqrt);
            && Distances(alpha, xs + [x], sqrt) == Distances(alpha, xs, sqrt) + [Abs(x - s.mean)]
            && Deviations(alpha, xs + [x], sqrt) == Deviations(alpha, xs, sqrt) + [Bounded(s, x, sqrt)]
  {
    hide Fold, RobustStddevOf;
    assert (xs + [x])[..|xs|] == xs;
    forall i | 0 <= i < |xs| ensures Earlier(alpha, xs + [x], i, sqrt) == Earlier(alpha, xs, i, sqrt) {
      assert (xs + [x])[..i] == xs[..i];
    }
  }

  /** One sample more, in terms of the sums. */
  lemma UpdatedIs(s: Stats, alpha: real, x: real, sqrt: real -> real)
    ensures var r, b := Updated(s, alpha, x, sqrt), Bounded(s, x, sqrt);
            && r.mean == s.mean + Times(alpha, b)
            && r.variance == (1.0 - alpha) * s.variance + alpha * Times(b, b)
            && r.mad == (1.0 - alpha) * s.mad + alpha * Abs(x - s.mean)
  {
    hide Bounded;
    var b := Bounded(s, x, sqrt);
    assert alpha * b * b == alpha * (b * b);
  }

  /**
   After any samples: the mean is the sum of all shares by which it was moved,
   the absolute deviation is the weighted sum of all distances, and the
   variance that of all squared clipped deviations.
   */
  lemma {:induction false} AveragesAreSums(alpha: real, xs: seq<real>, sqrt: real -> real)
    ensures var s := Fold(EMPTY, alpha, xs, sqrt);
            && s.mean == Total(Shares(alpha, Deviations(alpha, xs, sqrt)))
            && s.mad == Weighted(alpha, Distances(alpha, xs, sqrt))
            && s.variance == Weighted(alpha, Squares(Deviations(alpha, xs, sqrt)))
            && s.samples == |xs|
  {
    hide Updated, Distances, Deviations, Weighted, Total, Bounded, Shares, Squares, Times;
    if xs == [] {
      NothingSummed(alpha, xs, sqrt);
    } else {
      var n := |xs| - 1;
      var s, x := Fold(EMPTY, alpha, xs[..n], sqrt), xs[n];
      var b := Bounded(s, x, sqrt);
      AveragesAreSums(alpha, xs[..n], sqrt);
      assert xs == xs[..n] + [x];
      HistoriesGrow(alpha, xs[..n], x, sqrt);
      UpdatedIs(s, alpha, x, sqrt);
      UpdatedCounts(s, alpha, x, sqrt);
      var before := Deviations(alpha, xs[..n], sqrt);
      SharesAppend(alpha, before, b);
      SquaresAppend(before, b);
      TotalAppend(Shares(alpha, before), Times(alpha, b));
      WeightedAppend(alpha, Squares(before), Times(b, b));
      WeightedAppend(alpha, Distances(alpha, xs[..n], sqrt), Abs(x - s.mean));
    }
  }

  lemma UpdatedCounts(s: Stats, alpha: real, x: real, sqrt: real -> real)
    ensures Updated(s, alpha, x, sqrt).samples == s.samples + 1
  {
    hide Bounded;
  }

  lemma {:induction false} NothingSummed(alpha: real, xs: seq<real>, sqrt: real -> real)
    requires xs == []
    ensures Total(Shares(alpha, Deviations(alpha, xs, sqrt))) == 0.0
    ensures Weighted(alpha, Distances(alpha, xs, sqrt)) == 0.0
    ensures Weighted(alpha, Squares(Deviations(alpha, xs, sqrt))) == 0.0
  {}
}
