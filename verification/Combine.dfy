/** The combine algorithm (RFC 5905, section 11.2.3) as a weighted mean, and the error
    bound that ties it to the intersection step. */
module Combine {
  import opened Sums
  import opened Intersection

  /** The combine weight: the reciprocal of the half-width that the sweep uses. */
  function Weight(): Candidate -> real {
    (c: Candidate) => if c.synch > 0.0 then 1.0 / c.synch else 1.0
  }

  function WeightedOffset(): Candidate -> real {
    (c: Candidate) => Weight()(c) * c.offset
  }

  function WeightedMean(c: seq<Candidate>): real
    requires WellFormed(c) && c != []
  {
    WeightPositive(c);
    RealSum(WeightedOffset(), c) / RealSum(Weight(), c)
  }

  /** The harmonic mean of the half-widths. */
  function HarmonicMean(c: seq<Candidate>): real
    requires WellFormed(c) && c != []
  {
    WeightPositive(c);
    |c| as real / RealSum(Weight(), c)
  }

  lemma {:induction false} WeightPositive(c: seq<Candidate>)
    requires WellFormed(c)
    ensures RealSum(Weight(), c) >= 0.0
    ensures c != [] ==> RealSum(Weight(), c) > 0.0
  {
    if c != [] {
      WeightPositive(c[..|c|-1]);
    }
  }

  lemma WeightedBound(x: Candidate, bound: real)
    requires x.synch > 0.0
    ensures x.offset <= bound + x.synch ==> Weight()(x) * x.offset <= bound * Weight()(x) + 1.0
    ensures x.offset >= bound - x.synch ==> Weight()(x) * x.offset >= bound * Weight()(x) - 1.0
    ensures x.offset <= bound ==> Weight()(x) * x.offset <= bound * Weight()(x)
    ensures x.offset >= bound ==> Weight()(x) * x.offset >= bound * Weight()(x)
  {
    var w := Weight()(x);
    assert w * x.synch == 1.0;
    assert w * (bound + x.synch - x.offset) == w * bound + 1.0 - w * x.offset;
    assert w * (bound - x.synch - x.offset) == w * bound - 1.0 - w * x.offset;
    assert w * (bound - x.offset) == w * bound - w * x.offset;
    MulSign(w, bound + x.synch - x.offset);
    MulSign(w, bound - x.synch - x.offset);
    MulSign(w, bound - x.offset);
  }

  lemma MulSign(w: real, d: real)
    requires w > 0.0
    ensures d >= 0.0 ==> w * d >= 0.0
    ensures d <= 0.0 ==> w * d <= 0.0
  {
  }

  /** The weighted sum stays within n of w times the range [lo, hi]. */
  ghost predicate SumWithin(sum: real, w: real, n: real, lo: real, hi: real) {
    lo * w - n <= sum <= hi * w + n
  }

  /** One more term, with slack one (`wide`) or none. */
  lemma WeightedStep(x: Candidate, lo: real, hi: real, wide: bool, sum: real, w: real, n: real)
    requires x.synch > 0.0
    requires var slack := if wide then x.synch else 0.0; lo - slack <= x.offset <= hi + slack
    requires SumWithin(sum, w, n, lo, hi)
    ensures SumWithin(sum + WeightedOffset()(x), w + Weight()(x), n + if wide then 1.0 else 0.0, lo, hi)
  {
    WeightedBound(x, hi);
    WeightedBound(x, lo);
    AddTerm(sum, w, n, lo, hi, WeightedOffset()(x), Weight()(x), if wide then 1.0 else 0.0);
  }

  lemma AddTerm(sum: real, w: real, n: real, lo: real, hi: real, term: real, weight: real, slack: real)
    requires SumWithin(sum, w, n, lo, hi) && SumWithin(term, weight, slack, lo, hi)
    ensures SumWithin(sum + term, w + weight, n + slack, lo, hi)
  {
    assert hi * (w + weight) == hi * w + hi * weight;
    assert lo * (w + weight) == lo * w + lo * weight;
  }

  lemma {:induction false} WeightedSumBound(c: seq<Candidate>, lo: real, hi: real, wide: bool)
    requires WellFormed(c)
    requires forall x :: x in c ==>
               var slack := if wide then x.synch else 0.0; lo - slack <= x.offset <= hi + slack
    ensures SumWithin(RealSum(WeightedOffset(), c), RealSum(Weight(), c), if wide then |c| as real else 0.0, lo, hi)
  {
    if c != [] {
      var k := |c| - 1;
      WeightedSumBound(c[..k], lo, hi, wide);
      var sum, w, n := RealSum(WeightedOffset(), c[..k]), RealSum(Weight(), c[..k]), if wide then k as real else 0.0;
      assert c[k] in c;
      WeightedStep(c[k], lo, hi, wide, sum, w, n);
      assert RealSum(WeightedOffset(), c) == sum + WeightedOffset()(c[k]);
      assert RealSum(Weight(), c) == w + Weight()(c[k]);
    } else {
      assert lo * 0.0 == 0.0 == hi * 0.0;
    }
  }

  lemma DivideBound(x: real, w: real, bound: real, n: real)
    requires w > 0.0
    ensures x <= bound * w + n ==> x / w <= bound + n / w
    ensures x >= bound * w - n ==> x / w >= bound - n / w
  {
    assert (x / w) * w == x && (n / w) * w == n;
    assert (bound + n / w - x / w) * w == bound * w + n - x;
    assert (bound - n / w - x / w) * w == bound * w - n - x;
    MulSign(w, bound + n / w - x / w);
    MulSign(w, bound - n / w - x / w);
  }

  /** The pull of a candidate on the point m: its distance in units of its half-width. */
  function Pull(m: real): Candidate -> real {
    (c: Candidate) => if c.synch > 0.0 then (c.offset - m) / c.synch else 0.0
  }

  lemma OnePull(x: Candidate, m: real)
    requires x.synch > 0.0
    ensures Pull(m)(x) == WeightedOffset()(x) - m * Weight()(x)
  {
    assert (x.offset - m) / x.synch == x.offset / x.synch - m / x.synch;
  }

  lemma {:induction false} PullSum(c: seq<Candidate>, m: real)
    requires WellFormed(c)
    ensures RealSum(Pull(m), c) == RealSum(WeightedOffset(), c) - m * RealSum(Weight(), c)
  {
    if c != [] {
      var k := |c| - 1;
      PullSum(c[..k], m);
      OnePull(c[k], m);
      assert m * (RealSum(Weight(), c[..k]) + Weight()(c[k])) == m * RealSum(Weight(), c[..k]) + m * Weight()(c[k]);
    }
  }

  lemma MeanBalance(sum: real, w: real, m: real)
    requires w > 0.0
    ensures sum - m * w == 0.0 <==> m == sum / w
  {
  }

  /** The weighted mean is the point at which the candidates' distances, each in units of its
      half-width, balance. */
  lemma {:induction false} BalancePoint(c: seq<Candidate>, m: real)
    requires WellFormed(c) && c != []
    ensures RealSum(Pull(m), c) == 0.0 <==> m == WeightedMean(c)
  {
    PullSum(c, m);
    WeightPositive(c);
    MeanBalance(RealSum(WeightedOffset(), c), RealSum(Weight(), c), m);
  }

  /** If every confidence interval meets [lo, hi], the weighted mean misses [lo, hi]
      by at most the harmonic mean of the half-widths. */
  lemma MeanNearIntersection(c: seq<Candidate>, lo: real, hi: real)
    requires WellFormed(c) && c != []
    requires forall x :: x in c ==> x.Hi() >= lo && x.Lo() <= hi
    ensures lo - HarmonicMean(c) <= WeightedMean(c) <= hi + HarmonicMean(c)
  {
    WeightPositive(c);
    WeightedSumBound(c, lo, hi, true);
    DivideBound(RealSum(WeightedOffset(), c), RealSum(Weight(), c), hi, |c| as real);
    DivideBound(RealSum(WeightedOffset(), c), RealSum(Weight(), c), lo, |c| as real);
  }

  /** The weighted mean lies in the hull of the offsets. */
  lemma MeanInHull(c: seq<Candidate>, lo: real, hi: real)
    requires WellFormed(c) && c != []
    requires forall x :: x in c ==> lo <= x.offset <= hi
    ensures lo <= WeightedMean(c) <= hi
  {
    WeightPositive(c);
    WeightedSumBound(c, lo, hi, false);
    DivideBound(RealSum(WeightedOffset(), c), RealSum(Weight(), c), hi, 0.0);
    DivideBound(RealSum(WeightedOffset(), c), RealSum(Weight(), c), lo, 0.0);
  }
}
