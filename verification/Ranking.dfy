/** How clustering ranks the peers: by the distance of their offsets from the mean of all offsets
    that pass. */
module Ranking {
  import opened Wrappers
  import opened Sums
  import opened Cluster
  import opened Selection
  import ClockFilters

  function Itself(): real -> real {
    (x: real) => x
  }

  function Mean(xs: seq<real>): real
    requires xs != []
  {
    RealSum(Itself(), xs) / |xs| as real
  }

  function Residual(m: real): real -> real {
    (x: real) => m - x
  }

  /** The squared distances of the terms from their mean. */
  function Spread(xs: seq<real>): real
    requires xs != []
  {
    RealSum(SquareFrom(Mean(xs)), xs)
  }

  /** The offsets of the peers that pass. */
  function PassingOffsets(ps: seq<Peer>): (r: seq<real>)
    ensures |r| == |Passing(ps)|
  {
    Offsets(ps, Passing(ps))
  }

  lemma Distribute(k: real, x: real, y: real)
    ensures k * (x + y) == k * x + k * y
  {
  }

  /** A sum of weights p + q u(x) + v(x). */
  lemma {:induction false} LinearSum(w: real -> real, u: real -> real, v: real -> real, p: real, q: real, xs: seq<real>)
    requires forall x :: w(x) == p + q * u(x) + v(x)
    ensures RealSum(w, xs) == p * |xs| as real + q * RealSum(u, xs) + RealSum(v, xs)
  {
    if xs != [] {
      var init, last := xs[..|xs|-1], xs[|xs|-1];
      LinearSum(w, u, v, p, q, init);
      Distribute(p, |init| as real, 1.0);
      Distribute(q, RealSum(u, init), u(last));
    }
  }

  lemma {:induction false} CancelSum(w: real -> real, u: real -> real, v: real -> real, p: real, q: real, xs: seq<real>)
    requires forall x :: w(x) == p + q * u(x) + v(x)
    requires RealSum(u, xs) == 0.0
    ensures RealSum(w, xs) == p * |xs| as real + RealSum(v, xs)
  {
    LinearSum(w, u, v, p, q, xs);
  }

  lemma {:induction false} ResidualSum(m: real, xs: seq<real>)
    ensures RealSum(Residual(m), xs) == m * |xs| as real - RealSum(Itself(), xs)
  {
    if xs != [] {
      var init := xs[..|xs|-1];
      ResidualSum(m, init);
      Distribute(m, |init| as real, 1.0);
    }
  }

  /** The distances from the mean cancel. */
  lemma {:induction false} ResidualsCancel(m: real, xs: seq<real>)
    requires xs != [] && m == Mean(xs)
    ensures RealSum(Residual(m), xs) == 0.0
  {
    ResidualSum(m, xs);
  }

  lemma SplitSquare(a: real, b: real, m: real, x: real)
    ensures (b - x) * (b - x) == (b - m) * (b - m) - (a - m) * (a - m) + 2.0 * (b - a) * (m - x) + (a - x) * (a - x)
  {
  }

  lemma SplitSquares(a: real, b: real, m: real, d: real, q: real)
    requires d == (b - m) * (b - m) - (a - m) * (a - m) && q == 2.0 * (b - a)
    ensures forall x :: SquareFrom(b)(x) == d + q * Residual(m)(x) + SquareFrom(a)(x)
  {
    forall x ensures SquareFrom(b)(x) == d + q * Residual(m)(x) + SquareFrom(a)(x) {
      SplitSquare(a, b, m, x);
    }
  }

  /** The squared distances of the terms from two points differ by n times the difference d of the
      squared distances of the two points from the mean. */
  lemma {:induction false} SquaresApart(xs: seq<real>, a: real, b: real, m: real, d: real)
    requires xs != [] && m == Mean(xs) && d == (b - m) * (b - m) - (a - m) * (a - m)
    ensures RealSum(SquareFrom(b), xs) == d * |xs| as real + RealSum(SquareFrom(a), xs)
  {
    ResidualsCancel(m, xs);
    SplitSquares(a, b, m, d, 2.0 * (b - a));
    CancelSum(SquareFrom(b), Residual(m), SquareFrom(a), d, 2.0 * (b - a), xs);
  }

  lemma {:induction false} EntryTotal(ps: seq<Peer>, i: nat, xs: seq<real>)
    requires |Passing(ps)| > 1 && i < |Passing(ps)| && xs == PassingOffsets(ps)
    ensures Entries(ps)[i].jitterSq == RealSum(SquareFrom(xs[i]), xs) / (|xs| - 1) as real
  {
    EntryIs(ps, i);
  }

  /** The variance law: the squared jitter of a passing peer is n times the squared distance of its
      offset from the mean, plus what all peers have in common, over n - 1. */
  lemma {:induction false} VarianceLaw(ps: seq<Peer>, i: nat, xs: seq<real>, distanceSq: real)
    requires |Passing(ps)| > 1 && i < |Passing(ps)| && xs == PassingOffsets(ps)
    requires distanceSq == (xs[i] - Mean(xs)) * (xs[i] - Mean(xs))
    ensures Entries(ps)[i].jitterSq == (distanceSq * |xs| as real + Spread(xs)) / (|xs| - 1) as real
  {
    EntryTotal(ps, i, xs);
    SquaresApart(xs, Mean(xs), xs[i], Mean(xs), distanceSq);
  }

  /** How far the offset of a peer is from the mean. */
  function FromMean(ps: seq<Peer>, p: nat): real
    requires |Passing(ps)| > 1 && p < |ps|
  {
    ClockFilters.Abs(ps[p].offset - Mean(PassingOffsets(ps)))
  }

  lemma Positive(u: real, v: real)
    requires u > 0.0 && v > 0.0
    ensures u * v > 0.0
  {
  }

  lemma SquareLess(x: real, y: real)
    requires 0.0 <= x < y
    ensures x * x < y * y
  {
    Positive(y - x, y + x);
    assert y * y - x * x == (y - x) * (y + x);
  }

  lemma SquareOrder(x: real, y: real)
    requires x >= 0.0 && y >= 0.0
    ensures x <= y <==> x * x <= y * y
  {
    if x < y {
      SquareLess(x, y);
    } else if y < x {
      SquareLess(y, x);
    }
  }

  lemma ScaleOrder(k: real, x: real, y: real)
    requires k > 0.0
    ensures x <= y <==> k * x <= k * y
  {
  }

  lemma AbsSquare(x: real)
    ensures ClockFilters.Abs(x) * ClockFilters.Abs(x) == x * x
  {
  }

  lemma DifferenceOrder(n: nat, d: real, x: real, y: real)
    requires n > 0 && y == d * n as real + x
    ensures x <= y <==> d >= 0.0
  {
    ScaleOrder(n as real, 0.0, d);
  }

  lemma QuotientOrder(x: real, y: real, n: int)
    requires n > 0
    ensures x / n as real <= y / n as real <==> x <= y
  {
    ScaleOrder(n as real, x / n as real, y / n as real);
  }

  lemma DistanceDifference(x: real, y: real, fx: real, fy: real) returns (d: real)
    requires fx == ClockFilters.Abs(x) && fy == ClockFilters.Abs(y)
    ensures d == y * y - x * x && (d >= 0.0 <==> fx <= fy)
  {
    d := y * y - x * x;
    AbsSquare(x);
    AbsSquare(y);
    SquareOrder(fx, fy);
  }

  lemma {:induction false} TotalsOrder(xs: seq<real>, a: real, b: real, m: real, fa: real, fb: real)
    requires xs != [] && m == Mean(xs) && fa == ClockFilters.Abs(a - m) && fb == ClockFilters.Abs(b - m)
    ensures RealSum(SquareFrom(a), xs) <= RealSum(SquareFrom(b), xs) <==> fa <= fb
  {
    var d := DistanceDifference(a - m, b - m, fa, fb);
    SquaresApart(xs, a, b, m, d);
    DifferenceOrder(|xs|, d, RealSum(SquareFrom(a), xs), RealSum(SquareFrom(b), xs));
  }

  /** So the passing peers are ranked by their distance from the mean. */
  lemma {:induction false} RankedByDistance(ps: seq<Peer>, i: nat, k: nat)
    requires |Passing(ps)| > 1 && i < |Passing(ps)| && k < |Passing(ps)|
    ensures Entries(ps)[i].jitterSq <= Entries(ps)[k].jitterSq <==>
            FromMean(ps, Passing(ps)[i]) <= FromMean(ps, Passing(ps)[k])
  {
    var xs := PassingOffsets(ps);
    EntryTotal(ps, i, xs);
    EntryTotal(ps, k, xs);
    QuotientOrder(RealSum(SquareFrom(xs[i]), xs), RealSum(SquareFrom(xs[k]), xs), |xs| - 1);
    TotalsOrder(xs, xs[i], xs[k], Mean(xs), FromMean(ps, Passing(ps)[i]), FromMean(ps, Passing(ps)[k]));
  }

  lemma {:induction false} PeersOfMember(v: seq<Survivor>, kept: seq<Survivor>, x: Survivor)
    requires Ascending(v) && x in v && forall y :: y in kept ==> y in v
    ensures x.peer in PeersOf(kept) <==> x in kept
  {
    if x in kept {
      var j :| 0 <= j < |kept| && kept[j] == x;
      assert PeersOf(kept)[j] == x.peer;
    }
    if x.peer in PeersOf(kept) {
      var j :| 0 <= j < |kept| && PeersOf(kept)[j] == x.peer;
      assert kept[j] in kept;
      AscendingUnique(v, x, kept[j]);
    }
  }

  lemma {:induction false} AscendingUnique(v: seq<Survivor>, x: Survivor, y: Survivor)
    requires Ascending(v) && x in v && y in v && x.peer == y.peer
    ensures x == y
  {
    var i :| 0 <= i < |v| && v[i] == x;
    var j :| 0 <= j < |v| && v[j] == y;
  }

  /** The entry of a passing peer stays exactly if the peer does. */
  lemma {:induction false} KeptEntry(ps: seq<Peer>, p: nat) returns (k: nat)
    requires |Passing(ps)| > 1 && p in Passing(ps)
    ensures k < |Passing(ps)| && Passing(ps)[k] == p && Entries(ps)[k].peer == p
    ensures p in Clustered(ps) <==> Entries(ps)[k] in KeepBest(Entries(ps), PreferIndex(ps))
  {
    k :| 0 <= k < |Passing(ps)| && Passing(ps)[k] == p;
    EntryIs(ps, k);
    EntriesAscending(ps);
    KeepBestSize(Entries(ps), PreferIndex(ps));
    PeersOfMember(Entries(ps), KeepBest(Entries(ps), PreferIndex(ps)), Entries(ps)[k]);
  }

  /** Clustering drops the peers farthest from the mean: a dropped peer is not the PREFER peer, and it is
      farther from the mean than any other peer that stays, or as far and later in the array. */
  lemma {:induction false} DroppedIsFarther(ps: seq<Peer>, p: nat, q: nat)
    requires |Passing(ps)| > 1 && p in Passing(ps) && p !in Clustered(ps) && q in Clustered(ps)
    ensures q in Passing(ps) && PreferIndex(ps) != Some(p)
    ensures PreferIndex(ps) != Some(q) ==>
              FromMean(ps, q) < FromMean(ps, p) || (FromMean(ps, q) == FromMean(ps, p) && q < p)
  {
    ClusteredPasses(ps, q);
    var i := KeptEntry(ps, p);
    var k := KeptEntry(ps, q);
    EntriesAscending(ps);
    KeepBestDominates(Entries(ps), PreferIndex(ps), Entries(ps)[i], Entries(ps)[k]);
    RankedByDistance(ps, i, k);
    RankedByDistance(ps, k, i);
  }

  /** In terms of jitters proper: the outlier pass removes an unprotected candidate exactly if its
      jitter is above three times the RMS. */
  lemma {:induction false} ThriceRms(v: seq<Survivor>, prefer: Option<nat>, x: Survivor, jitter: real, rms: real,
      square: Survivor -> real)
    requires forall y :: square(y) == y.jitterSq
    requires v != [] && x in v
    requires jitter >= 0.0 && x.jitterSq == jitter * jitter
    requires rms > 0.0 && RealSum(square, v) == rms * rms * |v| as real
    ensures x in Pruned(v, prefer) <==> prefer == Some(x.peer) || jitter <= 3.0 * rms
  {
    MeanIs(v, rms * rms, square);
    WithinMember(v, prefer, 9.0 * MeanSquare(v), x);
    NineTimes(jitter, rms, x.jitterSq, MeanSquare(v));
  }

  lemma {:induction false} MeanIs(v: seq<Survivor>, mean: real, square: Survivor -> real)
    requires forall y :: square(y) == y.jitterSq
    requires v != [] && RealSum(square, v) == mean * |v| as real
    ensures MeanSquare(v) == mean
  {
    SameSum(v, square);
    Divided(RealSum(JitterSq(), v), mean, |v|);
  }

  lemma Divided(total: real, x: real, n: nat)
    requires n > 0 && total == x * n as real
    ensures total / n as real == x
  {
  }

  lemma {:induction false} SameSum(v: seq<Survivor>, square: Survivor -> real)
    requires forall y :: square(y) == y.jitterSq
    ensures RealSum(square, v) == RealSum(JitterSq(), v)
  {
    if v != [] {
      SameSum(v[..|v|-1], square);
    }
  }

  lemma NineTimes(jitter: real, rms: real, jitterSq: real, mean: real)
    requires jitter >= 0.0 && rms > 0.0 && jitterSq == jitter * jitter && mean == rms * rms
    ensures mean > 0.0
    ensures jitterSq <= 9.0 * mean <==> jitter <= 3.0 * rms
  {
    SquareLess(0.0, rms);
    SquareOrder(jitter, 3.0 * rms);
  }

  lemma {:induction false} WithinMember(v: seq<Survivor>, prefer: Option<nat>, bound: real, x: Survivor)
    ensures x in Within(v, prefer, bound) <==> x in v && Stays(prefer, bound)(x) == 1
  {
    if v != [] {
      WithinMember(v[..|v|-1], prefer, bound, x);
      assert v == v[..|v|-1] + [v[|v|-1]];
    }
  }
}
