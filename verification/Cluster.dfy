/** The pruning core of the cluster algorithm (RFC 5905, section 11.2.2).
    Jitters are kept squared, so that no square root is needed: comparing a jitter with
    three times the RMS is comparing its square with nine times the mean square. */
module Cluster {
  import opened Wrappers
  import opened Sums

  const MINCLOCK := 3

  /** A candidate: its index in the peer array and its squared jitter. */
  datatype Survivor = Survivor(peer: nat, jitterSq: real)

  predicate Protected(prefer: Option<nat>, x: Survivor) {
    prefer == Some(x.peer)
  }

  // ---------- Dropping the worst until three are left ----------

  /** Position z holds the last of the largest jitters among the unprotected candidates. */
  ghost predicate IsWorst(v: seq<Survivor>, prefer: Option<nat>, z: nat) {
    && z < |v| && !Protected(prefer, v[z])
    && (forall j :: 0 <= j < |v| && !Protected(prefer, v[j]) ==> v[j].jitterSq <= v[z].jitterSq)
    && (forall j :: z < j < |v| && !Protected(prefer, v[j]) ==> v[j].jitterSq < v[z].jitterSq)
  }

  function Worst(v: seq<Survivor>, prefer: Option<nat>): (r: Option<nat>)
    ensures r.Some? ==> IsWorst(v, prefer, r.value)
    ensures r.None? <==> forall x :: x in v ==> Protected(prefer, x)
  {
    if v == [] then None else
      var last := |v| - 1;
      var best := Worst(v[..last], prefer);
      assert v == v[..last] + [v[last]];
      if !Protected(prefer, v[last]) && (best.None? || v[last].jitterSq >= v[best.value].jitterSq)
      then Some(last) else best
  }

  lemma {:induction false} WorstStep(v: seq<Survivor>, prefer: Option<nat>, i: nat)
    requires i < |v|
    ensures Worst(v[..i+1], prefer) ==
            var best := Worst(v[..i], prefer);
            if !Protected(prefer, v[i]) && (best.None? || v[i].jitterSq >= v[best.value].jitterSq) then Some(i)
            else best
  {
    assert v[..i+1][..i] == v[..i];
  }

  /** The reference form of clustering: drop the worst until three are left. */
  function KeepBest(v: seq<Survivor>, prefer: Option<nat>): seq<Survivor>
    decreases |v|
  {
    if |v| <= MINCLOCK then v
    else match Worst(v, prefer)
      case None => v
      case Some(w) => KeepBest(RemoveAt(v, w), prefer)
  }

  ghost predicate Ascending(v: seq<Survivor>) {
    forall i, j :: 0 <= i < j < |v| ==> v[i].peer < v[j].peer
  }

  lemma {:induction false} WorstExists(v: seq<Survivor>, prefer: Option<nat>)
    requires Ascending(v) && |v| > 1
    ensures Worst(v, prefer).Some?
  {
    assert v[0] in v && v[1] in v;
  }

  /** Exactly min(3, n) candidates remain, in their original order. */
  lemma {:induction false} KeepBestSize(v: seq<Survivor>, prefer: Option<nat>)
    requires Ascending(v)
    ensures |KeepBest(v, prefer)| == if |v| <= MINCLOCK then |v| else MINCLOCK
    ensures Ascending(KeepBest(v, prefer))
    ensures forall x :: x in KeepBest(v, prefer) ==> x in v
    decreases |v|
  {
    if |v| > MINCLOCK {
      WorstExists(v, prefer);
      KeepBestSize(RemoveAt(v, Worst(v, prefer).value), prefer);
    }
  }

  lemma WorstDominates(v: seq<Survivor>, prefer: Option<nat>, z: nat, y: Survivor)
    requires IsWorst(v, prefer, z) && y in v && !Protected(prefer, y)
    ensures y.jitterSq <= v[z].jitterSq
    ensures Ascending(v) && y.jitterSq == v[z].jitterSq ==> y.peer <= v[z].peer
  {
    var j :| 0 <= j < |v| && v[j] == y;
  }

  lemma AscendingAway(u: seq<Survivor>, v: seq<Survivor>, w: nat, y: Survivor)
    requires Ascending(v) && w < |v| && u == RemoveAt(v, w) && y in u
    ensures y.peer != v[w].peer
  {
    var j :| 0 <= j < |u| && u[j] == y;
    assert y == v[if j < w then j else j + 1];
  }

  /** One step of clustering. */
  lemma DropWorst(v: seq<Survivor>, prefer: Option<nat>) returns (w: nat)
    requires Ascending(v) && |v| > MINCLOCK
    ensures IsWorst(v, prefer, w) && Ascending(RemoveAt(v, w))
    ensures KeepBest(v, prefer) == KeepBest(RemoveAt(v, w), prefer)
    ensures forall x :: x in KeepBest(v, prefer) ==> x in RemoveAt(v, w)
  {
    WorstExists(v, prefer);
    w := Worst(v, prefer).value;
    KeepBestSize(RemoveAt(v, w), prefer);
  }

  /** The protected candidate stays, and whoever is dropped is worse than any unprotected
      candidate that stays: its jitter is larger, or as large and its index larger. */
  lemma {:induction false} KeepBestDominates(v: seq<Survivor>, prefer: Option<nat>, x: Survivor, y: Survivor)
    requires Ascending(v)
    requires x in v && x !in KeepBest(v, prefer)
    requires y in KeepBest(v, prefer)
    ensures !Protected(prefer, x)
    ensures !Protected(prefer, y) ==> y.jitterSq < x.jitterSq || (y.jitterSq == x.jitterSq && y.peer < x.peer)
    decreases |v|
  {
    var w := DropWorst(v, prefer);
    if x == v[w] {
      if !Protected(prefer, y) {
        WorseThanRest(v, prefer, w, y);
      }
    } else {
      RemoveAtMember(v, w, x);
      KeepBestDominates(RemoveAt(v, w), prefer, x, y);
    }
  }

  lemma WorseThanRest(v: seq<Survivor>, prefer: Option<nat>, w: nat, y: Survivor)
    requires Ascending(v) && IsWorst(v, prefer, w) && y in RemoveAt(v, w) && !Protected(prefer, y)
    ensures y.jitterSq < v[w].jitterSq || (y.jitterSq == v[w].jitterSq && y.peer < v[w].peer)
  {
    RemoveAtMember(v, w, y);
    WorstDominates(v, prefer, w, y);
    AscendingAway(RemoveAt(v, w), v, w, y);
  }

  lemma {:induction false} ProtectedStays(v: seq<Survivor>, prefer: Option<nat>, x: Survivor)
    requires Ascending(v) && x in v && Protected(prefer, x)
    ensures x in KeepBest(v, prefer)
  {
    KeepBestSize(v, prefer);
    var kept := KeepBest(v, prefer);
    if x !in kept {
      KeepBestDominates(v, prefer, x, kept[0]);
    }
  }

  // ---------- The outlier pass never matters ----------

  function Stays(prefer: Option<nat>, bound: real): Survivor -> int {
    (x: Survivor) => if Protected(prefer, x) || x.jitterSq <= bound then 1 else 0
  }

  lemma {:induction false} TwoRemovals(v: seq<Survivor>, i: nat, j: nat)
    requires i < j < |v|
    ensures RemoveAt(RemoveAt(v, j), i) == RemoveAt(RemoveAt(v, i), j - 1)
  {
  }

  lemma {:induction false} WorstUnique(v: seq<Survivor>, prefer: Option<nat>, z: nat)
    requires IsWorst(v, prefer, z)
    ensures Worst(v, prefer) == Some(z)
  {
    assert v[z] in v;
    var r := Worst(v, prefer).value;
    assert IsWorst(v, prefer, r);
  }

  lemma {:induction false} WorstAfterRemoval(v: seq<Survivor>, prefer: Option<nat>, z: nat, w: nat)
    requires IsWorst(v, prefer, z) && w < |v| && z != w
    ensures Worst(RemoveAt(v, w), prefer) == Some(Shifted(z, w))
  {
    var u := RemoveAt(v, w);
    var z' := Shifted(z, w);
    assert u[z'] == v[z];
    forall j | 0 <= j < |u| && !Protected(prefer, u[j])
      ensures u[j].jitterSq <= u[z'].jitterSq
      ensures z' < j ==> u[j].jitterSq < u[z'].jitterSq
    {
      var i := if j < w then j else j + 1;
      assert u[j] == v[i];
    }
    WorstUnique(u, prefer, z');
  }

  /** With an unprotected candidate above the bound and three others respecting it, the worst
      candidate exists and is above the bound. */
  lemma {:induction false} WorstIsAbove(v: seq<Survivor>, prefer: Option<nat>, bound: real, w: nat)
    requires w < |v| && Stays(prefer, bound)(v[w]) == 0
    requires Sum(Stays(prefer, bound), v) >= MINCLOCK
    ensures |v| > MINCLOCK && Worst(v, prefer).Some? && Stays(prefer, bound)(v[Worst(v, prefer).value]) == 0
  {
    SumRemoveAt(Stays(prefer, bound), v, w);
    StaysBound(RemoveAt(v, w), prefer, bound);
    assert v[w] in v;
    WorstDominates(v, prefer, Worst(v, prefer).value, v[w]);
  }

  lemma {:induction false} KeepBestStep(v: seq<Survivor>, prefer: Option<nat>, z: nat)
    requires |v| > MINCLOCK && Worst(v, prefer) == Some(z)
    ensures KeepBest(v, prefer) == KeepBest(RemoveAt(v, z), prefer)
  {
  }

  /** An index once position i has been removed. */
  function Shifted(k: nat, i: nat): nat { if k > i then k - 1 else k }

  lemma SwapRemovals(v: seq<Survivor>, i: nat, j: nat)
    requires i < |v| && j < |v| && i != j
    ensures Shifted(j, i) < |v| - 1 && RemoveAt(v, i)[Shifted(j, i)] == v[j]
    ensures Shifted(i, j) < |v| - 1 && RemoveAt(v, j)[Shifted(i, j)] == v[i]
    ensures RemoveAt(RemoveAt(v, i), Shifted(j, i)) == RemoveAt(RemoveAt(v, j), Shifted(i, j))
  {
    if i < j {
      TwoRemovals(v, i, j);
    } else {
      TwoRemovals(v, j, i);
    }
  }

  /** An unprotected candidate above a bound that at least three others respect
      will be dropped anyway: dropping it first changes nothing. */
  lemma {:induction false} DropEarly(v: seq<Survivor>, prefer: Option<nat>, bound: real, w: nat)
    requires w < |v| && Stays(prefer, bound)(v[w]) == 0
    requires Sum(Stays(prefer, bound), v) >= MINCLOCK
    ensures KeepBest(v, prefer) == KeepBest(RemoveAt(v, w), prefer)
    ensures Sum(Stays(prefer, bound), RemoveAt(v, w)) >= MINCLOCK
    decreases |v|
  {
    WorstIsAbove(v, prefer, bound, w);
    var z := Worst(v, prefer).value;
    KeepBestStep(v, prefer, z);
    SumRemoveAt(Stays(prefer, bound), v, w);
    if z != w {
      SwapRemovals(v, z, w);
      SumRemoveAt(Stays(prefer, bound), v, z);
      DropEarly(RemoveAt(v, z), prefer, bound, Shifted(w, z));
      EnoughLeft(v, prefer, bound, w, Shifted(z, w));
      WorstAfterRemoval(v, prefer, z, w);
      KeepBestStep(RemoveAt(v, w), prefer, Shifted(z, w));
    }
  }

  lemma EnoughLeft(v: seq<Survivor>, prefer: Option<nat>, bound: real, w: nat, z': nat)
    requires w < |v| && z' < |v| - 1 && Sum(Stays(prefer, bound), RemoveAt(v, w)) >= MINCLOCK
    requires Stays(prefer, bound)(RemoveAt(v, w)[z']) == 0
    ensures |v| - 1 > MINCLOCK
  {
    SumRemoveAt(Stays(prefer, bound), RemoveAt(v, w), z');
    StaysBound(RemoveAt(RemoveAt(v, w), z'), prefer, bound);
  }

  lemma {:induction false} StaysBound(v: seq<Survivor>, prefer: Option<nat>, bound: real)
    ensures Sum(Stays(prefer, bound), v) <= |v|
  {
    if v != [] {
      StaysBound(v[..|v|-1], prefer, bound);
    }
  }

  // ---------- How much one outlier pass can remove ----------

  function JitterSq(): Survivor -> real {
    (x: Survivor) => x.jitterSq
  }

  function MeanSquare(v: seq<Survivor>): real
    requires v != []
  {
    RealSum(JitterSq(), v) / |v| as real
  }

  /** The candidates that are protected or respect the bound, in order. */
  function Within(v: seq<Survivor>, prefer: Option<nat>, bound: real): seq<Survivor> {
    if v == [] then [] else
      var last := v[|v|-1];
      Within(v[..|v|-1], prefer, bound) + if Stays(prefer, bound)(last) == 1 then [last] else []
  }

  /** What one outlier pass leaves: nothing above three times the RMS, unless all jitters are zero. */
  function Pruned(v: seq<Survivor>, prefer: Option<nat>): seq<Survivor>
    requires v != []
  {
    if MeanSquare(v) <= 0.0 then v else Within(v, prefer, 9.0 * MeanSquare(v))
  }

  lemma {:induction false} WithinConcat(a: seq<Survivor>, b: seq<Survivor>, prefer: Option<nat>, bound: real)
    ensures Within(a + b, prefer, bound) == Within(a, prefer, bound) + Within(b, prefer, bound)
  {
    if b == [] {
      assert a + b == a;
    } else {
      assert (a + b)[..|a + b|-1] == a + b[..|b|-1];
      WithinConcat(a, b[..|b|-1], prefer, bound);
    }
  }

  lemma {:induction false} WithinAll(v: seq<Survivor>, prefer: Option<nat>, bound: real)
    requires forall i :: 0 <= i < |v| ==> Stays(prefer, bound)(v[i]) == 1
    ensures Within(v, prefer, bound) == v
  {
    if v != [] {
      WithinAll(v[..|v|-1], prefer, bound);
    }
  }

  lemma {:induction false} WithinSize(v: seq<Survivor>, prefer: Option<nat>, bound: real)
    ensures |Within(v, prefer, bound)| == Sum(Stays(prefer, bound), v)
  {
    if v != [] {
      WithinSize(v[..|v|-1], prefer, bound);
    }
  }

  lemma {:induction false} WithinSkip(a: seq<Survivor>, x: Survivor, b: seq<Survivor>, prefer: Option<nat>, bound: real)
    requires Stays(prefer, bound)(x) == 0
    ensures Within(a + [x] + b, prefer, bound) == Within(a + b, prefer, bound)
  {
    if b == [] {
      assert a + [x] + b == a + [x] && a + b == a;
      assert (a + [x])[..|a|] == a;
    } else {
      var last := |b| - 1;
      assert (a + [x] + b)[..|a| + 1 + last] == a + [x] + b[..last];
      assert (a + b)[..|a| + last] == a + b[..last];
      WithinSkip(a, x, b[..last], prefer, bound);
    }
  }

  /** With everything from q on done, and only p to go from p on, removing p does it. */
  lemma {:induction false} WithinFrom(v: seq<Survivor>, prefer: Option<nat>, bound: real, p: nat, q: nat)
    requires p < q <= |v| && Stays(prefer, bound)(v[p]) == 0
    requires forall j :: p < j < q ==> Stays(prefer, bound)(v[j]) == 1
    ensures RemoveAt(v[..q] + Within(v[q..], prefer, bound), p) == v[..p] + Within(v[p..], prefer, bound)
  {
    WithinRun(v[p], v[p+1..q], v[q..], prefer, bound);
    assert v[p..] == [v[p]] + v[p+1..q] + v[q..];
    RemoveAtWithin(v, p, q, Within(v[q..], prefer, bound));
  }

  lemma {:induction false} WithinRun(x: Survivor, middle: seq<Survivor>, rest: seq<Survivor>, prefer: Option<nat>,
      bound: real)
    requires Stays(prefer, bound)(x) == 0 && forall y :: y in middle ==> Stays(prefer, bound)(y) == 1
    ensures Within([x] + middle + rest, prefer, bound) == middle + Within(rest, prefer, bound)
  {
    WithinConcat([x] + middle, rest, prefer, bound);
    WithinSkip([], x, middle, prefer, bound);
    assert [] + [x] + middle == [x] + middle && [] + middle == middle;
    WithinAll(middle, prefer, bound);
  }

  lemma RemoveAtWithin(v: seq<Survivor>, p: nat, q: nat, done: seq<Survivor>)
    requires p < q <= |v|
    ensures RemoveAt(v[..q] + done, p) == v[..p] + (v[p+1..q] + done)
  {
  }

  /** With everything from q on done and nothing to go before q, all is done. */
  lemma {:induction false} WithinWhole(v: seq<Survivor>, prefer: Option<nat>, bound: real, q: nat)
    requires q <= |v| && forall j :: 0 <= j < q ==> Stays(prefer, bound)(v[j]) == 1
    ensures v[..q] + Within(v[q..], prefer, bound) == Within(v, prefer, bound)
  {
    assert v == v[..q] + v[q..];
    WithinConcat(v[..q], v[q..], prefer, bound);
    WithinAll(v[..q], prefer, bound);
  }

  ghost predicate NonNegative(v: seq<Survivor>) {
    forall i :: 0 <= i < |v| ==> v[i].jitterSq >= 0.0
  }

  lemma {:induction false} OutlierMass(v: seq<Survivor>, prefer: Option<nat>, bound: real)
    requires NonNegative(v) && bound > 0.0
    ensures var out := |v| - Sum(Stays(prefer, bound), v);
            && out >= 0
            && RealSum(JitterSq(), v) >= out as real * bound
            && (out > 0 ==> RealSum(JitterSq(), v) > out as real * bound)
  {
    if v != [] {
      var last := |v| - 1;
      OutlierMass(v[..last], prefer, bound);
      var out := last - Sum(Stays(prefer, bound), v[..last]);
      if Stays(prefer, bound)(v[last]) == 0 {
        assert (out + 1) as real * bound == out as real * bound + bound;
      }
    }
  }

  lemma PositiveFactor(x: real, y: real)
    requires x > 0.0 && x * y > 0.0
    ensures y > 0.0
  {
  }

  lemma FewByMass(out: real, bound: real, total: real, n: real)
    requires n > 0.0 && total > 0.0 && bound * n == 9.0 * total && total > out * bound
    ensures n > 9.0 * out
  {
    PositiveFactorOf(total - out * bound, n);
    assert (out * bound) * n == out * (bound * n) == total * (9.0 * out);
    assert total * (n - 9.0 * out) > 0.0;
    PositiveFactor(total, n - 9.0 * out);
  }

  lemma PositiveFactorOf(x: real, y: real)
    requires x > 0.0 && y > 0.0
    ensures x * y > 0.0
  {
  }

  lemma NineTimes(total: real, n: real)
    requires n > 0.0
    ensures (9.0 * (total / n)) * n == 9.0 * total
  {
    assert (total / n) * n == total;
  }

  /** One pass with the threshold of three times the RMS removes strictly fewer than
      one ninth of the candidates; in particular it keeps more than three of more than three. */
  lemma {:induction false} OutliersAreFew(v: seq<Survivor>, prefer: Option<nat>)
    requires v != [] && NonNegative(v) && MeanSquare(v) > 0.0
    ensures 9 * (|v| - Sum(Stays(prefer, 9.0 * MeanSquare(v)), v)) < |v|
  {
    var bound := 9.0 * MeanSquare(v);
    var total, n := RealSum(JitterSq(), v), |v| as real;
    OutlierMass(v, prefer, bound);
    var out := |v| - Sum(Stays(prefer, bound), v);
    NineTimes(total, n);
    if out > 0 {
      FewByMass(out as real, bound, total, n);
    }
  }

  lemma {:induction false} WithinRemoveAt(v: seq<Survivor>, prefer: Option<nat>, bound: real, w: nat)
    requires w < |v| && Stays(prefer, bound)(v[w]) == 0
    ensures Within(RemoveAt(v, w), prefer, bound) == Within(v, prefer, bound)
  {
    SplitAt(v, w);
    WithinSkip(v[..w], v[w], v[w+1..], prefer, bound);
  }

  /** Removing all outliers does not change which three candidates remain. */
  lemma {:induction false} WithinKeepsBest(v: seq<Survivor>, prefer: Option<nat>, bound: real)
    requires Sum(Stays(prefer, bound), v) >= MINCLOCK
    ensures KeepBest(Within(v, prefer, bound), prefer) == KeepBest(v, prefer)
    decreases |v|
  {
    if w :| 0 <= w < |v| && Stays(prefer, bound)(v[w]) == 0 {
      DropEarly(v, prefer, bound, w);
      WithinKeepsBest(RemoveAt(v, w), prefer, bound);
      WithinRemoveAt(v, prefer, bound, w);
    } else {
      WithinAll(v, prefer, bound);
    }
  }

  lemma {:induction false} WithinNonNegative(v: seq<Survivor>, prefer: Option<nat>, bound: real)
    requires NonNegative(v)
    ensures NonNegative(Within(v, prefer, bound))
  {
    if v != [] {
      WithinNonNegative(v[..|v|-1], prefer, bound);
    }
  }

  /** One outlier pass over more than three candidates removes fewer than a ninth of them,
      and the outcome of clustering is the same as without it. */
  lemma {:induction false} PruningIsIdle(v: seq<Survivor>, prefer: Option<nat>)
    requires |v| > MINCLOCK && NonNegative(v)
    ensures |Pruned(v, prefer)| <= |v| && 9 * (|v| - |Pruned(v, prefer)|) < |v|
    ensures KeepBest(Pruned(v, prefer), prefer) == KeepBest(v, prefer)
    ensures NonNegative(Pruned(v, prefer))
  {
    if MeanSquare(v) > 0.0 {
      var bound := 9.0 * MeanSquare(v);
      OutliersAreFew(v, prefer);
      StaysBound(v, prefer, bound);
      WithinSize(v, prefer, bound);
      WithinKeepsBest(v, prefer, bound);
      WithinNonNegative(v, prefer, bound);
    }
  }
}
