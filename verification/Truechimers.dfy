/** How far the accepted interval can be from the true offset when some of the confidence
    intervals miss it: the intersection step tolerates f falsetickers among n candidates
    exactly if n is at least 4f + 1. */
module Truechimers {
  import opened Sums
  import opened Intersection

  // ---------- Enough candidates ----------

  predicate Contains(x: Candidate, theta: real) { x.Lo() <= theta <= x.Hi() }

  function RightOf(theta: real, e: real): Candidate -> int {
    (x: Candidate) => if Contains(x, theta) && e < x.offset then 1 else 0
  }

  function LeftOf(theta: real, s: real): Candidate -> int {
    (x: Candidate) => if Contains(x, theta) && x.offset < s then 1 else 0
  }

  lemma {:induction false} NearestRight(c: seq<Candidate>, theta: real, e: real) returns (p: real)
    requires Sum(RightOf(theta, e), c) > 0
    ensures e < p && forall x :: x in c && RightOf(theta, e)(x) == 1 ==> p <= x.offset
  {
    var init, last := c[..|c|-1], c[|c|-1];
    assert c == init + [last];
    if Sum(RightOf(theta, e), init) > 0 {
      p := NearestRight(init, theta, e);
      if RightOf(theta, e)(last) == 1 && last.offset < p {
        p := last.offset;
      }
    } else {
      SumNonNegative(RightOf(theta, e), init);
      p := last.offset;
    }
  }

  lemma {:induction false} NearestLeft(c: seq<Candidate>, theta: real, s: real) returns (p: real)
    requires Sum(LeftOf(theta, s), c) > 0
    ensures p < s && forall x :: x in c && LeftOf(theta, s)(x) == 1 ==> x.offset <= p
  {
    var init, last := c[..|c|-1], c[|c|-1];
    assert c == init + [last];
    if Sum(LeftOf(theta, s), init) > 0 {
      p := NearestLeft(init, theta, s);
      if LeftOf(theta, s)(last) == 1 && p < last.offset {
        p := last.offset;
      }
    } else {
      SumNonNegative(LeftOf(theta, s), init);
      p := last.offset;
    }
  }

  /** Of the candidates that contain theta fewer than m have their offsets right of theta's
      component of level m, because together they would extend it. */
  lemma {:induction false} FewRight(c: seq<Candidate>, m: int, s: real, e: real, theta: real)
    requires WellFormed(c) && 1 <= m && Component(c, m, s, e) && s <= theta <= e
    ensures Sum(RightOf(theta, e), c) < m
  {
    if Sum(RightOf(theta, e), c) >= m {
      var p := NearestRight(c, theta, e);
      assert GapAfter(c, m, e, p);
      var y :| e < y <= p && Cover(c, y) < m;
      forall x | x in c ensures RightOf(theta, e)(x) <= CoversAt(y)(x) {
      }
      SumLe(RightOf(theta, e), CoversAt(y), c);
    }
  }

  lemma {:induction false} FewLeft(c: seq<Candidate>, m: int, s: real, e: real, theta: real)
    requires WellFormed(c) && 1 <= m && Component(c, m, s, e) && s <= theta <= e
    ensures Sum(LeftOf(theta, s), c) < m
  {
    if Sum(LeftOf(theta, s), c) >= m {
      var p := NearestLeft(c, theta, s);
      assert GapBefore(c, m, p, s);
      var y :| p <= y < s && Cover(c, y) < m;
      forall x | x in c ensures LeftOf(theta, s)(x) <= CoversAt(y)(x) {
      }
      SumLe(LeftOf(theta, s), CoversAt(y), c);
    }
  }

  lemma {:induction false} CoverSplits(c: seq<Candidate>, s: real, e: real, theta: real)
    ensures Cover(c, theta) <= Mids(c, s, e) + Sum(RightOf(theta, e), c) + Sum(LeftOf(theta, s), c)
  {
    if c != [] {
      CoverSplits(c[..|c|-1], s, e, theta);
    }
  }

  /** If enough candidates contain theta, some component of level m is accepted. */
  lemma LevelAccepts(c: seq<Candidate>, theta: real, m: int)
    requires WellFormed(c) && 1 <= m && 3 * m <= Cover(c, theta) + 2
    ensures !LevelRejected(c, m)
  {
    var eps := SortEndpoints(Endpoints(c));
    var a, b := RunAt(eps, c, m, theta);
    var s, e := eps[a].val, eps[b].val;
    RunIsComponent(eps, c, m, a, b);
    FewRight(c, m, s, e, theta);
    FewLeft(c, m, s, e, theta);
    CoverSplits(c, s, e, theta);
  }

  lemma CoverAtMost(c: seq<Candidate>, theta: real)
    ensures Cover(c, theta) <= |c|
  {
    SumPair(CoversAt(theta), (x: Candidate) => 0, c);
    SumZero((x: Candidate) => 0, c);
  }

  /** The accepted level is at least a third of the number of candidates that contain theta. */
  lemma AcceptedLevel(c: seq<Candidate>, theta: real, m: int)
    requires WellFormed(c) && c != [] && 1 <= m && 3 * m <= Cover(c, theta) + 2
    ensures Accept(c).level >= m
  {
    LevelAccepts(c, theta, m);
    CoverAtMost(c, theta);
    assert Accept(c).level < m ==> LevelRejected(c, m);
  }

  /** A point of the accepted interval and theta lie in one confidence interval. */
  ghost predicate Vouched(c: seq<Candidate>, theta: real, x: real) {
    exists y :: y in c && Contains(y, theta) && Contains(y, x)
  }

  /** With at most f falsetickers among 4f + 1 or more candidates, every point of the accepted
      interval is vouched for by a candidate that contains theta. */
  lemma AcceptedIsVouched(c: seq<Candidate>, theta: real, f: nat, x: real)
    requires WellFormed(c) && |c| >= 4 * f + 1 && Cover(c, theta) >= |c| - f
    requires Accept(c).lo <= x <= Accept(c).hi
    ensures Vouched(c, theta, x)
  {
    AcceptedLevel(c, theta, f + 1);
    assert Cover(c, x) >= f + 1;
    if !Vouched(c, theta, x) {
      SumPair(CoversAt(theta), CoversAt(x), c);
    }
  }

  // ---------- Too few candidates ----------

  function Copies(x: Candidate, n: nat): (r: seq<Candidate>)
    ensures |r| == n
  {
    if n == 0 then [] else Copies(x, n - 1) + [x]
  }

  lemma {:induction false} CopiesSum(w: Candidate -> int, x: Candidate, n: nat)
    ensures Sum(w, Copies(x, n)) == n * w(x)
  {
    if n > 0 {
      CopiesSum(w, x, n - 1);
      SumSnoc(w, Copies(x, n - 1), x);
    }
  }

  const FAR := Candidate(-99.5, 0.5)
  const LEFT := Candidate(-5.0, 5.0)
  const MIDDLE := Candidate(0.0, 1.0)
  const RIGHT := Candidate(5.0, 5.0)

  /** f candidates far away, and a, b, d around zero that all contain it. */
  function Split(f: nat, a: nat, b: nat, d: nat): (r: seq<Candidate>)
    ensures |r| == f + a + b + d
  {
    Copies(FAR, f) + Copies(LEFT, a) + Copies(MIDDLE, b) + Copies(RIGHT, d)
  }

  lemma SplitSum(w: Candidate -> int, f: nat, a: nat, b: nat, d: nat)
    ensures Sum(w, Split(f, a, b, d)) == f * w(FAR) + a * w(LEFT) + b * w(MIDDLE) + d * w(RIGHT)
  {
    CopiesSum(w, FAR, f);
    CopiesSum(w, LEFT, a);
    CopiesSum(w, MIDDLE, b);
    CopiesSum(w, RIGHT, d);
    SumConcat(w, Copies(FAR, f), Copies(LEFT, a));
    SumConcat(w, Copies(FAR, f) + Copies(LEFT, a), Copies(MIDDLE, b));
    SumConcat(w, Copies(FAR, f) + Copies(LEFT, a) + Copies(MIDDLE, b), Copies(RIGHT, d));
  }

  function If(p: bool, n: nat): nat { if p then n else 0 }

  lemma SplitCover(f: nat, a: nat, b: nat, d: nat, x: real)
    ensures Cover(Split(f, a, b, d), x)
         == If(-100.0 <= x <= -99.0, f) + If(-10.0 <= x <= 0.0, a) + If(-1.0 <= x <= 1.0, b) + If(0.0 <= x <= 10.0, d)
  {
    SplitSum(CoversAt(x), f, a, b, d);
  }

  lemma SplitMids(f: nat, a: nat, b: nat, d: nat, s: real, e: real)
    ensures Mids(Split(f, a, b, d), s, e)
         == If(s <= -99.5 <= e, f) + If(s <= -5.0 <= e, a) + If(s <= 0.0 <= e, b) + If(s <= 5.0 <= e, d)
  {
    SplitSum(MidWithin(s, e), f, a, b, d);
  }

  lemma SplitWellFormed(f: nat, a: nat, b: nat, d: nat)
    ensures WellFormed(Split(f, a, b, d))
    ensures forall y :: y in Split(f, a, b, d) ==> y == FAR || y == LEFT || y == MIDDLE || y == RIGHT
  {
    CopiesAre(FAR, f);
    CopiesAre(LEFT, a);
    CopiesAre(MIDDLE, b);
    CopiesAre(RIGHT, d);
    var c := Split(f, a, b, d);
    assert forall i :: 0 <= i < |c| ==> c[i] in c;
  }

  lemma {:induction false} CopiesAre(x: Candidate, n: nat)
    ensures forall y :: y in Copies(x, n) ==> y == x
  {
    if n > 0 {
      CopiesAre(x, n - 1);
    }
  }

  /** No level above f accepts: only around zero do more than f intervals meet, and only the
      middle offsets lie there. */
  lemma HigherRejected(f: nat, a: nat, b: nat, d: nat, m: int)
    requires a <= f && b <= f && d <= f < m
    ensures LevelRejected(Split(f, a, b, d), m)
  {
    var c := Split(f, a, b, d);
    forall s, e | Component(c, m, s, e) ensures Mids(c, s, e) < m {
      SplitCover(f, a, b, d, s);
      SplitCover(f, a, b, d, e);
      SplitMids(f, a, b, d, s, e);
      assert Cover(c, s) >= m && Cover(c, e) >= m;
    }
  }

  lemma FarComponent(f: nat, a: nat, b: nat, d: nat)
    requires 1 <= f
    ensures Component(Split(f, a, b, d), f, -100.0, -99.0)
  {
    var c := Split(f, a, b, d);
    forall x ensures -100.0 <= x <= -99.0 ==> Cover(c, x) >= f {
      SplitCover(f, a, b, d, x);
    }
    forall x | x < -100.0 ensures GapBefore(c, f, x, -100.0) {
      SplitCover(f, a, b, d, x);
    }
    forall x | -99.0 < x ensures GapAfter(c, f, -99.0, x) {
      var y := if x < -50.0 then x else -50.0;
      SplitCover(f, a, b, d, y);
      assert -99.0 < y <= x && Cover(c, y) < f;
    }
  }

  /** With at most f on each side, the f far away are what is accepted. */
  lemma FarAccepted(f: nat, a: nat, b: nat, d: nat)
    requires 1 <= f && a <= f && b <= f && d <= f
    ensures Accepted(Split(f, a, b, d), f, -100.0, -99.0)
  {
    var c := Split(f, a, b, d);
    FarComponent(f, a, b, d);
    SplitMids(f, a, b, d, -100.0, -99.0);
    forall s, e ensures Component(c, f, s, e) ==> s >= -100.0 {
      SplitCover(f, a, b, d, s);
      assert Component(c, f, s, e) ==> Cover(c, s) >= f;
    }
    forall m | f < m <= |c| ensures LevelRejected(c, m) {
      HigherRejected(f, a, b, d, m);
    }
  }

  /** All candidates but f contain theta, and the accepted interval has a point that no
      candidate containing theta vouches for. */
  ghost predicate Misled(c: seq<Candidate>, theta: real, f: nat) {
    && WellFormed(c) && c != [] && Cover(c, theta) >= |c| - f
    && exists x :: Accept(c).lo <= x <= Accept(c).hi && !Vouched(c, theta, x)
  }

  lemma SplitMisled(f: nat, a: nat, b: nat, d: nat)
    requires 1 <= f && a <= f && b <= f && d <= f
    ensures Misled(Split(f, a, b, d), 0.0, f)
  {
    var c := Split(f, a, b, d);
    SplitWellFormed(f, a, b, d);
    SplitCover(f, a, b, d, 0.0);
    FarAccepted(f, a, b, d);
    AcceptedUnique(c, f, -100.0, -99.0, Accept(c).level, Accept(c).lo, Accept(c).hi);
    assert !Vouched(c, 0.0, -99.5);
  }

  /** Among n candidates f falsetickers can mislead the intersection step exactly if n is at
      most 4f. */
  lemma ToleratesExactly(n: nat, f: nat)
    requires 1 <= f <= n
    ensures (exists c, theta :: |c| == n && Misled(c, theta, f)) <==> n <= 4 * f
  {
    if n <= 4 * f {
      var t := n - f;
      var a := if t < f then t else f;
      var b := if t - a < f then t - a else f;
      SplitMisled(f, a, b, t - a - b);
      assert |Split(f, a, b, t - a - b)| == n;
    } else {
      forall c, theta | |c| == n ensures !Misled(c, theta, f) {
        forall x | WellFormed(c) && Cover(c, theta) >= |c| - f && Accept(c).lo <= x <= Accept(c).hi
          ensures Vouched(c, theta, x)
        {
          AcceptedIsVouched(c, theta, f, x);
        }
      }
    }
  }
}
