/** The intersection step of clock selection (RFC 5905, section 11.2.1): the sweep
    over the endpoints of the candidates' confidence intervals.

    The reference definition (`Accepted`) knows nothing about sorting or sweeping:
    it speaks about how many intervals cover a point of the real line. */
module Intersection {
  import opened Wrappers
  import opened Sums

  const ENTER := 1
  const MIDPOINT := 0
  const LEAVE := -1

  /** What the sweep looks at: a clock offset and the half-width of its confidence interval. */
  datatype Candidate = Candidate(offset: real, synch: real) {
    function Lo(): real { offset - synch }
    function Hi(): real { offset + synch }
  }

  datatype Endpoint = Endpoint(val: real, typ: int, peer: nat)

  ghost predicate WellFormed(c: seq<Candidate>) {
    forall i :: 0 <= i < |c| ==> c[i].synch > 0.0
  }

  // ---------- The reference definition ----------

  function CoversAt(x: real): Candidate -> int {
    (c: Candidate) => if c.Lo() <= x <= c.Hi() then 1 else 0
  }

  /** How many closed confidence intervals contain x. */
  function Cover(c: seq<Candidate>, x: real): int {
    Sum(CoversAt(x), c)
  }

  function MidWithin(s: real, e: real): Candidate -> int {
    (c: Candidate) => if s <= c.offset <= e then 1 else 0
  }

  /** How many offsets lie in [s, e]. */
  function Mids(c: seq<Candidate>, s: real, e: real): int {
    Sum(MidWithin(s, e), c)
  }

  ghost predicate GapBefore(c: seq<Candidate>, m: int, x: real, s: real) {
    exists y :: x <= y < s && Cover(c, y) < m
  }

  ghost predicate GapAfter(c: seq<Candidate>, m: int, e: real, x: real) {
    exists y :: e < y <= x && Cover(c, y) < m
  }

  /** [s, e] is a connected component of the points that at least m intervals cover. */
  ghost predicate Component(c: seq<Candidate>, m: int, s: real, e: real) {
    && s <= e
    && (forall x :: s <= x <= e ==> Cover(c, x) >= m)
    && (forall x :: x < s ==> GapBefore(c, m, x, s))
    && (forall x :: e < x ==> GapAfter(c, m, e, x))
  }

  /** [s, e] is the leftmost component of level m holding at least m offsets. */
  ghost predicate FirstAccepting(c: seq<Candidate>, m: int, s: real, e: real) {
    && Component(c, m, s, e)
    && Mids(c, s, e) >= m
    && (forall s', e' :: Component(c, m, s', e') && s' < s ==> Mids(c, s', e') < m)
  }

  ghost predicate LevelRejected(c: seq<Candidate>, m: int) {
    forall s, e :: Component(c, m, s, e) ==> Mids(c, s, e) < m
  }

  /** m is the highest level at which some component holds m offsets, and
      [s, e] is the leftmost such component of that level. */
  ghost predicate Accepted(c: seq<Candidate>, m: int, s: real, e: real) {
    && 1 <= m <= |c|
    && FirstAccepting(c, m, s, e)
    && (forall m' :: m < m' <= |c| ==> LevelRejected(c, m'))
  }

  // ---------- Facts about the reference definition alone ----------

  lemma ComponentsEqualIfMeet(c: seq<Candidate>, m: int, s1: real, e1: real, s2: real, e2: real, x: real)
    requires Component(c, m, s1, e1) && Component(c, m, s2, e2)
    requires s1 <= x <= e1 && s2 <= x <= e2
    ensures s1 == s2 && e1 == e2
  {
    assert s1 < s2 ==> GapBefore(c, m, s1, s2);
    assert s2 < s1 ==> GapBefore(c, m, s2, s1);
    assert e1 < e2 ==> GapAfter(c, m, e1, e2);
    assert e2 < e1 ==> GapAfter(c, m, e2, e1);
  }

  /** The accepted level and interval are a function of the candidates. */
  lemma AcceptedUnique(c: seq<Candidate>, m1: int, s1: real, e1: real, m2: int, s2: real, e2: real)
    requires Accepted(c, m1, s1, e1) && Accepted(c, m2, s2, e2)
    ensures m1 == m2 && s1 == s2 && e1 == e2
  {
    assert m1 < m2 ==> LevelRejected(c, m2);
    assert m2 < m1 ==> LevelRejected(c, m1);
    assert s1 == s2;
    ComponentsEqualIfMeet(c, m1, s1, e1, s2, e2, s1);
  }

  /** With a majority (fewer than half dismissed) no other component of the level qualifies. */
  lemma MajorityComponentUnique(c: seq<Candidate>, allow: nat, s1: real, e1: real, s2: real, e2: real)
    requires 2 * allow < |c|
    requires Component(c, |c| - allow, s1, e1) && Mids(c, s1, e1) >= |c| - allow
    requires Component(c, |c| - allow, s2, e2) && Mids(c, s2, e2) >= |c| - allow
    ensures s1 == s2 && e1 == e2
  {
    var m := |c| - allow;
    if e1 < s2 || e2 < s1 {
      SumPair(MidWithin(s1, e1), MidWithin(s2, e2), c);
    } else {
      ComponentsEqualIfMeet(c, m, s1, e1, s2, e2, if s1 < s2 then s2 else s1);
    }
  }

  /** The outcome does not depend on the order in which the candidates are listed. */
  lemma AcceptedPermutation(c: seq<Candidate>, d: seq<Candidate>, m: int, s: real, e: real)
    requires multiset(c) == multiset(d)
    requires Accepted(c, m, s, e)
    ensures Accepted(d, m, s, e)
  {
    assert |multiset(c)| == |multiset(d)|;
    forall x ensures Cover(c, x) == Cover(d, x) { SumPermutation(CoversAt(x), c, d); }
    forall u, v ensures Mids(c, u, v) == Mids(d, u, v) { SumPermutation(MidWithin(u, v), c, d); }
    forall n: int, u, v ensures Component(c, n, u, v) == Component(d, n, u, v) {
      ComponentCongruent(c, d, n, u, v);
    }
    forall m' | m < m' <= |d| ensures LevelRejected(d, m') {
      assert LevelRejected(c, m');
    }
  }

  lemma ComponentCongruent(c: seq<Candidate>, d: seq<Candidate>, m: int, s: real, e: real)
    requires forall x :: Cover(c, x) == Cover(d, x)
    ensures Component(c, m, s, e) == Component(d, m, s, e)
  {
    forall x ensures GapBefore(c, m, x, s) == GapBefore(d, m, x, s) && GapAfter(c, m, e, x) == GapAfter(d, m, e, x) {
      assert forall y :: Cover(c, y) < m <==> Cover(d, y) < m;
    }
  }

  // ---------- The endpoint list ----------

  function EndpointsOf(c: Candidate, i: nat): seq<Endpoint> {
    [Endpoint(c.Lo(), ENTER, i), Endpoint(c.offset, MIDPOINT, i), Endpoint(c.Hi(), LEAVE, i)]
  }

  function Endpoints(c: seq<Candidate>): seq<Endpoint> {
    if c == [] then [] else Endpoints(c[..|c|-1]) + EndpointsOf(c[|c|-1], |c|-1)
  }

  /** The comparison used by the sort: by value, and enter before midpoint before leave. */
  predicate Leq(a: Endpoint, b: Endpoint) {
    a.val < b.val || (a.val == b.val && a.typ >= b.typ)
  }

  ghost predicate Sorted(eps: seq<Endpoint>) {
    forall i, j :: 0 <= i < j < |eps| ==> Leq(eps[i], eps[j])
  }

  ghost predicate SweepOf(eps: seq<Endpoint>, c: seq<Candidate>) {
    Sorted(eps) && multiset(eps) == multiset(Endpoints(c)) && WellFormed(c)
  }

  /** Does the endpoint come at or before type t at x in the sort order? */
  predicate Upto(p: Endpoint, x: real, t: int) {
    p.val < x || (p.val == x && p.typ >= t)
  }

  function Typ(): Endpoint -> int {
    (p: Endpoint) => p.typ
  }

  function TypUpto(x: real, t: int): Endpoint -> int {
    (p: Endpoint) => if Upto(p, x, t) then p.typ else 0
  }

  function OpenUpto(x: real, t: int): Candidate -> int {
    (c: Candidate) =>
      (if Upto(Endpoint(c.Lo(), ENTER, 0), x, t) then 1 else 0) -
      (if Upto(Endpoint(c.Hi(), LEAVE, 0), x, t) then 1 else 0)
  }

  lemma {:induction false} SumEndpoints(w: Endpoint -> int, v: Candidate -> int, c: seq<Candidate>)
    requires forall k, i: nat :: 0 <= k < |c| ==> Sum(w, EndpointsOf(c[k], i)) == v(c[k])
    ensures Sum(w, Endpoints(c)) == Sum(v, c)
  {
    if c != [] {
      SumEndpoints(w, v, c[..|c|-1]);
      SumConcat(w, Endpoints(c[..|c|-1]), EndpointsOf(c[|c|-1], |c|-1));
    }
  }

  lemma SumOfThree(w: Endpoint -> int, c: Candidate, i: nat)
    ensures Sum(w, EndpointsOf(c, i))
         == w(Endpoint(c.Lo(), ENTER, i)) + w(Endpoint(c.offset, MIDPOINT, i)) + w(Endpoint(c.Hi(), LEAVE, i))
  {
    var s := EndpointsOf(c, i);
    assert s == [] + [s[0]] + [s[1]] + [s[2]];
    SumSnoc(w, [], s[0]);
    SumSnoc(w, [] + [s[0]], s[1]);
    SumSnoc(w, [] + [s[0]] + [s[1]], s[2]);
  }

  lemma {:induction false} OpenIsTypSum(eps: seq<Endpoint>, c: seq<Candidate>, x: real, t: int)
    requires multiset(eps) == multiset(Endpoints(c))
    ensures Sum(TypUpto(x, t), eps) == Sum(OpenUpto(x, t), c)
  {
    SumPermutation(TypUpto(x, t), eps, Endpoints(c));
    forall k, i: nat | 0 <= k < |c| ensures Sum(TypUpto(x, t), EndpointsOf(c[k], i)) == OpenUpto(x, t)(c[k]) {
      SumOfThree(TypUpto(x, t), c[k], i);
    }
    SumEndpoints(TypUpto(x, t), OpenUpto(x, t), c);
  }

  lemma {:induction false} EndpointTypes(c: seq<Candidate>)
    ensures |Endpoints(c)| == 3 * |c|
    ensures forall p :: p in Endpoints(c) ==> p.typ == ENTER || p.typ == MIDPOINT || p.typ == LEAVE
  {
    if c != [] {
      EndpointTypes(c[..|c|-1]);
    }
  }

  lemma SweepTypes(eps: seq<Endpoint>, c: seq<Candidate>)
    requires SweepOf(eps, c)
    ensures |eps| == 3 * |c|
    ensures forall k :: 0 <= k < |eps| ==> eps[k].typ == ENTER || eps[k].typ == MIDPOINT || eps[k].typ == LEAVE
  {
    EndpointTypes(c);
    assert |multiset(eps)| == |multiset(Endpoints(c))|;
    forall k | 0 <= k < |eps| ensures eps[k] in Endpoints(c) {
      assert eps[k] in multiset(eps);
    }
  }

  // ---------- Depth ----------

  /** The depth counter after k endpoints. */
  function Depth(eps: seq<Endpoint>, k: nat): int
    requires k <= |eps|
  {
    Sum(Typ(), eps[..k])
  }

  lemma DepthStep(eps: seq<Endpoint>, k: nat)
    requires k < |eps|
    ensures Depth(eps, k + 1) == Depth(eps, k) + eps[k].typ
  {
    SumPrefix(Typ(), eps, k);
  }

  /** The endpoints at or before (x, t) form a prefix of the sorted list. */
  lemma {:induction false} Cut(eps: seq<Endpoint>, x: real, t: int) returns (k: nat)
    requires Sorted(eps)
    ensures k <= |eps|
    ensures forall i :: 0 <= i < k ==> Upto(eps[i], x, t)
    ensures forall i :: k <= i < |eps| ==> !Upto(eps[i], x, t)
    ensures Depth(eps, k) == Sum(TypUpto(x, t), eps)
  {
    k := 0;
    while k < |eps| && Upto(eps[k], x, t)
      invariant k <= |eps|
      invariant forall i :: 0 <= i < k ==> Upto(eps[i], x, t)
    {
      k := k + 1;
    }
    forall i | k <= i < |eps| ensures !Upto(eps[i], x, t) {
      assert i == k || Leq(eps[k], eps[i]);
    }
    assert eps == eps[..k] + eps[k..];
    SumConcat(TypUpto(x, t), eps[..k], eps[k..]);
    SumCongruent(TypUpto(x, t), Typ(), eps[..k]);
    SumZero(TypUpto(x, t), eps[k..]);
  }

  /** At a point of the line, the depth after all the enters there is the cover. */
  lemma CoverIsDepth(eps: seq<Endpoint>, c: seq<Candidate>, x: real) returns (k: nat)
    requires SweepOf(eps, c)
    ensures k <= |eps| && Depth(eps, k) == Cover(c, x)
    ensures forall i :: 0 <= i < k ==> Upto(eps[i], x, ENTER)
    ensures forall i :: k <= i < |eps| ==> !Upto(eps[i], x, ENTER)
  {
    k := Cut(eps, x, ENTER);
    OpenIsTypSum(eps, c, x, ENTER);
    SumCongruent(OpenUpto(x, ENTER), CoversAt(x), c);
  }

  lemma DepthEnds(eps: seq<Endpoint>, c: seq<Candidate>)
    requires SweepOf(eps, c)
    ensures Depth(eps, 0) == 0 && Depth(eps, |eps|) == 0
  {
    assert eps[..|eps|] == eps;
    SumPermutation(Typ(), eps, Endpoints(c));
    var zero := (d: Candidate) => 0;
    forall k, i: nat | 0 <= k < |c| ensures Sum(Typ(), EndpointsOf(c[k], i)) == zero(c[k]) {
      SumOfThree(Typ(), c[k], i);
    }
    SumEndpoints(Typ(), zero, c);
    SumZero(zero, c);
  }

  /** While only leaves lie between, the depth does not grow. */
  lemma {:induction false} DepthFalls(eps: seq<Endpoint>, k: nat, n: nat)
    requires k <= n <= |eps|
    requires forall i :: k <= i < n ==> eps[i].typ <= 0
    ensures Depth(eps, n) <= Depth(eps, k)
    decreases n - k
  {
    if k < n {
      DepthStep(eps, k);
      DepthFalls(eps, k + 1, n);
    }
  }

  lemma {:induction false} DepthRises(eps: seq<Endpoint>, k: nat, n: nat)
    requires k <= n <= |eps|
    requires forall i :: k <= i < n ==> eps[i].typ >= 0
    ensures Depth(eps, k) <= Depth(eps, n)
    decreases n - k
  {
    if k < n {
      DepthStep(eps, k);
      DepthRises(eps, k + 1, n);
    }
  }

  /** The unsigned depth counter never underflows. */
  lemma NoUnderflow(eps: seq<Endpoint>, c: seq<Candidate>, k: nat)
    requires SweepOf(eps, c)
    requires k < |eps| && eps[k].typ == LEAVE
    ensures Depth(eps, k + 1) >= 0
  {
    SweepTypes(eps, c);
    var x := eps[k].val;
    var n := Cut(eps, x, LEAVE);
    assert k < n;
    forall i | k + 1 <= i < n ensures eps[i].typ <= 0 {
      assert Leq(eps[k], eps[i]);
    }
    DepthFalls(eps, k + 1, n);
    OpenIsTypSum(eps, c, x, LEAVE);
    SumNonNegative(OpenUpto(x, LEAVE), c);
  }

  // ---------- Runs of the sweep are the components ----------

  /** A maximal block of positions at which the depth is at least m: endpoint a
      raises it to m and endpoint b drops it below m again. */
  ghost predicate IsRun(eps: seq<Endpoint>, m: int, a: nat, b: nat) {
    && a < b < |eps|
    && Depth(eps, a) < m
    && Depth(eps, b + 1) < m
    && (forall k :: a < k <= b ==> Depth(eps, k) >= m)
  }

  lemma RunEnds(eps: seq<Endpoint>, c: seq<Candidate>, m: int, a: nat, b: nat)
    requires SweepOf(eps, c) && IsRun(eps, m, a, b)
    ensures eps[a].typ == ENTER && eps[b].typ == LEAVE
  {
    SweepTypes(eps, c);
    DepthStep(eps, a);
    DepthStep(eps, b);
  }

  lemma RunCovers(eps: seq<Endpoint>, c: seq<Candidate>, m: int, a: nat, b: nat, x: real)
    requires SweepOf(eps, c) && IsRun(eps, m, a, b)
    requires eps[a].val <= x <= eps[b].val
    ensures Cover(c, x) >= m
  {
    RunEnds(eps, c, m, a, b);
    var k := CoverIsDepth(eps, c, x);
    assert a < k <= b;
  }

  lemma RunGapBefore(eps: seq<Endpoint>, c: seq<Candidate>, m: int, a: nat, b: nat, x: real)
    requires SweepOf(eps, c) && IsRun(eps, m, a, b)
    requires x < eps[a].val
    ensures GapBefore(c, m, x, eps[a].val)
  {
    RunEnds(eps, c, m, a, b);
    SweepTypes(eps, c);
    var s := eps[a].val;
    var k := Cut(eps, s, 2);
    assert k <= a;
    forall i | k <= i < a ensures eps[i].typ >= 0 {
      assert Leq(eps[i], eps[a]);
    }
    DepthRises(eps, k, a);
    var y := if k == 0 || (eps[k-1].val + s) / 2.0 < x then x else (eps[k-1].val + s) / 2.0;
    var n := CoverIsDepth(eps, c, y);
    forall i | 0 <= i < |eps| ensures Upto(eps[i], y, ENTER) <==> i < k {
      assert i < k - 1 ==> Leq(eps[i], eps[k-1]);
    }
    assert n == k;
    assert Cover(c, y) < m;
  }

  lemma RunGapAfter(eps: seq<Endpoint>, c: seq<Candidate>, m: int, a: nat, b: nat, x: real)
    requires SweepOf(eps, c) && IsRun(eps, m, a, b)
    requires eps[b].val < x
    ensures GapAfter(c, m, eps[b].val, x)
  {
    RunEnds(eps, c, m, a, b);
    SweepTypes(eps, c);
    var e := eps[b].val;
    var k := Cut(eps, e, LEAVE);
    assert b < k;
    forall i | b + 1 <= i < k ensures eps[i].typ <= 0 {
      assert Leq(eps[b], eps[i]);
    }
    DepthFalls(eps, b + 1, k);
    var y := if k == |eps| || x < (eps[k].val + e) / 2.0 then x else (eps[k].val + e) / 2.0;
    var n := CoverIsDepth(eps, c, y);
    forall i | 0 <= i < |eps| ensures Upto(eps[i], y, ENTER) <==> i < k {
      assert k < i ==> Leq(eps[k], eps[i]);
    }
    assert n == k;
    assert Cover(c, y) < m;
  }

  lemma RunIsComponent(eps: seq<Endpoint>, c: seq<Candidate>, m: int, a: nat, b: nat)
    requires SweepOf(eps, c) && IsRun(eps, m, a, b)
    ensures Component(c, m, eps[a].val, eps[b].val)
  {
    assert Leq(eps[a], eps[b]);
    forall x | eps[a].val <= x <= eps[b].val ensures Cover(c, x) >= m {
      RunCovers(eps, c, m, a, b, x);
    }
    forall x | x < eps[a].val ensures GapBefore(c, m, x, eps[a].val) {
      RunGapBefore(eps, c, m, a, b, x);
    }
    forall x | eps[b].val < x ensures GapAfter(c, m, eps[b].val, x) {
      RunGapAfter(eps, c, m, a, b, x);
    }
  }

  /** Every sufficiently covered point lies in some run. */
  lemma {:induction false} RunAt(eps: seq<Endpoint>, c: seq<Candidate>, m: int, x: real) returns (a: nat, b: nat)
    requires SweepOf(eps, c) && 1 <= m <= Cover(c, x)
    ensures IsRun(eps, m, a, b) && eps[a].val <= x <= eps[b].val
  {
    DepthEnds(eps, c);
    var k := CoverIsDepth(eps, c, x);
    a, b := k - 1, k;
    while Depth(eps, a) >= m
      invariant a < k
      invariant forall i :: a < i <= k ==> Depth(eps, i) >= m
      decreases a
    {
      a := a - 1;
    }
    while Depth(eps, b + 1) >= m
      invariant k <= b < |eps|
      invariant forall i :: k <= i <= b ==> Depth(eps, i) >= m
      decreases |eps| - b
    {
      b := b + 1;
    }
  }

  /** Conversely every component is a run. */
  lemma ComponentIsRun(eps: seq<Endpoint>, c: seq<Candidate>, m: int, s: real, e: real) returns (a: nat, b: nat)
    requires SweepOf(eps, c) && 1 <= m && Component(c, m, s, e)
    ensures IsRun(eps, m, a, b) && eps[a].val == s && eps[b].val == e
  {
    a, b := RunAt(eps, c, m, s);
    RunIsComponent(eps, c, m, a, b);
    ComponentsEqualIfMeet(c, m, s, e, eps[a].val, eps[b].val, s);
  }

  // ---------- Midpoints counted by the sweep ----------

  function IsMid(): Endpoint -> int {
    (p: Endpoint) => if p.typ == MIDPOINT then 1 else 0
  }

  function IsMidWithin(s: real, e: real): Endpoint -> int {
    (p: Endpoint) => if p.typ == MIDPOINT && s <= p.val <= e then 1 else 0
  }

  lemma {:induction false} MidsOfEndpoints(eps: seq<Endpoint>, c: seq<Candidate>, s: real, e: real)
    requires SweepOf(eps, c)
    ensures Sum(IsMidWithin(s, e), eps) == Mids(c, s, e)
  {
    var w := IsMidWithin(s, e);
    SumPermutation(w, eps, Endpoints(c));
    forall k, i: nat | 0 <= k < |c| ensures Sum(w, EndpointsOf(c[k], i)) == MidWithin(s, e)(c[k]) {
      SumOfThree(w, c[k], i);
    }
    SumEndpoints(w, MidWithin(s, e), c);
  }

  /** Midpoints outside a run lie outside its interval, those inside lie inside. */
  lemma RunSeparatesMids(eps: seq<Endpoint>, c: seq<Candidate>, m: int, a: nat, b: nat, i: nat)
    requires SweepOf(eps, c) && IsRun(eps, m, a, b)
    requires i < |eps| && eps[i].typ == MIDPOINT
    ensures eps[a].val <= eps[i].val <= eps[b].val <==> a <= i <= b
  {
    RunEnds(eps, c, m, a, b);
    if i < a {
      assert Leq(eps[i], eps[a]);
    } else if b < i {
      assert Leq(eps[b], eps[i]);
    } else {
      assert Leq(eps[a], eps[i]) && Leq(eps[i], eps[b]);
    }
  }

  /** The sweep's midpoint counter over a run is the number of offsets in its interval. */
  lemma RunMids(eps: seq<Endpoint>, c: seq<Candidate>, m: int, a: nat, b: nat)
    requires SweepOf(eps, c) && IsRun(eps, m, a, b)
    ensures Sum(IsMid(), eps[a..b+1]) == Mids(c, eps[a].val, eps[b].val)
  {
    var s, e := eps[a].val, eps[b].val;
    forall i: nat | i < |eps| && eps[i].typ == MIDPOINT ensures s <= eps[i].val <= e <==> a <= i <= b {
      RunSeparatesMids(eps, c, m, a, b, i);
    }
    SumSlice(IsMidWithin(s, e), IsMid(), eps, a, b + 1);
    MidsOfEndpoints(eps, c, s, e);
  }

  /** What the sweep counts as midpoints over a run. */
  function RunMidCount(eps: seq<Endpoint>, a: nat, b: nat): int
    requires a <= b < |eps|
  {
    Sum(IsMid(), eps[a..b+1])
  }

  // ---------- The sort ----------

  function Insert(p: Endpoint, eps: seq<Endpoint>): (r: seq<Endpoint>)
    ensures multiset(r) == multiset(eps) + multiset{p}
  {
    if eps == [] || Leq(p, eps[0]) then
      [p] + eps
    else
      assert eps == [eps[0]] + eps[1..];
      [eps[0]] + Insert(p, eps[1..])
  }

  lemma {:induction false} InsertSorted(p: Endpoint, eps: seq<Endpoint>)
    requires Sorted(eps)
    ensures Sorted(Insert(p, eps))
  {
    if eps != [] && !Leq(p, eps[0]) {
      InsertSorted(p, eps[1..]);
      var rest := Insert(p, eps[1..]);
      forall q | q in rest ensures Leq(eps[0], q) {
        assert q in multiset(rest);
        assert q == p || q in eps[1..];
      }
      assert forall i :: 0 <= i < |rest| ==> rest[i] in rest;
    }
  }

  /** A stable insertion sort stands for the library sort. */
  function SortEndpoints(eps: seq<Endpoint>): (r: seq<Endpoint>)
    ensures multiset(r) == multiset(eps)
    ensures Sorted(r)
  {
    if eps == [] then [] else
      assert eps == [eps[0]] + eps[1..];
      InsertSorted(eps[0], SortEndpoints(eps[1..]));
      Insert(eps[0], SortEndpoints(eps[1..]))
  }

  // ---------- Some interval is always accepted ----------

  /** At level 1 any offset lies in an accepting run, so the sweep cannot fail. */
  lemma LevelOneAccepts(eps: seq<Endpoint>, c: seq<Candidate>) returns (a: nat, b: nat)
    requires SweepOf(eps, c) && c != []
    ensures IsRun(eps, 1, a, b) && RunMidCount(eps, a, b) >= 1
  {
    var x := c[0].offset;
    SumNonNegative(CoversAt(x), c);
    assert c[0] in c && CoversAt(x)(c[0]) == 1;
    a, b := RunAt(eps, c, 1, x);
    RunMids(eps, c, 1, a, b);
    SumNonNegative(MidWithin(eps[a].val, eps[b].val), c);
    assert MidWithin(eps[a].val, eps[b].val)(c[0]) == 1;
  }

  /** Rejecting every run of a level rejects the level. */
  lemma RunsRejected(eps: seq<Endpoint>, c: seq<Candidate>, m: int)
    requires SweepOf(eps, c) && 1 <= m
    requires forall a: nat, b: nat :: IsRun(eps, m, a, b) ==> RunMidCount(eps, a, b) < m
    ensures LevelRejected(c, m)
  {
    forall s, e | Component(c, m, s, e) ensures Mids(c, s, e) < m {
      var a, b := ComponentIsRun(eps, c, m, s, e);
      RunMids(eps, c, m, a, b);
    }
  }

  lemma RunsInOrder(eps: seq<Endpoint>, m: int, a': nat, b': nat, a: nat, b: nat)
    requires Sorted(eps) && IsRun(eps, m, a', b') && IsRun(eps, m, a, b)
    ensures eps[a'].val < eps[a].val ==> b' < b
  {
    if a < a' {
      assert Leq(eps[a], eps[a']);
    }
  }

  /** The first accepting run is the leftmost accepting component. */
  lemma FirstRunAccepts(eps: seq<Endpoint>, c: seq<Candidate>, m: int, a: nat, b: nat)
    requires SweepOf(eps, c) && 1 <= m
    requires IsRun(eps, m, a, b) && RunMidCount(eps, a, b) >= m
    requires forall a': nat, b': nat :: IsRun(eps, m, a', b') && b' < b ==> RunMidCount(eps, a', b') < m
    ensures FirstAccepting(c, m, eps[a].val, eps[b].val)
  {
    RunIsComponent(eps, c, m, a, b);
    RunMids(eps, c, m, a, b);
    forall s', e' | Component(c, m, s', e') && s' < eps[a].val ensures Mids(c, s', e') < m {
      var a', b' := ComponentIsRun(eps, c, m, s', e');
      RunMids(eps, c, m, a', b');
      RunsInOrder(eps, m, a', b', a, b);
    }
  }

  /** No run ending before position k holds m midpoints. */
  ghost predicate NoneBefore(eps: seq<Endpoint>, m: int, k: nat) {
    forall a: nat, b: nat :: IsRun(eps, m, a, b) && b < k ==> RunMidCount(eps, a, b) < m
  }

  /** Position k ends no run, or ends the run from a that holds too few midpoints. */
  lemma NoneBeforeStep(eps: seq<Endpoint>, m: int, k: nat, a: nat)
    requires k < |eps| && NoneBefore(eps, m, k)
    requires Depth(eps, k) < m || Depth(eps, k + 1) >= m || (IsRun(eps, m, a, k) && RunMidCount(eps, a, k) < m)
    ensures NoneBefore(eps, m, k + 1)
  {
    forall a': nat, b': nat | IsRun(eps, m, a', b') && b' < k + 1 ensures RunMidCount(eps, a', b') < m {
      if b' == k {
        assert a' == a;
      }
    }
  }

  /** The scan is inside a run that began at endpoint a. */
  ghost predicate Inside(eps: seq<Endpoint>, m: int, a: nat, k: nat) {
    a < k <= |eps| && Depth(eps, a) < m && forall i :: a < i <= k ==> Depth(eps, i) >= m
  }

  /** Scans the endpoints once, looking for an interval that at least m confidence
      intervals cover and that holds at least m midpoints. */
  method ScanAtLevel(eps: seq<Endpoint>, m: nat, ghost c: seq<Candidate>) returns (r: Option<(real, real)>)
    requires SweepOf(eps, c) && 1 <= m && c != []
    ensures r.Some? ==> FirstAccepting(c, m, r.value.0, r.value.1)
    ensures r.None? ==> LevelRejected(c, m)
    ensures m == 1 ==> r.Some?
  {
    var count: nat, inInterval, intervalStart, midCount := 0, false, 0.0, 0;
    ghost var a: nat := 0;
    SweepTypes(eps, c);
    DepthEnds(eps, c);
    for k := 0 to |eps|
      invariant count == Depth(eps, k)
      invariant inInterval ==> Inside(eps, m, a, k) && intervalStart == eps[a].val
      invariant inInterval ==> midCount == Sum(IsMid(), eps[a..k])
      invariant !inInterval ==> Depth(eps, k) < m
      invariant NoneBefore(eps, m, k)
    {
      DepthStep(eps, k);
      if eps[k].typ == LEAVE {
        NoUnderflow(eps, c, k);
      }
      count := count + eps[k].typ;
      if inInterval {
        assert eps[a..k+1] == eps[a..k] + [eps[k]];
        SumSnoc(IsMid(), eps[a..k], eps[k]);
        if eps[k].typ == MIDPOINT {
          midCount := midCount + 1;
        }
        if count < m {
          assert IsRun(eps, m, a, k);
          if midCount >= m {
            FirstRunAccepts(eps, c, m, a, k);
            return Some((intervalStart, eps[k].val));
          }
          inInterval := false;
          midCount := 0;
        }
        NoneBeforeStep(eps, m, k, a);
      } else {
        NoneBeforeStep(eps, m, k, a);
        if count >= m {
          inInterval := true;
          intervalStart := eps[k].val;
          midCount := if eps[k].typ == MIDPOINT then 1 else 0;
          a := k;
          assert eps[a..k+1] == [] + [eps[k]];
          SumSnoc(IsMid(), [], eps[k]);
        }
      }
    }
    RunsRejected(eps, c, m);
    if m == 1 {
      ghost var a', b' := LevelOneAccepts(eps, c);
      assert false;
    }
    if inInterval && midCount >= m {
      // past the last endpoint: the depth has returned to zero
      assert false;
    }
    r := None;
  }

  lemma {:induction false} FirstAcceptingExists(eps: seq<Endpoint>, c: seq<Candidate>, m: int)
    requires SweepOf(eps, c) && 1 <= m && !LevelRejected(c, m)
    ensures exists s, e :: FirstAccepting(c, m, s, e)
  {
    var s0, e0 :| Component(c, m, s0, e0) && Mids(c, s0, e0) >= m;
    var a, b := ComponentIsRun(eps, c, m, s0, e0);
    RunMids(eps, c, m, a, b);
    while exists a': nat, b': nat :: IsRun(eps, m, a', b') && b' < b && RunMidCount(eps, a', b') >= m
      invariant IsRun(eps, m, a, b) && RunMidCount(eps, a, b) >= m
      decreases b
    {
      var a', b' :| IsRun(eps, m, a', b') && b' < b && RunMidCount(eps, a', b') >= m;
      a, b := a', b';
    }
    FirstRunAccepts(eps, c, m, a, b);
  }

  /** For any non-empty list of candidates some level accepts an interval. */
  lemma {:induction false} AcceptedExists(c: seq<Candidate>)
    requires WellFormed(c) && c != []
    ensures exists m, s, e :: Accepted(c, m, s, e)
  {
    var eps := SortEndpoints(Endpoints(c));
    assert !LevelRejected(c, 1) by {
      var a, b := LevelOneAccepts(eps, c);
      RunIsComponent(eps, c, 1, a, b);
      RunMids(eps, c, 1, a, b);
    }
    var m := |c|;
    while LevelRejected(c, m)
      invariant 1 <= m <= |c|
      invariant forall m' :: m < m' <= |c| ==> LevelRejected(c, m')
      decreases m
    {
      m := m - 1;
    }
    FirstAcceptingExists(eps, c, m);
    var s, e :| FirstAccepting(c, m, s, e);
    assert Accepted(c, m, s, e);
  }

  datatype Acceptance = Acceptance(level: int, lo: real, hi: real)

  /** The interval that the intersection step settles on. */
  ghost function Accept(c: seq<Candidate>): (r: Acceptance)
    requires WellFormed(c) && c != []
    ensures Accepted(c, r.level, r.lo, r.hi)
  {
    AcceptedExists(c);
    var m, s, e :| Accepted(c, m, s, e);
    Acceptance(m, s, e)
  }
}
