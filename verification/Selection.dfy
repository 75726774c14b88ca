/** Clock selection over the peer array: intersection, cluster, combine, and the update
    of the system variables. */
module Selection {
  import opened Wrappers
  import opened Sums
  import opened Intersection
  import opened Cluster
  import opened Combine

  const MINDIST: real := 0.001
  const MAXSTRAT: nat := 16
  const PHI: real := 0.000015

  datatype TestBit = TEST1 | TEST2 | TEST3 | TEST4 | TEST5 | TEST6 | TEST7 | TEST8 | TEST9 | TEST10

  datatype LeapIndicator = NoWarning | AddLeapSecond | RemoveLeapSecond | Alarm

  /** The fields of a peer association that selection reads or writes.
      `flash` is the set of TEST bits that are set; the peer passes when it is empty. */
  datatype Peer = Peer(
    associd: nat,
    offset: real,
    jitter: real,
    dispersion: real,
    rootDelay: real,
    rootDispersion: real,
    referenceId: nat,
    referenceTime: real,
    receiveTime: real,
    stratum: nat,
    leap: LeapIndicator,
    reach: bv8,
    prefer: bool,
    flash: set<TestBit>)
  {
    predicate Reachable() { reach != 0 }
    predicate Passes() { flash == {} }
  }

  function Max(x: real, y: real): real { if x < y then y else x }

  /** The half-width of a peer's confidence interval, and the root synchronization
      distance whose reciprocal is the combine weight. */
  function HalfWidth(p: Peer, now: real): (r: real)
    ensures r > 0.0
  {
    Max(p.rootDelay / 2.0 + p.rootDispersion + PHI * Max(now - p.referenceTime, 0.0) + p.jitter, MINDIST)
  }

  function CandidateOf(p: Peer, now: real): Candidate {
    Candidate(p.offset, HalfWidth(p, now))
  }

  function Candidates(ps: seq<Peer>, now: real): (r: seq<Candidate>)
    ensures WellFormed(r) && |r| == |ps|
  {
    seq(|ps|, i requires 0 <= i < |ps| => CandidateOf(ps[i], now))
  }

  // ---------- Intersection ----------

  predicate Meets(c: Candidate, lo: real, hi: real) {
    c.Hi() >= lo && c.Lo() <= hi
  }

  function Mark(p: Peer, now: real, lo: real, hi: real): Peer {
    if Meets(CandidateOf(p, now), lo, hi) then p.(flash := p.flash - {TEST5}) else p.(flash := p.flash + {TEST5})
  }

  /** The peers as the intersection step leaves them. */
  ghost function Marked(ps: seq<Peer>, now: real): (r: seq<Peer>)
    ensures |r| == |ps|
  {
    if ps == [] then [] else
      var acc := Accept(Candidates(ps, now));
      seq(|ps|, i requires 0 <= i < |ps| => Mark(ps[i], now, acc.lo, acc.hi))
  }

  function EscapesTest5(): Peer -> int {
    (p: Peer) => if TEST5 in p.flash then 0 else 1
  }

  function Survivors(ps: seq<Peer>): int {
    Sum(EscapesTest5(), ps)
  }

  method BuildEndpoints(peers: array<Peer>, now: real) returns (eps: seq<Endpoint>)
    ensures SweepOf(eps, Candidates(peers[..], now))
  {
    var synch: seq<real> := [];
    for i := 0 to peers.Length
      invariant |synch| == i
      invariant forall j :: 0 <= j < i ==> synch[j] == HalfWidth(peers[j], now)
    {
      synch := synch + [HalfWidth(peers[i], now)];
    }
    ghost var c := Candidates(peers[..], now);
    eps := [];
    for i := 0 to peers.Length
      invariant eps == Endpoints(c[..i])
    {
      assert c[..i+1][..i] == c[..i];
      eps := eps + [Endpoint(peers[i].offset - synch[i], ENTER, i)];
      eps := eps + [Endpoint(peers[i].offset, MIDPOINT, i)];
      eps := eps + [Endpoint(peers[i].offset + synch[i], LEAVE, i)];
    }
    assert c[..peers.Length] == c;
    eps := SortEndpoints(eps);
  }

  /** The sweep over all levels, from all peers down to one. */
  method FindInterval(peers: array<Peer>, now: real) returns (start: real, end: real)
    requires peers.Length > 0
    ensures Accept(Candidates(peers[..], now)) == Acceptance(Accept(Candidates(peers[..], now)).level, start, end)
  {
    var n := peers.Length;
    ghost var c := Candidates(peers[..], now);
    ghost var acc := Accept(c);
    var eps := BuildEndpoints(peers, now);
    for allow := 0 to n
      invariant forall m :: n - allow < m <= n ==> LevelRejected(c, m)
      invariant acc.level <= n - allow
    {
      var found := ScanAtLevel(eps, n - allow, c);
      if found.Some? {
        AcceptedUnique(c, n - allow, found.value.0, found.value.1, acc.level, acc.lo, acc.hi);
        return found.value.0, found.value.1;
      }
    }
    // no level accepts an interval: cannot happen
    assert false;
    start, end := 0.0, 0.0;
  }

  method MarkFalsetickers(peers: array<Peer>, now: real, start: real, end: real) returns (survivors: nat)
    modifies peers
    ensures forall i :: 0 <= i < peers.Length ==> peers[i] == Mark(old(peers[i]), now, start, end)
    ensures survivors == Survivors(peers[..])
  {
    survivors := 0;
    for i := 0 to peers.Length
      invariant forall j :: 0 <= j < i ==> peers[j] == Mark(old(peers[j]), now, start, end)
      invariant forall j :: i <= j < peers.Length ==> peers[j] == old(peers[j])
      invariant survivors == Sum(EscapesTest5(), peers[..i])
    {
      var synch := HalfWidth(peers[i], now);
      var lo, hi := peers[i].offset - synch, peers[i].offset + synch;
      ghost var before := peers[..i];
      if hi >= start && lo <= end {
        peers[i] := peers[i].(flash := peers[i].flash - {TEST5});
        survivors := survivors + 1;
      } else {
        peers[i] := peers[i].(flash := peers[i].flash + {TEST5});
      }
      assert peers[..i+1] == before + [peers[i]];
      SumSnoc(EscapesTest5(), before, peers[i]);
    }
    assert peers[..peers.Length] == peers[..];
  }

  method ClockIntersection(peers: array<Peer>, now: real) returns (survivors: nat)
    modifies peers
    ensures peers[..] == Marked(old(peers[..]), now)
    ensures survivors == Survivors(peers[..])
  {
    if peers.Length == 0 {
      return 0;
    }
    var start, end := FindInterval(peers, now);
    survivors := MarkFalsetickers(peers, now, start, end);
  }

  predicate Between(lo: real, x: real, hi: real) { lo <= x <= hi }

  /** A peer escapes TEST5 exactly if its confidence interval and the accepted one share a point;
      nothing else about it changes. */
  lemma {:induction false} MarkedExactly(ps: seq<Peer>, now: real, i: nat)
    requires i < |ps|
    ensures Marked(ps, now)[i] == ps[i].(flash := Marked(ps, now)[i].flash)
    ensures Marked(ps, now)[i].flash - {TEST5} == ps[i].flash - {TEST5}
    ensures var acc, r := Accept(Candidates(ps, now)), HalfWidth(ps[i], now);
            TEST5 !in Marked(ps, now)[i].flash <==>
            exists x :: Between(acc.lo, x, acc.hi) && Between(ps[i].offset - r, x, ps[i].offset + r)
  {
    var acc := Accept(Candidates(ps, now));
    var lo := ps[i].offset - HalfWidth(ps[i], now);
    assert acc.lo <= acc.hi;
    if TEST5 !in Marked(ps, now)[i].flash {
      assert Between(acc.lo, Max(acc.lo, lo), acc.hi);
    }
  }

  /** A survivor's offset is off the accepted interval by at most its half-width. */
  lemma {:induction false} SurvivorsNear(ps: seq<Peer>, now: real, i: nat)
    requires i < |ps|
    ensures var acc, r := Accept(Candidates(ps, now)), HalfWidth(ps[i], now);
            TEST5 !in Marked(ps, now)[i].flash <==> acc.lo - r <= ps[i].offset <= acc.hi + r
  {
  }

  /** The half-width is the least bound, but for a floor of one millisecond, on half the root delay
      plus root dispersion and jitter, whether or not these have grown by 15 ppm since the
      reference time. */
  lemma HalfWidthLeast(p: Peer, now: real, r: real)
    ensures r >= HalfWidth(p, now) <==>
            && r >= 0.001
            && r >= p.rootDelay / 2.0 + p.rootDispersion + p.jitter
            && r >= p.rootDelay / 2.0 + p.rootDispersion + p.jitter + (now - p.referenceTime) * 15.0 / 1000000.0
  {
  }

  /** At least as many peers escape TEST5 as the accepted level asks for, so at least one. */
  lemma {:induction false} EnoughSurvive(ps: seq<Peer>, now: real)
    requires ps != []
    ensures Survivors(Marked(ps, now)) >= Accept(Candidates(ps, now)).level >= 1
  {
    var acc := Accept(Candidates(ps, now));
    MidsSurvive(ps, now, acc.lo, acc.hi, |ps|);
    assert Candidates(ps, now)[..|ps|] == Candidates(ps, now);
    assert Marked(ps, now)[..|ps|] == Marked(ps, now);
    assert Marked(ps, now) == seq(|ps|, i requires 0 <= i < |ps| => Mark(ps[i], now, acc.lo, acc.hi));
  }

  lemma {:induction false} MidsSurvive(ps: seq<Peer>, now: real, lo: real, hi: real, n: nat)
    requires n <= |ps|
    ensures var marks := seq(|ps|, i requires 0 <= i < |ps| => Mark(ps[i], now, lo, hi));
            Sum(MidWithin(lo, hi), Candidates(ps, now)[..n]) <= Sum(EscapesTest5(), marks[..n])
  {
    if n > 0 {
      var marks := seq(|ps|, i requires 0 <= i < |ps| => Mark(ps[i], now, lo, hi));
      MidsSurvive(ps, now, lo, hi, n - 1);
      SumPrefix(MidWithin(lo, hi), Candidates(ps, now), n - 1);
      SumPrefix(EscapesTest5(), marks, n - 1);
    }
  }

  /** A peer's mark depends on the peer and on the bag of all peers, not on the order of
      the array: permuting the peers permutes the marks and keeps the survivor count. */
  lemma MarksPermute(ps: seq<Peer>, qs: seq<Peer>, now: real)
    requires multiset(ps) == multiset(qs)
    ensures forall i, j :: 0 <= i < |ps| && 0 <= j < |qs| && ps[i] == qs[j] ==> Marked(ps, now)[i] == Marked(qs, now)[j]
    ensures Survivors(Marked(ps, now)) == Survivors(Marked(qs, now))
  {
    assert |multiset(ps)| == |ps| && |multiset(qs)| == |qs|;
    if ps != [] {
      var c, d := Candidates(ps, now), Candidates(qs, now);
      var a, b := Accept(c), Accept(d);
      CandidatesPermute(ps, qs, now);
      AcceptedPermutation(c, d, a.level, a.lo, a.hi);
      AcceptedUnique(d, a.level, a.lo, a.hi, b.level, b.lo, b.hi);
      SurvivorsByWeight(ps, now, |ps|);
      SurvivorsByWeight(qs, now, |qs|);
      assert ps[..|ps|] == ps && qs[..|qs|] == qs;
      assert Marked(ps, now)[..|ps|] == Marked(ps, now) && Marked(qs, now)[..|qs|] == Marked(qs, now);
      SumPermutation(Escapes(now, a.lo, a.hi), ps, qs);
    }
  }

  function Escapes(now: real, lo: real, hi: real): Peer -> int {
    (p: Peer) => if Meets(CandidateOf(p, now), lo, hi) then 1 else 0
  }

  lemma {:induction false} SurvivorsByWeight(ps: seq<Peer>, now: real, n: nat)
    requires ps != [] && n <= |ps|
    ensures var acc := Accept(Candidates(ps, now));
            Sum(EscapesTest5(), Marked(ps, now)[..n]) == Sum(Escapes(now, acc.lo, acc.hi), ps[..n])
  {
    if n > 0 {
      var acc := Accept(Candidates(ps, now));
      SurvivorsByWeight(ps, now, n - 1);
      SumPrefix(EscapesTest5(), Marked(ps, now), n - 1);
      SumPrefix(Escapes(now, acc.lo, acc.hi), ps, n - 1);
    }
  }

  lemma {:induction false} CandidatesPermute(ps: seq<Peer>, qs: seq<Peer>, now: real)
    requires multiset(ps) == multiset(qs)
    ensures multiset(Candidates(ps, now)) == multiset(Candidates(qs, now))
    decreases |ps|
  {
    if ps == [] {
      assert |multiset(qs)| == 0;
    } else {
      assert ps[0] in multiset(ps);
      var i :| 0 <= i < |qs| && qs[i] == ps[0];
      MultisetRemoveAt(ps, 0);
      MultisetRemoveAt(qs, i);
      CandidatesPermute(RemoveAt(ps, 0), RemoveAt(qs, i), now);
      CandidatesRemoveAt(ps, now, 0);
      CandidatesRemoveAt(qs, now, i);
    }
  }

  lemma CandidatesRemoveAt(ps: seq<Peer>, now: real, i: nat)
    requires i < |ps|
    ensures multiset(Candidates(ps, now)) == multiset(Candidates(RemoveAt(ps, i), now))
        + multiset{CandidateOf(ps[i], now)}
  {
    var c := Candidates(ps, now);
    assert Candidates(RemoveAt(ps, i), now) == RemoveAt(c, i);
    MultisetRemoveAt(c, i);
    assert c[i] in multiset(c);
  }

  // ---------- Cluster ----------

  /** Indices of the peers with no TEST bit set, ascending. */
  function Passing(ps: seq<Peer>): (r: seq<nat>)
    ensures forall i :: i in r <==> 0 <= i < |ps| && ps[i].Passes()
    ensures forall i :: 0 <= i < |r| ==> r[i] < |ps|
    ensures forall i, j :: 0 <= i < j < |r| ==> r[i] < r[j]
  {
    if ps == [] then [] else
      var last := |ps| - 1;
      var r := Passing(ps[..last]);
      if ps[last].Passes() then r + [last] else r
  }

  /** The first peer carrying the PREFER flag, whether or not it passes the tests. */
  function PreferIndex(ps: seq<Peer>): (r: Option<nat>)
    ensures r.Some? ==> r.value < |ps| && ps[r.value].prefer && forall j :: 0 <= j < r.value ==> !ps[j].prefer
    ensures r.None? ==> forall j :: 0 <= j < |ps| ==> !ps[j].prefer
  {
    if ps == [] then None else
      var r := PreferIndex(ps[..|ps|-1]);
      if r.Some? then r else if ps[|ps|-1].prefer then Some(|ps| - 1) else None
  }

  function SquareFrom(at: real): real -> real {
    (x: real) => (at - x) * (at - x)
  }

  function Offsets(ps: seq<Peer>, indices: seq<nat>): (r: seq<real>)
    requires forall i :: 0 <= i < |indices| ==> indices[i] < |ps|
    ensures |r| == |indices|
  {
    seq(|indices|, i requires 0 <= i < |indices| => ps[indices[i]].offset)
  }

  /** The passing peers, each with the mean square deviation of the others from it. */
  function Entries(ps: seq<Peer>): (v: seq<Survivor>)
    requires |Passing(ps)| > 1
    ensures |v| == |Passing(ps)|
  {
    var indices := Passing(ps);
    var offsets := Offsets(ps, indices);
    seq(|indices|, i requires 0 <= i < |indices| =>
      Survivor(indices[i], RealSum(SquareFrom(offsets[i]), offsets) / (|indices| - 1) as real))
  }

  lemma {:induction false} EntryIs(ps: seq<Peer>, i: nat)
    requires |Passing(ps)| > 1 && i < |Passing(ps)|
    ensures var offsets := Offsets(ps, Passing(ps));
            Entries(ps)[i] == Survivor(Passing(ps)[i],
                RealSum(SquareFrom(offsets[i]), offsets) / (|Passing(ps)| - 1) as real)
  {
  }

  lemma QuotientNonNegative(x: real, n: int)
    requires x >= 0.0 && n > 0
    ensures x / n as real >= 0.0
  {
  }

  function PeersOf(v: seq<Survivor>): (r: seq<nat>)
    ensures |r| == |v|
  {
    seq(|v|, i requires 0 <= i < |v| => v[i].peer)
  }

  /** The survivors of clustering: the passing peers, less the worst until three are left. */
  function Clustered(ps: seq<Peer>): seq<nat> {
    if |Passing(ps)| <= 1 then Passing(ps) else PeersOf(KeepBest(Entries(ps), PreferIndex(ps)))
  }

  ghost predicate Zipped(v: seq<Survivor>, indices: seq<nat>, jitterSq: seq<real>) {
    && |v| == |indices| == |jitterSq|
    && forall i :: 0 <= i < |v| ==> v[i] == Survivor(indices[i], jitterSq[i])
  }

  /** The inner loop: the squared distances to the others, skipping the peer itself. */
  method SquareSum(peers: array<Peer>, indices: seq<nat>, i: nat, ghost offsets: seq<real>) returns (sum: real)
    requires forall k :: 0 <= k < |indices| ==> indices[k] < peers.Length
    requires offsets == Offsets(peers[..], indices) && i < |indices|
    ensures sum == RealSum(SquareFrom(offsets[i]), offsets) >= 0.0
  {
    sum := 0.0;
    var at := peers[indices[i]].offset;
    for j := 0 to |indices|
      invariant sum == RealSum(SquareFrom(at), offsets[..j]) >= 0.0
    {
      assert offsets[..j+1][..j] == offsets[..j];
      assert RealSum(SquareFrom(at), offsets[..j+1]) == RealSum(SquareFrom(at), offsets[..j])
          + SquareFrom(at)(offsets[j]);
      assert offsets[j] == peers[indices[j]].offset;
      assert i == j ==> at - offsets[j] == 0.0;
      if i != j {
        var d := at - peers[indices[j]].offset;
        sum := sum + d * d;
      }
    }
    assert offsets[..|indices|] == offsets;
  }

  /** The squared jitters of the passing peers. */
  method PeerJitters(peers: array<Peer>, indices: seq<nat>) returns (jitterSq: seq<real>)
    requires indices == Passing(peers[..]) && |indices| > 1
    ensures Zipped(Entries(peers[..]), indices, jitterSq)
    ensures NonNegative(Entries(peers[..]))
  {
    ghost var offsets := Offsets(peers[..], indices);
    ghost var v := Entries(peers[..]);
    jitterSq := [];
    for i := 0 to |indices|
      invariant |jitterSq| == i
      invariant forall k :: 0 <= k < i ==> v[k] == Survivor(indices[k], jitterSq[k]) && v[k].jitterSq >= 0.0
    {
      var sum := SquareSum(peers, indices, i, offsets);
      EntryIs(peers[..], i);
      QuotientNonNegative(sum, |indices| - 1);
      jitterSq := jitterSq + [sum / (|indices| - 1) as real];
    }
  }

  method MeanJitterSq(indices: seq<nat>, jitterSq: seq<real>, ghost v: seq<Survivor>) returns (mean: real)
    requires Zipped(v, indices, jitterSq) && v != []
    ensures mean == MeanSquare(v)
  {
    var sumSq := 0.0;
    for j := 0 to |indices|
      invariant sumSq == RealSum(JitterSq(), v[..j])
    {
      assert v[..j+1][..j] == v[..j];
      sumSq := sumSq + jitterSq[j];
    }
    assert v[..|v|] == v;
    mean := sumSq / |indices| as real;
  }

  /** Positions of all unprotected candidates above the bound, ascending. */
  ghost predicate OutlierPositions(v: seq<Survivor>, prefer: Option<nat>, bound: real, out: seq<nat>) {
    && |out| == |v| - Sum(Stays(prefer, bound), v)
    && (forall k :: 0 <= k < |out| ==> out[k] < |v| && Stays(prefer, bound)(v[out[k]]) == 0)
    && (forall j :: 0 <= j < |v| && Stays(prefer, bound)(v[j]) == 0 ==> j in out)
    && (forall k, l :: 0 <= k < l < |out| ==> out[k] < out[l])
  }

  method FindOutliers(indices: seq<nat>, jitterSq: seq<real>, prefer: Option<nat>, bound: real, ghost v: seq<Survivor>)
    returns (toRemove: seq<nat>, keptAny: bool)
    requires Zipped(v, indices, jitterSq)
    ensures OutlierPositions(v, prefer, bound, toRemove)
    ensures keptAny <==> |toRemove| < |v|
  {
    ghost var stays := Stays(prefer, bound);
    toRemove, keptAny := [], false;
    for j := 0 to |indices|
      invariant |toRemove| == j - Sum(stays, v[..j])
      invariant |toRemove| <= j && (keptAny <==> |toRemove| < j)
      invariant forall k :: 0 <= k < |toRemove| ==> toRemove[k] < j && stays(v[toRemove[k]]) == 0
      invariant forall i :: 0 <= i < j && stays(v[i]) == 0 ==> i in toRemove
      invariant forall k, l :: 0 <= k < l < |toRemove| ==> toRemove[k] < toRemove[l]
    {
      SumPrefix(stays, v, j);
      var isPrefer := prefer.Some? && indices[j] == prefer.value;
      if !isPrefer && jitterSq[j] > bound {
        toRemove := toRemove + [j];
      } else {
        keptAny := true;
      }
    }
    assert v[..|v|] == v;
  }

  lemma ZippedRemoveAt(v: seq<Survivor>, indices: seq<nat>, jitterSq: seq<real>, i: nat)
    requires Zipped(v, indices, jitterSq) && i < |v|
    ensures Zipped(RemoveAt(v, i), RemoveAt(indices, i), RemoveAt(jitterSq, i))
    ensures NonNegative(v) ==> NonNegative(RemoveAt(v, i))
  {
  }

  /** What removal has left when the first k positions are still to go. */
  ghost function RemovedFrom(v: seq<Survivor>, prefer: Option<nat>, bound: real, out: seq<nat>, k: nat): seq<Survivor>
    requires OutlierPositions(v, prefer, bound, out) && k <= |out|
  {
    var q := Frontier(v, out, k);
    v[..q] + Within(v[q..], prefer, bound)
  }

  function Frontier(v: seq<Survivor>, out: seq<nat>, k: nat): nat
    requires k <= |out|
  {
    if k < |out| then out[k] else |v|
  }

  lemma StaysBetween(v: seq<Survivor>, prefer: Option<nat>, bound: real, out: seq<nat>, k: nat, j: nat)
    requires OutlierPositions(v, prefer, bound, out) && k <= |out|
    requires j < Frontier(v, out, k) && (k > 0 ==> out[k-1] < j)
    ensures Stays(prefer, bound)(v[j]) == 1
  {
    assert j !in out;
  }

  lemma RemovedStep(v: seq<Survivor>, prefer: Option<nat>, bound: real, out: seq<nat>, k: nat)
    requires OutlierPositions(v, prefer, bound, out) && k < |out|
    ensures out[k] < |RemovedFrom(v, prefer, bound, out, k + 1)|
    ensures RemoveAt(RemovedFrom(v, prefer, bound, out, k + 1), out[k]) == RemovedFrom(v, prefer, bound, out, k)
  {
    var p, q := out[k], Frontier(v, out, k + 1);
    forall j | p < j < q ensures Stays(prefer, bound)(v[j]) == 1 {
      StaysBetween(v, prefer, bound, out, k + 1, j);
    }
    WithinFrom(v, prefer, bound, p, q);
  }

  lemma {:induction false} RemovedEnds(v: seq<Survivor>, prefer: Option<nat>, bound: real, out: seq<nat>)
    requires OutlierPositions(v, prefer, bound, out)
    ensures RemovedFrom(v, prefer, bound, out, |out|) == v
    ensures RemovedFrom(v, prefer, bound, out, 0) == Within(v, prefer, bound)
  {
    var q := Frontier(v, out, 0);
    forall j | 0 <= j < q ensures Stays(prefer, bound)(v[j]) == 1 {
      StaysBetween(v, prefer, bound, out, 0, j);
    }
    WithinWhole(v, prefer, bound, q);
  }

  /** Removes the listed positions, highest first. */
  method RemovePositions(indices: seq<nat>, jitterSq: seq<real>, toRemove: seq<nat>, ghost prefer: Option<nat>,
      ghost bound: real, ghost v: seq<Survivor>)
    returns (indices': seq<nat>, jitterSq': seq<real>)
    requires Zipped(v, indices, jitterSq) && OutlierPositions(v, prefer, bound, toRemove)
    ensures Zipped(Within(v, prefer, bound), indices', jitterSq')
  {
    indices', jitterSq' := indices, jitterSq;
    var k := |toRemove|;
    ghost var v' := v;
    RemovedEnds(v, prefer, bound, toRemove);
    while k > 0
      invariant 0 <= k <= |toRemove|
      invariant v' == RemovedFrom(v, prefer, bound, toRemove, k) && Zipped(v', indices', jitterSq')
    {
      k := k - 1;
      RemovedStep(v, prefer, bound, toRemove, k);
      ZippedRemoveAt(v', indices', jitterSq', toRemove[k]);
      indices', jitterSq', v' :=
          RemoveAt(indices', toRemove[k]), RemoveAt(jitterSq', toRemove[k]), RemoveAt(v', toRemove[k]);
    }
  }

  /** One pass of outlier removal leaves exactly the candidates of `Pruned`. */
  method RemoveOutliers(indices: seq<nat>, jitterSq: seq<real>, prefer: Option<nat>, ghost v: seq<Survivor>)
    returns (indices': seq<nat>, jitterSq': seq<real>)
    requires Zipped(v, indices, jitterSq) && NonNegative(v) && |indices| > MINCLOCK
    ensures Zipped(Pruned(v, prefer), indices', jitterSq')
  {
    indices', jitterSq' := indices, jitterSq;
    var selectSq := MeanJitterSq(indices, jitterSq, v);
    if selectSq <= 0.0 {
      return;
    }
    var toRemove, keptAny := FindOutliers(indices, jitterSq, prefer, 9.0 * selectSq, v);
    if |toRemove| == 0 {
      RemovedEnds(v, prefer, 9.0 * selectSq, toRemove);
      return;
    }
    OutliersAreFew(v, prefer);
    if !keptAny {
      // fewer than a ninth are outliers: cannot happen
      assert false;
    }
    indices', jitterSq' := RemovePositions(indices, jitterSq, toRemove, prefer, 9.0 * selectSq, v);
  }

  method ClockCluster(peers: array<Peer>) returns (indices: seq<nat>)
    ensures indices == Clustered(peers[..])
  {
    indices := Passing(peers[..]);
    if |indices| <= 1 {
      return;
    }
    var prefer := PreferIndex(peers[..]);
    var jitterSq := PeerJitters(peers, indices);
    ghost var v := Entries(peers[..]);

    while |indices| > MINCLOCK
      invariant Zipped(v, indices, jitterSq) && NonNegative(v)
      invariant KeepBest(v, prefer) == KeepBest(Entries(peers[..]), prefer)
      decreases |indices|
    {
      var before := |indices|;
      PruningIsIdle(v, prefer);
      indices, jitterSq := RemoveOutliers(indices, jitterSq, prefer, v);
      v := Pruned(v, prefer);
      if |indices| == before {
        break;
      }
    }

    while |indices| > MINCLOCK
      invariant Zipped(v, indices, jitterSq)
      invariant KeepBest(v, prefer) == KeepBest(Entries(peers[..]), prefer)
      decreases |indices|
    {
      var worst := WorstPosition(indices, jitterSq, prefer, v);
      if worst.None? {
        break;
      }
      indices, jitterSq, v := RemoveAt(indices, worst.value), RemoveAt(jitterSq, worst.value), RemoveAt(v, worst.value);
    }
    assert indices == PeersOf(v);
  }

  method WorstPosition(indices: seq<nat>, jitterSq: seq<real>, prefer: Option<nat>, ghost v: seq<Survivor>)
      returns (r: Option<nat>)
    requires Zipped(v, indices, jitterSq)
    ensures r == Worst(v, prefer)
  {
    r := None;
    for i := 0 to |indices|
      invariant r == Worst(v[..i], prefer)
    {
      WorstStep(v, prefer, i);
      if prefer != Some(indices[i]) && (r.None? || jitterSq[i] >= jitterSq[r.value]) {
        r := Some(i);
      }
    }
    assert v[..|indices|] == v;
  }

  lemma {:induction false} EntriesAscending(ps: seq<Peer>)
    requires |Passing(ps)| > 1
    ensures Ascending(Entries(ps))
    ensures forall x :: x in Entries(ps) ==> x.peer in Passing(ps)
    ensures forall i :: i in Passing(ps) ==> exists x :: x in Entries(ps) && x.peer == i
  {
    var v, indices := Entries(ps), Passing(ps);
    forall i | i in indices ensures exists x :: x in v && x.peer == i {
      var j :| 0 <= j < |indices| && indices[j] == i;
      assert v[j] in v && v[j].peer == i;
    }
  }

  lemma {:induction false} PreferClustered(ps: seq<Peer>, p: nat)
    requires PreferIndex(ps) == Some(p) && ps[p].Passes()
    ensures p in Clustered(ps)
  {
    assert p in Passing(ps);
    if |Passing(ps)| > 1 {
      var v := Entries(ps);
      EntriesAscending(ps);
      var x :| x in v && x.peer == p;
      var kept := KeepBest(v, Some(p));
      ProtectedStays(v, Some(p), x);
      var l :| 0 <= l < |kept| && kept[l] == x;
      assert PeersOf(kept)[l] == p;
    }
  }

  lemma PeersOfAscending(v: seq<Survivor>, kept: seq<Survivor>)
    requires Ascending(kept) && forall x :: x in kept ==> x in v
    ensures forall i, j :: 0 <= i < j < |kept| ==> PeersOf(kept)[i] < PeersOf(kept)[j]
    ensures forall i :: i in PeersOf(kept) ==> exists x :: x in v && x.peer == i
  {
    forall i | i in PeersOf(kept) ensures exists x :: x in v && x.peer == i {
      var j :| 0 <= j < |kept| && PeersOf(kept)[j] == i;
      assert kept[j] in v && kept[j].peer == i;
    }
  }

  lemma {:induction false} ClusteredSize(ps: seq<Peer>)
    ensures var n := |Passing(ps)|; |Clustered(ps)| == if n <= MINCLOCK then n else MINCLOCK
    ensures forall i, j :: 0 <= i < j < |Clustered(ps)| ==> Clustered(ps)[i] < Clustered(ps)[j]
  {
    if |Passing(ps)| > 1 {
      EntriesAscending(ps);
      KeepBestSize(Entries(ps), PreferIndex(ps));
      PeersOfAscending(Entries(ps), KeepBest(Entries(ps), PreferIndex(ps)));
    }
  }

  /** Up to three passing peers are all kept. */
  lemma {:induction false} FewAllClustered(ps: seq<Peer>)
    requires |Passing(ps)| <= 3
    ensures Clustered(ps) == Passing(ps)
  {
    if |Passing(ps)| > 1 {
      forall i | 0 <= i < |Passing(ps)| ensures Clustered(ps)[i] == Passing(ps)[i] {
        EntryIs(ps, i);
      }
    }
  }

  lemma ClusteredPasses(ps: seq<Peer>, i: nat)
    requires i in Clustered(ps)
    ensures i < |ps| && ps[i].Passes()
  {
    if |Passing(ps)| > 1 {
      EntriesAscending(ps);
      KeepBestSize(Entries(ps), PreferIndex(ps));
      PeersOfAscending(Entries(ps), KeepBest(Entries(ps), PreferIndex(ps)));
    }
  }

  /** Clustering returns exactly min(3, number of passing peers) indices, ascending,
      each of a passing peer, among them the first PREFER peer if that one passes. */
  lemma {:induction false} ClusteredShape(ps: seq<Peer>)
    ensures var n := |Passing(ps)|; |Clustered(ps)| == if n <= 3 then n else 3
    ensures forall i, j :: 0 <= i < j < |Clustered(ps)| ==> Clustered(ps)[i] < Clustered(ps)[j]
    ensures forall i :: i in Clustered(ps) ==> i < |ps| && ps[i].Passes()
    ensures forall k :: 0 <= k < |Clustered(ps)| ==> Clustered(ps)[k] < |ps|
    ensures var p := PreferIndex(ps); p.Some? && ps[p.value].Passes() ==> p.value in Clustered(ps)
  {
    ClusteredSize(ps);
    var survivors := Clustered(ps);
    forall i | i in survivors ensures i < |ps| && ps[i].Passes() {
      ClusteredPasses(ps, i);
    }
    assert forall k :: 0 <= k < |survivors| ==> survivors[k] in survivors;
    var prefer := PreferIndex(ps);
    if prefer.Some? && ps[prefer.value].Passes() {
      PreferClustered(ps, prefer.value);
    }
  }
}
