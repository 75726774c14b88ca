/** The combine step over the peer array, the system variables, and the selection run
    of the daemon. */
module SystemVariables {
  import opened Wrappers
  import opened Sums
  import opened Intersection
  import opened Combine
  import opened Selection
  import opened Truechimers
  import ClockFilters

  // ---------- Combine ----------

  /** The candidates of the surviving peers. */
  function Chosen(ps: seq<Peer>, survivors: seq<nat>, now: real): (r: seq<Candidate>)
    requires forall i :: 0 <= i < |survivors| ==> survivors[i] < |ps|
    ensures WellFormed(r) && |r| == |survivors|
  {
    seq(|survivors|, i requires 0 <= i < |survivors| => CandidateOf(ps[survivors[i]], now))
  }

  /** The same weights, applied to the squared jitters. */
  function ChosenJitter(ps: seq<Peer>, survivors: seq<nat>, now: real): (r: seq<Candidate>)
    requires forall i :: 0 <= i < |survivors| ==> survivors[i] < |ps|
    ensures WellFormed(r) && |r| == |survivors|
  {
    seq(|survivors|, i requires 0 <= i < |survivors| =>
      var p := ps[survivors[i]]; Candidate(p.jitter * p.jitter, HalfWidth(p, now)))
  }

  /** The candidates of the peers that clustering keeps. */
  function SurvivorCandidates(ps: seq<Peer>, now: real): (r: seq<Candidate>)
    ensures WellFormed(r) && |r| == |Clustered(ps)|
  {
    ClusteredShape(ps);
    Chosen(ps, Clustered(ps), now)
  }

  function SurvivorJitters(ps: seq<Peer>, now: real): (r: seq<Candidate>)
    ensures WellFormed(r) && |r| == |Clustered(ps)|
  {
    ClusteredShape(ps);
    ChosenJitter(ps, Clustered(ps), now)
  }

  lemma MeanOfOne(c: seq<Candidate>)
    requires WellFormed(c) && |c| == 1
    ensures WeightedMean(c) == c[0].offset
  {
    MeanInHull(c, c[0].offset, c[0].offset);
  }

  /** A peer's weight, and its terms in the sums of weighted offsets and squared jitters. */
  method Weigh(p: Peer, now: real) returns (w: real, offsetTerm: real, jitterTerm: real)
    ensures var c, d := CandidateOf(p, now), Candidate(p.jitter * p.jitter, HalfWidth(p, now));
            && w == Weight()(c) == Weight()(d)
            && offsetTerm == WeightedOffset()(c) && jitterTerm == WeightedOffset()(d)
  {
    w := 1.0 / HalfWidth(p, now);
    offsetTerm, jitterTerm := w * p.offset, w * (p.jitter * p.jitter);
  }

  /** The three sums over the first k candidates. */
  ghost predicate SumsAre(c: seq<Candidate>, d: seq<Candidate>, k: nat, weights: real, offsets: real, jitters: real) {
    && k <= |c| == |d|
    && weights == RealSum(Weight(), c[..k]) == RealSum(Weight(), d[..k])
    && offsets == RealSum(WeightedOffset(), c[..k]) && jitters == RealSum(WeightedOffset(), d[..k])
  }

  lemma {:induction false} SumsStep(c: seq<Candidate>, d: seq<Candidate>, k: nat, weights: real, offsets: real,
      jitters: real)
    requires SumsAre(c, d, k, weights, offsets, jitters) && k < |c| && Weight()(c[k]) == Weight()(d[k])
    ensures SumsAre(c, d, k + 1,
              weights + Weight()(c[k]), offsets + WeightedOffset()(c[k]), jitters + WeightedOffset()(d[k]))
  {
    OneTerm(Weight(), c, k);
    OneTerm(Weight(), d, k);
    OneTerm(WeightedOffset(), c, k);
    OneTerm(WeightedOffset(), d, k);
  }

  lemma {:induction false} SumsEnd(c: seq<Candidate>, d: seq<Candidate>, weights: real, offsets: real, jitters: real)
    requires SumsAre(c, d, |c|, weights, offsets, jitters)
    ensures weights == RealSum(Weight(), c) == RealSum(Weight(), d)
    ensures offsets == RealSum(WeightedOffset(), c) && jitters == RealSum(WeightedOffset(), d)
  {
    assert c[..|c|] == c && d[..|d|] == d;
  }

  /** What one more term adds to a sum. */
  lemma {:induction false} OneTerm(weight: Candidate -> real, c: seq<Candidate>, k: nat)
    requires k < |c|
    ensures RealSum(weight, c[..k+1]) == RealSum(weight, c[..k]) + weight(c[k])
  {
    assert c[..k+1][..k] == c[..k];
  }

  /** The accumulation loop: the sums of the weights, weighted offsets and weighted squared jitters. */
  method WeighSurvivors(peers: array<Peer>, survivors: seq<nat>, now: real, ghost c: seq<Candidate>,
      ghost d: seq<Candidate>)
    returns (sumWeight: real, sumOffset: real, sumJitterSq: real)
    requires forall i :: 0 <= i < |survivors| ==> survivors[i] < peers.Length
    requires c == Chosen(peers[..], survivors, now) && d == ChosenJitter(peers[..], survivors, now)
    ensures sumWeight == RealSum(Weight(), c) == RealSum(Weight(), d)
    ensures sumOffset == RealSum(WeightedOffset(), c)
    ensures sumJitterSq == RealSum(WeightedOffset(), d)
  {
    sumWeight, sumOffset, sumJitterSq := 0.0, 0.0, 0.0;
    for k := 0 to |survivors|
      invariant SumsAre(c, d, k, sumWeight, sumOffset, sumJitterSq)
    {
      var p := peers[survivors[k]];
      var w, offsetTerm, jitterTerm := Weigh(p, now);
      assert c[k] == CandidateOf(p, now) && d[k] == Candidate(p.jitter * p.jitter, HalfWidth(p, now));
      SumsStep(c, d, k, sumWeight, sumOffset, sumJitterSq);
      sumWeight := sumWeight + w;
      sumOffset := sumOffset + offsetTerm;
      sumJitterSq := sumJitterSq + jitterTerm;
    }
    SumsEnd(c, d, sumWeight, sumOffset, sumJitterSq);
  }

  /** The combined offset and squared combined jitter. */
  method ClockCombine(peers: array<Peer>, survivors: seq<nat>, now: real) returns (offset: real, jitterSq: real)
    requires forall i :: 0 <= i < |survivors| ==> survivors[i] < peers.Length
    ensures survivors == [] ==> offset == 0.0 && jitterSq == 0.0
    ensures survivors != [] ==> offset == WeightedMean(Chosen(peers[..], survivors, now))
    ensures survivors != [] ==> jitterSq == WeightedMean(ChosenJitter(peers[..], survivors, now))
  {
    if survivors == [] {
      return 0.0, 0.0;
    }
    ghost var c, d := Chosen(peers[..], survivors, now), ChosenJitter(peers[..], survivors, now);
    if |survivors| == 1 {
      MeanOfOne(c);
      MeanOfOne(d);
      var p := peers[survivors[0]];
      return p.offset, p.jitter * p.jitter;
    }
    var sumWeight, sumOffset, sumJitterSq := WeighSurvivors(peers, survivors, now, c, d);
    WeightPositive(c);
    offset, jitterSq := sumOffset / sumWeight, sumJitterSq / sumWeight;
  }

  lemma SquareBetween(x: real, lo: real, hi: real)
    requires 0.0 <= lo <= x <= hi
    ensures lo * lo <= x * x <= hi * hi
  {
  }

  /** The combined jitter lies between the least and the largest jitter of the survivors. */
  lemma {:induction false} CombinedJitter(ps: seq<Peer>, survivors: seq<nat>, now: real, lo: real, hi: real)
    requires survivors != [] && forall i :: 0 <= i < |survivors| ==> survivors[i] < |ps|
    requires forall i :: 0 <= i < |survivors| ==> 0.0 <= lo <= ps[survivors[i]].jitter <= hi
    ensures lo * lo <= WeightedMean(ChosenJitter(ps, survivors, now)) <= hi * hi
  {
    var d := ChosenJitter(ps, survivors, now);
    forall x | x in d ensures lo * lo <= x.offset <= hi * hi {
      var k :| 0 <= k < |d| && d[k] == x;
      SquareBetween(ps[survivors[k]].jitter, lo, hi);
    }
    MeanInHull(d, lo * lo, hi * hi);
  }

  /** For one survivor both are its own. */
  lemma {:induction false} OneSurvivor(ps: seq<Peer>, i: nat, now: real)
    requires i < |ps|
    ensures WeightedMean(Chosen(ps, [i], now)) == ps[i].offset
    ensures WeightedMean(ChosenJitter(ps, [i], now)) == ps[i].jitter * ps[i].jitter
  {
    MeanOfOne(Chosen(ps, [i], now));
    MeanOfOne(ChosenJitter(ps, [i], now));
  }

  /** Its weights are those of the offsets: the reciprocals of the half-widths. */
  lemma {:induction false} JitterWeights(ps: seq<Peer>, survivors: seq<nat>, now: real, k: nat)
    requires k < |survivors| && forall i :: 0 <= i < |survivors| ==> survivors[i] < |ps|
    ensures Weight()(ChosenJitter(ps, survivors, now)[k]) == Weight()(Chosen(ps, survivors, now)[k])
         == 1.0 / HalfWidth(ps[survivors[k]], now)
  {
  }

  // ---------- The peers after a selection ----------

  function ReachMark(p: Peer): Peer {
    if p.Reachable() then p.(flash := p.flash - {TEST9}) else p.(flash := p.flash + {TEST9})
  }

  function ReachMarked(ps: seq<Peer>): (r: seq<Peer>)
    ensures |r| == |ps|
  {
    seq(|ps|, i requires 0 <= i < |ps| => ReachMark(ps[i]))
  }

  /** The peer array as a selection leaves it: TEST9 for the unreachable, TEST5 for the falsetickers. */
  ghost function Flagged(ps: seq<Peer>, now: real): (r: seq<Peer>)
    ensures |r| == |ps|
  {
    Marked(ReachMarked(ps), now)
  }

  /** Selection touches TEST5 and TEST9 only; a peer that passes is reachable, carries no
      other TEST bit, and its confidence interval meets the accepted interval. */
  lemma FlaggedFacts(ps: seq<Peer>, now: real, i: nat)
    requires i < |ps|
    ensures Flagged(ps, now)[i] == ps[i].(flash := Flagged(ps, now)[i].flash)
    ensures Flagged(ps, now)[i].flash - {TEST5, TEST9} == ps[i].flash - {TEST5, TEST9}
    ensures TEST9 in Flagged(ps, now)[i].flash <==> !ps[i].Reachable()
    ensures var acc := Accept(Candidates(ps, now));
            TEST5 in Flagged(ps, now)[i].flash <==> !Meets(CandidateOf(ps[i], now), acc.lo, acc.hi)
    ensures var acc, r := Accept(Candidates(ps, now)), HalfWidth(ps[i], now);
            TEST5 !in Flagged(ps, now)[i].flash <==>
            exists x :: Between(acc.lo, x, acc.hi) && Between(ps[i].offset - r, x, ps[i].offset + r)
  {
    assert Candidates(ReachMarked(ps), now) == Candidates(ps, now);
    MarkedExactly(ReachMarked(ps), now, i);
    assert HalfWidth(ReachMarked(ps)[i], now) == HalfWidth(ps[i], now);
  }

  /** The system peer: the first survivor with the PREFER flag, else the first survivor. */
  function SystemPeer(ps: seq<Peer>): Option<nat> {
    ClusteredShape(ps);
    var survivors := Clustered(ps);
    if survivors == [] then None
    else var preferred := FirstPreferred(ps, survivors);
         if preferred.Some? then preferred else Some(survivors[0])
  }

  function FirstPreferred(ps: seq<Peer>, survivors: seq<nat>): (r: Option<nat>)
    requires forall k :: 0 <= k < |survivors| ==> survivors[k] < |ps|
    ensures r.Some? ==> r.value in survivors && ps[r.value].prefer
    ensures r.None? ==> forall i :: i in survivors ==> !ps[i].prefer
    ensures r.Some? && (forall i, j :: 0 <= i < j < |survivors| ==> survivors[i] < survivors[j]) ==>
              forall i :: i in survivors && i < r.value ==> !ps[i].prefer
  {
    if survivors == [] then None
    else if ps[survivors[0]].prefer then Some(survivors[0])
    else FirstPreferred(ps, survivors[1..])
  }

  method MarkReachability(peers: array<Peer>)
    modifies peers
    ensures peers[..] == ReachMarked(old(peers[..]))
  {
    for i := 0 to peers.Length
      invariant forall j :: 0 <= j < i ==> peers[j] == ReachMark(old(peers[j]))
      invariant forall j :: i <= j < peers.Length ==> peers[j] == old(peers[j])
    {
      if peers[i].reach == 0 {
        peers[i] := peers[i].(flash := peers[i].flash + {TEST9});
      } else {
        peers[i] := peers[i].(flash := peers[i].flash - {TEST9});
      }
    }
  }

  // ---------- The system variables ----------

  function RootDispersion(p: Peer, now: real): real {
    p.rootDispersion + p.dispersion + PHI * (now - p.referenceTime)
  }

  function RootDistance(p: Peer, now: real): real {
    p.rootDelay / 2.0 + p.rootDispersion + p.dispersion + PHI * (now - p.referenceTime)
  }

  /** At the reference time the root dispersion is that of server and peer together; from there it grows
      by 15 ppm. The root distance exceeds it by half the root delay. */
  lemma RootGrowth(p: Peer, t: real)
    ensures RootDispersion(p, p.referenceTime + t) == p.rootDispersion + p.dispersion + t * 15.0 / 1000000.0
    ensures 2.0 * (RootDistance(p, t) - RootDispersion(p, t)) == p.rootDelay
  {
  }

  class SystemState {
    var leap: LeapIndicator
    var stratum: nat
    var rootDelay: real
    var rootDispersion: real
    var referenceId: nat
    var referenceTime: real
    var peerCount: nat
    var sysJitterSq: real
    var sysOffset: real
    var sysRootdist: Option<real>  // None is infinity
    var selBroken: nat
    var sysPeerAssocid: nat

    constructor ()
      ensures Unsynchronized() && sysPeerAssocid == 0 && selBroken == 0
    {
      leap, stratum, rootDelay, rootDispersion := Alarm, MAXSTRAT, 0.0, 0.0;
      referenceId, referenceTime, peerCount, sysJitterSq, sysOffset := 0, 0.0, 0, 0.0, 0.0;
      sysRootdist, selBroken, sysPeerAssocid := None, 0, 0;
    }

    predicate Unsynchronized()
      reads `leap, `stratum, `peerCount, `sysOffset, `sysJitterSq, `sysRootdist, `referenceId
    {
      && leap == Alarm && stratum == MAXSTRAT && peerCount == 0
      && sysOffset == 0.0 && sysJitterSq == 0.0 && sysRootdist == None && referenceId == 0
    }

    /** The variables are those of peer i, combined over the given survivors. */
    predicate Follows(ps: seq<Peer>, survivors: seq<nat>, i: nat, now: real)
      requires i < |ps| && survivors != []
      requires forall k :: 0 <= k < |survivors| ==> survivors[k] < |ps|
      reads `leap, `stratum, `referenceId, `referenceTime, `rootDelay, `rootDispersion
      reads `sysRootdist, `sysOffset, `sysJitterSq, `peerCount
    {
      var p := ps[i];
      && leap == p.leap
      && stratum == (if p.stratum + 1 < MAXSTRAT then p.stratum + 1 else MAXSTRAT)
      && referenceId == p.referenceId && referenceTime == p.receiveTime
      && rootDelay == p.rootDelay
      && rootDispersion == RootDispersion(p, now)
      && sysRootdist == Some(RootDistance(p, now))
      && sysOffset == WeightedMean(Chosen(ps, survivors, now))
      && sysJitterSq == WeightedMean(ChosenJitter(ps, survivors, now))
      && peerCount == |survivors|
    }

    /** The variables are those of system peer i among the flagged peers. */
    predicate SynchronizedTo(ps: seq<Peer>, i: nat, now: real)
      requires i < |ps| && Clustered(ps) != []
      reads `leap, `stratum, `referenceId, `referenceTime, `rootDelay, `rootDispersion
      reads `sysRootdist, `sysOffset, `sysJitterSq, `peerCount
    {
      ClusteredShape(ps);
      Follows(ps, Clustered(ps), i, now)
    }

    /** What synchronizing to a peer means: the stratum is one more than the peer's, at most 16; leap,
        reference and root delay are the peer's; the rest combines the clustered peers. */
    lemma SynchronizedFacts(ps: seq<Peer>, i: nat, now: real)
      requires i < |ps| && Clustered(ps) != [] && SynchronizedTo(ps, i, now)
      ensures leap == ps[i].leap && referenceId == ps[i].referenceId
      ensures referenceTime == ps[i].receiveTime && rootDelay == ps[i].rootDelay
      ensures stratum <= 16 && stratum <= ps[i].stratum + 1 && (stratum == 16 || stratum == ps[i].stratum + 1)
      ensures sysRootdist == Some(RootDistance(ps[i], now)) && rootDispersion == RootDispersion(ps[i], now)
      ensures sysOffset == WeightedMean(SurvivorCandidates(ps, now)) && peerCount == |Clustered(ps)| <= 3
      ensures sysJitterSq == WeightedMean(SurvivorJitters(ps, now))
    {
      ClusteredShape(ps);
    }

    lemma UnsynchronizedFacts()
      requires Unsynchronized()
      ensures leap == Alarm && stratum == 16 && peerCount == 0 && referenceId == 0
      ensures sysOffset == 0.0 && sysJitterSq == 0.0 && sysRootdist == None
    {
    }

    method Reset()
      modifies this
      ensures Unsynchronized()
      ensures unchanged(`rootDelay, `rootDispersion, `referenceTime, `selBroken, `sysPeerAssocid)
    {
      leap, stratum, peerCount := Alarm, MAXSTRAT, 0;
      sysOffset, sysJitterSq, sysRootdist, referenceId := 0.0, 0.0, None, 0;
    }

    /** Copies the system peer's data and the combined offset into the system variables. */
    method Follow(peers: array<Peer>, survivors: seq<nat>, best: nat, now: real)
      requires survivors != [] && best < peers.Length
      requires forall i :: 0 <= i < |survivors| ==> survivors[i] < peers.Length
      modifies this
      ensures Follows(peers[..], survivors, best, now)
      ensures unchanged(`selBroken, `sysPeerAssocid)
    {
      var offset, jitterSq := ClockCombine(peers, survivors, now);
      var p := peers[best];
      leap, stratum := p.leap, if p.stratum + 1 < MAXSTRAT then p.stratum + 1 else MAXSTRAT;
      referenceId, referenceTime, rootDelay := p.referenceId, p.receiveTime, p.rootDelay;
      rootDispersion, sysRootdist := RootDispersion(p, now), Some(RootDistance(p, now));
      sysJitterSq, sysOffset := jitterSq, offset;
      peerCount := |survivors|;
    }

    /** Returns the index of the system peer, if any. */
    method UpdateFromPeers(peers: array<Peer>, now: real) returns (r: Option<nat>)
      modifies this, peers
      ensures peers[..] == Flagged(old(peers[..]), now)
      ensures r == SystemPeer(peers[..])
      ensures r.None? ==> Unsynchronized() && unchanged(`rootDelay, `rootDispersion, `referenceTime)
      ensures r.None? ==> leap == Alarm && stratum == 16 && peerCount == 0 && referenceId == 0 && sysOffset == 0.0
      ensures r.Some? ==>
                r.value < peers.Length && Clustered(peers[..]) != [] && SynchronizedTo(peers[..], r.value, now)
      ensures r.Some? ==>
                var acc, c := Accept(Candidates(old(peers[..]), now)), SurvivorCandidates(peers[..], now);
                acc.lo - HarmonicMean(c) <= sysOffset <= acc.hi + HarmonicMean(c)
      ensures unchanged(`selBroken, `sysPeerAssocid)
    {
      ghost var before := peers[..];
      MarkReachability(peers);
      ghost var reached := peers[..];
      var survivorCount := ClockIntersection(peers, now);
      if survivorCount == 0 {
        // with any peer at all, at least one escapes TEST5
        assert reached == [] by {
          if reached != [] {
            EnoughSurvive(reached, now);
          }
        }
        NoPeers(peers[..]);
        Reset();
        return None;
      }
      ClusteredShape(peers[..]);
      var survivors := ClockCluster(peers);
      if survivors == [] {
        Reset();
        return None;
      }
      var preferred := FirstPreferred(peers[..], survivors);
      var best := if preferred.Some? then preferred.value else survivors[0];
      SystemPeerPasses(peers[..]);
      SystemOffsetBound(before, now);
      Follow(peers, survivors, best, now);
      r := Some(best);
    }

    /** The selection run: update the system variables and hand an offset to the clock
        discipline. Returns the system peer and that offset, if any. */
    method RunSelection(peers: array<Peer>, now: real) returns (best: Option<nat>, adjust: Option<real>)
      modifies this, peers
      ensures peers[..] == Flagged(old(peers[..]), now)
      ensures best == SystemPeer(peers[..])
      ensures adjust.Some? <==> best.Some?
      ensures best.Some? ==>
                && best.value < peers.Length && Clustered(peers[..]) != []
                && SynchronizedTo(peers[..], best.value, now)
                && sysPeerAssocid == peers[best.value].associd && selBroken == old(selBroken)
                && adjust == Some(Effective(peers[..], sysOffset))
      ensures best.None? && peers.Length > 0 ==>
                && Unsynchronized() && leap == Alarm && stratum == 16
                && sysPeerAssocid == 0 && selBroken == old(selBroken) + 1
      ensures peers.Length == 0 ==> unchanged(this)
    {
      if peers.Length == 0 {
        NoPeers(peers[..]);
        return None, None;
      }
      best := UpdateFromPeers(peers, now);
      RecordSystemPeer(peers, best);
      if best.Some? {
        FollowersCounted(peers[..], best.value, now);
      }
      adjust := if peerCount > 0 then Some(Effective(peers[..], sysOffset)) else None;
    }

    /** Notes the system peer's association ID, or that there is none. */
    method RecordSystemPeer(peers: array<Peer>, best: Option<nat>)
      requires best.Some? ==> best.value < peers.Length
      modifies `sysPeerAssocid, `selBroken
      ensures best.Some? ==> sysPeerAssocid == peers[best.value].associd && selBroken == old(selBroken)
      ensures best.None? ==> sysPeerAssocid == 0 && selBroken == old(selBroken) + 1
    {
      if best.Some? {
        sysPeerAssocid := peers[best.value].associd;
      } else {
        sysPeerAssocid := 0;
        selBroken := selBroken + 1;
      }
    }

    lemma FollowersCounted(ps: seq<Peer>, i: nat, now: real)
      requires i < |ps| && Clustered(ps) != [] && SynchronizedTo(ps, i, now)
      ensures peerCount > 0
    {
    }
  }

  lemma NoPeers(ps: seq<Peer>)
    requires ps == []
    ensures SystemPeer(ps) == None
  {
  }

  /** The offset handed to the clock discipline: that of a pulse-per-second peer, if there is one. */
  function Effective(ps: seq<Peer>, sysOffset: real): real {
    var pps := PpsPeer(ps);
    if pps.Some? then ps[pps.value].offset else sysOffset
  }

  /** The clock is adjusted by the offset of the first reachable PREFER peer of stratum 0 whose jitter and
      offset are below a millisecond, and by the combined offset if there is none. */
  lemma EffectiveIs(ps: seq<Peer>, sysOffset: real, i: nat)
    requires i <= |ps|
    requires forall j :: 0 <= j < i ==>
               !(ps[j].prefer && ps[j].stratum == 0 && ps[j].reach != 0 && ps[j].jitter < 0.001
                 && -0.001 < ps[j].offset < 0.001)
    ensures i == |ps| ==> Effective(ps, sysOffset) == sysOffset
    ensures (i < |ps| && ps[i].prefer && ps[i].stratum == 0 && ps[i].reach != 0 && ps[i].jitter < 0.001
             && -0.001 < ps[i].offset < 0.001) ==> Effective(ps, sysOffset) == ps[i].offset
  {
    assert forall j :: 0 <= j < i ==> !IsPps(ps[j]);
    assert i < |ps| ==> (IsPps(ps[i]) <==> ps[i].prefer && ps[i].stratum == 0 && ps[i].reach != 0
                                           && ps[i].jitter < 0.001 && -0.001 < ps[i].offset < 0.001);
  }

  predicate IsPps(p: Peer) {
    p.prefer && p.stratum == 0 && p.Reachable() && p.jitter < 0.001 && ClockFilters.Abs(p.offset) < 0.001
  }

  /** The first peer that looks like a pulse-per-second reference clock. */
  function PpsPeer(ps: seq<Peer>): (r: Option<nat>)
    ensures r.Some? ==> r.value < |ps| && IsPps(ps[r.value]) && forall j :: 0 <= j < r.value ==> !IsPps(ps[j])
    ensures r.None? ==> forall j :: 0 <= j < |ps| ==> !IsPps(ps[j])
  {
    if ps == [] then None else
      var r := PpsPeer(ps[..|ps|-1]);
      if r.Some? then r else if IsPps(ps[|ps|-1]) then Some(|ps| - 1) else None
  }

  // ---------- Main results ----------

  lemma SomeoneClustered(ps: seq<Peer>, i: nat)
    requires i < |ps| && ps[i].Passes()
    ensures SystemPeer(ps).Some?
  {
    ClusteredSize(ps);
    assert i in Passing(ps);
  }

  lemma SystemPeerPasses(ps: seq<Peer>)
    requires SystemPeer(ps).Some?
    ensures SystemPeer(ps).value < |ps| && ps[SystemPeer(ps).value].Passes()
  {
    ClusteredShape(ps);
    assert Clustered(ps)[0] in Clustered(ps);
  }

  lemma {:induction false} PreferWins(ps: seq<Peer>, p: nat)
    requires PreferIndex(ps) == Some(p) && ps[p].Passes()
    ensures SystemPeer(ps) == Some(p)
  {
    ClusteredShape(ps);
    FirstPreferredIs(ps, Clustered(ps), p);
  }

  lemma {:induction false} FirstPreferredIs(ps: seq<Peer>, survivors: seq<nat>, p: nat)
    requires forall k :: 0 <= k < |survivors| ==> survivors[k] < |ps|
    requires forall i, j :: 0 <= i < j < |survivors| ==> survivors[i] < survivors[j]
    requires PreferIndex(ps) == Some(p) && p in survivors
    ensures FirstPreferred(ps, survivors) == Some(p)
  {
  }

  /** No system peer exactly when no peer passes every test; otherwise a passing peer,
      and the first PREFER peer whenever that one passes. Without a PREFER peer among the
      clustered it is the first of them. */
  lemma {:induction false} SystemPeerChoice(ps: seq<Peer>)
    ensures SystemPeer(ps).None? <==> forall i :: 0 <= i < |ps| ==> !ps[i].Passes()
    ensures SystemPeer(ps).Some? ==> SystemPeer(ps).value < |ps| && ps[SystemPeer(ps).value].Passes()
    ensures var p := PreferIndex(ps); p.Some? && ps[p.value].Passes() ==> SystemPeer(ps) == p
    ensures SystemPeer(ps).Some? ==> LeastClustered(ps, SystemPeer(ps).value)
  {
    forall i: nat | i < |ps| && ps[i].Passes() ensures SystemPeer(ps).Some? {
      SomeoneClustered(ps, i);
    }
    if SystemPeer(ps).Some? {
      SystemPeerPasses(ps);
    }
    var p := PreferIndex(ps);
    if p.Some? && ps[p.value].Passes() {
      PreferWins(ps, p.value);
    }
    if SystemPeer(ps).Some? {
      SystemPeerIsLeast(ps);
    }
  }

  /** Peer i is clustered, and it is the least such index: among those with the PREFER flag if
      any clustered peer has it, else among all. */
  ghost predicate LeastClustered(ps: seq<Peer>, i: nat) {
    && i in Clustered(ps) && i < |ps|
    && (forall j :: j in Clustered(ps) && j < |ps| && ps[j].prefer ==> ps[i].prefer)
    && (forall j :: j in Clustered(ps) && j < |ps| && ps[j].prefer == ps[i].prefer ==> i <= j)
  }

  lemma {:induction false} LeastIsFirst(s: seq<nat>, i: nat)
    requires forall k, l :: 0 <= k < l < |s| ==> s[k] < s[l]
    requires i in s
    ensures s[0] <= i
  {
    var k :| 0 <= k < |s| && s[k] == i;
  }

  lemma {:induction false} SystemPeerIsLeast(ps: seq<Peer>)
    requires SystemPeer(ps).Some?
    ensures LeastClustered(ps, SystemPeer(ps).value)
  {
    ClusteredShape(ps);
    var survivors := Clustered(ps);
    var r := FirstPreferred(ps, survivors);
    if r.None? {
      assert survivors[0] in survivors;
      forall j | j in survivors ensures survivors[0] <= j {
        LeastIsFirst(survivors, j);
      }
    }
  }

  /** Without the PREFER flag on any peer, and with at most three that pass, the system peer is the
      first peer that passes. */
  lemma {:induction false} FirstPassing(ps: seq<Peer>, i: nat)
    requires forall j :: 0 <= j < |ps| ==> !ps[j].prefer
    requires i < |ps| && ps[i].Passes() && forall j :: 0 <= j < i ==> !ps[j].Passes()
    requires |Passing(ps)| <= 3
    ensures SystemPeer(ps) == Some(i)
  {
    FewAllClustered(ps);
    SystemPeerChoice(ps);
    assert i in Passing(ps);
    assert SystemPeer(ps).value in Passing(ps);
  }

  /** The selected peer was reachable and its only TEST bits were TEST5 or TEST9. */
  lemma SystemPeerSound(ps: seq<Peer>, now: real)
    requires SystemPeer(Flagged(ps, now)).Some?
    ensures var i := SystemPeer(Flagged(ps, now)).value;
            i < |ps| && ps[i].Reachable() && ps[i].flash <= {TEST5, TEST9}
  {
    SystemPeerChoice(Flagged(ps, now));
    var i := SystemPeer(Flagged(ps, now)).value;
    FlaggedFacts(ps, now, i);
    assert ps[i].flash - {TEST5, TEST9} == {};
  }

  /** Every survivor's candidate is that of a peer among the clustered. */
  lemma SurvivorIsPeer(ps: seq<Peer>, now: real, x: Candidate) returns (i: nat)
    requires x in SurvivorCandidates(ps, now)
    ensures i in Clustered(ps) && i < |ps| && ps[i].Passes() && x == CandidateOf(ps[i], now)
  {
    ClusteredShape(ps);
    var k :| 0 <= k < |Clustered(ps)| && SurvivorCandidates(ps, now)[k] == x;
    i := Clustered(ps)[k];
    assert i in Clustered(ps);
  }

  lemma SurvivorsMeet(ps: seq<Peer>, now: real, x: Candidate)
    requires x in SurvivorCandidates(Flagged(ps, now), now)
    ensures var acc := Accept(Candidates(ps, now)); Meets(x, acc.lo, acc.hi)
    ensures exists i :: i in Clustered(Flagged(ps, now)) && i < |ps| && x.offset == ps[i].offset
  {
    var i := SurvivorIsPeer(Flagged(ps, now), now, x);
    FlaggedFacts(ps, now, i);
  }

  /** The combined system offset misses the accepted interval by at most the harmonic mean
      of the survivors' half-widths. */
  lemma SystemOffsetBound(ps: seq<Peer>, now: real)
    requires Clustered(Flagged(ps, now)) != []
    ensures var acc, c := Accept(Candidates(ps, now)), SurvivorCandidates(Flagged(ps, now), now);
            acc.lo - HarmonicMean(c) <= WeightedMean(c) <= acc.hi + HarmonicMean(c)
  {
    var acc, c := Accept(Candidates(ps, now)), SurvivorCandidates(Flagged(ps, now), now);
    forall x | x in c ensures x.Hi() >= acc.lo && x.Lo() <= acc.hi {
      SurvivorsMeet(ps, now, x);
    }
    MeanNearIntersection(c, acc.lo, acc.hi);
  }

  /** It also lies in the hull of the survivors' offsets. */
  lemma SystemOffsetInHull(ps: seq<Peer>, now: real, lo: real, hi: real)
    requires Clustered(Flagged(ps, now)) != []
    requires forall i :: i in Clustered(Flagged(ps, now)) && i < |ps| ==> lo <= ps[i].offset <= hi
    ensures lo <= WeightedMean(SurvivorCandidates(Flagged(ps, now), now)) <= hi
  {
    var c := SurvivorCandidates(Flagged(ps, now), now);
    forall x | x in c ensures lo <= x.offset <= hi {
      SurvivorsMeet(ps, now, x);
    }
    MeanInHull(c, lo, hi);
  }

  /** With at most f falsetickers among 4f + 1 or more peers, and half-widths of at most w
      among the peers whose intervals contain the true offset theta, the combined system
      offset errs by at most 2w plus the harmonic mean of the survivors' half-widths. */
  lemma SystemOffsetError(ps: seq<Peer>, now: real, theta: real, f: nat, w: real)
    requires Clustered(Flagged(ps, now)) != [] && |ps| >= 4 * f + 1
    requires Cover(Candidates(ps, now), theta) >= |ps| - f
    requires forall i :: 0 <= i < |ps| && Contains(CandidateOf(ps[i], now), theta) ==> HalfWidth(ps[i], now) <= w
    ensures var c := SurvivorCandidates(Flagged(ps, now), now);
            theta - 2.0 * w - HarmonicMean(c) <= WeightedMean(c) <= theta + 2.0 * w + HarmonicMean(c)
  {
    var all := Candidates(ps, now);
    var acc := Accept(all);
    SystemOffsetBound(ps, now);
    WithinTwoWidths(ps, now, theta, f, w, acc.lo);
    WithinTwoWidths(ps, now, theta, f, w, acc.hi);
  }

  lemma WithinTwoWidths(ps: seq<Peer>, now: real, theta: real, f: nat, w: real, x: real)
    requires |ps| >= 4 * f + 1 && Cover(Candidates(ps, now), theta) >= |ps| - f
    requires forall i :: 0 <= i < |ps| && Contains(CandidateOf(ps[i], now), theta) ==> HalfWidth(ps[i], now) <= w
    requires Accept(Candidates(ps, now)).lo <= x <= Accept(Candidates(ps, now)).hi
    ensures theta - 2.0 * w <= x <= theta + 2.0 * w
  {
    var all := Candidates(ps, now);
    AcceptedIsVouched(all, theta, f, x);
    var y :| y in all && Contains(y, theta) && Contains(y, x);
    var i :| 0 <= i < |all| && all[i] == y;
    assert y == CandidateOf(ps[i], now);
  }
}
