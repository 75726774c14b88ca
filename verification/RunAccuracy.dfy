/** From honest exchanges to the system offset: which peers the confidence intervals let the
    selection count on, and the error of the combined offset over whole runs. */
module RunAccuracy {
  import opened Sums
  import opened ClockFilters
  import opened Intersection
  import opened Truechimers
  import opened Combine
  import opened Selection
  import opened SystemVariables
  import Engine
  import EngineClocks

  // ---------- One peer ----------

  /** The half-width of the interval reaches as far as the sample can be wrong. It is made from
      the root values, the age and the jitter: the measured delay has no part in it. */
  predicate WideEnough(p: Peer, delay: real, now: real) {
    delay / 2.0 <= HalfWidth(p, now)
  }

  /** A peer whose offset comes from an honest sample contains the true offset if its interval is
      wide enough. */
  lemma HonestContains(p: Peer, x: Sample, now: real, theta: real)
    requires p.offset == x.offset && Honest(theta, x) && WideEnough(p, x.delay, now)
    ensures Contains(CandidateOf(p, now), theta)
  {
  }

  /** And only then can it be relied on: every honest sample of that delay makes the peer a
      truechimer exactly if the interval is wide enough. */
  lemma WideEnoughExactly(p: Peer, delay: real, now: real)
    requires delay >= 0.0
    ensures WideEnough(p, delay, now) <==>
            forall x: Sample, theta :: x.offset == p.offset && x.delay == delay && Honest(theta, x) ==>
              Contains(CandidateOf(p, now), theta)
  {
    if WideEnough(p, delay, now) {
      forall x: Sample, theta | x.offset == p.offset && x.delay == delay && Honest(theta, x)
        ensures Contains(CandidateOf(p, now), theta)
      {
        HonestContains(p, x, now, theta);
      }
    } else {
      var x := Sample(p.offset, delay, 0.0, 0.0);
      var theta := p.offset + delay / 2.0;
      assert Honest(theta, x) && !Contains(CandidateOf(p, now), theta);
    }
  }

  /** For instance a peer at stratum one with one second of delay, all of it on the way there, and
      nothing else to widen its interval: it is honest, and half a second off. */
  lemma HonestFalseticker(p: Peer, now: real)
    requires p.rootDelay == 0.0 && p.rootDispersion == 0.0 && p.jitter == 0.0 && p.referenceTime == now
    requires p.offset == 0.5
    ensures var x := SampleOf(0.0, Exchange(now, 1.0, 0.0, 0.0, 0.0));
            p.offset == x.offset && Honest(0.0, x) && !Contains(CandidateOf(p, now), 0.0)
  {
    ExchangeIsHonest(0.0, Exchange(now, 1.0, 0.0, 0.0, 0.0));
  }

  // ---------- All peers ----------

  /** Peer p takes its offset from an honest sample, and its interval is wide enough. */
  predicate Reliable(p: Peer, x: Sample, now: real, theta: real) {
    p.offset == x.offset && Honest(theta, x) && WideEnough(p, x.delay, now)
  }

  function CountReliable(ps: seq<Peer>, xs: seq<Sample>, now: real, theta: real): nat
    requires |ps| == |xs|
  {
    if ps == [] then 0 else
      var n := |ps| - 1;
      CountReliable(ps[..n], xs[..n], now, theta) + if Reliable(ps[n], xs[n], now, theta) then 1 else 0
  }

  lemma {:induction false} ReliableCover(ps: seq<Peer>, xs: seq<Sample>, now: real, theta: real)
    requires |ps| == |xs|
    ensures CountReliable(ps, xs, now, theta) <= Cover(Candidates(ps, now), theta)
  {
    if ps != [] {
      var n := |ps| - 1;
      ReliableCover(ps[..n], xs[..n], now, theta);
      assert Candidates(ps, now)[..n] == Candidates(ps[..n], now);
      if Reliable(ps[n], xs[n], now, theta) {
        HonestContains(ps[n], xs[n], now, theta);
      }
    }
  }

  /** With at most f unreliable peers among 4f + 1 or more, and half-widths of at most w, the
      combined offset errs by at most 2w plus the harmonic mean of the survivors' half-widths. */
  lemma {:induction false} ReliableOffset(ps: seq<Peer>, xs: seq<Sample>, now: real, theta: real, f: nat, w: real)
    requires |ps| == |xs| >= 4 * f + 1 && CountReliable(ps, xs, now, theta) >= |ps| - f
    requires forall i :: 0 <= i < |ps| ==> HalfWidth(ps[i], now) <= w
    requires Clustered(Flagged(ps, now)) != []
    ensures var c := SurvivorCandidates(Flagged(ps, now), now);
            theta - 2.0 * w - HarmonicMean(c) <= WeightedMean(c) <= theta + 2.0 * w + HarmonicMean(c)
  {
    ReliableCover(ps, xs, now, theta);
    SystemOffsetError(ps, now, theta, f, w);
  }

  // ---------- Whole runs ----------

  /** Association i keeps samples, its server has had the constant offset theta over the run with
      non-negative path delays, and the interval of peer p, which takes its offset from the best
      sample, is wide enough for it. */
  ghost predicate Trusted(cs: seq<Engine.Config>, evs: seq<Engine.Event>, i: nat, p: Peer, now: real, theta: real) {
    var s := Engine.Run(Engine.Initial(cs), evs);
    && i < |s.peers| && s.peers[i].samples != []
    && EngineClocks.ConstantOffset(Engine.Initial(cs), evs, s.peers[i].addr, theta)
    && p.offset == Best(s.peers[i].samples).offset && WideEnough(p, Best(s.peers[i].samples).delay, now)
  }

  ghost function CountTrusted(cs: seq<Engine.Config>, evs: seq<Engine.Event>, ps: seq<Peer>, now: real,
      theta: real): nat {
    if ps == [] then 0 else
      var n := |ps| - 1;
      CountTrusted(cs, evs, ps[..n], now, theta) + if Trusted(cs, evs, n, ps[n], now, theta) then 1 else 0
  }

  /** The samples that the associations' offsets come from. */
  function BestSamples(s: Engine.State, n: nat): (r: seq<Sample>)
    ensures |r| == n
  {
    seq(n, i => if 0 <= i < |s.peers| && s.peers[i].samples != [] then Best(s.peers[i].samples)
                else Sample(0.0, 0.0, 0.0, 0.0))
  }

  lemma {:induction false} TrustedIsReliable(cs: seq<Engine.Config>, evs: seq<Engine.Event>, i: nat, p: Peer,
      now: real, theta: real)
    requires Trusted(cs, evs, i, p, now, theta)
    ensures Reliable(p, Best(Engine.Run(Engine.Initial(cs), evs).peers[i].samples), now, theta)
  {
    var s := Engine.Run(Engine.Initial(cs), evs);
    EngineClocks.KeptSamplesHonest(cs, evs, s, s.peers[i], theta);
  }

  lemma {:induction false} TrustedCount(cs: seq<Engine.Config>, evs: seq<Engine.Event>, ps: seq<Peer>, now: real,
      theta: real)
    ensures CountTrusted(cs, evs, ps, now, theta)
         <= CountReliable(ps, BestSamples(Engine.Run(Engine.Initial(cs), evs), |ps|), now, theta)
  {
    if ps != [] {
      var n, s := |ps| - 1, Engine.Run(Engine.Initial(cs), evs);
      TrustedCount(cs, evs, ps[..n], now, theta);
      assert BestSamples(s, |ps|)[..n] == BestSamples(s, n);
      if Trusted(cs, evs, n, ps[n], now, theta) {
        TrustedIsReliable(cs, evs, n, ps[n], now, theta);
      }
    }
  }

  /** After any run of any configuration: if all but at most f of 4f + 1 or more peers can be
      trusted, and half-widths are at most w, the system offset errs by at most 2w plus the harmonic
      mean of the survivors' half-widths. */
  lemma {:induction false} SystemOffsetOverRun(cs: seq<Engine.Config>, evs: seq<Engine.Event>, ps: seq<Peer>,
      now: real, theta: real, f: nat, w: real)
    requires |ps| >= 4 * f + 1 && CountTrusted(cs, evs, ps, now, theta) >= |ps| - f
    requires forall i :: 0 <= i < |ps| ==> HalfWidth(ps[i], now) <= w
    requires Clustered(Flagged(ps, now)) != []
    ensures var c := SurvivorCandidates(Flagged(ps, now), now);
            theta - 2.0 * w - HarmonicMean(c) <= WeightedMean(c) <= theta + 2.0 * w + HarmonicMean(c)
  {
    TrustedCount(cs, evs, ps, now, theta);
    ReliableOffset(ps, BestSamples(Engine.Run(Engine.Initial(cs), evs), |ps|), now, theta, f, w);
  }
}
