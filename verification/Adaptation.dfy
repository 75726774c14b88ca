/** What an answer does to an association's sample and poll exponent, apart from the formulas. */
module Adaptation {
  import opened Wrappers
  import opened Sums
  import opened ClockFilters
  import opened Engine
  import opened EngineInvariants
  import opened Outcomes

  // ---------- The poll exponent ----------

  /** The exponent h is within the limits and at most one step from the association's; it is lower exactly
      for offsets of a second or more, and higher for offsets below 128 ms, or below a second while
      it was under the middle of the limits. */
  ghost predicate Adapted(p: Assoc, h: nat, offset: real) {
    && p.minpoll <= h <= p.maxpoll && p.hpoll - 1 <= h <= p.hpoll + 1
    && (h < p.hpoll <==> p.hpoll > p.minpoll && (offset >= 1.0 || offset <= -1.0))
    && (h > p.hpoll <==>
        && p.hpoll < p.maxpoll
        && (-0.128 < offset < 0.128 || (-1.0 < offset < 1.0 && 2 * (p.hpoll + 1) <= p.minpoll + p.maxpoll)))
  }

  /** An answer moves the poll exponent by at most one step and keeps it within its limits. It goes
      down exactly for offsets of a second or more, and up for offsets below 128 ms, or below a
      second while it is under the middle of the limits. */
  lemma AdaptiveStep(p: Assoc, offset: real)
    requires p.burst == 0 && p.reach != 0
    requires p.minpoll <= p.hpoll <= p.maxpoll && p.hpoll < 255 && p.minpoll + p.maxpoll < 256
    ensures PollUpdate(p, offset).1 == 0 && Adapted(p, PollUpdate(p, offset).0, offset)
  {
  }

  /** At the largest exponent a byte can hold, a good answer takes it to zero instead. */
  lemma AdaptiveWrap(p: Assoc, offset: real)
    requires p.burst == 0 && p.reach != 0 && -0.128 < offset < 0.128
    ensures PollUpdate(p, offset).0 == if p.hpoll == 255 || p.maxpoll == 0 then 0
                                       else if p.hpoll < p.maxpoll then p.hpoll + 1 else p.maxpoll
  {
  }

  /** A burst polls at exponent 5 and counts down; one of eight starts only for an unreachable
      association with the iburst option. Unreachable otherwise, the exponent goes down by two. */
  lemma BurstStep(p: Assoc, offset: real)
    ensures p.burst > 0 ==> PollUpdate(p, offset) == (5, p.burst - 1)
    ensures p.burst == 0 && p.reach == 0 && p.iburst ==> PollUpdate(p, offset) == (5, 7)
    ensures p.burst == 0 && p.reach == 0 && !p.iburst ==>
              && PollUpdate(p, offset).1 == 0
              && (p.hpoll >= p.minpoll + 2 ==> PollUpdate(p, offset).0 == p.hpoll - 2)
              && (p.hpoll < p.minpoll + 2 ==> PollUpdate(p, offset).0 == p.minpoll)
  {
  }

  /** A usable answer adapts the poll exponent to the offset that the filter reports with the new sample
      in it: that of the newest sample of least delay. */
  lemma {:induction false} AnswerAdapts(s: State, d: Response, k: nat) returns (best: nat)
    requires Basic(s, []) && FirstFor(s, d, k) && 1 <= d.stratum <= 15 && Sane(s.pending[k], d)
    requires s.pending[k].peer < |s.peers| && s.peers[s.pending[k].peer].originate != s.pending[k].fullT1
    requires var p := s.peers[s.pending[k].peer];
             p.minpoll <= p.hpoll <= p.maxpoll && p.hpoll < 255 && p.minpoll + p.maxpoll < 256
    ensures s.pending[k].peer < |Respond(s, d).peers|
    ensures var p, q := s.peers[s.pending[k].peer], Respond(s, d).peers[s.pending[k].peer];
            && best < |q.samples|
            && (forall j :: 0 <= j < |q.samples| ==> q.samples[j].delay >= q.samples[best].delay)
            && (forall j :: 0 <= j < best ==> q.samples[j].delay > q.samples[best].delay)
            && Adapted(p, q.hpoll, q.samples[best].offset)
  {
    var r := s.pending[k];
    var p := s.peers[r.peer];
    ResponseEffect(s, d, k);
    var samples := Recent([SampleFrom(p, r, d)] + p.samples);
    best := BestIsNewest(samples);
    AnsweredExponent(p, r, d, samples);
    FirstIsFound(s, d);
  }

  lemma {:induction false} AnsweredExponent(p: Assoc, r: Pending, d: Response, samples: seq<Sample>)
    requires p.burst == 0 && samples == Recent([SampleFrom(p, r, d)] + p.samples)
    requires p.minpoll <= p.hpoll <= p.maxpoll && p.hpoll < 255 && p.minpoll + p.maxpoll < 256
    ensures Adapted(p, TakeSample(p, r, d).hpoll, Best(samples).offset)
  {
    ReachSet(p.reach);
    AdaptiveStep(p.(samples := samples, reach := (p.reach << 1) | 1, originate := r.fullT1), Best(samples).offset);
  }

  // ---------- Samples ----------

  /** Offset and delay of a sample, from the times at which the request was sent and received and the
      response sent and received; a negative delay counts as zero. */
  lemma SampleTimes(p: Assoc, req: Pending, d: Response)
    ensures var x := SampleFrom(p, req, d);
            var t1, t2 := ToReal(req.fullT1), d.receive.seconds as real + d.receive.fraction as real / 4294967296.0;
            var t3, t4 := d.transmit.seconds as real + d.transmit.fraction as real / 4294967296.0, ToReal(d.rx);
            && 2.0 * x.offset == (t2 - t1) - (t4 - t3)
            && x.delay == if t4 - t1 >= t3 - t2 then (t4 - t1) - (t3 - t2) else 0.0
  {
  }

  /** A sample is as old as its response, and its dispersion is the server's root dispersion plus two
      parts in a million of the poll interval: the source adds the one part twice. */
  lemma SampleDispersion(p: Assoc, req: Pending, d: Response)
    requires p.hpoll < 64
    ensures var x := SampleFrom(p, req, d);
            x.time == ToReal(d.rx) && (x.dispersion - d.rootDispersion) * 500000.0 == Pow2(p.hpoll) as real
  {
  }

  /** Times in seconds are ordered as seconds and fractions are, and half of the fraction's range is
      half a second. */
  lemma TimeOrder(t: Timestamp, u: Timestamp)
    requires t.fraction < 0x1_0000_0000 && u.fraction < 0x1_0000_0000
    ensures ToReal(t) < ToReal(u) <==> t.seconds < u.seconds || (t.seconds == u.seconds && t.fraction < u.fraction)
    ensures t.fraction == 0x8000_0000 ==> ToReal(t) == t.seconds as real + 0.5
  {
  }

  /** The wire form keeps the fraction and the seconds within their era. */
  lemma WireForm(t: Timestamp)
    ensures FromWire(ToWire(t)) == t <==> 0 <= t.seconds < 0x1_0000_0000
    ensures ToWire(t) == ToWire(t.(seconds := t.seconds + 0x1_0000_0000))
    ensures 0 <= ToWire(t).seconds < 0x1_0000_0000 && ToWire(t).fraction == t.fraction
  {
  }

  // ---------- The filter ----------

  /** The reported sample is the newest of those with the least delay. */
  lemma {:induction false} BestIsNewest(s: seq<Sample>) returns (k: nat)
    requires s != []
    ensures k < |s| && s[k] == Best(s)
    ensures forall j :: 0 <= j < k ==> s[j].delay > s[k].delay
    ensures forall j :: k <= j < |s| ==> s[j].delay >= s[k].delay
  {
    if |s| == 1 || s[0].delay <= Best(s[1..]).delay {
      k := 0;
      assert forall j :: 0 <= j < |s| ==> s[j] in s;
    } else {
      var l := BestIsNewest(s[1..]);
      k := l + 1;
    }
  }

  /** The filter jitter is zero for a single sample; for two it is the distance of their offsets. */
  lemma {:induction false} JitterOfFew(a: Sample, b: Sample)
    ensures JitterSq([a], a.offset) == 0.0
    ensures JitterSq([a, b], a.offset) == (b.offset - a.offset) * (b.offset - a.offset)
  {
    var s := [a, b];
    assert s[..1] == [a] && [a][..0] == [];
    assert RealSum(SquaredResidual(a.offset), [a]) == 0.0;
  }

  lemma OverTimes(x: real, n: int)
    requires n > 0
    ensures n as real * (x / n as real) == x
  {
  }

  /** One more sample: n - 1 times the squared jitter grows by the squared distance of its offset. */
  lemma {:induction false} JitterGrows(s: seq<Sample>, x: Sample, at: real)
    requires |s| >= 2
    ensures |s| as real * JitterSq(s + [x], at)
         == (|s| - 1) as real * JitterSq(s, at) + (x.offset - at) * (x.offset - at)
  {
    assert (s + [x])[..|s|] == s;
    OverTimes(RealSum(SquaredResidual(at), s), |s| - 1);
    OverTimes(RealSum(SquaredResidual(at), s + [x]), |s|);
  }
}
