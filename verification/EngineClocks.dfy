/** The error of a peer's filtered offset over whole runs of the engine. */
module EngineClocks {
  import opened Wrappers
  import opened Timers
  import opened ClockFilters
  import opened Engine
  import opened EngineInvariants
  import opened Ticks

  /** With the server's clock ahead by theta, the request took no negative time to the server
      and the response none back. */
  predicate PathsNonNegative(theta: real, req: Pending, d: Response) {
    && ToReal(FromWire(d.receive)) - theta >= ToReal(req.fullT1)
    && ToReal(d.rx) >= ToReal(FromWire(d.transmit)) - theta
  }

  /** The exchange that a request and its response make up. */
  function ExchangeOf(theta: real, req: Pending, d: Response, dispersion: real): Exchange {
    var t1, t2, t3, t4 := ToReal(req.fullT1), ToReal(FromWire(d.receive)), ToReal(FromWire(d.transmit)), ToReal(d.rx);
    Exchange(t1, t2 - theta - t1, t3 - t2, t4 - (t3 - theta), dispersion)
  }

  /** The sample errs by at most half of its delay, which is the time on the two paths. */
  lemma SampleIsHonest(theta: real, p: Assoc, req: Pending, d: Response)
    requires PathsNonNegative(theta, req, d)
    ensures var sample := SampleFrom(p, req, d); var x := ExchangeOf(theta, req, d, sample.dispersion);
            && sample == SampleOf(theta, x) && Honest(theta, sample)
            && sample.delay == x.up + x.down
  {
    ExchangeIsHonest(theta, ExchangeOf(theta, req, d, SampleFrom(p, req, d).dispersion));
  }

  /** All samples kept for the address are honest about its true offset. */
  ghost predicate HonestPeer(s: State, addr: NetAddr, theta: real) {
    forall i :: 0 <= i < |s.peers| && s.peers[i].addr == addr ==> forall y :: y in s.peers[i].samples ==>
        Honest(theta, y)
  }

  /** If the event gives the address a sample, its path delays are not negative. */
  predicate TrueEvent(s: State, ev: Event, addr: NetAddr, theta: real) {
    ev.ServerResponse? && Judge(s, ev.d) == Accepted && ev.d.source == addr ==>
      PathsNonNegative(theta, s.pending[FindPending(s.pending, ev.d).value], ev.d)
  }

  /** The server at the address keeps a constant offset over the run. */
  ghost predicate ConstantOffset(s: State, evs: seq<Event>, addr: NetAddr, theta: real) {
    forall k :: 0 <= k < |evs| ==> TrueEvent(Run(s, evs[..k]), evs[k], addr, theta)
  }

  lemma HonestTake(p: Assoc, req: Pending, d: Response, theta: real, x: Sample)
    requires (forall y :: y in p.samples ==> Honest(theta, y)) && Honest(theta, SampleFrom(p, req, d))
    requires x in TakeSample(p, req, d).samples
    ensures Honest(theta, x)
  {
    assert x == SampleFrom(p, req, d) || x in p.samples;
  }

  lemma HonestResponse(s: State, d: Response, addr: NetAddr, theta: real)
    requires Basic(s, []) && HonestPeer(s, addr, theta) && TrueEvent(s, ServerResponse(d), addr, theta)
    ensures HonestPeer(Respond(s, d), addr, theta)
  {
    RespondShape(s, d);
    if Judge(s, d) == Accepted {
      var req := s.pending[FindPending(s.pending, d).value];
      MatchedPeer(s, d, FindPending(s.pending, d).value);
      var q := TakeSample(s.peers[req.peer], req, d);
      if d.source == addr {
        SampleIsHonest(theta, s.peers[req.peer], req, d);
        forall y | y in q.samples ensures Honest(theta, y) {
          HonestTake(s.peers[req.peer], req, d, theta, y);
        }
      }
    }
  }

  lemma HonestTick(s: State, now: Timestamp, addr: NetAddr, theta: real)
    requires HonestPeer(s, addr, theta)
    ensures HonestPeer(TickStep(s, now), addr, theta)
  {
    FireAllLines(Popped(s, now.seconds), Fired(s.timers, now.seconds), now);
    var t := TickStep(s, now);
    assert forall i :: 0 <= i < |t.peers| ==>
        t.peers[i].addr == s.peers[i].addr && t.peers[i].samples == s.peers[i].samples;
  }

  lemma HonestPassive(s: State, source: NetAddr, addr: NetAddr, theta: real)
    requires HonestPeer(s, addr, theta)
    ensures HonestPeer(PassiveStep(s, source), addr, theta)
  {
    var t := PassiveStep(s, source);
    assert forall i :: 0 <= i < |t.peers| ==>
        if i < |s.peers| then t.peers[i] == s.peers[i] else t.peers[i].samples == [];
  }

  lemma HonestStep(s: State, ev: Event, addr: NetAddr, theta: real)
    requires Basic(s, []) && HonestPeer(s, addr, theta) && TrueEvent(s, ev, addr, theta)
    ensures HonestPeer(Step(s, ev), addr, theta)
  {
    match ev {
      case Tick(now) => HonestTick(s, now, addr, theta);
      case ServerResponse(d) => HonestResponse(s, d, addr, theta);
      case Passive(source) => HonestPassive(s, source, addr, theta);
    }
  }

  lemma {:induction false} HonestRun(s: State, evs: seq<Event>, addr: NetAddr, theta: real)
    requires Basic(s, []) && HonestPeer(s, addr, theta) && ConstantOffset(s, evs, addr, theta)
    ensures HonestPeer(Run(s, evs), addr, theta)
  {
    if evs != [] {
      var n := |evs| - 1;
      var init := evs[..n];
      assert forall k :: 0 <= k < n ==> init[..k] == evs[..k];
      HonestRun(s, init, addr, theta);
      RunBasic(s, init);
      HonestStep(Run(s, init), evs[n], addr, theta);
    }
  }

  lemma {:induction false} NoSamplesYet(cs: seq<Config>)
    ensures forall i :: 0 <= i < |ConfigureAll(cs).peers| ==> ConfigureAll(cs).peers[i].samples == []
  {
    if cs != [] {
      NoSamplesYet(cs[..|cs|-1]);
      match cs[|cs|-1] {
        case Remote(_, _, _, _, _) =>
        case Refclock(_) =>
      }
    }
  }

  /** In every run of every configuration: if the server at an address has the constant offset
      theta and its path delays are not negative, whatever else happens, the filtered offset of
      its association is within half the delay of each sample that is kept. */
  lemma {:induction false} RunClockError(cs: seq<Config>, evs: seq<Event>, s: State, p: Assoc, theta: real, x: Sample)
    requires s == Run(Initial(cs), evs) && p in s.peers && x in p.samples
    requires ConstantOffset(Initial(cs), evs, p.addr, theta)
    ensures Abs(Best(p.samples).offset - theta) <= x.delay / 2.0
  {
    HonestFromStart(cs, evs, p.addr, theta);
    KeptSamplesError(s, p, theta, x);
  }

  lemma {:induction false} HonestFromStart(cs: seq<Config>, evs: seq<Event>, addr: NetAddr, theta: real)
    requires ConstantOffset(Initial(cs), evs, addr, theta)
    ensures HonestPeer(Run(Initial(cs), evs), addr, theta)
  {
    InitialInv(cs);
    NoSamplesYet(cs);
    HonestRun(Initial(cs), evs, addr, theta);
  }

  lemma KeptSamplesError(s: State, p: Assoc, theta: real, x: Sample)
    requires p in s.peers && x in p.samples && HonestPeer(s, p.addr, theta)
    ensures Abs(Best(p.samples).offset - theta) <= x.delay / 2.0
  {
    FilteredError(theta, p.samples, x);
  }

  /** So all samples that it keeps are honest. */
  lemma {:induction false} KeptSamplesHonest(cs: seq<Config>, evs: seq<Event>, s: State, p: Assoc, theta: real)
    requires s == Run(Initial(cs), evs) && p in s.peers && ConstantOffset(Initial(cs), evs, p.addr, theta)
    ensures forall x :: x in p.samples ==> Honest(theta, x)
  {
    HonestFromStart(cs, evs, p.addr, theta);
  }
}
