/** What a response does to the association it is for, and what the reachability register says:
    it holds the outcomes of the last eight polls or periods, in every run. */
module Outcomes {
  import opened Wrappers
  import opened Sums
  import opened Timers
  import opened ClockFilters
  import opened Engine
  import opened EngineInvariants
  import opened Ticks

  // ---------- Responses ----------

  predicate SentTo(r: Pending, d: Response) {
    r.destination == d.source && r.wireT1 == d.originate && r.expectedMode == Server
  }

  /** Request k is the first that the response can be for. */
  ghost predicate FirstFor(s: State, d: Response, k: nat) {
    k < |s.pending| && SentTo(s.pending[k], d) && forall l :: 0 <= l < k ==> !SentTo(s.pending[l], d)
  }

  lemma {:induction false} FirstIsFound(s: State, d: Response)
    ensures forall k: nat :: FirstFor(s, d, k) ==> FindPending(s.pending, d) == Some(k)
    ensures (forall k :: 0 <= k < |s.pending| ==> !SentTo(s.pending[k], d)) ==> FindPending(s.pending, d) == None
  {
    var m := FindPending(s.pending, d);
    forall k: nat | FirstFor(s, d, k) ensures m == Some(k) {
      assert Matches(s.pending[k], d);
      assert m.Some? && Matches(s.pending[m.value], d) && SentTo(s.pending[m.value], d);
    }
  }

  /** A response to no outstanding request changes nothing. */
  lemma UnsolicitedIgnored(s: State, d: Response)
    requires forall k :: 0 <= k < |s.pending| ==> !SentTo(s.pending[k], d)
    ensures Respond(s, d) == s
  {
    FirstIsFound(s, d);
  }

  /** The offset computed from the response is at most 1000000 seconds. */
  predicate Sane(r: Pending, d: Response) {
    -1000000.0 <= Measure(r, d).0 <= 1000000.0
  }

  /** What a response does: unless it repeats the one answered last, it consumes its request. It adds a
      sample to the association exactly if the server is synchronized (stratum 1 to 15) and the
      offset is sane; if the stratum is 0 or at least 16 it counts as a missed answer instead. */
  lemma {:induction false} ResponseEffect(s: State, d: Response, k: nat)
    requires Basic(s, []) && FirstFor(s, d, k)
    ensures var r, t := s.pending[k], Respond(s, d);
            var i := r.peer;
            && i < |s.peers| == |t.peers|
            && (forall j :: 0 <= j < |s.peers| && j != i ==> t.peers[j] == s.peers[j])
            && (s.peers[i].originate == r.fullT1 ==> t == s)
            && (s.peers[i].originate != r.fullT1 ==> t.pending == s.pending[..k] + s.pending[k + 1..])
            && (t.peers[i].originate != s.peers[i].originate <==>
                s.peers[i].originate != r.fullT1 && 1 <= d.stratum <= 15 && Sane(r, d))
            && (t.peers[i].originate != s.peers[i].originate ==>
                  && t.peers[i].originate == r.fullT1
                  && t.peers[i].reach == (s.peers[i].reach << 1) | 1
                  && t.peers[i].samples == Recent([SampleFrom(s.peers[i], r, d)] + s.peers[i].samples))
            && (t.peers[i].originate == s.peers[i].originate ==>
                  t.peers[i] == s.peers[i].(reach := t.peers[i].reach))
            && (s.peers[i].originate != r.fullT1 && (d.stratum == 0 || d.stratum >= 16) ==>
                  t.peers[i].reach == s.peers[i].reach << 1)
            && (s.peers[i].originate != r.fullT1 && 1 <= d.stratum <= 15 && !Sane(r, d) ==> t.peers == s.peers)
  {
    FirstIsFound(s, d);
    MatchedPeer(s, d, k);
    RespondShape(s, d);
    TakeSampleShape(s.peers[s.pending[k].peer], s.pending[k], d);
  }

  // ---------- The reachability register ----------

  function Mask(k: nat): bv8
    requires k < 8
  {
    if k == 0 then 1 else if k == 1 then 2 else if k == 2 then 4 else if k == 3 then 8
    else if k == 4 then 16 else if k == 5 then 32 else if k == 6 then 64 else 128
  }

  predicate Bit(r: bv8, k: nat)
    requires k < 8
  {
    r & Mask(k) != 0
  }

  /** The register holds the last eight of the outcomes h, newest in bit 0. */
  ghost predicate Records(r: bv8, h: seq<bool>) {
    forall k :: 0 <= k < 8 ==> Bit(r, k) == (k < |h| && h[k])
  }

  /** After a miss bit k + 1 is the old bit k, and bit 0 is clear; after an answer bit 0 is set. */
  lemma Shifted(r: bv8, k: nat)
    requires k < 7
    ensures Bit(r << 1, k + 1) == Bit(r, k) == Bit((r << 1) | 1, k + 1)
    ensures !Bit(r << 1, 0) && Bit((r << 1) | 1, 0)
  {
    assert (r << 1) & 2 != 0 <==> r & 1 != 0;
    assert (r << 1) & 4 != 0 <==> r & 2 != 0;
    assert (r << 1) & 8 != 0 <==> r & 4 != 0;
    assert (r << 1) & 16 != 0 <==> r & 8 != 0;
    assert (r << 1) & 32 != 0 <==> r & 16 != 0;
    assert (r << 1) & 64 != 0 <==> r & 32 != 0;
    assert (r << 1) & 128 != 0 <==> r & 64 != 0;
  }

  lemma {:induction false} OutcomeRecorded(r: bv8, h: seq<bool>)
    requires Records(r, h)
    ensures Records(r << 1, [false] + h) && Records((r << 1) | 1, [true] + h)
  {
    forall k | 0 <= k < 8
      ensures Bit(r << 1, k) == (k < |[false] + h| && ([false] + h)[k])
      ensures Bit((r << 1) | 1, k) == (k < |[true] + h| && ([true] + h)[k])
    {
      Shifted(r, if k == 0 then 0 else k - 1);
    }
  }

  lemma {:induction false} NothingRecorded()
    ensures Records(0, [])
  {
    assert forall k :: 0 <= k < 8 ==> 0 & Mask(k) == 0;
  }

  /** The register is zero exactly if none of the last eight outcomes was a success. */
  lemma {:induction false} ReachableExactly(r: bv8, h: seq<bool>)
    requires Records(r, h)
    ensures r != 0 <==> exists k :: 0 <= k < 8 && k < |h| && h[k]
  {
    if r == 0 {
      assert forall k :: 0 <= k < 8 ==> !Bit(r, k);
    } else {
      SomeBit(r);
    }
  }

  lemma SomeBit(r: bv8)
    requires r != 0
    ensures exists k :: 0 <= k < 8 && Bit(r, k)
  {
    assert Bit(r, 0) || Bit(r, 1) || Bit(r, 2) || Bit(r, 3) || Bit(r, 4) || Bit(r, 5) || Bit(r, 6) || Bit(r, 7);
  }

  // ---------- Over runs ----------

  function Missed(n: nat): (r: seq<bool>)
    ensures |r| == n
  {
    seq(n, _ => false)
  }

  /** How many reachability periods end with the events. */
  function Periods(evs: seq<TimerEvent>): nat {
    if evs == [] then 0 else Periods(evs[..|evs|-1]) + if evs[|evs|-1].Reachability? then 1 else 0
  }

  /** The outcomes that one event adds for association i, newest first: a miss for each period that
      ends, a miss for an answer from an unsynchronized server, a success for a usable answer. */
  function OutcomesOf(s: State, ev: Event, i: nat): seq<bool> {
    if i >= |s.peers| then [] else
      match ev
      case Tick(now) => Missed(Periods(Fired(s.timers, now.seconds)))
      case ServerResponse(d) =>
        var m := FindPending(s.pending, d);
        if m.None? || s.pending[m.value].peer != i || s.pending[m.value].fullT1 == s.peers[i].originate then []
        else if d.stratum == 0 || d.stratum >= 16 then [false]
        else if Sane(s.pending[m.value], d) then [true]
        else []
      case Passive(_) => []
  }

  function Outcomes(s: State, evs: seq<Event>, i: nat): seq<bool> {
    if evs == [] then [] else
      var init := evs[..|evs|-1];
      OutcomesOf(Run(s, init), evs[|evs|-1], i) + Outcomes(s, init, i)
  }

  lemma {:induction false} FireAllRecords(s: State, evs: seq<TimerEvent>, now: Timestamp, i: nat, h: seq<bool>)
    requires i < |s.peers| && Records(s.peers[i].reach, h)
    ensures var t := FireAll(s, evs, now); |t.peers| == |s.peers| && Records(t.peers[i].reach, Missed(Periods(evs)) + h)
  {
    if evs == [] {
      assert Missed(0) + h == h;
    } else {
      var init := evs[..|evs|-1];
      FireAllRecords(s, init, now, i, h);
      var mid := FireAll(s, init, now);
      OutcomeRecorded(mid.peers[i].reach, Missed(Periods(init)) + h);
      assert [false] + (Missed(Periods(init)) + h) == Missed(Periods(init) + 1) + h;
    }
  }

  lemma {:induction false} ResponseReach(s: State, d: Response, i: nat)
    requires Basic(s, []) && i < |s.peers|
    ensures i < |Respond(s, d).peers|
    ensures var o, r := OutcomesOf(s, ServerResponse(d), i), s.peers[i].reach;
            || (o == [] && Respond(s, d).peers[i].reach == r)
            || (o == [false] && Respond(s, d).peers[i].reach == r << 1)
            || (o == [true] && Respond(s, d).peers[i].reach == (r << 1) | 1)
  {
    var m := FindPending(s.pending, d);
    if m.Some? {
      assert FirstFor(s, d, m.value);
      ResponseEffect(s, d, m.value);
    }
  }

  lemma {:induction false} RespondRecords(s: State, d: Response, i: nat, h: seq<bool>)
    requires Basic(s, []) && i < |s.peers| && Records(s.peers[i].reach, h)
    ensures i < |Respond(s, d).peers|
    ensures Records(Respond(s, d).peers[i].reach, OutcomesOf(s, ServerResponse(d), i) + h)
  {
    ResponseReach(s, d, i);
    OutcomeRecorded(s.peers[i].reach, h);
    assert [] + h == h;
  }

  lemma {:induction false} StepRecords(s: State, ev: Event, i: nat, h: seq<bool>)
    requires Basic(s, []) && i < |s.peers| && Records(s.peers[i].reach, h)
    ensures i < |Step(s, ev).peers| && Records(Step(s, ev).peers[i].reach, OutcomesOf(s, ev, i) + h)
  {
    match ev {
      case Tick(now) =>
        FireAllRecords(Popped(s, now.seconds), Fired(s.timers, now.seconds), now, i, h);
      case ServerResponse(d) =>
        RespondRecords(s, d, i, h);
      case Passive(_) =>
        assert [] + h == h;
    }
  }

  /** What joins has answered nothing. */
  lemma {:induction false} JoinedReach(s: State, ev: Event, i: nat)
    requires Basic(s, []) && |s.peers| <= i < |Step(s, ev).peers|
    ensures Step(s, ev).peers[i].reach == 0
  {
    match ev {
      case Tick(now) => TickBasic(s, now);
      case ServerResponse(d) => RespondLines(s, d);
      case Passive(_) =>
    }
  }

  lemma {:induction false} StepGrows(s: State, ev: Event)
    requires Basic(s, [])
    ensures |s.peers| <= |Step(s, ev).peers|
  {
    match ev {
      case Tick(now) => TickBasic(s, now);
      case ServerResponse(d) => RespondLines(s, d);
      case Passive(_) =>
    }
  }

  lemma {:induction false} NoOutcomesYet(s: State, evs: seq<Event>, i: nat)
    requires Basic(s, []) && i >= |Run(s, evs).peers|
    ensures Outcomes(s, evs, i) == [] && i >= |s.peers|
  {
    if evs != [] {
      var init := evs[..|evs|-1];
      RunBasic(s, init);
      StepGrows(Run(s, init), evs[|evs|-1]);
      NoOutcomesYet(s, init, i);
    }
  }

  /** In every run the register of an association holds the last eight outcomes, newest in bit 0:
      those of the run, then those it held before. */
  lemma {:induction false} RegisterRefines(s: State, evs: seq<Event>, i: nat, h: seq<bool>)
    requires Basic(s, []) && i < |Run(s, evs).peers|
    requires if i < |s.peers| then Records(s.peers[i].reach, h) else h == []
    ensures Records(Run(s, evs).peers[i].reach, Outcomes(s, evs, i) + h)
  {
    if evs == [] {
      assert [] + h == h;
    } else {
      var init := evs[..|evs|-1];
      if i < |Run(s, init).peers| {
        RegisterRefines(s, init, i, h);
        OneMore(s, init, evs[|evs|-1], i, h);
      } else {
        NewRegister(s, init, evs[|evs|-1], i);
      }
      assert init + [evs[|evs|-1]] == evs;
    }
  }

  lemma {:induction false} RunMore(s: State, init: seq<Event>, ev: Event, i: nat)
    ensures Run(s, init + [ev]) == Step(Run(s, init), ev)
    ensures Outcomes(s, init + [ev], i) == OutcomesOf(Run(s, init), ev, i) + Outcomes(s, init, i)
  {
    assert (init + [ev])[..|init|] == init;
  }

  lemma Regrouped(a: seq<bool>, b: seq<bool>, c: seq<bool>)
    ensures a + (b + c) == a + b + c
  {
  }

  lemma {:induction false} OneMore(s: State, init: seq<Event>, ev: Event, i: nat, h: seq<bool>)
    requires Basic(s, []) && i < |Run(s, init).peers|
    requires Records(Run(s, init).peers[i].reach, Outcomes(s, init, i) + h)
    ensures i < |Run(s, init + [ev]).peers|
    ensures Records(Run(s, init + [ev]).peers[i].reach, Outcomes(s, init + [ev], i) + h)
  {
    RunMore(s, init, ev, i);
    RunBasic(s, init);
    StepRecords(Run(s, init), ev, i, Outcomes(s, init, i) + h);
    Regrouped(OutcomesOf(Run(s, init), ev, i), Outcomes(s, init, i), h);
  }

  lemma {:induction false} NewRegister(s: State, init: seq<Event>, ev: Event, i: nat)
    requires Basic(s, []) && |Run(s, init).peers| <= i < |Run(s, init + [ev]).peers|
    ensures i >= |s.peers| && Outcomes(s, init + [ev], i) == []
    ensures Records(Run(s, init + [ev]).peers[i].reach, [])
  {
    RunMore(s, init, ev, i);
    RunBasic(s, init);
    JoinedReach(Run(s, init), ev, i);
    NoOutcomesYet(s, init, i);
    NothingRecorded();
  }

  lemma {:induction false} ConfiguredReach(cs: seq<Config>)
    ensures forall i :: 0 <= i < |ConfigureAll(cs).peers| ==> ConfigureAll(cs).peers[i].reach == 0
  {
    if cs != [] {
      ConfiguredReach(cs[..|cs|-1]);
    }
  }

  /** In every run of every configuration an association is reachable exactly if one of its last
      eight outcomes was a success. */
  lemma {:induction false} ReachableOverRun(cs: seq<Config>, evs: seq<Event>, i: nat)
    requires i < |Run(Initial(cs), evs).peers|
    ensures var h := Outcomes(Initial(cs), evs, i);
            && Records(Run(Initial(cs), evs).peers[i].reach, h)
            && (Run(Initial(cs), evs).peers[i].reach != 0 <==> exists k :: 0 <= k < 8 && k < |h| && h[k])
  {
    InitialInv(cs);
    ConfiguredReach(cs);
    NothingRecorded();
    var h := Outcomes(Initial(cs), evs, i);
    RegisterRefines(Initial(cs), evs, i, []);
    assert h + [] == h;
    ReachableExactly(Run(Initial(cs), evs).peers[i].reach, h);
  }

  // ---------- Periods ----------

  /** The queue holds exactly one timer for the event, and it repeats at the given interval. */
  ghost predicate Repeats(timers: seq<TimerEntry>, ev: TimerEvent, interval: nat) {
    && Sum(Counting(HasEvent(Is(ev))), timers) == 1
    && forall e :: e in timers && e.event == ev ==> e.interval == interval
  }

  lemma {:induction false} NoneExpires(timers: seq<TimerEntry>, ev: TimerEvent, interval: nat, now: int)
    requires Repeats(timers, ev, interval) && interval > 0
    ensures Sum(Counting(ExpiringWith(Is(ev), now)), timers) == 0
  {
    SumZero(Counting(ExpiringWith(Is(ev), now)), timers);
  }

  lemma {:induction false} PopRepeats(timers: seq<TimerEntry>, ev: TimerEvent, interval: nat, now: int)
    requires Repeats(timers, ev, interval) && interval > 0
    ensures Repeats(Remaining(timers, now), ev, interval)
  {
    NoneExpires(timers, ev, interval, now);
    PopConserves(timers, now, Is(ev));
    forall e | e in Remaining(timers, now) && e.event == ev ensures e.interval == interval {
      RemainingOrigin(timers, now, e);
    }
  }

  lemma {:induction false} PollAdded(timers: seq<TimerEntry>, e: TimerEntry, ev: TimerEvent, interval: nat)
    requires Repeats(timers, ev, interval) && e.event.Poll? && !ev.Poll?
    ensures Repeats(timers + [e], ev, interval)
  {
    SumSnoc(Counting(HasEvent(Is(ev))), timers, e);
  }

  lemma {:induction false} FireAllRepeats(s: State, evs: seq<TimerEvent>, now: Timestamp, ev: TimerEvent, interval: nat)
    requires Repeats(s.timers, ev, interval) && !ev.Poll?
    ensures Repeats(FireAll(s, evs, now).timers, ev, interval)
  {
    if evs != [] {
      var init, last := evs[..|evs|-1], evs[|evs|-1];
      var mid := FireAll(s, init, now);
      FireAllRepeats(s, init, now, ev, interval);
      if last.Poll? && last.peer < |mid.peers| {
        PollAdded(mid.timers, TimerEntry(last, now.seconds + Interval(mid.peers[last.peer].hpoll), 0), ev, interval);
      }
    }
  }

  lemma {:induction false} MobilizeRepeats(s: State, t: State, ev: TimerEvent, interval: nat)
    requires Repeats(s.timers, ev, interval) && !ev.Poll?
    requires t.timers == s.timers || t.timers == s.timers + [TimerEntry(Poll(|s.peers|), 0, 0)]
    ensures Repeats(t.timers, ev, interval)
  {
    if t.timers != s.timers {
      PollAdded(s.timers, TimerEntry(Poll(|s.peers|), 0, 0), ev, interval);
    }
  }

  lemma {:induction false} StepRepeats(s: State, step: Event, ev: TimerEvent, interval: nat)
    requires Basic(s, []) && Repeats(s.timers, ev, interval) && !ev.Poll? && interval > 0
    ensures Repeats(Step(s, step).timers, ev, interval)
  {
    match step {
      case Tick(now) =>
        PopRepeats(s.timers, ev, interval, now.seconds);
        FireAllRepeats(Popped(s, now.seconds), Fired(s.timers, now.seconds), now, ev, interval);
      case ServerResponse(d) =>
        RespondLines(s, d);
      case Passive(_) =>
        MobilizeRepeats(s, Step(s, step), ev, interval);
    }
  }

  lemma {:induction false} RunRepeats(s: State, evs: seq<Event>, ev: TimerEvent, interval: nat)
    requires Basic(s, []) && Repeats(s.timers, ev, interval) && !ev.Poll? && interval > 0
    ensures Repeats(Run(s, evs).timers, ev, interval)
  {
    if evs != [] {
      RunBasic(s, evs[..|evs|-1]);
      RunRepeats(s, evs[..|evs|-1], ev, interval);
      StepRepeats(Run(s, evs[..|evs|-1]), evs[|evs|-1], ev, interval);
    }
  }

  lemma {:induction false} ConfiguredPolls(cs: seq<Config>)
    ensures forall e :: e in ConfigureAll(cs).timers ==> e.event.Poll?
  {
    if cs != [] {
      ConfiguredPolls(cs[..|cs|-1]);
    }
  }

  lemma {:induction false} InitialRepeats(cs: seq<Config>, ev: TimerEvent, interval: nat)
    requires (ev, interval) in [(Housekeeping, 64), (Reachability, 64), (StatsWrite, 10)]
    ensures Repeats(Initial(cs).timers, ev, interval)
  {
    var w, base := Counting(HasEvent(Is(ev))), ConfigureAll(cs).timers;
    ConfiguredPolls(cs);
    SumZero(w, base);
    SumConcat(w, base, Periodic());
    var three := Periodic();
    assert three[..2][..1] == three[..1] && three[..1][..0] == [];
    assert three[..3] == three;
    SumPrefix(w, three, 0);
    SumPrefix(w, three, 1);
    SumPrefix(w, three, 2);
  }

  /** In every run housekeeping and the reachability period recur every 64 seconds and the
      statistics every 10: there is exactly one timer for each. */
  lemma {:induction false} PeriodicOverRun(cs: seq<Config>, evs: seq<Event>)
    ensures var timers := Run(Initial(cs), evs).timers;
            Repeats(timers, Housekeeping, 64) && Repeats(timers, Reachability, 64) && Repeats(timers, StatsWrite, 10)
  {
    InitialInv(cs);
    InitialRepeats(cs, Housekeeping, 64);
    InitialRepeats(cs, Reachability, 64);
    InitialRepeats(cs, StatsWrite, 10);
    RunRepeats(Initial(cs), evs, Housekeeping, 64);
    RunRepeats(Initial(cs), evs, Reachability, 64);
    RunRepeats(Initial(cs), evs, StatsWrite, 10);
  }

  lemma {:induction false} PeriodsCounted(evs: seq<TimerEvent>)
    ensures Periods(evs) == Sum(CountingEvents(Is(Reachability)), evs)
  {
    if evs != [] {
      PeriodsCounted(evs[..|evs|-1]);
    }
  }

  lemma DueWithIs(e: TimerEntry, now: int)
    ensures Counting(DueWith(Is(Reachability), now))(e) == if e.event == Reachability && e.due <= now then 1 else 0
  {
    assert IsDue(e, now) == (e.due <= now);
  }

  /** So a tick ends at most one period, and it does so exactly if the timer is due. */
  lemma {:induction false} OnePeriodATick(timers: seq<TimerEntry>, now: int)
    requires Repeats(timers, Reachability, 64)
    ensures Periods(Fired(timers, now)) <= 1
    ensures Periods(Fired(timers, now)) == 1 <==> exists e :: e in timers && e.event == Reachability && e.due <= now
  {
    PopConserves(timers, now, Is(Reachability));
    PeriodsCounted(Fired(timers, now));
    var w := Counting(DueWith(Is(Reachability), now));
    SumLe(w, Counting(HasEvent(Is(Reachability))), timers);
    SumNonNegative(w, timers);
    forall e: TimerEntry ensures w(e) == if e.event == Reachability && e.due <= now then 1 else 0 {
      DueWithIs(e, now);
    }
    if forall e :: e in timers && e.event == Reachability ==> e.due > now {
      SumZero(w, timers);
    }
  }
}
