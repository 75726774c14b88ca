/** Exact conditions on a configuration under which runs of the engine accept a replayed response,
    repeat a timestamp, or take a response for a duplicate, with the runs that do so. */
module ReplayRuns {
  import opened Wrappers
  import opened Sums
  import opened Timers
  import opened Associds
  import opened Engine
  import opened EngineInvariants
  import opened Ticks
  import opened Replays
  import opened Configurations
  import opened IncreasingTicks
  import opened Climbing

  // ---------- Replays in a run ----------

  /** After the events `before` the response d is accepted, and after the events `after` a
      response that repeats it is accepted again. */
  ghost predicate ReplayAccepted(cs: seq<Config>, before: seq<Event>, d: Response, after: seq<Event>, d': Response) {
    var s := Run(Initial(cs), before);
    && InEra(before) && InEra(after) && Repeats(d, d')
    && Judge(s, d) == Accepted && Judge(Run(Respond(s, d), after), d') == Accepted
  }

  /** Some run within an era accepts a replay. */
  ghost predicate AcceptsReplay(cs: seq<Config>) {
    exists before, d, after, d' :: ReplayAccepted(cs, before, d, after, d')
  }

  /** The same, with ticks at increasing times. */
  ghost predicate ReplayAcceptedLater(cs: seq<Config>, before: seq<Event>, d: Response, after: seq<Event>,
      d': Response) {
    && ReplayAccepted(cs, before, d, after, d')
    && Increasing(START, before) && Increasing(LastTick(START, before), after)
  }

  ghost predicate AcceptsReplayLater(cs: seq<Config>) {
    exists before, d, after, d' :: ReplayAcceptedLater(cs, before, d, after, d')
  }

  /** If lines that expect server responses have distinct addresses and steady exponents, no
      run accepts a replay. */
  lemma NoReplayAccepted(cs: seq<Config>, before: seq<Event>, d: Response, after: seq<Event>, d': Response)
    requires DistinctServers(cs) && SteadyServers(cs)
    ensures !ReplayAccepted(cs, before, d, after, d')
  {
    if ReplayAccepted(cs, before, d, after, d') {
      InitialInv(cs);
      ConfiguredSole(cs);
      ConfiguredRegular(cs);
      RunKeeps(Initial(cs), before);
      RunSole(Initial(cs), before);
      RunRegular(Initial(cs), before);
      ReplayIgnored(Run(Initial(cs), before), d, after, d');
    }
  }

  lemma {:induction false} NothingSentYet(cs: seq<Config>)
    ensures ConfigureAll(cs).pending == []
    ensures forall i :: 0 <= i < |ConfigureAll(cs).peers| ==> ConfigureAll(cs).peers[i].originate == ZERO
  {
    if cs != [] {
      NothingSentYet(cs[..|cs|-1]);
      match cs[|cs|-1] {
        case Remote(_, _, _, _, _) =>
        case Refclock(_) =>
      }
    }
  }

  lemma InitialFresh(cs: seq<Config>)
    ensures Fresh(Initial(cs), START)
  {
    NothingSentYet(cs);
  }

  /** With ticks at increasing times distinct addresses suffice, whatever the exponents. */
  lemma NoReplayAcceptedLater(cs: seq<Config>, before: seq<Event>, d: Response, after: seq<Event>, d': Response)
    requires DistinctServers(cs)
    ensures !ReplayAcceptedLater(cs, before, d, after, d')
  {
    if ReplayAcceptedLater(cs, before, d, after, d') {
      InitialInv(cs);
      InitialFresh(cs);
      ConfiguredSole(cs);
      RunBasic(Initial(cs), before);
      RunSole(Initial(cs), before);
      RunFresh(Initial(cs), before, START);
      ReplayIgnoredLater(Run(Initial(cs), before), LastTick(START, before), d, after, d');
    }
  }

  // ---------- Two lines at one address ----------

  /** A tick with nothing outstanding leaves the requests it sends, one to a peer. */
  lemma TickFromEmpty(s: State, now: Timestamp)
    requires Basic(s, []) && s.pending == [] && |s.peers| <= MAX_PENDING
    ensures var t := TickStep(s, now);
            t.pending == Sent(s, now) && OneEach(t.pending) && SameButReach(s.peers, t.peers)
  {
    TickSends(s, now);
    assert [] + Sent(s, now) == Sent(s, now);
  }

  /** The queue after the first tick holds the request of every polled line, once. */
  lemma FirstTick(s: State, cs: seq<Config>)
    requires |cs| <= MAX_PENDING && Basic(s, []) && Configured(s, cs) && Fresh(s, START)
    ensures var t := TickStep(s, FIRST);
            && OneEach(t.pending) && Fresh(t, FIRST) && Basic(t, [])
            && (forall k :: 0 <= k < |cs| && cs[k].Remote? ==> RequestTo(Lines(cs)[k], k, FIRST) in t.pending)
  {
    TickBasic(s, FIRST);
    TickFromEmpty(s, FIRST);
    TickFresh(s, FIRST, START);
    forall k: nat | k < |cs| && cs[k].Remote? ensures RequestTo(Lines(cs)[k], k, FIRST) in Sent(s, FIRST) {
      TickAsks(s, FIRST, k, 0);
    }
  }

  lemma StaysQueued(q: seq<Pending>, f: nat, r: Pending)
    requires OneEach(q) && f < |q| && r in q && r.peer != q[f].peer
    ensures r in RemoveAt(q, f)
  {
    RemoveAtMember(q, f, r);
  }

  lemma TakesIt(s: State, addr: NetAddr, r: Pending)
    requires Basic(s, []) && Fresh(s, FIRST) && r in s.pending && Matches(r, Prompt(addr, FIRST))
    ensures Judge(s, Prompt(addr, FIRST)) == Accepted
  {
    var x :| 0 <= x < |s.pending| && s.pending[x] == r;
    MatchFound(s.pending, Prompt(addr, FIRST), x);
    FreshAccepts(s, addr, FIRST);
  }

  /** Of two requests that a response matches one takes the response, the other its replay. */
  lemma TwoTakers(s: State, addr: NetAddr, r: Pending, r': Pending)
    requires Basic(s, []) && Fresh(s, FIRST) && OneEach(s.pending)
    requires r in s.pending && r' in s.pending && r.peer != r'.peer
    requires Matches(r, Prompt(addr, FIRST)) && Matches(r', Prompt(addr, FIRST))
    ensures var d := Prompt(addr, FIRST); Judge(s, d) == Accepted && Judge(Respond(s, d), d) == Accepted
  {
    var d := Prompt(addr, FIRST);
    TakesIt(s, addr, r);
    var f := FindPending(s.pending, d).value;
    var other := if s.pending[f].peer == r.peer then r' else r;
    RespondShape(s, d);
    RespondBasic(s, d);
    RespondFresh(s, d, FIRST);
    StaysQueued(s.pending, f, other);
    TakesIt(Respond(s, d), addr, other);
  }

  lemma LineMatches(cs: seq<Config>, k: nat, now: Timestamp)
    requires k < |cs| && Expects(cs[k])
    ensures Matches(RequestTo(Lines(cs)[k], k, now), Prompt(cs[k].addr, now))
  {
  }

  lemma AfterFirstTick(cs: seq<Config>, d: Response)
    requires var s := TickStep(Initial(cs), FIRST); Judge(s, d) == Accepted && Judge(Respond(s, d), d) == Accepted
    ensures ReplayAcceptedLater(cs, [Tick(FIRST)], d, [], d)
  {
    RunOne(Initial(cs), [], Tick(FIRST));
    assert [] + [Tick(FIRST)] == [Tick(FIRST)] && [Tick(FIRST)][..0] == [];
  }

  lemma SharedAddressReplay(cs: seq<Config>, i: nat, j: nat)
    requires |cs| <= MAX_PENDING && i < j < |cs| && Expects(cs[i]) && Expects(cs[j]) && cs[i].addr == cs[j].addr
    ensures var d := Prompt(cs[i].addr, FIRST); ReplayAcceptedLater(cs, [Tick(FIRST)], d, [], d)
  {
    InitialLines(cs);
    InitialFresh(cs);
    FirstTick(Initial(cs), cs);
    LineMatches(cs, i, FIRST);
    LineMatches(cs, j, FIRST);
    TwoTakers(TickStep(Initial(cs), FIRST), cs[i].addr,
      RequestTo(Lines(cs)[i], i, FIRST), RequestTo(Lines(cs)[j], j, FIRST));
    AfterFirstTick(cs, Prompt(cs[i].addr, FIRST));
  }

  // ---------- Two requests with one timestamp ----------

  /** Requests r and r' to peer k are outstanding, at x and y, and no other. */
  ghost predicate TwoAsked(s: State, k: nat, r: Pending, r': Pending, x: nat, y: nat) {
    && x < y < |s.pending| && s.pending[x] == r && s.pending[y] == r'
    && (forall z :: 0 <= z < |s.pending| && s.pending[z].peer == k ==> z == x || z == y)
  }

  lemma PairInLatest(a: seq<Pending>, b: seq<Pending>, k: nat, r: Pending, x: nat) returns (x': nat, y: nat)
    requires x < |a| && (forall y :: 0 <= y < |a| && a[y].peer == k ==> y == x)
    requires |a| - x + |b| <= MAX_PENDING && OneEach(b) && r in b && r.peer == k
    ensures x' < y < |Latest(a + b)| && Latest(a + b)[x'] == a[x] && Latest(a + b)[y] == r
    ensures forall z :: 0 <= z < |Latest(a + b)| && Latest(a + b)[z].peer == k ==> z == x' || z == y
  {
    var z := LatestSplit(a, b);
    var m :| 0 <= m < |b| && b[m] == r;
    x', y := x - z, |a| - z + m;
  }

  /** A second poll while the first request is outstanding, in a queue that holds two rounds. */
  lemma AskAgain(s: State, cs: seq<Config>, k: nat, now: Timestamp, x: nat, h: U8, due: nat, next: Timestamp)
    returns (x': nat, y: nat)
    requires Asked(s, cs, k, now, x) && |s.pending| - x <= |cs| && 2 * |cs| <= MAX_PENDING
    requires Level(s, k, h, due) && due <= next.seconds
    ensures var t := TickStep(s, next);
            && Lined(t, cs) && t.peers[k] == s.peers[k].(reach := t.peers[k].reach)
            && TwoAsked(t, k, RequestTo(s.peers[k], k, now), RequestTo(s.peers[k], k, next), x', y)
  {
    TickBasic(s, next);
    TickSends(s, next);
    TickAsks(s, next, k, due);
    x', y := PairInLatest(s.pending, Sent(s, next), k, RequestTo(s.peers[k], k, next), x);
  }

  /** With interval zero the peer is polled twice if the clock repeats its reading. */
  lemma PolledTwice(s: State, cs: seq<Config>, k: nat, evs: seq<Event>, t: State, h: U8, due: nat)
    returns (more: seq<Event>, x: nat, y: nat)
    requires 2 * |cs| <= MAX_PENDING && Leads(s, evs, t) && Ready(t, cs, k, h, due) && Interval(h) == 0
    ensures InEra(more) && SameT1(Run(s, more), k, x, y)
  {
    var now := Timestamp(due, 1);
    more := evs + [Tick(now)] + [Tick(now)];
    var x1 := AskWaiting(t, cs, k, h, due, now, due);
    x, y := AskAgain(TickStep(t, now), cs, k, now, x1, h, due, now);
    LeadsOn(s, evs, t, Tick(now));
    LeadsOn(s, evs + [Tick(now)], TickStep(t, now), Tick(now));
  }

  ghost predicate RepeatsT1(cs: seq<Config>, k: nat, evs: seq<Event>, x: nat, y: nat) {
    InEra(evs) && SameT1(Run(Initial(cs), evs), k, x, y)
  }

  /** Over all runs within an era, the association of a polled line can have two outstanding
      requests with the same timestamp exactly if the line is not steady. */
  lemma SameT1Exactly(cs: seq<Config>, k: nat)
    requires 2 * |cs| <= MAX_PENDING && k < |cs| && cs[k].Remote?
    ensures (exists evs, x, y :: RepeatsT1(cs, k, evs, x, y)) <==> !Steady(cs[k])
  {
    if Steady(cs[k]) {
      forall evs, x, y ensures !RepeatsT1(cs, k, evs, x, y) {
        SteadyLineDistinct(cs, k, evs, x, y);
      }
    } else {
      var evs, x, y := UnsteadyLineRepeats(cs, k);
    }
  }

  /** The requests of a steady line always have distinct timestamps. */
  lemma SteadyLineDistinct(cs: seq<Config>, k: nat, evs: seq<Event>, x: nat, y: nat)
    requires |cs| <= LAST && k < |cs| && Steady(cs[k])
    ensures !RepeatsT1(cs, k, evs, x, y)
  {
    if RepeatsT1(cs, k, evs, x, y) {
      SteadyLineRegular(cs, k, evs);
      DistinctWireTimes(Run(Initial(cs), evs), x, y);
    }
  }

  lemma {:induction false} SteadyLineRegular(cs: seq<Config>, k: nat, evs: seq<Event>)
    requires |cs| <= LAST && k < |cs| && Steady(cs[k]) && InEra(evs)
    ensures var s := Run(Initial(cs), evs); Inv(s) && k < |s.peers| && Regular(s.peers[k])
  {
    InitialLines(cs);
    RunKeeps(Initial(cs), evs);
    LineRegular(Initial(cs), cs, k);
    StaysRegular(Initial(cs), k, evs);
  }

  lemma LineRegular(s: State, cs: seq<Config>, k: nat)
    requires Configured(s, cs) && k < |cs| && Steady(cs[k])
    ensures k < |s.peers| && Regular(s.peers[k])
  {
  }

  lemma {:induction false} StaysRegular(s: State, k: nat, evs: seq<Event>)
    requires Basic(s, []) && k < |s.peers| && Regular(s.peers[k])
    ensures k < |Run(s, evs).peers| && Regular(Run(s, evs).peers[k])
  {
    RunLines(s, evs);
  }

  lemma UnsteadyLineRepeats(cs: seq<Config>, k: nat) returns (evs: seq<Event>, x: nat, y: nat)
    requires 2 * |cs| <= MAX_PENDING && k < |cs| && cs[k].Remote? && !Steady(cs[k])
    ensures RepeatsT1(cs, k, evs, x, y)
  {
    InitialLines(cs);
    ReadyFirst(Initial(cs), cs, k);
    evs, x, y := RepeatFrom(Initial(cs), cs, k);
  }

  lemma RepeatFrom(s: State, cs: seq<Config>, k: nat) returns (evs: seq<Event>, x: nat, y: nat)
    requires 2 * |cs| <= MAX_PENDING && k < |cs| && cs[k].Remote? && !Steady(cs[k])
    requires Ready(s, cs, k, cs[k].minpoll, 0)
    ensures InEra(evs) && SameT1(Run(s, evs), k, x, y)
  {
    var before, t, h, due := [], s, cs[k].minpoll, 0;
    if Expects(cs[k]) {
      before, t, h, due := ReachZeroInterval(s, cs, k);
    } else {
      IntervalPositive(h);
    }
    evs, x, y := PolledTwice(s, cs, k, before, t, h, due);
  }

  /** If ticks come at increasing times, no association ever repeats a timestamp, whatever the
      configuration. */
  lemma {:induction false} DistinctT1Later(cs: seq<Config>, evs: seq<Event>, i: nat, x: nat, y: nat)
    requires Increasing(START, evs)
    ensures !SameT1(Run(Initial(cs), evs), i, x, y)
  {
    InitialInv(cs);
    InitialFresh(cs);
    RunBasic(Initial(cs), evs);
    RunFresh(Initial(cs), evs, START);
    FreshDistinctT1(Run(Initial(cs), evs), LastTick(START, evs), i, x, y);
  }

  /** Without the bound of one era even a steady line's association repeats a timestamp: one
      second more than an era lets the same wire time come round. */
  lemma EraIsTight(cs: seq<Config>, k: nat) returns (x: nat, y: nat)
    requires 2 * |cs| <= MAX_PENDING && k < |cs| && cs[k].Remote?
    ensures SameT1(Run(Initial(cs), [Tick(FIRST), Tick(Timestamp(ERA, 1))]), k, x, y)
  {
    InitialLines(cs);
    ReadyFirst(Initial(cs), cs, k);
    x, y := AroundTheEra(Initial(cs), cs, k, cs[k].minpoll);
  }

  lemma AroundTheEra(s: State, cs: seq<Config>, k: nat, h: U8) returns (x: nat, y: nat)
    requires 2 * |cs| <= MAX_PENDING && Waiting(s, cs, k, h, 0)
    ensures SameT1(Run(s, [Tick(FIRST), Tick(Timestamp(ERA, 1))]), k, x, y)
  {
    IntervalBound(h);
    var x1 := AskWaiting(s, cs, k, h, 0, FIRST, Interval(h));
    x, y := AskAgain(TickStep(s, FIRST), cs, k, FIRST, x1, h, Interval(h), Timestamp(ERA, 1));
    RunOne(s, [], Tick(FIRST));
    RunOne(s, [Tick(FIRST)], Tick(Timestamp(ERA, 1)));
    assert [] + [Tick(FIRST)] == [Tick(FIRST)];
    assert [Tick(FIRST)] + [Tick(Timestamp(ERA, 1))] == [Tick(FIRST), Tick(Timestamp(ERA, 1))];
  }

  // ---------- The duplicate test ----------

  /** A response is taken for a duplicate although the request it matches was not sent at zero. */
  ghost predicate TakenForDuplicate(s: State, d: Response) {
    Judge(s, d) == Duplicate && s.pending[FindPending(s.pending, d).value].fullT1 != ZERO
  }

  ghost predicate TakesForDuplicate(cs: seq<Config>, evs: seq<Event>, d: Response) {
    InEra(evs) && TakenForDuplicate(Run(Initial(cs), evs), d)
  }

  lemma RegularNotDuplicate(s: State, d: Response)
    requires Inv(s) && RegularServers(s.peers)
    ensures !TakenForDuplicate(s, d)
  {
    if TakenForDuplicate(s, d) {
      MatchedPeer(s, d, FindPending(s.pending, d).value);
      DuplicateAtZero(s, d);
    }
  }

  lemma NoDuplicate(cs: seq<Config>, evs: seq<Event>, d: Response)
    requires SteadyServers(cs)
    ensures !TakesForDuplicate(cs, evs, d)
  {
    if TakesForDuplicate(cs, evs, d) {
      InitialInv(cs);
      ConfiguredRegular(cs);
      RunKeeps(Initial(cs), evs);
      RunRegular(Initial(cs), evs);
      RegularNotDuplicate(Run(Initial(cs), evs), d);
    }
  }

  /** Peer k has answered the time `now` and is asked again at that time: answer after answer is
      taken by others at its address, until one is taken for a duplicate. */
  lemma {:induction false} DuplicateFound(s: State, cs: seq<Config>, k: nat, now: Timestamp, x: nat)
    returns (evs: seq<Event>)
    requires Asked(s, cs, k, now, x) && Expects(cs[k]) && s.peers[k].originate == now
    requires AllInEra(s.pending) && 0 <= now.seconds < ERA && now != ZERO
    ensures InEra(evs) && TakenForDuplicate(Run(s, evs), Prompt(cs[k].addr, now))
    decreases x
  {
    var d := Prompt(cs[k].addr, now);
    AskedMatches(s, cs, k, now, x);
    MatchFound(s.pending, d, x);
    var m := FindPending(s.pending, d).value;
    MatchTime(s, cs[k].addr, now, m);
    PromptJudged(s, cs[k].addr, now);
    evs := [];
    if Judge(s, d) == Accepted {
      var x' := StillAsked(s, cs, k, now, x, d);
      AnswerOther(s, d, k);
      var more := DuplicateFound(Respond(s, d), cs, k, now, x');
      RunCons(s, ServerResponse(d), more);
      evs := [ServerResponse(d)] + more;
    }
  }

  lemma TickInEra(s: State, now: Timestamp, last: Timestamp)
    requires Basic(s, []) && Fresh(s, last) && 0 <= now.seconds < ERA
    ensures AllInEra(TickStep(s, now).pending)
  {
    var z := TickOrigin(s, now);
    var t := TickStep(s, now);
    forall x | 0 <= x < |t.pending| ensures 0 <= t.pending[x].fullT1.seconds < ERA {
      if z + x < |s.pending| {
        assert Recorded(s.peers, s.pending[z + x], last);
      } else {
        SentAt(s, now, z + x - |s.pending|);
      }
    }
  }

  /** Poll, answer, and poll again in the same second. */
  lemma AnsweredAndAsked(t: State, cs: seq<Config>, k: nat, h: U8, due: nat) returns (evs: seq<Event>)
    requires |cs| <= MAX_PENDING && k < |cs| && Expects(cs[k]) && Ready(t, cs, k, h, due) && Interval(h) == 0
    ensures InEra(evs) && TakenForDuplicate(Run(t, evs), Prompt(cs[k].addr, Timestamp(due, 1)))
  {
    var now, u, h' := Timestamp(due, 1), Polled(t, cs[k].addr, due), NextExponent(h, cs[k].maxpoll);
    PollAndAnswer(t, cs, k, h, due, u, h', due);
    var x := AskWaiting(u, cs, k, h', due, now, due + Interval(h'));
    TickInEra(u, now, now);
    var last := DuplicateFound(TickStep(u, now), cs, k, now, x);
    var first := PolledRun(t, cs[k].addr, due);
    RunOne(t, first, Tick(now));
    RunAppend(t, first + [Tick(now)], last);
    evs := first + [Tick(now)] + last;
  }

  lemma DuplicateFrom(s: State, cs: seq<Config>, k: nat) returns (evs: seq<Event>, d: Response)
    requires |cs| <= MAX_PENDING && k < |cs| && Expects(cs[k]) && !Steady(cs[k])
    requires Ready(s, cs, k, cs[k].minpoll, 0)
    ensures InEra(evs) && TakenForDuplicate(Run(s, evs), d)
  {
    var before, t, h, due := ReachZeroInterval(s, cs, k);
    var more := AnsweredAndAsked(t, cs, k, h, due);
    RunAppend(s, before, more);
    evs, d := before + more, Prompt(cs[k].addr, Timestamp(due, 1));
  }

  /** Over all runs within an era, a response to a request that was not sent at zero can be taken
      for a duplicate exactly if some line that expects server responses is not steady. */
  lemma DuplicateExactly(cs: seq<Config>)
    requires |cs| <= MAX_PENDING
    ensures (exists evs, d :: TakesForDuplicate(cs, evs, d)) <==> !SteadyServers(cs)
  {
    if SteadyServers(cs) {
      forall evs, d ensures !TakesForDuplicate(cs, evs, d) {
        NoDuplicate(cs, evs, d);
      }
    } else {
      var k: nat :| k < |cs| && Expects(cs[k]) && !Steady(cs[k]);
      InitialLines(cs);
      ReadyFirst(Initial(cs), cs, k);
      var evs, d := DuplicateFrom(Initial(cs), cs, k);
      assert TakesForDuplicate(cs, evs, d);
    }
  }

  /** If ticks come at increasing times, no response to a request that was not sent at zero is
      ever taken for a duplicate, whatever the configuration. */
  lemma {:induction false} NoDuplicateLater(cs: seq<Config>, evs: seq<Event>, d: Response)
    requires Increasing(START, evs)
    ensures !TakenForDuplicate(Run(Initial(cs), evs), d)
  {
    InitialInv(cs);
    InitialFresh(cs);
    RunFresh(Initial(cs), evs, START);
    FreshNotDuplicate(Run(Initial(cs), evs), LastTick(START, evs), d);
  }

  lemma FreshNotDuplicate(s: State, last: Timestamp, d: Response)
    requires Fresh(s, last)
    ensures !TakenForDuplicate(s, d)
  {
    assert forall x :: 0 <= x < |s.pending| ==> Recorded(s.peers, s.pending[x], last);
  }

  // ---------- A replay because the clock repeats a reading ----------

  /** With distinct addresses a match of the answer to peer k is a request of peer k. */
  lemma PromptIsFor(s: State, cs: seq<Config>, k: nat, now: Timestamp, x: nat)
    requires Lined(s, cs) && k < |cs| && DistinctServers(cs) && Expects(cs[k])
    requires x < |s.pending| && s.pending[x] == RequestTo(s.peers[k], k, now)
    ensures var m := FindPending(s.pending, Prompt(cs[k].addr, now));
            && m.Some? && s.pending[m.value].peer == k && s.pending[m.value].wireT1 == ToWire(now)
  {
    var d := Prompt(cs[k].addr, now);
    LinesSole(cs, s.peers);
    assert Lines(cs)[k] == Line(cs[k], k + 1);
    MatchFound(s.pending, d, x);
    MatchIsOf(s, d, FindPending(s.pending, d).value, k);
  }

  /** With requests of two times outstanding and the earlier time answered already, an answer
      to the later makes room for a replay of the earlier. */
  lemma LaterThenEarlier(s: State, cs: seq<Config>, k: nat, now: Timestamp, next: Timestamp, x: nat, y: nat)
    requires Lined(s, cs) && k < |cs| && DistinctServers(cs) && Expects(cs[k])
    requires TwoAsked(s, k, RequestTo(s.peers[k], k, now), RequestTo(s.peers[k], k, next), x, y)
    requires 0 <= now.seconds < ERA && 0 <= next.seconds < ERA && ToWire(now) != ToWire(next)
    requires s.peers[k].originate == now
    ensures Judge(Respond(s, Prompt(cs[k].addr, next)), Prompt(cs[k].addr, now)) == Accepted
  {
    var d := Prompt(cs[k].addr, next);
    PromptIsFor(s, cs, k, next, y);
    PromptJudged(s, cs[k].addr, next);
    TakeSampleShape(s.peers[k], s.pending[y], d);
    var t := Respond(s, d);
    RespondShape(s, d);
    RespondLined(s, cs, d);
    assert t.pending[x] == s.pending[x] == RequestTo(t.peers[k], k, now);
    PromptIsFor(t, cs, k, now, x);
    PromptJudged(t, cs[k].addr, now);
  }

  lemma {:induction false} RunThree(s: State, a: Event, b: Event, c: Event)
    ensures Run(s, [a, b, c]) == Step(Step(Step(s, a), b), c)
  {
    RunOne(s, [], a);
    RunOne(s, [a], b);
    RunOne(s, [a, b], c);
    assert [] + [a] == [a] && [a] + [b] == [a, b] && [a, b] + [c] == [a, b, c];
  }

  lemma PollPoll(u: State, cs: seq<Config>, k: nat, h: U8, due: nat, now: Timestamp, next: Timestamp)
    requires DistinctServers(cs) && 2 * |cs| <= MAX_PENDING && k < |cs| && Expects(cs[k])
    requires Waiting(u, cs, k, h, due) && u.peers[k].originate == now
    requires now == Timestamp(due, 1) && next == Timestamp(due + Interval(h), 2) && next.seconds < ERA
    ensures Judge(Respond(TickStep(TickStep(u, now), next), Prompt(cs[k].addr, next)), Prompt(cs[k].addr, now))
        == Accepted
  {
    var x := AskWaiting(u, cs, k, h, due, now, next.seconds);
    var v := TickStep(u, now);
    var x', y := AskAgain(v, cs, k, now, x, h, next.seconds, next);
    LaterThenEarlier(TickStep(v, next), cs, k, now, next, x', y);
  }

  /** Poll, answer, poll again in the same second, poll later, answer that: now the first answer
      is accepted again. */
  lemma ZeroIntervalReplay(t: State, cs: seq<Config>, k: nat, h: U8, due: nat)
    returns (d: Response, after: seq<Event>)
    requires DistinctServers(cs) && 2 * |cs| <= MAX_PENDING && k < |cs| && Expects(cs[k]) && AtZero(t, cs, k, h, due)
    ensures InEra(after)
    ensures var u := TickStep(t, Timestamp(due, 1));
            Judge(u, d) == Accepted && Judge(Run(Respond(u, d), after), d) == Accepted
  {
    var addr, h' := cs[k].addr, NextExponent(h, cs[k].maxpoll);
    var now, next := Timestamp(due, 1), Timestamp(due + Interval(h'), 2);
    var u, v := TickStep(t, now), Polled(t, addr, due);
    d := Prompt(addr, now);
    PollAndAnswer(t, cs, k, h, due, v, h', due);
    PollPoll(v, cs, k, h', due, now, next);
    var more := DrainedRun(Respond(u, d), d);
    var rest := [Tick(now), Tick(next), ServerResponse(Prompt(addr, next))];
    RunAppend(Respond(u, d), more, rest);
    RunThree(v, Tick(now), Tick(next), ServerResponse(Prompt(addr, next)));
    after := more + rest;
  }

  lemma UnsteadyServerReplay(cs: seq<Config>, k: nat) returns (before: seq<Event>, d: Response, after: seq<Event>)
    requires DistinctServers(cs) && 2 * |cs| <= MAX_PENDING && k < |cs| && Expects(cs[k]) && !Steady(cs[k])
    ensures ReplayAccepted(cs, before, d, after, d)
  {
    InitialLines(cs);
    ReadyFirst(Initial(cs), cs, k);
    before, d, after := ReplayFrom(Initial(cs), cs, k);
  }

  lemma ReplayFrom(s: State, cs: seq<Config>, k: nat) returns (before: seq<Event>, d: Response, after: seq<Event>)
    requires DistinctServers(cs) && 2 * |cs| <= MAX_PENDING && k < |cs| && Expects(cs[k]) && !Steady(cs[k])
    requires Ready(s, cs, k, cs[k].minpoll, 0)
    ensures InEra(before) && InEra(after)
    ensures var u := Run(s, before); Judge(u, d) == Accepted && Judge(Run(Respond(u, d), after), d) == Accepted
  {
    var evs, t, h, due := ReachZeroInterval(s, cs, k);
    before := evs + [Tick(Timestamp(due, 1))];
    RunOne(s, evs, Tick(Timestamp(due, 1)));
    d, after := ZeroIntervalReplay(t, cs, k, h, due);
  }

  // ---------- The exact conditions ----------

  /** Over runs with ticks at increasing times: some run accepts a replay exactly if two lines that
      expect server responses share an address. */
  lemma ReplayLaterExactly(cs: seq<Config>)
    requires |cs| <= MAX_PENDING
    ensures AcceptsReplayLater(cs) <==> !DistinctServers(cs)
  {
    if DistinctServers(cs) {
      forall before, d, after, d' ensures !ReplayAcceptedLater(cs, before, d, after, d') {
        NoReplayAcceptedLater(cs, before, d, after, d');
      }
    } else {
      var d := SomeSharedReplay(cs);
    }
  }

  /** Over all runs within an era, for steady server lines: some run accepts a replay exactly if two
      lines that expect server responses share an address. */
  lemma ReplayIffSharedAddress(cs: seq<Config>)
    requires |cs| <= MAX_PENDING && SteadyServers(cs)
    ensures AcceptsReplay(cs) <==> !DistinctServers(cs)
  {
    if DistinctServers(cs) {
      forall before, d, after, d' ensures !ReplayAccepted(cs, before, d, after, d') {
        NoReplayAccepted(cs, before, d, after, d');
      }
    } else {
      var d := SomeSharedReplay(cs);
      assert ReplayAccepted(cs, [Tick(FIRST)], d, [], d);
    }
  }

  /** Over all runs within an era, also if the clock repeats a reading or steps back: some run
      accepts a replay exactly if two lines that expect server responses share an address or one
      of them is not steady. */
  lemma ReplayExactly(cs: seq<Config>)
    requires 2 * |cs| <= MAX_PENDING
    ensures AcceptsReplay(cs) <==> !(DistinctServers(cs) && SteadyServers(cs))
  {
    if !DistinctServers(cs) {
      var d := SomeSharedReplay(cs);
      assert ReplayAccepted(cs, [Tick(FIRST)], d, [], d);
    } else if SteadyServers(cs) {
      ReplayIffSharedAddress(cs);
    } else {
      var k: nat :| k < |cs| && Expects(cs[k]) && !Steady(cs[k]);
      var before, d, after := UnsteadyServerReplay(cs, k);
    }
  }

  lemma SomeSharedReplay(cs: seq<Config>) returns (d: Response)
    requires |cs| <= MAX_PENDING && !DistinctServers(cs)
    ensures ReplayAcceptedLater(cs, [Tick(FIRST)], d, [], d)
  {
    var i, j :| 0 <= i < j < |cs| && Expects(cs[i]) && Expects(cs[j]) && cs[i].addr == cs[j].addr;
    SharedAddressReplay(cs, i, j);
    d := Prompt(cs[i].addr, FIRST);
  }
}
