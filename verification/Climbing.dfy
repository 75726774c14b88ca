/** Runs that drive a poll exponent up by answering every request at once. */
module Climbing {
  import opened Wrappers
  import opened Sums
  import opened Timers
  import opened ClockFilters
  import opened Associds
  import opened Engine
  import opened EngineInvariants
  import opened Ticks
  import opened Replays
  import opened Configurations
  import opened IncreasingTicks

  // ---------- Runs ----------

  lemma {:induction false} RunOne(s: State, evs: seq<Event>, a: Event)
    ensures Run(s, evs + [a]) == Step(Run(s, evs), a)
  {
    assert (evs + [a])[..|evs|] == evs;
  }

  /** The run leads from s to t within the era. */
  ghost predicate Leads(s: State, evs: seq<Event>, t: State) {
    InEra(evs) && Run(s, evs) == t
  }

  lemma LeadsOn(s: State, evs: seq<Event>, t: State, a: Event)
    requires Leads(s, evs, t) && WithinEra(a)
    ensures Leads(s, evs + [a], Step(t, a))
  {
    RunOne(s, evs, a);
  }

  lemma {:induction false} RunAppend(s: State, a: seq<Event>, b: seq<Event>)
    ensures Run(s, a + b) == Run(Run(s, a), b)
  {
    RunSplit(s, a + b, |a|);
    assert (a + b)[..|a|] == a && (a + b)[|a|..] == b;
  }

  lemma {:induction false} RunSplit(s: State, evs: seq<Event>, n: nat)
    requires n <= |evs|
    ensures Run(s, evs) == Run(Run(s, evs[..n]), evs[n..])
    decreases |evs|
  {
    if n == |evs| {
      assert evs[..n] == evs && evs[n..] == [];
    } else {
      var init, rest := evs[..|evs|-1], evs[n..];
      RunSplit(s, init, n);
      assert init[..n] == evs[..n] && rest[..|rest|-1] == init[n..] && rest[|rest|-1] == evs[|evs|-1];
    }
  }

  lemma {:induction false} LeadsThen(s: State, a: seq<Event>, t: State, b: seq<Event>, u: State)
    requires Leads(s, a, t) && Leads(t, b, u)
    ensures Leads(s, a + b, u)
  {
    RunAppend(s, a, b);
  }

  lemma {:induction false} RunCons(s: State, a: Event, b: seq<Event>)
    ensures Run(s, [a] + b) == Run(Step(s, a), b)
  {
    RunOne(s, [], a);
    assert [] + [a] == [a];
    RunAppend(s, [a], b);
  }

  // ---------- An immediate answer ----------

  const FIRST := Timestamp(0, 1)

  /** The answer of a server whose clock agrees, without any delay. */
  function Prompt(addr: NetAddr, t: Timestamp): Response {
    Response(addr, ToWire(t), ToWire(t), ToWire(t), 1, 0.0, t)
  }

  /** An answer to a request sent at its time is taken, unless the peer has answered that time. */
  lemma PromptJudged(s: State, addr: NetAddr, t: Timestamp)
    requires 0 <= t.seconds < ERA && FindPending(s.pending, Prompt(addr, t)).Some?
    requires var req := s.pending[FindPending(s.pending, Prompt(addr, t)).value];
             req.peer < |s.peers| && req.fullT1 == t
    ensures var req := s.pending[FindPending(s.pending, Prompt(addr, t)).value];
            && Judge(s, Prompt(addr, t)) == (if s.peers[req.peer].originate == t then Duplicate else Accepted)
            && Measure(req, Prompt(addr, t)) == (0.0, 0.0)
  {
    assert FromWire(ToWire(t)) == t;
  }

  lemma {:induction false} MatchFound(q: seq<Pending>, d: Response, x: nat)
    requires x < |q| && Matches(q[x], d)
    ensures FindPending(q, d).Some? && FindPending(q, d).value <= x
  {
  }

  /** Requests lie in the era, so that a match was sent at the time of the answer. */
  ghost predicate AllInEra(q: seq<Pending>) {
    forall x :: 0 <= x < |q| ==> 0 <= q[x].fullT1.seconds < ERA
  }

  lemma MatchTime(s: State, addr: NetAddr, t: Timestamp, x: nat)
    requires Basic(s, []) && AllInEra(s.pending) && 0 <= t.seconds < ERA
    requires x < |s.pending| && Matches(s.pending[x], Prompt(addr, t))
    ensures s.pending[x].fullT1 == t && s.pending[x].peer < |s.peers|
  {
    MatchedPeer(s, Prompt(addr, t), x);
    SameWireTime(s.pending[x].fullT1, t);
  }

  /** After ticks at increasing times every match is taken. */
  lemma FreshAccepts(s: State, addr: NetAddr, t: Timestamp)
    requires Basic(s, []) && Fresh(s, t) && 0 <= t.seconds < ERA && t != ZERO
    requires FindPending(s.pending, Prompt(addr, t)).Some?
    ensures Judge(s, Prompt(addr, t)) == Accepted
    ensures Measure(s.pending[FindPending(s.pending, Prompt(addr, t)).value], Prompt(addr, t)) == (0.0, 0.0)
    ensures s.pending[FindPending(s.pending, Prompt(addr, t)).value].fullT1 == t
  {
    var m := FindPending(s.pending, Prompt(addr, t)).value;
    assert forall x :: 0 <= x < |s.pending| ==> Recorded(s.peers, s.pending[x], t);
    MatchTime(s, addr, t, m);
    PromptJudged(s, addr, t);
  }

  /** The state after the same response has come again and again, until it is not accepted. */
  function Drained(s: State, d: Response): State
    decreases |s.pending|
  {
    if Judge(s, d) == Accepted then Drained(Respond(s, d), d) else s
  }

  lemma {:induction false} DrainedRun(s: State, d: Response) returns (evs: seq<Event>)
    ensures InEra(evs) && (forall ev :: ev in evs ==> ev == ServerResponse(d)) && Run(s, evs) == Drained(s, d)
    decreases |s.pending|
  {
    evs := [];
    if Judge(s, d) == Accepted {
      var more := DrainedRun(Respond(s, d), d);
      RunCons(s, ServerResponse(d), more);
      evs := [ServerResponse(d)] + more;
    }
  }

  // ---------- One peer, polled and answered ----------

  /** The associations are those of the configuration, as far as it determines them. */
  ghost predicate Lined(s: State, cs: seq<Config>) {
    Basic(s, []) && |s.peers| == |cs| && SameLines(Lines(cs), s.peers)
  }

  /** Peer k is at exponent h, all its offsets are zero, and its next poll is due at `due`. */
  ghost predicate Level(s: State, k: nat, h: U8, due: nat) {
    && k < |s.peers| && s.peers[k].hpoll == h && TimerEntry(Poll(k), due, 0) in s.timers
    && (forall y :: y in s.peers[k].samples ==> y.offset == 0.0)
  }

  /** Every request to peer k has been consumed. */
  ghost predicate Free(q: seq<Pending>, k: nat) {
    forall x :: 0 <= x < |q| ==> q[x].peer != k
  }

  /** Polls that were all answered have brought peer k to exponent h; its next poll is due. */
  ghost predicate Waiting(s: State, cs: seq<Config>, k: nat, h: U8, due: nat) {
    Lined(s, cs) && k < |cs| && cs[k].Remote? && Level(s, k, h, due) && Free(s.pending, k)
  }

  /** Peer k has one request outstanding, sent at `now`. */
  ghost predicate Asked(s: State, cs: seq<Config>, k: nat, now: Timestamp, x: nat) {
    && Lined(s, cs) && k < |cs| && x < |s.pending|
    && s.pending[x] == RequestTo(s.peers[k], k, now)
    && (forall y :: 0 <= y < |s.pending| && s.pending[y].peer == k ==> y == x)
  }

  lemma LoneInLatest(a: seq<Pending>, b: seq<Pending>, k: nat, r: Pending) returns (x: nat)
    requires Free(a, k) && OneEach(b) && |b| <= MAX_PENDING && r in b && r.peer == k
    ensures x < |Latest(a + b)| <= x + |b| && Latest(a + b)[x] == r
    ensures forall y :: 0 <= y < |Latest(a + b)| && Latest(a + b)[y].peer == k ==> y == x
  {
    var z := LatestSplit(a, b);
    var y :| 0 <= y < |b| && b[y] == r;
    x := |a| - z + y;
  }

  lemma AskWaiting(s: State, cs: seq<Config>, k: nat, h: U8, due: nat, now: Timestamp, again: nat) returns (x: nat)
    requires Waiting(s, cs, k, h, due) && due <= now.seconds && |cs| <= MAX_PENDING
        && again == now.seconds + Interval(h)
    ensures var t := TickStep(s, now);
            && Asked(t, cs, k, now, x) && |t.pending| - x <= |cs|
            && t.peers[k] == s.peers[k].(reach := t.peers[k].reach) && Level(t, k, h, again)
  {
    TickBasic(s, now);
    TickSends(s, now);
    TickAsks(s, now, k, due);
    x := LoneInLatest(s.pending, Sent(s, now), k, RequestTo(s.peers[k], k, now));
  }

  lemma ZeroOffset(samples: seq<Sample>, x: Sample)
    requires x.offset == 0.0 && forall y :: y in samples ==> y.offset == 0.0
    ensures forall y :: y in Recent([x] + samples) ==> y.offset == 0.0
    ensures Best(Recent([x] + samples)).offset == 0.0
  {
    var r := Recent([x] + samples);
    assert forall y :: y in r ==> y == x || y in samples;
  }

  /** The exponent after an immediate answer. */
  function NextExponent(h: U8, maxpoll: U8): U8 { MinN((h + 1) % 256, maxpoll) }

  /** An immediate answer moves the exponent one up, or to the maximum. */
  lemma PromptTaken(p: Assoc, req: Pending, d: Response)
    requires p.burst == 0 && Measure(req, d).0 == 0.0 && forall y :: y in p.samples ==> y.offset == 0.0
    ensures var q := TakeSample(p, req, d);
            && q.hpoll == NextExponent(p.hpoll, p.maxpoll) && q.originate == req.fullT1
            && (forall y :: y in q.samples ==> y.offset == 0.0)
  {
    ReachSet(p.reach);
    ZeroOffset(p.samples, SampleFrom(p, req, d));
  }

  lemma RespondLined(s: State, cs: seq<Config>, d: Response)
    requires Lined(s, cs)
    ensures Lined(Respond(s, d), cs) && Respond(s, d).timers == s.timers
  {
    RespondBasic(s, d);
    RespondLines(s, d);
  }

  /** The request of peer k is the one that is answered. */
  lemma AnswerOwn(s: State, cs: seq<Config>, k: nat, now: Timestamp, x: nat, h: U8, due: nat)
    requires Asked(s, cs, k, now, x) && cs[k].Remote? && Level(s, k, h, due)
    requires var d := Prompt(cs[k].addr, now);
             Judge(s, d) == Accepted && FindPending(s.pending, d) == Some(x) && Measure(s.pending[x], d) == (0.0, 0.0)
    ensures var t := Respond(s, Prompt(cs[k].addr, now));
            Waiting(t, cs, k, NextExponent(h, cs[k].maxpoll), due) && t.peers[k].originate == now
  {
    var d := Prompt(cs[k].addr, now);
    RespondLined(s, cs, d);
    AnswerLeaves(s, cs, k, now, x, d);
    assert Lines(cs)[k] == Line(cs[k], k + 1);
    PromptTaken(s.peers[k], s.pending[x], d);
  }

  lemma {:induction false} AnswerLeaves(s: State, cs: seq<Config>, k: nat, now: Timestamp, x: nat, d: Response)
    requires Asked(s, cs, k, now, x) && Judge(s, d) == Accepted && FindPending(s.pending, d) == Some(x)
    ensures var t := Respond(s, d);
            && k < |t.peers| && Free(t.pending, k) && t.timers == s.timers
            && t.peers[k] == TakeSample(s.peers[k], s.pending[x], d)
  {
    RespondShape(s, d);
  }

  /** Another request is answered: for peer k nothing changes. */
  lemma {:induction false} AnswerOther(s: State, d: Response, k: nat)
    requires Judge(s, d) == Accepted && s.pending[FindPending(s.pending, d).value].peer != k && k < |s.peers|
    ensures var m, t := FindPending(s.pending, d).value, Respond(s, d);
            k < |t.peers| && t.peers[k] == s.peers[k] && t.pending == RemoveAt(s.pending, m) && t.timers == s.timers
  {
    RespondShape(s, d);
  }

  lemma StillAsked(s: State, cs: seq<Config>, k: nat, now: Timestamp, x: nat, d: Response) returns (x': nat)
    requires Asked(s, cs, k, now, x) && Judge(s, d) == Accepted
    requires FindPending(s.pending, d).value < x
    ensures x' < x && Asked(Respond(s, d), cs, k, now, x') && Respond(s, d).peers[k] == s.peers[k]
    ensures Respond(s, d).timers == s.timers
  {
    var m := FindPending(s.pending, d).value;
    AnswerOther(s, d, k);
    RespondLined(s, cs, d);
    x' := x - 1;
    LoneAfterRemoval(s.pending, m, k, x);
  }

  lemma LoneAfterRemoval(q: seq<Pending>, m: nat, k: nat, x: nat)
    requires m < x < |q| && forall y :: 0 <= y < |q| && q[y].peer == k ==> y == x
    ensures RemoveAt(q, m)[x - 1] == q[x]
    ensures forall y :: 0 <= y < |q| - 1 && RemoveAt(q, m)[y].peer == k ==> y == x - 1
  {
    forall y | 0 <= y < |q| - 1 && RemoveAt(q, m)[y].peer == k ensures y == x - 1 {
      assert RemoveAt(q, m)[y] == q[if y < m then y else y + 1];
    }
  }

  /** Once peer k's request has been answered, answering the others leaves it as it is. */
  lemma {:induction false} DrainWaiting(s: State, cs: seq<Config>, k: nat, h: U8, due: nat, now: Timestamp, d: Response)
    requires Waiting(s, cs, k, h, due) && Fresh(s, now)
    ensures Waiting(Drained(s, d), cs, k, h, due) && Fresh(Drained(s, d), now)
    ensures Drained(s, d).peers[k] == s.peers[k]
    decreases |s.pending|
  {
    if Judge(s, d) == Accepted {
      AnswerOther(s, d, k);
      RespondLined(s, cs, d);
      RespondFresh(s, d, now);
      RemovedFree(s.pending, FindPending(s.pending, d).value, k);
      DrainWaiting(Respond(s, d), cs, k, h, due, now, d);
    }
  }

  lemma RemovedFree(q: seq<Pending>, m: nat, k: nat)
    requires Free(q, k) && m < |q|
    ensures Free(RemoveAt(q, m), k)
  {
  }

  /** The answers reach peer k, even if other associations at its address take some first. */
  lemma {:induction false} DrainAsked(s: State, cs: seq<Config>, k: nat, now: Timestamp, x: nat, h: U8, due: nat)
    requires Asked(s, cs, k, now, x) && Expects(cs[k]) && Level(s, k, h, due)
    requires Fresh(s, now) && 0 <= now.seconds < ERA && now != ZERO
    ensures var t := Drained(s, Prompt(cs[k].addr, now));
            && Waiting(t, cs, k, NextExponent(h, cs[k].maxpoll), due) && Fresh(t, now)
            && t.peers[k].originate == now
    ensures Judge(s, Prompt(cs[k].addr, now)) == Accepted
    decreases x
  {
    var d := Prompt(cs[k].addr, now);
    AskedMatches(s, cs, k, now, x);
    MatchFound(s.pending, d, x);
    FreshAccepts(s, cs[k].addr, now);
    RespondFresh(s, d, now);
    if FindPending(s.pending, d).value == x {
      AnswerOwn(s, cs, k, now, x, h, due);
      DrainWaiting(Respond(s, d), cs, k, NextExponent(h, cs[k].maxpoll), due, now, d);
    } else {
      var x' := StillAsked(s, cs, k, now, x, d);
      DrainAsked(Respond(s, d), cs, k, now, x', h, due);
    }
  }

  lemma AskedMatches(s: State, cs: seq<Config>, k: nat, now: Timestamp, x: nat)
    requires Asked(s, cs, k, now, x) && Expects(cs[k])
    ensures Matches(s.pending[x], Prompt(cs[k].addr, now))
  {
    assert Lines(cs)[k] == Line(cs[k], k + 1);
  }

  // ---------- Driving the poll exponent up ----------

  /** Peer k waits, and everything so far is earlier than its next poll. */
  ghost predicate Ready(s: State, cs: seq<Config>, k: nat, h: U8, due: nat) {
    due < ERA && Waiting(s, cs, k, h, due) && Fresh(s, Timestamp(due, 0))
  }

  /** A poll, answered at once. */
  function Polled(s: State, addr: NetAddr, due: nat): State {
    Drained(TickStep(s, Timestamp(due, 1)), Prompt(addr, Timestamp(due, 1)))
  }

  lemma PolledRun(s: State, addr: NetAddr, due: nat) returns (evs: seq<Event>)
    requires due < ERA
    ensures Leads(s, evs, Polled(s, addr, due))
  {
    var now := Timestamp(due, 1);
    var more := DrainedRun(TickStep(s, now), Prompt(addr, now));
    RunCons(s, Tick(now), more);
    evs := [Tick(now)] + more;
  }

  lemma PollAndAnswer(s: State, cs: seq<Config>, k: nat, h: U8, due: nat, t: State, h': U8, due': nat)
    requires |cs| <= MAX_PENDING && k < |cs| && Expects(cs[k]) && Ready(s, cs, k, h, due)
    requires t == Polled(s, cs[k].addr, due) && h' == NextExponent(h, cs[k].maxpoll) && due' == due + Interval(h)
    ensures Judge(TickStep(s, Timestamp(due, 1)), Prompt(cs[k].addr, Timestamp(due, 1))) == Accepted
    ensures Waiting(t, cs, k, h', due') && Fresh(t, Timestamp(due, 1)) && t.peers[k].originate == Timestamp(due, 1)
  {
    var now := Timestamp(due, 1);
    var x := AskWaiting(s, cs, k, h, due, now, due');
    TickFresh(s, now, Timestamp(due, 0));
    DrainAsked(TickStep(s, now), cs, k, now, x, h, due');
  }

  lemma FreshLater(s: State, a: Timestamp, b: Timestamp)
    requires Fresh(s, a) && Earlier(a, b)
    ensures Fresh(s, b)
  {
    assert forall x :: 0 <= x < |s.pending| ==> Recorded(s.peers, s.pending[x], a);
  }

  lemma PollReady(s: State, cs: seq<Config>, k: nat, h: U8, due: nat, t: State, h': U8, due': nat)
    requires |cs| <= MAX_PENDING && k < |cs| && Expects(cs[k]) && Ready(s, cs, k, h, due) && due < due' < ERA
    requires t == Polled(s, cs[k].addr, due) && h' == NextExponent(h, cs[k].maxpoll) && due' == due + Interval(h)
    ensures Ready(t, cs, k, h', due')
  {
    PollAndAnswer(s, cs, k, h, due, t, h', due');
    FreshLater(t, Timestamp(due, 1), Timestamp(due', 0));
  }

  /** The sum of the intervals of the exponents from `low` up to r within a block of 64. */
  function DueAt(block: nat, low: nat, r: nat): nat
    requires low <= r < 64 && 64 * block + r < 256
  {
    if r == low then 0 else DueAt(block, low, r - 1) + Interval(64 * block + r - 1)
  }

  /** Up to the first exponent that is not small it stays within the era. */
  lemma {:induction false} DueIs(block: nat, low: nat, r: nat)
    requires low <= r <= 32 && 64 * block + r < 256
    ensures DueAt(block, low, r) == Pow2(r) - Pow2(low)
    decreases r
  {
    if low < r {
      DueIs(block, low, r - 1);
      IntervalAt(block, r - 1);
    }
  }

  lemma DueStep(block: nat, low: nat, r: nat)
    requires low < r <= 32 && 64 * block + r < 256
    ensures DueAt(block, low, r - 1) < DueAt(block, low, r) < ERA
    ensures DueAt(block, low, r) == DueAt(block, low, r - 1) + Interval(64 * block + r - 1)
  {
    DueIs(block, low, r);
    IntervalAt(block, r - 1);
    Pow2At32();
    if r < 32 {
      Pow2Monotonic(r, 32);
    }
  }

  lemma ExponentStep(h: U8, maxpoll: U8)
    requires 0 < h <= maxpoll
    ensures NextExponent(h - 1, maxpoll) == h
  {
  }

  /** The state after a poll at each of the exponents from `low` up to r within a block. */
  function Climbed(s: State, addr: NetAddr, block: nat, low: nat, r: nat): State
    requires low <= r < 64 && 64 * block + r < 256
  {
    if r == low then s else Polled(Climbed(s, addr, block, low, r - 1), addr, DueAt(block, low, r - 1))
  }

  /** All this happens within one era. */
  lemma {:induction false} ClimbLeads(s: State, addr: NetAddr, block: nat, low: nat, r: nat) returns (evs: seq<Event>)
    requires low <= r <= 32 && 64 * block + r < 256
    ensures Leads(s, evs, Climbed(s, addr, block, low, r))
    decreases r
  {
    if r == low {
      evs := [];
    } else {
      var before := ClimbLeads(s, addr, block, low, r - 1);
      DueStep(block, low, r);
      evs := OneMorePoll(s, before, Climbed(s, addr, block, low, r - 1), addr, DueAt(block, low, r - 1));
    }
  }

  lemma OneMorePoll(s: State, before: seq<Event>, t: State, addr: NetAddr, due: nat) returns (evs: seq<Event>)
    requires Leads(s, before, t) && due < ERA
    ensures Leads(s, evs, Polled(t, addr, due))
  {
    var more := PolledRun(t, addr, due);
    LeadsThen(s, before, t, more, Polled(t, addr, due));
    evs := before + more;
  }

  /** And it drives the exponent up to r, up to the first that is not small. */
  lemma {:induction false} ClimbReady(s: State, cs: seq<Config>, k: nat, block: nat, low: nat, r: nat)
    requires |cs| <= MAX_PENDING && k < |cs| && Expects(cs[k])
    requires low <= r <= 32 && 64 * block + r <= cs[k].maxpoll && Ready(s, cs, k, 64 * block + low, 0)
    ensures Ready(Climbed(s, cs[k].addr, block, low, r), cs, k, 64 * block + r, DueAt(block, low, r))
    decreases r
  {
    if r > low {
      var h, due := 64 * block + r, DueAt(block, low, r - 1);
      ClimbReady(s, cs, k, block, low, r - 1);
      DueStep(block, low, r);
      ExponentStep(h, cs[k].maxpoll);
      PollReady(Climbed(s, cs[k].addr, block, low, r - 1), cs, k, h - 1, due,
        Climbed(s, cs[k].addr, block, low, r), h, DueAt(block, low, r));
    }
  }

  /** The peer waits at an exponent with interval zero, and the one after that leaves time. */
  ghost predicate AtZero(s: State, cs: seq<Config>, k: nat, h: U8, due: nat) {
    k < |cs| && cs[k].Remote? && Ready(s, cs, k, h, due) && Interval(h) == 0
    && due + Interval(NextExponent(h, cs[k].maxpoll)) < ERA
  }

  lemma IntervalBound(h: U8)
    ensures 2 * Interval(h) <= ERA
  {
    IntervalIs(h);
    if Small(h) {
      Pow2Monotonic(h % 64, 32);
      Pow2At32();
    }
  }

  /** A minimum that is small, with exponents within reach that are not: the first of them. */
  lemma FirstZero(minpoll: U8, maxpoll: U8) returns (block: nat, low: nat)
    requires Small(minpoll) && minpoll <= maxpoll && !Good(minpoll, maxpoll)
    ensures minpoll == 64 * block + low && low <= 31 && 64 * block + 32 <= maxpoll
    ensures Interval(64 * block + 32) == 0 && Interval(NextExponent(64 * block + 32, maxpoll)) == 0
  {
    block, low := minpoll / 64, minpoll % 64;
    BlockAbove(minpoll, maxpoll);
    IntervalAt(block, 32);
    IntervalAt(block, 33);
    NextAbove(64 * block + 32, maxpoll);
  }

  lemma NextAbove(h: U8, maxpoll: U8)
    requires h <= maxpoll && h < 255
    ensures NextExponent(h, maxpoll) == if maxpoll == h then h else h + 1
  {
  }

  lemma BlockAbove(minpoll: U8, maxpoll: U8)
    requires Small(minpoll) && minpoll <= maxpoll && !Good(minpoll, maxpoll)
    ensures minpoll % 64 <= 31 && 64 * (minpoll / 64) + 32 <= maxpoll && minpoll / 64 <= 3
  {
  }

  lemma MaximumBelow(minpoll: U8, maxpoll: U8)
    requires Small(minpoll) && !Small(maxpoll) && minpoll > maxpoll
    ensures 0 < Interval(minpoll) < ERA && NextExponent(minpoll, maxpoll) == maxpoll && Interval(maxpoll) == 0
    ensures Interval(minpoll) + Interval(NextExponent(maxpoll, maxpoll)) < ERA
  {
    IntervalPositive(minpoll);
    IntervalPositive(maxpoll);
    IntervalBound(minpoll);
    NextAbove(maxpoll, maxpoll);
    BelowNext(minpoll, maxpoll);
  }

  lemma BelowNext(h: U8, maxpoll: U8)
    requires maxpoll < h < 255
    ensures NextExponent(h, maxpoll) == maxpoll
  {
  }

  lemma ZeroAtMaximum(s: State, cs: seq<Config>, k: nat) returns (evs: seq<Event>, t: State)
    requires |cs| <= MAX_PENDING && k < |cs| && Expects(cs[k])
    requires Small(cs[k].minpoll) && !Small(cs[k].maxpoll) && cs[k].minpoll > cs[k].maxpoll
    requires Ready(s, cs, k, cs[k].minpoll, 0)
    ensures Leads(s, evs, t) && AtZero(t, cs, k, cs[k].maxpoll, Interval(cs[k].minpoll))
  {
    var addr, min, max := cs[k].addr, cs[k].minpoll, cs[k].maxpoll;
    MaximumBelow(min, max);
    t := Polled(s, addr, 0);
    evs := PolledRun(s, addr, 0);
    PollReady(s, cs, k, min, 0, t, max, Interval(min));
  }

  lemma ZeroAbove(s: State, cs: seq<Config>, k: nat) returns (evs: seq<Event>, t: State, h: U8, due: nat)
    requires |cs| <= MAX_PENDING && k < |cs| && Expects(cs[k])
    requires Small(cs[k].minpoll) && cs[k].minpoll <= cs[k].maxpoll && !Steady(cs[k])
    requires Ready(s, cs, k, cs[k].minpoll, 0)
    ensures Leads(s, evs, t) && AtZero(t, cs, k, h, due)
  {
    var block, low := FirstZero(cs[k].minpoll, cs[k].maxpoll);
    h, due, t := 64 * block + 32, DueAt(block, low, 32), Climbed(s, cs[k].addr, block, low, 32);
    evs := ClimbLeads(s, cs[k].addr, block, low, 32);
    ClimbReady(s, cs, k, block, low, 32);
  }

  /** A peer that expects server responses and is not steady can be brought to an exponent that
      gives interval zero: the minimum, the maximum if that is below the minimum and the first
      answer leads there, or the first above the minimum that is not small. */
  lemma ReachZeroInterval(s: State, cs: seq<Config>, k: nat) returns (evs: seq<Event>, t: State, h: U8, due: nat)
    requires |cs| <= MAX_PENDING && k < |cs| && Expects(cs[k]) && !Steady(cs[k])
    requires Ready(s, cs, k, cs[k].minpoll, 0)
    ensures Leads(s, evs, t) && AtZero(t, cs, k, h, due)
  {
    if !Small(cs[k].minpoll) {
      evs, t, h, due := [], s, cs[k].minpoll, 0;
      IntervalPositive(cs[k].minpoll);
      IntervalBound(NextExponent(cs[k].minpoll, cs[k].maxpoll));
    } else if cs[k].minpoll > cs[k].maxpoll {
      h, due := cs[k].maxpoll, Interval(cs[k].minpoll);
      evs, t := ZeroAtMaximum(s, cs, k);
    } else {
      evs, t, h, due := ZeroAbove(s, cs, k);
    }
  }

  lemma ReadyFirst(s: State, cs: seq<Config>, k: nat)
    requires Basic(s, []) && Configured(s, cs) && k < |cs| && cs[k].Remote?
    ensures Ready(s, cs, k, cs[k].minpoll, 0)
  {
  }
}
