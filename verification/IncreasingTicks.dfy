/** Runs whose ticks carry strictly increasing times: every request has its own timestamp, and
    a consumed response stays consumed, whatever the poll exponents. */
module IncreasingTicks {
  import opened Wrappers
  import opened Sums
  import opened Timers
  import opened Associds
  import opened Engine
  import opened EngineInvariants
  import opened Ticks
  import opened Replays
  import opened Configurations

  // ---------- Time ----------

  predicate Earlier(a: Timestamp, b: Timestamp) {
    a.seconds < b.seconds || (a.seconds == b.seconds && a.fraction < b.fraction)
  }

  /** Earlier than every time of the era. */
  const START := Timestamp(-1, 0)

  /** The time of the last tick, or `last` if there is none. */
  function LastTick(last: Timestamp, evs: seq<Event>): Timestamp {
    if evs == [] then last
    else
      var ev := evs[|evs|-1];
      if ev.Tick? then ev.now else LastTick(last, evs[..|evs|-1])
  }

  /** Ticks lie within the era and come later and later, all of them after `last`. */
  ghost predicate Increasing(last: Timestamp, evs: seq<Event>) {
    evs == [] ||
    var init, ev := evs[..|evs|-1], evs[|evs|-1];
    Increasing(last, init) && WithinEra(ev) && (ev.Tick? ==> Earlier(LastTick(last, init), ev.now))
  }

  // ---------- Every request has its own time ----------

  /** The request was sent within the era and not after `last`, and is not the one that its peer
      answered last (unless that was sent at time zero). */
  ghost predicate Recorded(ps: seq<Assoc>, r: Pending, last: Timestamp) {
    && 0 <= r.fullT1.seconds < ERA && !Earlier(last, r.fullT1)
    && r.peer < |ps| && (ps[r.peer].originate == ZERO || ps[r.peer].originate != r.fullT1)
  }

  /** Requests to one peer have different times. */
  ghost predicate DistinctTimes(q: seq<Pending>) {
    forall x, y :: 0 <= x < y < |q| && q[x].peer == q[y].peer ==> q[x].fullT1 != q[y].fullT1
  }

  ghost predicate AnsweredBy(ps: seq<Assoc>, last: Timestamp) {
    forall i :: 0 <= i < |ps| ==> ps[i].originate == ZERO || !Earlier(last, ps[i].originate)
  }

  /** After a tick at `last`. */
  ghost predicate Fresh(s: State, last: Timestamp) {
    && (forall x :: 0 <= x < |s.pending| ==> Recorded(s.peers, s.pending[x], last))
    && DistinctTimes(s.pending) && AnsweredBy(s.peers, last)
  }

  /** What is in the queue after a tick: something from before, or something just sent. */
  lemma TickOrigin(s: State, now: Timestamp) returns (z: nat)
    requires Basic(s, [])
    ensures z <= |s.pending| + |Sent(s, now)| && |TickStep(s, now).pending| == |s.pending| + |Sent(s, now)| - z
    ensures forall x :: 0 <= x < |TickStep(s, now).pending| ==>
              TickStep(s, now).pending[x] == (s.pending + Sent(s, now))[z + x]
  {
    TickSends(s, now);
    var n := |s.pending| + |Sent(s, now)|;
    z := if n <= MAX_PENDING then 0 else n - MAX_PENDING;
  }

  lemma TickRecorded(s: State, now: Timestamp, last: Timestamp, r: Pending)
    requires Basic(s, []) && Fresh(s, last) && Earlier(last, now) && 0 <= now.seconds < ERA
    requires r in s.pending || r in Sent(s, now)
    ensures Recorded(TickStep(s, now).peers, r, now)
    ensures r.fullT1 == now <==> r !in s.pending
  {
    TickSends(s, now);
    if r in s.pending {
      var x :| 0 <= x < |s.pending| && s.pending[x] == r;
      assert Recorded(s.peers, r, last);
    } else {
      var x :| 0 <= x < |Sent(s, now)| && Sent(s, now)[x] == r;
      SentAt(s, now, x);
    }
  }

  lemma TickDistinct(s: State, now: Timestamp, last: Timestamp, x: nat, y: nat)
    requires Basic(s, []) && Fresh(s, last) && Earlier(last, now) && 0 <= now.seconds < ERA
    requires var q := s.pending + Sent(s, now); x < y < |q| && q[x].peer == q[y].peer
    ensures var q := s.pending + Sent(s, now); q[x].fullT1 != q[y].fullT1
  {
    TickSends(s, now);
    var q, n := s.pending + Sent(s, now), |s.pending|;
    if y >= n {
      SentAt(s, now, y - n);
      assert x < n ==> Recorded(s.peers, s.pending[x], last);
    }
  }

  lemma TickFresh(s: State, now: Timestamp, last: Timestamp)
    requires Basic(s, []) && Fresh(s, last) && Earlier(last, now) && 0 <= now.seconds < ERA
    ensures Fresh(TickStep(s, now), now)
  {
    var t := TickStep(s, now);
    var z := TickOrigin(s, now);
    forall x | 0 <= x < |t.pending| ensures Recorded(t.peers, t.pending[x], now) {
      TickRecorded(s, now, last, t.pending[x]);
    }
    forall x, y | 0 <= x < y < |t.pending| && t.pending[x].peer == t.pending[y].peer
      ensures t.pending[x].fullT1 != t.pending[y].fullT1
    {
      TickDistinct(s, now, last, z + x, z + y);
    }
    TickAnswered(s, now, last);
  }

  lemma TickAnswered(s: State, now: Timestamp, last: Timestamp)
    requires Basic(s, []) && AnsweredBy(s.peers, last) && Earlier(last, now)
    ensures AnsweredBy(TickStep(s, now).peers, now)
  {
    TickSends(s, now);
  }

  lemma {:induction false} RespondRecorded(s: State, d: Response, last: Timestamp, l: nat)
    requires Basic(s, []) && Fresh(s, last) && l < |s.pending|
    requires Consumes(Judge(s, d)) ==> l != FindPending(s.pending, d).value
    ensures Recorded(Respond(s, d).peers, s.pending[l], last)
  {
    RespondShape(s, d);
    RespondLines(s, d);
    assert Recorded(s.peers, s.pending[l], last);
    if Judge(s, d) == Accepted {
      var m := FindPending(s.pending, d).value;
      TakeSampleShape(s.peers[s.pending[m].peer], s.pending[m], d);
      assert m < l || l < m;
    }
  }

  lemma RespondAnswers(s: State, d: Response, last: Timestamp, i: nat)
    requires Basic(s, []) && Fresh(s, last) && i < |s.peers|
    ensures i < |Respond(s, d).peers|
    ensures var p := Respond(s, d).peers[i]; p.originate == ZERO || !Earlier(last, p.originate)
  {
    RespondShape(s, d);
    if Judge(s, d) == Accepted {
      var m := FindPending(s.pending, d).value;
      TakeSampleShape(s.peers[s.pending[m].peer], s.pending[m], d);
      assert Recorded(s.peers, s.pending[m], last);
    }
  }

  lemma RespondFresh(s: State, d: Response, last: Timestamp)
    requires Basic(s, []) && Fresh(s, last)
    ensures Fresh(Respond(s, d), last)
  {
    var t := Respond(s, d);
    RespondLines(s, d);
    forall x | 0 <= x < |t.pending| ensures Recorded(t.peers, t.pending[x], last) {
      var l := RespondPending(s, d, x);
      RespondRecorded(s, d, last, l);
    }
    forall x, y | 0 <= x < y < |t.pending| && t.pending[x].peer == t.pending[y].peer
      ensures t.pending[x].fullT1 != t.pending[y].fullT1
    {
      var l := RespondPending(s, d, x);
      var m := RespondPending(s, d, y);
    }
    forall i | 0 <= i < |t.peers| ensures t.peers[i].originate == ZERO || !Earlier(last, t.peers[i].originate) {
      RespondAnswers(s, d, last, i);
    }
  }

  lemma PassiveFresh(s: State, source: NetAddr, last: Timestamp)
    requires Fresh(s, last)
    ensures Fresh(PassiveStep(s, source), last)
  {
    var t := PassiveStep(s, source);
    assert forall i :: 0 <= i < |t.peers| ==>
             if i < |s.peers| then t.peers[i] == s.peers[i] else t.peers[i].originate == ZERO;
    assert forall x :: 0 <= x < |s.pending| ==> Recorded(s.peers, s.pending[x], last);
  }

  lemma StepFresh(s: State, ev: Event, last: Timestamp)
    requires Basic(s, []) && Fresh(s, last) && WithinEra(ev) && (ev.Tick? ==> Earlier(last, ev.now))
    ensures Fresh(Step(s, ev), if ev.Tick? then ev.now else last)
  {
    match ev {
      case Tick(now) => TickFresh(s, now, last);
      case ServerResponse(d) => RespondFresh(s, d, last);
      case Passive(source) => PassiveFresh(s, source, last);
    }
  }

  lemma {:induction false} RunFresh(s: State, evs: seq<Event>, last: Timestamp)
    requires Basic(s, []) && Fresh(s, last) && Increasing(last, evs)
    ensures Fresh(Run(s, evs), LastTick(last, evs))
  {
    if evs != [] {
      var init := evs[..|evs|-1];
      RunFresh(s, init, last);
      RunBasic(s, init);
      StepFresh(Run(s, init), evs[|evs|-1], LastTick(last, init));
    }
  }

  lemma SameWireTime(a: Timestamp, b: Timestamp)
    requires 0 <= a.seconds < ERA && 0 <= b.seconds < ERA && ToWire(a) == ToWire(b)
    ensures a == b
  {
  }

  /** Two outstanding requests to one association carry the same wire timestamp. */
  ghost predicate SameT1(s: State, i: nat, x: nat, y: nat) {
    && x < y < |s.pending| && s.pending[x].peer == s.pending[y].peer == i
    && s.pending[x].wireT1 == s.pending[y].wireT1
  }

  lemma FreshDistinctT1(s: State, last: Timestamp, i: nat, x: nat, y: nat)
    requires Basic(s, []) && Fresh(s, last)
    ensures !SameT1(s, i, x, y)
  {
    if SameT1(s, i, x, y) {
      var a, b := s.pending[x], s.pending[y];
      assert RequestOk(s.peers, a) && RequestOk(s.peers, b);
      assert Recorded(s.peers, a, last) && Recorded(s.peers, b, last);
      SameWireTime(a.fullT1, b.fullT1);
    }
  }

  // ---------- Replays ----------

  /** No outstanding request matches the response, whose timestamp is that of a time t not after
      `last`. */
  ghost predicate Gone(s: State, d: Response, t: Timestamp, last: Timestamp) {
    && 0 <= t.seconds < ERA && ToWire(t) == d.originate && !Earlier(last, t)
    && (forall x :: 0 <= x < |s.pending| ==> !Matches(s.pending[x], d))
  }

  /** A response matches at most one outstanding request. */
  lemma FreshUniqueMatch(s: State, d: Response, last: Timestamp, k: nat, l: nat)
    requires Basic(s, []) && SoleServers(s.peers) && Fresh(s, last) && k < |s.pending| && l < |s.pending|
    requires Matches(s.pending[k], d) && Matches(s.pending[l], d)
    ensures k == l
  {
    MatchedPeer(s, d, k);
    MatchIsOf(s, d, l, s.pending[k].peer);
    if k < l {
      FreshDistinctT1(s, last, s.pending[k].peer, k, l);
    } else if l < k {
      FreshDistinctT1(s, last, s.pending[k].peer, l, k);
    }
  }

  lemma {:induction false} ConsumedIsGone(s: State, d: Response, last: Timestamp)
    requires Basic(s, []) && SoleServers(s.peers) && Fresh(s, last) && Consumes(Judge(s, d))
    ensures Gone(Respond(s, d), d, s.pending[FindPending(s.pending, d).value].fullT1, last)
  {
    var m, t := FindPending(s.pending, d).value, Respond(s, d);
    MatchedPeer(s, d, m);
    assert Recorded(s.peers, s.pending[m], last);
    forall x | 0 <= x < |t.pending| ensures !Matches(t.pending[x], d) {
      var l := RespondPending(s, d, x);
      if Matches(s.pending[l], d) {
        FreshUniqueMatch(s, d, last, l, m);
      }
    }
  }

  lemma TickGone(s: State, now: Timestamp, d: Response, t: Timestamp, last: Timestamp)
    requires Basic(s, []) && Gone(s, d, t, last) && Earlier(last, now) && 0 <= now.seconds < ERA
    ensures Gone(TickStep(s, now), d, t, now)
  {
    var z := TickOrigin(s, now);
    forall x | 0 <= x < |TickStep(s, now).pending| ensures !Matches(TickStep(s, now).pending[x], d) {
      if z + x >= |s.pending| {
        SentAt(s, now, z + x - |s.pending|);
        assert ToWire(now) != ToWire(t);
      }
    }
  }

  lemma StepGone(s: State, ev: Event, d: Response, t: Timestamp, last: Timestamp)
    requires Basic(s, []) && Gone(s, d, t, last) && WithinEra(ev) && (ev.Tick? ==> Earlier(last, ev.now))
    ensures Gone(Step(s, ev), d, t, if ev.Tick? then ev.now else last)
  {
    match ev {
      case Tick(now) => TickGone(s, now, d, t, last);
      case ServerResponse(d') =>
        forall x | 0 <= x < |Respond(s, d').pending| ensures !Matches(Respond(s, d').pending[x], d) {
          var l := RespondPending(s, d', x);
        }
      case Passive(source) =>
    }
  }

  lemma {:induction false} RunGone(s: State, evs: seq<Event>, d: Response, t: Timestamp, last: Timestamp)
    requires Basic(s, []) && Gone(s, d, t, last) && Increasing(last, evs)
    ensures Gone(Run(s, evs), d, t, LastTick(last, evs))
  {
    if evs != [] {
      var init := evs[..|evs|-1];
      RunGone(s, init, d, t, last);
      RunBasic(s, init);
      StepGone(Run(s, init), evs[|evs|-1], d, t, LastTick(last, init));
    }
  }

  /** With distinct server addresses, whatever the poll exponents: however a run with increasing
      ticks goes on, a response that repeats a consumed one changes nothing. */
  lemma {:induction false} ReplayIgnoredLater(s: State, last: Timestamp, d: Response, evs: seq<Event>, d': Response)
    requires Basic(s, []) && SoleServers(s.peers) && Fresh(s, last) && Consumes(Judge(s, d)) && Repeats(d, d')
    requires Increasing(last, evs)
    ensures var later := Run(Respond(s, d), evs); Judge(later, d') == Unsolicited && Respond(later, d') == later
  {
    ConsumedIsGone(s, d, last);
    RespondBasic(s, d);
    RunGone(Respond(s, d), evs, d, s.pending[FindPending(s.pending, d).value].fullT1, last);
    var later := Run(Respond(s, d), evs);
    assert forall k :: 0 <= k < |later.pending| ==> !Matches(later.pending[k], d) && !Matches(later.pending[k], d');
  }
}
