/** Replayed server responses: when no run of the engine accepts one, and the runs that do
    accept one otherwise. */
module Replays {
  import opened Wrappers
  import opened Sums
  import opened Timers
  import opened ClockFilters
  import opened Associds
  import opened Engine
  import opened EngineInvariants
  import opened Ticks

  // ---------- Associations over a run ----------

  /** Associations keep what the configuration gave them, and at most one joins, at an unknown
      address. */
  lemma StepLines(s: State, ev: Event)
    requires Basic(s, [])
    ensures SameLines(s.peers, Step(s, ev).peers) && |Step(s, ev).peers| <= |s.peers| + 1
    ensures |Step(s, ev).peers| > |s.peers| ==>
              var p := Step(s, ev).peers[|s.peers|]; Regular(p) && !Known(s.peers, p.addr)
  {
    match ev {
      case Tick(now) => FireAllLines(Popped(s, now.seconds), Fired(s.timers, now.seconds), now);
      case ServerResponse(d) => RespondLines(s, d);
      case Passive(source) =>
        if !Known(s.peers, Stored(source)) {
          MobilizeShape(s, Stored(source), SymPassive, 4, 10, false, false);
        }
    }
  }

  lemma {:induction false} RunLines(s: State, evs: seq<Event>)
    requires Basic(s, [])
    ensures SameLines(s.peers, Run(s, evs).peers)
  {
    if evs != [] {
      RunLines(s, evs[..|evs|-1]);
      RunBasic(s, evs[..|evs|-1]);
      StepLines(Run(s, evs[..|evs|-1]), evs[|evs|-1]);
    }
  }

  /** Associations that expect server responses have good exponents. */
  ghost predicate RegularServers(ps: seq<Assoc>) {
    forall i :: 0 <= i < |ps| && Asks(ps[i]) ==> Regular(ps[i])
  }

  /** And distinct addresses. */
  ghost predicate ServersOk(ps: seq<Assoc>) {
    SoleServers(ps) && RegularServers(ps)
  }

  lemma StepSole(s: State, ev: Event)
    requires Basic(s, []) && SoleServers(s.peers)
    ensures SoleServers(Step(s, ev).peers)
  {
    StepLines(s, ev);
    var ps, qs := s.peers, Step(s, ev).peers;
    forall i, j | 0 <= i < j < |qs| && Asks(qs[i]) && Asks(qs[j]) ensures qs[i].addr != qs[j].addr {
      assert j < |ps| ==> ps[i].addr != ps[j].addr;
    }
  }

  lemma StepRegular(s: State, ev: Event)
    requires Basic(s, []) && RegularServers(s.peers)
    ensures RegularServers(Step(s, ev).peers)
  {
    StepLines(s, ev);
  }

  lemma {:induction false} RunSole(s: State, evs: seq<Event>)
    requires Basic(s, []) && SoleServers(s.peers)
    ensures SoleServers(Run(s, evs).peers)
  {
    if evs != [] {
      RunSole(s, evs[..|evs|-1]);
      RunBasic(s, evs[..|evs|-1]);
      StepSole(Run(s, evs[..|evs|-1]), evs[|evs|-1]);
    }
  }

  lemma {:induction false} RunRegular(s: State, evs: seq<Event>)
    requires Basic(s, []) && RegularServers(s.peers)
    ensures RegularServers(Run(s, evs).peers)
  {
    if evs != [] {
      RunRegular(s, evs[..|evs|-1]);
      RunBasic(s, evs[..|evs|-1]);
      StepRegular(Run(s, evs[..|evs|-1]), evs[|evs|-1]);
    }
  }

  // ---------- Replays are ignored ----------

  /** The response repeats what identifies the first one: its source and the timestamp it
      returns. Everything else may differ. */
  predicate Repeats(d: Response, d': Response) {
    d'.source == d.source && d'.originate == d.originate
  }

  /** No outstanding request matches the response, and none will: peer i, the one at its
      source, is polled again only after the time it returns. */
  ghost predicate Stale(s: State, todo: seq<TimerEvent>, now: int, d: Response, i: nat) {
    && i < |s.peers| && Asks(s.peers[i]) && s.peers[i].addr == d.source
    && (forall k :: 0 <= k < |s.pending| ==> !Matches(s.pending[k], d))
    && (forall e :: e in s.timers && e.event == Poll(i) ==> d.originate.seconds < e.due)
    && (Poll(i) in todo ==> d.originate.seconds < now)
  }

  lemma SoleAt(ps: seq<Assoc>, i: nat, j: nat)
    requires SoleServers(ps) && i < |ps| && j < |ps| && Asks(ps[i]) && Asks(ps[j]) && ps[i].addr == ps[j].addr
    ensures i == j
  {
  }

  /** Only the association at the source can have sent a matching request. */
  lemma MatchIsOf(s: State, d: Response, k: nat, i: nat)
    requires Basic(s, []) && SoleServers(s.peers) && k < |s.pending| && Matches(s.pending[k], d)
    requires i < |s.peers| && Asks(s.peers[i]) && s.peers[i].addr == d.source
    ensures s.pending[k].peer == i
  {
    MatchedPeer(s, d, k);
    SoleAt(s.peers, s.pending[k].peer, i);
  }

  /** A response matches at most one outstanding request. */
  lemma UniqueMatch(s: State, d: Response, k: nat, l: nat)
    requires Inv(s) && ServersOk(s.peers) && k < |s.pending| && l < |s.pending|
    requires Matches(s.pending[k], d) && Matches(s.pending[l], d)
    ensures k == l
  {
    MatchedPeer(s, d, k);
    MatchIsOf(s, d, l, s.pending[k].peer);
    if k < l {
      DistinctWireTimes(s, k, l);
    } else if l < k {
      DistinctWireTimes(s, l, k);
    }
  }

  lemma MatchedTimerLater(s: State, d: Response, k: nat, e: TimerEntry)
    requires Inv(s) && ServersOk(s.peers) && k < |s.pending| && Matches(s.pending[k], d)
    requires e in s.timers && e.event == Poll(s.pending[k].peer)
    ensures d.originate.seconds < e.due
  {
    MatchedPeer(s, d, k);
    var i := s.pending[k].peer;
    assert Timed(s, [], 0, i) && InOrder(s, i) && AllBefore(s, i, e.due);
  }

  /** Once a response has consumed its request, it is stale. */
  lemma {:induction false} ConsumedIsStale(s: State, d: Response)
    requires Inv(s) && ServersOk(s.peers) && Consumes(Judge(s, d))
    ensures Stale(Respond(s, d), [], 0, d, s.pending[FindPending(s.pending, d).value].peer)
  {
    var m, t := FindPending(s.pending, d).value, Respond(s, d);
    var i := s.pending[m].peer;
    MatchedPeer(s, d, m);
    RespondLines(s, d);
    forall k | 0 <= k < |t.pending| ensures !Matches(t.pending[k], d) {
      var l := RespondPending(s, d, k);
      if Matches(s.pending[l], d) {
        UniqueMatch(s, d, l, m);
      }
    }
    forall e | e in t.timers && e.event == Poll(i) ensures d.originate.seconds < e.due {
      MatchedTimerLater(s, d, m, e);
    }
  }

  /** A poll sends no request that a stale response matches. */
  lemma PollSendsNoMatch(s: State, id: nat, rest: seq<TimerEvent>, now: Timestamp, d: Response, i: nat)
    requires Stale(s, [Poll(id)] + rest, now.seconds, d, i) && id < |s.peers| && !s.peers[id].refclock
    requires SoleServers(s.peers) && 0 <= now.seconds < ERA
    ensures !Matches(RequestTo(s.peers[id], id, now), d)
  {
    assert Poll(id) in [Poll(id)] + rest;
    if Matches(RequestTo(s.peers[id], id, now), d) {
      SoleAt(s.peers, id, i);
    }
  }

  lemma PollStale(s: State, id: nat, rest: seq<TimerEvent>, now: Timestamp, d: Response, i: nat)
    requires Stale(s, [Poll(id)] + rest, now.seconds, d, i) && Basic(s, [Poll(id)] + rest)
    requires SoleServers(s.peers) && 0 <= now.seconds < ERA
    ensures Stale(PollPeer(s, id, now), rest, now.seconds, d, i)
  {
    NoOtherPoll(s, id, rest);
    PollSendsNoMatch(s, id, rest, now, d, i);
    var t, r := PollPeer(s, id, now), RequestTo(s.peers[id], id, now);
    var shift := EnqueueShape(s.pending, r);
    forall k | 0 <= k < |t.pending| ensures !Matches(t.pending[k], d) {
      assert t.pending[k] == r || t.pending[k] == s.pending[k + shift];
    }
    PollStaleTimers(s, id, rest, now, d, i);
  }

  lemma PollStaleTimers(s: State, id: nat, rest: seq<TimerEvent>, now: Timestamp, d: Response, i: nat)
    requires Stale(s, [Poll(id)] + rest, now.seconds, d, i) && id < |s.peers|
    ensures forall e :: e in PollPeer(s, id, now).timers && e.event == Poll(i) ==> d.originate.seconds < e.due
    ensures Poll(i) in rest ==> d.originate.seconds < now.seconds
  {
    assert Poll(i) in rest ==> Poll(i) in [Poll(id)] + rest;
    assert Poll(id) in [Poll(id)] + rest;
    var entry := TimerEntry(Poll(id), now.seconds + Interval(s.peers[id].hpoll), 0);
    assert forall e :: e in PollPeer(s, id, now).timers ==> e == entry || e in s.timers;
  }

  lemma FireStale(s: State, ev: TimerEvent, rest: seq<TimerEvent>, now: Timestamp, d: Response, i: nat)
    requires Stale(s, [ev] + rest, now.seconds, d, i) && Basic(s, [ev] + rest)
    requires SoleServers(s.peers) && 0 <= now.seconds < ERA
    ensures Stale(Fire(s, ev, now), rest, now.seconds, d, i) && SoleServers(Fire(s, ev, now).peers)
  {
    if ev.Poll? {
      PollStale(s, ev.peer, rest, now, d, i);
      NoOtherPoll(s, ev.peer, rest);
    } else {
      assert Poll(i) in rest ==> Poll(i) in [ev] + rest;
    }
  }

  lemma {:induction false} FireAllStale(s: State, evs: seq<TimerEvent>, k: nat, now: Timestamp, d: Response, i: nat)
    requires k <= |evs| && Stale(s, evs, now.seconds, d, i) && Basic(s, evs)
    requires SoleServers(s.peers) && 0 <= now.seconds < ERA
    ensures Stale(FireAll(s, evs[..k], now), evs[k..], now.seconds, d, i)
    ensures SoleServers(FireAll(s, evs[..k], now).peers)
  {
    if k == 0 {
      assert evs[0..] == evs;
    } else {
      FireAllStale(s, evs, k - 1, now, d, i);
      FireAllBasic(s, evs, k - 1, now);
      FireAllStep(s, evs, k, now);
      FireStale(FireAll(s, evs[..k-1], now), evs[k-1], evs[k..], now, d, i);
    }
  }

  lemma {:induction false} PopStale(s: State, now: int, d: Response, i: nat)
    requires Basic(s, []) && Stale(s, [], 0, d, i)
    ensures Stale(Popped(s, now), Fired(s.timers, now), now, d, i)
  {
    forall e | e in Remaining(s.timers, now) && e.event == Poll(i) ensures d.originate.seconds < e.due {
      RemainingOrigin(s.timers, now, e);
      var f :| f in s.timers && f.event == e.event && f.interval == e.interval && (f.interval == 0 ==> f == e);
    }
    if Poll(i) in Fired(s.timers, now) {
      FiredOrigin(s.timers, now, Poll(i));
      var f :| f in s.timers && f.event == Poll(i) && IsDue(f, now);
    }
  }

  lemma TickStale(s: State, now: Timestamp, d: Response, i: nat)
    requires Basic(s, []) && Stale(s, [], 0, d, i) && SoleServers(s.peers) && 0 <= now.seconds < ERA
    ensures Stale(TickStep(s, now), [], 0, d, i)
  {
    var evs := Fired(s.timers, now.seconds);
    PopBasic(s, now.seconds);
    PopStale(s, now.seconds, d, i);
    FireAllStale(Popped(s, now.seconds), evs, |evs|, now, d, i);
    assert evs[..|evs|] == evs && evs[|evs|..] == [];
  }

  lemma RespondStale(s: State, d': Response, d: Response, i: nat)
    requires Basic(s, []) && Stale(s, [], 0, d, i)
    ensures Stale(Respond(s, d'), [], 0, d, i)
  {
    var t := Respond(s, d');
    RespondLines(s, d');
    forall k | 0 <= k < |t.pending| ensures !Matches(t.pending[k], d) {
      var l := RespondPending(s, d', k);
    }
  }

  lemma StepStale(s: State, ev: Event, d: Response, i: nat)
    requires Basic(s, []) && Stale(s, [], 0, d, i) && SoleServers(s.peers) && WithinEra(ev)
    ensures Stale(Step(s, ev), [], 0, d, i)
  {
    match ev {
      case Tick(now) => TickStale(s, now, d, i);
      case ServerResponse(d') => RespondStale(s, d', d, i);
      case Passive(source) =>
        if !Known(s.peers, Stored(source)) {
          MobilizeShape(s, Stored(source), SymPassive, 4, 10, false, false);
        }
    }
  }

  lemma {:induction false} RunStale(s: State, evs: seq<Event>, d: Response, i: nat)
    requires Basic(s, []) && Stale(s, [], 0, d, i) && SoleServers(s.peers) && InEra(evs)
    ensures Stale(Run(s, evs), [], 0, d, i)
  {
    if evs != [] {
      var init := evs[..|evs|-1];
      RunStale(s, init, d, i);
      RunBasic(s, init);
      RunSole(s, init);
      StepStale(Run(s, init), evs[|evs|-1], d, i);
    }
  }

  /** However the run goes on, a response that repeats one that has been consumed changes
      nothing. */
  lemma {:induction false} ReplayIgnored(s: State, d: Response, evs: seq<Event>, d': Response)
    requires Inv(s) && ServersOk(s.peers) && Consumes(Judge(s, d)) && Repeats(d, d')
    requires InEra(evs)
    ensures var later := Run(Respond(s, d), evs); Judge(later, d') == Unsolicited && Respond(later, d') == later
  {
    ConsumedIsStale(s, d);
    var i := s.pending[FindPending(s.pending, d).value].peer;
    RespondBasic(s, d);
    StepSole(s, ServerResponse(d));
    RunStale(Respond(s, d), evs, d, i);
    var later := Run(Respond(s, d), evs);
    assert forall k :: 0 <= k < |later.pending| ==> !Matches(later.pending[k], d) && !Matches(later.pending[k], d');
  }
}
