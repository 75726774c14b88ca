/** What every run of the daemon engine keeps, whatever its configuration: association IDs,
    outstanding requests and timers (`Basic`), and for each association whose poll exponents
    give positive intervals, the order of its requests in time (`Timed`). */
module EngineInvariants {
  import opened Wrappers
  import opened Sums
  import opened Timers
  import opened ClockFilters
  import opened Associds
  import opened Engine

  // ---------- What holds of every configuration ----------

  ghost predicate PeersOk(s: State) {
    && s.nextId <= LAST
    && (forall i :: 0 <= i < |s.peers| ==> 1 <= s.peers[i].associd <= LAST && s.peers[i].burst == 0)
    && (forall i, j :: 0 <= i < j < |s.peers| ==> s.peers[i].associd != s.peers[j].associd)
  }

  /** A request is the one its peer sends at its time. */
  ghost predicate RequestOk(ps: seq<Assoc>, r: Pending) {
    r.peer < |ps| && !ps[r.peer].refclock && r == RequestTo(ps[r.peer], r.peer, r.fullT1)
  }

  ghost predicate RequestsOk(s: State) {
    |s.pending| <= MAX_PENDING && forall k :: 0 <= k < |s.pending| ==> RequestOk(s.peers, s.pending[k])
  }

  /** Timers of some kind in the queue, plus events of that kind still to be handled. */
  function EventCount(s: State, todo: seq<TimerEvent>, p: TimerEvent -> bool): int {
    Sum(Counting(HasEvent(p)), s.timers) + Sum(CountingEvents(p), todo)
  }

  /** Every association but a reference clock has exactly one poll timer. */
  ghost predicate OnePollEach(s: State, todo: seq<TimerEvent>) {
    forall i: nat {:trigger EventCount(s, todo, Is(Poll(i)))} :: i < |s.peers| ==>
      EventCount(s, todo, Is(Poll(i))) == if s.peers[i].refclock then 0 else 1
  }

  ghost predicate PollsKnown(s: State, todo: seq<TimerEvent>) {
    && (forall e :: e in s.timers && e.event.Poll? ==> e.interval == 0 && e.event.peer < |s.peers|)
    && (forall ev :: ev in todo && ev.Poll? ==> ev.peer < |s.peers|)
  }

  /** Holds in the middle of a tick, with events `todo` still to be handled. */
  ghost predicate Basic(s: State, todo: seq<TimerEvent>) {
    && PeersOk(s) && RequestsOk(s) && PollsKnown(s, todo)
    && OnePollEach(s, todo) && EventCount(s, todo, IsPoll()) <= |s.peers|
  }

  // ---------- What holds of a peer with good poll exponents ----------

  /** The interval is positive. */
  predicate Small(hpoll: U8) { hpoll % 64 <= 31 }

  /** Every exponent that adaptation can reach is small. */
  predicate Good(minpoll: U8, maxpoll: U8) {
    Small(minpoll) && Small(maxpoll) && (minpoll <= maxpoll ==> minpoll / 64 == maxpoll / 64)
  }

  /** No server response is ever matched to a symmetric-active peer, so its exponent stays. */
  predicate Regular(p: Assoc) {
    if p.hmode == SymActive then Small(p.minpoll) else Good(p.minpoll, p.maxpoll)
  }

  predicate InRange(p: Assoc) {
    if p.hmode == SymActive then p.hpoll == p.minpoll
    else if p.minpoll <= p.maxpoll then p.minpoll <= p.hpoll <= p.maxpoll
    else p.hpoll == p.minpoll || p.hpoll == p.maxpoll
  }

  /** Everything sent to peer i, and the last request it answered, lies before t. */
  ghost predicate AllBefore(s: State, i: nat, t: int)
    requires i < |s.peers|
  {
    && (s.peers[i].originate == ZERO || s.peers[i].originate.seconds < t)
    && (forall k :: 0 <= k < |s.pending| && s.pending[k].peer == i ==> s.pending[k].fullT1.seconds < t)
  }

  /** Requests to peer i are queued in the order of their times, and none of them is the one
      the peer answered last (unless that was sent at time zero). */
  ghost predicate InOrder(s: State, i: nat)
    requires i < |s.peers|
  {
    QueueInOrder(s.pending, s.peers[i].originate, i)
  }

  ghost predicate QueueInOrder(q: seq<Pending>, originate: Timestamp, i: nat) {
    && (forall k :: 0 <= k < |q| && q[k].peer == i ==>
          0 <= q[k].fullT1.seconds < ERA && (originate == ZERO || originate.seconds != q[k].fullT1.seconds))
    && (forall k, l :: 0 <= k < l < |q| && q[k].peer == i && q[l].peer == i ==>
          q[k].fullT1.seconds < q[l].fullT1.seconds)
  }

  /** In the middle of a tick at `now`, with events `todo` still to be handled. */
  ghost predicate Timed(s: State, todo: seq<TimerEvent>, now: int, i: nat)
    requires i < |s.peers|
  {
    Regular(s.peers[i]) ==>
      && InRange(s.peers[i])
      && InOrder(s, i)
      && (forall e :: e in s.timers && e.event == Poll(i) ==> AllBefore(s, i, e.due))
      && (Poll(i) in todo ==> AllBefore(s, i, now))
  }

  ghost predicate AllTimed(s: State, todo: seq<TimerEvent>, now: int) {
    forall i :: 0 <= i < |s.peers| ==> Timed(s, todo, now, i)
  }

  /** The invariant of the engine between events. */
  ghost predicate Inv(s: State) {
    Basic(s, []) && AllTimed(s, [], 0)
  }

  // ---------- Intervals ----------

  lemma {:induction false} Pow2Monotonic(m: nat, n: nat)
    requires m < n
    ensures 2 * Pow2(m) <= Pow2(n)
    decreases n - m
  {
    if m + 1 < n {
      Pow2Monotonic(m, n - 1);
    }
  }

  lemma Pow2At32()
    ensures Pow2(32) == ERA
  {
    assert Pow2(8) == 256;
    assert Pow2(16) == 65536;
    assert Pow2(24) == 0x100_0000;
  }

  lemma {:induction false} Pow2FromEra(n: nat)
    requires n >= 32
    ensures Pow2(n) % ERA == 0
  {
    if n == 32 {
      Pow2At32();
    } else {
      Pow2FromEra(n - 1);
    }
  }

  lemma {:induction false} IntervalIs(hpoll: U8)
    ensures Interval(hpoll) == if Small(hpoll) then Pow2(hpoll % 64) else 0
  {
    if Small(hpoll) {
      Pow2Monotonic(hpoll % 64, 32);
      Pow2At32();
    } else {
      Pow2FromEra(hpoll % 64);
    }
  }

  /** The same for an exponent given by its lowest six bits and the rest. */
  lemma {:induction false} IntervalAt(block: nat, r: nat)
    requires r < 64 && 64 * block + r < 256
    ensures Small(64 * block + r) <==> r <= 31
    ensures Interval(64 * block + r) == if r <= 31 then Pow2(r) else 0
  {
    assert (64 * block + r) % 64 == r;
    IntervalIs(64 * block + r);
  }

  /** Re-arming moves a poll timer forward exactly for small exponents: those whose lowest six
      bits are at most 31. For the others the cast interval is zero. */
  lemma IntervalPositive(hpoll: U8)
    ensures Interval(hpoll) > 0 <==> hpoll % 64 <= 31
  {
    IntervalIs(hpoll);
  }

  // ---------- Counting polls ----------

  lemma {:induction false} TakeFirstCount(p: TimerEvent -> bool, head: TimerEvent, rest: seq<TimerEvent>)
    ensures Sum(CountingEvents(p), [head] + rest) == Sum(CountingEvents(p), rest) + if p(head) then 1 else 0
  {
    SumConcat(CountingEvents(p), [head], rest);
    SumSnoc(CountingEvents(p), [], head);
    assert [] + [head] == [head];
  }

  lemma {:induction false} EventCounted(ev: TimerEvent, todo: seq<TimerEvent>)
    ensures Sum(CountingEvents(Is(ev)), todo) >= 0
    ensures ev in todo ==> Sum(CountingEvents(Is(ev)), todo) >= 1
  {
    SumNonNegative(CountingEvents(Is(ev)), todo);
    assert CountingEvents(Is(ev))(ev) == 1;
  }

  lemma {:induction false} EntryCounted(ev: TimerEvent, timers: seq<TimerEntry>)
    ensures Sum(Counting(HasEvent(Is(ev))), timers) >= 0
    ensures forall e :: e in timers && e.event == ev ==> Sum(Counting(HasEvent(Is(ev))), timers) >= 1
  {
    SumNonNegative(Counting(HasEvent(Is(ev))), timers);
    forall e | e in timers && e.event == ev ensures Sum(Counting(HasEvent(Is(ev))), timers) >= 1 {
      assert Counting(HasEvent(Is(ev)))(e) == 1;
    }
  }

  /** While its event is being handled, a peer is polled and has no other poll timer or event. */
  lemma NoOtherPoll(s: State, id: nat, rest: seq<TimerEvent>)
    requires Basic(s, [Poll(id)] + rest)
    ensures id < |s.peers| && !s.peers[id].refclock && Poll(id) !in rest
    ensures forall e :: e in s.timers ==> e.event != Poll(id)
  {
    assert Poll(id) in [Poll(id)] + rest;
    TakeFirstCount(Is(Poll(id)), Poll(id), rest);
    EventCounted(Poll(id), rest);
    EntryCounted(Poll(id), s.timers);
    assert EventCount(s, [Poll(id)] + rest, Is(Poll(id))) == if s.peers[id].refclock then 0 else 1;
  }

  // ---------- The request queue ----------

  /** The last requests, as many as the queue can hold. */
  function Latest(q: seq<Pending>): seq<Pending> {
    if |q| <= MAX_PENDING then q else q[|q| - MAX_PENDING..]
  }

  lemma EnqueueIsLatest(q: seq<Pending>, r: Pending)
    requires |q| <= MAX_PENDING
    ensures Enqueue(q, r) == Latest(q + [r])
  {
  }

  /** Where each request of the new queue comes from. */
  lemma EnqueueShape(q: seq<Pending>, r: Pending) returns (shift: nat)
    ensures |Enqueue(q, r)| == |q| + 1 - shift && shift <= 1
    ensures |q| <= MAX_PENDING ==> |Enqueue(q, r)| <= MAX_PENDING
    ensures forall k :: 0 <= k < |Enqueue(q, r)| ==> Enqueue(q, r)[k] == (q + [r])[k + shift]
  {
    shift := if |q| >= MAX_PENDING then 1 else 0;
  }

  // ---------- Ticks ----------

  lemma PollPeerRequests(s: State, id: nat, now: Timestamp)
    requires RequestsOk(s) && id < |s.peers| && !s.peers[id].refclock
    ensures RequestsOk(PollPeer(s, id, now))
  {
    var r := RequestTo(s.peers[id], id, now);
    var q := Enqueue(s.pending, r);
    var shift := EnqueueShape(s.pending, r);
    forall k | 0 <= k < |q| ensures RequestOk(s.peers, q[k]) {
      assert q[k] == r || q[k] == s.pending[k + shift];
    }
  }

  /** Handling a poll event turns it into a timer. */
  lemma PollPeerCounts(s: State, id: nat, rest: seq<TimerEvent>, now: Timestamp, p: TimerEvent -> bool)
    requires id < |s.peers|
    ensures EventCount(PollPeer(s, id, now), rest, p) == EventCount(s, [Poll(id)] + rest, p)
  {
    SumSnoc(Counting(HasEvent(p)), s.timers, TimerEntry(Poll(id), now.seconds + Interval(s.peers[id].hpoll), 0));
    TakeFirstCount(p, Poll(id), rest);
  }

  lemma PollPeerBasic(s: State, id: nat, rest: seq<TimerEvent>, now: Timestamp)
    requires Basic(s, [Poll(id)] + rest)
    ensures Basic(PollPeer(s, id, now), rest)
  {
    NoOtherPoll(s, id, rest);
    PollPeerRequests(s, id, now);
    var t := PollPeer(s, id, now);
    forall i: nat | i < |t.peers| ensures EventCount(t, rest, Is(Poll(i))) == if t.peers[i].refclock then 0 else 1 {
      PollPeerCounts(s, id, rest, now, Is(Poll(i)));
    }
    PollPeerCounts(s, id, rest, now, IsPoll());
    assert forall ev :: ev in rest ==> ev in [Poll(id)] + rest;
  }

  lemma PollPeerBefore(s: State, id: nat, now: Timestamp, i: nat, t: int)
    requires id < |s.peers| && i < |s.peers|
    requires AllBefore(s, i, t) && (i == id ==> now.seconds < t)
    ensures AllBefore(PollPeer(s, id, now), i, t)
  {
    var shift := EnqueueShape(s.pending, RequestTo(s.peers[id], id, now));
  }

  lemma AppendInOrder(q: seq<Pending>, originate: Timestamp, i: nat, r: Pending)
    requires QueueInOrder(q, originate, i) && 0 <= r.fullT1.seconds < ERA
    requires r.peer == i ==>
               && (originate == ZERO || originate.seconds < r.fullT1.seconds)
               && (forall k :: 0 <= k < |q| && q[k].peer == i ==> q[k].fullT1.seconds < r.fullT1.seconds)
    ensures QueueInOrder(q + [r], originate, i)
  {
  }

  lemma PollPeerInOrder(s: State, id: nat, now: Timestamp, i: nat)
    requires id < |s.peers| && i < |s.peers| && 0 <= now.seconds < ERA
    requires InOrder(s, i) && (i == id ==> AllBefore(s, i, now.seconds))
    ensures InOrder(PollPeer(s, id, now), i)
  {
    var r := RequestTo(s.peers[id], id, now);
    var shift := EnqueueShape(s.pending, r);
    AppendInOrder(s.pending, s.peers[i].originate, i, r);
  }

  lemma PollPeerTimed(s: State, id: nat, rest: seq<TimerEvent>, now: Timestamp, i: nat)
    requires Basic(s, [Poll(id)] + rest) && i < |s.peers| && 0 <= now.seconds < ERA
    requires Timed(s, [Poll(id)] + rest, now.seconds, i)
    ensures Timed(PollPeer(s, id, now), rest, now.seconds, i)
  {
    var t := PollPeer(s, id, now);
    NoOtherPoll(s, id, rest);
    if Regular(s.peers[i]) {
      PollPeerInOrder(s, id, now, i);
      IntervalPositive(s.peers[id].hpoll);
      var entry := TimerEntry(Poll(id), now.seconds + Interval(s.peers[id].hpoll), 0);
      forall e | e in t.timers && e.event == Poll(i) ensures AllBefore(t, i, e.due) {
        assert e == entry || e in s.timers;
        PollPeerBefore(s, id, now, i, e.due);
      }
      if Poll(i) in rest {
        PollPeerBefore(s, id, now, i, now.seconds);
      }
    }
  }

  /** Dropping an event that is not a poll. */
  lemma DropEventBasic(s: State, ev: TimerEvent, rest: seq<TimerEvent>)
    requires !ev.Poll? && Basic(s, [ev] + rest)
    ensures Basic(s, rest)
  {
    forall i: nat | i < |s.peers| ensures EventCount(s, rest, Is(Poll(i))) == if s.peers[i].refclock then 0 else 1 {
      TakeFirstCount(Is(Poll(i)), ev, rest);
      assert EventCount(s, [ev] + rest, Is(Poll(i))) == if s.peers[i].refclock then 0 else 1;
    }
    TakeFirstCount(IsPoll(), ev, rest);
    assert forall e :: e in rest ==> e in [ev] + rest;
  }

  /** The associations differ in reachability only. */
  ghost predicate SameButReach(ps: seq<Assoc>, qs: seq<Assoc>) {
    |ps| == |qs| && forall i :: 0 <= i < |ps| ==> qs[i] == ps[i].(reach := qs[i].reach)
  }

  lemma SameButReachBasic(s: State, t: State, todo: seq<TimerEvent>)
    requires Basic(s, todo) && SameButReach(s.peers, t.peers) && t == s.(peers := t.peers)
    ensures Basic(t, todo)
  {
    forall i: nat | i < |t.peers| ensures EventCount(t, todo, Is(Poll(i))) == if t.peers[i].refclock then 0 else 1 {
      assert EventCount(s, todo, Is(Poll(i))) == if s.peers[i].refclock then 0 else 1;
    }
    assert EventCount(t, todo, IsPoll()) == EventCount(s, todo, IsPoll());
    assert forall k :: 0 <= k < |t.pending| ==> RequestOk(s.peers, s.pending[k]);
  }

  lemma SameButReachTimed(s: State, t: State, todo: seq<TimerEvent>, now: int, i: nat)
    requires SameButReach(s.peers, t.peers) && t == s.(peers := t.peers)
    requires i < |s.peers| && Timed(s, todo, now, i)
    ensures Timed(t, todo, now, i)
  {
    assert forall u :: AllBefore(s, i, u) ==> AllBefore(t, i, u);
  }

  lemma FireBasic(s: State, ev: TimerEvent, rest: seq<TimerEvent>, now: Timestamp)
    requires Basic(s, [ev] + rest)
    ensures Basic(Fire(s, ev, now), rest)
  {
    if ev.Poll? {
      PollPeerBasic(s, ev.peer, rest, now);
    } else {
      DropEventBasic(s, ev, rest);
      if ev.Reachability? {
        SameButReachBasic(s, s.(peers := AllMissed(s.peers)), rest);
      }
    }
  }

  lemma FireTimed(s: State, ev: TimerEvent, rest: seq<TimerEvent>, now: Timestamp, i: nat)
    requires Basic(s, [ev] + rest) && i < |s.peers| && 0 <= now.seconds < ERA
    requires Timed(s, [ev] + rest, now.seconds, i)
    ensures i < |Fire(s, ev, now).peers| && Timed(Fire(s, ev, now), rest, now.seconds, i)
  {
    if ev.Poll? {
      NoOtherPoll(s, ev.peer, rest);
      PollPeerTimed(s, ev.peer, rest, now, i);
    } else {
      assert Timed(s, rest, now.seconds, i);
      if ev.Reachability? {
        SameButReachTimed(s, s.(peers := AllMissed(s.peers)), rest, now.seconds, i);
      }
    }
  }

  lemma {:induction false} FireAllStep(s: State, evs: seq<TimerEvent>, k: nat, now: Timestamp)
    requires 0 < k <= |evs|
    ensures FireAll(s, evs[..k], now) == Fire(FireAll(s, evs[..k-1], now), evs[k-1], now)
    ensures evs[k-1..] == [evs[k-1]] + evs[k..]
  {
    assert evs[..k][..k-1] == evs[..k-1];
  }

  lemma {:induction false} FireAllBasic(s: State, evs: seq<TimerEvent>, k: nat, now: Timestamp)
    requires k <= |evs| && Basic(s, evs)
    ensures Basic(FireAll(s, evs[..k], now), evs[k..]) && |FireAll(s, evs[..k], now).peers| == |s.peers|
  {
    if k == 0 {
      assert evs[0..] == evs;
    } else {
      FireAllBasic(s, evs, k - 1, now);
      FireAllStep(s, evs, k, now);
      FireBasic(FireAll(s, evs[..k-1], now), evs[k-1], evs[k..], now);
    }
  }

  lemma {:induction false} FireAllTimed(s: State, evs: seq<TimerEvent>, k: nat, now: Timestamp, i: nat)
    requires k <= |evs| && Basic(s, evs) && i < |s.peers| && 0 <= now.seconds < ERA
    requires Timed(s, evs, now.seconds, i)
    ensures i < |FireAll(s, evs[..k], now).peers| && Timed(FireAll(s, evs[..k], now), evs[k..], now.seconds, i)
  {
    if k == 0 {
      assert evs[0..] == evs;
    } else {
      FireAllBasic(s, evs, k - 1, now);
      FireAllTimed(s, evs, k - 1, now, i);
      FireAllStep(s, evs, k, now);
      FireTimed(FireAll(s, evs[..k-1], now), evs[k-1], evs[k..], now, i);
    }
  }

  /** The state once the due events have been taken out of the queue. */
  function Popped(s: State, now: int): State {
    s.(timers := Remaining(s.timers, now))
  }

  lemma {:induction false} PopCounts(s: State, now: int, p: TimerEvent -> bool)
    requires Basic(s, []) && forall ev :: p(ev) ==> ev.Poll?
    ensures EventCount(Popped(s, now), Fired(s.timers, now), p) == EventCount(s, [], p)
  {
    PopConserves(s.timers, now, p);
    SumCongruent(Counting(DueWith(p, now)), Counting(ExpiringWith(p, now)), s.timers);
  }

  lemma {:induction false} PopBasic(s: State, now: int)
    requires Basic(s, [])
    ensures Basic(Popped(s, now), Fired(s.timers, now))
  {
    var t, todo := Popped(s, now), Fired(s.timers, now);
    forall i: nat | i < |t.peers| ensures EventCount(t, todo, Is(Poll(i))) == if t.peers[i].refclock then 0 else 1 {
      PopCounts(s, now, Is(Poll(i)));
    }
    PopCounts(s, now, IsPoll());
    forall e | e in t.timers && e.event.Poll? ensures e.interval == 0 && e.event.peer < |t.peers| {
      RemainingOrigin(s.timers, now, e);
    }
    forall ev | ev in todo && ev.Poll? ensures ev.peer < |t.peers| {
      FiredOrigin(s.timers, now, ev);
    }
  }

  lemma {:induction false} PopTimed(s: State, now: int, i: nat)
    requires Basic(s, []) && i < |s.peers| && Timed(s, [], 0, i)
    ensures Timed(Popped(s, now), Fired(s.timers, now), now, i)
  {
    var t, todo := Popped(s, now), Fired(s.timers, now);
    assert forall u :: AllBefore(s, i, u) ==> AllBefore(t, i, u);
    if Regular(s.peers[i]) {
      forall e | e in t.timers && e.event == Poll(i) ensures AllBefore(t, i, e.due) {
        RemainingOrigin(s.timers, now, e);
        var f :| f in s.timers && f.event == e.event && f.interval == e.interval && (f.interval == 0 ==> f == e);
      }
      if Poll(i) in todo {
        FiredOrigin(s.timers, now, Poll(i));
        var f :| f in s.timers && f.event == Poll(i) && IsDue(f, now);
        assert AllBefore(s, i, f.due);
      }
    }
  }

  /** Every tick, at any time, keeps what holds of every configuration. */
  lemma TickBasic(s: State, now: Timestamp)
    requires Basic(s, [])
    ensures Basic(TickStep(s, now), []) && |TickStep(s, now).peers| == |s.peers|
  {
    var evs := Fired(s.timers, now.seconds);
    PopBasic(s, now.seconds);
    FireAllBasic(Popped(s, now.seconds), evs, |evs|, now);
    assert evs[..|evs|] == evs && evs[|evs|..] == [];
  }

  /** A tick within the era keeps the invariant. */
  lemma TickKeeps(s: State, now: Timestamp)
    requires Inv(s) && 0 <= now.seconds < ERA
    ensures Inv(TickStep(s, now))
  {
    var t, evs := TickStep(s, now), Fired(s.timers, now.seconds);
    TickBasic(s, now);
    PopBasic(s, now.seconds);
    assert evs[..|evs|] == evs && evs[|evs|..] == [];
    forall i | 0 <= i < |t.peers| ensures Timed(t, [], 0, i) {
      PopTimed(s, now.seconds, i);
      FireAllTimed(Popped(s, now.seconds), evs, |evs|, now, i);
    }
  }

  // ---------- Responses ----------

  lemma ReachSet(r: bv8)
    ensures (r << 1) | 1 != 0
  {
  }

  lemma PollUpdateRange(p: Assoc, offset: real)
    requires p.burst == 0 && p.reach != 0
    ensures PollUpdate(p, offset).1 == 0
    ensures p.hmode != SymActive && Regular(p) && InRange(p) ==> InRange(p.(hpoll := PollUpdate(p, offset).0))
  {
  }

  /** A sample never starts a burst and keeps the poll exponent within its limits. */
  lemma TakeSampleShape(p: Assoc, req: Pending, d: Response)
    requires p.burst == 0
    ensures var q := TakeSample(p, req, d);
            && q == p.(hpoll := q.hpoll, reach := (p.reach << 1) | 1, originate := req.fullT1, samples := q.samples)
            && q.samples == Recent([SampleFrom(p, req, d)] + p.samples)
            && (p.hmode != SymActive && Regular(p) && InRange(p) ==> InRange(q))
  {
    ReachSet(p.reach);
    var samples := Recent([SampleFrom(p, req, d)] + p.samples);
    var q := p.(samples := samples, reach := (p.reach << 1) | 1, originate := req.fullT1);
    PollUpdateRange(q, Best(samples).offset);
  }

  /** A response consumes its request, or changes nothing. */
  predicate Consumes(v: Verdict) {
    v == Refused || v == Insane || v == Accepted
  }

  /** What the response makes of the association it is for. */
  function Answered(p: Assoc, v: Verdict, req: Pending, d: Response): Assoc {
    if v == Refused then MissedReach(p) else if v == Accepted then TakeSample(p, req, d) else p
  }

  lemma {:induction false} RespondShape(s: State, d: Response)
    ensures !Consumes(Judge(s, d)) ==> Respond(s, d) == s
    ensures Consumes(Judge(s, d)) ==>
              var i := FindPending(s.pending, d).value; var req := s.pending[i];
              && req.peer < |s.peers|
              && Respond(s, d) == s.(pending := RemoveAt(s.pending, i),
                                     peers := s.peers[req.peer := Answered(s.peers[req.peer], Judge(s, d), req, d)])
  {
    if Consumes(Judge(s, d)) {
      var req := s.pending[FindPending(s.pending, d).value];
      assert s.peers[req.peer := s.peers[req.peer]] == s.peers;
    }
  }

  /** The associations differ only in what polling and responses change, and there may be new
      ones. */
  ghost predicate SameLines(ps: seq<Assoc>, qs: seq<Assoc>) {
    |ps| <= |qs|
    && forall i :: 0 <= i < |ps| ==>
         qs[i] == ps[i].(hpoll := qs[i].hpoll, reach := qs[i].reach, originate := qs[i].originate,
             samples := qs[i].samples)
  }

  lemma RespondLines(s: State, d: Response)
    requires Basic(s, [])
    ensures |Respond(s, d).peers| == |s.peers| && SameLines(s.peers, Respond(s, d).peers)
    ensures Respond(s, d).timers == s.timers
  {
    RespondShape(s, d);
    if Judge(s, d) == Accepted {
      var req := s.pending[FindPending(s.pending, d).value];
      TakeSampleShape(s.peers[req.peer], req, d);
    }
  }

  lemma RespondBasic(s: State, d: Response)
    requires Basic(s, [])
    ensures Basic(Respond(s, d), [])
  {
    var t := Respond(s, d);
    RespondShape(s, d);
    RespondLines(s, d);
    forall i: nat | i < |t.peers| ensures EventCount(t, [], Is(Poll(i))) == if t.peers[i].refclock then 0 else 1 {
      assert EventCount(s, [], Is(Poll(i))) == if s.peers[i].refclock then 0 else 1;
    }
    assert EventCount(t, [], IsPoll()) == EventCount(s, [], IsPoll());
    forall k | 0 <= k < |t.pending| ensures RequestOk(t.peers, t.pending[k]) {
      var l := RespondPending(s, d, k);
      assert RequestOk(s.peers, s.pending[l]);
    }
  }

  /** What is outstanding after a response was outstanding before. */
  lemma RespondPending(s: State, d: Response, k: nat) returns (l: nat)
    requires k < |Respond(s, d).pending|
    ensures l < |s.pending| && Respond(s, d).pending[k] == s.pending[l]
    ensures Consumes(Judge(s, d)) ==> var i := FindPending(s.pending, d).value; l == if k < i then k else k + 1
  {
    RespondShape(s, d);
    l := if Consumes(Judge(s, d)) && k >= FindPending(s.pending, d).value then k + 1 else k;
  }

  lemma ForgetTimed(s: State, m: nat, i: nat)
    requires i < |s.peers| && m < |s.pending| && Timed(s, [], 0, i)
    ensures Timed(s.(pending := RemoveAt(s.pending, m)), [], 0, i)
  {
    var t := s.(pending := RemoveAt(s.pending, m));
    assert forall u :: AllBefore(s, i, u) ==> AllBefore(t, i, u);
  }

  /** Replacing a peer by one that differs in reach, poll exponent, samples and last answered
      request, the latter being older than its poll timer and not outstanding. */
  lemma ReplaceTimed(s: State, i: nat, p: Assoc)
    requires i < |s.peers| && Timed(s, [], 0, i)
    requires p == s.peers[i].(hpoll := p.hpoll, reach := p.reach, samples := p.samples, originate := p.originate)
    requires Regular(p) ==> InRange(p)
    requires Regular(p) && p.originate != s.peers[i].originate ==>
               && (forall e :: e in s.timers && e.event == Poll(i) ==> p.originate.seconds < e.due)
               && (forall k :: 0 <= k < |s.pending| && s.pending[k].peer == i ==>
                   s.pending[k].fullT1.seconds != p.originate.seconds)
    ensures Timed(s.(peers := s.peers[i := p]), [], 0, i)
  {
    var t := s.(peers := s.peers[i := p]);
    if Regular(p) {
      forall e | e in t.timers && e.event == Poll(i) ensures AllBefore(t, i, e.due) {
        assert AllBefore(s, i, e.due);
      }
    }
  }

  lemma OtherTimed(s: State, j: nat, p: Assoc, i: nat)
    requires i < |s.peers| && j < |s.peers| && i != j && Timed(s, [], 0, i)
    ensures Timed(s.(peers := s.peers[j := p]), [], 0, i)
  {
    var t := s.(peers := s.peers[j := p]);
    assert forall u :: AllBefore(s, i, u) ==> AllBefore(t, i, u);
  }

  lemma {:induction false} AnsweredTimed(s: State, d: Response)
    requires Basic(s, []) && Consumes(Judge(s, d))
    requires var req := s.pending[FindPending(s.pending, d).value]; Timed(s, [], 0, req.peer)
    ensures var req := s.pending[FindPending(s.pending, d).value];
            req.peer < |Respond(s, d).peers| && Timed(Respond(s, d), [], 0, req.peer)
  {
    var m, v := FindPending(s.pending, d).value, Judge(s, d);
    var req := s.pending[m];
    var i, rest := req.peer, s.(pending := RemoveAt(s.pending, m));
    RespondShape(s, d);
    assert RequestOk(s.peers, req);
    ForgetTimed(s, m, i);
    TakeSampleShape(s.peers[i], req, d);
    if Regular(s.peers[i]) && v == Accepted {
      forall e | e in rest.timers && e.event == Poll(i) ensures req.fullT1.seconds < e.due {
        assert AllBefore(s, i, e.due);
      }
    }
    ReplaceTimed(rest, i, Answered(s.peers[i], v, req, d));
  }

  lemma RespondTimed(s: State, d: Response, i: nat)
    requires Basic(s, []) && i < |s.peers| && Timed(s, [], 0, i)
    ensures i < |Respond(s, d).peers| && Timed(Respond(s, d), [], 0, i)
  {
    RespondShape(s, d);
    if Consumes(Judge(s, d)) {
      var m := FindPending(s.pending, d).value;
      var req := s.pending[m];
      if req.peer == i {
        AnsweredTimed(s, d);
      } else {
        ForgetTimed(s, m, i);
        OtherTimed(s.(pending := RemoveAt(s.pending, m)), req.peer, Answered(s.peers[req.peer], Judge(s, d), req, d),
            i);
      }
    }
  }

  /** A response keeps the invariant, whatever its verdict. */
  lemma RespondKeeps(s: State, d: Response)
    requires Inv(s)
    ensures Inv(Respond(s, d))
  {
    RespondBasic(s, d);
    RespondLines(s, d);
    forall i | 0 <= i < |Respond(s, d).peers| ensures Timed(Respond(s, d), [], 0, i) {
      RespondTimed(s, d, i);
    }
  }

  // ---------- New associations ----------

  /** The state with one more association and, unless it is a reference clock, its timer. */
  function Joined(s: State, p: Assoc, next: nat): State {
    s.(peers := s.peers + [p], nextId := next,
       timers := if p.refclock then s.timers else s.timers + [TimerEntry(Poll(|s.peers|), 0, 0)])
  }

  lemma NoTimerBeyond(s: State)
    requires Basic(s, [])
    ensures EventCount(s, [], Is(Poll(|s.peers|))) == 0
  {
    SumZero(Counting(HasEvent(Is(Poll(|s.peers|)))), s.timers);
  }

  lemma JoinedCounts(s: State, p: Assoc, next: nat, q: TimerEvent -> bool)
    ensures EventCount(Joined(s, p, next), [], q)
         == EventCount(s, [], q) + if !p.refclock && q(Poll(|s.peers|)) then 1 else 0
  {
    SumSnoc(Counting(HasEvent(q)), s.timers, TimerEntry(Poll(|s.peers|), 0, 0));
  }

  lemma JoinedPollsOf(s: State, p: Assoc, next: nat, i: nat)
    requires Basic(s, []) && i <= |s.peers|
    ensures EventCount(Joined(s, p, next), [], Is(Poll(i))) == if Joined(s, p, next).peers[i].refclock then 0 else 1
  {
    JoinedCounts(s, p, next, Is(Poll(i)));
    if i < |s.peers| {
      assert EventCount(s, [], Is(Poll(i))) == if s.peers[i].refclock then 0 else 1;
    } else {
      NoTimerBeyond(s);
    }
  }

  lemma JoinedPolls(s: State, p: Assoc, next: nat)
    requires Basic(s, [])
    ensures OnePollEach(Joined(s, p, next), []) && EventCount(Joined(s, p, next), [], IsPoll()) <= |s.peers| + 1
  {
    var t := Joined(s, p, next);
    forall i: nat | i < |t.peers| ensures EventCount(t, [], Is(Poll(i))) == if t.peers[i].refclock then 0 else 1 {
      JoinedPollsOf(s, p, next, i);
    }
    JoinedCounts(s, p, next, IsPoll());
  }

  lemma JoinedBasic(s: State, p: Assoc, next: nat)
    requires Basic(s, []) && next <= LAST && 1 <= p.associd <= LAST && p.burst == 0
    requires forall i :: 0 <= i < |s.peers| ==> s.peers[i].associd != p.associd
    ensures Basic(Joined(s, p, next), [])
  {
    JoinedPolls(s, p, next);
    JoinedRequests(s, p, next);
    JoinedPeers(s, p, next);
  }

  lemma JoinedRequests(s: State, p: Assoc, next: nat)
    requires RequestsOk(s)
    ensures RequestsOk(Joined(s, p, next))
  {
    assert forall k :: 0 <= k < |s.pending| ==> RequestOk(s.peers, s.pending[k]);
  }

  lemma JoinedPeers(s: State, p: Assoc, next: nat)
    requires PeersOk(s) && PollsKnown(s, []) && next <= LAST && 1 <= p.associd <= LAST && p.burst == 0
    requires forall i :: 0 <= i < |s.peers| ==> s.peers[i].associd != p.associd
    ensures PeersOk(Joined(s, p, next)) && PollsKnown(Joined(s, p, next), [])
  {
  }

  lemma JoinedTimed(s: State, p: Assoc, next: nat, i: nat)
    requires Basic(s, []) && i <= |s.peers| && (i < |s.peers| ==> Timed(s, [], 0, i))
    requires p.originate == ZERO && p.hpoll == p.minpoll
    ensures Timed(Joined(s, p, next), [], 0, i)
  {
    var t := Joined(s, p, next);
    if i < |s.peers| {
      assert forall u :: AllBefore(s, i, u) ==> AllBefore(t, i, u);
    } else {
      assert forall k :: 0 <= k < |t.pending| ==> RequestOk(s.peers, s.pending[k]);
      assert forall u :: AllBefore(t, i, u);
    }
  }

  lemma NextIdBasic(s: State, next: nat)
    requires Basic(s, []) && next <= LAST
    ensures Basic(s.(nextId := next), [])
  {
    var t := s.(nextId := next);
    forall i: nat | i < |t.peers| ensures EventCount(t, [], Is(Poll(i))) == if t.peers[i].refclock then 0 else 1 {
      assert EventCount(s, [], Is(Poll(i))) == if s.peers[i].refclock then 0 else 1;
    }
    assert EventCount(t, [], IsPoll()) == EventCount(s, [], IsPoll());
  }

  lemma NextIdTimed(s: State, next: nat, i: nat)
    requires i < |s.peers| && Timed(s, [], 0, i)
    ensures Timed(s.(nextId := next), [], 0, i)
  {
    var t := s.(nextId := next);
    assert forall u :: AllBefore(s, i, u) ==> AllBefore(t, i, u);
  }

  /** A new association joins under a free ID, or the IDs have run out. */
  lemma MobilizeShape(s: State, addr: NetAddr, hmode: Mode, minpoll: U8, maxpoll: U8, iburst: bool, refclock: bool)
    requires s.nextId <= LAST
    ensures var t := Mobilize(s, addr, hmode, minpoll, maxpoll, iburst, refclock);
            && t.nextId <= LAST
            && (t == s.(nextId := t.nextId)
                || exists id: nat ::
                     && 1 <= id <= LAST && (forall i :: 0 <= i < |s.peers| ==> s.peers[i].associd != id)
                     && t == Joined(s, NewAssoc(id, addr, hmode, minpoll, maxpoll, iburst, refclock), t.nextId))
  {
    var used := UsedIds(s.peers);
    AllocateSound(s.nextId, used);
    assert forall i :: 0 <= i < |s.peers| ==> s.peers[i].associd in used;
  }

  lemma MobilizeBasic(s: State, addr: NetAddr, hmode: Mode, minpoll: U8, maxpoll: U8, iburst: bool, refclock: bool)
    requires Basic(s, [])
    ensures Basic(Mobilize(s, addr, hmode, minpoll, maxpoll, iburst, refclock), [])
  {
    var t := Mobilize(s, addr, hmode, minpoll, maxpoll, iburst, refclock);
    MobilizeShape(s, addr, hmode, minpoll, maxpoll, iburst, refclock);
    if t == s.(nextId := t.nextId) {
      NextIdBasic(s, t.nextId);
    } else {
      JoinedBasic(s, t.peers[|s.peers|], t.nextId);
    }
  }

  lemma MobilizeKeeps(s: State, addr: NetAddr, hmode: Mode, minpoll: U8, maxpoll: U8, iburst: bool, refclock: bool)
    requires Inv(s)
    ensures Inv(Mobilize(s, addr, hmode, minpoll, maxpoll, iburst, refclock))
  {
    var t := Mobilize(s, addr, hmode, minpoll, maxpoll, iburst, refclock);
    MobilizeBasic(s, addr, hmode, minpoll, maxpoll, iburst, refclock);
    MobilizeShape(s, addr, hmode, minpoll, maxpoll, iburst, refclock);
    forall i | 0 <= i < |t.peers| ensures Timed(t, [], 0, i) {
      if t == s.(nextId := t.nextId) {
        NextIdTimed(s, t.nextId, i);
      } else {
        JoinedTimed(s, t.peers[|s.peers|], t.nextId, i);
      }
    }
  }

  /** A symmetric-passive packet keeps the invariant. */
  lemma PassiveKeeps(s: State, source: NetAddr)
    requires Inv(s)
    ensures Inv(PassiveStep(s, source))
  {
    if !Known(s.peers, Stored(source)) {
      MobilizeKeeps(s, Stored(source), SymPassive, 4, 10, false, false);
    }
  }

  lemma {:induction false} ConfigureKeeps(cs: seq<Config>)
    ensures Inv(ConfigureAll(cs))
  {
    if cs != [] {
      var s := ConfigureAll(cs[..|cs|-1]);
      ConfigureKeeps(cs[..|cs|-1]);
      match cs[|cs|-1] {
        case Remote(addr, active, minpoll, maxpoll, iburst) =>
          MobilizeKeeps(s, addr, if active then SymActive else Client, minpoll, maxpoll, iburst, false);
        case Refclock(addr) =>
          MobilizeKeeps(s, addr, Client, 4, 10, false, true);
      }
    }
  }

  lemma PeriodicCounts(s: State, p: TimerEvent -> bool)
    requires forall ev :: p(ev) ==> ev.Poll?
    ensures EventCount(s.(timers := s.timers + Periodic()), [], p) == EventCount(s, [], p)
  {
    SumConcat(Counting(HasEvent(p)), s.timers, Periodic());
    SumZero(Counting(HasEvent(p)), Periodic());
  }

  lemma PeriodicPolls(s: State)
    requires Basic(s, [])
    ensures Basic(s.(timers := s.timers + Periodic()), [])
  {
    var t := s.(timers := s.timers + Periodic());
    forall i: nat | i < |t.peers| ensures EventCount(t, [], Is(Poll(i))) == if t.peers[i].refclock then 0 else 1 {
      PeriodicCounts(s, Is(Poll(i)));
      assert EventCount(s, [], Is(Poll(i))) == if s.peers[i].refclock then 0 else 1;
    }
    PeriodicCounts(s, IsPoll());
  }

  lemma PeriodicTimed(s: State, i: nat)
    requires i < |s.peers| && Timed(s, [], 0, i)
    ensures Timed(s.(timers := s.timers + Periodic()), [], 0, i)
  {
    var t := s.(timers := s.timers + Periodic());
    assert forall u :: AllBefore(s, i, u) ==> AllBefore(t, i, u);
  }

  /** The state that any configuration leads to satisfies the invariant. */
  lemma InitialInv(cs: seq<Config>)
    ensures Inv(Initial(cs))
  {
    ConfigureKeeps(cs);
    PeriodicPolls(ConfigureAll(cs));
    forall i | 0 <= i < |Initial(cs).peers| ensures Timed(Initial(cs), [], 0, i) {
      PeriodicTimed(ConfigureAll(cs), i);
    }
  }

  // ---------- Runs ----------

  lemma StepBasic(s: State, ev: Event)
    requires Basic(s, [])
    ensures Basic(Step(s, ev), [])
  {
    match ev {
      case Tick(now) => TickBasic(s, now);
      case ServerResponse(d) => RespondBasic(s, d);
      case Passive(source) =>
        if !Known(s.peers, Stored(source)) {
          MobilizeBasic(s, Stored(source), SymPassive, 4, 10, false, false);
        }
    }
  }

  /** What holds of every configuration holds in every run, whatever the times of its ticks. */
  lemma {:induction false} RunBasic(s: State, evs: seq<Event>)
    requires Basic(s, [])
    ensures Basic(Run(s, evs), [])
  {
    if evs != [] {
      RunBasic(s, evs[..|evs|-1]);
      StepBasic(Run(s, evs[..|evs|-1]), evs[|evs|-1]);
    }
  }

  /** The invariant holds in every state of every run of ticks within an era, server
      responses and symmetric-passive packets. */
  lemma {:induction false} RunKeeps(s: State, evs: seq<Event>)
    requires Inv(s) && InEra(evs)
    ensures Inv(Run(s, evs))
  {
    if evs != [] {
      var last := evs[|evs|-1];
      RunKeeps(s, evs[..|evs|-1]);
      assert WithinEra(last);
      var mid := Run(s, evs[..|evs|-1]);
      match last {
        case Tick(now) => TickKeeps(mid, now);
        case ServerResponse(d) => RespondKeeps(mid, d);
        case Passive(source) => PassiveKeeps(mid, source);
      }
    }
  }

  /** In every run of every configuration at most 1000 requests are outstanding, association
      IDs are distinct and nonzero, each association that is not a reference clock has exactly
      one poll timer, and no initial burst has ever started. */
  lemma {:induction false} ReachableState(cs: seq<Config>, evs: seq<Event>, i: nat, j: nat)
    ensures var s := Run(Initial(cs), evs);
            && |s.pending| <= 1000
            && (i < j < |s.peers| ==> s.peers[i].associd != s.peers[j].associd)
            && (i < |s.peers| ==> 1 <= s.peers[i].associd <= 65535 && s.peers[i].burst == 0)
            && (i < |s.peers| ==>
                  Sum(Counting(HasEvent(Is(Poll(i)))), s.timers) == if s.peers[i].refclock then 0 else 1)
  {
    InitialInv(cs);
    RunBasic(Initial(cs), evs);
    var s := Run(Initial(cs), evs);
    assert i < |s.peers| ==> EventCount(s, [], Is(Poll(i))) == if s.peers[i].refclock then 0 else 1;
  }

  lemma DistinctWireTimes(s: State, k: nat, l: nat)
    requires Inv(s) && k < l < |s.pending| && s.pending[k].peer == s.pending[l].peer
    requires s.pending[k].peer < |s.peers| && Regular(s.peers[s.pending[k].peer])
    ensures s.pending[k].wireT1 != s.pending[l].wireT1
  {
    var i := s.pending[k].peer;
    assert Timed(s, [], 0, i) && InOrder(s, i);
    assert RequestOk(s.peers, s.pending[k]) && RequestOk(s.peers, s.pending[l]);
  }

  // ---------- Responses and associations ----------

  /** The association expects server responses. */
  predicate Asks(p: Assoc) { p.hmode != SymActive && !p.refclock }

  /** No two associations that expect server responses share an address. */
  ghost predicate SoleServers(ps: seq<Assoc>) {
    forall i, j :: 0 <= i < j < |ps| && Asks(ps[i]) && Asks(ps[j]) ==> ps[i].addr != ps[j].addr
  }

  /** A matching request was sent by an association that expects server responses to the
      address the response comes from, carrying the timestamp it returns. */
  lemma MatchedPeer(s: State, d: Response, k: nat)
    requires Basic(s, []) && k < |s.pending| && Matches(s.pending[k], d)
    ensures var req := s.pending[k];
            && req.peer < |s.peers| && s.peers[req.peer].addr == d.source == req.destination
            && Asks(s.peers[req.peer])
            && req.wireT1 == d.originate == ToWire(req.fullT1)
  {
    assert RequestOk(s.peers, s.pending[k]);
  }

  /** A response changes no association at another address, whatever its verdict, and a
      response from an address that no association expecting responses has changes nothing. */
  lemma WrongSourceIgnored(s: State, d: Response)
    requires Basic(s, [])
    ensures |Respond(s, d).peers| == |s.peers|
    ensures forall j :: 0 <= j < |s.peers| && s.peers[j].addr != d.source ==> Respond(s, d).peers[j] == s.peers[j]
    ensures (forall j :: 0 <= j < |s.peers| && Asks(s.peers[j]) ==> s.peers[j].addr != d.source) ==> Respond(s, d) == s
  {
    RespondShape(s, d);
    if FindPending(s.pending, d).Some? {
      MatchedPeer(s, d, FindPending(s.pending, d).value);
    }
  }

  /** An accepted response consumes exactly one outstanding request, one that was sent to the
      response's source; the association that sent it gains the sample, and no other changes. */
  lemma {:induction false} AcceptedSample(s: State, d: Response)
    requires Basic(s, []) && Judge(s, d) == Accepted
    ensures var i := FindPending(s.pending, d).value; var req, t := s.pending[i], Respond(s, d);
            && |t.pending| == |s.pending| - 1 && t.pending == RemoveAt(s.pending, i)
            && req.destination == d.source && req.wireT1 == d.originate
            && req.peer < |s.peers| == |t.peers| && s.peers[req.peer].addr == d.source
            && (forall j :: 0 <= j < |s.peers| && j != req.peer ==> t.peers[j] == s.peers[j])
            && t.peers[req.peer].samples == Recent([SampleFrom(s.peers[req.peer], req, d)] + s.peers[req.peer].samples)
            && t.peers[req.peer].originate == req.fullT1
  {
    var i := FindPending(s.pending, d).value;
    MatchedPeer(s, d, i);
    RespondShape(s, d);
    TakeSampleShape(s.peers[s.pending[i].peer], s.pending[i], d);
  }

  /** For a regular association the duplicate test fires exactly when the matched request was
      sent at time zero and the association has answered nothing else since. */
  lemma {:induction false} DuplicateAtZero(s: State, d: Response)
    requires Inv(s) && FindPending(s.pending, d).Some?
    requires var req := s.pending[FindPending(s.pending, d).value]; req.peer < |s.peers| && Regular(s.peers[req.peer])
    ensures var req := s.pending[FindPending(s.pending, d).value];
            Judge(s, d) == Duplicate <==>
            req.fullT1 == Timestamp(0, 0) && s.peers[req.peer].originate == Timestamp(0, 0)
  {
    var req := s.pending[FindPending(s.pending, d).value];
    assert RequestOk(s.peers, req);
    assert Timed(s, [], 0, req.peer) && InOrder(s, req.peer);
  }
}
