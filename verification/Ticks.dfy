/** What one tick sends: the requests of the polls that fire, and the timers set again. */
module Ticks {
  import opened Wrappers
  import opened Sums
  import opened Timers
  import opened Associds
  import opened Engine
  import opened EngineInvariants

  lemma {:induction false} FireAllLines(s: State, evs: seq<TimerEvent>, now: Timestamp)
    ensures SameButReach(s.peers, FireAll(s, evs, now).peers)
  {
    if evs != [] {
      FireAllLines(s, evs[..|evs|-1], now);
    }
  }

  /** The requests that the events cause, in order. */
  function Requests(ps: seq<Assoc>, evs: seq<TimerEvent>, now: Timestamp): seq<Pending> {
    if evs == [] then [] else
      var ev := evs[|evs|-1];
      Requests(ps, evs[..|evs|-1], now) +
      if ev.Poll? && ev.peer < |ps| then [RequestTo(ps[ev.peer], ev.peer, now)] else []
  }

  lemma LatestTwice(a: seq<Pending>, b: seq<Pending>)
    ensures Latest(Latest(a) + b) == Latest(a + b)
  {
  }

  /** What the queue keeps of a and b if b fits: all of b, and a tail of a. */
  lemma LatestSplit(a: seq<Pending>, b: seq<Pending>) returns (z: nat)
    requires |b| <= MAX_PENDING
    ensures z <= |a| && Latest(a + b) == a[z..] + b
  {
    z := if |a| + |b| <= MAX_PENDING then 0 else |a| + |b| - MAX_PENDING;
  }

  lemma {:induction false} FireAllPending(s: State, evs: seq<TimerEvent>, now: Timestamp)
    requires |s.pending| <= MAX_PENDING
    ensures FireAll(s, evs, now).pending == Latest(s.pending + Requests(s.peers, evs, now))
    ensures |FireAll(s, evs, now).pending| <= MAX_PENDING
  {
    if evs == [] {
      assert s.pending + [] == s.pending;
    } else {
      var init, ev := evs[..|evs|-1], evs[|evs|-1];
      var mid := FireAll(s, init, now);
      FireAllPending(s, init, now);
      FireAllLines(s, init, now);
      if ev.Poll? && ev.peer < |s.peers| {
        var r := RequestTo(s.peers[ev.peer], ev.peer, now);
        assert RequestTo(mid.peers[ev.peer], ev.peer, now) == r;
        EnqueueIsLatest(mid.pending, r);
        LatestTwice(s.pending + Requests(s.peers, init, now), [r]);
        assert s.pending + Requests(s.peers, evs, now) == s.pending + Requests(s.peers, init, now) + [r];
      } else {
        assert Requests(s.peers, evs, now) == Requests(s.peers, init, now);
      }
    }
  }

  lemma {:induction false} FireAllRearms(s: State, evs: seq<TimerEvent>, now: Timestamp, k: nat)
    requires k < |s.peers| && Poll(k) in evs
    ensures TimerEntry(Poll(k), now.seconds + Interval(s.peers[k].hpoll), 0) in FireAll(s, evs, now).timers
  {
    var init, ev := evs[..|evs|-1], evs[|evs|-1];
    assert evs == init + [ev];
    FireAllLines(s, init, now);
    if ev != Poll(k) {
      FireAllRearms(s, init, now, k);
    }
  }

  lemma {:induction false} RequestsFew(ps: seq<Assoc>, evs: seq<TimerEvent>, now: Timestamp)
    ensures |Requests(ps, evs, now)| <= Sum(CountingEvents(IsPoll()), evs)
  {
    if evs != [] {
      RequestsFew(ps, evs[..|evs|-1], now);
    }
  }

  /** Request x is one to its peer at that time, and its poll is among the events. */
  lemma {:induction false} RequestsFrom(ps: seq<Assoc>, evs: seq<TimerEvent>, now: Timestamp, x: nat)
    requires x < |Requests(ps, evs, now)|
    ensures var r := Requests(ps, evs, now)[x];
            r.peer < |ps| && r == RequestTo(ps[r.peer], r.peer, now) && Poll(r.peer) in evs
  {
    var init := evs[..|evs|-1];
    assert evs == init + [evs[|evs|-1]];
    if x < |Requests(ps, init, now)| {
      RequestsFrom(ps, init, now, x);
    }
  }

  lemma {:induction false} RequestsHave(ps: seq<Assoc>, evs: seq<TimerEvent>, now: Timestamp, k: nat)
    requires k < |ps| && Poll(k) in evs
    ensures RequestTo(ps[k], k, now) in Requests(ps, evs, now)
  {
    var init := evs[..|evs|-1];
    assert evs == init + [evs[|evs|-1]];
    if evs[|evs|-1] != Poll(k) {
      RequestsHave(ps, init, now, k);
    }
  }

  /** Two requests to one peer come from two of its poll events. */
  lemma {:induction false} RequestsTwice(ps: seq<Assoc>, evs: seq<TimerEvent>, now: Timestamp, x: nat, y: nat)
    requires x < y < |Requests(ps, evs, now)|
    requires Requests(ps, evs, now)[x].peer == Requests(ps, evs, now)[y].peer
    ensures Sum(CountingEvents(Is(Poll(Requests(ps, evs, now)[x].peer))), evs) >= 2
  {
    var init, ev := evs[..|evs|-1], evs[|evs|-1];
    var k := Requests(ps, evs, now)[x].peer;
    var w := CountingEvents(Is(Poll(k)));
    if y < |Requests(ps, init, now)| {
      RequestsTwice(ps, init, now, x, y);
    } else {
      RequestsFrom(ps, init, now, x);
      EventCounted(Poll(k), init);
      assert ev == Poll(k);
    }
    assert Sum(w, evs) == Sum(w, init) + w(ev);
  }

  function Sent(s: State, now: Timestamp): seq<Pending> {
    Requests(s.peers, Fired(s.timers, now.seconds), now)
  }

  lemma SentAt(s: State, now: Timestamp, x: nat)
    requires x < |Sent(s, now)|
    ensures var r := Sent(s, now)[x]; r.peer < |s.peers| && r == RequestTo(s.peers[r.peer], r.peer, now)
  {
    RequestsFrom(s.peers, Fired(s.timers, now.seconds), now, x);
  }

  /** No two requests go to one peer. */
  ghost predicate OneEach(q: seq<Pending>) {
    forall x, y :: 0 <= x < y < |q| ==> q[x].peer != q[y].peer
  }

  lemma {:induction false} OnePollFired(s: State, evs: seq<TimerEvent>, k: nat)
    requires Basic(s, evs) && k < |s.peers|
    ensures Sum(CountingEvents(Is(Poll(k))), evs) <= 1
  {
    EntryCounted(Poll(k), s.timers);
    assert EventCount(s, evs, Is(Poll(k))) == if s.peers[k].refclock then 0 else 1;
  }

  /** A tick adds the requests of its polls, at most one to each peer. */
  lemma TickSends(s: State, now: Timestamp)
    requires Basic(s, [])
    ensures var t := TickStep(s, now);
            && t.pending == Latest(s.pending + Sent(s, now))
            && SameButReach(s.peers, t.peers)
            && |Sent(s, now)| <= |s.peers| && OneEach(Sent(s, now))
  {
    var evs, p := Fired(s.timers, now.seconds), Popped(s, now.seconds);
    PopBasic(s, now.seconds);
    FireAllPending(p, evs, now);
    FireAllLines(p, evs, now);
    RequestsFew(s.peers, evs, now);
    SumNonNegative(Counting(HasEvent(IsPoll())), p.timers);
    var q := Sent(s, now);
    forall x, y | 0 <= x < y < |q| ensures q[x].peer != q[y].peer {
      if q[x].peer == q[y].peer {
        var k := q[x].peer;
        RequestsTwice(s.peers, evs, now, x, y);
        RequestsFrom(s.peers, evs, now, x);
        OnePollFired(p, evs, k);
      }
    }
  }

  /** What goes out is what is noted as outstanding: one message for each request, to its destination
      and with its timestamp. */
  lemma {:induction false} SendsAreRequests(ps: seq<Assoc>, evs: seq<TimerEvent>, now: Timestamp)
    ensures var q, sends := Requests(ps, evs, now), SendsOf(ps, evs, now);
            |sends| == |q| && forall x :: 0 <= x < |q| ==> sends[x] == Send(q[x].destination, q[x].wireT1)
  {
    if evs != [] {
      SendsAreRequests(ps, evs[..|evs|-1], now);
    }
  }

  /** A due peer is asked, and its timer set again. */
  lemma TickAsks(s: State, now: Timestamp, k: nat, due: int)
    requires Basic(s, []) && k < |s.peers| && TimerEntry(Poll(k), due, 0) in s.timers && due <= now.seconds
    ensures RequestTo(s.peers[k], k, now) in Sent(s, now)
    ensures TimerEntry(Poll(k), now.seconds + Interval(s.peers[k].hpoll), 0) in TickStep(s, now).timers
  {
    var evs := Fired(s.timers, now.seconds);
    DueFires(s.timers, now.seconds, TimerEntry(Poll(k), due, 0));
    RequestsHave(s.peers, evs, now, k);
    FireAllRearms(Popped(s, now.seconds), evs, now, k);
  }
}
