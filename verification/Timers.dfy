/** The timer queue: scheduling, firing and re-arming. */
module Timers {
  import opened Sums

  datatype TimerEvent = Poll(peer: nat) | Reachability | Housekeeping | LeapFileReload | StatsWrite

  /** interval 0 is a one-shot timer. */
  datatype TimerEntry = TimerEntry(event: TimerEvent, due: int, interval: nat)

  // ---------- Specification ----------

  /** The next due time strictly after now, and how many intervals were missed. */
  function AdvancePast(e: TimerEntry, now: int): (TimerEntry, nat) {
    if e.interval == 0 || e.due > now then (e, 0)
    else
      var missed := (now - e.due) / e.interval + 1;
      (e.(due := e.due + missed * e.interval), missed)
  }

  /** A repeating entry moves to the least time of its own grid that lies after now. */
  lemma AdvanceIsLeast(e: TimerEntry, now: int, k: int)
    requires e.interval > 0
    ensures var (a, missed) := AdvancePast(e, now);
            && a == e.(due := e.due + missed * e.interval)
            && a.due > now
            && (missed > 0 ==> a.due - e.interval <= now)
            && (k >= 0 && e.due + k * e.interval > now ==> missed <= k)
  {
    var i := e.interval;
    if e.due <= now {
      var q := (now - e.due) / i;
      var r := (now - e.due) % i;
      assert now - e.due == q * i + r;
      assert (q + 1) * i == q * i + i;
      if 0 <= k <= q {
        assert (q - k) * i >= 0;
        assert k * i <= q * i;
      }
    }
  }

  predicate IsDue(e: TimerEntry, now: int) { e.due <= now }

  /** The events of the due entries, in queue order. */
  function Fired(entries: seq<TimerEntry>, now: int): seq<TimerEvent> {
    if entries == [] then [] else
      var last := entries[|entries|-1];
      Fired(entries[..|entries|-1], now) + if IsDue(last, now) then [last.event] else []
  }

  /** The queue after popping: one-shots that fired are gone, repeating ones have moved on. */
  function Remaining(entries: seq<TimerEntry>, now: int): seq<TimerEntry> {
    if entries == [] then [] else
      var last := entries[|entries|-1];
      Remaining(entries[..|entries|-1], now) +
      if !IsDue(last, now) then [last]
      else if last.interval > 0 then [AdvancePast(last, now).0]
      else []
  }

  lemma {:induction false} FiredPrefix(entries: seq<TimerEntry>, now: int, k: nat)
    requires k < |entries|
    ensures Fired(entries[..k+1], now) == Fired(entries[..k], now) +
              if IsDue(entries[k], now) then [entries[k].event] else []
    ensures Remaining(entries[..k+1], now) == Remaining(entries[..k], now) +
              if !IsDue(entries[k], now) then [entries[k]]
              else if entries[k].interval > 0 then [AdvancePast(entries[k], now).0] else []
  {
    assert entries[..k+1][..k] == entries[..k];
  }

  /** Nothing is left due. */
  lemma {:induction false} NothingDueLeft(entries: seq<TimerEntry>, now: int)
    ensures forall e :: e in Remaining(entries, now) ==> !IsDue(e, now)
  {
    if entries != [] {
      var last := entries[|entries|-1];
      NothingDueLeft(entries[..|entries|-1], now);
      if IsDue(last, now) && last.interval > 0 {
        AdvanceIsLeast(last, now, 0);
      }
    }
  }

  function Counting(p: TimerEntry -> bool): TimerEntry -> int {
    (e: TimerEntry) => if p(e) then 1 else 0
  }

  function CountingEvents(p: TimerEvent -> bool): TimerEvent -> int {
    (e: TimerEvent) => if p(e) then 1 else 0
  }

  function Is(ev: TimerEvent): TimerEvent -> bool { (e: TimerEvent) => e == ev }
  function IsPoll(): TimerEvent -> bool { (e: TimerEvent) => e.Poll? }

  function HasEvent(p: TimerEvent -> bool): TimerEntry -> bool { (e: TimerEntry) => p(e.event) }
  function DueWith(p: TimerEvent -> bool, now: int): TimerEntry -> bool {
    (e: TimerEntry) => p(e.event) && IsDue(e, now)
  }
  function ExpiringWith(p: TimerEvent -> bool, now: int): TimerEntry -> bool {
    (e: TimerEntry) => p(e.event) && IsDue(e, now) && e.interval == 0
  }

  /** Every due entry fires exactly once, and an entry leaves the queue exactly when it is a
      due one-shot: counted for the events of any kind. */
  lemma {:induction false} PopConserves(entries: seq<TimerEntry>, now: int, p: TimerEvent -> bool)
    ensures Sum(CountingEvents(p), Fired(entries, now)) == Sum(Counting(DueWith(p, now)), entries)
    ensures Sum(Counting(HasEvent(p)), Remaining(entries, now))
         == Sum(Counting(HasEvent(p)), entries) - Sum(Counting(ExpiringWith(p, now)), entries)
  {
    if entries != [] {
      var init, last := entries[..|entries|-1], entries[|entries|-1];
      PopConserves(init, now, p);
      if IsDue(last, now) {
        SumSnoc(CountingEvents(p), Fired(init, now), last.event);
        if last.interval > 0 {
          SumSnoc(Counting(HasEvent(p)), Remaining(init, now), AdvancePast(last, now).0);
        } else {
          assert Remaining(entries, now) == Remaining(init, now);
        }
      } else {
        assert Fired(entries, now) == Fired(init, now);
        SumSnoc(Counting(HasEvent(p)), Remaining(init, now), last);
      }
    }
  }

  /** Events fire in queue order, and what stays keeps its order. */
  lemma {:induction false} QueueOrder(a: seq<TimerEntry>, b: seq<TimerEntry>, now: int)
    ensures Fired(a + b, now) == Fired(a, now) + Fired(b, now)
    ensures Remaining(a + b, now) == Remaining(a, now) + Remaining(b, now)
  {
    if b == [] {
      assert a + b == a;
    } else {
      assert (a + b)[..|a + b|-1] == a + b[..|b|-1];
      QueueOrder(a, b[..|b|-1], now);
    }
  }

  /** Entries that are not due stay as they are. */
  lemma {:induction false} NotDueStays(entries: seq<TimerEntry>, now: int, e: TimerEntry)
    requires e in entries && !IsDue(e, now)
    ensures e in Remaining(entries, now)
  {
    var last := entries[|entries|-1];
    assert entries == entries[..|entries|-1] + [last];
    if e != last {
      NotDueStays(entries[..|entries|-1], now, e);
    }
  }

  lemma {:induction false} DueFires(entries: seq<TimerEntry>, now: int, e: TimerEntry)
    requires e in entries && IsDue(e, now)
    ensures e.event in Fired(entries, now)
  {
    var last := entries[|entries|-1];
    assert entries == entries[..|entries|-1] + [last];
    if e != last {
      DueFires(entries[..|entries|-1], now, e);
    }
  }

  /** What remains under a one-shot-only event is a subset of what was there. */
  lemma {:induction false} RemainingOrigin(entries: seq<TimerEntry>, now: int, e: TimerEntry)
    requires e in Remaining(entries, now)
    ensures exists f :: f in entries && f.event == e.event && f.interval == e.interval && (f.interval == 0 ==> f == e)
  {
    var init, last := entries[..|entries|-1], entries[|entries|-1];
    assert entries == init + [last];
    if e in Remaining(init, now) {
      RemainingOrigin(init, now, e);
      var f :| f in init && f.event == e.event && f.interval == e.interval && (f.interval == 0 ==> f == e);
      assert f in entries;
    } else {
      assert last in entries;
    }
  }

  lemma {:induction false} FiredOrigin(entries: seq<TimerEntry>, now: int, ev: TimerEvent)
    requires ev in Fired(entries, now)
    ensures exists f :: f in entries && f.event == ev && IsDue(f, now)
  {
    var init, last := entries[..|entries|-1], entries[|entries|-1];
    assert entries == init + [last];
    if ev in Fired(init, now) {
      FiredOrigin(init, now, ev);
      var f :| f in init && f.event == ev && IsDue(f, now);
      assert f in entries;
    } else {
      assert last in entries;
    }
  }

  // ---------- The queue ----------

  class TimerQueue {
    var entries: seq<TimerEntry>

    constructor ()
      ensures entries == []
    {
      entries := [];
    }

    method Add(e: TimerEntry)
      modifies this
      ensures entries == old(entries) + [e]
    {
      entries := entries + [e];
    }

    /** A poll timer due one interval from now; interval 0 makes it a one-shot. */
    method SchedulePoll(peer: nat, now: int, interval: nat)
      modifies this
      ensures entries == old(entries) + [TimerEntry(Poll(peer), now + interval, interval)]
    {
      Add(TimerEntry(Poll(peer), now + interval, interval));
    }

    method SchedulePollOnce(peer: nat, due: int)
      modifies this
      ensures entries == old(entries) + [TimerEntry(Poll(peer), due, 0)]
    {
      Add(TimerEntry(Poll(peer), due, 0));
    }

    method PopDue(now: int) returns (fired: seq<TimerEvent>)
      modifies this
      ensures fired == Fired(old(entries), now)
      ensures entries == Remaining(old(entries), now)
    {
      var drained, keep := entries, [];
      fired, entries := [], [];
      for k := 0 to |drained|
        invariant fired == Fired(drained[..k], now)
        invariant keep == Remaining(drained[..k], now)
      {
        FiredPrefix(drained, now, k);
        var entry := drained[k];
        if entry.due <= now {
          fired := fired + [entry.event];
          if entry.interval > 0 {
            keep := keep + [AdvancePast(entry, now).0];
          }
        } else {
          keep := keep + [entry];
        }
      }
      assert drained[..|drained|] == drained;
      entries := keep;
    }
  }
}
