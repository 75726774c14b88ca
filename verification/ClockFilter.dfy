/** The eight-sample clock filter (RFC 5905, section 10), fed by the on-wire offset and
    delay (section 8), and the error bound it gives. */
module ClockFilters {
  import opened Wrappers
  import opened Sums

  const SHIFT := 8

  datatype Sample = Sample(offset: real, delay: real, dispersion: real, time: real)

  // ---------- Specification on the history, newest sample first ----------

  function Recent<T>(h: seq<T>): (r: seq<T>)
    ensures |r| <= SHIFT
  {
    if |h| <= SHIFT then h else h[..SHIFT]
  }

  /** The first sample of least delay. */
  function Best(s: seq<Sample>): (r: Sample)
    requires s != []
    ensures r in s && forall x :: x in s ==> r.delay <= x.delay
  {
    if |s| == 1 then s[0] else
      var rest := Best(s[1..]);
      assert s == [s[0]] + s[1..];
      if s[0].delay <= rest.delay then s[0] else rest
  }

  function SquaredResidual(at: real): Sample -> real {
    (x: Sample) => (x.offset - at) * (x.offset - at)
  }

  /** The squared filter jitter around an offset. */
  function JitterSq(s: seq<Sample>, at: real): real {
    if |s| < 2 then 0.0 else RealSum(SquaredResidual(at), s) / (|s| - 1) as real
  }

  // ---------- On-wire arithmetic ----------

  /** Offset and delay from the four timestamps of an exchange. */
  function ComputeOffsets(t1: real, t2: real, t3: real, t4: real): (real, real) {
    (((t2 - t1) + (t3 - t4)) / 2.0, (t4 - t1) - (t3 - t2))
  }

  function Abs(x: real): real { if x < 0.0 then -x else x }

  function Clamp(x: real): real { if x < 0.0 then 0.0 else x }

  /** The sample is within half its delay of the true offset. */
  predicate Honest(theta: real, x: Sample) {
    x.delay >= 0.0 && Abs(x.offset - theta) <= x.delay / 2.0
  }

  /** One exchange with a server whose clock is ahead by theta: sent at t1, `up` on the way
      there, `hold` at the server, `down` on the way back. */
  datatype Exchange = Exchange(t1: real, up: real, hold: real, down: real, dispersion: real)

  function SampleOf(theta: real, x: Exchange): Sample {
    var t2 := x.t1 + x.up + theta;
    var t3 := t2 + x.hold;
    var t4 := x.t1 + x.up + x.hold + x.down;
    var (offset, delay) := ComputeOffsets(x.t1, t2, t3, t4);
    Sample(offset, Clamp(delay), x.dispersion, t4)
  }

  lemma ExchangeIsHonest(theta: real, x: Exchange)
    requires x.up >= 0.0 && x.down >= 0.0
    ensures Honest(theta, SampleOf(theta, x))
    ensures SampleOf(theta, x).delay == x.up + x.down
  {
  }

  /** If the samples in the register are honest, the filtered offset is within half of
      every delay in the register. */
  lemma {:induction false} FilteredError(theta: real, s: seq<Sample>, d: Sample)
    requires s != [] && d in s
    requires forall x :: x in s ==> Honest(theta, x)
    ensures Abs(Best(s).offset - theta) <= d.delay / 2.0
  {
    assert Honest(theta, Best(s));
  }

  function Samples(theta: real, run: seq<Exchange>): (r: seq<Sample>)
    ensures |r| == |run|
  {
    seq(|run|, i requires 0 <= i < |run| => SampleOf(theta, run[i]))
  }

  /** For any run of exchanges (newest first) with non-negative path delays, the offset the
      filter reports is within half the round trip of each of the last eight exchanges. */
  lemma RunError(theta: real, run: seq<Exchange>, i: nat)
    requires i < |run| && i < 8
    requires forall x :: x in run ==> x.up >= 0.0 && x.down >= 0.0
    ensures Abs(Best(Recent(Samples(theta, run))).offset - theta) <= (run[i].up + run[i].down) / 2.0
  {
    var all := Samples(theta, run);
    var s := Recent(all);
    forall x | x in s ensures Honest(theta, x) {
      var j :| 0 <= j < |s| && s[j] == x;
      assert all[j] == x && run[j] in run;
      ExchangeIsHonest(theta, run[j]);
    }
    assert s[i] in s && run[i] in run;
    ExchangeIsHonest(theta, run[i]);
    FilteredError(theta, s, s[i]);
  }

  // ---------- The shift register ----------

  class ClockFilter {
    const entries: array<Option<Sample>>
    var count: nat
    ghost var history: seq<Sample>  // newest first, from the last clear

    ghost predicate Valid()
      reads this, entries
    {
      && entries.Length == SHIFT
      && count == |Recent(history)|
      && forall i :: 0 <= i < SHIFT ==> entries[i] == if i < |history| then Some(history[i]) else None
    }

    constructor ()
      ensures Valid() && history == [] && fresh(entries)
    {
      entries := new Option<Sample>[SHIFT](i => None);
      count, history := 0, [];
    }

    method AddSample(x: Sample)
      requires Valid()
      modifies this, entries
      ensures Valid() && history == [x] + old(history)
    {
      var i := SHIFT - 1;
      while i >= 1
        invariant 0 <= i < SHIFT
        invariant forall j :: 0 <= j <= i ==> entries[j] == old(entries[j])
        invariant forall j :: i < j < SHIFT ==> entries[j] == old(entries[j-1])
        invariant count == old(count) && history == old(history)
      {
        entries[i] := entries[i-1];
        i := i - 1;
      }
      entries[0] := Some(x);
      count := (if count < SHIFT - 1 then count else SHIFT - 1) + 1;
      history := [x] + history;
    }

    /** The samples present in entries[..n]. */
    function Present(n: nat): seq<Sample>
      requires n <= entries.Length
      reads this, entries
    {
      if n == 0 then []
      else if entries[n-1].Some? then Present(n - 1) + [entries[n-1].value] else Present(n - 1)
    }

    lemma {:induction false} PresentIsHistory(n: nat)
      requires Valid() && n <= SHIFT
      ensures Present(n) == if |history| <= n then history else history[..n]
    {
      if n > 0 {
        PresentIsHistory(n - 1);
        if n <= |history| {
          assert history[..n] == history[..n-1] + [history[n-1]];
        }
      }
    }

    /** The sample of least delay, if there is any sample. */
    function Filter(): (r: Option<Sample>)
      requires Valid()
      reads this, entries
      ensures r == if history == [] then None else Some(Best(Recent(history)))
    {
      PresentIsHistory(SHIFT);
      var samples := Present(SHIFT);
      if samples == [] then None else Some(Best(samples))
    }

    function FilterJitterSq(at: real): (r: real)
      requires Valid()
      reads this, entries
      ensures r == JitterSq(Recent(history), at)
    {
      PresentIsHistory(SHIFT);
      JitterSq(Present(SHIFT), at)
    }
  }

  function Pow2(n: nat): (r: nat)
    ensures r >= 1
  {
    if n == 0 then 1 else 2 * Pow2(n - 1)
  }

  /** One shifted left by an 8-bit poll exponent: the shift count is taken modulo 64. */
  function PollSpan(hpoll: nat): (r: nat)
    ensures r >= 1
  {
    Pow2(hpoll % 64)
  }

  /** The part of a peer association that accepting a sample updates. */
  class PeerClock {
    const filter: ClockFilter
    var offset: real
    var delay: real
    var dispersion: real
    var jitterSq: real
    var reach: bv8
    var hpoll: nat
    var receiveTime: real

    ghost predicate Valid()
      reads this, filter, filter.entries
    {
      && filter.Valid()
      && (filter.history != [] ==>
            var best := Best(Recent(filter.history));
            offset == best.offset && delay == best.delay && dispersion == best.dispersion
            && jitterSq == JitterSq(Recent(filter.history), offset) && reach != 0)
    }

    constructor (hpoll: nat)
      ensures Valid() && filter.history == [] && fresh(filter) && fresh(filter.entries)
    {
      filter := new ClockFilter();
      offset, delay, dispersion, jitterSq, reach, receiveTime := 0.0, 0.0, 0.0, 0.0, 0, 0.0;
      this.hpoll := hpoll;
    }

    method AcceptSample(offset: real, delay: real, dispersion: real, now: real)
      requires Valid()
      modifies this, filter, filter.entries
      ensures Valid() && hpoll == old(hpoll) && receiveTime == now
      ensures filter.history == [Sample(offset, Clamp(delay), dispersion + PollSpan(hpoll) as real * 0.000001, now)]
          + old(filter.history)
      ensures reach == (old(reach) << 1) | 1
    {
      filter.AddSample(Sample(offset, Clamp(delay), dispersion + PollSpan(hpoll) as real * 0.000001, now));
      var filtered := filter.Filter();
      if filtered.Some? {
        this.offset, this.delay, this.dispersion :=
            filtered.value.offset, filtered.value.delay, filtered.value.dispersion;
      }
      jitterSq := filter.FilterJitterSq(this.offset);
      reach := (reach << 1) | 1;
      receiveTime := now;
    }

    /** While the samples so far are honest, so is the offset: it is off by at most half the
        least delay in the register. */
    lemma OffsetError(theta: real, x: Sample)
      requires Valid() && x in Recent(filter.history)
      requires forall y :: y in Recent(filter.history) ==> Honest(theta, y)
      ensures Abs(offset - theta) <= delay / 2.0 <= x.delay / 2.0
    {
      FilteredError(theta, Recent(filter.history), Best(Recent(filter.history)));
    }
  }
}
