/** The daemon engine as a state machine: polls, outstanding requests, response matching,
    ephemeral associations. The transition functions come first, then the class whose methods
    carry out the transitions in place. */
module Engine {
  import opened Wrappers
  import opened Sums
  import opened Timers
  import opened ClockFilters
  import opened Associds
  import Selection

  const ERA := 0x1_0000_0000
  const MAX_PENDING := 1000
  const MINPOLL := 4

  type U8 = n: nat | n < 256

  /** Full-resolution time; the fraction counts units of 2^-32 s. */
  datatype Timestamp = Timestamp(seconds: int, fraction: nat)

  /** The 64-bit wire form: seconds wrap at the era. */
  datatype WireTime = WireTime(seconds: int, fraction: nat)

  const ZERO := Timestamp(0, 0)

  function ToWire(t: Timestamp): WireTime { WireTime(t.seconds % ERA, t.fraction) }
  function FromWire(w: WireTime): Timestamp { Timestamp(w.seconds, w.fraction) }
  function ToReal(t: Timestamp): real { t.seconds as real + t.fraction as real / 4294967296.0 }

  datatype NetAddr =
    | IPv4(a: U8, b: U8, c: U8, d: U8, port: nat)
    | IPv6(addr: seq<U8>, port: nat)

  datatype Mode = SymActive | SymPassive | Client | Server

  /** A peer association, as far as polling and response handling touch it. Reference-clock
      associations have no poll timer. */
  datatype Assoc = Assoc(
    associd: nat,
    addr: NetAddr,
    hmode: Mode,
    minpoll: U8,
    maxpoll: U8,
    hpoll: U8,
    iburst: bool,
    burst: nat,
    reach: bv8,
    originate: Timestamp,
    samples: seq<Sample>,
    refclock: bool)

  datatype Pending = Pending(peer: nat, wireT1: WireTime, fullT1: Timestamp, destination: NetAddr, expectedMode: Mode)

  datatype State = State(peers: seq<Assoc>, timers: seq<TimerEntry>, pending: seq<Pending>, nextId: nat)

  // ---------- Ticks ----------

  /** One shifted by the poll exponent, cast to 32 bits. */
  function Interval(hpoll: U8): nat { PollSpan(hpoll) % ERA }

  function RequestTo(p: Assoc, id: nat, now: Timestamp): Pending {
    Pending(id, ToWire(now), now, p.addr, if p.hmode == SymActive then SymPassive else Server)
  }

  /** Record a request, forgetting the oldest beyond the limit. */
  function Enqueue(q: seq<Pending>, r: Pending): seq<Pending> {
    if |q| >= MAX_PENDING then (q + [r])[1..] else q + [r]
  }

  function PollPeer(s: State, id: nat, now: Timestamp): State {
    if id >= |s.peers| then s else
      var p := s.peers[id];
      s.(pending := Enqueue(s.pending, RequestTo(p, id, now)),
         timers := s.timers + [TimerEntry(Poll(id), now.seconds + Interval(p.hpoll), 0)])
  }

  function MissedReach(p: Assoc): Assoc { p.(reach := p.reach << 1) }

  function AllMissed(ps: seq<Assoc>): (r: seq<Assoc>)
    ensures |r| == |ps|
  {
    seq(|ps|, i requires 0 <= i < |ps| => MissedReach(ps[i]))
  }

  /** Housekeeping runs selection, which changes nothing that is kept here. */
  function Fire(s: State, ev: TimerEvent, now: Timestamp): State {
    match ev
    case Poll(id) => PollPeer(s, id, now)
    case Reachability => s.(peers := AllMissed(s.peers))
    case _ => s
  }

  function FireAll(s: State, evs: seq<TimerEvent>, now: Timestamp): State {
    if evs == [] then s else Fire(FireAll(s, evs[..|evs|-1], now), evs[|evs|-1], now)
  }

  function TickStep(s: State, now: Timestamp): State {
    FireAll(s.(timers := Remaining(s.timers, now.seconds)), Fired(s.timers, now.seconds), now)
  }

  // ---------- Responses ----------

  /** A server response and the time it came in. */
  datatype Response = Response(
    source: NetAddr,
    originate: WireTime,
    receive: WireTime,
    transmit: WireTime,
    stratum: nat,
    rootDispersion: real,
    rx: Timestamp)

  predicate Matches(r: Pending, d: Response) {
    r.wireT1 == d.originate && r.destination == d.source && r.expectedMode == Server
  }

  function FindPending(q: seq<Pending>, d: Response): (r: Option<nat>)
    ensures r.Some? ==> r.value < |q| && Matches(q[r.value], d) && forall i :: 0 <= i < r.value ==> !Matches(q[i], d)
    ensures r.None? ==> forall i :: 0 <= i < |q| ==> !Matches(q[i], d)
  {
    if q == [] then None else
      var r := FindPending(q[..|q|-1], d);
      if r.Some? then r else if Matches(q[|q|-1], d) then Some(|q| - 1) else None
  }

  datatype Verdict = Unsolicited | Orphaned | Duplicate | Refused | Insane | Accepted

  function Measure(req: Pending, d: Response): (real, real) {
    ComputeOffsets(ToReal(req.fullT1), ToReal(FromWire(d.receive)), ToReal(FromWire(d.transmit)), ToReal(d.rx))
  }

  function Judge(s: State, d: Response): Verdict {
    var m := FindPending(s.pending, d);
    if m.None? then Unsolicited
    else
      var req := s.pending[m.value];
      if req.peer >= |s.peers| then Orphaned
      else if s.peers[req.peer].originate == req.fullT1 then Duplicate
      else if d.stratum == 0 || d.stratum >= Selection.MAXSTRAT then Refused
      else if Abs(Measure(req, d).0) > 1000000.0 then Insane
      else Accepted
  }

  function MinN(a: nat, b: nat): nat { if a < b then a else b }
  function MaxN(a: nat, b: nat): nat { if a < b then b else a }
  function MinusSat(a: nat, b: nat): nat { if a < b then 0 else a - b }

  /** The adaptive poll exponent and the burst count; `offset` is the filtered offset. The
      exponents are bytes, and so are their sums. */
  function PollUpdate(p: Assoc, offset: real): (U8, nat) {
    var burst := if p.iburst && p.reach == 0 && p.burst == 0 then 8 else p.burst;
    if burst > 0 then
      (MinN(MINPOLL + 1, MaxN(p.minpoll, MINPOLL + 1)), burst - 1)
    else if p.reach != 0 then
      if Abs(offset) < 0.128 then (MinN((p.hpoll + 1) % 256, p.maxpoll), 0)
      else if Abs(offset) < 1.0 then
        if p.hpoll < (p.minpoll + p.maxpoll) % 256 / 2 then (MinN(MinN(p.hpoll + 1, 255), p.maxpoll), 0)
        else (p.hpoll, 0)
      else (MaxN(MinusSat(p.hpoll, 1), p.minpoll), 0)
    else (MaxN(MinusSat(p.hpoll, 2), p.minpoll), 0)
  }

  function SampleFrom(p: Assoc, req: Pending, d: Response): Sample {
    var (offset, delay) := Measure(req, d);
    var pollDisp := PollSpan(p.hpoll) as real * 0.000001;
    Sample(offset, Clamp(Clamp(delay)), d.rootDispersion + pollDisp + pollDisp, ToReal(d.rx))
  }

  /** The association after taking a sample. */
  function TakeSample(p: Assoc, req: Pending, d: Response): Assoc {
    var samples := Recent([SampleFrom(p, req, d)] + p.samples);
    var q := p.(samples := samples, reach := (p.reach << 1) | 1, originate := req.fullT1);
    var (hpoll, burst) := PollUpdate(q, Best(samples).offset);
    q.(hpoll := hpoll, burst := burst)
  }

  function Respond(s: State, d: Response): State {
    var v := Judge(s, d);
    if v == Unsolicited || v == Orphaned || v == Duplicate then s
    else
      var i := FindPending(s.pending, d).value;
      var req := s.pending[i];
      var rest := s.(pending := RemoveAt(s.pending, i));
      if v == Refused then rest.(peers := s.peers[req.peer := MissedReach(s.peers[req.peer])])
      else if v == Insane then rest
      else rest.(peers := s.peers[req.peer := TakeSample(s.peers[req.peer], req, d)])
  }

  // ---------- New associations ----------

  function UsedIds(ps: seq<Assoc>): set<nat> {
    set i | 0 <= i < |ps| :: ps[i].associd
  }

  function NewAssoc(id: nat, addr: NetAddr, hmode: Mode, minpoll: U8, maxpoll: U8, iburst: bool,
      refclock: bool): Assoc {
    Assoc(id, addr, hmode, minpoll, maxpoll, minpoll, iburst, 0, 0, ZERO, [], refclock)
  }

  function Mobilize(s: State, addr: NetAddr, hmode: Mode, minpoll: U8, maxpoll: U8, iburst: bool,
      refclock: bool): State {
    var id := Allocate(s.nextId, UsedIds(s.peers));
    var s := s.(nextId := CursorAfter(s.nextId, UsedIds(s.peers)));
    if id.None? then s
    else
      s.(peers := s.peers + [NewAssoc(id.value, addr, hmode, minpoll, maxpoll, iburst, refclock)],
         timers := if refclock then s.timers else s.timers + [TimerEntry(Poll(|s.peers|), 0, 0)])
  }

  predicate Known(ps: seq<Assoc>, addr: NetAddr) {
    exists i :: 0 <= i < |ps| && ps[i].addr == addr
  }

  /** Under which address the source of a symmetric-passive packet is looked up and stored. The
      socket address is built with the octets of an IPv4 address taken as a big-endian number; on
      a little-endian host, where configured addresses keep their order, that reverses them. */
  function Stored(source: NetAddr): NetAddr {
    match source
    case IPv4(a, b, c, d, port) => IPv4(d, c, b, a, port)
    case IPv6(_, _) => source
  }

  /** A symmetric-passive packet creates an association unless its source, as stored, has one. */
  function PassiveStep(s: State, source: NetAddr): State {
    if Known(s.peers, Stored(source)) then s else Mobilize(s, Stored(source), SymPassive, 4, 10, false, false)
  }

  // ---------- Configuration ----------

  datatype Config =
    | Remote(addr: NetAddr, active: bool, minpoll: U8, maxpoll: U8, iburst: bool)
    | Refclock(addr: NetAddr)

  function Configure(s: State, c: Config): State {
    match c
    case Remote(addr, active, minpoll, maxpoll, iburst) =>
      Mobilize(s, addr, if active then SymActive else Client, minpoll, maxpoll, iburst, false)
    case Refclock(addr) =>
      Mobilize(s, addr, Client, 4, 10, false, true)
  }

  function ConfigureAll(cs: seq<Config>): State {
    if cs == [] then State([], [], [], 1) else Configure(ConfigureAll(cs[..|cs|-1]), cs[|cs|-1])
  }

  function Periodic(): seq<TimerEntry> {
    [TimerEntry(Housekeeping, 64, 64), TimerEntry(Reachability, 64, 64), TimerEntry(StatsWrite, 10, 10)]
  }

  /** A fresh engine with one configuration applied. */
  function Initial(cs: seq<Config>): State {
    var s := ConfigureAll(cs);
    s.(timers := s.timers + Periodic())
  }

  // ---------- Runs ----------

  datatype Event = Tick(now: Timestamp) | ServerResponse(d: Response) | Passive(source: NetAddr)

  function Step(s: State, ev: Event): State {
    match ev
    case Tick(now) => TickStep(s, now)
    case ServerResponse(d) => Respond(s, d)
    case Passive(source) => PassiveStep(s, source)
  }

  function Run(s: State, evs: seq<Event>): State {
    if evs == [] then s else Step(Run(s, evs[..|evs|-1]), evs[|evs|-1])
  }

  /** Ticks happen within one era. */
  predicate WithinEra(ev: Event) {
    ev.Tick? ==> 0 <= ev.now.seconds < ERA
  }

  ghost predicate InEra(evs: seq<Event>) {
    forall ev :: ev in evs ==> WithinEra(ev)
  }

  // ---------- The engine ----------

  /** What a tick sends: a request to an address carrying a transmit timestamp. */
  datatype Send = Send(destination: NetAddr, transmit: WireTime)

  function SendFor(ps: seq<Assoc>, ev: TimerEvent, now: Timestamp): seq<Send> {
    if ev.Poll? && ev.peer < |ps| then [Send(ps[ev.peer].addr, ToWire(now))] else []
  }

  function SendsOf(ps: seq<Assoc>, evs: seq<TimerEvent>, now: Timestamp): seq<Send> {
    if evs == [] then [] else SendsOf(ps, evs[..|evs|-1], now) + SendFor(ps, evs[|evs|-1], now)
  }

  ghost predicate SameAddresses(ps: seq<Assoc>, qs: seq<Assoc>) {
    |ps| == |qs| && forall j :: 0 <= j < |ps| ==> ps[j].addr == qs[j].addr
  }

  class DaemonEngine {
    var peers: seq<Assoc>
    const timers: TimerQueue
    var pending: seq<Pending>
    var nextAssocid: nat

    function View(): State
      reads this, timers
    {
      State(peers, timers.entries, pending, nextAssocid)
    }

    constructor (config: seq<Config>)
      ensures View() == Initial(config)
      ensures fresh(timers)
    {
      peers, pending, nextAssocid := [], [], 1;
      timers := new TimerQueue();
      new;
      for k := 0 to |config|
        invariant View() == ConfigureAll(config[..k])
        invariant fresh(timers)
        invariant nextAssocid <= LAST
      {
        assert config[..k+1][..k] == config[..k];
        match config[k] {
          case Remote(addr, active, minpoll, maxpoll, iburst) =>
            MobilizePeer(addr, if active then SymActive else Client, minpoll, maxpoll, iburst, false);
          case Refclock(addr) =>
            MobilizePeer(addr, Client, 4, 10, false, true);
        }
      }
      assert config[..|config|] == config;
      ghost var base := timers.entries;
      timers.Add(TimerEntry(Housekeeping, 64, 64));
      timers.Add(TimerEntry(Reachability, 64, 64));
      timers.Add(TimerEntry(StatsWrite, 10, 10));
      assert timers.entries == base + Periodic();
    }

    method MobilizePeer(addr: NetAddr, hmode: Mode, minpoll: U8, maxpoll: U8, iburst: bool, refclock: bool)
      requires nextAssocid <= LAST
      modifies this, timers
      ensures View() == Mobilize(old(View()), addr, hmode, minpoll, maxpoll, iburst, refclock)
      ensures nextAssocid <= LAST
    {
      var id, next := AllocateAssocid(nextAssocid, UsedIds(peers));
      nextAssocid := next;
      if id.Some? {
        var peerId := |peers|;
        peers := peers + [NewAssoc(id.value, addr, hmode, minpoll, maxpoll, iburst, refclock)];
        if !refclock {
          timers.SchedulePoll(peerId, 0, 0);
        }
      }
    }

    /** Sends one request to a peer and re-arms its poll timer. */
    method SendPoll(id: nat, now: Timestamp) returns (send: Option<Send>)
      modifies this, timers
      ensures View() == PollPeer(old(View()), id, now)
      ensures send == if id < |peers| then Some(Send(peers[id].addr, ToWire(now))) else None
    {
      if id >= |peers| {
        return None;
      }
      var p := peers[id];
      pending := pending + [RequestTo(p, id, now)];
      if |pending| > MAX_PENDING {
        pending := pending[1..];
      }
      timers.SchedulePollOnce(id, now.seconds + Interval(p.hpoll));
      send := Some(Send(p.addr, ToWire(now)));
    }

    method MissReach()
      modifies this
      ensures peers == AllMissed(old(peers))
      ensures unchanged(`pending, `nextAssocid)
    {
      for i := 0 to |peers|
        invariant |peers| == |old(peers)|
        invariant forall j :: 0 <= j < i ==> peers[j] == MissedReach(old(peers)[j])
        invariant forall j :: i <= j < |peers| ==> peers[j] == old(peers)[j]
        invariant unchanged(`pending, `nextAssocid)
      {
        peers := peers[i := MissedReach(peers[i])];
      }
    }

    method HandleTimer(ev: TimerEvent, now: Timestamp) returns (sends: seq<Send>)
      modifies this, timers
      ensures View() == Fire(old(View()), ev, now)
      ensures sends == SendFor(old(peers), ev, now)
      ensures SameAddresses(old(peers), peers)
    {
      sends := [];
      match ev {
        case Poll(id) =>
          var send := SendPoll(id, now);
          if send.Some? {
            sends := [send.value];
          }
        case Reachability =>
          MissReach();
        case _ =>
          // selection and statistics change nothing kept here
      }
    }

    /** Handles every due timer in queue order. */
    method Tick(now: Timestamp) returns (sends: seq<Send>)
      modifies this, timers
      ensures View() == TickStep(old(View()), now)
      ensures sends == SendsOf(old(peers), Fired(old(timers.entries), now.seconds), now)
    {
      ghost var before := peers;
      var events := timers.PopDue(now.seconds);
      ghost var s := View();
      sends := [];
      for k := 0 to |events|
        invariant View() == FireAll(s, events[..k], now)
        invariant SameAddresses(before, peers)
        invariant sends == SendsOf(before, events[..k], now)
      {
        assert events[..k+1][..k] == events[..k];
        var more := HandleTimer(events[k], now);
        sends := sends + more;
      }
      assert events[..|events|] == events;
    }

    method FindPendingRequest(d: Response) returns (r: Option<nat>)
      ensures r == FindPending(pending, d)
    {
      for i := 0 to |pending|
        invariant forall j :: 0 <= j < i ==> !Matches(pending[j], d)
      {
        if pending[i].wireT1 == d.originate && pending[i].destination == d.source && pending[i].expectedMode == Server {
          return Some(i);
        }
      }
      r := None;
    }

    method HandleServerResponse(d: Response) returns (v: Verdict)
      modifies this
      ensures View() == Respond(old(View()), d)
      ensures v == Judge(old(View()), d)
    {
      var found := FindPendingRequest(d);
      if found.None? {
        return Unsolicited;
      }
      var req := pending[found.value];
      if req.peer >= |peers| {
        return Orphaned;
      }
      var p := peers[req.peer];
      if p.originate == req.fullT1 {
        return Duplicate;
      }
      pending := RemoveAt(pending, found.value);
      if d.stratum == 0 || d.stratum >= Selection.MAXSTRAT {
        peers := peers[req.peer := MissedReach(p)];
        return Refused;
      }
      var (offset, _) := Measure(req, d);
      if offset > 1000000.0 || offset < -1000000.0 {
        return Insane;
      }
      peers := peers[req.peer := TakeSample(p, req, d)];
      v := Accepted;
    }

    method HandleSymmetricPassive(source: NetAddr)
      requires nextAssocid <= LAST
      modifies this, timers
      ensures View() == PassiveStep(old(View()), source)
    {
      var srcAddr := Stored(source);
      var existing := false;
      for i := 0 to |peers|
        invariant existing <==> exists j :: 0 <= j < i && peers[j].addr == srcAddr
      {
        if peers[i].addr == srcAddr {
          existing := true;
        }
      }
      if !existing {
        MobilizePeer(srcAddr, SymPassive, 4, 10, false, false);
      }
    }
  }
}
