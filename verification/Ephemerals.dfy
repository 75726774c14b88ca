/** Associations made for symmetric-passive packets, and the address they are made for. */
module Ephemerals {
  import opened Wrappers
  import opened Timers
  import opened Associds
  import opened Engine
  import opened EngineInvariants
  import opened Ticks
  import opened Configurations

  /** An address that is stored as it is: IPv6, or the same octets backwards. */
  predicate Symmetric(source: NetAddr) {
    source.IPv4? ==> source.a == source.d && source.b == source.c
  }

  lemma StoredReverses(source: NetAddr)
    ensures Stored(Stored(source)) == source
    ensures Stored(source) == source <==> Symmetric(source)
  {
  }

  ghost predicate IdsLeft(s: State) {
    exists id :: 1 <= id <= LAST && id !in UsedIds(s.peers)
  }

  /** A packet makes an association exactly if none has the reversed address and an ID is left;
      the association is polled at the reversed address. Otherwise the associations stay. */
  lemma PassiveExactly(s: State, source: NetAddr)
    requires s.nextId <= LAST
    ensures var t := PassiveStep(s, source);
            if !Known(s.peers, Stored(source)) && IdsLeft(s)
            then |t.peers| == |s.peers| + 1 && t.peers[..|s.peers|] == s.peers
              && t.peers[|s.peers|].addr == Stored(source) && t.peers[|s.peers|].hmode == SymPassive
              && TimerEntry(Poll(|s.peers|), 0, 0) in t.timers
            else t.peers == s.peers && t.timers == s.timers
  {
    AllocateSound(s.nextId, UsedIds(s.peers));
  }

  /** In the first state: a packet from the address of a configured line makes a second
      association exactly if no line has the reversed address. */
  lemma ConfiguredSource(cs: seq<Config>, k: nat)
    requires |cs| < LAST && k < |cs|
    ensures |PassiveStep(Initial(cs), cs[k].addr).peers| > |cs| <==>
            forall j :: 0 <= j < |cs| ==> cs[j].addr != Stored(cs[k].addr)
  {
    InitialLines(cs);
    SourceOfLines(Initial(cs), cs, cs[k].addr);
  }

  lemma SourceOfLines(s: State, cs: seq<Config>, source: NetAddr)
    requires |cs| < LAST && s.nextId <= LAST && Configured(s, cs)
    ensures |PassiveStep(s, source).peers| > |cs| <==> forall j :: 0 <= j < |cs| ==> cs[j].addr != Stored(source)
  {
    UnusedId(s, |cs| + 1);
    PassiveExactly(s, source);
    assert forall j :: 0 <= j < |cs| ==> s.peers[j] == Line(cs[j], j + 1);
    if forall j :: 0 <= j < |cs| ==> cs[j].addr != Stored(source) {
      NotKnown(s, cs, Stored(source));
    }
  }

  lemma UnusedId(s: State, id: nat)
    requires 1 <= id <= LAST && forall i :: 0 <= i < |s.peers| ==> s.peers[i].associd != id
    ensures IdsLeft(s)
  {
    assert id !in UsedIds(s.peers);
  }

  lemma PolledBackwards(s: State, source: NetAddr, now: Timestamp)
    requires Inv(s) && !Known(s.peers, Stored(source)) && IdsLeft(s) && now.seconds >= 0
    ensures var t := PassiveStep(s, source); var n := |s.peers|;
            && |t.peers| == n + 1 && t.peers[n].addr == Stored(source)
            && RequestTo(t.peers[n], n, now) in Sent(t, now)
            && RequestTo(t.peers[n], n, now).destination == Stored(source)
  {
    PassiveExactly(s, source);
    PassiveKeeps(s, source);
    TickAsks(PassiveStep(s, source), now, |s.peers|, 0);
  }

  /** From then on requests go to the reversed address. */
  lemma ConfiguredPolledBackwards(cs: seq<Config>, k: nat, now: Timestamp)
    requires |cs| < LAST && k < |cs| && now.seconds >= 0
    requires forall j :: 0 <= j < |cs| ==> cs[j].addr != Stored(cs[k].addr)
    ensures var s, n := PassiveStep(Initial(cs), cs[k].addr), |cs|;
            && |s.peers| == n + 1 && s.peers[k].addr == cs[k].addr && s.peers[n].addr == Stored(cs[k].addr)
            && RequestTo(s.peers[n], n, now) in Sent(s, now)
            && RequestTo(s.peers[n], n, now).destination == Stored(cs[k].addr)
  {
    InitialLines(cs);
    LinesPolledBackwards(Initial(cs), cs, k, now);
  }

  lemma LinesPolledBackwards(s: State, cs: seq<Config>, k: nat, now: Timestamp)
    requires |cs| < LAST && k < |cs| && now.seconds >= 0 && Inv(s) && Configured(s, cs)
    requires forall j :: 0 <= j < |cs| ==> cs[j].addr != Stored(cs[k].addr)
    ensures var t, n := PassiveStep(s, cs[k].addr), |cs|;
            && |t.peers| == n + 1 && t.peers[k].addr == cs[k].addr && t.peers[n].addr == Stored(cs[k].addr)
            && RequestTo(t.peers[n], n, now) in Sent(t, now)
            && RequestTo(t.peers[n], n, now).destination == Stored(cs[k].addr)
  {
    UnusedId(s, |cs| + 1);
    NotKnown(s, cs, Stored(cs[k].addr));
    PassiveExactly(s, cs[k].addr);
    PolledBackwards(s, cs[k].addr, now);
    assert PassiveStep(s, cs[k].addr).peers[k] == s.peers[k] == Line(cs[k], k + 1);
  }

  lemma NotKnown(s: State, cs: seq<Config>, addr: NetAddr)
    requires Configured(s, cs) && forall j :: 0 <= j < |cs| ==> cs[j].addr != addr
    ensures !Known(s.peers, addr)
  {
    assert forall j :: 0 <= j < |cs| ==> s.peers[j] == Line(cs[j], j + 1);
  }

  const SERVER := IPv4(10, 0, 0, 1, 123)
  const BACKWARDS := IPv4(1, 0, 0, 10, 123)

  /** For instance the only server 10.0.0.1: requests go to 1.0.0.10 as well. */
  lemma BackwardsServer(now: Timestamp)
    requires now.seconds >= 0
    ensures var s := PassiveStep(Initial([Remote(SERVER, false, 4, 10, false)]), SERVER);
            && |s.peers| == 2 && s.peers[0].addr == SERVER && s.peers[1].addr == BACKWARDS
            && RequestTo(s.peers[1], 1, now) in Sent(s, now) && RequestTo(s.peers[1], 1, now).destination == BACKWARDS
  {
    ConfiguredPolledBackwards([Remote(SERVER, false, 4, 10, false)], 0, now);
  }
}
