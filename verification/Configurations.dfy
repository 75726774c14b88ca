/** The associations that a configuration gives. */
module Configurations {
  import opened Wrappers
  import opened Sums
  import opened Timers
  import opened Associds
  import opened Engine
  import opened EngineInvariants
  import opened Replays

  /** The line expects server responses. */
  predicate Expects(c: Config) { c.Remote? && !c.active }

  /** Every poll exponent that the line's association can reach gives a positive interval. */
  predicate Steady(c: Config) {
    c.Remote? ==> if c.active then Small(c.minpoll) else Good(c.minpoll, c.maxpoll)
  }

  ghost predicate DistinctServers(cs: seq<Config>) {
    forall i, j :: 0 <= i < j < |cs| && Expects(cs[i]) && Expects(cs[j]) ==> cs[i].addr != cs[j].addr
  }

  ghost predicate SteadyServers(cs: seq<Config>) {
    forall i :: 0 <= i < |cs| && Expects(cs[i]) ==> Steady(cs[i])
  }

  /** The association that a line gives. */
  function Line(c: Config, id: nat): Assoc {
    match c
    case Remote(addr, active, minpoll, maxpoll, iburst) =>
      NewAssoc(id, addr, if active then SymActive else Client, minpoll, maxpoll, iburst, false)
    case Refclock(addr) =>
      NewAssoc(id, addr, Client, 4, 10, false, true)
  }

  lemma ConfigureShape(s: State, c: Config)
    requires s.nextId <= LAST
    ensures var t := Configure(s, c);
            && t.nextId <= LAST
            && (t == s.(nextId := t.nextId) || exists id: nat :: t == Joined(s, Line(c, id), t.nextId))
  {
    var t, p := Configure(s, c), Line(c, 1);
    MobilizeShape(s, p.addr, p.hmode, p.minpoll, p.maxpoll, p.iburst, p.refclock);
    if t != s.(nextId := t.nextId) {
      var id: nat :| t == Joined(s, NewAssoc(id, p.addr, p.hmode, p.minpoll, p.maxpoll, p.iburst, p.refclock),
          t.nextId);
      assert Line(c, id) == NewAssoc(id, p.addr, p.hmode, p.minpoll, p.maxpoll, p.iburst, p.refclock);
    }
  }

  /** Every association that expects server responses comes from a line that does. */
  ghost predicate FromServers(ps: seq<Assoc>, cs: seq<Config>) {
    forall i :: 0 <= i < |ps| && Asks(ps[i]) ==> exists j :: 0 <= j < |cs| && Expects(cs[j]) && cs[j].addr == ps[i].addr
  }

  lemma MoreLines(ps: seq<Assoc>, cs: seq<Config>, c: Config)
    requires FromServers(ps, cs)
    ensures FromServers(ps, cs + [c])
  {
    forall i | 0 <= i < |ps| && Asks(ps[i])
      ensures exists j :: 0 <= j < |cs + [c]| && Expects((cs + [c])[j]) && (cs + [c])[j].addr == ps[i].addr
    {
      var j :| 0 <= j < |cs| && Expects(cs[j]) && cs[j].addr == ps[i].addr;
      assert (cs + [c])[j] == cs[j];
    }
  }

  lemma OneMoreServer(ps: seq<Assoc>, cs: seq<Config>, c: Config, id: nat)
    requires SoleServers(ps) && FromServers(ps, cs) && DistinctServers(cs + [c])
    ensures SoleServers(ps + [Line(c, id)]) && FromServers(ps + [Line(c, id)], cs + [c])
  {
    var p, qs, ds := Line(c, id), ps + [Line(c, id)], cs + [c];
    MoreLines(ps, cs, c);
    assert ds[|cs|] == c;
    assert Asks(p) ==> Expects(c) && p.addr == c.addr;
    forall i | 0 <= i < |ps| && Asks(ps[i]) && Asks(p) ensures ps[i].addr != p.addr {
      var j :| 0 <= j < |cs| && Expects(cs[j]) && cs[j].addr == ps[i].addr;
      assert ds[j] == cs[j];
    }
    forall i | 0 <= i < |qs| && Asks(qs[i])
      ensures exists j :: 0 <= j < |ds| && Expects(ds[j]) && ds[j].addr == qs[i].addr
    {
      assert i < |ps| ==> qs[i] == ps[i];
    }
  }

  /** Lines with distinct server addresses give associations with distinct server addresses. */
  lemma {:induction false} ConfiguredSole(cs: seq<Config>)
    requires DistinctServers(cs)
    ensures SoleServers(ConfigureAll(cs).peers) && FromServers(ConfigureAll(cs).peers, cs)
  {
    if cs != [] {
      var init, c := cs[..|cs|-1], cs[|cs|-1];
      var s, t := ConfigureAll(init), ConfigureAll(cs);
      assert cs == init + [c];
      assert forall j :: 0 <= j < |init| ==> init[j] == cs[j];
      ConfiguredSole(init);
      ConfigureKeeps(init);
      ConfigureShape(s, c);
      if t == s.(nextId := t.nextId) {
        MoreLines(s.peers, init, c);
      } else {
        var id: nat :| t == Joined(s, Line(c, id), t.nextId);
        OneMoreServer(s.peers, init, c, id);
      }
    }
  }

  /** Steady server lines give regular associations. */
  lemma {:induction false} ConfiguredRegular(cs: seq<Config>)
    requires SteadyServers(cs)
    ensures RegularServers(ConfigureAll(cs).peers)
  {
    if cs != [] {
      var init, c := cs[..|cs|-1], cs[|cs|-1];
      var s, t := ConfigureAll(init), ConfigureAll(cs);
      assert forall j :: 0 <= j < |init| ==> init[j] == cs[j];
      ConfiguredRegular(init);
      ConfigureKeeps(init);
      ConfigureShape(s, c);
      if t != s.(nextId := t.nextId) {
        var id: nat :| t == Joined(s, Line(c, id), t.nextId);
        assert Expects(c) ==> Steady(c);
      }
    }
  }

  // ---------- The first state ----------

  function Lines(cs: seq<Config>): (r: seq<Assoc>)
    ensures |r| == |cs| && forall i :: 0 <= i < |cs| ==> r[i].associd == i + 1
  {
    seq(|cs|, i requires 0 <= i < |cs| => Line(cs[i], i + 1))
  }

  /** While IDs are handed out in order, the next line gets the next one. */
  lemma ConfigureNext(s: State, c: Config, n: nat)
    requires |s.peers| == n < LAST && s.nextId == n + 1 && forall i :: 0 <= i < n ==> s.peers[i].associd == i + 1
    ensures Configure(s, c) == Joined(s, Line(c, n + 1), Successor(n + 1))
  {
    assert Nth(n + 1, 0) == n + 1 && n + 1 !in UsedIds(s.peers);
    assert FirstUnused(n + 1, UsedIds(s.peers), 0) == Some(n + 1);
  }

  /** Up to 65535 lines: every line has its association, and the polled ones are due at once. */
  ghost predicate Configured(s: State, cs: seq<Config>) {
    && s.peers == Lines(cs) && s.pending == []
    && (forall k :: 0 <= k < |cs| && cs[k].Remote? ==> TimerEntry(Poll(k), 0, 0) in s.timers)
  }

  lemma ConfiguredMore(s: State, cs: seq<Config>, c: Config, next: nat)
    requires Configured(s, cs)
    ensures Configured(Joined(s, Line(c, |cs| + 1), next), cs + [c])
  {
    var t, ds := Joined(s, Line(c, |cs| + 1), next), cs + [c];
    assert t.peers == Lines(ds);
    forall k | 0 <= k < |ds| && ds[k].Remote? ensures TimerEntry(Poll(k), 0, 0) in t.timers {
      assert k < |cs| ==> ds[k] == cs[k];
    }
  }

  lemma {:induction false} ConfiguredStep(cs: seq<Config>, c: Config)
    requires |cs| < LAST && Configured(ConfigureAll(cs), cs) && ConfigureAll(cs).nextId == |cs| + 1
    ensures Configured(ConfigureAll(cs + [c]), cs + [c]) && ConfigureAll(cs + [c]).nextId == Successor(|cs| + 1)
  {
    assert (cs + [c])[..|cs|] == cs;
    ConfigureNext(ConfigureAll(cs), c, |cs|);
    ConfiguredMore(ConfigureAll(cs), cs, c, Successor(|cs| + 1));
  }

  lemma {:induction false} ConfiguredLines(cs: seq<Config>)
    requires |cs| <= LAST
    ensures Configured(ConfigureAll(cs), cs)
    ensures ConfigureAll(cs).nextId == if |cs| == LAST then 1 else |cs| + 1
  {
    if cs != [] {
      var init, c := cs[..|cs|-1], cs[|cs|-1];
      assert init + [c] == cs && |init| < LAST;
      ConfiguredLines(init);
      ConfiguredStep(init, c);
    }
  }

  lemma InitialLines(cs: seq<Config>)
    requires |cs| <= LAST
    ensures Inv(Initial(cs)) && Configured(Initial(cs), cs)
  {
    InitialInv(cs);
    ConfiguredLines(cs);
  }

  lemma LinesSole(cs: seq<Config>, ps: seq<Assoc>)
    requires DistinctServers(cs) && SameLines(Lines(cs), ps) && |ps| == |cs|
    ensures SoleServers(ps)
  {
    forall i, j | 0 <= i < j < |ps| && Asks(ps[i]) && Asks(ps[j]) ensures ps[i].addr != ps[j].addr {
      assert Lines(cs)[i] == Line(cs[i], i + 1) && Lines(cs)[j] == Line(cs[j], j + 1);
    }
  }
}
