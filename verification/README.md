# A verified model of ntpsec-rs

This project models the time-critical and protocol parts of the `ntpsec-rs-core` crate in Dafny
and proves properties of the model. `dafny verify dfyconfig.toml` checks everything.

## What is modelled

- **Clock selection** (`Intersection`, `Truechimers`, `Cluster`, `Combine`, `Selection`,
  `Ranking`, `SystemVariables`). The endpoint sweep is proved against a definition that knows nothing about
  sorting: `Cover(c, x)` counts the confidence intervals that contain a point, a `Component` is a
  connected piece of the points that at least `m` intervals cover, and `Accepted` names the highest level at which some
  component holds `m` offsets and the leftmost such component. The cluster step is proved equal to
  "drop the worst until three are left" (`KeepBest`), where the worst are those farthest from the mean
  offset; the outlier pass of the source never changes the result. The combine step is a weighted mean whose weights are the reciprocals of the
  half-widths used by the sweep, which gives the error bound on the system offset. With at most `f`
  falsetickers among `4f + 1` or more peers the accepted interval stays near the true offset, and `4f`
  peers are not enough.
- **Clock filter** (`ClockFilters`): the eight-entry shift register refines "the last eight of the
  history", and the filtered offset is off by at most half of every delay in the register.
- **Mode 6 reassembly** (`Fragments`): the collector is a partial byte map (`Image`); the class with
  its ordered map of fragments is proved against `Add`, and delivery of a message in any order with
  any repeats is proved complete and exact.
- **Daemon engine** (`Timers`, `Associds`, `Engine`, `EngineInvariants`, `Ticks`, `Replays`,
  `Configurations`, `IncreasingTicks`, `Climbing`, `ReplayRuns`, `Ephemerals`, `Outcomes`, `Adaptation`,
  `EngineClocks`): polls,
  outstanding requests, responses, timers, association IDs and configuration as transition functions on
  `State`, and a class whose methods carry the transitions out in place. An invariant holds over every
  run of every configuration; from it follow the exact conditions under which requests have distinct
  timestamps, no response is taken for a duplicate by mistake, and no run accepts a replayed response,
  with the runs that go wrong otherwise. The reachability register refines the history of outcomes.
  The conditions on requests are stated twice: for ticks at strictly increasing times,
  and for ticks at any times within an era, as when the clock repeats a reading or is stepped back. A
  configuration line is steady, and its association regular, if every poll exponent it can reach gives a
  positive interval; a server line is one that expects server responses.
- **From exchanges to the system offset** (`RunAccuracy`): which peers with honest exchanges the
  selection can rely on, and the error of the combined offset after any run of the engine.
- **Seccomp compiler** (`Sandbox`): the generated program, an interpreter for classic BPF, and the
  proof that the program means the allowlist.
- **Calendar** (`Calendar`): the civil-from-days and Julian-day formulas, the day-of-year loops, and a
  calendar defined by "the next day" that they all agree on.
- **Codecs** (`Bytes`, `Extensions`, `Packets`, `Control`, `ControlVars`): header and extension-field
  round trips, agreement of the two extension walkers on every byte string, Mode 6 responses from the
  server's encoder to the client's collector, and the key=value text form.

Conventions: `f64` is `real` and inputs are finite; jitters are kept squared, so the comparison with
three times an RMS is a comparison of squares with nine times a mean square; flash bits are a set;
`BTreeMap` is a `map` visited from the least key up; the library sort is an insertion sort, and the
result is proved to be independent of the order of the peers; error strings are constructors of a
datatype; a MAC is an arbitrary function of key and bytes. Rust's in-place updates are class fields
and arrays; each such method is proved against a function of the old state. Inductions are written
out; automatic induction is switched off wherever it would apply. The host is little-endian, as are the
two architectures of the seccomp filter; this matters only for the address of a symmetric-passive packet.

## Where the code differs from its description

- `ntp_proto.rs:522` promises survivors sorted by jitter; the code keeps ascending index order, and so
  does the model.
- `ntp_proto.rs:569` describes the single pass over outliers as the pruning step. It removes fewer than
  one ninth of the candidates and only candidates that the final resize would drop anyway
  (`Selection.RemoveOutliers`, `Cluster.PruningIsIdle`).
- `ntp_proto.rs:817` describes an initial burst of eight packets. `accept_sample` marks the peer
  reachable before `poll_update` looks, so the burst never starts (`EngineInvariants.ReachableState`).
- `daemon_engine.rs:1790` means to look for an association for the source of a symmetric-passive packet,
  and `ntp_io.rs:165` takes an IPv4 socket address to be in network order. But the packet's address is
  built with the octets as a big-endian number (`ntp_monitor.rs:304`) and configured addresses with the
  octets as they are (`daemon_engine.rs:962`). On a little-endian host the source is looked up and stored
  backwards: a packet from a configured server 10.0.0.1 makes a second association, which is polled at
  1.0.0.10 (`Ephemerals.ConfiguredSource`, `Ephemerals.BackwardsServer`).
- Nothing keeps two configuration lines from naming one address. If both expect server responses, one
  of them takes the response and the other its replay (`ReplayRuns.SharedAddressReplay`). With ticks at
  strictly increasing times that is the only way to have a replay accepted
  (`ReplayRuns.ReplayLaterExactly`).
- Configured poll exponents are not limited to those whose interval fits in 32 bits. The shift count is
  taken modulo 64 and the result cast to 32 bits, so the interval is zero exactly if the exponent modulo
  64 is above 31 (`EngineInvariants.IntervalPositive`). While the clock advances between ticks this does
  no harm to matching. If the clock repeats a reading or steps back to one, a peer at such an exponent is
  polled twice at one time, its requests share a timestamp (`ReplayRuns.SameT1Exactly`), a replay is
  accepted (`ReplayRuns.ReplayExactly`), and a response can be taken for a duplicate
  (`ReplayRuns.DuplicateExactly`).
- The duplicate test at `daemon_engine.rs:1943` is not what stops replays: their request is gone. With
  steady server lines, or with ticks at strictly increasing times, it fires only for a request sent at
  timestamp zero (`EngineInvariants.DuplicateAtZero`, `ReplayRuns.NoDuplicateLater`).
- `daemon_engine.rs:1999` adds a millionth of the poll interval to a sample's dispersion, and
  `accept_sample` adds it again (`ntp_proto.rs:784`); the model adds it twice (`Adaptation.SampleDispersion`).
- `parse_assoc_options` ignores the option `prefer` (`daemon_engine.rs:2694`), and only tests set the
  flag. What is proved about the PREFER peer and the pulse-per-second peer holds of the selection code,
  but no configuration makes use of it.
- The half-width that the sweep gives a peer (`ntp_proto.rs:398`) has no part for the measured delay. An
  honest peer with a long delay can be a falseticker (`RunAccuracy.HonestFalseticker`); it is certain not
  to be one exactly if half the delay is within the half-width (`RunAccuracy.WideEnoughExactly`).

## Model

| member | source | states |
|---|---|---|
| Intersection.AcceptedExists | crates/ntpsec-rs-core/src/ntp_proto.rs:436-488 | For any non-empty list of candidates some level accepts an interval, so the sweep cannot fail |
| Intersection.AcceptedUnique | crates/ntpsec-rs-core/src/ntp_proto.rs:436-488 | The accepted level and interval are determined by the candidates |
| Intersection.AcceptedPermutation | crates/ntpsec-rs-core/src/ntp_proto.rs:408-488 | Listing the candidates in another order gives the same level and interval |
| Intersection.MajorityComponentUnique | crates/ntpsec-rs-core/src/ntp_proto.rs:431-488 | With fewer than half dismissed, only one component of the level can hold enough midpoints |
| Intersection.NoUnderflow | crates/ntpsec-rs-core/src/ntp_proto.rs:443-449 | The unsigned depth counter never goes below zero at a leave |
| Intersection.DepthEnds | crates/ntpsec-rs-core/src/ntp_proto.rs:437-482 | The depth counter starts and ends at zero, so no run extends past the last endpoint |
| Intersection.RunIsComponent | crates/ntpsec-rs-core/src/ntp_proto.rs:443-475 | A maximal block of depth at least m spans a connected component of the points that m intervals cover |
| Intersection.ComponentIsRun | crates/ntpsec-rs-core/src/ntp_proto.rs:443-475 | Every such component is found as a run of the sweep |
| Intersection.RunMids | crates/ntpsec-rs-core/src/ntp_proto.rs:451-475 | The midpoint counter over a run is the number of offsets in its interval |
| Intersection.LevelOneAccepts | crates/ntpsec-rs-core/src/ntp_proto.rs:436-488 | At level one an accepting run always exists |
| Intersection.ScanAtLevel | crates/ntpsec-rs-core/src/ntp_proto.rs:437-487 | One scan returns the leftmost component of the level with enough midpoints, or none exists; at level one it never fails and the branch past the last endpoint is never taken |
| Truechimers.AcceptedLevel | crates/ntpsec-rs-core/src/ntp_proto.rs:428-488 | The accepted level is at least a third of the number of intervals that contain a given point |
| Truechimers.AcceptedIsVouched | crates/ntpsec-rs-core/src/ntp_proto.rs:428-488 | With at most f falsetickers among 4f + 1 or more candidates each accepted point shares an interval with the true offset |
| Truechimers.ToleratesExactly | crates/ntpsec-rs-core/src/ntp_proto.rs:428-488 | Among n candidates f falsetickers can lead to an accepted point that no truechimer supports exactly if n is at most 4f |
| Selection.BuildEndpoints | crates/ntpsec-rs-core/src/ntp_proto.rs:394-425 | The sorted list holds exactly the enter, midpoint and leave endpoints of every peer |
| Selection.FindInterval | crates/ntpsec-rs-core/src/ntp_proto.rs:428-488 | Trying the levels from all peers downward yields the accepted interval; no peer set is rejected |
| Selection.ClockIntersection | crates/ntpsec-rs-core/src/ntp_proto.rs:388-512 | The peers are marked as specified (see MarkedExactly) and the survivors are counted |
| Selection.MarkedExactly | crates/ntpsec-rs-core/src/ntp_proto.rs:490-512 | A peer escapes TEST5 exactly if some point lies both in the accepted interval and within a half-width of its offset; nothing else about it changes |
| Selection.SurvivorsNear | crates/ntpsec-rs-core/src/ntp_proto.rs:490-512 | Equivalently, its offset misses the accepted interval by at most its half-width |
| Selection.HalfWidthLeast | crates/ntpsec-rs-core/src/ntp_proto.rs:394-406 | The half-width is the least bound of at least a millisecond on half the root delay plus root dispersion and jitter, now and, growing by 15 ppm, since the reference time |
| Selection.EnoughSurvive | crates/ntpsec-rs-core/src/ntp_proto.rs:490-512 | At least as many peers survive as the accepted level, so at least one |
| Selection.MarksPermute | crates/ntpsec-rs-core/src/ntp_proto.rs:388-512 | Permuting the peers permutes the marks and keeps the number of survivors |
| Cluster.OutliersAreFew | crates/ntpsec-rs-core/src/ntp_proto.rs:574-619 | One outlier pass removes strictly fewer than one ninth of the candidates |
| Cluster.PruningIsIdle | crates/ntpsec-rs-core/src/ntp_proto.rs:574-641 | One pass removes fewer than a ninth of the candidates and does not change which three remain in the end |
| Cluster.KeepBestSize | crates/ntpsec-rs-core/src/ntp_proto.rs:621-641 | min(3, n) candidates remain, in order and from the list |
| Cluster.KeepBestDominates | crates/ntpsec-rs-core/src/ntp_proto.rs:621-641 | Whoever is dropped is unprotected and has a larger jitter than any unprotected candidate that stays, or the same and a larger index |
| Selection.PeerJitters | crates/ntpsec-rs-core/src/ntp_proto.rs:550-567 | The double loop computes the squared jitters of the passing peers (see VarianceLaw) |
| Ranking.VarianceLaw | crates/ntpsec-rs-core/src/ntp_proto.rs:553-567 | The squared jitter of a passing peer is n times the squared distance of its offset from the mean of the passing offsets, plus what all peers have in common, over n - 1 |
| Ranking.RankedByDistance | crates/ntpsec-rs-core/src/ntp_proto.rs:553-567 | So the jitters order the passing peers as their distances from the mean do |
| Ranking.DroppedIsFarther | crates/ntpsec-rs-core/src/ntp_proto.rs:525-641 | Of the passing peers clustering drops those farthest from the mean: a dropped peer is not the PREFER peer, and farther than any other that stays, or as far and later in the array |
| Ranking.ThriceRms | crates/ntpsec-rs-core/src/ntp_proto.rs:574-619 | In jitters proper: one outlier pass removes an unprotected candidate exactly if its jitter is above three times the RMS |
| Selection.RemoveOutliers | crates/ntpsec-rs-core/src/ntp_proto.rs:574-619 | The pass removes exactly the unprotected candidates above three times the RMS jitter, and none if all jitters are zero |
| Selection.ClockCluster | crates/ntpsec-rs-core/src/ntp_proto.rs:525-641 | The returned indices are the reference result: the passing peers less the worst until three are left (see DroppedIsFarther) |
| Selection.ClusteredShape | crates/ntpsec-rs-core/src/ntp_proto.rs:525-641 | Exactly min(3, passing) ascending indices of passing peers, including the first PREFER peer if it passes |
| Selection.FewAllClustered | crates/ntpsec-rs-core/src/ntp_proto.rs:525-641 | Up to three passing peers are all kept |
| Combine.BalancePoint | crates/ntpsec-rs-core/src/ntp_proto.rs:648-688 | The combined offset is the point at which the distances of the survivors, each in units of its half-width, balance |
| Combine.MeanNearIntersection | crates/ntpsec-rs-core/src/ntp_proto.rs:648-688 | If every interval meets [lo, hi], the weighted mean misses it by at most the harmonic mean of the half-widths |
| Combine.MeanInHull | crates/ntpsec-rs-core/src/ntp_proto.rs:648-688 | The weighted mean lies in the hull of the offsets |
| SystemVariables.ClockCombine | crates/ntpsec-rs-core/src/ntp_proto.rs:648-688 | Offset and squared jitter are the weighted means over the survivors; zero without survivors |
| SystemVariables.CombinedJitter | crates/ntpsec-rs-core/src/ntp_proto.rs:648-688 | The combined jitter lies between the least and the largest jitter of the survivors |
| SystemVariables.JitterWeights | crates/ntpsec-rs-core/src/ntp_proto.rs:648-688 | The jitters are weighted as the offsets are, by the reciprocals of the half-widths |
| SystemVariables.OneSurvivor | crates/ntpsec-rs-core/src/ntp_proto.rs:648-688 | A single survivor hands on its own offset and jitter |
| SystemVariables.FlaggedFacts | crates/ntpsec-rs-core/src/ntp_proto.rs:1066-1076 | Selection changes only TEST5 and TEST9: TEST9 is set exactly on the unreachable, and TEST5 is clear exactly if some point lies both in the accepted interval and within a half-width of the offset |
| SystemVariables.SystemPeerChoice | crates/ntpsec-rs-core/src/ntp_proto.rs:1077-1112 | No system peer exactly when no peer passes; else the first clustered peer, or the first with the PREFER flag if a clustered peer has it, which is the first PREFER peer if that one passes |
| SystemVariables.FirstPassing | crates/ntpsec-rs-core/src/ntp_proto.rs:1106-1112 | Without PREFER peers, and with at most three peers that pass, the system peer is the first peer that passes |
| SystemVariables.SystemPeerSound | crates/ntpsec-rs-core/src/ntp_proto.rs:1065-1126 | The system peer is reachable and had no TEST bit besides the two that selection recomputes |
| SystemVariables.SystemOffsetBound | crates/ntpsec-rs-core/src/ntp_proto.rs:1077-1124 | The combined offset misses the accepted interval by at most the harmonic mean of the survivors' half-widths |
| SystemVariables.SystemOffsetError | crates/ntpsec-rs-core/src/ntp_proto.rs:1065-1126 | With at most f falsetickers among 4f + 1 or more peers the combined offset errs by at most twice the largest truechimer half-width plus the survivors' harmonic mean |
| SystemVariables.SystemOffsetInHull | crates/ntpsec-rs-core/src/ntp_proto.rs:1103-1124 | The combined offset lies in the hull of the survivors' offsets |
| SystemVariables.SystemState.UpdateFromPeers | crates/ntpsec-rs-core/src/ntp_proto.rs:1065-1126 | Peers are flagged as specified, the system peer is the specified one (see SystemPeerChoice), and the variables are reset or set accordingly, with the offset bound |
| SystemVariables.SystemState.SynchronizedFacts | crates/ntpsec-rs-core/src/ntp_proto.rs:1113-1124 | Synchronized to a peer: the stratum is one more than its own, at most 16; leap, reference and root delay are its own; at most three peers are combined |
| SystemVariables.RootGrowth | crates/ntpsec-rs-core/src/ntp_proto.rs:351-366 | The root dispersion grows by 15 ppm from that of server and peer at the reference time, and the root distance exceeds it by half the root delay |
| SystemVariables.SystemState.RunSelection | crates/ntpsec-rs-core/src/daemon_engine.rs:1497-1602 | The clock is adjusted exactly when there is a system peer, by the offset of a pulse-per-second peer or the combined offset; otherwise the failure is counted |
| SystemVariables.PpsPeer | crates/ntpsec-rs-core/src/daemon_engine.rs:1478-1491 | The first peer that qualifies as a pulse-per-second clock |
| SystemVariables.EffectiveIs | crates/ntpsec-rs-core/src/daemon_engine.rs:1478-1560 | The clock is adjusted by the offset of the first reachable PREFER peer of stratum 0 whose jitter and offset are below a millisecond, or by the combined offset if there is none |
| ClockFilters.ClockFilter.AddSample | crates/ntpsec-rs-core/src/ntp_proto.rs:188-194 | The register holds the last eight samples of the history, newest first |
| ClockFilters.ClockFilter.Filter | crates/ntpsec-rs-core/src/ntp_proto.rs:197-210 | The reported sample has the least delay of the last eight |
| Adaptation.BestIsNewest | crates/ntpsec-rs-core/src/ntp_proto.rs:197-210 | Of the samples with the least delay the reported one is the newest |
| Adaptation.JitterOfFew | crates/ntpsec-rs-core/src/ntp_proto.rs:212-230 | The filter jitter of one sample is zero; that of two is the distance of their offsets |
| Adaptation.JitterGrows | crates/ntpsec-rs-core/src/ntp_proto.rs:212-230 | With one more sample, n - 1 times the squared jitter grows by the squared distance of its offset |
| ClockFilters.ExchangeIsHonest | crates/ntpsec-rs-core/src/ntp_proto.rs:749-764 | With non-negative path delays the on-wire offset errs by at most half the delay, which is the sum of the path delays |
| ClockFilters.RunError | crates/ntpsec-rs-core/src/ntp_proto.rs:749-810 | For any run of exchanges the filtered offset errs by at most half the round trip of each of the last eight |
| ClockFilters.PeerClock.AcceptSample | crates/ntpsec-rs-core/src/ntp_proto.rs:779-810 | The sample joins the history with its delay clamped, the peer variables are those of the best recent sample, and the peer becomes reachable |
| ClockFilters.PeerClock.OffsetError | crates/ntpsec-rs-core/src/ntp_proto.rs:796-803 | With honest samples the peer's offset errs by at most half the least delay in the register |
| Timers.AdvanceIsLeast | crates/ntpsec-rs-core/src/ntp_timer.rs:46-53 | A repeating entry moves to the least later time on its own grid |
| Timers.TimerQueue.PopDue | crates/ntpsec-rs-core/src/ntp_timer.rs:94-113 | The drain loop returns the due events in queue order and leaves the specified queue |
| Timers.PopConserves | crates/ntpsec-rs-core/src/ntp_timer.rs:94-113 | Every due entry fires exactly once and only due one-shots leave the queue, counted for events of any kind |
| Timers.QueueOrder | crates/ntpsec-rs-core/src/ntp_timer.rs:94-113 | Events fire in queue order, and what stays keeps its order |
| Timers.NothingDueLeft | crates/ntpsec-rs-core/src/ntp_timer.rs:94-113 | After popping nothing is due |
| Timers.NotDueStays | crates/ntpsec-rs-core/src/ntp_timer.rs:107-109 | Entries that are not due are kept unchanged |
| RunAccuracy.WideEnoughExactly | crates/ntpsec-rs-core/src/ntp_proto.rs:396-406 | A peer with an honest sample of a given delay is certain to contain the true offset exactly if half the delay is within its half-width |
| RunAccuracy.HonestFalseticker | crates/ntpsec-rs-core/src/ntp_proto.rs:396-406 | A peer with an honest one-second exchange and nothing else to widen its interval misses the true offset |
| RunAccuracy.ReliableOffset | crates/ntpsec-rs-core/src/ntp_proto.rs:1065-1126 | With at most f peers unreliable among 4f + 1 or more the combined offset errs by at most twice the largest half-width plus the survivors' harmonic mean |
| RunAccuracy.SystemOffsetOverRun | crates/ntpsec-rs-core/src/daemon_engine.rs:1497-1602 | The same after any run of any configuration, for peers whose servers kept a constant offset with non-negative path delays |
| Associds.VisitedOnce | crates/ntpsec-rs-core/src/daemon_engine.rs:1343-1360 | The cursor visits no ID twice in a round |
| Associds.Visited | crates/ntpsec-rs-core/src/daemon_engine.rs:1343-1360 | The cursor visits every ID in a round |
| Associds.AllocateAssocid | crates/ntpsec-rs-core/src/daemon_engine.rs:1343-1360 | The cursor loop computes the allocation and the next cursor |
| Associds.AllocateSound | crates/ntpsec-rs-core/src/daemon_engine.rs:1343-1360 | The ID is unused and in 1..65535; allocation fails exactly when all are used |
| Associds.AllocateFirst | crates/ntpsec-rs-core/src/daemon_engine.rs:1343-1360 | The ID is the first unused one in cyclic order from the cursor |
| Associds.AllocateLeast | crates/ntpsec-rs-core/src/daemon_engine.rs:1343-1360 | In numbers: the least unused ID from the cursor on or, failing that, the least unused one; the cursor moves to the next number, 1 after 65535 |
| EngineInvariants.IntervalPositive | crates/ntpsec-rs-core/src/daemon_engine.rs:1404-1407 | The re-arm interval is positive exactly for exponents whose remainder modulo 64 is at most 31 |
| EngineInvariants.TickBasic | crates/ntpsec-rs-core/src/daemon_engine.rs:1371-1427 | A tick at any time keeps IDs distinct, requests well formed and at most 1000, and one poll timer per polled peer |
| EngineInvariants.TickKeeps | crates/ntpsec-rs-core/src/daemon_engine.rs:1371-1427 | A tick within the era keeps the whole invariant, including the order of each regular peer's requests in time |
| EngineInvariants.RespondKeeps | crates/ntpsec-rs-core/src/daemon_engine.rs:1920-2039 | A response keeps the invariant, whatever its verdict |
| EngineInvariants.PassiveKeeps | crates/ntpsec-rs-core/src/daemon_engine.rs:1786-1840 | A symmetric-passive packet keeps the invariant |
| EngineInvariants.InitialInv | crates/ntpsec-rs-core/src/daemon_engine.rs:934-1039 | A fresh engine satisfies the invariant, whatever its configuration |
| EngineInvariants.RunKeeps | crates/ntpsec-rs-core/src/daemon_engine.rs:1371-2039 | The invariant holds after every run of ticks within an era, responses and passive packets |
| EngineInvariants.ReachableState | crates/ntpsec-rs-core/src/daemon_engine.rs:1343-1427 | In every run of every configuration IDs are distinct and nonzero, at most 1000 requests are outstanding, each polled peer has exactly one poll timer, and no burst has started |
| EngineInvariants.MatchedPeer | crates/ntpsec-rs-core/src/daemon_engine.rs:2505-2525 | A matching request was sent to the response's source by an association that expects server responses, and carries the returned timestamp |
| EngineInvariants.WrongSourceIgnored | crates/ntpsec-rs-core/src/daemon_engine.rs:1920-2039 | Whatever the verdict, associations at other addresses stay as they are, and a response from an address nobody asks changes nothing |
| EngineInvariants.AcceptedSample | crates/ntpsec-rs-core/src/daemon_engine.rs:1926-2027 | An accepted response consumes exactly one request, sent to its source, and gives its sample to that request's association alone |
| EngineInvariants.DuplicateAtZero | crates/ntpsec-rs-core/src/daemon_engine.rs:1942-1947 | For a regular association the duplicate test fires exactly if the matched request was sent at zero and nothing has been answered since |
| Replays.UniqueMatch | crates/ntpsec-rs-core/src/daemon_engine.rs:2505-2525 | With distinct server addresses and steady exponents a response matches at most one outstanding request |
| Replays.ReplayIgnored | crates/ntpsec-rs-core/src/daemon_engine.rs:1920-2039 | Then a response that repeats a consumed one finds no request at any later point of any run within the era and changes nothing |
| IncreasingTicks.RunFresh | crates/ntpsec-rs-core/src/daemon_engine.rs:1371-2039 | Over ticks at increasing times requests to one association have distinct times, none of them the one answered last, for any exponents |
| IncreasingTicks.ReplayIgnoredLater | crates/ntpsec-rs-core/src/daemon_engine.rs:1920-2039 | With distinct server addresses and ticks at increasing times a response that repeats a consumed one changes nothing at any later point, for any exponents |
| ReplayRuns.SharedAddressReplay | crates/ntpsec-rs-core/src/daemon_engine.rs:2505-2525 | With two server lines at one address the run of one tick, a response and its replay accepts both |
| ReplayRuns.ReplayLaterExactly | crates/ntpsec-rs-core/src/daemon_engine.rs:1371-2039 | Over ticks at increasing times: some run accepts a replay exactly if two server lines share an address |
| ReplayRuns.ReplayIffSharedAddress | crates/ntpsec-rs-core/src/daemon_engine.rs:934-1039 | Over ticks at any times of an era, for steady server lines: some run accepts a replay exactly if two server lines share an address |
| ReplayRuns.ReplayExactly | crates/ntpsec-rs-core/src/daemon_engine.rs:1371-2039 | Over ticks at any times of an era, for any lines: some run accepts a replay exactly if two server lines share an address or one can reach a poll exponent with interval zero |
| ReplayRuns.DistinctT1Later | crates/ntpsec-rs-core/src/daemon_engine.rs:1389-1407 | Over ticks at increasing times no association of any configuration repeats a wire timestamp |
| ReplayRuns.SteadyLineDistinct | crates/ntpsec-rs-core/src/daemon_engine.rs:1389-1407 | In every run within an era the requests of a steady line have distinct wire timestamps |
| ReplayRuns.SameT1Exactly | crates/ntpsec-rs-core/src/daemon_engine.rs:1389-1407 | Over ticks at any times of an era a line's association can have two outstanding requests with one timestamp exactly if the line is not steady |
| ReplayRuns.EraIsTight | crates/ntpsec-rs-core/src/daemon_engine.rs:1389-1407 | One second more than an era, and every polled line can repeat a timestamp |
| ReplayRuns.DuplicateExactly | crates/ntpsec-rs-core/src/daemon_engine.rs:1942-1947 | Over ticks at any times of an era a response to a request not sent at zero can be taken for a duplicate exactly if some server line is not steady |
| ReplayRuns.NoDuplicateLater | crates/ntpsec-rs-core/src/daemon_engine.rs:1942-1947 | Over ticks at increasing times this happens in no configuration |
| Ephemerals.StoredReverses | crates/ntpsec-rs-core/src/ntp_monitor.rs:295-318 | Storing an address twice gives it back, and it is stored as it is exactly if it is IPv6 or its octets read the same backwards |
| Ephemerals.PassiveExactly | crates/ntpsec-rs-core/src/daemon_engine.rs:1786-1826 | A packet makes one association, polled at the reversed address, exactly if none has that address and an ID is left |
| Ephemerals.ConfiguredSource | crates/ntpsec-rs-core/src/daemon_engine.rs:1786-1826 | A packet from a configured line's address makes a second association exactly if no line has the reversed address |
| Ephemerals.ConfiguredPolledBackwards | crates/ntpsec-rs-core/src/daemon_engine.rs:1786-1826 | That association sends its requests to the reversed address |
| Ephemerals.BackwardsServer | crates/ntpsec-rs-core/src/daemon_engine.rs:1791-1821 | For the single server 10.0.0.1 a second association at 1.0.0.10 |
| EngineClocks.SampleIsHonest | crates/ntpsec-rs-core/src/ntp_proto.rs:749-764 | With non-negative path delays the sample of a response errs by at most half its delay, which is the time on both paths |
| EngineClocks.RunClockError | crates/ntpsec-rs-core/src/daemon_engine.rs:1966-2017 | In every run in which a server keeps a constant offset and its path delays are not negative, the filtered offset errs by at most half of each kept delay |
| Engine.DaemonEngine.constructor | crates/ntpsec-rs-core/src/daemon_engine.rs:918-1320 | Applying a configuration to a fresh engine gives the initial state |
| Engine.DaemonEngine.MobilizePeer | crates/ntpsec-rs-core/src/daemon_engine.rs:976-996 | A new association gets an unused ID and, unless it is a reference clock, a one-shot poll timer due at once |
| Engine.DaemonEngine.Tick | crates/ntpsec-rs-core/src/daemon_engine.rs:1371-1427 | Draining the timers performs the tick transition (see RegisterRefines for the register) and sends one request per fired poll |
| Ticks.SendsAreRequests | crates/ntpsec-rs-core/src/daemon_engine.rs:1380-1413 | What is sent is what is noted as outstanding: one message per request, to its destination and with its timestamp |
| Outcomes.PeriodicOverRun | crates/ntpsec-rs-core/src/daemon_engine.rs:1371-1427 | In every run there is exactly one timer each for housekeeping and reachability, every 64 seconds, and for statistics, every 10 |
| Outcomes.OnePeriodATick | crates/ntpsec-rs-core/src/daemon_engine.rs:1417-1423 | A tick ends at most one reachability period, exactly if the timer is due |
| Engine.DaemonEngine.HandleServerResponse | crates/ntpsec-rs-core/src/daemon_engine.rs:1920-2039 | Handling a response performs the response transition (see ResponseEffect) and reports its verdict |
| Outcomes.ResponseEffect | crates/ntpsec-rs-core/src/daemon_engine.rs:1926-2027 | A response to an outstanding request, unless it repeats the one answered last, consumes the request; it adds a sample exactly if the stratum is 1 to 15 and the offset at most 1000000 seconds; stratum 0 or at least 16 counts as a missed answer and leaves all samples alone |
| Outcomes.UnsolicitedIgnored | crates/ntpsec-rs-core/src/daemon_engine.rs:1926-2039 | A response to no outstanding request changes nothing |
| Outcomes.Shifted | crates/ntpsec-rs-core/src/ntp_proto.rs:270-278 | After a miss bit k + 1 of the register is the old bit k and bit 0 is clear; after an answer bit 0 is set instead |
| Outcomes.RegisterRefines | crates/ntpsec-rs-core/src/ntp_proto.rs:256-290 | In every run the reachability register holds the last eight outcomes (missed periods, unsynchronized answers, usable answers), newest in bit 0 |
| Outcomes.ReachableOverRun | crates/ntpsec-rs-core/src/ntp_proto.rs:280-282 | In every run of every configuration an association is reachable exactly if one of its last eight outcomes was a success |
| Adaptation.AdaptiveStep | crates/ntpsec-rs-core/src/ntp_proto.rs:844-858 | An answer moves the poll exponent by at most one, within its limits: down exactly from a second of offset on; up below 128 ms, or below a second while under the middle of the limits |
| Adaptation.AdaptiveWrap | crates/ntpsec-rs-core/src/ntp_proto.rs:845-847 | A good answer raises the exponent by one up to the limit, but takes 255 to zero |
| Adaptation.BurstStep | crates/ntpsec-rs-core/src/ntp_proto.rs:825-862 | A burst polls at exponent 5 and counts down, and starts only for an unreachable association with iburst; otherwise an unreachable one goes down by two |
| Adaptation.AnswerAdapts | crates/ntpsec-rs-core/src/daemon_engine.rs:2017-2023 | A usable answer adapts the poll exponent to the offset of the newest sample of least delay, the new one included |
| Adaptation.SampleTimes | crates/ntpsec-rs-core/src/daemon_engine.rs:1932-1993 | Offset and delay of a sample from the four times of the exchange; a negative delay counts as zero |
| Adaptation.SampleDispersion | crates/ntpsec-rs-core/src/daemon_engine.rs:1995-2017 | The sample carries the time of the response and the root dispersion plus twice a millionth of the poll interval |
| Engine.DaemonEngine.FindPendingRequest | crates/ntpsec-rs-core/src/daemon_engine.rs:2505-2525 | The first outstanding request with the response's timestamp, source and mode |
| Engine.DaemonEngine.HandleSymmetricPassive | crates/ntpsec-rs-core/src/daemon_engine.rs:1786-1840 | The source is looked up and stored with its IPv4 octets reversed: an association with that address changes nothing, otherwise one is made |
| Fragments.FragmentCollector.AddFragment | crates/ntpsec-rs-core/src/control_client.rs:77-209 | The checks in order, the store and the extent give the specified collector and result, on every path |
| Fragments.FragmentCollector.FindConflict | crates/ntpsec-rs-core/src/control_client.rs:128-156 | The overlap comparison reports a conflict exactly when some stored byte differs from the piece |
| Fragments.FragmentCollector.Complete | crates/ntpsec-rs-core/src/control_client.rs:212-235 | Complete exactly when the extent is known and the stored bytes cover it |
| Fragments.FragmentCollector.Assemble | crates/ntpsec-rs-core/src/control_client.rs:238-252 | Fails exactly when incomplete; otherwise the message holds exactly the stored bytes in place |
| Fragments.AddKeeps | crates/ntpsec-rs-core/src/control_client.rs:77-209 | Every call keeps fragments consistent on overlaps and within the extent, also calls that fail after storing |
| Fragments.AddRefines | crates/ntpsec-rs-core/src/control_client.rs:77-209 | The byte map grows by exactly the stored piece, no byte is lost or altered, and extent and metadata never change once known |
| Fragments.AllChecksPass | crates/ntpsec-rs-core/src/control_client.rs:77-209 | A call succeeds exactly if none of the nine checks fails, and then reports whether the message is complete |
| Fragments.FirstFailure | crates/ntpsec-rs-core/src/control_client.rs:77-209 | A failing call reports the first check that fails |
| Fragments.AddMetadata | crates/ntpsec-rs-core/src/control_client.rs:77-209 | Status and association ID are noted once they agree with what is known, even if a later check fails |
| Fragments.RunKeeps | crates/ntpsec-rs-core/src/control_client.rs:77-209 | The same over any sequence of calls |
| Fragments.Delivery | crates/ntpsec-rs-core/src/control_client.rs:77-235 | Pieces of any partition in any order with repeats are accepted, except exactly an empty piece after the piece with bytes at its offset; completion is reported exactly when all pieces with bytes and the last piece have arrived |
| Fragments.NeverLate | crates/ntpsec-rs-core/src/control_client.rs:160-168 | A piece with bytes, and an empty terminator, are never refused |
| Fragments.DeliveredMessage | crates/ntpsec-rs-core/src/control_client.rs:238-252 | What is assembled after all pieces with bytes and the last piece have arrived is the message |
| Sandbox.LoadAndCheckSyscalls | crates/ntpsec-rs-core/src/ntp_sandbox.rs:346-380 | The loop appends the comparison chain and fails exactly beyond 256 instructions |
| Sandbox.BuildFilter | crates/ntpsec-rs-core/src/ntp_sandbox.rs:319-332 | Construction fails exactly when 5 + 2k exceeds 256 |
| Sandbox.ProgramMeansPolicy | crates/ntpsec-rs-core/src/ntp_sandbox.rs:319-380 | For every list, architecture word and syscall number the program halts; it allows the call exactly if the architecture is the given one and the number is on the list cast to 32 bits, else it kills the process |
| Sandbox.ProgramLoadable | crates/ntpsec-rs-core/src/ntp_sandbox.rs:319-380 | Jumps stay in range, loads are of known words and the last instruction returns, for every program within the limit |
| Sandbox.LoadableReturns | crates/ntpsec-rs-core/src/ntp_sandbox.rs:319-380 | From any instruction a program with these properties returns a verdict |
| Sandbox.ProgramListing | crates/ntpsec-rs-core/src/ntp_sandbox.rs:319-380 | The instruction codes, jumps and constants of the generated program |
| Calendar.DateBijection | crates/ntpsec-rs-core/src/ntp_filegen.rs:68-77 | The two date formulas undo each other for years from 0 on, and the dates produced are valid |
| Calendar.CivilCounts | crates/ntpsec-rs-core/src/ntp_fp.rs:151-163 | Consecutive day numbers are consecutive calendar days |
| Calendar.CivilEpoch | crates/ntpsec-rs-core/src/ntp_fp.rs:149-163 | Day 0 is 1970-01-01 |
| Calendar.UnixSecondsFloor | crates/ntpsec-rs-core/src/ntp_fp.rs:126-135 | Seconds are grouped into days by rounding down, before the epoch too |
| Calendar.YmdToYd | crates/ntpsec-rs-core/src/ntp_calendar.rs:29-40 | The loop adds the lengths of the preceding months |
| Calendar.YdToYmd | crates/ntpsec-rs-core/src/ntp_calendar.rs:43-57 | The loop finds the month by subtraction |
| Calendar.YdRoundTrip | crates/ntpsec-rs-core/src/ntp_calendar.rs:29-57 | The search undoes the sum on valid dates |
| Calendar.YdSearchRoundTrip | crates/ntpsec-rs-core/src/ntp_calendar.rs:43-57 | The sum undoes the search on the days of the year, and the result is a valid date |
| Calendar.YdIsDistance | crates/ntpsec-rs-core/src/ntp_calendar.rs:29-40 | The day of the year is the distance from New Year by the Julian formula |
| Extensions.Encode | crates/ntpsec-rs-core/src/nts_extens.rs:123-136 | The padding loop yields the encoding, a multiple of four bytes |
| Extensions.FieldBytes | crates/ntpsec-rs-core/src/nts_extens.rs:123-136 | Big-endian type and length with the four bytes of the header, payload, zeros up to a multiple of four |
| Extensions.FieldRoundTrip | crates/ntpsec-rs-core/src/nts_extens.rs:123-178 | A field followed by anything decodes to itself and the rest exactly when its payload has at most 4092 bytes |
| Extensions.DecodeAll | crates/ntpsec-rs-core/src/nts_extens.rs:186-204 | The loop returns the specified list |
| Extensions.ListRoundTrip | crates/ntpsec-rs-core/src/nts_extens.rs:186-204 | Decoding concatenated encodings gives the longest prefix within the total bound |
| Extensions.DecodeAllInverts | crates/ntpsec-rs-core/src/nts_extens.rs:186-204 | All fields come back exactly when the payloads total at most 65535 bytes |
| Extensions.WalkersAgree | crates/ntpsec-rs-core/src/ntp_types.rs:386-416 | On every byte string, the region delimited by the packet walker holds exactly the fields the list decoder finds |
| Packets.EncodeHeader | crates/ntpsec-rs-core/src/ntp_types.rs:293-311 | Writing the fields into the array gives the header's bytes |
| Packets.HeaderLayout | crates/ntpsec-rs-core/src/ntp_types.rs:293-311 | Where each header field is: four bytes, then big-endian words at the offsets of the wire format |
| Packets.HeaderRoundTrip | crates/ntpsec-rs-core/src/ntp_types.rs:293-346 | Decoding an encoded header, whatever follows, gives it back |
| Packets.HeaderInverts | crates/ntpsec-rs-core/src/ntp_types.rs:293-346 | Re-encoding a decoded header gives the first 48 bytes |
| Packets.DecodeFull | crates/ntpsec-rs-core/src/ntp_types.rs:375-424 | The walking loop splits the packet as specified |
| Packets.PacketRoundTrip | crates/ntpsec-rs-core/src/ntp_types.rs:375-424 | Header and encoded fields come back from any packet that starts with them |
| Packets.MacRecovered | crates/ntpsec-rs-core/src/ntp_types.rs:386-424 | A trailing MAC comes back exactly when it does not itself begin like a field |
| Control.MessageRoundTrip | crates/ntpsec-rs-core/src/ntp_control.rs:252-279 | Decoding an encoded message header gives it back with the rest |
| Control.OpcodeBijection | crates/ntpsec-rs-core/src/ntp_control.rs:94-108 | The opcode byte and its flags determine each other |
| Control.BuildResponse | crates/ntpsec-rs-core/src/ntp_control.rs:381-422 | Header, truncated payload, padding, key and digest in order (see ResponseBytes and SignatureCovers) |
| Control.ResponseBytes | crates/ntpsec-rs-core/src/ntp_control.rs:252-264 | The bytes sent: response flag set, error flag clear, more flag set if the request had it set or the data exceed 468 bytes, the request's operation and association ID, the given sequence and status, offset 0, count and data |
| Control.SignatureCovers | crates/ntpsec-rs-core/src/ntp_control.rs:407-420 | A signed response is the unsigned one padded with zeros to a multiple of four, then the key ID and the digest of just those bytes |
| Control.ResponseParses | crates/ntpsec-rs-core/src/ntp_control.rs:325-422 | A response parses back to header and payload, with key and digest exactly if it was signed |
| Control.ParseFits | crates/ntpsec-rs-core/src/ntp_control.rs:325-378 | Parsing fails exactly if the data would reach beyond the datagram; the data begin at the given offset |
| Control.VerifyMac | crates/ntpsec-rs-core/src/ntp_control.rs:426-442 | Valid exactly when the store knows the key and the recomputed digest matches |
| Control.VerifiedBytes | crates/ntpsec-rs-core/src/ntp_control.rs:424-442 | Exactly the digest of header and data, padded with zeros to a multiple of four, verifies, under a known key |
| Control.ResponseAuthenticates | crates/ntpsec-rs-core/src/ntp_control.rs:325-442 | A signed response verifies exactly when the responder could compute a digest |
| Control.RequestBytes | crates/ntpsec-rs-core/src/control_client.rs:570-585 | The bytes a client sends: version 4, mode 6, opcode, sequence, association ID, zeros otherwise |
| Control.ResponseTaken | crates/ntpsec-rs-core/src/control_client.rs:605-660 | The client skips a response exactly if sequence, operation or association ID are not those it asked for or the mode is not 6, and takes the data of any other |
| Control.ErrorReported | crates/ntpsec-rs-core/src/ntp_control.rs:294-312 | The client that sent the request takes the server's error response as an error with its code |
| Control.ErrorBytes | crates/ntpsec-rs-core/src/ntp_control.rs:294-312 | The bytes of an error response: response and error flags, the request's operation, sequence and association ID, the code, no data |
| Control.ClientReceives | crates/ntpsec-rs-core/src/control_client.rs:568-680 | The response to the client's own request passes its checks, and completes the collector exactly when the request's more bit was clear and the data fit 468 bytes; then it assembles the data with status and association ID |
| ControlVars.ParseMode6Vars | crates/ntpsec-rs-core/src/control_client.rs:320-372 | The character loop computes the specified parse (see PaddedRoundTrip, QuotedValue, EscapedValue, FlagSkipped) |
| ControlVars.TrimSplits | crates/ntpsec-rs-core/src/control_client.rs:345-346 | Trimming takes white space off both ends and nothing else, and leaves none at the edges |
| ControlVars.TrimPadded | crates/ntpsec-rs-core/src/control_client.rs:345-346 | It takes off whatever white space was put around a text without any at its edges |
| ControlVars.PaddedRoundTrip | crates/ntpsec-rs-core/src/control_client.rs:345-363 | A list whose keys and values carry white space around them parses to the list without it |
| ControlVars.CommaSpace | crates/ntpsec-rs-core/src/control_client.rs:345-363 | "a=1, b=2" gives the variables a and b |
| ControlVars.EscapedValue | crates/ntpsec-rs-core/src/control_client.rs:326-334 | A backslash keeps the next character from separating or quoting; both stay in the value |
| ControlVars.FlagSkipped | crates/ntpsec-rs-core/src/control_client.rs:340-348 | An item without an equals sign is skipped |
| ControlVars.WholeItem | crates/ntpsec-rs-core/src/control_client.rs:357-369 | A text that meets no separating comma is one item, even with a quote or an escape left open |
| ControlVars.ParseEncoded | crates/ntpsec-rs-core/src/ntp_control.rs:903-908 | Parsing an encoded list of closed items gives each variable trimmed and unquoted |
| ControlVars.VarsRoundTrip | crates/ntpsec-rs-core/src/control_client.rs:320-372 | A list of closed items survives exactly when every variable is in normal form |
| ControlVars.PlainRoundTrip | crates/ntpsec-rs-core/src/control_client.rs:320-372 | Plain keys and values survive exactly when they have no white space at the edges |
| ControlVars.QuotedValue | crates/ntpsec-rs-core/src/control_client.rs:349-352 | A quoted value may hold commas and comes back without its quotes |

## Left out

- Floating-point rounding, infinities and NaN: `f64` is modelled as `real`, infinity only as the reset root distance.
- Overflow of 64-bit seconds and day numbers: integers are unbounded; 16- and 32-bit truncations are modelled.
- The checks made before a packet reaches the modelled handlers (restrictions, rate limits, loopcast, length) and all counters: a packet they drop changes no modelled state.
- Header fields that a response copies into the association (stratum, leap, root delay and dispersion, reference data): `Engine` keeps what polling and matching use; `Selection` takes them as given.
- Broadcast and private-mode packets: they change no association.
- Re-applying a configuration: the model starts from a fresh engine with one configuration.
- Reference-clock samples, the clock discipline (`local_clock`), drift files and statistics files.
- Real digests (MD5, SHA-1, CMAC): the MAC is an arbitrary function.
- Server-side continuation of long Mode 6 answers: the source sends none.
- Mode 6 text rendering, variable tables, MRU lists and binary READSTAT records.
- Installing the seccomp filter, sockets, DNS and files.
- Extensions.Encode: models the length word as wrapping at 16 bits, as in a release build; a debug build stops on overflow instead.
- EngineInvariants.RunKeeps: ticks lie within one 2^32-second era; ReplayRuns.EraIsTight shows that one second more breaks it.
- ReplayRuns.SharedAddressReplay: for up to 1000 lines, the requests that the queue of outstanding requests holds.
- ReplayRuns.ReplayLaterExactly: for up to 1000 lines, for the same reason; that no replay is accepted with distinct addresses (NoReplayAcceptedLater) has no such bound.
- ReplayRuns.ReplayIffSharedAddress: for up to 1000 lines, for the same reason.
- ReplayRuns.DuplicateExactly: for up to 1000 lines, for the same reason.
- ReplayRuns.ReplayExactly: for up to 500 lines, so that the queue holds two rounds of requests.
- ReplayRuns.SameT1Exactly: for up to 500 lines, for the same reason.
- ReplayRuns.EraIsTight: for up to 500 lines, for the same reason.
- ReplayRuns.SteadyLineDistinct: for up to 65535 lines; a line beyond has no association.
- Engine.PollUpdate: the poll exponent and the sum of the limits wrap at 8 bits, and shift counts at 64, as in a release build; a debug build stops on overflow instead.
- Adaptation.AdaptiveStep: for exponents below 255 and limits that sum to less than 256; beyond them bytes wrap (AdaptiveWrap).
- Adaptation.AnswerAdapts: under the same conditions.
- Adaptation.SampleDispersion: for exponents below 64; beyond them the shift count is taken modulo 64.
- Extensions.FieldBytes: for payloads below 65532 bytes; beyond them the length word wraps.
