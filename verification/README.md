# Caly Anti: a verified model of the dataplane and its control loop

Caly Anti is an XDP/tc firewall with a userspace control loop and a log watcher. This project models the parts of it
that carry state or arithmetic and proves what they keep over every run. Values are functions and datatypes; what the
source updates in place (buckets, packet buffers, tables, the controller, counters) is a class or an array whose methods
are proved equal to, or constrained by, functions on values; the lemmas are about those functions.

| file | part of the system |
|---|---|
| `TokenBucket.dfy`, `BucketFloor.dfy`, `NominalRate.dfy` | the per-source token bucket: overflow freedom, exact grants, bounds from both sides over every run, and when the nominal rate is enforced |
| `OnesComplement.dfy`, `InternetChecksum.dfy` | RFC 1071 and RFC 1624 arithmetic, byte order, checksums over ranges and pseudo headers |
| `SynProxy.dfy` | the in-place SYN to SYN-ACK rewrite and the program around it |
| `Ip6Ext.dfy` | the two IPv6 extension-header walkers |
| `Baseline.dfy`, `ModeMachine.dfy`, `ModeRuns.dfy`, `ModeExact.dfy` | the autotune controller: EWMA baselines, detection, the mode machine, and exactly when its mode moves over whole runs |
| `ConfigSynth.dfy`, `ConfigExact.dfy` | configuration synthesis, field by field, the sanity gate, the push |
| `Probing.dfy`, `SrcTable.dfy`, `EventTable.dfy` | the two open-addressed tables |
| `Conntrack.dfy`, `FlowHistory.dfy` | conntrack-lite as a protocol over one shared map, and its short-circuit read off the history of a flow |
| `ScanFilter.dfy`, `ScanExact.dfy`, `StrikeWindow.dfy`, `BanTtl.dfy`, `BanRecord.dfy` | what a ban is evidence for, and how long it lasts |
| `Chain.dfy`, `DropLaw.dfy` | the tail-call chain, its accounting, its escape hatches, and the exact grounds of every drop |
| `SlidingCounter.dfy` | the watcher's bounded deque |
| `Words.dfy`, `Mixing.dfy` | fixed-width words, small arithmetic facts, the 32-bit mixer |

Kernel helpers, clocks, the network and map contents are parameters: the SYN cookie, the current time, whether a map
write finds room, whether a tail call succeeds, what a lookup answers. LRU eviction is a removal that may happen at any
time. Machine integers wrap where the source's do, except for plain statistics counters.

## Findings

Where the code and its comments or documentation disagree, the model follows the code.

- The bucket's accounting charges a rounded-down price per token, so a configured rate is a true upper bound exactly when,
  once clamped, one token is a whole number of nanoseconds or one nanosecond a whole number of tokens
  (`NominalRate.RateLawIff`).
- The comment on the ban TTL product says that it cannot overflow; it can, and then the C helper and its Python port part
  (`BanTtls.WrapStalls`, `BanTtls.AgreeIff`). The TTL stays in range either way (`BanTtls.TtlInRange`).
- A caller-named ban TTL is cut to the ceiling for a first offence only, and a base above the ceiling is served from the
  second offence on; `BanRecords.CeilingIff` is the exact condition.
- The comment on the TTL helper promises ttl * num / den; the code divides first and loses the remainder. The promise
  holds exactly as `BanTtls.PromiseIff` says, and fails for 5 ns by three halves (`BanTtls.PromiseFails`).
- The incremental checksum equals recomputation exactly when the new data is not all zero (`OnesComplement.UpdateRefines`).
- The EWMA step adds the time constant and the interval in 64 bits; it lands between the old value and the sample exactly
  for time constants up to 2^63 ns (`Baselines.EwmaBetweenIff`).
- Thresholds and scores go through a 128-bit product that is cut back to 64 bits. A huge baseline wraps its threshold
  down to the floor and a huge sample scores nothing (`Baselines.ThresholdWraps`, `Baselines.ScoreWraps`); the exact
  conditions are `Baselines.RuleKeptIff` and `Baselines.ScoreKeptIff`. The doubled ban base wraps the same way
  (`ConfigExact.DoubledBaseWraps`, `ConfigExact.BanBaseIff`).
- A configuration push that fails in a decision is not made up: the next decision tries again exactly when mode or
  classes have moved or nothing was ever applied (`ModeRuns.FailedPushIsNotRetried`, `ModeRuns.OwedPushStaysOwed`,
  `ModeRuns.OwedPushExample`). A failed override or reload is made up unless it pins an operator mode
  (`ModeRuns.FailedOverrideIsMadeUp`, `ModeRuns.FailedReloadIsMadeUp`).
- A class presses its buckets even in NORMAL. A limit is the operator's own exactly when no asserted class presses it or
  its floor covers it (`ConfigSynth.NormalLimitIff`, `ConfigSynth.NormalRestoresIff`).
- The strike window is described as sliding; it is anchored and reset (`StrikeWindow.AnchoredNotSliding`,
  `StrikeWindow.StageDoesNotSlide`). `StrikeWindow.SlidingPromiseIff` says exactly when the sliding promise is met.
- A RST is said not to open the door for the next packet. A FIN after it does: it moves the closed entry to FIN_WAIT and
  every later packet is short-circuited again (`FlowHistory.FinReopensAfterReset`); `FlowHistory.TcpFastPathIff` is exact.
- A cleared scan filter takes port 0 for the last one probed, so the scan stage does not count a probe of port 0 that
  meets one; the window helper stores port + 1 and does (`ScanExact.ScanBansIff`, `ScanExact.RegisterBansIff`).
- Every packet is said to be charged one specific reason; a SYN for which the proxy asked for a cookie is charged none
  (`Chain.ChargesSay`).
- ICMP types that "can never be dropped" are dropped exactly for equal addresses, as fragments or when oversized
  (`Chain.MandatoryIcmpDropsIff`).
- Monitoring a single interface rewrites every drop, but the SYN proxy does not consult it and may still answer
  (`Chain.TransmitsIff`, `Chain.MonitoredInterface`, `Chain.InterfaceMonitorStillTransmits`). Global monitor mode passes everything
  (`Chain.MonitorOnlyPasses`).

## Model

| member | source | states |
|---|---|---|
| `TokenBuckets.TokenBucket.Init` | src/bpf/common.h:1129-1139 | a new bucket is full and anchored at the given time |
| `TokenBuckets.TokenBucket.Accrue` | src/bpf/common.h:1141-1177 | the 64-bit wrapping accrual equals the unbounded one: anchor and tokens move together, and the balance it leaves is pinned from both sides by `BucketFloor.BalanceIff` |
| `TokenBuckets.TokenBucket.Consume` | src/bpf/common.h:1141-1184 | for every rate and burst the wrapping computation is the unbounded step, so no intermediate overflows; `BucketFloor.GrantIff` says exactly when that step grants |
| `TokenBuckets.RunInvariant` | src/bpf/common.h:1141-1184 | over every run with an ordered clock and rate up to 1e9: anchor within the clock, tokens within burst, each unit granted or held is paid for in time |
| `TokenBuckets.GrantBound` | src/bpf/common.h:1141-1184 | U granted units cost at least U times the price in nanoseconds beyond the opening balance, however many calls are made |
| `TokenBuckets.NoLowDrift` | src/bpf/common.h:1161-1177 | the credit of a run without snap or cap trails real time by less than 1e9 + rate |
| `TokenBuckets.WaitIsRewarded` | src/bpf/common.h:1141-1184 | once the owed time has passed, counting one second at most, a request within burst is granted |
| `BucketFloor.BalanceIff` | src/bpf/common.h:1152-1177 | a call finds at least n tokens exactly when n is within the burst and the held tokens plus the counted time cover it; a refill never takes a token away |
| `BucketFloor.GrantIff` | src/bpf/common.h:1141-1184 | for every bucket, disabled, fresh or behind the clock included: a call is granted exactly when it is within the burst and covered; a refused one leaves the balance it found |
| `BucketFloor.RunHoldsTheIdeal` | src/bpf/common.h:1141-1184 | over every run, capped and snapped ones included, the bucket trails the ideal one by less than a token and a nanosecond's worth: a lower bound on granted plus held |
| `NominalRate.RunExact` | src/bpf/common.h:1161-1177 | when the clamped rate is exactly representable every run grants at most the opening balance plus that many units per second |
| `NominalRate.InexactRateIsExceeded` | src/bpf/common.h:1161-1177 | for every other rate, zero included, some run of a freshly initialised bucket is granted more |
| `NominalRate.RateLawIff` | src/bpf/common.h:1141-1184 | for every rate at all: it is enforced on every run if and only if the clamped rate divides 1e9 or is a multiple of it |
| `BanTtls.TtlInRange` | src/bpf/common.h:1187-1208 | the next TTL lies in the normalised range even if the product wraps, and is not shortened inside it |
| `BanTtls.AgreeIff` | watcher/calywatch.py:3293-3307 | the C helper and its Python port agree if and only if the product fits or wraps to something the ceiling cuts anyway |
| `BanTtls.WrapStalls` | src/bpf/common.h:1187-1208 | an input on which the product wraps and the two differ |
| `BanTtls.GrowsIff` | src/bpf/common.h:1187-1208 | an offence lengthens the ban exactly when the division loses less than the factor gains |
| `BanTtls.OffenceStep` | src/bpf/common.h:1187-1208 | from a base of at least den*den every offence below the ceiling lengthens the ban; the ceiling is a resting point |
| `BanTtls.OffencesReachCeiling` | src/bpf/common.h:1187-1208 | repeated offences strictly lengthen the ban until it rests at the ceiling |
| `BanTtls.EscalatedIff` | src/bpf/common.h:1187-1208 | where the product fits, the escalated TTL reaches n exactly within the ceiling and within the current TTL or num for every whole den in it |
| `BanTtls.PromiseIff` | watcher/calywatch.py:3293-3307 | the promised ttl * num / den is met if and only if less than one unit is lost to the early division, the ceiling hides the loss, or the promise does not lengthen the ban |
| `BanTtls.PromiseFails` | src/bpf/common.h:1187-1208 | an input on which the promise is missed |
| `BanRecords.Record.Install` | src/bpf/xdp_firewall.bpf.c:293-381 | refresh, escalation and first installation change the record as the value functions say |
| `BanRecords.ServingDoesNotEscalate` | src/bpf/xdp_firewall.bpf.c:311-327 | a ban being served is prolonged by at least its TTL and keeps its TTL and offence count |
| `BanRecords.TtlsStayBelow` | src/bpf/xdp_firewall.bpf.c:293-381 | over every run with base and caller TTLs up to a set ceiling the stored TTL stays up to it |
| `BanRecords.RepeatExceedsCeiling` | src/bpf/xdp_firewall.bpf.c:330-351 | a repeat offender gets a caller TTL above the ceiling, a first offender does not |
| `BanRecords.CeilingIsExceeded` | src/bpf/xdp_firewall.bpf.c:293-381 | for every other policy that bans at all, a run and a call that exceed the ceiling |
| `BanRecords.CeilingIff` | src/bpf/xdp_firewall.bpf.c:293-381 | for every policy: every ban of every run respects the ceiling if and only if it is set and neither base nor caller TTL exceeds it, or no TTL is ever named |
| `BanRecords.RecordIsHistory` | src/bpf/xdp_firewall.bpf.c:293-381 | over every run of calls a record's deadline is the last banning call plus the TTL it was answered with, its TTL that of the last offence, and it counts the offences |
| `BanRecords.RecordIff` | src/bpf/xdp_firewall.bpf.c:293-381 | a source has a record if and only if some call banned it |
| `BanRecords.BannedIff` | src/bpf/xdp_firewall.bpf.c:311-327 | a source is banned at a time if and only if the TTL of the last banning call has not passed (in 64 bits) |
| `BanRecords.NextTtlIs` | src/bpf/xdp_firewall.bpf.c:311-381 | the TTL of the next call, in terms of the last offence's: the longer of it and the caller's while serving, escalated after it, base or caller's up to the ceiling for a new source |
| `OnesComplement.FoldIsNorm` | src/bpf/checksum.h:95-110 | two folds give the normal form of any 32-bit accumulator |
| `OnesComplement.AddKeepsValue` | src/bpf/checksum.h:80-84 | carrying addition keeps the one's-complement value |
| `OnesComplement.SubKeepsValue` | src/bpf/checksum.h:86-93 | carrying subtraction keeps the one's-complement value |
| `OnesComplement.Replace16` | src/bpf/checksum.h:166-180 | the two loops equal replacing all words at once |
| `OnesComplement.ChecksumIsAccepted` | src/bpf/checksum.h:95-102 | the recomputed checksum is accepted by a receiver |
| `OnesComplement.UpdateRefines` | src/bpf/checksum.h:148-180 | from an accepted field the update (Eqn. 3, section 3 of RFC 1624) never yields 0xFFFF, and equals the recomputed, accepted checksum if and only if the new data is not all zero |
| `OnesComplement.NarrowUpdates` | src/bpf/checksum.h:148-164 | the 16-bit and 32-bit forms are the general update of one word |
| `InternetChecksum.ByteOrderIndependence` | src/bpf/checksum.h:210-263 | the recomputed checksum has the same two bytes on the wire in both byte orders, for every byte string, odd lengths included (section 2 (B) of RFC 1071) |
| `InternetChecksum.NativeVerifies` | src/bpf/checksum.h:210-263 | a packet is accepted in network order exactly when its native sum is |
| `InternetChecksum.SumWords` | src/bpf/checksum.h:210-263 | the word loop sums the range with the skipped field read as zero |
| `InternetChecksum.CsumRange` | src/bpf/checksum.h:210-263 | refusal exactly for a range outside the frame or over the limit; otherwise the sum of the blanked range |
| `InternetChecksum.Ipv4Csum` | src/bpf/checksum.h:277-294 | the result is exactly the recomputed checksum of the header with its field blank, and the stamped header verifies |
| `InternetChecksum.Ipv4CsumAgrees` | src/bpf/checksum.h:277-294 | runs on hosts of either byte order accept the same headers and store the same two bytes |
| `InternetChecksum.Pseudo4Value` | src/bpf/checksum.h:308-323 | the IPv4 pseudo-header sum is that of its bytes (section 3.1 of RFC 9293) |
| `InternetChecksum.Pseudo6Value` | src/bpf/checksum.h:325-362 | the IPv6 pseudo-header sum is that of its bytes (section 8.1 of RFC 8200) |
| `InternetChecksum.PseudoCsum6` | src/bpf/checksum.h:325-362 | the address loop computes the pseudo-header sum |
| `InternetChecksum.L4Csum4` | src/bpf/checksum.h:364-390 | the result is exactly the recomputed checksum of pseudo header and segment as transmitted, with or without a skipped field; once stamped they verify together |
| `InternetChecksum.L4Csum4Agrees` | src/bpf/checksum.h:364-390 | runs on hosts of either byte order accept the same segments and store the same two bytes, for every pseudo header |
| `InternetChecksum.L4Csum6` | src/bpf/checksum.h:392-416 | the same as L4Csum4 for IPv6 |
| `InternetChecksum.L4Csum6Agrees` | src/bpf/checksum.h:392-416 | the same as L4Csum4Agrees for IPv6 |
| `InternetChecksum.NoSkipChecks` | src/bpf/checksum.h:364-416 | without a skipped field the result is 0xFFFF exactly for bytes that verify or are all zero |
| `InternetChecksum.PacketUpdate` | src/bpf/checksum.h:148-180 | replacing fields inside an accepted packet incrementally equals recomputing over its new bytes, unless they are all zero |
| `InternetChecksum.PacketUpdate2` | src/bpf/checksum.h:148-155 | the same for one 16-bit field of a packet |
| `SynProxy.WriteMss` | src/bpf/xdp_synproxy.bpf.c:378-402 | the option area becomes one MSS option and NOPs, nothing else moves |
| `SynProxy.MakeSynAckTcp` | src/bpf/xdp_synproxy.bpf.c:419-442 | the TCP header becomes the SYN-ACK header in place |
| `SynProxy.Restamp` | src/bpf/xdp_synproxy.bpf.c:232-278 | blank, sum, fold and store equal the re-checksummed range |
| `SynProxy.RechecksumVerifies` | src/bpf/xdp_synproxy.bpf.c:223-278 | only the field moves, and prefix and range verify together |
| `SynProxy.SynV4` | src/bpf/xdp_synproxy.bpf.c:444-517 | transmits exactly bare SYNs with a cookie, as the rewritten frame; its sequence number and MSS are the low 32 and the next 16 bits of the helper's answer; otherwise the frame is untouched |
| `SynProxy.SynV6` | src/bpf/xdp_synproxy.bpf.c:554-616 | the same for IPv6, the helper's answer in sequence number and MSS included |
| `SynProxy.SynAck4Correct` | src/bpf/xdp_synproxy.bpf.c:444-517 | the rewritten IPv4 frame has the same length, mirrored MACs, addresses and ports, ack = seq + 1 mod 2^32, cookie as seq, one MSS option then NOPs, and both checksums verify |
| `SynProxy.SynAck6Correct` | src/bpf/xdp_synproxy.bpf.c:554-616 | the same for IPv6 |
| `SynProxy.Rewrite4Agrees` | src/bpf/xdp_synproxy.bpf.c:444-517 | hosts of either byte order send the identical IPv4 reply, byte for byte |
| `SynProxy.Rewrite6Agrees` | src/bpf/xdp_synproxy.bpf.c:554-616 | hosts of either byte order send the identical IPv6 reply |
| `SynProxy.StripTags` | src/bpf/xdp_synproxy.bpf.c:673-696 | the VLAN loop finds the network header behind at most two tags |
| `SynProxy.Locate` | src/bpf/xdp_synproxy.bpf.c:666-765 | finds the complete, unfragmented TCP header exactly when the frame has one |
| `SynProxy.Proxy` | src/bpf/xdp_synproxy.bpf.c:647-842 | Tx, Drop and Pass each exactly when stated; a transmitted frame is the correct reply, with the helper's answer modulo 2^32 as sequence number and modulo 2^48 together with the MSS; any other verdict leaves it as received |
| `Ip6Ext.SkipExts` | src/bpf/parsing.h:501-633 | stays in bounds and terminates; when it accepts, protocol, cursor, header count and fragment data (last offset, last more-fragments bit) are those of the recursive chain of section 4 of RFC 8200 |
| `Ip6Ext.ParseExts` | src/bpf/xdp_firewall.bpf.c:628-697 | the same for the parser's own walk; `frag` is set exactly for a chain with a fragment header, and the two fragment rejections occur only for a chain that has the offending header |
| `Ip6Ext.Agree` | src/bpf/xdp_firewall.bpf.c:628-697 | on every frame the two walkers agree on upper protocol, offset and fragment offset whenever both accept, and the parser accepts what the cursor walked to within its ceiling, fragment policy aside |
| `Ip6Ext.UpperAdvances` | src/bpf/parsing.h:501-633 | every header moves the end of the chain at least 8 bytes on |
| `Baselines.EwmaLandsBetween` | src/user/autotune.c:162-175 | a step lands between the old value and the sample |
| `Baselines.EwmaBetweenIff` | src/user/autotune.c:162-175 | it does so for every input if and only if the time constant is at most 2^63 |
| `Baselines.EwmaMovesIff` | src/user/autotune.c:162-175 | a step moves by at least k exactly when the interval's share of the distance, rounded down, is at least k |
| `Baselines.OverIff` | src/user/autotune.c:1231-1241 | a sample is anomalous if and only if it exceeds the floor and the given tenths of the baseline |
| `Baselines.RuleKeptIff` | src/user/autotune.c:1231-1241 | for every rule and baseline: that holds for all samples if and only if the product fits, or wraps to a threshold that nothing exceeds |
| `Baselines.ThresholdWraps` | src/user/autotune.c:117-134 | a baseline whose threshold wraps to its floor |
| `Baselines.ScoreIff` | src/user/autotune.c:1243-1274 | a score of k or more if and only if the sample is 4k percent over its threshold, up to 100 |
| `Baselines.ScoreKeptIff` | src/user/autotune.c:1243-1274 | for every anomalous sample: that holds if and only if the quotient fits, or wraps to 500 percent or more |
| `Baselines.ScoreWraps` | src/user/autotune.c:117-134 | an overwhelming sample that scores nothing |
| `Baselines.SeverityIff` | src/user/autotune.c:1275-1300 | severity k or more if and only if the worst score and eight points per further anomaly reach it, or an absolute mark does |
| `Baselines.WorstIsMaximum` | src/user/autotune.c:1243-1274 | the severity seed bounds every score, is attained by one, and is 0 without anomalies |
| `Baselines.Detect` | src/user/autotune.c:1243-1300 | anomalies, absolute marks and severity are those of the baselines before the sample; only the anomaly marks move |
| `Baselines.UpdateTracks` | src/user/autotune.c:177-203 | every metric takes its sample; frozen long windows keep their value |
| `ModeMachine.Target` | src/user/autotune.c:2011-2046 | never above LOCKDOWN, LOCKDOWN only if allowed and warmed, at least UNDER_ATTACK over an absolute mark, NORMAL otherwise before warm-up |
| `ModeMachine.Autotune.constructor` | src/user/autotune.c:2481-2564 | the controller starts in the live mode, pinned in operator modes, with empty baselines and fresh counters |
| `ModeMachine.Autotune.StepMode` | src/user/autotune.c:2055-2112 | the counters, mode and time stamp move as the ladder function says, which rises and falls exactly as `ModeExact.RisesIff` and `ModeExact.FallsIff` state |
| `ModeMachine.Autotune.Sampled` | src/user/autotune.c:2754-2786 | detection, freezing, baselines and mode step in that order equal the value functions of the old state |
| `ModeMachine.Autotune.AdoptOutside` | src/user/autotune.c:2720-2735 | an outside mode change is adopted, counters cleared, operator modes pinned |
| `ModeMachine.Autotune.DecideNow` | src/user/autotune.c:2749-2799 | a decision and the push it calls for are one step of the state machine |
| `ModeMachine.Autotune.Tick` | src/user/autotune.c:2685-2830 | a tick is exactly the logged events, in order, or nothing on a foreign ABI or an early tick |
| `ModeMachine.Autotune.ForceMode` | src/user/autotune.c:2642-2671 | an override is the Force event; an unknown mode changes nothing |
| `ModeMachine.Autotune.Release` | src/user/autotune.c:2673-2683 | unpinning is the Unpin event |
| `ModeMachine.Autotune.SetBase` | src/user/autotune.c:2585-2628 | a reload is the Rebase event |
| `ModeRuns.StepCounts` | src/user/autotune.c:2055-2112 | a counter is positive only after a vote for it or a clock restart that left it alone |
| `ModeRuns.CounterIsStreak` | src/user/autotune.c:2055-2112 | over every run each counter stands for that many consecutive votes under an unchanged mode |
| `ModeRuns.SinceIsLastMark` | src/user/autotune.c:2685-2786 | over every run the dwell clock is the stamp of the last mode change, override or restart |
| `ModeRuns.RiseIsConfirmed` | src/user/autotune.c:2055-2112 | every automatic rise is one rung, never MONITOR_ONLY, LOCKDOWN only if allowed, and closes exactly confirm_up consecutive decisions above the mode |
| `ModeRuns.FallIsConfirmed` | src/user/autotune.c:2055-2112 | every automatic fall is one rung, closes at least confirm_down consecutive quiet decisions below the mode, and comes no sooner than the dwell after the last mark, which is named or shown not to exist |
| `ModeRuns.FirstTickMarks` | src/user/autotune.c:2720-2755 | the first tick after initialisation adopts or restarts, it never decides |
| `ModeRuns.FallWaitsOutTheDwell` | src/user/autotune.c:2739-2755 | in a run that does not begin with a decision, as no run of ticks does, under an ordered clock whose last mark is stamped, a fall comes at least the dwell after every restart, override and mode change |
| `ModeRuns.BaselineStep` | src/user/autotune.c:2761-2775 | a baseline moves only outside ELEVATED..LOCKDOWN and without any anomaly, lands between old value and sample, and stays below the larger of old baseline and old threshold |
| `ModeRuns.BaselineIsTaught` | src/user/autotune.c:177-203 | over every run the baseline is the EWMA of the learned samples alone |
| `ModeRuns.TaughtStaysBelow` | src/user/autotune.c:162-175 | an EWMA never leaves the range of its start and its samples |
| `ModeRuns.BaselineHoldsUnderAttack` | src/user/autotune.c:2761-2775 | over any run of decisions in ELEVATED..LOCKDOWN or under anomalies the baseline is constant |
| `ModeExact.RisesIff` | src/user/autotune.c:2055-2078 | over every run a decision raises the mode, by one rung, if and only if it completes confirm_up consecutive decisions since the last mark that vote up under that mode |
| `ModeExact.FallsIff` | src/user/autotune.c:2080-2112 | a decision lowers the mode, by one rung, if and only if it ends at least confirm_down consecutive quiet votes and the dwell since the last mark is over |
| `ModeExact.OneRungAtMost` | src/user/autotune.c:2055-2112 | no decision moves the mode by more than one rung |
| `ModeExact.SinceIsLastStamp` | src/user/autotune.c:2055-2112 | the dwell clock is the stamp of the last mark before the decision |
| `ModeExact.WantedIff` | src/user/autotune.c:2011-2053 | each rung is aimed at if and only if severity with warmed baselines or an absolute mark calls for it; LOCKDOWN only where allowed |
| `ModeExact.RunClock` | src/user/autotune.c:2685-2760 | over every run the sample count is the number of decisions, and the warm-up and interval clocks are those of the last restart and the last sample |
| `ModeExact.PinnedIff` | src/user/autotune.c:2585-2683 | over every run the controller is pinned if and only if the last operator event named LOCKDOWN or MONITOR_ONLY |
| `ModeExact.AdoptsIff` | src/user/autotune.c:2700-2760 | the tick after a decision adopts the live mode exactly when it is not what the decision left applied |
| `ModeExact.TickLogIff` | src/user/autotune.c:2685-2830 | a tick decides, restarts or waits exactly by its clock, and never with a foreign ABI |
| `ModeExact.LearnsIff` | src/user/autotune.c:2761-2775 | the long baselines learn if and only if the mode is outside ELEVATED..LOCKDOWN and no metric is anomalous |
| `ModeExact.WindowsAreTaught` | src/user/autotune.c:177-203 | over every run, attacks included, the short and medium windows are the EWMA of all samples |
| `ModeExact.FirstSampleSetsAll` | src/user/autotune.c:177-203 | a first sample sets every window, anomaly or not |
| `ModeRuns.FailedPushIsNotRetried` | src/user/autotune.c:2789-2800 | after a decision whose push failed, the next decision tries again if and only if it is not pinned and mode or classes have moved or nothing was ever applied |
| `ModeRuns.FailedOverrideIsMadeUp` | src/user/autotune.c:2642-2671 | after a failed override, a decision that keeps its mode tries again if and only if it is no operator mode and differs from what was last tried |
| `ModeRuns.FailedReloadIsMadeUp` | src/user/autotune.c:2585-2628 | after a failed reload the next decision tries again if and only if it named no operator mode |
| `ModeRuns.OwedPushStaysOwed` | src/user/autotune.c:2789-2800 | over any number of decisions with unchanged, already tried mode and classes nothing is tried |
| `ModeRuns.OwedPushExample` | src/user/autotune.c:2685-2800 | three ticks of a freshly started controller: the clock starts, a push fails, a writable repeat tries nothing |
| `ConfigSynth.ScaleDownBounds` | src/user/autotune.c:1532-1549 | between the smaller of value and floor, and the value; zero exactly for zero |
| `ConfigSynth.ScaleUpBounds` | src/user/autotune.c:1551-1565 | at least the value and at most the larger of value and cap |
| `ConfigSynth.ScaleDownMono` | src/user/autotune.c:1532-1549 | a smaller percentage never gives a larger limit |
| `ConfigExact.ScaleDownIff` | src/user/autotune.c:1532-1549 | the scaled value reaches n if and only if the value does and n is 1, within the floor or within the share |
| `ConfigExact.ScalesUpIff` | src/user/autotune.c:1551-1565 | the value is scaled up to the multiple or the cap if and only if the product fits or the cap is no higher than what is left of it |
| `ConfigSynth.PressKind` | src/user/autotune.c:1567-1585 | the table loop computes the strongest single press |
| `ConfigSynth.KindPctIsStrongest` | src/user/autotune.c:1567-1585 | the result is the minimum over the applicable rows and the mode share; presses do not compound |
| `ConfigSynth.KindPctMono` | src/user/autotune.c:1567-1585 | a lower share or more classes never raise it |
| `ConfigSynth.EnforceMgmt` | src/user/autotune.c:1593-1626 | the repair computes the repaired lists and reports exactly whether it changed anything |
| `ConfigSynth.RepairListsSsh` | src/user/autotune.c:1593-1626 | TCP/22 is listed, a correct list is left alone, and only a full list loses a port: its last |
| `ConfigExact.RepairIff` | src/user/autotune.c:1593-1626 | the repaired lists slot by slot: both counts, the slot TCP/22 takes, and every other slot kept |
| `ConfigSynth.BuildConfig` | src/user/autotune.c:1696-1815 | the loops and branches build the candidate |
| `ConfigSynth.LimitsWithinBase` | src/user/autotune.c:1718-1725 | every bucket limit lies between the smaller of base and floor, and base, and is zero exactly if base is |
| `ConfigSynth.LimitsNeverLoosen` | src/user/autotune.c:1718-1725 | a higher rung up to LOCKDOWN or a larger class set never loosens a bucket |
| `ConfigSynth.NormalLimitIff` | src/user/autotune.c:1718-1725 | in NORMAL, for every class set and bucket, the limit is the operator's own if and only if no asserted class presses it or its floor covers it |
| `ConfigSynth.NormalRestoresIff` | src/user/autotune.c:1696-1725 | all rates, bursts and the SYN cap of a NORMAL candidate are the operator's own if and only if the floors cover every pressed one |
| `ConfigSynth.ClassPressesInNormal` | src/user/autotune.c:1718-1725 | the SYN class lowers every SYN limit above its floor even in NORMAL |
| `ConfigSynth.FlagsExact` | src/user/autotune.c:1783-1811 | no operator bit is cleared, capability bits are the live ones, every added bit is an authorised one |
| `ConfigSynth.CandidateFields` | src/user/autotune.c:1696-1815 | mode valid, sizing kept, TCP/22 listed, ABI stamp kept, LOCKDOWN forces the allowlist |
| `ConfigSynth.CandidateReadsLittle` | src/user/autotune.c:1696-1815 | a candidate depends on nothing of the live configuration but ABI, capabilities and generation |
| `ConfigSynth.NormalRestoresBaseline` | src/user/autotune.c:1696-1815 | NORMAL without a class gives the baseline back, up to identity fields |
| `ConfigSynth.OnlyHarsher` | src/user/autotune.c:1727-1781 | bans, strikes, scan threshold, timeouts, sampling and the SYN cap only get stricter, within their limits |
| `ConfigExact.LimitIff` | src/user/autotune.c:1714-1725 | a bucket limit reaches n if and only if the base does and n is 1, within the floor, or within the share of the mode and of every asserted press |
| `ConfigExact.PressesAre` | src/user/autotune.c:1511-1530 | which classes press which bucket, and what share each leaves |
| `ConfigExact.SynCapIff` | src/user/autotune.c:1727-1731 | the exact SYN cap of a machine without the proxy |
| `ConfigExact.BanBaseIff` | src/user/autotune.c:1733-1741 | bans last twice as long under attack and four times in lockdown, up to the ceiling, if and only if 64 bits hold the product or the ceiling hides the wrap |
| `ConfigExact.DoubledBaseWraps` | src/user/autotune.c:1733-1741 | a base that is not doubled |
| `ConfigExact.StrikesIff` | src/user/autotune.c:1743-1752 | the exact strike limit: half under attack, a quarter in lockdown, never below 2 |
| `ConfigExact.ScanThresholdIff` | src/user/autotune.c:1754-1758 | the exact scan threshold: the rung's share while a scan is asserted, never below 8 |
| `ConfigExact.TimeoutsIff` | src/user/autotune.c:1760-1770 | the exact half-open and established timeouts while a class asserts hoarding |
| `ConfigExact.LogSampleIff` | src/user/autotune.c:1772-1784 | the exact log sampling: two, four and eight times, up to a million |
| `ConfigExact.FlagIff` | src/user/autotune.c:1715-1812 | for every bit of the flag word the exact condition under which it is set |
| `ConfigSynth.ConfigSane` | src/user/autotune.c:1630-1694 | the gate decides exactly the sanity conditions |
| `ConfigSynth.CandidateIsSaneIff` | src/user/autotune.c:1630-1694 | the gate accepts a candidate if and only if the live ABI major is right, whatever the baseline holds |
| `ConfigSynth.Pusher.constructor` | src/user/autotune.c:2518-2525 | nothing is pushed yet and the live configuration counts as applied |
| `ConfigSynth.Pusher.Push` | src/user/autotune.c:1826-1876 | what is written, kept or refused, under the next generation; nothing without TCP/22 or with a foreign ABI ever reaches the map |
| `Probing.MissIsAbsent` | src/user/autotune.c:428-449 | a probe that ends at a free slot or after the whole window has searched the whole table |
| `Probing.InsertKeepsForm` | src/user/autotune.c:428-465 | a new key at its probe keeps every key inside its window behind taken slots, without duplicates, and the count exact |
| `Probing.WindowWalks` | src/user/autotune.c:424-430 | the probes of a key are neighbouring slots from its own on, around the end, and none is probed twice |
| `SrcTable.SourceTable.Get` | src/user/autotune.c:410-466 | none exactly for an invalid address or no slots; otherwise the source's own last record or a blank one flagged created, every other slot untouched, and only the coldest slot of a full window recycled |
| `SrcTable.SourceTable.Give` | src/user/autotune.c:432-465 | a free or recycled slot becomes a blank record and the table stays well formed |
| `SrcTable.SourceTable.Remember` | src/user/autotune.c:410-466 | the caller's update changes that record alone |
| `SrcTable.LookupRefinesLossyMap` | src/user/autotune.c:410-466 | a lookup is a step of a lossy map: no record appears from nowhere, and only the recycled one is lost |
| `EventTable.SummaryCounts` | src/user/events.c:371-403 | a bucket counts exactly its key's records and bytes |
| `EventTable.SummaryMeans` | src/user/events.c:371-403 | a bucket's peaks (attained), worst verdict, first and last time are those of its key's records |
| `EventTable.SummaryOrder` | src/user/events.c:371-403 | a bucket counts its key's port changes, and short of a drop keeps the verdict of the first record |
| `EventTable.EventsCtx.Add` | src/user/events.c:406-431 | one record goes to its bucket, a new bucket or the spill slot, and the books stay balanced |
| `EventTable.KeyIsWholeOrSpilled` | src/user/events.c:406-431 | in every reachable state all records of a key are in its one bucket, or every one of them was spilled behind a full window; the spill count is exactly the number of records without a bucket |
| `EventTable.Best` | src/user/events.c:442-454 | the scan finds the waiting bucket with the highest count, the first of equals |
| `EventTable.Select` | src/user/events.c:437-459 | the selection is ranked and complete up to the wanted number |
| `EventTable.RankedMeans` | src/user/events.c:437-459 | the selected buckets descend in count and no bucket left out has a higher one |
| `EventTable.EventsCtx.Flush` | src/user/events.c:465-520 | the total is exactly the number of records since the last flush; shown plus suppressed is the selection; all totals add up to the accepted records |
| `EventTable.HitBalances` | src/user/events.c:414-417 | folding into the key's bucket keeps counts, exactness and placement |
| `EventTable.NewBucketBalances` | src/user/events.c:418-422 | opening a bucket keeps them |
| `EventTable.SpillBalances` | src/user/events.c:425-430 | spilling keeps them |
| `Conntrack.SwapInvolution` | src/bpf/tc_egress.bpf.c:232-250 | mirroring twice is the identity, so an egress tuple names one ingress key |
| `Conntrack.FlowTable.Xdp` | src/bpf/xdp_firewall.bpf.c:1904-1990 | the stage's lookup, refresh and later learning are one step, and it passes exactly on the fast path, which `FlowHistory.TcpFastPathIff` and `FlowHistory.UdpFastPathSteps` read off the run |
| `Conntrack.FlowTable.Transmit` | src/bpf/tc_egress.bpf.c:252-357 | the egress learner updates or creates the mirrored entry |
| `Conntrack.FlowTable.Spliced` | src/bpf/xdp_synproxy.bpf.c:345-365 | a validated cookie stores an established entry |
| `Conntrack.FlowTable.Tc` | src/bpf/tc_ingress.bpf.c:484-570 | the tc lookup and learning are one step, with the right hit class |
| `Conntrack.XdpUdpIsSolicited` | src/bpf/xdp_firewall.bpf.c:2698-2719 | over every run a UDP entry exists exactly when a stored egress packet with the mirrored tuple survives, is always ESTABLISHED, and no entry beyond TCP and UDP exists |
| `Conntrack.LastSeenIsLastTouch` | src/bpf/xdp_firewall.bpf.c:1916-1948 | the idle time of a UDP entry runs from the last egress or in-timeout ingress packet of its flow |
| `Conntrack.StreamIsReplied` | src/bpf/tc_egress.bpf.c:295-306 | the stream timeout applies exactly to UDP flows that sent again while their entry was alive |
| `Conntrack.UdpFastPathIff` | src/bpf/xdp_firewall.bpf.c:1904-1990 | a UDP packet is short-circuited exactly when such an entry survives within its timeout |
| `Conntrack.IcmpNeverFast` | src/bpf/xdp_firewall.bpf.c:1904-1990 | ICMP is never short-circuited |
| `Conntrack.XdpTcpHasOrigin` | src/bpf/xdp_synproxy.bpf.c:345-365 | over every run a TCP entry has, since its last removal, an accepted SYN, an own SYN or a validated cookie behind it |
| `Conntrack.LifeIsSuffix` | src/bpf/tc_ingress.bpf.c:484-570 | a life is the part of the run after the last removal of the entry |
| `Conntrack.TcEntriesAreProven` | src/bpf/tc_ingress.bpf.c:484-570 | over every run flags and states of an entry prove what was seen in its current life |
| `Conntrack.ConfirmedIsSolicited` | src/bpf/tc_ingress.bpf.c:484-526 | a flow is CONFIRMED only after, in the current life of its entry, an egress packet of it or, for TCP, an accepted SYN and then an ACK |
| `Conntrack.ConfirmedUdpWasSent` | src/bpf/tc_ingress.bpf.c:484-526 | for anything but TCP the egress packet in the current life is necessary |
| `FlowHistory.TcpHistory` | src/bpf/xdp_firewall.bpf.c:1904-1990 | over every run the state of a TCP entry is what the openings, acknowledgements, RSTs and FINs since its making say, and its clock that of the last packet heard |
| `FlowHistory.TcpEntryIff` | src/bpf/xdp_firewall.bpf.c:2698-2719 | a TCP entry exists if and only if an accepted SYN, an own SYN or a validated cookie opened it and nothing removed it since |
| `FlowHistory.TcpFastPathIff` | src/bpf/xdp_firewall.bpf.c:1904-1990 | over every run a TCP packet is short-circuited if and only if its entry is there, it is no RST, the last RST or FIN of the flow was no RST unless this packet is a FIN, and the last packet heard is within the timeout the history calls for |
| `FlowHistory.FinReopensAfterReset` | src/bpf/xdp_firewall.bpf.c:1951-1955 | an own connection reset by the peer, a FIN, and then an ACK that is short-circuited |
| `FlowHistory.UdpFastPathSteps` | src/bpf/xdp_firewall.bpf.c:1916-1948 | a UDP packet is short-circuited if and only if the flow was opened by us and not removed, within the stream timeout if we sent again and the short one if not |
| `FlowHistory.TcEntryIff` | src/bpf/tc_ingress.bpf.c:484-570 | on the tc rung an entry of any protocol exists if and only if an opening step put it there and nothing removed it since |
| `FlowHistory.TcHistory` | src/bpf/tc_ingress.bpf.c:484-570 | over every run an entry is closed, known or waiting for an ACK exactly as its history since its making says |
| `FlowHistory.ConfirmedIff` | src/bpf/tc_ingress.bpf.c:484-526 | over every run, both directions: a packet misses exactly without an entry or after a RST, and is CONFIRMED exactly when the flow is solicited too or this ACK completes its handshake |
| `ScanFilter.MarkCovers` | src/bpf/common.h:1229-1250 | a port with an unset bit was not marked before; the count exceeds neither the marked ports nor the set bits |
| `ScanFilter.EstimateIsLow` | src/bpf/common.h:1229-1250 | the estimate is at most the distinct ports marked and at most 512 |
| `ScanFilter.Scan.constructor` | src/bpf/xdp_firewall.bpf.c:2568-2588 | the entry of a first probe |
| `ScanFilter.Scan.Mark` | src/bpf/common.h:1229-1250 | bits set and count raised exactly when a bit was new |
| `ScanFilter.Scan.Reset` | src/bpf/common.h:1252-1262 | the empty filter anchored now |
| `ScanFilter.Scan.Register` | src/bpf/ratelimit.h:300-328 | the whole new filter and the ban decision as functions of the old filter and the probe |
| `ScanFilter.Scan.Stage` | src/bpf/xdp_firewall.bpf.c:2554-2616 | the same for the scan stage |
| `ScanFilter.ScanIsBacked` | src/bpf/xdp_firewall.bpf.c:2554-2616 | over every run of probes the filter stands for the probes of its current window and no others |
| `ScanFilter.ScanBanHasEvidence` | src/bpf/xdp_firewall.bpf.c:2554-2616 | over every ordered run of probes a ban means that the probes of one window touched more than threshold distinct ports, and a threshold below 512 |
| `ScanFilter.RegisterBanHasEvidence` | src/bpf/ratelimit.h:300-328 | the same for the window helper, over every run from a zeroed record |
| `ScanExact.FilterIsOpenWindow` | src/bpf/xdp_firewall.bpf.c:2554-2616 | over every run the filter holds exactly the probes of the open window: their bits, and the number of them that set a new one |
| `ScanExact.ScanBansIff` | src/bpf/xdp_firewall.bpf.c:2554-2616 | over every run a probe bans if and only if more than threshold probes of its window set a bit that was not set |
| `ScanExact.WideScanIsBanned` | src/bpf/xdp_firewall.bpf.c:2601-2614 | no scan escapes whose ports set more than twice the threshold in bits within one window |
| `ScanExact.FreshWithinBits` | src/bpf/common.h:1229-1262 | the count lies between half the bits set and all of them |
| `ScanExact.RegisterBansIff` | src/bpf/ratelimit.h:300-328 | the helper bans on the same count, exactly when the probe changes the port |
| `StrikeWindow.Strikes.Register` | src/bpf/ratelimit.h:243-278 | the register changes its window and bans as the value functions say |
| `StrikeWindow.Strikes.Stage` | src/bpf/xdp_firewall.bpf.c:2495-2542 | the same for the rate stage |
| `StrikeWindow.StrikeBanHasEvidence` | src/bpf/xdp_firewall.bpf.c:2495-2542 | over every ordered run a ban means that the last strike_limit strikes all fell inside one window |
| `StrikeWindow.RegisterBanHasEvidence` | src/bpf/ratelimit.h:243-278 | the same for the register |
| `StrikeWindow.StageBansIff` | src/bpf/xdp_firewall.bpf.c:2495-2542 | over every run, an eligible strike bans if and only if the strikes since the opening of its window, read off the run, reach the limit |
| `StrikeWindow.SlidingPromiseIff` | src/bpf/xdp_firewall.bpf.c:2495-2542 | when the last strike_limit strikes lie within one window, the ban comes if and only if the window opened no later than the first of them |
| `StrikeWindow.BurstAfterSilenceBans` | src/bpf/xdp_firewall.bpf.c:2495-2542 | strike_limit strikes inside one window after a longer silence always ban, a first burst included |
| `StrikeWindow.StageDoesNotSlide` | src/bpf/xdp_firewall.bpf.c:2495-2542 | strikes that fill a sliding window without a ban by the stage |
| `StrikeWindow.RegisterBansIff` | src/bpf/ratelimit.h:243-278 | the register bans if and only if the strikes since the opening of its window reach the limit, or there is no limit or no window |
| `StrikeWindow.RegisterBurstBans` | src/bpf/ratelimit.h:243-278 | strike_limit strikes inside one window that come first or after a longer silence always ban |
| `StrikeWindow.AnchoredNotSliding` | src/bpf/ratelimit.h:231-278 | strikes that fill a sliding window without a ban by the register |
| `Chain.WalkTags` | src/bpf/xdp_firewall.bpf.c:894-937 | the VLAN loop stops at the first untagged type, the depth limit or the end of the frame |
| `Chain.Dataplane.constructor` | src/bpf/xdp_firewall.bpf.c:779-826 | zeroed counters balance |
| `Chain.Dataplane.Settle` | src/bpf/xdp_firewall.bpf.c:1017-1056 | the verdict block charges the total, one reason and exactly one of pass, drop and tx; monitoring turns a drop into a pass |
| `Chain.Dataplane.Enter` | src/bpf/xdp_firewall.bpf.c:779-1012 | the first program charges and returns the outcome of the whole chain |
| `Chain.Dataplane.Parse` | src/bpf/xdp_firewall.bpf.c:1195-1335 | the second program, likewise from its start on |
| `Chain.Dataplane.Policy` | src/bpf/xdp_firewall.bpf.c:1515-2078 | the third program, likewise; `DropLaw.DropsIff` and `DropLaw.PolicyReasonIsFirst` say on what grounds it drops and what it charges |
| `Chain.Dataplane.Action` | src/bpf/xdp_firewall.bpf.c:2188-2722 | the fourth program, likewise |
| `Chain.Dataplane.SynProxy` | src/bpf/xdp_synproxy.bpf.c:137-161 | the proxy's own accounting, which charges no specific reason once a cookie was asked for |
| `Chain.ChargesSay` | src/bpf/xdp_firewall.bpf.c:779-1192 | what the chain charges a packet: its length unless a later program finds no configuration or scratch entry, and a specific reason unless the proxy asked for a cookie, both exactly |
| `Chain.Dataplane.Serve` | src/bpf/xdp_firewall.bpf.c:779-1192 | the object serving any sequence of packets, with any tail call failing and anything missing: total = pass + drop + tx in packets and bytes, each aggregate grown by exactly its verdicts, the bytes by exactly the lengths charged, the reasons by one per packet that asked for no cookie |
| `Chain.AllowlistIsEscapeHatch` | src/bpf/xdp_firewall.bpf.c:1776-1800 | an allowlisted source is dropped only for an L2, parse or stage-2 reason and never answered by the proxy |
| `Chain.MgmtBypassIsEscapeHatch` | src/bpf/xdp_firewall.bpf.c:1801-1826 | the same for an untruncated management-port packet under the bypass |
| `Chain.MgmtKeepsTheDoorOpen` | src/bpf/xdp_firewall.bpf.c:1801-1890 | without the bypass it can further be dropped only for rates, scans and the SYN cap |
| `Chain.MonitorOnlyPasses` | src/bpf/xdp_firewall.bpf.c:1020-1027 | under global monitor mode no packet is dropped or transmitted |
| `Chain.ProxyOnFrame` | src/bpf/xdp_synproxy.bpf.c:764-842 | the chain's proxy stage has the verdict of the byte-level program on the frame it is called for, which leaves the frame alone unless it transmits |
| `Chain.TransmitsIff` | src/bpf/xdp_firewall.bpf.c:2619-2658 | a packet is transmitted if and only if every listed guard on configuration, packet, maps and tail calls holds and there is a cookie; the interface monitor flag is not among them |
| `DropLaw.DropsIff` | src/bpf/xdp_firewall.bpf.c:779-2722 | every packet is dropped if and only if the program it reaches has one of the listed grounds on configuration, packet and maps and does not only watch; watched, the same grounds make exactly the would-drops |
| `DropLaw.OutlawIsDropped` | src/bpf/xdp_firewall.bpf.c:1778-1893 | a block-listed or operator-banned source of any protocol is dropped exactly unless allow-listed, on a management port or vital ICMP, malformed or refused packets and later grounds aside |
| `DropLaw.PolicyReasonIsFirst` | src/bpf/xdp_firewall.bpf.c:1515-2078 | the policy program decides for the first of its reasons that is true, drops exactly on a ground, and goes on exactly when none is true |
| `DropLaw.ActionReasonIsFirst` | src/bpf/xdp_firewall.bpf.c:2270-2722 | the same for the action program short of the SYN proxy |
| `DropLaw.ChargedReasonIsFirst` | src/bpf/xdp_firewall.bpf.c:1515-2722 | over the whole chain a packet is charged the first reason that is true of it |
| `DropLaw.L2ReasonIff` | src/bpf/xdp_firewall.bpf.c:822-1012 | each reason of the first program is charged exactly for the frames it describes |
| `DropLaw.ProxyReasonIff` | src/bpf/xdp_synproxy.bpf.c:647-842 | each reason of the proxy program is charged exactly for the SYNs it describes, and none exactly for those that ask for a cookie |
| `Chain.MonitoredInterface` | src/bpf/xdp_synproxy.bpf.c:774-782 | on a monitored interface nothing is dropped, and nothing transmitted unless the proxy is on and able, the mode is UNDER_ATTACK, the port is proxied and the packet a plain SYN |
| `Chain.InterfaceMonitorStillTransmits` | src/bpf/xdp_synproxy.bpf.c:774-782 | a packet on a monitored interface that is answered |
| `Chain.MandatoryIcmpDropsIff` | src/bpf/xdp_firewall.bpf.c:1659-1735 | a mandatory ICMP message is dropped past the parse exactly for equal addresses, as a fragment or as oversized |
| `Chain.OwnReplySurvivesSoftBan` | src/bpf/xdp_firewall.bpf.c:1846-2018 | after any conntrack run, a UDP reply of a flow whose egress entry survives within its timeout is, short of an operator ban or block, dropped only for an early reason, whatever automatic ban, mode, port rule or bucket applies |
| `SlidingCounter.RecentIsTail` | watcher/calywatch.py:765-792 | in an ordered log the recent stamps are exactly the last ones |
| `SlidingCounter.Counter.Add` | watcher/calywatch.py:772-779 | the bounded deque answers the smaller of its bound and the true sliding-window weight |
| `SlidingCounter.Counter.Value` | watcher/calywatch.py:781-786 | the same for a query |
| `SlidingCounter.Tally.constructor` | watcher/calywatch.py:843-846 | a rule's empty counter, ready for any first match |
| `SlidingCounter.Tally.Handle` | watcher/calywatch.py:2836-2863 | after any earlier matches, a match no older than them fires exactly when the unbounded weight reaches the threshold and the cooldown is over |
| `SlidingCounter.Tally.Watch` | watcher/calywatch.py:2836-2863 | over any ordered sequence of matches each one fires exactly when it is due, given all matches and firings before it |

## Left out

- Attack classification and the rates themselves: a tick takes the rate vector and the class mask as arbitrary inputs, so every result holds for whatever they are.
- Per-reason rate tracks, side policy (amplifier ports, ICMP echo), the userspace auto-ban pass, alerts and heartbeats of the controller.
- The clamping of tunables at initialisation: the results hold for any tunables; a confirmation count of 0 acts as 1, and baseline bounds need the long time constant to be at most 2^63 ns, which is exact.
- Configuration parsing, key clamps and string tables: settled branch by branch.
- The L3/L4 parse inside the chain is an arbitrary outcome there; its extension-header walk is modelled on its own.
- Tunnel and GRE descent: the compiled depth is 0.
- Event sampling, top-talker statistics and gauges: they never change a verdict.
- Races between CPUs on shared buckets, and locking or re-entry in the event consumer: one sequential owner.
- The Tracker's eviction of watcher counters, the distinct-value counter, NetSet, log tailing and the watcher's backends.
- The order in which the log limiter of a flush is charged is folded into a budget of granted lines.
- Statistics counters, event counts and multiset counts are unbounded; the source's wrap at 2^64.
- SrcTable.SourceTable.Get: masking by the capacity is a remainder, which is the same for the power-of-two capacities the source allocates.
- ConfigSynth.Pusher.Push: a missing write operation and a failing one are one failure code.
- Chain.Dataplane.Serve: a later program that finds no configuration charges zero bytes, as the source does, so the byte total can be below the bytes received.
