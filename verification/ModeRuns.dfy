/**
 * Whole-run guarantees of the autotune controller: hysteresis of the mode
 * machine, and a baseline that an attack cannot walk up.
 */
module ModeRuns {
  import opened Words
  import opened Baselines
  import opened ModeMachine

  /** The state before event i of a run. */
  function At(t: Tuning, s: State, es: seq<Event>, i: nat): State
    requires i <= |es|
  {
    Run(t, s, es[..i])
  }

  lemma AtNext(t: Tuning, s: State, es: seq<Event>, i: nat)
    requires i < |es|
    ensures At(t, s, es, i + 1) == Next(t, At(t, s, es, i), es[i])
  {
    hide Next;
    assert es[..i + 1] == es[..i] + [es[i]];
    RunSnoc(t, s, es[..i], es[i]);
  }

  predicate Driving(l: Ladder) {
    !l.pinned && l.mode < MONITOR_ONLY
  }

  /** A decision that aims above the current mode. */
  predicate UpVote(t: Tuning, s: State, e: Event) {
    e.Decide? && Driving(s.ladder) && Wanted(t, s, e.now, e.sample.rates, e.sample.live) > s.ladder.mode
  }

  /** A decision that aims below the current mode, with every low mark undercut. */
  predicate DownVote(t: Tuning, s: State, e: Event) {
    && e.Decide? && Driving(s.ladder)
    && Wanted(t, s, e.now, e.sample.rates, e.sample.live) < s.ladder.mode
    && BelowLow(e.sample.live.lo, e.sample.rates)
  }

  /** The number of decisions among the events. */
  function Decisions(es: seq<Event>): nat {
    if es == [] then 0 else Decisions(es[..|es| - 1]) + (if es[|es| - 1].Decide? then 1 else 0)
  }

  lemma DecisionsSnoc(es: seq<Event>, e: Event)
    ensures Decisions(es + [e]) == Decisions(es) + (if e.Decide? then 1 else 0)
  {
    assert (es + [e])[..|es|] == es;
  }

  predicate Vote(up: bool, t: Tuning, s: State, e: Event) {
    if up then UpVote(t, s, e) else DownVote(t, s, e)
  }

  /** From j to i the mode stays put and every decision votes the same way. */
  predicate Streak(up: bool, t: Tuning, s: State, es: seq<Event>, j: nat, i: nat, mode: Mode)
    requires j <= i <= |es|
  {
    forall k :: j <= k < i ==>
      && (es[k].Restart? || Vote(up, t, At(t, s, es, k), es[k]))
      && At(t, s, es, k).ladder.mode == mode
  }

  predicate Fresh(l: Ladder) {
    l.up == 0 && l.down == 0
  }

  function AtLeastOne(n: u32): u32 {
    if n == 0 then 1 else n
  }

  /** Ladder counters that a run from fresh counters can show. */
  predicate Counting(t: Tuning, l: Ladder) {
    && (!Driving(l) ==> Fresh(l))
    && (l.up == 0 || l.down == 0)
    && l.up < AtLeastOne(t.confirmUp)
  }

  function Count(up: bool, l: Ladder): u32 {
    if up then l.up else l.down
  }

  /** A counter is positive only after a vote for it, or a clock restart that left it alone. */
  lemma StepCounts(up: bool, t: Tuning, s: State, e: Event)
    requires Counting(t, s.ladder)
    ensures Counting(t, Next(t, s, e).ladder)
    ensures Count(up, Next(t, s, e).ladder) > 0 ==>
              && Next(t, s, e).ladder.mode == s.ladder.mode
              && (e.Restart? || Vote(up, t, s, e))
              && Count(up, Next(t, s, e).ladder) <= Count(up, s.ladder) + (if e.Restart? then 0 else 1)
              && (up ==> Count(up, Next(t, s, e).ladder) == Count(up, s.ladder) + (if e.Restart? then 0 else 1))
  {
    hide SeverityOf, BelowLow, AbsHigh, DecidedTracks, Target, Warmed, Wrap64;
  }

  /** How a decision changes the mode. */
  lemma DecisionMoves(t: Tuning, s: State, now: u64, x: Sample)
    requires Counting(t, s.ladder)
    ensures var e := Decide(now, x);
            var l := s.ladder;
            var n := Next(t, s, e).ladder;
            && (n.mode > l.mode ==> UpVote(t, s, e) && n.mode == l.mode + 1 && l.up + 1 == AtLeastOne(t.confirmUp))
            && (n.mode < l.mode ==> DownVote(t, s, e) && n.mode + 1 == l.mode
                                    && l.down + 1 >= t.confirmDown && Dwelled(l, Dwell(t, x.live, l.mode), now))
            && (n.mode == l.mode ==> n.since == l.since)
            && (n.mode != l.mode ==> n.since == now)
  {
    hide SeverityOf, BelowLow, AbsHigh, DecidedTracks, Target, Warmed, Wrap64;
  }

  /** Each counter stands for a run of consecutive votes that ends at the present. */
  lemma {:induction false} CounterIsStreak(up: bool, t: Tuning, s: State, es: seq<Event>, i: nat) returns (j: nat)
    requires Fresh(s.ladder) && i <= |es|
    ensures Counting(t, At(t, s, es, i).ladder)
    ensures j <= i && Streak(up, t, s, es, j, i, At(t, s, es, i).ladder.mode)
    ensures Decisions(es[j..i]) >= Count(up, At(t, s, es, i).ladder)
    ensures up ==> Decisions(es[j..i]) == Count(up, At(t, s, es, i).ladder)
    decreases i
  {
    hide Next, Vote, Run, At, Count, Counting, Streak;
    if i == 0 {
      StartState(t, s, es);
      EmptyStreak(up, t, s, es, 0, s.ladder.mode);
      return 0;
    }
    j := CounterIsStreak(up, t, s, es, i - 1);
    var e := es[i - 1];
    AtNext(t, s, es, i - 1);
    StepCounts(up, t, At(t, s, es, i - 1), e);
    if Count(up, At(t, s, es, i).ladder) > 0 {
      assert es[j..i] == es[j..i - 1] + [e];
      DecisionsSnoc(es[j..i - 1], e);
      VoteIsDecision(up, t, At(t, s, es, i - 1), e);
      StreakGrows(up, t, s, es, j, i, At(t, s, es, i).ladder.mode);
    } else {
      j := i;
      assert es[i..i] == [];
      EmptyStreak(up, t, s, es, i, At(t, s, es, i).ladder.mode);
    }
  }

  lemma StreakGrows(up: bool, t: Tuning, s: State, es: seq<Event>, j: nat, i: nat, mode: Mode)
    requires j < i <= |es| && Streak(up, t, s, es, j, i - 1, mode)
    requires es[i - 1].Restart? || Vote(up, t, At(t, s, es, i - 1), es[i - 1])
    requires At(t, s, es, i - 1).ladder.mode == mode
    ensures Streak(up, t, s, es, j, i, mode)
  {
    hide At, Vote;
  }

  lemma EmptyStreak(up: bool, t: Tuning, s: State, es: seq<Event>, i: nat, mode: Mode)
    requires i <= |es|
    ensures Streak(up, t, s, es, i, i, mode)
  {
    hide At, Vote;
  }

  lemma StartState(t: Tuning, s: State, es: seq<Event>)
    ensures At(t, s, es, 0) == s
    ensures Fresh(s.ladder) ==> Counting(t, s.ladder) && Count(true, s.ladder) == 0 && Count(false, s.ladder) == 0
  {
    assert es[..0] == [];
  }

  lemma VoteIsDecision(up: bool, t: Tuning, s: State, e: Event)
    ensures Vote(up, t, s, e) ==> e.Decide?
  {
  }

  /** The events that stamp `since`: everything but a decision that keeps the mode. */
  predicate Marks(t: Tuning, s: State, e: Event) {
    !e.Decide? || Next(t, s, e).ladder.mode != s.ladder.mode
  }

  function Stamp(s: State, e: Event): u64 {
    if e.Rebase? then s.last else e.now
  }

  /** `since` is the stamp of the last marking event k, or untouched when there is none (k == i). */
  lemma {:induction false} SinceIsLastMark(t: Tuning, s: State, es: seq<Event>, i: nat) returns (k: nat)
    requires Fresh(s.ladder) && i <= |es|
    ensures k <= i
    ensures k == i ==> At(t, s, es, i).ladder.since == s.ladder.since
                       && forall h :: 0 <= h < i ==> !Marks(t, At(t, s, es, h), es[h])
    ensures k < i ==> Marks(t, At(t, s, es, k), es[k])
                      && At(t, s, es, i).ladder.since == Stamp(At(t, s, es, k), es[k])
                      && forall h :: k < h < i ==> !Marks(t, At(t, s, es, h), es[h])
    decreases i
  {
    hide Run, At, Next, Marks, Stamp, Streak, Decisions;
    if i == 0 {
      StartState(t, s, es);
      return 0;
    }
    var before := SinceIsLastMark(t, s, es, i - 1);
    var j := CounterIsStreak(true, t, s, es, i - 1);
    var p, e := At(t, s, es, i - 1), es[i - 1];
    AtNext(t, s, es, i - 1);
    SinceStep(t, p, e);
    if Marks(t, p, e) {
      k := i - 1;
    } else {
      k := if before == i - 1 then i else before;
    }
  }

  lemma SinceStep(t: Tuning, s: State, e: Event)
    requires Counting(t, s.ladder)
    ensures Next(t, s, e).ladder.since == if Marks(t, s, e) then Stamp(s, e) else s.ladder.since
  {
    hide DecidedLadder, DecidedTracks;
    if e.Decide? { DecisionMoves(t, s, e.now, e.sample); }
  }

  /**
   * Every automatic rise is one rung, never enters MONITOR_ONLY, reaches
   * LOCKDOWN only where that is allowed, and closes exactly confirmUp
   * consecutive decisions that all aimed above an unchanged mode.
   */
  lemma RiseIsConfirmed(t: Tuning, s: State, es: seq<Event>, i: nat) returns (j: nat)
    requires Fresh(s.ladder) && i < |es| && es[i].Decide?
    requires At(t, s, es, i + 1).ladder.mode > At(t, s, es, i).ladder.mode
    ensures At(t, s, es, i + 1).ladder.mode == At(t, s, es, i).ladder.mode + 1 <= LOCKDOWN
    ensures At(t, s, es, i + 1).ladder.mode == LOCKDOWN ==> t.allowLockdown
    ensures j <= i && Streak(true, t, s, es, j, i + 1, At(t, s, es, i).ladder.mode)
    ensures Decisions(es[j..i + 1]) == AtLeastOne(t.confirmUp)
  {
    hide Next, Run, At, Wanted;
    j := CounterIsStreak(true, t, s, es, i);
    AtNext(t, s, es, i);
    DecisionMoves(t, At(t, s, es, i), es[i].now, es[i].sample);
    assert es[j..i + 1] == es[j..i] + [es[i]];
    DecisionsSnoc(es[j..i], es[i]);
  }

  /**
   * Every automatic fall is one rung, closes at least confirmDown consecutive
   * quiet decisions that all aimed below an unchanged mode, and comes no sooner
   * than the dwell after the last mark k; k == i says that nothing marked since the start.
   */
  lemma FallIsConfirmed(t: Tuning, s: State, es: seq<Event>, i: nat) returns (j: nat, k: nat)
    requires Fresh(s.ladder) && i < |es| && es[i].Decide?
    requires At(t, s, es, i + 1).ladder.mode < At(t, s, es, i).ladder.mode
    ensures At(t, s, es, i + 1).ladder.mode + 1 == At(t, s, es, i).ladder.mode
    ensures j <= i && Streak(false, t, s, es, j, i + 1, At(t, s, es, i).ladder.mode)
    ensures Decisions(es[j..i + 1]) >= AtLeastOne(t.confirmDown)
    ensures k <= i && forall h :: k < h < i ==> !Marks(t, At(t, s, es, h), es[h])
    ensures k < i ==> Marks(t, At(t, s, es, k), es[k])
    ensures k == i ==> forall h :: 0 <= h < i ==> !Marks(t, At(t, s, es, h), es[h])
    ensures var stamp := if k < i then Stamp(At(t, s, es, k), es[k]) else s.ladder.since;
            stamp == 0 || Wrap64(es[i].now - stamp)
                          >= Dwell(t, es[i].sample.live, At(t, s, es, i).ladder.mode)
  {
    hide Next, Run, At, Wanted, Marks, Stamp, BelowLow;
    j := CounterIsStreak(false, t, s, es, i);
    k := SinceIsLastMark(t, s, es, i);
    AtNext(t, s, es, i);
    DecisionMoves(t, At(t, s, es, i), es[i].now, es[i].sample);
    assert es[j..i + 1] == es[j..i] + [es[i]];
    DecisionsSnoc(es[j..i], es[i]);
  }

  /** A decision that lets the long windows move. */
  predicate Learns(t: Tuning, s: State, e: Event) {
    e.Decide? && !Frozen(t, s, e.sample.rates)
  }

  /** One event and the baseline of one metric that has seen a sample. */
  lemma BaselineStep(t: Tuning, s: State, e: Event, m: nat)
    requires m < METRICS && s.tracks[m].samples > 0 && t.win.long <= HALF64
    ensures Next(t, s, e).tracks[m].samples > 0
    ensures !Learns(t, s, e) ==> Next(t, s, e).tracks[m].long == s.tracks[m].long
    ensures Learns(t, s, e) ==>
              && !Fighting(s.ladder.mode)
              && (forall n :: 0 <= n < METRICS ==> !Over(t.rules[n], s.tracks[n].long, e.sample.rates[n]))
              && Next(t, s, e).tracks[m].long
                 == EwmaStep(s.tracks[m].long, e.sample.rates[m], Wrap64(e.now - s.last), t.win.long)
              && Between(s.tracks[m].long, e.sample.rates[m], Next(t, s, e).tracks[m].long)
    ensures Learns(t, s, e) && t.rules[m].mult != 0 && t.rules[m].floor != 0 ==>
              Next(t, s, e).tracks[m].long <= Max(s.tracks[m].long, Threshold(s.tracks[m].long, t.rules[m]))
  {
    hide DecidedLadder, EwmaStep, Over, Wrap64, Threshold;
    if e.Decide? {
      var v := e.sample.rates;
      assert Decided(t, s, e.now, e.sample).tracks[m] == DecidedTrack(t, s, e.now, v, m);
      if Learns(t, s, e) {
        QuietMetrics(t, s, v);
        EwmaLandsBetween(s.tracks[m].long, v[m], Wrap64(e.now - s.last), t.win.long);
        NotOver(t.rules[m], s.tracks[m].long, v[m]);
      }
    }
  }

  lemma QuietMetrics(t: Tuning, s: State, v: Rates)
    requires !Frozen(t, s, v)
    ensures forall n :: 0 <= n < METRICS ==> !Over(t.rules[n], s.tracks[n].long, v[n])
  {
    hide Over;
    forall n | 0 <= n < METRICS
      ensures !Over(t.rules[n], s.tracks[n].long, v[n])
    {
      assert n !in Anomalies(t.rules, s.tracks, v, METRICS);
    }
  }

  lemma NotOver(rule: Rule, long: u64, v: u64)
    requires !Over(rule, long, v)
    ensures rule.mult != 0 && rule.floor != 0 ==> v <= Threshold(long, rule)
  {
    hide MulDiv;
  }

  /** The samples of metric m that a run learned from, each with its interval. */
  function Lessons(t: Tuning, s: State, es: seq<Event>, m: nat): seq<(u64, u64)>
    requires m < METRICS
  {
    if es == [] then []
    else
      var n := |es| - 1;
      var p := Run(t, s, es[..n]);
      Lessons(t, s, es[..n], m)
      + (if Learns(t, p, es[n]) then [(es[n].sample.rates[m], Wrap64(es[n].now - p.last))] else [])
  }

  /** The EWMA of a sequence of lessons. */
  function Taught(long: u64, lessons: seq<(u64, u64)>, tau: u64): u64 {
    if lessons == [] then long
    else
      var n := |lessons| - 1;
      EwmaStep(Taught(long, lessons[..n], tau), lessons[n].0, lessons[n].1, tau)
  }

  lemma TaughtSnoc(long: u64, lessons: seq<(u64, u64)>, x: (u64, u64), tau: u64)
    ensures Taught(long, lessons + [x], tau) == EwmaStep(Taught(long, lessons, tau), x.0, x.1, tau)
  {
    hide EwmaStep;
    assert (lessons + [x])[..|lessons|] == lessons;
  }

  /** Over any run the baseline is the EWMA of the learned samples alone. */
  lemma {:induction false} BaselineIsTaught(t: Tuning, s: State, es: seq<Event>, m: nat)
    requires m < METRICS && s.tracks[m].samples > 0 && t.win.long <= HALF64
    ensures Run(t, s, es).tracks[m].samples > 0
    ensures Run(t, s, es).tracks[m].long == Taught(s.tracks[m].long, Lessons(t, s, es, m), t.win.long)
  {
    hide Next, EwmaStep, Learns, Between, Threshold, Taught;
    if es == [] {
      NothingTaught(s.tracks[m].long, t.win.long);
    } else {
      var n := |es| - 1;
      BaselineIsTaught(t, s, es[..n], m);
      var p := Run(t, s, es[..n]);
      BaselineStep(t, p, es[n], m);
      if Learns(t, p, es[n]) {
        LearnsDecides(t, p, es[n]);
        TaughtSnoc(s.tracks[m].long, Lessons(t, s, es[..n], m),
                   (es[n].sample.rates[m], Wrap64(es[n].now - p.last)), t.win.long);
      } else {
        assert Lessons(t, s, es, m) == Lessons(t, s, es[..n], m);
      }
    }
  }

  lemma NothingTaught(long: u64, tau: u64)
    ensures Taught(long, [], tau) == long
  {
  }

  lemma LearnsDecides(t: Tuning, s: State, e: Event)
    requires Learns(t, s, e)
    ensures e.Decide?
  {
  }

  /** The baseline never leaves the range of its start and the samples it learned from. */
  lemma {:induction false} TaughtStaysBelow(long: u64, lessons: seq<(u64, u64)>, tau: u64, bound: u64)
    requires tau <= HALF64 && long <= bound
    requires forall k :: 0 <= k < |lessons| ==> lessons[k].0 <= bound
    ensures Taught(long, lessons, tau) <= bound
  {
    hide EwmaStep;
    if lessons != [] {
      var n := |lessons| - 1;
      TaughtStaysBelow(long, lessons[..n], tau, bound);
      EwmaLandsBetween(Taught(long, lessons[..n], tau), lessons[n].0, lessons[n].1, tau);
    }
  }

  /** A stay in ELEVATED..LOCKDOWN, or under anomalies, teaches nothing: the baseline is constant. */
  lemma {:induction false} BaselineHoldsUnderAttack(t: Tuning, s: State, es: seq<Event>, m: nat)
    requires m < METRICS && s.tracks[m].samples > 0 && t.win.long <= HALF64
    requires forall i :: 0 <= i < |es| && es[i].Decide? ==>
               Fighting(At(t, s, es, i).ladder.mode)
               || Anomalies(t.rules, At(t, s, es, i).tracks, es[i].sample.rates, METRICS) != {}
    ensures Run(t, s, es).tracks[m].samples > 0
    ensures Run(t, s, es).tracks[m].long == s.tracks[m].long
  {
    hide Next, EwmaStep, Between, Threshold, Over, Anomalies;
    if es != [] {
      var n := |es| - 1;
      forall i | 0 <= i < n
        ensures At(t, s, es[..n], i) == At(t, s, es, i)
      {
        assert es[..n][..i] == es[..i];
      }
      BaselineHoldsUnderAttack(t, s, es[..n], m);
      assert Run(t, s, es[..n]) == At(t, s, es, n);
      BaselineStep(t, At(t, s, es, n), es[n], m);
    }
  }

  /** Event h is the last mark before i. */
  predicate LastMark(t: Tuning, s: State, es: seq<Event>, i: nat, h: nat)
    requires h < i < |es|
  {
    Marks(t, At(t, s, es, h), es[h]) && forall g :: h < g < i ==> !Marks(t, At(t, s, es, g), es[g])
  }

  /** No mark before i is stamped later than a following one or than the decision at i, and the last one is stamped. */
  predicate Stamped(t: Tuning, s: State, es: seq<Event>, i: nat)
    requires i < |es| && es[i].Decide?
  {
    && (forall h :: 0 <= h < i && Marks(t, At(t, s, es, h), es[h]) ==> Stamp(At(t, s, es, h), es[h]) <= es[i].now)
    && (forall h :: 0 <= h < i && LastMark(t, s, es, i, h) ==> 0 < Stamp(At(t, s, es, h), es[h]))
    && (forall g, h :: 0 <= g < h < i && Marks(t, At(t, s, es, g), es[g]) && Marks(t, At(t, s, es, h), es[h]) ==>
          Stamp(At(t, s, es, g), es[g]) <= Stamp(At(t, s, es, h), es[h]))
  }

  /** The first tick that logs anything begins with an adoption or a restart, never with a decision. */
  lemma FirstTickMarks(t: Tuning, live: Live, now: u64, x: Sample)
    ensures TickLog(t, Initial(live), now, x) != [] ==> !TickLog(t, Initial(live), now, x)[0].Decide?
    ensures !Refused(x.live) ==> TickLog(t, Initial(live), now, x) != []
    ensures Fresh(Initial(live).ladder)
  {
    hide DecidedLadder, DecidedTracks;
  }

  /**
   * So no run of ticks begins with a decision.  In such a run, under an ordered
   * clock, a fall comes at least the dwell after every restart, override and
   * mode change before it, and there is one.
   */
  lemma FallWaitsOutTheDwell(t: Tuning, s: State, es: seq<Event>, i: nat)
    requires Fresh(s.ladder) && i < |es| && es[i].Decide? && !es[0].Decide?
    requires Stamped(t, s, es, i)
    requires At(t, s, es, i + 1).ladder.mode < At(t, s, es, i).ladder.mode
    ensures 0 < i && Marks(t, At(t, s, es, 0), es[0])
    ensures forall h :: 0 <= h < i && Marks(t, At(t, s, es, h), es[h]) ==>
              es[i].now - Stamp(At(t, s, es, h), es[h]) >= Dwell(t, es[i].sample.live, At(t, s, es, i).ladder.mode)
  {
    hide Next, Run, At, Stamp, Streak, Decisions, Dwell;
    var j, k := FallIsConfirmed(t, s, es, i);
    assert Marks(t, At(t, s, es, 0), es[0]);
    assert LastMark(t, s, es, i, k);
    forall h | 0 <= h < i && Marks(t, At(t, s, es, h), es[h])
      ensures Stamp(At(t, s, es, h), es[h]) <= Stamp(At(t, s, es, k), es[k])
    {
      assert h <= k;
    }
  }

  /**
   * After a decision whose push failed, the next decision tries again exactly
   * when mode or classes have moved since, or nothing was ever applied: not
   * because the push is still owed.
   */
  lemma FailedPushIsNotRetried(t: Tuning, s: State, e: Event, f: Event)
    requires e.Decide? && f.Decide?
    requires Pushes(s, Next(t, s, e).ladder, e.sample.classes) && !e.sample.writable
    ensures var p := Next(t, s, e);
            var q := Next(t, p, f);
            && p.applied == s.applied
            && (Pushes(p, q.ladder, f.sample.classes) <==>
                  && !q.ladder.pinned
                  && (s.applied.None? || q.ladder.mode != p.ladder.mode || f.sample.classes != e.sample.classes))
  {
    hide DecidedLadder, DecidedTracks;
  }

  /** The pin is no decision's to move. */
  lemma DecisionKeepsPin(t: Tuning, s: State, f: Event)
    requires f.Decide?
    ensures Next(t, s, f).ladder.pinned == s.ladder.pinned
  {
    hide DecidedTracks, Wanted, BelowLow, Dwelled;
  }

  /**
   * A failed override is made up: unless it pinned an operator mode, a decision
   * that keeps it tries again exactly when it differs from what was last tried.
   */
  lemma FailedOverrideIsMadeUp(t: Tuning, s: State, mode: Mode, now: u64, f: Event)
    requires f.Decide?
    ensures var p := Next(t, s, Force(mode, now, false));
            var q := Next(t, p, f);
            && p.applied == s.applied
            && (q.ladder.mode == mode ==>
                  (Pushes(p, q.ladder, f.sample.classes) <==>
                     && !OperatorMode(mode)
                     && (s.applied.None? || mode != s.triedMode || f.sample.classes != s.triedClass)))
  {
    hide DecidedLadder, DecidedTracks;
    DecisionKeepsPin(t, Next(t, s, Force(mode, now, false)), f);
  }

  /** A failed reload is made up by the next decision, whatever it decides, unless it pinned an operator mode. */
  lemma FailedReloadIsMadeUp(t: Tuning, s: State, base: nat, f: Event)
    requires f.Decide?
    ensures var p := Next(t, s, Rebase(base, false));
            Pushes(p, Next(t, p, f).ladder, f.sample.classes) <==> !OperatorMode(base)
  {
    hide DecidedLadder, DecidedTracks;
    DecisionKeepsPin(t, Next(t, s, Rebase(base, false)), f);
  }

  /** A state whose last try was its own mode and these classes. */
  predicate Tried(s: State, mode: Mode, classes: u32) {
    s.applied.Some? && s.triedMode == mode && s.triedClass == classes
  }

  /** Decisions that leave the mode and the classes as they are. */
  predicate Steady(t: Tuning, s: State, es: seq<Event>, mode: Mode, classes: u32) {
    forall i :: 0 <= i < |es| ==>
      es[i].Decide? && es[i].sample.classes == classes && At(t, s, es, i + 1).ladder.mode == mode
  }

  /** Over any number of such decisions nothing is tried, so a failed push stays owed. */
  lemma {:induction false} OwedPushStaysOwed(t: Tuning, s: State, es: seq<Event>, mode: Mode, classes: u32)
    requires Tried(s, mode, classes) && Steady(t, s, es, mode, classes)
    ensures Tried(Run(t, s, es), mode, classes) && Run(t, s, es).applied == s.applied
    ensures forall i :: 0 <= i < |es| ==> !Pushes(At(t, s, es, i), At(t, s, es, i + 1).ladder, classes)
  {
    hide Next, Pushes;
    if es != [] {
      var n := |es| - 1;
      forall i | 0 <= i <= n
        ensures At(t, s, es[..n], i) == At(t, s, es, i)
      {
        assert es[..n][..i] == es[..i];
      }
      OwedPushStaysOwed(t, s, es[..n], mode, classes);
      AtNext(t, s, es, n);
      assert es[..n + 1] == es;
      SteadyStep(t, At(t, s, es, n), es[n], mode, classes);
    }
  }

  lemma SteadyStep(t: Tuning, s: State, e: Event, mode: Mode, classes: u32)
    requires Tried(s, mode, classes) && e.Decide? && e.sample.classes == classes && Next(t, s, e).ladder.mode == mode
    ensures !Pushes(s, Next(t, s, e).ladder, classes)
    ensures Tried(Next(t, s, e), mode, classes) && Next(t, s, e).applied == s.applied
  {
    hide DecidedLadder, DecidedTracks;
  }

  /**
   * Three ticks of a freshly started controller, one tick interval apart: the
   * clock starts, an unwritable decision asserts a class, a writable one repeats
   * it and tries nothing.
   */
  lemma OwedPushExample(t: Tuning) returns (live: Live, x: Sample, y: Sample)
    requires 1 + 2 * t.minTick < U64
    ensures x.classes == y.classes && !x.writable && y.writable
    ensures TickLog(t, Initial(live), 1, x) == [Restart(1)]
    ensures var s := Run(t, Initial(live), [Restart(1)]);
            var e := Decide(1 + t.minTick, x);
            var p := Run(t, s, [e]);
            var f := Decide(1 + 2 * t.minTick, y);
            && TickLog(t, s, 1 + t.minTick, x) == [e] && Pushes(s, p.ladder, x.classes)
            && TickLog(t, p, 1 + 2 * t.minTick, y) == [f] && !Pushes(p, Run(t, p, [f]).ladder, y.classes)
  {
    hide DecidedTracks, SeverityOf, Run;
    var none := seq(MARKS, _ => 0);
    live := Live(0, NORMAL, none, none, 0);
    x := Sample(seq(METRICS, _ => 0), live, 1, false);
    y := x.(writable := true);
    var e, f := Decide(1 + t.minTick, x), Decide(1 + 2 * t.minTick, y);
    RunOne(t, Initial(live), Restart(1));
    var s := Run(t, Initial(live), [Restart(1)]);
    RunOne(t, s, e);
    RunOne(t, Run(t, s, [e]), f);
  }
}
