/**
 * The mode machine exactly: when the mode rises and falls over whole runs, what
 * a decision aims at, who pins it, what its clock says, and what the baselines
 * learn.  Statements are in votes, marks and stamps of the run.
 */
module ModeExact {
  import opened Words
  import opened Baselines
  import opened ModeMachine
  import opened ModeRuns

  // ------------------------------------------------------------------------
  // Rises and falls
  // ------------------------------------------------------------------------

  /** A vote that does not move the mode counts. */
  lemma VoteCounts(up: bool, t: Tuning, s: State, e: Event)
    requires Counting(t, s.ladder) && (e.Restart? || Vote(up, t, s, e))
    requires Next(t, s, e).ladder.mode == s.ladder.mode
    ensures Count(up, Next(t, s, e).ladder)
            == if e.Restart? then Count(up, s.ladder) else Bump(Count(up, s.ladder))
  {
    hide SeverityOf, BelowLow, AbsHigh, DecidedTracks, Target, Warmed, Wrap64;
  }

  /** A streak of votes is counted in full, up to the width of the counter. */
  lemma {:induction false} StreakIsCounted(up: bool, t: Tuning, s: State, es: seq<Event>, j: nat, i: nat)
    requires Fresh(s.ladder) && j <= i <= |es|
    requires Streak(up, t, s, es, j, i, At(t, s, es, i).ladder.mode)
    ensures Count(up, At(t, s, es, i).ladder) >= Min(Decisions(es[j..i]), U32 - 1)
    decreases i
  {
    hide Next, Vote, Run, At, Count, Counting;
    if i == j {
      assert es[j..i] == [];
    } else {
      var e := es[i - 1];
      StreakIsCounted(up, t, s, es, j, i - 1);
      AtNext(t, s, es, i - 1);
      var k := CounterIsStreak(up, t, s, es, i - 1);
      VoteCounts(up, t, At(t, s, es, i - 1), e);
      assert es[j..i] == es[j..i - 1] + [e];
      DecisionsSnoc(es[j..i - 1], e);
    }
  }

  /** One decision, as an if-and-only-if. */
  lemma DecisionIff(t: Tuning, s: State, e: Event)
    requires e.Decide?
    ensures var l := s.ladder;
            var n := Next(t, s, e).ladder;
            && (n.mode == l.mode + 1 <==> UpVote(t, s, e) && Bump(l.up) >= t.confirmUp)
            && (n.mode + 1 == l.mode <==>
                  DownVote(t, s, e) && Bump(l.down) >= t.confirmDown && Dwelled(l, Dwell(t, e.sample.live, l.mode), e.now))
  {
    hide SeverityOf, BelowLow, AbsHigh, DecidedTracks, Target, Warmed, Wrap64;
  }

  /** From j to decision i all decisions, `need` of them at least, vote the same way under the present mode. */
  ghost predicate VotedFrom(up: bool, t: Tuning, s: State, es: seq<Event>, j: nat, i: nat, need: nat) {
    && j <= i < |es| && Streak(up, t, s, es, j, i + 1, At(t, s, es, i).ladder.mode)
    && Decisions(es[j..i + 1]) >= need
  }

  ghost predicate Voted(up: bool, t: Tuning, s: State, es: seq<Event>, i: nat, need: nat) {
    exists j :: 0 <= j <= i && VotedFrom(up, t, s, es, j, i, need)
  }

  /** Enough votes fill the counter and end in a vote. */
  lemma VotesFill(up: bool, t: Tuning, s: State, es: seq<Event>, i: nat, confirm: u32)
    requires Fresh(s.ladder) && i < |es| && es[i].Decide? && Voted(up, t, s, es, i, AtLeastOne(confirm))
    ensures Vote(up, t, At(t, s, es, i), es[i]) && Bump(Count(up, At(t, s, es, i).ladder)) >= confirm
  {
    hide Run, At, Vote, Count;
    var j :| 0 <= j <= i && VotedFrom(up, t, s, es, j, i, AtLeastOne(confirm));
    LastVote(up, t, s, es, j, i);
    StreakIsCounted(up, t, s, es, j, i);
  }

  /** The mode rises, by exactly one rung, exactly on the decision that completes confirm_up consecutive votes for it. */
  lemma RisesIff(t: Tuning, s: State, es: seq<Event>, i: nat)
    requires Fresh(s.ladder) && i < |es| && es[i].Decide?
    ensures At(t, s, es, i + 1).ladder.mode == At(t, s, es, i).ladder.mode + 1
            <==> Voted(true, t, s, es, i, AtLeastOne(t.confirmUp))
  {
    hide Next, Run, At, UpVote, DownVote, Streak, Decisions;
    AtNext(t, s, es, i);
    DecisionIff(t, At(t, s, es, i), es[i]);
    if At(t, s, es, i + 1).ladder.mode == At(t, s, es, i).ladder.mode + 1 {
      var j := RiseIsConfirmed(t, s, es, i);
      assert VotedFrom(true, t, s, es, j, i, AtLeastOne(t.confirmUp));
    } else if Voted(true, t, s, es, i, AtLeastOne(t.confirmUp)) {
      VotesFill(true, t, s, es, i, t.confirmUp);
    }
  }

  /** The last step of a streak is a vote, and the rest is a streak of one decision less. */
  lemma LastVote(up: bool, t: Tuning, s: State, es: seq<Event>, j: nat, i: nat)
    requires j <= i < |es| && es[i].Decide? && Streak(up, t, s, es, j, i + 1, At(t, s, es, i).ladder.mode)
    ensures Vote(up, t, At(t, s, es, i), es[i])
    ensures Streak(up, t, s, es, j, i, At(t, s, es, i).ladder.mode)
    ensures Decisions(es[j..i + 1]) == Decisions(es[j..i]) + 1
  {
    hide At, Vote;
    assert es[j..i + 1] == es[j..i] + [es[i]];
    DecisionsSnoc(es[j..i], es[i]);
  }

  /** The time stamped by the last restart, override or mode change before i; the start's own when there is none. */
  ghost function LastStamp(t: Tuning, s: State, es: seq<Event>, i: nat): u64
    requires i <= |es|
  {
    if i == 0 then s.ladder.since
    else if Marks(t, At(t, s, es, i - 1), es[i - 1]) then Stamp(At(t, s, es, i - 1), es[i - 1])
    else LastStamp(t, s, es, i - 1)
  }

  lemma {:induction false} SinceIsLastStamp(t: Tuning, s: State, es: seq<Event>, i: nat)
    requires Fresh(s.ladder) && i <= |es|
    ensures At(t, s, es, i).ladder.since == LastStamp(t, s, es, i)
  {
    hide Next, Run, At, Marks, Stamp, Counting;
    if i == 0 {
      StartState(t, s, es);
    } else {
      SinceIsLastStamp(t, s, es, i - 1);
      AtNext(t, s, es, i - 1);
      var k := CounterIsStreak(true, t, s, es, i - 1);
      SinceStep(t, At(t, s, es, i - 1), es[i - 1]);
    }
  }

  /** The dwell before a fall from this mode has passed, counted from the last mark. */
  ghost predicate DwellOver(t: Tuning, s: State, es: seq<Event>, i: nat)
    requires i < |es| && es[i].Decide?
  {
    var extra: int := if At(t, s, es, i).ladder.mode == LOCKDOWN then t.extraDwell else 0;
    var stamp := LastStamp(t, s, es, i);
    stamp == 0 || (es[i].now - stamp) % U64 >= (es[i].sample.live.dwell + extra) % U64
  }

  lemma DwellOverIff(t: Tuning, s: State, es: seq<Event>, i: nat)
    requires Fresh(s.ladder) && i < |es| && es[i].Decide?
    ensures var l := At(t, s, es, i).ladder;
            DwellOver(t, s, es, i) <==> Dwelled(l, Dwell(t, es[i].sample.live, l.mode), es[i].now)
  {
    hide At, LastStamp;
    SinceIsLastStamp(t, s, es, i);
  }

  /** The mode falls, by exactly one rung, exactly on a decision that ends confirm_down consecutive quiet votes after the dwell. */
  lemma FallsIff(t: Tuning, s: State, es: seq<Event>, i: nat)
    requires Fresh(s.ladder) && i < |es| && es[i].Decide?
    ensures At(t, s, es, i + 1).ladder.mode + 1 == At(t, s, es, i).ladder.mode
            <==> Voted(false, t, s, es, i, AtLeastOne(t.confirmDown)) && DwellOver(t, s, es, i)
  {
    hide Next, Run, At, UpVote, DownVote, Streak, Decisions, DwellOver, Dwelled, Dwell, Marks, Stamp;
    AtNext(t, s, es, i);
    DwellOverIff(t, s, es, i);
    DecisionIff(t, At(t, s, es, i), es[i]);
    if At(t, s, es, i + 1).ladder.mode + 1 == At(t, s, es, i).ladder.mode {
      var j, k := FallIsConfirmed(t, s, es, i);
      assert VotedFrom(false, t, s, es, j, i, AtLeastOne(t.confirmDown));
    } else if Voted(false, t, s, es, i, AtLeastOne(t.confirmDown)) {
      VotesFill(false, t, s, es, i, t.confirmDown);
    }
  }

  /** A decision moves the mode by one rung or not at all. */
  lemma OneRungAtMost(t: Tuning, s: State, es: seq<Event>, i: nat)
    requires Fresh(s.ladder) && i < |es| && es[i].Decide?
    ensures var a, b := At(t, s, es, i).ladder.mode, At(t, s, es, i + 1).ladder.mode;
            b == a || b == a + 1 || b + 1 == a
  {
    hide Next, Run, At, Counting, UpVote, DownVote;
    AtNext(t, s, es, i);
    var k := CounterIsStreak(true, t, s, es, i);
    DecisionMoves(t, At(t, s, es, i), es[i].now, es[i].sample);
  }

  // ------------------------------------------------------------------------
  // What a decision aims at
  // ------------------------------------------------------------------------

  /** The baselines have had eight samples and the warm-up time. */
  predicate WarmedUp(t: Tuning, s: State, now: u64) {
    (s.samples + 1) % U64 >= 8 && s.first != 0 && (now - s.first) % U64 >= t.warmup
  }

  /** A decision aims at a rung or higher exactly for a severity that warmed baselines may act on, or an absolute mark. */
  lemma WantedIff(t: Tuning, s: State, now: u64, v: Rates, live: Live)
    ensures var w := Wanted(t, s, now, v, live);
            var severity := SeverityOf(t.rules, s.tracks, v, live.hi, t.sevAttack);
            var warm := WarmedUp(t, s, now);
            && w <= LOCKDOWN
            && (w == LOCKDOWN <==> t.allowLockdown && warm && severity >= t.sevLockdown)
            && (w >= UNDER_ATTACK <==>
                  AbsHigh(live.hi, v) || (warm && (severity >= t.sevLockdown || severity >= t.sevAttack)))
            && (w >= ELEVATED <==>
                  || AbsHigh(live.hi, v)
                  || (warm && (severity >= t.sevLockdown || severity >= t.sevAttack || severity >= t.sevElevate)))
  {
    hide SeverityOf, AbsHigh;
  }

  lemma ClockStep(t: Tuning, s: State, e: Event)
    ensures var n := Next(t, s, e);
            && n.samples == (s.samples + (if e.Decide? then 1 else 0)) % U64
            && n.first == (if e.Restart? then e.now else s.first)
            && n.last == (if e.Restart? || e.Decide? then e.now else s.last)
  {
    hide DecidedLadder, DecidedTracks;
  }

  /** Over every run the sample count is the number of decisions, and first and last are the clock of the run. */
  lemma {:induction false} RunClock(t: Tuning, s: State, es: seq<Event>) returns (r: nat, l: nat)
    ensures Run(t, s, es).samples == (s.samples + Decisions(es)) % U64
    ensures r <= |es| && (forall i :: r < i < |es| ==> !es[i].Restart?)
    ensures if r < |es| then es[r].Restart? && Run(t, s, es).first == es[r].now
            else (forall i :: 0 <= i < |es| ==> !es[i].Restart?) && Run(t, s, es).first == s.first
    ensures l <= |es| && (forall i :: l < i < |es| ==> !es[i].Restart? && !es[i].Decide?)
    ensures if l < |es| then (es[l].Restart? || es[l].Decide?) && Run(t, s, es).last == es[l].now
            else (forall i :: 0 <= i < |es| ==> !es[i].Restart? && !es[i].Decide?) && Run(t, s, es).last == s.last
  {
    hide Next;
    if es == [] {
      r, l := 0, 0;
    } else {
      var n := |es| - 1;
      var r', l' := RunClock(t, s, es[..n]);
      ClockStep(t, Run(t, s, es[..n]), es[n]);
      r := if es[n].Restart? then n else if r' == n then |es| else r';
      l := if es[n].Restart? || es[n].Decide? then n else if l' == n then |es| else l';
      SampleCount(s.samples, Decisions(es[..n]));
    }
  }

  lemma SampleCount(a: nat, b: nat)
    ensures ((a + b) % U64 + 1) % U64 == (a + b + 1) % U64
  {
  }

  // ------------------------------------------------------------------------
  // The operator's hand
  // ------------------------------------------------------------------------

  predicate Operator(e: Event) {
    e.Adopt? || e.Force? || e.Unpin? || e.Rebase?
  }

  /** The mode an event pins. */
  predicate Pins(e: Event, mode: nat) {
    && (e.Adopt? || e.Force? || e.Rebase?)
    && mode == (if e.Rebase? then e.base else e.mode) && (mode == LOCKDOWN || mode == MONITOR_ONLY)
  }

  lemma OperatorActs(t: Tuning, s: State, e: Event)
    requires Operator(e)
    ensures var n := Next(t, s, e).ladder;
            && Fresh(n) && (n.pinned <==> exists m :: Pins(e, m))
            && n.mode == (if e.Unpin? then (if s.ladder.mode == MONITOR_ONLY then NORMAL else s.ladder.mode)
                          else if e.Rebase? then (if e.base <= MONITOR_ONLY then e.base else s.ladder.mode)
                          else e.mode)
  {
    hide Decided;
    if e.Adopt? || e.Force? { assert Pins(e, e.mode) <==> OperatorMode(e.mode); }
    if e.Rebase? { assert Pins(e, e.base) <==> OperatorMode(e.base); }
  }

  /** Over every run the controller is pinned exactly when the last operator event named an operator mode. */
  lemma {:induction false} PinnedIff(t: Tuning, s: State, es: seq<Event>) returns (i: nat)
    ensures i <= |es| && (forall k :: i < k < |es| ==> !Operator(es[k]))
    ensures if i < |es| then Operator(es[i]) && (Run(t, s, es).ladder.pinned <==> exists m :: Pins(es[i], m))
            else (forall k :: 0 <= k < |es| ==> !Operator(es[k])) && Run(t, s, es).ladder.pinned == s.ladder.pinned
  {
    hide Decided, Pins;
    if es == [] {
      i := 0;
    } else {
      var n := |es| - 1;
      i := PinnedIff(t, s, es[..n]);
      var p := Run(t, s, es[..n]);
      if Operator(es[n]) {
        OperatorActs(t, p, es[n]);
        i := n;
      } else {
        if es[n].Decide? { DecisionKeepsPin(t, p, es[n]); }
        i := if i == n then |es| else i;
      }
    }
  }

  /** A tick after a decision takes the live mode for someone else's exactly when it is not what the decision left applied. */
  lemma AdoptsIff(t: Tuning, s: State, e: Event, now: u64, live: Live)
    requires e.Decide? && s.applied.Some?
    ensures var p := Next(t, s, e);
            var ours := if Pushes(s, p.ladder, e.sample.classes) && e.sample.writable then p.ladder.mode else s.applied.value;
            Adoption(p, now, live) == if live.mode != ours && live.mode <= MONITOR_ONLY then [Adopt(live.mode, now)] else []
  {
    hide DecidedLadder, DecidedTracks;
  }

  /** What one tick may log, exactly. */
  lemma TickLogIff(t: Tuning, s: State, now: u64, x: Sample)
    ensures var log := TickLog(t, s, now, x);
            var ours := x.live.abi == 0 || x.live.abi / U16 == ABI_MAJOR;
            && (Decide(now, x) in log <==> ours && s.last != 0 && s.last <= now && now - s.last >= t.minTick)
            && (Restart(now) in log <==> ours && (s.last == 0 || now < s.last))
            && (forall e :: e in log ==> e == Decide(now, x) || e == Restart(now) || e == Adopt(x.live.mode, now))
            && |log| <= 2
  {
    hide Decided;
  }

  // ------------------------------------------------------------------------
  // What is learned
  // ------------------------------------------------------------------------

  /** A decision teaches the long windows exactly outside ELEVATED..LOCKDOWN and without an anomaly. */
  lemma LearnsIff(t: Tuning, s: State, e: Event)
    ensures Learns(t, s, e) <==>
              && e.Decide? && !(ELEVATED <= s.ladder.mode <= LOCKDOWN)
              && forall m :: 0 <= m < METRICS ==> !Over(t.rules[m], s.tracks[m].long, e.sample.rates[m])
  {
    hide Over;
    if e.Decide? {
      var a := Anomalies(t.rules, s.tracks, e.sample.rates, METRICS);
      if a == {} {
        forall m | 0 <= m < METRICS
          ensures !Over(t.rules[m], s.tracks[m].long, e.sample.rates[m])
        {
          assert m !in a;
        }
      } else {
        var m :| m in a;
        assert Over(t.rules[m], s.tracks[m].long, e.sample.rates[m]);
      }
    }
  }

  /** Every sample of metric m, each with its interval: what the short and medium windows see. */
  function Samples(t: Tuning, s: State, es: seq<Event>, m: nat): seq<(u64, u64)>
    requires m < METRICS
  {
    if es == [] then []
    else
      var n := |es| - 1;
      Samples(t, s, es[..n], m)
      + (if es[n].Decide? then [(es[n].sample.rates[m], Wrap64(es[n].now - Run(t, s, es[..n]).last))] else [])
  }

  /** One event and the windows that never freeze. */
  lemma WindowStep(t: Tuning, s: State, e: Event, m: nat)
    requires m < METRICS && s.tracks[m].samples > 0
    ensures var a, b := s.tracks[m], Next(t, s, e).tracks[m];
            && b.samples > 0
            && (!e.Decide? ==> b == a)
            && (e.Decide? ==>
                  && b.short == EwmaStep(a.short, e.sample.rates[m], Wrap64(e.now - s.last), t.win.short)
                  && b.med == EwmaStep(a.med, e.sample.rates[m], Wrap64(e.now - s.last), t.win.med)
                  && b.peak == Max(a.peak, e.sample.rates[m]) && b.cur == e.sample.rates[m])
  {
    hide DecidedLadder, EwmaStep, Over, Wrap64, Frozen;
    if e.Decide? {
      assert Decided(t, s, e.now, e.sample).tracks[m] == DecidedTrack(t, s, e.now, e.sample.rates, m);
    }
  }

  /** Over every run, attacks included, the short and medium windows are the EWMA of all samples. */
  lemma {:induction false} WindowsAreTaught(t: Tuning, s: State, es: seq<Event>, m: nat)
    requires m < METRICS && s.tracks[m].samples > 0
    ensures Run(t, s, es).tracks[m].samples > 0
    ensures Run(t, s, es).tracks[m].short == Taught(s.tracks[m].short, Samples(t, s, es, m), t.win.short)
    ensures Run(t, s, es).tracks[m].med == Taught(s.tracks[m].med, Samples(t, s, es, m), t.win.med)
  {
    hide Next, EwmaStep, Taught;
    var a := s.tracks[m];
    if es == [] {
      NothingTaught(a.short, t.win.short);
      NothingTaught(a.med, t.win.med);
    } else {
      var n := |es| - 1;
      WindowsAreTaught(t, s, es[..n], m);
      var p, seen := Run(t, s, es[..n]), Samples(t, s, es[..n], m);
      WindowStep(t, p, es[n], m);
      if es[n].Decide? {
        var x := (es[n].sample.rates[m], Wrap64(es[n].now - p.last));
        TaughtSnoc(a.short, seen, x, t.win.short);
        TaughtSnoc(a.med, seen, x, t.win.med);
      } else {
        assert Samples(t, s, es, m) == seen;
      }
    }
  }

  /** The first sample sets every window, anomaly or not. */
  lemma FirstSampleSetsAll(t: Tuning, s: State, e: Event, m: nat)
    requires e.Decide? && m < METRICS && s.tracks[m].samples == 0
    ensures var b, v := Next(t, s, e).tracks[m], e.sample.rates[m];
            b.short == b.med == b.long == b.cur == v && b.samples == 1
  {
    hide DecidedLadder, EwmaStep, Over, Frozen;
    assert Decided(t, s, e.now, e.sample).tracks[m] == DecidedTrack(t, s, e.now, e.sample.rates, m);
  }
}
