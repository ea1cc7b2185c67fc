/**
 * The autotune mode machine (src/user/autotune.c): one tick of the controller
 * as a class, its effect as a log of events on values, and what holds of every
 * run of such events.
 */
module ModeMachine {
  import opened Words
  import opened Baselines

  const NORMAL: nat := 0
  const ELEVATED: nat := 1
  const UNDER_ATTACK: nat := 2
  const LOCKDOWN: nat := 3
  const MONITOR_ONLY: nat := 4
  const ABI_MAJOR: nat := 1

  type Mode = m: nat | m <= MONITOR_ONLY

  datatype Tuning = Tuning(rules: Rules, win: Windows, minTick: u64, warmup: u64, extraDwell: u64,
                           confirmUp: u32, confirmDown: u32,
                           sevElevate: u32, sevAttack: u32, sevLockdown: u32, allowLockdown: bool)

  /** The fields of the live configuration that a tick reads. */
  datatype Live = Live(abi: u64, mode: nat, hi: MarkSet, lo: MarkSet, dwell: u64)

  datatype Ladder = Ladder(mode: Mode, pinned: bool, up: u32, down: u32, since: u64)

  datatype State = State(ladder: Ladder, first: u64, last: u64, samples: u64, tracks: Tracks,
                         applied: Option<nat>, triedMode: Mode, triedClass: u32)

  /** Rates and attack classes of one sample, and whether a configuration write would succeed. */
  datatype Sample = Sample(rates: Rates, live: Live, classes: u32, writable: bool)

  datatype Event =
    | Adopt(mode: Mode, now: u64)
    | Restart(now: u64)
    | Decide(now: u64, sample: Sample)
    | Force(mode: Mode, now: u64, writable: bool)
    | Unpin(now: u64)
    | Rebase(base: nat, writable: bool)

  predicate Fighting(mode: nat) {
    ELEVATED <= mode <= LOCKDOWN
  }

  predicate OperatorMode(mode: nat) {
    mode == LOCKDOWN || mode == MONITOR_ONLY
  }

  predicate Warmed(t: Tuning, first: u64, samples: u64, now: u64) {
    samples >= 8 && first != 0 && Wrap64(now - first) >= t.warmup
  }

  function Target(t: Tuning, warmed: bool, severity: nat, absHigh: bool): (m: Mode)
    ensures m <= LOCKDOWN
    ensures m == LOCKDOWN ==> t.allowLockdown && warmed && severity >= t.sevLockdown
    ensures absHigh ==> m >= UNDER_ATTACK
    ensures m > NORMAL ==> absHigh || warmed
  {
    var adaptive :=
      if !warmed then NORMAL
      else if severity >= t.sevLockdown then LOCKDOWN
      else if severity >= t.sevAttack then UNDER_ATTACK
      else if severity >= t.sevElevate then ELEVATED
      else NORMAL;
    var target := Max(adaptive, if absHigh then UNDER_ATTACK else NORMAL);
    if target == LOCKDOWN && !t.allowLockdown then UNDER_ATTACK else target
  }

  function Dwell(t: Tuning, live: Live, mode: Mode): u64 {
    if mode == LOCKDOWN then Wrap64(live.dwell + t.extraDwell) else live.dwell
  }

  function Climb(t: Tuning, l: Ladder, now: u64): Ladder
    requires l.mode < LOCKDOWN
  {
    var up := Bump(l.up);
    if up >= t.confirmUp then l.(mode := l.mode + 1, up := 0, down := 0, since := now)
    else l.(up := up, down := 0)
  }

  predicate Dwelled(l: Ladder, dwell: u64, now: u64) {
    l.since == 0 || Wrap64(now - l.since) >= dwell
  }

  function Descend(t: Tuning, l: Ladder, quiet: bool, dwell: u64, now: u64): Ladder
    requires l.mode > NORMAL
  {
    if !quiet then l.(up := 0, down := 0)
    else
      var down := Bump(l.down);
      if Dwelled(l, dwell, now) && down >= t.confirmDown
      then l.(mode := l.mode - 1, up := 0, down := 0, since := now)
      else l.(up := 0, down := down)
  }

  function Stepped(t: Tuning, l: Ladder, target: Mode, quiet: bool, dwell: u64, now: u64): Ladder
    requires target <= LOCKDOWN
  {
    if l.pinned || l.mode >= MONITOR_ONLY then l
    else if target > l.mode then Climb(t, l, now)
    else if target < l.mode then Descend(t, l, quiet, dwell, now)
    else l.(up := 0, down := 0)
  }

  /** The mode a decision aims at. */
  function Wanted(t: Tuning, s: State, now: u64, v: Rates, live: Live): (m: Mode)
    ensures m <= LOCKDOWN
    ensures m == LOCKDOWN ==> t.allowLockdown
  {
    Target(t, Warmed(t, s.first, Wrap64(s.samples + 1), now),
           SeverityOf(t.rules, s.tracks, v, live.hi, t.sevAttack), AbsHigh(live.hi, v))
  }

  function DecidedLadder(t: Tuning, s: State, now: u64, x: Sample): Ladder {
    Stepped(t, s.ladder, Wanted(t, s, now, x.rates, x.live), BelowLow(x.live.lo, x.rates),
            Dwell(t, x.live, s.ladder.mode), now)
  }

  predicate Frozen(t: Tuning, s: State, v: Rates) {
    Anomalies(t.rules, s.tracks, v, METRICS) != {} || Fighting(s.ladder.mode)
  }

  function DecidedTrack(t: Tuning, s: State, now: u64, v: Rates, m: nat): Track
    requires m < METRICS
  {
    Tracked(s.tracks[m].(anomalous := Over(t.rules[m], s.tracks[m].long, v[m])), v[m],
            Wrap64(now - s.last), t.win, Frozen(t, s, v))
  }

  function DecidedTracks(t: Tuning, s: State, now: u64, v: Rates): Tracks {
    seq(METRICS, m requires 0 <= m < METRICS => DecidedTrack(t, s, now, v, m))
  }

  /** A tick pushes only when the wanted configuration differs from the one last tried. */
  predicate Pushes(s: State, l: Ladder, classes: u32) {
    !l.pinned && (l.mode != s.triedMode || classes != s.triedClass || s.applied.None?)
  }

  function Decided(t: Tuning, s: State, now: u64, x: Sample): State {
    var l := DecidedLadder(t, s, now, x);
    var push := Pushes(s, l, x.classes);
    State(l, s.first, now, Wrap64(s.samples + 1), DecidedTracks(t, s, now, x.rates),
          if push && x.writable then Some(l.mode) else s.applied,
          if push then l.mode else s.triedMode,
          if push then x.classes else s.triedClass)
  }

  function Overridden(l: Ladder, mode: Mode, now: u64): Ladder {
    Ladder(mode, OperatorMode(mode), 0, 0, now)
  }

  function Next(t: Tuning, s: State, e: Event): State {
    match e
    case Adopt(mode, now) => s.(ladder := Overridden(s.ladder, mode, now), applied := Some(mode))
    case Restart(now) => s.(ladder := s.ladder.(since := now), first := now, last := now)
    case Decide(now, x) => Decided(t, s, now, x)
    case Force(mode, now, writable) =>
      s.(ladder := Overridden(s.ladder, mode, now), applied := if writable then Some(mode) else s.applied)
    case Unpin(now) =>
      s.(ladder := Ladder(if s.ladder.mode >= MONITOR_ONLY then NORMAL else s.ladder.mode, false, 0, 0, now))
    case Rebase(base, writable) =>
      var m: Mode := if base <= MONITOR_ONLY then base else s.ladder.mode;
      s.(ladder := Ladder(m, OperatorMode(base), 0, 0, s.last), applied := if writable then Some(m) else None)
  }

  function Run(t: Tuning, s: State, es: seq<Event>): State {
    if es == [] then s else Next(t, Run(t, s, es[..|es| - 1]), es[|es| - 1])
  }

  lemma RunSnoc(t: Tuning, s: State, es: seq<Event>, e: Event)
    ensures Run(t, s, es + [e]) == Next(t, Run(t, s, es), e)
  {
    hide Next;
    assert (es + [e])[..|es|] == es;
  }

  predicate Refused(live: Live) {
    live.abi != 0 && live.abi / U16 != ABI_MAJOR
  }

  function Adoption(s: State, now: u64, live: Live): seq<Event> {
    if s.applied.Some? && live.mode != s.applied.value && live.mode <= MONITOR_ONLY
    then [Adopt(live.mode, now)] else []
  }

  function Timing(t: Tuning, last: u64, now: u64, x: Sample): seq<Event> {
    if last == 0 || now < last then [Restart(now)]
    else if now - last < t.minTick then []
    else [Decide(now, x)]
  }

  /** What one tick does, as events: adopt an outside change, then restart, wait or decide. */
  function TickLog(t: Tuning, s: State, now: u64, x: Sample): seq<Event> {
    if Refused(x.live) then [] else Adoption(s, now, x.live) + Timing(t, s.last, now, x)
  }

  const UNTRACKED: Track := Track(0, 0, 0, 0, 0, 0, false)

  /** The state right after initialisation from a live configuration. */
  function Initial(live: Live): State {
    var mode: Mode := if live.mode <= MONITOR_ONLY then live.mode else NORMAL;
    State(Ladder(mode, OperatorMode(live.mode), 0, 0, 0), 0, 0, 0, seq(METRICS, _ => UNTRACKED),
          Some(live.mode), mode, 0)
  }

  /** The controller object. */
  class Autotune {
    const t: Tuning
    var mode: Mode
    var pinned: bool
    var up: u32
    var down: u32
    var since: u64
    var first: u64
    var last: u64
    var samples: u64
    var applied: Option<nat>
    var triedMode: Mode
    var triedClass: u32
    const tracks: array<Track>

    ghost predicate Valid() {
      tracks.Length == METRICS
    }

    /** The controller starts in the live mode, with empty baselines and fresh counters. */
    constructor (t: Tuning, live: Live)
      ensures Valid() && fresh(tracks) && this.t == t
      ensures Model() == Initial(live)
    {
      this.t := t;
      mode := if live.mode <= MONITOR_ONLY then live.mode else NORMAL;
      pinned := OperatorMode(live.mode);
      up, down, since, first, last, samples := 0, 0, 0, 0, 0, 0;
      applied, triedClass := Some(live.mode), 0;
      triedMode := if live.mode <= MONITOR_ONLY then live.mode else NORMAL;
      tracks := new Track[METRICS](_ => UNTRACKED);
      new;
      assert tracks[..] == Initial(live).tracks;
    }

    ghost function Steps(): Ladder
      reads this
    {
      Ladder(mode, pinned, up, down, since)
    }

    ghost function Model(): State
      requires Valid()
      reads this, tracks
    {
      State(Steps(), first, last, samples, tracks[..], applied, triedMode, triedClass)
    }

    /** At most one rung per decision, in either direction. */
    method StepMode(target: Mode, quiet: bool, dwell: u64, now: u64)
      requires target <= LOCKDOWN
      modifies `mode, `up, `down, `since
      ensures Steps() == Stepped(t, old(Steps()), target, quiet, dwell, now)
    {
      if pinned || mode >= MONITOR_ONLY {
        return;
      }
      if target > mode {
        down := 0;
        up := Bump(up);
        if up >= t.confirmUp {
          up := 0;
          mode, since := mode + 1, now;
        }
      } else if target < mode {
        up := 0;
        if !quiet {
          down := 0;
          return;
        }
        down := Bump(down);
        if since != 0 && Wrap64(now - since) < dwell {
          return;
        }
        if down >= t.confirmDown {
          down := 0;
          mode, since := mode - 1, now;
        }
      } else {
        up, down := 0, 0;
      }
    }

    /** Detection against the old baselines, then the baselines, then the mode. */
    method Sampled(now: u64, x: Sample)
      requires Valid()
      modifies `mode, `up, `down, `since, `last, `samples, tracks
      ensures Steps() == old(DecidedLadder(t, Model(), now, x))
      ensures last == now && samples == Wrap64(old(samples) + 1)
      ensures tracks[..] == old(DecidedTracks(t, Model(), now, x.rates))
    {
      hide Tracked, Over, SeverityOf, Stepped, Anomalies, BelowLow, AbsHigh, Target;
      ghost var s := Model();
      var dt := Wrap64(now - last);
      last := now;
      samples := Wrap64(samples + 1);
      var anomalies, absHigh, severity := Detect(t.rules, tracks, x.rates, x.live.hi, t.sevAttack);
      var frozen := anomalies != {} || Fighting(mode);
      UpdateTracks(tracks, x.rates, dt, t.win, frozen);
      var target := Target(t, Warmed(t, first, samples, now), severity, absHigh);
      StepMode(target, BelowLow(x.live.lo, x.rates), Dwell(t, x.live, mode), now);
    }

    /** Someone else moved the mode: follow, and stop driving in an operator state. */
    method AdoptOutside(now: u64, live: Live)
      requires Valid()
      modifies `mode, `since, `up, `down, `pinned, `applied
      ensures Model() == Run(t, old(Model()), Adoption(old(Model()), now, live))
    {
      hide Run, Decided;
      ghost var s := Model();
      EmptyRun(t, s);
      if applied.Some? && live.mode != applied.value && live.mode <= MONITOR_ONLY {
        RunOne(t, s, Adopt(live.mode, now));
        mode, since, up, down := live.mode, now, 0, 0;
        pinned := OperatorMode(live.mode);
        applied := Some(live.mode);
      }
    }

    /** A decision, and the push it may call for. */
    method DecideNow(now: u64, x: Sample)
      requires Valid()
      modifies this, tracks
      ensures Model() == Next(t, old(Model()), Decide(now, x))
    {
      hide DecidedLadder, DecidedTracks;
      Sampled(now, x);
      if !pinned && (mode != triedMode || x.classes != triedClass || applied.None?) {
        triedMode, triedClass := mode, x.classes;
        if x.writable {
          applied := Some(mode);
        }
      }
    }

    method Tick(now: u64, x: Sample) returns (code: int)
      requires Valid()
      modifies this, tracks
      ensures Model() == Run(t, old(Model()), TickLog(t, old(Model()), now, x))
      ensures code == -71 <==> Refused(x.live)
      ensures code == 1 <==> !Refused(x.live) && Timing(t, old(last), now, x) == []
    {
      hide Next, Run;
      ghost var s := Model();
      if x.live.abi != 0 && x.live.abi / U16 != ABI_MAJOR {
        EmptyRun(t, s);
        return -71;
      }
      AdoptOutside(now, x.live);
      ghost var adoption := Adoption(s, now, x.live);
      assert last == s.last by { AdoptionKeepsClock(t, s, now, x.live); }
      if last == 0 || now < last {
        RunSnoc(t, s, adoption, Restart(now));
        MarkStart(now);
        return 0;
      }
      if now - last < t.minTick {
        assert adoption + [] == adoption;
        return 1;
      }
      RunSnoc(t, s, adoption, Decide(now, x));
      DecideNow(now, x);
      return 0;
    }

    /** Operator override; an unknown mode is refused and changes nothing. */
    method ForceMode(newMode: nat, now: u64, writable: bool) returns (code: int)
      requires Valid()
      modifies this
      ensures newMode > MONITOR_ONLY ==> code == -22 && Model() == old(Model())
      ensures newMode <= MONITOR_ONLY ==> Model() == Next(t, old(Model()), Force(newMode, now, writable))
    {
      hide Decided;
      if newMode > MONITOR_ONLY {
        return -22;
      }
      mode, since, up, down := newMode, now, 0, 0;
      pinned := OperatorMode(newMode);
      if writable {
        applied := Some(newMode);
        return 0;
      }
      return -5;
    }

    method Release(now: u64)
      requires Valid()
      modifies this
      ensures Model() == Next(t, old(Model()), Unpin(now))
    {
      hide Decided;
      pinned, up, down, since := false, 0, 0, now;
      if mode >= MONITOR_ONLY {
        mode := NORMAL;
      }
    }

    /** A reload: the mode of the new baseline, and a forced push. */
    method SetBase(base: nat, writable: bool)
      requires Valid()
      modifies this
      ensures Model() == Next(t, old(Model()), Rebase(base, writable))
    {
      hide Decided;
      if OperatorMode(base) {
        pinned, mode := true, base;
      } else {
        pinned := false;
        if base <= MONITOR_ONLY {
          mode := base;
        }
      }
      up, down, since := 0, 0, last;
      applied := if writable then Some(mode) else None;
    }

    method MarkStart(now: u64)
      requires Valid()
      modifies `first, `last, `since
      ensures Model() == Next(t, old(Model()), Restart(now))
    {
      hide Decided;
      first, last, since := now, now, now;
    }
  }

  lemma EmptyRun(t: Tuning, s: State)
    ensures Run(t, s, []) == s
  {
  }

  lemma RunOne(t: Tuning, s: State, e: Event)
    ensures Run(t, s, [e]) == Next(t, s, e)
  {
    hide Next;
    RunSnoc(t, s, [], e);
    assert [] + [e] == [e];
  }

  lemma AdoptionKeepsClock(t: Tuning, s: State, now: u64, live: Live)
    ensures Run(t, s, Adoption(s, now, live)).last == s.last
  {
    hide Run, Decided;
    EmptyRun(t, s);
    if Adoption(s, now, live) != [] {
      RunOne(t, s, Adopt(live.mode, now));
    }
  }
}
