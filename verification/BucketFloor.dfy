/**
 * What the token bucket owes its caller: the exact condition under which a call
 * is granted, and a lower bound on what every run has granted and still holds,
 * through the burst cap and the one-second snap.
 */
module BucketFloor {
  import opened Words
  import opened TokenBuckets

  /** The time since the anchor that a call may count. */
  function Counts(b: Bucket, now: nat): nat {
    if now < b.anchor then 0 else Min(now - b.anchor, NSEC)
  }

  /** Held tokens and counted time together cover n tokens. */
  predicate Covers(b: Bucket, now: nat, rate: nat, n: nat) {
    n * NSEC <= b.tokens * NSEC + Counts(b, now) * Min(rate, RATE_MAX)
  }

  lemma FloorIff(e: nat, n: nat, tokens: nat)
    ensures n <= tokens + e / NSEC <==> n * NSEC <= tokens * NSEC + e
  {
    FloorBounds(e, NSEC);
  }

  /** The balance a call finds, before its own grant. */
  function Found(b: Bucket, c: Call, rate: nat, burst: nat): nat {
    var (r, ok) := Step(b, c, rate, burst);
    r.tokens + (if ok then c.want else 0)
  }

  /** A call finds exactly the tokens within burst that the held ones and the counted time cover: none is lost, none invented. */
  lemma BalanceIff(b: Bucket, c: Call, rate: nat, burst: nat, n: nat)
    requires 0 < rate && Started(b, burst) && b.anchor <= c.now
    ensures Found(b, c, rate, burst) <= burst
    ensures n <= Found(b, c, rate, burst) <==> n <= burst && Covers(b, c.now, rate, n)
    ensures Found(b, c, rate, burst) >= b.tokens
  {
    var e := Counts(b, c.now) * Min(rate, RATE_MAX);
    RefilledBalance(b, c.now, rate, burst);
    hide Refilled;
    FloorIff(e, n, b.tokens);
  }

  lemma RefilledBalance(b: Bucket, now: nat, rate: nat, burst: nat)
    requires 0 < rate && Started(b, burst) && b.anchor <= now
    ensures Refilled(b, now, rate, burst).tokens
            == Min(burst, b.tokens + Counts(b, now) * Min(rate, RATE_MAX) / NSEC)
  {
  }

  /** When a call is granted, for every bucket a fixed burst allows, fresh or started, whatever the clock did. */
  lemma GrantIff(b: Bucket, c: Call, rate: nat, burst: nat)
    requires b.tokens <= burst
    ensures Step(b, c, rate, burst).1 <==>
              || rate == 0 || burst == 0
              || (c.want <= burst && (b.anchor == 0 || b.anchor > c.now || Covers(b, c.now, rate, c.want)))
    ensures !Step(b, c, rate, burst).1 ==> Step(b, c, rate, burst).0.tokens == Found(b, c, rate, burst)
  {
    if rate > 0 && burst > 0 && 0 < b.anchor <= c.now {
      hide Refilled, Covers;
      BalanceIff(b, c, rate, burst, c.want);
    }
  }

  // ------------------------------------------------------------------------
  // Whole runs
  // ------------------------------------------------------------------------

  /** What a gap between two calls is worth at least: all of it, up to one second less one price. */
  function Worth(gap: nat, rate: nat): nat
    requires rate > 0
  {
    if Price(rate) + 1 >= NSEC then 0 else Min(gap, NSEC - Price(rate) - 1)
  }

  /** The same in billionths of a token. */
  function Gain(gap: nat, rate: nat): nat
    requires rate > 0
  {
    Worth(gap, Min(rate, RATE_MAX)) * Min(rate, RATE_MAX)
  }

  function Least(a: int, b: int): int {
    if a <= b then a else b
  }

  /** An ideal bucket, in billionths of a token: every gap credits its worth, the burst caps it, grants are taken out. */
  ghost function Ideal(b0: Bucket, calls: seq<Call>, rate: nat, burst: nat): int
    requires rate > 0 && Ordered(b0.anchor, calls)
  {
    if calls == [] then b0.tokens * NSEC
    else
      var init := calls[..|calls| - 1];
      var gap := Clock(b0.anchor, calls) - Clock(b0.anchor, init);
      var given := Run(b0, calls, rate, burst).granted - Run(b0, init, rate, burst).granted;
      Least(Ideal(b0, init, rate, burst) + Gain(gap, rate), burst * NSEC) - given * NSEC
  }

  /** The anchor is behind the clock by less than a token and a nanosecond. */
  predicate Close(b: Bucket, now: nat, rate: nat) {
    b.anchor <= now && (now - b.anchor) * Min(rate, RATE_MAX) < NSEC + Min(rate, RATE_MAX)
  }

  /** Balance and lag together, in billionths of a token. */
  function Potential(b: Bucket, now: nat, rate: nat): nat
    requires b.anchor <= now
  {
    b.tokens * NSEC + (now - b.anchor) * Min(rate, RATE_MAX)
  }

  /** A lag behind the clock of less than a token and a nanosecond leaves room for the gap's worth. */
  lemma WorthFits(lag: nat, gap: nat, rate: nat)
    requires rate > 0 && lag * rate < NSEC + rate
    ensures lag + Worth(gap, rate) <= Min(lag + gap, NSEC)
  {
    var p := Price(rate);
    FloorBounds(NSEC, rate);
    if lag > p + 1 {
      MulMono(p + 2, lag, rate);
      Distribute(p, 2, rate);
    }
    if p + 1 >= NSEC && lag > NSEC {
      MulMono(NSEC + 1, lag, rate);
      Distribute(NSEC, 1, rate);
    }
  }

  lemma CountsTheGap(b: Bucket, last: nat, now: nat, rate: nat)
    requires 0 < rate && Close(b, last, rate) && last <= now
    ensures b.tokens * NSEC + Counts(b, now) * Min(rate, RATE_MAX) >= Potential(b, last, rate) + Gain(now - last, rate)
  {
    var eff := Min(rate, RATE_MAX);
    var lag, worth := last - b.anchor, Worth(now - last, eff);
    WorthFits(lag, now - last, eff);
    hide Worth;
    MulMono(lag + worth, Counts(b, now), eff);
    Distribute(lag, worth, eff);
  }

  lemma RefillLag(b: Bucket, now: nat, rate: nat, burst: nat)
    requires 0 < rate && Started(b, burst) && b.anchor <= now
    ensures var r := Refilled(b, now, rate, burst);
            && Close(r, now, rate) && b.anchor <= r.anchor && r.tokens <= burst
            && Potential(r, now, rate)
               >= Least(burst * NSEC, b.tokens * NSEC + Counts(b, now) * Min(rate, RATE_MAX))
  {
    var eff := Min(rate, RATE_MAX);
    var s := Snap(b, now);
    var add := Earned(s, now, eff);
    var consumed := (add * NSEC) / eff;
    RefillCharges(s, now, eff);
    RefillExact(b, now, rate, burst);
    hide Earned, Refilled;
    LagLeft(b.tokens, add, now - s.anchor, consumed, eff);
  }

  lemma RefillExact(b: Bucket, now: nat, rate: nat, burst: nat)
    requires 0 < rate && Started(b, burst) && b.anchor <= now
    ensures var eff := Min(rate, RATE_MAX);
            var s := Snap(b, now);
            var add := Earned(s, now, eff);
            && s.anchor <= now && now - s.anchor == Counts(b, now)
            && Refilled(b, now, rate, burst) == Bucket(Min(b.tokens + add, burst), s.anchor + (add * NSEC) / eff)
  {
    hide Earned;
    var eff := Min(rate, RATE_MAX);
    assert (0 * NSEC) / eff == 0 by { DivUnique(0, eff, 0); }
  }

  lemma LagLeft(tokens: nat, add: nat, e: nat, consumed: nat, eff: nat)
    requires consumed <= e && consumed * eff <= add * NSEC && e * eff < consumed * eff + NSEC + eff
    ensures (e - consumed) * eff < NSEC + eff
    ensures (tokens + add) * NSEC + (e - consumed) * eff >= tokens * NSEC + e * eff
  {
    Distribute(e - consumed, consumed, eff);
    Distribute(tokens, add, NSEC);
  }

  /** One call keeps balance and lag together above the ideal, and the lag small. */
  lemma PotentialStep(b: Bucket, c: Call, rate: nat, burst: nat, last: nat)
    requires 0 < rate && Started(b, burst) && Close(b, last, rate) && last <= c.now
    ensures var r := Step(b, c, rate, burst).0;
            && Started(r, burst) && Close(r, c.now, rate)
            && Potential(r, c.now, rate) + (Found(b, c, rate, burst) - r.tokens) * NSEC
               >= Least(Potential(b, last, rate) + Gain(c.now - last, rate), burst * NSEC)
  {
    hide Refilled, Gain, Counts;
    RefillLag(b, c.now, rate, burst);
    CountsTheGap(b, last, c.now, rate);
    var given := Found(b, c, rate, burst) - Step(b, c, rate, burst).0.tokens;
    Distribute(Step(b, c, rate, burst).0.tokens, given, NSEC);
  }

  /** Over every run the balance and the lag stay above the ideal. */
  lemma {:induction false} PotentialRun(b0: Bucket, calls: seq<Call>, rate: nat, burst: nat)
    requires 0 < rate && Started(b0, burst) && Ordered(b0.anchor, calls)
    ensures var b := Run(b0, calls, rate, burst).bucket;
            && Started(b, burst) && Close(b, Clock(b0.anchor, calls), rate)
            && Potential(b, Clock(b0.anchor, calls), rate) >= Ideal(b0, calls, rate, burst)
  {
    if calls != [] {
      var init, c := calls[..|calls| - 1], calls[|calls| - 1];
      PotentialRun(b0, init, rate, burst);
      var b := Run(b0, init, rate, burst).bucket;
      hide Step, Ideal, Gain, Potential, Close, Found, Started;
      PotentialStep(b, c, rate, burst, Clock(b0.anchor, init));
      IdealStep(b0, calls, rate, burst);
    }
  }

  lemma IdealStep(b0: Bucket, calls: seq<Call>, rate: nat, burst: nat)
    requires rate > 0 && Ordered(b0.anchor, calls) && calls != []
    ensures var init, c := calls[..|calls| - 1], calls[|calls| - 1];
            var b := Run(b0, init, rate, burst).bucket;
            && Run(b0, calls, rate, burst).bucket == Step(b, c, rate, burst).0
            && Ideal(b0, calls, rate, burst)
               == Least(Ideal(b0, init, rate, burst) + Gain(c.now - Clock(b0.anchor, init), rate), burst * NSEC)
                  - (Found(b, c, rate, burst) - Run(b0, calls, rate, burst).bucket.tokens) * NSEC
  {
    hide Gain, Refilled;
  }

  /**
   * However often the burst caps it or a second of idling is cut, what a run
   * leaves in the bucket trails the ideal bucket by less than a token and a
   * nanosecond's worth: the loss never adds up.
   */
  lemma RunHoldsTheIdeal(b0: Bucket, calls: seq<Call>, rate: nat, burst: nat)
    requires 0 < rate && Started(b0, burst) && Ordered(b0.anchor, calls)
    ensures Run(b0, calls, rate, burst).bucket.tokens * NSEC + NSEC + Min(rate, RATE_MAX) > Ideal(b0, calls, rate, burst)
  {
    hide Run, Ideal, Started;
    PotentialRun(b0, calls, rate, burst);
  }
}
