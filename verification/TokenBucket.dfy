/** Integer token bucket with the sub-token remainder carried in the refill anchor. */
module TokenBuckets {
  import opened Words

  const NSEC: nat := 1_000_000_000
  const RATE_MAX: nat := 4_000_000_000
  // ------------------------------------------------------------------------
  // Specification: unbounded arithmetic
  // ------------------------------------------------------------------------

  datatype Bucket = Bucket(tokens: nat, anchor: nat)

  datatype Call = Call(now: nat, want: nat)

  /** A fresh record, or a clock that went backwards, starts again from a full bucket. */
  function Reseed(b: Bucket, now: nat, burst: nat): Bucket {
    if b.anchor == 0 || b.anchor > now then Bucket(burst, now) else b
  }

  /** At most one second of idle time is ever credited. */
  function Snap(b: Bucket, now: nat): Bucket {
    if now > b.anchor + NSEC then b.(anchor := now - NSEC) else b
  }

  /** Whole tokens earned since the anchor. */
  function Earned(b: Bucket, now: nat, rate: nat): nat {
    if now < b.anchor then 0 else ((now - b.anchor) * rate) / NSEC
  }

  function Credit(b: Bucket, now: nat, rate: nat, burst: nat): Bucket
    requires rate > 0
  {
    var add := Earned(b, now, rate);
    if add == 0 then b else Bucket(Min(b.tokens + add, burst), b.anchor + (add * NSEC) / rate)
  }

  function Refilled(b: Bucket, now: nat, rate: nat, burst: nat): Bucket
    requires rate > 0
  {
    Credit(Snap(Reseed(b, now, burst), now), now, Min(rate, RATE_MAX), burst)
  }

  function Step(b: Bucket, c: Call, rate: nat, burst: nat): (Bucket, bool) {
    if rate == 0 || burst == 0 then (b, true)
    else
      var r := Refilled(b, c.now, rate, burst);
      if r.tokens >= c.want then (r.(tokens := r.tokens - c.want), true) else (r, false)
  }

  // ------------------------------------------------------------------------
  // The C record, in 64-bit wrap-around arithmetic
  // ------------------------------------------------------------------------

  class TokenBucket {
    var tokens: u64
    var anchor: u64

    ghost function Value(): Bucket
      reads this
    {
      Bucket(tokens, anchor)
    }

    constructor Init(now: u64, burst: u64)
      ensures Value() == Bucket(burst, now)
    {
      tokens := burst;
      anchor := now;
    }

    /** The accrual half of the C function: anchor and tokens move together. */
    method Accrue(now: u64, rate: u64, burst: u64)
      requires 0 < rate <= RATE_MAX && anchor <= now <= anchor + NSEC
      modifies this
      ensures Value() == Credit(old(Value()), now, rate, burst)
    {
      var elapsed := Wrap64(now - anchor);
      ProductBounds(elapsed, rate);
      var add := Wrap64(elapsed * rate) / NSEC;
      assert add == Earned(Value(), now, rate);
      if add > 0 {
        var consumed := Wrap64(add * NSEC) / rate;
        assert consumed == (add * NSEC) / rate <= elapsed;
        anchor := Wrap64(anchor + consumed);
        if Wrap64(tokens + add) < tokens || Wrap64(tokens + add) > burst {
          tokens := burst;
        } else {
          tokens := Wrap64(tokens + add);
        }
      }
    }

    /** No intermediate of the wrapping computation overflows: it is the unbounded Step. */
    method Consume(now: u64, rate0: u64, burst: u64, want: u64) returns (ok: bool)
      modifies this
      ensures (Value(), ok) == Step(old(Value()), Call(now, want), rate0, burst)
    {
      if rate0 == 0 || burst == 0 {
        return true;
      }
      var rate := rate0;
      if rate > RATE_MAX {
        rate := RATE_MAX;
      }
      if anchor == 0 || anchor > now {
        anchor := now;
        tokens := burst;
      }
      if Wrap64(now - anchor) > NSEC {
        anchor := Wrap64(now - NSEC);
      }
      assert Value() == Snap(Reseed(old(Value()), now, burst), now);
      Accrue(now, rate, burst);
      if tokens >= want {
        tokens := Wrap64(tokens - want);
        return true;
      }
      return false;
    }
  }

  /** Bounds on the two products the code forms; both fit 64 bits. */
  lemma ProductBounds(elapsed: nat, rate: nat)
    requires elapsed <= NSEC && 0 < rate <= RATE_MAX
    ensures elapsed * rate <= NSEC * RATE_MAX < U64
    ensures var add := (elapsed * rate) / NSEC;
            && add * NSEC <= NSEC * RATE_MAX
            && (add * NSEC) / rate <= elapsed
  {
    assert elapsed * rate <= NSEC * RATE_MAX by { MulMono(elapsed, NSEC, rate); MulMono(rate, RATE_MAX, NSEC); }
    var add := (elapsed * rate) / NSEC;
    DivMono(add * NSEC, elapsed * rate, rate);
    assert (elapsed * rate) / rate == elapsed by { DivCancel(elapsed, rate); }
  }

  // ------------------------------------------------------------------------
  // Runs: any number of calls under a non-decreasing clock
  // ------------------------------------------------------------------------

  datatype Outcome = Outcome(bucket: Bucket, granted: nat)

  ghost function Run(b0: Bucket, calls: seq<Call>, rate: nat, burst: nat): Outcome {
    if calls == [] then Outcome(b0, 0)
    else
      var before := Run(b0, calls[..|calls| - 1], rate, burst);
      var c := calls[|calls| - 1];
      var (b, ok) := Step(before.bucket, c, rate, burst);
      Outcome(b, before.granted + if ok then c.want else 0)
  }

  ghost function Clock(t0: nat, calls: seq<Call>): nat {
    if calls == [] then t0 else calls[|calls| - 1].now
  }

  ghost predicate Ordered(t0: nat, calls: seq<Call>) {
    calls != [] ==> Ordered(t0, calls[..|calls| - 1]) && Clock(t0, calls[..|calls| - 1]) <= Clock(t0, calls)
  }

  ghost predicate Started(b0: Bucket, burst: nat) {
    0 < b0.anchor && b0.tokens <= burst && 0 < burst
  }

  /** The nanoseconds one token is worth, rounded down. */
  function Price(rate: nat): nat
    requires rate > 0
  {
    NSEC / rate
  }

  /** One refill charges at least Price per token, never overtakes the clock, and leaves less than a token behind. */
  lemma RefillCharges(b: Bucket, now: nat, rate: nat)
    requires 0 < rate && b.anchor <= now
    ensures var add := Earned(b, now, rate);
            var consumed := (add * NSEC) / rate;
            && add * Price(rate) <= consumed <= now - b.anchor
            && consumed * rate <= add * NSEC
            && (now - b.anchor) * rate < consumed * rate + NSEC + rate
  {
    var e := now - b.anchor;
    var add := Earned(b, now, rate);
    var consumed := (add * NSEC) / rate;
    FloorBounds(e * rate, NSEC);
    FloorBounds(add * NSEC, rate);
    assert consumed <= e by { DivMono(add * NSEC, e * rate, rate); DivCancel(e, rate); }
    assert add * Price(rate) <= consumed by {
      var p := Price(rate);
      FloorBounds(NSEC, rate);
      MulMono(p * rate, NSEC, add);
      assert (add * p) * rate == add * (p * rate);
      DivMono((add * p) * rate, add * NSEC, rate);
      DivCancel(add * p, rate);
    }
  }

  ghost function Given(c: Call, ok: bool): nat {
    if ok then c.want else 0
  }

  /** One refill: every unit it leaves in the bucket is paid for by the anchor's advance. */
  lemma RefilledCharges(b: Bucket, now: nat, rate: nat, burst: nat)
    requires 0 < rate && Started(b, burst) && b.anchor <= now
    ensures var r := Refilled(b, now, rate, burst);
            var p := Price(Min(rate, RATE_MAX));
            && b.anchor <= r.anchor <= now && r.tokens <= burst
            && r.tokens * p <= b.tokens * p + (r.anchor - b.anchor)
  {
    var eff := Min(rate, RATE_MAX);
    var s := Snap(b, now);
    var add := Earned(s, now, eff);
    RefillCharges(s, now, eff);
    var p := Price(eff);
    var r := Refilled(b, now, rate, burst);
    hide Earned, Price;
    MulMono(r.tokens, b.tokens + add, p);
    Distribute(b.tokens, add, p);
  }

  /** One call: the same for the units it grants. */
  lemma StepCharges(b: Bucket, c: Call, rate: nat, burst: nat)
    requires 0 < rate && Started(b, burst) && b.anchor <= c.now
    ensures var (r, ok) := Step(b, c, rate, burst);
            var p := Price(Min(rate, RATE_MAX));
            && b.anchor <= r.anchor <= c.now && r.tokens <= burst
            && (Given(c, ok) + r.tokens) * p <= b.tokens * p + (r.anchor - b.anchor)
  {
    hide Refilled, Price;
    RefilledCharges(b, c.now, rate, burst);
    var (r', ok) := Step(b, c, rate, burst);
    assert Given(c, ok) + r'.tokens == Refilled(b, c.now, rate, burst).tokens;
  }

  /** Invariant of every run: anchor within the clock, tokens within burst, each unit paid for in time. */
  lemma {:induction false} RunInvariant(b0: Bucket, calls: seq<Call>, rate: nat, burst: nat)
    requires 0 < rate && Started(b0, burst) && Ordered(b0.anchor, calls)
    ensures var o := Run(b0, calls, rate, burst);
            && b0.anchor <= o.bucket.anchor <= Clock(b0.anchor, calls)
            && o.bucket.tokens <= burst
            && (o.granted + o.bucket.tokens) * Price(Min(rate, RATE_MAX))
               <= b0.tokens * Price(Min(rate, RATE_MAX)) + (o.bucket.anchor - b0.anchor)
  {
    if calls != [] {
      var init, c := calls[..|calls| - 1], calls[|calls| - 1];
      RunInvariant(b0, init, rate, burst);
      var before := Run(b0, init, rate, burst);
      StepCharges(before.bucket, c, rate, burst);
      var (r, ok) := Step(before.bucket, c, rate, burst);
      Distribute(before.granted, Given(c, ok) + r.tokens, Price(Min(rate, RATE_MAX)));
      Distribute(before.granted, before.bucket.tokens, Price(Min(rate, RATE_MAX)));
    }
  }

  /** However many calls are made, U granted units cost at least U*Price nanoseconds beyond the opening balance. */
  lemma GrantBound(b0: Bucket, calls: seq<Call>, rate: nat, burst: nat)
    requires 0 < rate && Started(b0, burst) && Ordered(b0.anchor, calls)
    ensures Run(b0, calls, rate, burst).bucket.tokens <= burst
    ensures Run(b0, calls, rate, burst).granted * Price(Min(rate, RATE_MAX))
            <= b0.tokens * Price(Min(rate, RATE_MAX)) + (Clock(b0.anchor, calls) - b0.anchor)
  {
    RunInvariant(b0, calls, rate, burst);
    var o := Run(b0, calls, rate, burst);
    MulMono(o.granted, o.granted + o.bucket.tokens, Price(Min(rate, RATE_MAX)));
  }

  /** Neither the one-second snap nor the burst cap takes effect anywhere in the run. */
  ghost predicate Unclipped(b0: Bucket, calls: seq<Call>, rate: nat, burst: nat)
    requires rate > 0
  {
    calls != [] ==>
      && Unclipped(b0, calls[..|calls| - 1], rate, burst)
      && var b := Run(b0, calls[..|calls| - 1], rate, burst).bucket;
         var now := calls[|calls| - 1].now;
         && now <= b.anchor + NSEC
         && b.tokens + Earned(b, now, Min(rate, RATE_MAX)) <= burst
  }

  /** One unclipped call: the bucket gains Earned tokens and the anchor their exact time, rounded down. */
  lemma StepCredits(b: Bucket, c: Call, rate: nat, burst: nat)
    requires 0 < rate && Started(b, burst) && b.anchor <= c.now <= b.anchor + NSEC
    requires b.tokens + Earned(b, c.now, Min(rate, RATE_MAX)) <= burst
    ensures var (r, ok) := Step(b, c, rate, burst);
            var eff := Min(rate, RATE_MAX);
            var gain := Given(c, ok) + r.tokens - b.tokens;
            && gain == Earned(b, c.now, eff)
            && (r.anchor - b.anchor) * eff <= gain * NSEC
            && (c.now - r.anchor) * eff < NSEC + eff
  {
    var eff := Min(rate, RATE_MAX);
    RefillCharges(b, c.now, eff);
    var add := Earned(b, c.now, eff);
    var consumed := (add * NSEC) / eff;
    assert Refilled(b, c.now, rate, burst) == Bucket(b.tokens + add, b.anchor + consumed) by {
      DivUnique(0, eff, 0);
    }
    Distribute(c.now - b.anchor - consumed, consumed, eff);
  }

  /** The bucket does not drift low: the credit of an unclipped run trails real time by less than 1e9 + rate. */
  lemma {:induction false} NoLowDrift(b0: Bucket, calls: seq<Call>, rate: nat, burst: nat)
    requires 0 < rate && Started(b0, burst) && Ordered(b0.anchor, calls)
    requires Unclipped(b0, calls, rate, burst)
    ensures var o := Run(b0, calls, rate, burst);
            var eff := Min(rate, RATE_MAX);
            var credit := o.granted + o.bucket.tokens - b0.tokens;
            && (o.bucket.anchor - b0.anchor) * eff <= credit * NSEC
            && (Clock(b0.anchor, calls) - b0.anchor) * eff < credit * NSEC + NSEC + eff
  {
    if calls != [] {
      var init, c := calls[..|calls| - 1], calls[|calls| - 1];
      NoLowDrift(b0, init, rate, burst);
      RunInvariant(b0, init, rate, burst);
      var b := Run(b0, init, rate, burst).bucket;
      StepCredits(b, c, rate, burst);
      var eff := Min(rate, RATE_MAX);
      var r := Step(b, c, rate, burst).0;
      Distribute(r.anchor - b.anchor, b.anchor - b0.anchor, eff);
      Distribute(c.now - r.anchor, r.anchor - b0.anchor, eff);
    }
  }

  /** Waiting is rewarded: once the owed time has passed, counting one second at most, a request within burst is granted. */
  lemma WaitIsRewarded(b: Bucket, c: Call, rate: nat, burst: nat)
    requires c.want <= burst
    requires b.anchor == 0 || b.anchor > c.now
             || Min(c.now - b.anchor, NSEC) * Min(rate, RATE_MAX) >= c.want * NSEC
    ensures Step(b, c, rate, burst).1
  {
    if burst > 0 && 0 < rate && 0 < b.anchor <= c.now {
      var e := Min(c.now - b.anchor, NSEC);
      DivMono(c.want * NSEC, e * Min(rate, RATE_MAX), NSEC);
      DivCancel(c.want, NSEC);
    }
  }
}
