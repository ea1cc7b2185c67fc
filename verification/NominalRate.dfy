/**
 * Which rates the bucket enforces exactly. The anchor advances by a rounded-down number of
 * nanoseconds per credit, so a caller that polls often can earn more than the nominal rate
 * unless that rounding loses nothing.
 */
module NominalRate {
  import opened TokenBuckets
  import opened Words

  /** Every run from a started bucket grants at most its opening balance plus rate units per second. */
  ghost predicate RateLaw(rate: nat) {
    forall b0: Bucket, calls: seq<Call>, burst: nat | Started(b0, burst) && Ordered(b0.anchor, calls) ::
      WithinRate(b0, calls, rate, burst)
  }

  ghost predicate WithinRate(b0: Bucket, calls: seq<Call>, rate: nat, burst: nat)
    requires Ordered(b0.anchor, calls)
  {
    Clock(b0.anchor, calls) >= b0.anchor &&
    Run(b0, calls, rate, burst).granted * NSEC
    <= b0.tokens * NSEC + (Clock(b0.anchor, calls) - b0.anchor) * rate
  }

  /** One token is a whole number of nanoseconds, or one nanosecond a whole number of tokens. */
  predicate Exact(rate: nat) {
    0 < rate && (NSEC % rate == 0 || rate % NSEC == 0)
  }

  lemma ExactCharge(e: nat, rate: nat)
    requires Exact(rate)
    ensures var add := (e * rate) / NSEC; ((add * NSEC) / rate) * rate == add * NSEC
  {
    var add := (e * rate) / NSEC;
    if NSEC % rate == 0 {
      var p := NSEC / rate;
      assert add * NSEC == (add * p) * rate;
      DivCancel(add * p, rate);
    } else {
      var k := rate / NSEC;
      assert rate == k * NSEC;
      assert e * rate == (e * k) * NSEC;
      DivCancel(e * k, NSEC);
      assert add * NSEC == e * rate;
      DivCancel(e, rate);
    }
  }

  lemma StepExact(b: Bucket, c: Call, rate: nat, burst: nat)
    requires Exact(rate) && rate <= RATE_MAX && Started(b, burst) && b.anchor <= c.now
    ensures var (r, ok) := Step(b, c, rate, burst);
            && b.anchor <= r.anchor <= c.now && r.tokens <= burst
            && (Given(c, ok) + r.tokens) * NSEC <= b.tokens * NSEC + (r.anchor - b.anchor) * rate
  {
    StepCharges(b, c, rate, burst);
    var s := Snap(b, c.now);
    var add := Earned(s, c.now, rate);
    var r := Refilled(b, c.now, rate, burst);
    ExactCharge(c.now - s.anchor, rate);
    var consumed := (add * NSEC) / rate;
    assert r.anchor - b.anchor >= consumed && r.tokens <= b.tokens + add by {
      DivUnique(0, rate, 0);
    }
    MulMono(consumed, r.anchor - b.anchor, rate);
    var (r', ok) := Step(b, c, rate, burst);
    assert Given(c, ok) + r'.tokens == r.tokens;
  }

  /** The rate the code works with. */
  function Effective(rate: nat): nat {
    Min(rate, RATE_MAX)
  }

  lemma ClampedStep(b: Bucket, c: Call, rate: nat, burst: nat)
    ensures Step(b, c, rate, burst) == Step(b, c, Effective(rate), burst)
  {
  }

  lemma {:induction false} RunExact(b0: Bucket, calls: seq<Call>, rate: nat, burst: nat)
    requires Exact(Effective(rate)) && Started(b0, burst) && Ordered(b0.anchor, calls)
    ensures var o := Run(b0, calls, rate, burst);
            && b0.anchor <= o.bucket.anchor <= Clock(b0.anchor, calls) && o.bucket.tokens <= burst
            && (o.granted + o.bucket.tokens) * NSEC
               <= b0.tokens * NSEC + (o.bucket.anchor - b0.anchor) * Effective(rate)
  {
    if calls != [] {
      var init, c := calls[..|calls| - 1], calls[|calls| - 1];
      RunExact(b0, init, rate, burst);
      var b := Run(b0, init, rate, burst).bucket;
      ClampedStep(b, c, rate, burst);
      hide Step, Effective;
      EffectiveRange(rate);
      StepExact(b, c, Effective(rate), burst);
      var r := Step(b, c, rate, burst).0;
      Distribute(r.anchor - b.anchor, b.anchor - b0.anchor, Effective(rate));
    }
  }

  lemma EffectiveRange(rate: nat)
    ensures Effective(rate) <= RATE_MAX && Effective(rate) <= rate
    ensures !Exact(Effective(rate)) ==> Effective(rate) == rate
  {
  }

  /** A run extended by one call. */
  lemma RunSnoc(b0: Bucket, calls: seq<Call>, c: Call, rate: nat, burst: nat)
    ensures Clock(b0.anchor, calls + [c]) == c.now
    ensures Ordered(b0.anchor, calls) && Clock(b0.anchor, calls) <= c.now ==> Ordered(b0.anchor, calls + [c])
    ensures var before := Run(b0, calls, rate, burst);
            var (b, ok) := Step(before.bucket, c, rate, burst);
            Run(b0, calls + [c], rate, burst) == Outcome(b, before.granted + Given(c, ok))
  {
    assert (calls + [c])[..|calls|] == calls;
  }

  /** One token of credit while only the rounded-down price is charged. */
  lemma DripStep(rate: nat, anchor: nat)
    requires 1 < rate < NSEC && NSEC % rate != 0 && 0 < anchor
    ensures var p := Price(rate);
            Step(Bucket(0, anchor), Call(anchor + p + 1, 1), rate, 1) == (Bucket(0, anchor + p), true)
  {
    var p := Price(rate);
    FloorBounds(NSEC, rate);
    assert p < NSEC by { if p >= NSEC { MulMono(NSEC, p, rate); } }
    Distribute(p, 1, rate);
    DivUnique((p + 1) * rate, NSEC, 1);
  }

  lemma DripExtend(rate: nat, calls: seq<Call>, anchor: nat, granted: nat)
    requires 1 < rate < NSEC && NSEC % rate != 0 && 0 < anchor
    requires Ordered(1, calls) && Clock(1, calls) <= anchor + 1
    requires Run(Bucket(1, 1), calls, rate, 1) == Outcome(Bucket(0, anchor), granted)
    ensures var now := anchor + Price(rate) + 1;
            && Ordered(1, calls + [Call(now, 1)]) && Clock(1, calls + [Call(now, 1)]) == now
            && Run(Bucket(1, 1), calls + [Call(now, 1)], rate, 1) == Outcome(Bucket(0, now - 1), granted + 1)
  {
    RunSnoc(Bucket(1, 1), calls, Call(anchor + Price(rate) + 1, 1), rate, 1);
    DripStep(rate, anchor);
  }

  /** Polling one nanosecond past each rounded-down price earns one token every Price nanoseconds. */
  lemma {:induction false} Drip(rate: nat, n: nat) returns (calls: seq<Call>)
    requires 1 < rate < NSEC && NSEC % rate != 0
    ensures Ordered(1, calls) && Clock(1, calls) <= n * Price(rate) + 2
    ensures Run(Bucket(1, 1), calls, rate, 1) == Outcome(Bucket(0, 1 + n * Price(rate)), n + 1)
  {
    var b0 := Bucket(1, 1);
    if n == 0 {
      calls := [] + [Call(1, 1)];
      RunSnoc(b0, [], Call(1, 1), rate, 1);
    } else {
      var p := Price(rate);
      var prev := Drip(rate, n - 1);
      var anchor := 1 + (n - 1) * p;
      Distribute(n - 1, 1, p);
      var c := Call(anchor + p + 1, 1);
      DripExtend(rate, prev, anchor, n);
      calls := prev + [c];
    }
  }

  lemma DripTooFast(rate: nat)
    requires 1 < rate < NSEC && NSEC % rate != 0
    ensures (rate + 1) * NSEC > ((rate + 1) * Price(rate) + 1) * rate
  {
    var n, p, rem := rate + 1, Price(rate), NSEC % rate;
    assert NSEC == p * rate + rem;
    Distribute(n * p, 1, rate);
    assert n * NSEC == n * (p * rate) + n * rem;
    assert n * (p * rate) == (n * p) * rate;
    MulMono(1, rem, n);
  }

  /** With a rate above 1e9 the charge can round to nothing and the anchor stands still. */
  lemma SpinStep(rate: nat, tokens: nat)
    requires NSEC < rate <= RATE_MAX && rate % NSEC != 0 && tokens <= 1
    ensures Step(Bucket(tokens, 1), Call(2, 1), rate, 1) == (Bucket(0, 1), true)
  {
    var k := rate / NSEC;
    FloorBounds(rate, NSEC);
    DivUnique(k * NSEC, rate, 0);
  }

  /** Polling again and again in the same nanosecond is granted every time. */
  lemma {:induction false} Spin(rate: nat, n: nat) returns (calls: seq<Call>)
    requires NSEC < rate <= RATE_MAX && rate % NSEC != 0
    ensures Ordered(1, calls) && Clock(1, calls) <= 2
    ensures var o := Run(Bucket(1, 1), calls, rate, 1); o.granted == n && o.bucket.anchor == 1 && o.bucket.tokens <= 1
  {
    if n == 0 {
      calls := [];
    } else {
      var prev := Spin(rate, n - 1);
      RunSnoc(Bucket(1, 1), prev, Call(2, 1), rate, 1);
      SpinStep(rate, Run(Bucket(1, 1), prev, rate, 1).bucket.tokens);
      calls := prev + [Call(2, 1)];
    }
  }

  /** A rate the anchor cannot represent, or none at all, is exceeded by some run of a freshly initialised bucket. */
  lemma InexactRateIsExceeded(rate: nat) returns (calls: seq<Call>)
    requires !Exact(Effective(rate))
    ensures Ordered(1, calls) && !WithinRate(Bucket(1, 1), calls, rate, 1)
  {
    EffectiveRange(rate);
    if rate == 0 {
      calls := [] + [Call(1, 2)];
      RunSnoc(Bucket(1, 1), [], Call(1, 2), rate, 1);
    } else if rate < NSEC {
      calls := Drip(rate, rate + 1);
      DripTooFast(rate);
      var elapsed := Clock(1, calls) - 1;
      if elapsed >= 0 {
        MulMono(elapsed, (rate + 1) * Price(rate) + 1, rate);
      }
    } else {
      calls := Spin(rate, 6);
      if Clock(1, calls) == 2 { assert 6 * NSEC > NSEC + rate; }
    }
  }

  /** The limiter enforces its nominal rate on every run exactly for the rates whose price, once clamped, rounds to itself. */
  lemma RateLawIff(rate: nat)
    ensures RateLaw(rate) <==> Exact(Effective(rate))
  {
    if Exact(Effective(rate)) {
      forall b0: Bucket, calls: seq<Call>, burst: nat | Started(b0, burst) && Ordered(b0.anchor, calls)
        ensures WithinRate(b0, calls, rate, burst)
      {
        ExactRunIsWithin(b0, calls, rate, burst);
      }
    } else {
      var calls := InexactRateIsExceeded(rate);
      assert Started(Bucket(1, 1), 1);
    }
  }

  lemma ExactRunIsWithin(b0: Bucket, calls: seq<Call>, rate: nat, burst: nat)
    requires Exact(Effective(rate)) && Started(b0, burst) && Ordered(b0.anchor, calls)
    ensures WithinRate(b0, calls, rate, burst)
  {
    hide Run, Exact, Effective;
    RunExact(b0, calls, rate, burst);
    EffectiveRange(rate);
    var o := Run(b0, calls, rate, burst);
    var elapsed := Clock(b0.anchor, calls) - b0.anchor;
    MulMono(o.bucket.anchor - b0.anchor, elapsed, Effective(rate));
    MulMono(Effective(rate), rate, elapsed);
  }
}
