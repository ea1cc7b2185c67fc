/**
 * Rate baselines of the autotune controller (src/user/autotune.c): the
 * irregular-interval EWMA, the anomaly rule and its severity score.
 */
module Baselines {
  import opened Words

  const METRICS: nat := 12
  const MARKS: nat := 4             // metrics 0..3 carry operator high and low marks
  const HALF64: nat := 0x8000_0000_0000_0000

  /** (a * b) / c through a 128-bit product, cut back to 64 bits; 0 for c == 0. */
  function MulDiv(a: u64, b: u64, c: u64): u64 {
    if c == 0 then 0 else Wrap64(Share(a, b, c))
  }

  function Share(a: nat, b: nat, c: nat): nat
    requires c > 0
  {
    a * b / c
  }

  function EwmaStep(cur: u64, sample: u64, dt: u64, tau: u64): u64 {
    if tau == 0 || dt >= tau then
      sample
    else
      var den := Wrap64(tau + dt);
      if sample >= cur then
        Wrap64(cur + MulDiv(sample - cur, dt, den))
      else
        Wrap64(cur - MulDiv(cur - sample, dt, den))
  }

  predicate Between(a: nat, b: nat, x: nat) {
    Min(a, b) <= x <= Max(a, b)
  }

  lemma QuotientBound(d: nat, dt: nat, den: nat)
    requires 0 < den && dt <= den
    ensures Share(d, dt, den) <= d
  {
    MulMono(dt, den, d);
    DivMono(d * dt, d * den, den);
    DivCancel(d, den);
  }

  lemma QuotientCancels(d: nat, dt: nat)
    requires 0 < d
    ensures Share(d, dt, d) == dt
  {
    DivCancel(dt, d);
  }

  lemma ShareIsSmaller(d: u64, dt: u64, den: u64)
    requires dt <= den
    ensures MulDiv(d, dt, den) <= d
  {
    hide Share;
    if den > 0 {
      QuotientBound(d, dt, den);
    }
  }

  lemma WholeShare(d: u64, dt: u64)
    requires d > 0
    ensures MulDiv(d, dt, d) == dt
  {
    hide Share;
    assert Share(d, dt, d) == dt by { QuotientCancels(d, dt); }
  }

  /** A step never overshoots while the time constant leaves room for the sum of the two intervals. */
  lemma EwmaLandsBetween(cur: u64, sample: u64, dt: u64, tau: u64)
    requires tau <= HALF64
    ensures Between(cur, sample, EwmaStep(cur, sample, dt, tau))
  {
    hide MulDiv;
    if tau != 0 && dt < tau {
      var d: u64 := if sample >= cur then sample - cur else cur - sample;
      ShareIsSmaller(d, dt, tau + dt);
    }
  }

  /** The overshoot that a longer time constant allows: the sum of the two intervals wraps. */
  lemma EwmaOvershoots(tau: u64)
    requires tau > HALF64
    ensures !Between(0, 2 * tau - 1 - U64, EwmaStep(0, 2 * tau - 1 - U64, tau - 1, tau))
  {
    hide MulDiv;
    var den: u64 := 2 * tau - 1 - U64;
    assert Wrap64(tau + (tau - 1)) == den;
    WholeShare(den, tau - 1);
  }

  /** The exact range of time constants for which no step ever overshoots. */
  lemma EwmaBetweenIff(tau: u64)
    ensures (forall cur: u64, sample: u64, dt: u64 :: Between(cur, sample, EwmaStep(cur, sample, dt, tau)))
            <==> tau <= HALF64
  {
    hide EwmaStep, Between;
    if tau <= HALF64 {
      forall cur: u64, sample: u64, dt: u64
        ensures Between(cur, sample, EwmaStep(cur, sample, dt, tau))
      {
        EwmaLandsBetween(cur, sample, dt, tau);
      }
    } else {
      var den: u64, dt: u64 := 2 * tau - 1 - U64, tau - 1;
      EwmaOvershoots(tau);
      assert !Between(0, den, EwmaStep(0, den, dt, tau));
    }
  }

  datatype Track = Track(short: u64, med: u64, long: u64, cur: u64, peak: u64, samples: u32, anomalous: bool)

  datatype Windows = Windows(short: u64, med: u64, long: u64)

  /** One sample into one metric; a frozen long window keeps its value. */
  function Tracked(t: Track, v: u64, dt: u64, w: Windows, frozen: bool): Track {
    t.(cur := v,
       peak := Max(t.peak, v),
       short := if t.samples == 0 then v else EwmaStep(t.short, v, dt, w.short),
       med := if t.samples == 0 then v else EwmaStep(t.med, v, dt, w.med),
       long := if t.samples == 0 then v
               else if frozen then t.long
               else EwmaStep(t.long, v, dt, w.long),
       samples := if t.samples == U32 - 1 then t.samples else t.samples + 1)
  }

  datatype Rule = Rule(mult: u32, floor: u64)

  type Rules = r: seq<Rule> | |r| == METRICS witness seq(METRICS, i => Rule(0, 0))
  type Rates = r: seq<u64> | |r| == METRICS witness seq(METRICS, i => 0)
  type Tracks = r: seq<Track> | |r| == METRICS witness seq(METRICS, i => Track(0, 0, 0, 0, 0, 0, false))
  type MarkSet = r: seq<u64> | |r| == MARKS witness seq(MARKS, i => 0)

  function Threshold(long: u64, rule: Rule): u64 {
    if rule.mult == 0 then 0 else Max(MulDiv(long, rule.mult, 10), rule.floor)
  }

  predicate Over(rule: Rule, long: u64, v: u64) {
    var thr := Threshold(long, rule);
    thr != 0 && v > thr
  }

  /** 100% over the threshold scores 25, 400% over scores 100. */
  function Score(rule: Rule, long: u64, v: u64): (s: nat)
    ensures s <= 100
  {
    if !Over(rule, long, v) then 0
    else
      var pct := Min(MulDiv(v, 100, Threshold(long, rule)), 100000);
      if pct <= 100 then 0 else Min((pct - 100) / 4, 100)
  }

  /** The metrics among the first n whose sample is anomalous. */
  function Anomalies(rules: Rules, tracks: Tracks, v: Rates, n: nat): (s: set<nat>)
    requires n <= METRICS
  {
    set m | 0 <= m < n && Over(rules[m], tracks[m].long, v[m])
  }

  function Worst(rules: Rules, tracks: Tracks, v: Rates, n: nat): nat
    requires n <= METRICS
  {
    if n == 0 then 0
    else Max(Worst(rules, tracks, v, n - 1), Score(rules[n - 1], tracks[n - 1].long, v[n - 1]))
  }

  lemma {:induction false} WorstIsMaximum(rules: Rules, tracks: Tracks, v: Rates, n: nat)
    requires n <= METRICS
    ensures forall m :: 0 <= m < n ==> Score(rules[m], tracks[m].long, v[m]) <= Worst(rules, tracks, v, n) <= 100
    ensures Anomalies(rules, tracks, v, n) == {} ==> Worst(rules, tracks, v, n) == 0
    ensures Worst(rules, tracks, v, n) <= 100
    ensures n > 0 ==> exists m :: 0 <= m < n && Score(rules[m], tracks[m].long, v[m]) == Worst(rules, tracks, v, n)
  {
    hide Score, Over;
    if n > 0 {
      WorstIsMaximum(rules, tracks, v, n - 1);
      assert Score(rules[n - 1], tracks[n - 1].long, v[n - 1]) >= 0;
      AnomaliesGrow(rules, tracks, v, n - 1);
      if Anomalies(rules, tracks, v, n) == {} {
        assert n - 1 !in Anomalies(rules, tracks, v, n);
        Unscored(rules[n - 1], tracks[n - 1].long, v[n - 1]);
      }
    }
  }

  lemma Unscored(rule: Rule, long: u64, v: u64)
    ensures !Over(rule, long, v) ==> Score(rule, long, v) == 0
  {
  }

  /** Operator high marks apply from the first sample on. */
  predicate AbsHigh(hi: MarkSet, v: Rates) {
    exists i :: 0 <= i < MARKS && hi[i] != 0 && v[i] > hi[i]
  }

  /** Every set low mark is undercut. */
  predicate BelowLow(lo: MarkSet, v: Rates) {
    forall i :: 0 <= i < MARKS && lo[i] != 0 ==> v[i] < lo[i]
  }

  function Severity(worst: nat, count: nat, absHigh: bool, sevAttack: nat): nat {
    var several := if count > 1 then Min(worst + (count - 1) * 8, 100) else worst;
    Min(if absHigh then Max(several, sevAttack) else several, 100)
  }

  function SeverityOf(rules: Rules, tracks: Tracks, v: Rates, hi: MarkSet, sevAttack: nat): nat {
    Severity(Worst(rules, tracks, v, METRICS), |Anomalies(rules, tracks, v, METRICS)|, AbsHigh(hi, v), sevAttack)
  }

  lemma AnomaliesGrow(rules: Rules, tracks: Tracks, v: Rates, n: nat)
    requires n < METRICS
    ensures Anomalies(rules, tracks, v, n + 1)
            == Anomalies(rules, tracks, v, n) + (if Over(rules[n], tracks[n].long, v[n]) then {n} else {})
    ensures n !in Anomalies(rules, tracks, v, n)
  {
  }

  /** The same tracks with the anomaly marks of this sample. */
  predicate Marked(rules: Rules, before: Tracks, v: Rates, after: Tracks, n: nat)
    requires n <= METRICS
  {
    && (forall m :: 0 <= m < n ==> after[m] == before[m].(anomalous := Over(rules[m], before[m].long, v[m])))
    && (forall m :: n <= m < METRICS ==> after[m] == before[m])
  }

  /** Anomaly detection over all metrics, against the baselines as they stand. */
  method Detect(rules: Rules, tracks: array<Track>, v: Rates, hi: MarkSet, sevAttack: nat)
      returns (anomalies: set<nat>, absHigh: bool, severity: nat)
    requires tracks.Length == METRICS
    modifies tracks
    ensures anomalies == Anomalies(rules, old(tracks[..]), v, METRICS)
    ensures absHigh == AbsHigh(hi, v)
    ensures severity == SeverityOf(rules, old(tracks[..]), v, hi, sevAttack)
    ensures Marked(rules, old(tracks[..]), v, tracks[..], METRICS)
  {
    hide Score, Threshold, Over, MulDiv, Severity;
    ghost var before := tracks[..];
    anomalies, absHigh := {}, false;
    var worst, count := 0, 0;
    for m := 0 to METRICS
      invariant anomalies == Anomalies(rules, before, v, m) && count == |anomalies|
      invariant worst == Worst(rules, before, v, m)
      invariant Marked(rules, before, v, tracks[..], m)
    {
      AnomaliesGrow(rules, before, v, m);
      assert tracks[m] == before[m];
      var over := Over(rules[m], tracks[m].long, v[m]);
      var s := Score(rules[m], tracks[m].long, v[m]);
      tracks[m] := tracks[m].(anomalous := over);
      if over {
        anomalies := anomalies + {m};
        count := count + 1;
      } else {
        Unscored(rules[m], before[m].long, v[m]);
      }
      if s > worst { worst := s; }
    }
    for i := 0 to MARKS
      invariant absHigh <==> exists j :: 0 <= j < i && hi[j] != 0 && v[j] > hi[j]
    {
      if hi[i] != 0 && v[i] > hi[i] { absHigh := true; }
    }
    severity := Severity(worst, count, absHigh, sevAttack);
  }

  /** Every metric takes its sample; the long windows move only when not frozen. */
  method UpdateTracks(tracks: array<Track>, v: Rates, dt: u64, w: Windows, frozen: bool)
    requires tracks.Length == METRICS
    modifies tracks
    ensures forall m :: 0 <= m < METRICS ==> tracks[m] == Tracked(old(tracks[m]), v[m], dt, w, frozen)
  {
    hide Tracked;
    for m := 0 to METRICS
      invariant forall j :: 0 <= j < m ==> tracks[j] == Tracked(old(tracks[j]), v[j], dt, w, frozen)
      invariant forall j :: m <= j < METRICS ==> tracks[j] == old(tracks[j])
    {
      tracks[m] := Tracked(tracks[m], v[m], dt, w, frozen);
    }
  }

  // ------------------------------------------------------------------------
  // Exact readings of the arithmetic
  // ------------------------------------------------------------------------

  lemma ShareIff(a: nat, b: nat, c: nat, k: nat)
    requires c > 0
    ensures k <= Share(a, b, c) <==> k * c <= a * b
  {
    var x := a * b;
    FloorBounds(x, c);
    if k <= x / c { MulMono(k, x / c, c); } else { MulMono(x / c + 1, k, c); }
  }

  function Distance(a: nat, b: nat): nat {
    if a <= b then b - a else a - b
  }

  /** How far a step moves: the share of the distance that the interval has of interval and time constant, rounded down. */
  lemma EwmaMovesIff(cur: u64, sample: u64, dt: u64, tau: u64, k: nat)
    requires tau <= HALF64
    ensures k <= Distance(cur, EwmaStep(cur, sample, dt, tau)) <==>
              if dt >= tau then k <= Distance(cur, sample) else k * (tau + dt) <= Distance(cur, sample) * dt
  {
    if dt < tau {
      hide MulDiv;
      var d: u64 := Distance(cur, sample);
      ShareIsSmaller(d, dt, tau + dt);
      ShareFits(d, dt, tau + dt);
      ShareIff(d, dt, tau + dt, k);
    }
  }

  lemma ShareFits(d: u64, dt: u64, den: u64)
    requires 0 < den && dt <= den
    ensures MulDiv(d, dt, den) == Share(d, dt, den)
  {
    hide Share;
    QuotientBound(d, dt, den);
  }

  /** The product behind the relative threshold fits its 64 bits. */
  predicate RelativeFits(rule: Rule, long: u64) {
    long * rule.mult < 10 * U64
  }

  /** What the rule promises: above the floor and above so many tenths of the baseline, if there is a threshold at all. */
  predicate Excessive(rule: Rule, long: u64, v: u64) {
    && rule.mult != 0 && (rule.floor != 0 || long * rule.mult >= 10)
    && v > rule.floor && 10 * v > long * rule.mult
  }

  lemma OverIff(rule: Rule, long: u64, v: u64)
    requires RelativeFits(rule, long)
    ensures Over(rule, long, v) <==> Excessive(rule, long, v)
  {
    hide Share;
    ShareIff(long, rule.mult, 10, v);
    ShareIff(long, rule.mult, 10, 1);
    ShareIff(long, rule.mult, 10, U64);
  }

  /** The rule is kept for every sample exactly when the product fits; wrapped, only a threshold that nothing exceeds keeps it. */
  lemma RuleKeptIff(rule: Rule, long: u64)
    ensures (forall v: u64 :: Over(rule, long, v) <==> Excessive(rule, long, v)) <==>
              RelativeFits(rule, long) || Threshold(long, rule) in {0, U64 - 1}
  {
    if RelativeFits(rule, long) {
      forall v: u64
        ensures Over(rule, long, v) <==> Excessive(rule, long, v)
      {
        OverIff(rule, long, v);
      }
    } else {
      hide MulDiv;
      var v: u64 := U64 - 1;
      assert !Excessive(rule, long, v);
      assert Over(rule, long, v) <==> Threshold(long, rule) !in {0, U64 - 1};
    }
  }

  /** A baseline of 2^63 and a multiple of 2: the threshold wraps to the floor. */
  lemma ThresholdWraps()
    ensures var rule := Rule(20, 1);
            Over(rule, HALF64, 2) && !Excessive(rule, HALF64, 2)
  {
    assert HALF64 * 20 / 10 == U64;
  }

  /** The quotient behind the score fits its 64 bits. */
  predicate ScoreFits(rule: Rule, long: u64, v: u64) {
    v * 100 < Threshold(long, rule) * U64
  }

  /** A score of at least k promises a sample 4k percent over its threshold. */
  predicate Deserves(rule: Rule, long: u64, v: u64, k: nat) {
    Over(rule, long, v) && k <= 100 && (100 + 4 * k) * Threshold(long, rule) <= v * 100
  }

  function Points(pct: nat): nat {
    var p := Min(pct, 100000);
    if p <= 100 then 0 else Min((p - 100) / 4, 100)
  }

  lemma PointsIff(pct: nat, k: nat)
    requires 0 < k
    ensures k <= Points(pct) <==> k <= 100 && 100 + 4 * k <= pct
  {
  }

  lemma ScoreIsPoints(rule: Rule, long: u64, v: u64)
    requires Over(rule, long, v)
    ensures Score(rule, long, v) == Points(Share(v, 100, Threshold(long, rule)) % U64)
  {
    hide Share, Threshold;
  }

  lemma ScoreIff(rule: Rule, long: u64, v: u64, k: nat)
    requires ScoreFits(rule, long, v) && 0 < k
    ensures k <= Score(rule, long, v) <==> Deserves(rule, long, v, k)
  {
    hide Share, Threshold, Points, Score;
    var thr := Threshold(long, rule);
    NotOverNoScore(rule, long, v);
    if Over(rule, long, v) {
      ShareIff(v, 100, thr, 100 + 4 * k);
      ShareIff(v, 100, thr, U64);
      ScoreIsPoints(rule, long, v);
      PointsIff(Share(v, 100, thr), k);
    }
  }

  /** An overwhelming sample against a threshold of 1: the quotient wraps and it scores nothing. */
  lemma ScoreWraps()
    ensures var rule := Rule(1, 1);
            Score(rule, 0, HALF64) == 0 && Deserves(rule, 0, HALF64, 100)
  {
    assert HALF64 * 100 / 1 == 50 * U64;
    assert MulDiv(HALF64, 100, 1) == 0;
  }

  lemma NotOverNoScore(rule: Rule, long: u64, v: u64)
    ensures !Over(rule, long, v) ==> Score(rule, long, v) == 0
  {
  }

  /** The score is as deserved at every level. */
  ghost predicate ScoreKept(rule: Rule, long: u64, v: u64) {
    forall k: nat :: 0 < k ==> (k <= Score(rule, long, v) <==> Deserves(rule, long, v, k))
  }

  /** That holds exactly when the quotient fits, or wraps to five times the threshold or more. */
  lemma ScoreKeptIff(rule: Rule, long: u64, v: u64)
    requires Over(rule, long, v)
    ensures ScoreKept(rule, long, v) <==>
              ScoreFits(rule, long, v) || Share(v, 100, Threshold(long, rule)) % U64 >= 500
  {
    hide Share, Threshold, Score, Deserves;
    if ScoreFits(rule, long, v) {
      forall k: nat | 0 < k
        ensures k <= Score(rule, long, v) <==> Deserves(rule, long, v, k)
      {
        ScoreIff(rule, long, v, k);
      }
    } else {
      WrappedScore(rule, long, v);
      assert Deserves(rule, long, v, 100);
    }
  }

  lemma WrappedScore(rule: Rule, long: u64, v: u64)
    requires Over(rule, long, v) && !ScoreFits(rule, long, v)
    ensures forall k: nat :: Deserves(rule, long, v, k) <==> k <= 100
    ensures 100 <= Score(rule, long, v) <==> Share(v, 100, Threshold(long, rule)) % U64 >= 500
    ensures Score(rule, long, v) <= 100
  {
    hide Share, Threshold, Score, Points;
    var thr := Threshold(long, rule);
    forall k: nat | k <= 100
      ensures (100 + 4 * k) * thr <= v * 100
    {
      MulMono(100 + 4 * k, U64, thr);
    }
    ScoreIsPoints(rule, long, v);
    PointsIff(Share(v, 100, thr) % U64, 100);
  }

  /** Severity at least k: the worst score and eight points per further anomaly, or an absolute mark. */
  lemma SeverityIff(worst: nat, count: nat, absHigh: bool, sevAttack: nat, k: nat)
    requires worst <= 100
    ensures k <= Severity(worst, count, absHigh, sevAttack) <==>
              k <= 100 && (k + 8 <= worst + 8 * Max(count, 1) || (absHigh && k <= sevAttack))
  {
  }
}
