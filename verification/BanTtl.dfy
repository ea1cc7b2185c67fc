/** Escalating ban TTLs: the C helper, its Python port, and where the two part. */
module BanTtls {
  import opened Words

  /** The floor and the ceiling the code actually uses. */
  function Floor(base: nat): nat {
    if base == 0 then 1 else base
  }

  function Ceiling(base: nat, max: nat): nat {
    Max(Floor(base), max)
  }

  /** One offence's raw TTL: the division comes first. */
  function Scaled(cur: nat, num: nat, den: nat): nat
    requires den > 0
  {
    (cur / den) * num
  }

  /** caly_ban_next_ttl: the product is a 64-bit one. */
  function NextTtl(cur: u64, base_ns: u64, max_ns: u64, num: u32, den: u32): u64 {
    var base: u64 := if base_ns == 0 then 1 else base_ns;
    var max: u64 := if max_ns < base then base else max_ns;
    if cur < base then base
    else if den == 0 || num <= den then (if cur > max then max else cur)
    else if cur > max then max
    else
      Settled(Wrap64(Scaled(cur, num, den)), cur, max)
  }

  /** The escalated TTL: not below the current one, not above the ceiling. */
  function Settled(product: nat, cur: nat, max: nat): nat {
    var next := if product < cur then cur else product;
    if next > max then max else next
  }

  /** The watcher's port: the same clauses over unbounded integers. */
  function NextTtlPython(cur: nat, base_ns: nat, max_ns: nat, num: nat, den: nat): nat {
    var base := if base_ns == 0 then 1 else base_ns;
    var max := if max_ns < base then base else max_ns;
    if cur < base then base
    else if den == 0 || num <= den then (if cur > max then max else cur)
    else if cur > max then max
    else
      Settled(Scaled(cur, num, den), cur, max)
  }

  /** The branch that multiplies. */
  predicate Escalates(cur: nat, base: nat, max: nat, num: nat, den: nat) {
    0 < den < num && Floor(base) <= cur <= Ceiling(base, max)
  }

  /** Even when the product wraps, the TTL stays in the normalised range and is never shortened inside it. */
  lemma TtlInRange(cur: u64, base: u64, max: u64, num: u32, den: u32)
    ensures var t := NextTtl(cur, base, max, num, den);
            && Floor(base) <= t <= Ceiling(base, max)
            && (cur <= Ceiling(base, max) ==> t >= cur)
            && (!Escalates(cur, base, max, num, den) ==> t == Max(Floor(base), Min(cur, Ceiling(base, max))))
  {
  }

  /** The two implementations agree exactly when the product fits, or wraps to something the ceiling cuts anyway. */
  lemma AgreeIff(cur: u64, base: u64, max: u64, num: u32, den: u32)
    ensures NextTtl(cur, base, max, num, den) == NextTtlPython(cur, base, max, num, den)
            <==> (|| !Escalates(cur, base, max, num, den)
                  || cur == Ceiling(base, max)
                  || Scaled(cur, num, den) < U64
                  || Scaled(cur, num, den) % U64 >= Ceiling(base, max))
  {
    if Escalates(cur, base, max, num, den) {
      SettledAgree(Scaled(cur, num, den), cur, Ceiling(base, max));
      hide Scaled;
    }
  }

  lemma SettledAgree(product: nat, cur: u64, max: u64)
    requires cur <= max
    ensures Settled(Wrap64(product), cur, max) == Settled(product, cur, max)
            <==> cur == max || product < U64 || product % U64 >= max
  {
  }

  /** A TTL of 2^63 ns doubled under an unlimited ceiling: the C helper stalls, the port jumps to the ceiling. */
  lemma WrapStalls()
    ensures var cur: u64 := 0x8000_0000_0000_0000;
            && NextTtl(cur, 1, U64 - 1, 2, 1) == cur
            && NextTtlPython(cur, 1, U64 - 1, 2, 1) == U64 - 1
  {
    assert Wrap64(Scaled(0x8000_0000_0000_0000, 2, 1)) == 0;
  }

  lemma ScaledGrowsIff(cur: nat, num: nat, den: nat)
    requires 0 < den < num
    ensures Scaled(cur, num, den) > cur <==> Scaled(cur, num - den, den) > cur % den
  {
    var q := cur / den;
    assert cur == q * den + cur % den;
    Distribute(num - den, den, q);
  }

  /** With the product in range, an offence lengthens the ban exactly when the division loses less than the factor gains. */
  lemma GrowsIff(cur: u64, base: u64, max: u64, num: u32, den: u32)
    requires Escalates(cur, base, max, num, den) && Scaled(cur, num, den) < U64
    ensures NextTtl(cur, base, max, num, den) > cur
            <==> cur < Ceiling(base, max) && Scaled(cur, num - den, den) > cur % den
  {
    hide Scaled;
    ScaledGrowsIff(cur, num, den);
  }

  lemma ScaledMono(cur: nat, top: nat, num: nat, den: nat)
    requires 0 < den && cur <= top
    ensures Scaled(cur, num, den) <= Scaled(top, num, den)
  {
    DivMono(cur, top, den);
    MulMono(cur / den, top / den, num);
  }

  lemma QuotientBeatsRemainder(cur: nat, den: nat, gain: nat)
    requires 0 < den && den * den <= cur && 0 < gain
    ensures Scaled(cur, gain, den) > cur % den
  {
    DivMono(den * den, cur, den);
    DivCancel(den, den);
    MulMono(1, gain, cur / den);
  }

  /** From a base of at least den*den every offence below the ceiling counts, and the ceiling is a resting point. */
  lemma OffenceStep(cur: u64, base: u64, max: u64, num: u32, den: u32)
    requires Escalates(cur, base, max, num, den) && den * den <= Floor(base)
    requires Scaled(Ceiling(base, max), num, den) < U64
    ensures var t := NextTtl(cur, base, max, num, den);
            if cur < Ceiling(base, max) then cur < t <= Ceiling(base, max) else t == cur
  {
    hide Scaled;
    TtlInRange(cur, base, max, num, den);
    ScaledMono(cur, Ceiling(base, max), num, den);
    QuotientBeatsRemainder(cur, den, num - den);
    GrowsIff(cur, base, max, num, den);
  }

  /** The TTL after n offences, each committed once the previous ban has expired. */
  ghost function AfterOffences(n: nat, cur: u64, base: u64, max: u64, num: u32, den: u32): u64 {
    if n == 0 then cur else NextTtl(AfterOffences(n - 1, cur, base, max, num, den), base, max, num, den)
  }

  /** Repeated offences lengthen the ban at every step until it rests at the ceiling. */
  lemma {:induction false} OffencesReachCeiling(n: nat, base: u64, max: u64, num: u32, den: u32)
    requires 0 < den < num && den * den <= Floor(base)
    requires Scaled(Ceiling(base, max), num, den) < U64
    ensures var t := AfterOffences(n, Floor(base), base, max, num, den);
            var t' := AfterOffences(n + 1, Floor(base), base, max, num, den);
            && Min(Floor(base) + n, Ceiling(base, max)) <= t <= Ceiling(base, max)
            && (if t < Ceiling(base, max) then t < t' <= Ceiling(base, max) else t' == t)
  {
    hide Scaled, NextTtl;
    if n > 0 { OffencesReachCeiling(n - 1, base, max, num, den); }
    OffenceStep(AfterOffences(n, Floor(base), base, max, num, den), base, max, num, den);
  }

  /** n is within num for every whole den in cur. */
  predicate WithinWhole(q: nat, cur: nat, num: nat, den: nat, n: nat) {
    q * den <= cur && n <= q * num
  }

  lemma ScaledIff(cur: nat, num: nat, den: nat, n: nat)
    requires den > 0
    ensures n <= Scaled(cur, num, den) <==> exists q: nat :: WithinWhole(q, cur, num, den, n)
  {
    FloorBounds(cur, den);
    if n <= Scaled(cur, num, den) {
      assert WithinWhole(cur / den, cur, num, den, n);
    }
    forall q: nat | WithinWhole(q, cur, num, den, n)
      ensures n <= Scaled(cur, num, den)
    {
      if q > cur / den { MulMono(cur / den + 1, q, den); }
      MulMono(q, cur / den, num);
    }
  }

  /** Where the product fits, an escalated ban reaches n exactly within the ceiling, and within the current TTL or num for every whole den in it. */
  lemma EscalatedIff(cur: u64, base: u64, max: u64, num: u32, den: u32, n: nat)
    requires Escalates(cur, base, max, num, den) && Scaled(cur, num, den) < U64
    ensures n <= NextTtl(cur, base, max, num, den) <==>
              n <= Ceiling(base, max) && (n <= cur || exists q: nat :: WithinWhole(q, cur, num, den, n))
  {
    hide Scaled, WithinWhole;
    ScaledIff(cur, num, den, n);
  }

  /** What the comment promises before the ceiling: the product comes first. */
  function Promised(cur: nat, num: nat, den: nat): nat
    requires den > 0
  {
    cur * num / den
  }

  /** What the code's division drops of the product. */
  function Lost(cur: nat, num: nat, den: nat): nat
    requires den > 0
  {
    (cur % den) * num
  }

  lemma SplitProduct(q: nat, r: nat, num: nat, den: nat)
    ensures (q * den + r) * num == (q * num) * den + r * num
  {
    Distribute(q * den, r, num);
    assert (q * den) * num == (q * num) * den;
  }

  lemma QuotientOfSum(a: nat, x: nat, den: nat)
    requires den > 0
    ensures (a * den + x) / den == a + x / den
  {
    FloorBounds(x, den);
    Distribute(a, x / den, den);
    DivUnique(a * den + x, den, a + x / den);
  }

  lemma PromisedIs(cur: nat, num: nat, den: nat)
    requires den > 0
    ensures Promised(cur, num, den) == Scaled(cur, num, den) + Lost(cur, num, den) / den
  {
    SplitProduct(cur / den, cur % den, num, den);
    QuotientOfSum((cur / den) * num, (cur % den) * num, den);
    assert cur == (cur / den) * den + cur % den;
  }

  /**
   * The comment promises ttl * num / den up to the ceiling.  As the code divides
   * first, that holds exactly when less than one unit is lost, the ceiling hides
   * the loss, or the promise itself does not lengthen the ban; the C helper
   * follows its port wherever the two agree.
   */
  lemma PromiseIff(cur: nat, base: nat, max: nat, num: nat, den: nat)
    requires Escalates(cur, base, max, num, den)
    ensures NextTtlPython(cur, base, max, num, den) == Min(Promised(cur, num, den), Ceiling(base, max)) <==>
              || Lost(cur, num, den) < den
              || Scaled(cur, num, den) >= Ceiling(base, max) || cur == Ceiling(base, max)
              || Promised(cur, num, den) == cur
  {
    hide Scaled, Promised, Lost;
    PromisedIs(cur, num, den);
    PromiseLengthens(cur, num, den);
    WorthNothing(Lost(cur, num, den), den);
  }

  lemma PromiseLengthens(cur: nat, num: nat, den: nat)
    requires 0 < den <= num
    ensures cur <= Promised(cur, num, den)
  {
    MulMono(den, num, cur);
    DivMono(cur * den, cur * num, den);
    DivCancel(cur, den);
  }

  lemma WorthNothing(x: nat, den: nat)
    requires den > 0
    ensures x / den == 0 <==> x < den
  {
    FloorBounds(x, den);
    if x / den > 0 { MulMono(1, x / den, den); }
  }

  /** Five nanoseconds by three halves: 6 instead of 7. */
  lemma PromiseFails()
    ensures NextTtl(5, 1, 100, 3, 2) == 6 && Promised(5, 3, 2) == 7
  {
  }
}
