/** One's complement arithmetic of checksum.h and the incremental checksum update. */
module OnesComplement {
  import opened Words

  const ONES: nat := 0xFFFF
  const ONES32: nat := 0xFFFF_FFFF

  // ------------------------------------------------------------------------
  // The C helpers
  // ------------------------------------------------------------------------

  /** caly_csum_add: 32-bit addition with the carry folded back in. */
  function CsumAdd(csum: u32, addend: u32): u32 {
    var s: u32 := (csum + addend) % 0x1_0000_0000;
    if s < addend then (s + 1) % 0x1_0000_0000 else s
  }

  function CsumSub(csum: u32, addend: u32): u32 {
    CsumAdd(csum, ONES32 - addend)
  }

  function FoldOnce(csum: u32): u32 {
    csum % 0x1_0000 + csum / 0x1_0000
  }

  /** caly_csum_fold_partial: two folds, no complement. */
  function FoldPartial(csum: u32): u16 {
    FoldOnce(FoldOnce(csum)) % 0x1_0000
  }

  /** caly_csum_fold. */
  function Fold(csum: u32): u16 {
    ONES - FoldPartial(csum)
  }

  function Replace2(sum: u16, from: u16, to: u16): u16 {
    Fold(CsumAdd(CsumSub(ONES32 - sum, from), to))
  }

  function Replace4(sum: u16, from: u32, to: u32): u16 {
    Fold(CsumAdd(CsumSub(ONES32 - sum, from), to))
  }

  /** caly_csum_replace16: subtract every old word, then add every new one. */
  method Replace16(sum: u16, from: seq<u32>, to: seq<u32>) returns (r: u16)
    requires |from| == |to| == 4
    ensures r == ReplaceAll(sum, from, to)
  {
    var tmp: u32 := ONES32 - sum;
    var i := 0;
    while i < 4
      invariant 0 <= i <= 4
      invariant tmp == Less(ONES32 - sum, from[..i])
    {
      assert from[..i + 1][..i] == from[..i];
      tmp := CsumSub(tmp, from[i]);
      i := i + 1;
    }
    assert from[..4] == from;
    i := 0;
    while i < 4
      invariant 0 <= i <= 4
      invariant tmp == Plus(Less(ONES32 - sum, from), to[..i])
    {
      assert to[..i + 1][..i] == to[..i];
      tmp := CsumAdd(tmp, to[i]);
      i := i + 1;
    }
    assert to[..4] == to;
    r := Fold(tmp);
  }

  /** Replacing any number of 32-bit words at once. */
  ghost function ReplaceAll(sum: u16, from: seq<u32>, to: seq<u32>): u16 {
    Fold(Plus(Less(ONES32 - sum, from), to))
  }

  ghost function Less(csum: u32, ws: seq<u32>): u32 {
    if ws == [] then csum else CsumSub(Less(csum, ws[..|ws| - 1]), ws[|ws| - 1])
  }

  ghost function Plus(csum: u32, ws: seq<u32>): u32 {
    if ws == [] then csum else CsumAdd(Plus(csum, ws[..|ws| - 1]), ws[|ws| - 1])
  }

  // ------------------------------------------------------------------------
  // The value of a sum: its residue modulo 0xFFFF, zero kept apart
  // ------------------------------------------------------------------------

  /** The one 16-bit word a sum folds to: 0 for an empty sum, otherwise 1..0xFFFF. */
  function Norm(x: nat): u16 {
    if x == 0 then 0 else (x - 1) % 0xFFFF + 1
  }

  /** Same residue and the same side of zero: exactly what folding can see. */
  predicate Same(a: nat, b: nat) {
    a % 0xFFFF == b % 0xFFFF && (a == 0 <==> b == 0)
  }

  lemma NormRange(x: nat)
    ensures Norm(x) % 0xFFFF == x % 0xFFFF
    ensures Norm(x) == 0 <==> x == 0
    ensures Norm(x) == ONES <==> x > 0 && x % 0xFFFF == 0
  {
  }

  /** Folding sees exactly the residue and the side of zero. */
  lemma NormEq(a: nat, b: nat)
    ensures Norm(a) == Norm(b) <==> Same(a, b)
  {
    NormRange(a);
    NormRange(b);
    hide Norm;
  }

  lemma SameRefl(a: nat)
    ensures Same(a, a)
  {
  }

  lemma SameAdd(a: nat, b: nat, c: nat, d: nat)
    requires Same(a, b) && Same(c, d)
    ensures Same(a + c, b + d)
  {
    ModShift(a, b, c);
    ModShift(c, d, b);
  }

  /** One fold keeps the value and at least halves the width. */
  lemma FoldOnceValue(csum: u32)
    ensures Same(FoldOnce(csum), csum)
    ensures FoldOnce(csum) <= 2 * ONES
    ensures csum <= 2 * ONES ==> FoldOnce(csum) <= ONES
  {
    assert csum == FoldOnce(csum) + 0xFFFF * (csum / 0x1_0000);
    ModPeriod(FoldOnce(csum), csum / 0x1_0000);
  }

  /** Two folds suffice: the result is the normal form of the accumulator. */
  lemma FoldIsNorm(csum: u32)
    ensures FoldPartial(csum) == Norm(csum)
  {
    hide FoldOnce, Norm;
    var once := FoldOnce(csum);
    FoldOnceValue(csum);
    FoldOnceValue(once);
    NormRange(csum);
    assert Same(FoldOnce(once), Norm(csum));
    SameWord(FoldOnce(once), Norm(csum));
  }

  lemma SameWord(x: u16, y: u16)
    requires Same(x, y)
    ensures x == y
  {
  }

  /** Carrying addition keeps the value of the sum. */
  lemma AddKeepsValue(a: u32, b: u32)
    ensures CsumAdd(a, b) % 0xFFFF == (a + b) % 0xFFFF
    ensures CsumAdd(a, b) == 0 <==> a + b == 0
  {
    if a + b >= U32 {
      assert a + b == CsumAdd(a, b) + 0xFFFF * 0x1_0001;
      ModPeriod(CsumAdd(a, b), 0x1_0001);
    }
  }

  lemma SubKeepsValue(a: u32, b: u32)
    ensures (CsumSub(a, b) + b) % 0xFFFF == a % 0xFFFF
    ensures a > 0 ==> CsumSub(a, b) > 0
  {
    hide CsumAdd;
    AddKeepsValue(a, ONES32 - b);
    ModShift(CsumSub(a, b), a + (ONES32 - b), b);
    ModPeriod(a, 0x1_0001);
  }

  lemma ModPeriod(x: nat, k: nat)
    ensures (x + 0xFFFF * k) % 0xFFFF == x % 0xFFFF
  {
  }

  lemma AddWithoutCarry(a: u32, b: u32)
    requires a + b < U32
    ensures CsumAdd(a, b) == a + b
  {
  }

  lemma ModShift(a: nat, b: nat, c: nat)
    requires a % 0xFFFF == b % 0xFFFF
    ensures (a + c) % 0xFFFF == (b + c) % 0xFFFF
  {
  }

  // ------------------------------------------------------------------------
  // Incremental update
  // ------------------------------------------------------------------------

  ghost function Total(ws: seq<nat>): nat {
    if ws == [] then 0 else Total(ws[..|ws| - 1]) + ws[|ws| - 1]
  }

  /** A receiver accepts data summing to `data` under the checksum field `hc`. */
  predicate Accepts(data: nat, hc: u16) {
    Norm(data + hc) == ONES
  }

  /** What recomputing from scratch would store. */
  function Checksum(data: nat): u16 {
    ONES - Norm(data)
  }

  lemma ChecksumIsAccepted(data: nat)
    ensures Accepts(data, Checksum(data))
  {
    NormRange(data);
    NormRange(data + Checksum(data));
  }

  lemma {:induction false} LessValue(csum: u32, ws: seq<u32>)
    requires csum > 0
    ensures Less(csum, ws) > 0
    ensures (Less(csum, ws) + Total(ws)) % 0xFFFF == csum % 0xFFFF
  {
    if ws != [] {
      var init := ws[..|ws| - 1];
      hide CsumSub;
      LessValue(csum, init);
      SubKeepsValue(Less(csum, init), ws[|ws| - 1]);
      ModShift(Less(csum, ws) + ws[|ws| - 1], Less(csum, init), Total(init));
    }
  }

  lemma {:induction false} PlusValue(csum: u32, ws: seq<u32>)
    ensures Same(Plus(csum, ws), csum + Total(ws))
  {
    if ws != [] {
      var init := ws[..|ws| - 1];
      hide CsumAdd;
      PlusValue(csum, init);
      AddKeepsValue(Plus(csum, init), ws[|ws| - 1]);
      ModShift(Plus(csum, init), csum + Total(init), ws[|ws| - 1]);
    }
  }

  /**
   * Eqn. 3 of section 3 of RFC 1624 refines recomputation: from any accepted field the update is never the
   * negative zero, and it is the recomputed checksum, hence accepted, exactly when the new data is not all zero.
   */
  lemma UpdateRefines(rest: nat, sum: u16, from: seq<u32>, to: seq<u32>)
    requires Accepts(rest + Total(from), sum)
    ensures var hc := ReplaceAll(sum, from, to);
            && hc != ONES
            && (Accepts(rest + Total(to), hc) <==> rest + Total(to) > 0)
            && (hc == Checksum(rest + Total(to)) <==> rest + Total(to) > 0)
  {
    hide Norm, FoldPartial, Less, Plus, Total;
    var tmp0: u32 := ONES32 - sum;
    var tmp1 := Less(tmp0, from);
    var tmp2 := Plus(tmp1, to);
    LessValue(tmp0, from);
    PlusValue(tmp1, to);
    FoldIsNorm(tmp2);
    NormRange(rest + Total(from) + sum);
    Congruence(rest, sum, Total(from), Total(to), tmp1, tmp2);
    NormRange(tmp2);
    var hc := ReplaceAll(sum, from, to);
    assert hc == ONES - Norm(tmp2);
    ModShift(rest + Total(to), tmp2, hc);
    ModShift(tmp2, Norm(tmp2), hc);
    NormRange(rest + Total(to) + hc);
    NormEq(tmp2, rest + Total(to));
  }

  lemma Congruence(rest: nat, sum: u16, from: nat, to: nat, tmp1: nat, tmp2: nat)
    requires (rest + from + sum) % 0xFFFF == 0
    requires (tmp1 + from) % 0xFFFF == (ONES32 - sum) % 0xFFFF
    requires tmp2 % 0xFFFF == (tmp1 + to) % 0xFFFF
    ensures tmp2 % 0xFFFF == (rest + to) % 0xFFFF
  {
    assert ONES32 == 0xFFFF * 0x1_0001;
    assert (tmp1 + from + sum) % 0xFFFF == 0;
    assert (tmp1 - rest) % 0xFFFF == 0;
  }

  /** Both narrow forms are the general update of one word. */
  lemma NarrowUpdates(sum: u16, from: u32, to: u32)
    ensures Replace4(sum, from, to) == ReplaceAll(sum, [from], [to])
    ensures from < U16 && to < U16 ==> Replace2(sum, from, to) == ReplaceAll(sum, [from], [to])
  {
    hide CsumSub, CsumAdd, Fold;
    assert [from][..0] == [] && [to][..0] == [];
    assert Less(ONES32 - sum, [from]) == CsumSub(ONES32 - sum, from);
    assert Plus(Less(ONES32 - sum, [from]), [to]) == CsumAdd(CsumSub(ONES32 - sum, from), to);
  }
}
