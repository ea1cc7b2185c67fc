/** Checksums over packet bytes: bounded summation, pseudo headers, byte order. */
module InternetChecksum {
  import opened Words
  import opened OnesComplement

  const CSUM_MAX_BYTES: nat := 128
  const NO_SKIP: nat := 0xFFFF_FFFF

  // ------------------------------------------------------------------------
  // Loads and stores; `little` is the byte order of the host
  // ------------------------------------------------------------------------

  function Load16(b0: byte, b1: byte, little: bool): u16 {
    if little then b0 + 0x100 * b1 else 0x100 * b0 + b1
  }

  function Store16(v: u16, little: bool): (bs: seq<byte>)
    ensures |bs| == 2 && Load16(bs[0], bs[1], little) == v
  {
    if little then [v % 0x100, v / 0x100] else [v / 0x100, v % 0x100]
  }

  function Load32(bs: seq<byte>, little: bool): u32
    requires |bs| == 4
  {
    var w0, w1 := Load16(bs[0], bs[1], little), Load16(bs[2], bs[3], little);
    if little then w0 + 0x1_0000 * w1 else 0x1_0000 * w0 + w1
  }

  /** Host order to network order, seen as the native word holding the wire bytes. */
  function Htons(x: u16, little: bool): u16 {
    Load16(x / 0x100, x % 0x100, little)
  }

  /** An odd trailing byte is the high half of a network-order word. */
  function HighByte(b: nat): u16
    requires b < 0x100
  {
    0x100 * b
  }

  function Htonl(x: u32, little: bool): u32 {
    Load32(Wire32(x), little)
  }

  function Wire16(x: u16): (bs: seq<byte>)
    ensures |bs| == 2
  {
    [x / 0x100, x % 0x100]
  }

  function Wire32(x: u32): (bs: seq<byte>)
    ensures |bs| == 4
  {
    Wire16(x / 0x1_0000) + Wire16(x % 0x1_0000)
  }

  // ------------------------------------------------------------------------
  // Reference definitions
  // ------------------------------------------------------------------------

  /** The plain sum of the 16-bit words of a byte string, an odd last byte padded with zero. */
  function WordSum(bs: seq<byte>, little: bool): nat {
    if |bs| == 0 then 0
    else if |bs| == 1 then Load16(bs[0], 0, little)
    else Load16(bs[0], bs[1], little) + WordSum(bs[2..], little)
  }

  /** What a receiver checks, in network order (section 1 of RFC 1071). */
  predicate Verifies(bs: seq<byte>) {
    Norm(WordSum(bs, false)) == ONES
  }

  /** The range with the checksum field read as zero. */
  function Blank(bs: seq<byte>, off: nat): (r: seq<byte>)
    ensures |r| == |bs|
  {
    if off + 2 <= |bs| then bs[..off] + [0, 0] + bs[off + 2..]
    else if off + 1 == |bs| then bs[..off] + [0]
    else bs
  }

  /** The range with a checksum stored in its field. */
  function Stamp(bs: seq<byte>, off: nat, v: u16, little: bool): (r: seq<byte>)
    requires off + 2 <= |bs|
    ensures |r| == |bs|
  {
    bs[..off] + Store16(v, little) + bs[off + 2..]
  }

  // ------------------------------------------------------------------------
  // Facts about word sums
  // ------------------------------------------------------------------------

  lemma {:induction false} WordSumConcat(a: seq<byte>, b: seq<byte>, little: bool)
    requires |a| % 2 == 0
    ensures WordSum(a + b, little) == WordSum(a, little) + WordSum(b, little)
  {
    if a == [] {
      assert a + b == b;
    } else {
      assert (a + b)[2..] == a[2..] + b;
      WordSumConcat(a[2..], b, little);
    }
  }

  lemma {:induction false} WordSumBound(bs: seq<byte>, little: bool)
    ensures WordSum(bs, little) <= ONES * ((|bs| + 1) / 2)
  {
    if |bs| >= 2 { WordSumBound(bs[2..], little); }
  }

  /** Reading every word byte-swapped multiplies the sum by 256 modulo 0xFFFF (section 2 (B) of RFC 1071). */
  lemma {:induction false} SwappedSum(bs: seq<byte>)
    ensures Same(WordSum(bs, false), 0x100 * WordSum(bs, true))
  {
    if |bs| >= 2 {
      SwappedSum(bs[2..]);
      SwappedWord(bs[0], bs[1]);
      SameAdd(Load16(bs[0], bs[1], false), 0x100 * Load16(bs[0], bs[1], true),
              WordSum(bs[2..], false), 0x100 * WordSum(bs[2..], true));
    } else if |bs| == 1 {
      SwappedWord(bs[0], 0);
    }
  }

  lemma SwappedWord(b0: byte, b1: byte)
    ensures Same(Load16(b0, b1, false), 0x100 * Load16(b0, b1, true))
  {
    assert 0x100 * Load16(b0, b1, true) == Load16(b0, b1, false) + 0xFFFF * b1;
    ModPeriod(Load16(b0, b1, false), b1);
  }

  lemma SwapNorm(v: u16)
    ensures Same(Load16(v / 0x100, v % 0x100, true), 0x100 * v)
  {
    assert 0x100 * v == Load16(v / 0x100, v % 0x100, true) + 0xFFFF * (v / 0x100);
    ModPeriod(Load16(v / 0x100, v % 0x100, true), v / 0x100);
  }

  /** Both hosts put the same two bytes on the wire, for every byte string. */
  lemma ByteOrderIndependence(bs: seq<byte>)
    ensures Store16(Checksum(WordSum(bs, true)), true) == Store16(Checksum(WordSum(bs, false)), false)
  {
    SwappedSum(bs);
    SwappedNorm(WordSum(bs, true), WordSum(bs, false));
  }

  lemma SwappedNorm(l: nat, b: nat)
    requires Same(b, 0x100 * l)
    ensures Store16(Checksum(l), true) == Store16(Checksum(b), false)
  {
    var n := Norm(l);
    var swapped := Load16(n / 0x100, n % 0x100, true);
    hide Norm, Store16, Load16;
    NormRange(l);
    NormRange(b);
    SwapNorm(n);
    MulMod(n, l);
    SameWord(swapped, Norm(b));
    StoreSwapped(n);
  }

  lemma StoreSwapped(n: u16)
    ensures Store16(ONES - n, true) == Store16(ONES - Load16(n / 0x100, n % 0x100, true), false)
  {
    var h, l := n / 0x100, n % 0x100;
    assert ONES - n == 0x100 * (0xFF - h) + (0xFF - l);
    assert ONES - Load16(h, l, true) == 0x100 * (0xFF - l) + (0xFF - h);
  }

  lemma MulMod(a: nat, b: nat)
    requires a % 0xFFFF == b % 0xFFFF
    ensures (0x100 * a) % 0xFFFF == (0x100 * b) % 0xFFFF
  {
    var r := a % 0xFFFF;
    ModPeriod(0x100 * r, 0x100 * (a / 0xFFFF));
    ModPeriod(0x100 * r, 0x100 * (b / 0xFFFF));
  }

  /** A packet is accepted in network order exactly when its native sum is. */
  lemma NativeVerifies(bs: seq<byte>, little: bool)
    ensures Verifies(bs) <==> Norm(WordSum(bs, little)) == ONES
  {
    hide WordSum, Norm;
    SwappedSum(bs);
    NormRange(WordSum(bs, true));
    NormRange(WordSum(bs, false));
    ZeroMod(WordSum(bs, true));
  }

  lemma ZeroMod(a: nat)
    ensures (0x100 * a) % 0xFFFF == 0 <==> a % 0xFFFF == 0
  {
    if (0x100 * a) % 0xFFFF == 0 {
      assert a == 0x100 * (0x100 * a) - 0xFFFF * a;
    }
  }

  /** Stamping a field adds its value to the sum of the blanked range. */
  lemma StampSum(bs: seq<byte>, off: nat, v: u16, little: bool)
    requires off % 2 == 0 && off + 2 <= |bs|
    ensures WordSum(Stamp(bs, off, v, little), little) == WordSum(Blank(bs, off), little) + v
  {
    var a, c := bs[..off], bs[off + 2..];
    FieldSum(a, Store16(v, little), c, little);
    FieldSum(a, [0, 0], c, little);
  }

  lemma FieldSum(a: seq<byte>, f: seq<byte>, c: seq<byte>, little: bool)
    requires |a| % 2 == 0 && |f| == 2
    ensures WordSum(a + f + c, little) == WordSum(a, little) + Load16(f[0], f[1], little) + WordSum(c, little)
  {
    assert a + f + c == a + (f + c);
    WordSumConcat(a, f + c, little);
    WordSumConcat(f, c, little);
    assert f[2..] == [];
  }

  /** A 32-bit native load folds to the sum of its two 16-bit words. */
  lemma Load32Value(bs: seq<byte>, little: bool)
    requires |bs| == 4
    ensures Same(Load32(bs, little), WordSum(bs, little))
  {
    var w0: nat, w1: nat := Load16(bs[0], bs[1], little), Load16(bs[2], bs[3], little);
    assert WordSum(bs, little) == w0 + w1 by {
      assert bs[2..][2..] == [];
      assert WordSum(bs[2..], little) == w1;
    }
    var high := if little then w1 else w0;
    assert Load32(bs, little) == w0 + w1 + 0xFFFF * high;
    ModPeriod(w0 + w1, high);
  }

  // ------------------------------------------------------------------------
  // Bounded summation over packet bytes
  // ------------------------------------------------------------------------

  datatype Result = Ok(value: nat) | Inval | Trunc

  predicate BadRange(len: nat, skip: nat) {
    len > CSUM_MAX_BYTES || (skip != NO_SKIP && (skip % 2 == 1 || skip >= len))
  }

  /** A skip offset inside the range names a whole 16-bit word. */
  predicate Aligned(bs: seq<byte>, skip: nat) {
    skip % 2 == 0 || skip >= |bs|
  }

  /** The word loop of caly_csum_range. */
  method SumWords(frame: seq<byte>, start: nat, words: nat, skip: u32, little: bool, ghost bs: seq<byte>)
    returns (r: Result)
    requires start <= |frame| && words <= CSUM_MAX_BYTES / 2 && Aligned(bs, skip)
    requires start + |bs| <= |frame| && bs == frame[start..start + |bs|]
    requires 2 * words <= |bs| || start + |bs| == |frame|
    ensures !r.Inval?
    ensures r.Trunc? <==> start + 2 * words > |frame|
    ensures r.Ok? ==> 2 * words <= |bs| && r.value == WordSum(Blank(bs, skip)[..2 * words], little) <= ONES * words
  {
    ghost var blank := Blank(bs, skip);
    var sum: u32 := 0;
    var i := 0;
    while i < words
      invariant 0 <= i <= words && 2 * i <= |bs|
      invariant sum == WordSum(blank[..2 * i], little) <= ONES * i
    {
      hide WordSum, CsumAdd, Blank;
      var off := i * 2;
      if start + off + 2 > |frame| {
        return Trunc;
      }
      ExtendSum(bs, skip, off, little);
      if off != skip {
        var w := Load16(frame[start + off], frame[start + off + 1], little);
        AddWithoutCarry(sum, w);
        sum := CsumAdd(sum, w);
      }
      i := i + 1;
    }
    r := Ok(sum);
  }

  /** caly_csum_range over frame[start..start + len]. */
  method CsumRange(frame: seq<byte>, start: nat, len: u32, skip: u32, little: bool) returns (r: Result)
    requires start <= |frame|
    ensures r.Inval? <==> BadRange(len, skip)
    ensures r.Trunc? <==> !BadRange(len, skip) && start + len > |frame|
    ensures r.Ok? ==> r.value == WordSum(Blank(frame[start..start + len], skip), little) <= ONES * CSUM_MAX_BYTES
  {
    if len > CSUM_MAX_BYTES {
      return Inval;
    }
    if skip != NO_SKIP && (skip % 2 == 1 || skip >= len) {
      return Inval;
    }
    var words := len / 2;
    r := SumWords(frame, start, words, skip, little, frame[start..Min(start + len, |frame|)]);
    if r.Ok? && len == 2 * words + 1 {
      r := AddLast(frame, start, len, skip, little, r.value);
    }
    assert r.Ok? && len == 2 * words ==>
        Blank(frame[start..start + len], skip)[..2 * words] == Blank(frame[start..start + len], skip);
  }

  /** The odd trailing byte of caly_csum_range. */
  method AddLast(frame: seq<byte>, start: nat, len: u32, skip: u32, little: bool, sum: u32) returns (r: Result)
    requires start <= |frame| && len % 2 == 1 && start + len - 1 <= |frame|
    requires start + len <= |frame| ==> Aligned(frame[start..start + len], skip)
    requires start + len <= |frame| ==> sum == WordSum(Blank(frame[start..start + len], skip)[..len - 1], little)
    requires sum <= ONES * (CSUM_MAX_BYTES - 1)
    ensures !r.Inval? && (r.Trunc? <==> start + len > |frame|)
    ensures r.Ok? ==> r.value == WordSum(Blank(frame[start..start + len], skip), little) <= ONES * CSUM_MAX_BYTES
  {
    var off := len - 1;
    if start + off + 1 > |frame| {
      return Trunc;
    }
    hide WordSum, CsumAdd, Blank;
    LastByte(frame[start..start + len], skip, little);
    if off == skip {
      return Ok(sum);
    }
    var w := Htons(HighByte(frame[start + off]), little);
    AddWithoutCarry(sum, w);
    return Ok(CsumAdd(sum, w));
  }

  lemma ExtendSum(bs: seq<byte>, skip: nat, off: nat, little: bool)
    requires off % 2 == 0 && off + 2 <= |bs| && Aligned(bs, skip)
    ensures var blank := Blank(bs, skip);
            WordSum(blank[..off + 2], little) == WordSum(blank[..off], little) +
                                                 if off == skip then 0 else Load16(bs[off], bs[off + 1], little)
  {
    var blank := Blank(bs, skip);
    var f := [blank[off], blank[off + 1]];
    assert f == if off == skip then [0, 0] else [bs[off], bs[off + 1]];
    assert blank[..off + 2] == blank[..off] + f + [];
    FieldSum(blank[..off], f, [], little);
  }

  lemma LastByte(bs: seq<byte>, skip: nat, little: bool)
    requires |bs| % 2 == 1 && Aligned(bs, skip)
    ensures var off := |bs| - 1;
            var blank := Blank(bs, skip);
            WordSum(blank, little) == WordSum(blank[..off], little) +
                                      if off == skip then 0 else Htons(HighByte(bs[off]), little)
  {
    var off, blank := |bs| - 1, Blank(bs, skip);
    assert blank == blank[..off] + [blank[off]];
    WordSumConcat(blank[..off], [blank[off]], little);
  }

  // ------------------------------------------------------------------------
  // Pseudo headers and complete checksums
  // ------------------------------------------------------------------------

  /** Source, destination, zero, protocol, length (section 3.1 of RFC 9293). */
  function Pseudo4(src: seq<byte>, dst: seq<byte>, proto: byte, l4Len: u16): (bs: seq<byte>)
    ensures |bs| == |src| + |dst| + 4
  {
    src + dst + [0, proto] + Wire16(l4Len)
  }

  /** Source, destination, 32-bit length, three zero bytes, next header (section 8.1 of RFC 8200). */
  function Pseudo6(src: seq<byte>, dst: seq<byte>, nextHdr: byte, l4Len: u32): (bs: seq<byte>)
    ensures |bs| == |src| + |dst| + 8
  {
    src + dst + Wire32(l4Len) + [0, 0] + [0, nextHdr]
  }

  function PseudoCsum4(src: u32, dst: u32, proto: byte, l4Len: u16, little: bool): u32 {
    CsumAdd(CsumAdd(CsumAdd(CsumAdd(0, src), dst), Htons(proto, little)), Htons(l4Len, little))
  }

  ghost function PseudoSum6(src: seq<u32>, dst: seq<u32>, nextHdr: byte, l4Len: u32, little: bool): u32 {
    CsumAdd(CsumAdd(Plus(Plus(0, src), dst), Htonl(l4Len, little)), Htonl(nextHdr, little))
  }

  /** caly_pseudo_csum_v6: the addresses as four network-order words each. */
  method PseudoCsum6(src: seq<u32>, dst: seq<u32>, nextHdr: byte, l4Len: u32, little: bool) returns (sum: u32)
    requires |src| == |dst| == 4
    ensures sum == PseudoSum6(src, dst, nextHdr, l4Len, little)
  {
    sum := 0;
    var i := 0;
    while i < 4
      invariant 0 <= i <= 4
      invariant sum == Plus(0, src[..i])
    {
      sum := CsumAdd(sum, src[i]);
      assert src[..i + 1][..i] == src[..i];
      i := i + 1;
    }
    assert src[..4] == src;
    i := 0;
    while i < 4
      invariant 0 <= i <= 4
      invariant sum == Plus(Plus(0, src), dst[..i])
    {
      sum := CsumAdd(sum, dst[i]);
      assert dst[..i + 1][..i] == dst[..i];
      i := i + 1;
    }
    assert dst[..4] == dst;
    sum := CsumAdd(sum, Htonl(l4Len, little));
    sum := CsumAdd(sum, Htonl(nextHdr, little));
  }

  /** Four network-order words of a 16-byte address, as native loads. */
  function AddrWords(addr: seq<byte>, little: bool): (ws: seq<u32>)
    requires |addr| == 16
    ensures |ws| == 4
  {
    [Load32(addr[0..4], little), Load32(addr[4..8], little), Load32(addr[8..12], little), Load32(addr[12..16], little)]
  }

  lemma Pseudo4Sum(src: seq<byte>, dst: seq<byte>, proto: byte, l4Len: u16, little: bool)
    requires |src| == |dst| == 4
    ensures WordSum(Pseudo4(src, dst, proto, l4Len), little)
            == WordSum(src, little) + WordSum(dst, little) + (Htons(proto, little) + Htons(l4Len, little))
  {
    var tail := [0, proto] + Wire16(l4Len);
    TailSum(proto, l4Len, little);
    hide WordSum, Htons, Wire16;
    assert Pseudo4(src, dst, proto, l4Len) == src + (dst + tail);
    WordSumConcat(src, dst + tail, little);
    WordSumConcat(dst, tail, little);
  }

  lemma TailSum(proto: byte, l4Len: u16, little: bool)
    ensures WordSum([0, proto] + Wire16(l4Len), little) == Htons(proto, little) + Htons(l4Len, little)
  {
    var n := Wire16(l4Len);
    FieldSum([], [0, proto], n, little);
    FieldSum([], n, [], little);
    assert [] + [0, proto] + n == [0, proto] + n && [] + n + [] == n;
  }

  lemma Pseudo4Value(src: seq<byte>, dst: seq<byte>, proto: byte, l4Len: u16, little: bool)
    requires |src| == |dst| == 4
    ensures Same(PseudoCsum4(Load32(src, little), Load32(dst, little), proto, l4Len, little),
                 WordSum(Pseudo4(src, dst, proto, l4Len), little))
  {
    hide WordSum, CsumAdd, Load32, Htons, Pseudo4;
    var s: nat, d: nat := Load32(src, little), Load32(dst, little);
    var p: nat, n: nat := Htons(proto, little), Htons(l4Len, little);
    Pseudo4Sum(src, dst, proto, l4Len, little);
    Load32Value(src, little);
    Load32Value(dst, little);
    PlusOfFour(s, d, p, n);
    SameAdd(s, WordSum(src, little), d, WordSum(dst, little));
    SameAdd(s + d, WordSum(src, little) + WordSum(dst, little), p + n, p + n);
  }

  lemma PlusOfFour(a: u32, b: u32, c: u32, d: u32)
    ensures Same(CsumAdd(CsumAdd(CsumAdd(CsumAdd(0, a), b), c), d), a + b + (c + d))
  {
    hide CsumAdd;
    AddKeepsValue(0, a);
    var x := CsumAdd(0, a);
    AddKeepsValue(x, b);
    var y := CsumAdd(x, b);
    AddKeepsValue(y, c);
    AddKeepsValue(CsumAdd(y, c), d);
    SameAdd(x, a, b, b);
    SameAdd(y, a + b, c, c);
    SameAdd(CsumAdd(y, c), a + b + c, d, d);
  }

  /** A range of the frame holding a blank field, folded after an even-length prefix, gives the accepted field value. */
  lemma StampVerifies(prefix: seq<byte>, bs: seq<byte>, off: nat, acc: u32, v: u16, little: bool)
    requires |prefix| % 2 == 0 && off % 2 == 0 && off + 2 <= |bs|
    requires Same(acc, WordSum(prefix, little) + WordSum(Blank(bs, off), little))
    requires v == Fold(acc) || (v == ONES && Fold(acc) == 0)
    ensures Verifies(prefix + Stamp(bs, off, v, little))
  {
    hide WordSum, Norm, Fold, FoldPartial, Stamp, Blank, Same;
    var data := WordSum(prefix, little) + WordSum(Blank(bs, off), little);
    var packet := prefix + Stamp(bs, off, v, little);
    WordSumConcat(prefix, Stamp(bs, off, v, little), little);
    StampSum(bs, off, v, little);
    FoldIsNorm(acc);
    NormEq(acc, data);
    FieldAccepted(acc, data, v);
    NativeVerifies(packet, little);
  }

  lemma FieldAccepted(acc: u32, data: nat, v: u16)
    requires FoldPartial(acc) == Norm(acc) == Norm(data)
    requires v == Fold(acc) || (v == ONES && Fold(acc) == 0)
    ensures Norm(data + v) == ONES
  {
    ChecksumIsAccepted(data);
    NormRange(data);
    if v != Checksum(data) {
      ModShift(data, ONES, ONES);
      NormRange(data + v);
    }
  }

  /** Folding any accumulator of the right value gives the recomputed checksum. */
  lemma FoldIsChecksum(prefix: seq<byte>, bs: seq<byte>, acc: u32, little: bool)
    requires |prefix| % 2 == 0 && Same(acc, WordSum(prefix, little) + WordSum(bs, little))
    ensures Fold(acc) == Checksum(WordSum(prefix + bs, little))
  {
    hide WordSum, Norm, FoldPartial;
    WordSumConcat(prefix, bs, little);
    FoldIsNorm(acc);
    NormEq(acc, WordSum(prefix + bs, little));
  }

  /** caly_ipv4_csum: the recomputed checksum of the header with its field blank; the stamped header verifies. */
  method Ipv4Csum(frame: seq<byte>, ip: nat, ihl: u32, little: bool) returns (r: Result)
    requires ip <= |frame|
    ensures r.Inval? <==> ihl < 20 || ihl > 60 || ihl % 4 != 0
    ensures r.Trunc? <==> !(ihl < 20 || ihl > 60 || ihl % 4 != 0) && ip + ihl > |frame|
    ensures r.Ok? ==> r.value == Checksum(WordSum(Blank(frame[ip..ip + ihl], 10), little))
    ensures r.Ok? ==> Verifies(Stamp(frame[ip..ip + ihl], 10, r.value, little))
  {
    if ihl < 20 || ihl > 60 || ihl % 4 != 0 {
      return Inval;
    }
    r := CsumRange(frame, ip, ihl, 10, little);
    if r.Ok? {
      var bs := frame[ip..ip + ihl];
      ghost var acc := r.value;
      r := Ok(Fold(r.value));
      StampVerifies([], bs, 10, acc, r.value, little);
      FoldIsChecksum([], Blank(bs, 10), acc, little);
      assert [] + Blank(bs, 10) == Blank(bs, 10);
      assert [] + Stamp(bs, 10, r.value, little) == Stamp(bs, 10, r.value, little);
    }
  }

  /** The field as transmitted: zero means "no checksum" to UDP, so its other representation is sent. */
  function Transmitted(v: u16): u16 {
    if v == 0 then ONES else v
  }

  /** caly_l4_csum_v4: segment and pseudo header verify together. */
  method L4Csum4(frame: seq<byte>, l4: nat, src: seq<byte>, dst: seq<byte>, proto: byte, l4Len: u16, skip: u32,
                 little: bool) returns (r: Result)
    requires l4 <= |frame| && |src| == |dst| == 4
    ensures r.Inval? <==> BadRange(l4Len, skip)
    ensures r.Trunc? <==> !BadRange(l4Len, skip) && l4 + l4Len > |frame|
    ensures r.Ok? ==>
              r.value == Transmitted(Checksum(WordSum(Pseudo4(src, dst, proto, l4Len)
                                                      + Blank(frame[l4..l4 + l4Len], skip), little)))
    ensures r.Ok? && skip + 2 <= l4Len ==>
              Verifies(Pseudo4(src, dst, proto, l4Len) + Stamp(frame[l4..l4 + l4Len], skip, r.value, little))
  {
    var range := CsumRange(frame, l4, l4Len, skip, little);
    if !range.Ok? {
      return range;
    }
    hide Stamp, WordSum, Load32, PseudoCsum4, Fold, CsumAdd, Blank, Verifies, Same, Pseudo4, BadRange, Checksum;
    Pseudo4Value(src, dst, proto, l4Len, little);
    L4IsChecksum(Pseudo4(src, dst, proto, l4Len), Blank(frame[l4..l4 + l4Len], skip), range.value,
                 PseudoCsum4(Load32(src, little), Load32(dst, little), proto, l4Len, little), little);
    var psum := PseudoCsum4(Load32(src, little), Load32(dst, little), proto, l4Len, little);
    if skip + 2 <= l4Len {
      Stamped4(frame[l4..l4 + l4Len], src, dst, proto, skip, range.value, little);
    }
    return Ok(Transmitted(Fold(CsumAdd(range.value, psum))));
  }

  /** caly_l4_csum_v6. */
  method L4Csum6(frame: seq<byte>, l4: nat, src: seq<byte>, dst: seq<byte>, nextHdr: byte, l4Len: u16, skip: u32,
                 little: bool) returns (r: Result)
    requires l4 <= |frame| && |src| == |dst| == 16
    ensures r.Inval? <==> BadRange(l4Len, skip)
    ensures r.Trunc? <==> !BadRange(l4Len, skip) && l4 + l4Len > |frame|
    ensures r.Ok? ==>
              r.value == Transmitted(Checksum(WordSum(Pseudo6(src, dst, nextHdr, l4Len)
                                                      + Blank(frame[l4..l4 + l4Len], skip), little)))
    ensures r.Ok? && skip + 2 <= l4Len ==>
              Verifies(Pseudo6(src, dst, nextHdr, l4Len) + Stamp(frame[l4..l4 + l4Len], skip, r.value, little))
  {
    var range := CsumRange(frame, l4, l4Len, skip, little);
    if !range.Ok? {
      return range;
    }
    hide Stamp, WordSum, AddrWords, PseudoSum6, Fold, CsumAdd, Blank, Verifies, Same, Pseudo6, BadRange, Checksum;
    Pseudo6Value(src, dst, nextHdr, l4Len, little);
    L4IsChecksum(Pseudo6(src, dst, nextHdr, l4Len), Blank(frame[l4..l4 + l4Len], skip), range.value,
                 PseudoSum6(AddrWords(src, little), AddrWords(dst, little), nextHdr, l4Len, little), little);
    var psum := PseudoCsum6(AddrWords(src, little), AddrWords(dst, little), nextHdr, l4Len, little);
    if skip + 2 <= l4Len {
      Stamped6(frame[l4..l4 + l4Len], src, dst, nextHdr, skip, range.value, little);
    }
    return Ok(Transmitted(Fold(CsumAdd(range.value, psum))));
  }

  lemma L4IsChecksum(pseudo: seq<byte>, bs: seq<byte>, range: u32, psum: u32, little: bool)
    requires |pseudo| % 2 == 0 && range == WordSum(bs, little) && Same(psum, WordSum(pseudo, little))
    ensures Fold(CsumAdd(range, psum)) == Checksum(WordSum(pseudo + bs, little))
  {
    hide WordSum, Fold, CsumAdd, Checksum;
    AddKeepsValue(range, psum);
    SameAdd(psum, WordSum(pseudo, little), range, range);
    FoldIsChecksum(pseudo, bs, CsumAdd(range, psum), little);
  }

  // ------------------------------------------------------------------------
  // The two byte orders
  // ------------------------------------------------------------------------

  /** Also as transmitted: both hosts replace a zero checksum, or neither does. */
  lemma TransmittedAgrees(bs: seq<byte>)
    ensures Store16(Transmitted(Checksum(WordSum(bs, true))), true)
            == Store16(Transmitted(Checksum(WordSum(bs, false))), false)
  {
    ByteOrderIndependence(bs);
    hide Checksum, WordSum;
    var l, b := Checksum(WordSum(bs, true)), Checksum(WordSum(bs, false));
    ZeroBytes(l, true);
    ZeroBytes(b, false);
  }

  lemma ZeroBytes(v: u16, little: bool)
    ensures Store16(v, little) == [0, 0] <==> v == 0
    ensures Store16(ONES, little) == [0xFF, 0xFF]
  {
  }

  /** Both hosts compute a header checksum for the same headers and would store the same two bytes. */
  method Ipv4CsumAgrees(frame: seq<byte>, ip: nat, ihl: u32) returns (l: Result, b: Result)
    requires ip <= |frame|
    ensures l.Ok? <==> b.Ok?
    ensures l.Ok? ==> l.value < U16 && b.value < U16 && Store16(l.value, true) == Store16(b.value, false)
  {
    hide WordSum, Checksum, Blank, Stamp, Verifies, Store16;
    l := Ipv4Csum(frame, ip, ihl, true);
    b := Ipv4Csum(frame, ip, ihl, false);
    if l.Ok? {
      ByteOrderIndependence(Blank(frame[ip..ip + ihl], 10));
    }
  }

  /** The same for a segment behind its IPv4 pseudo header, with or without a field to skip. */
  method L4Csum4Agrees(frame: seq<byte>, l4: nat, src: seq<byte>, dst: seq<byte>, proto: byte, l4Len: u16, skip: u32)
    returns (l: Result, b: Result)
    requires l4 <= |frame| && |src| == |dst| == 4
    ensures l.Ok? <==> b.Ok?
    ensures l.Ok? ==> l.value < U16 && b.value < U16 && Store16(l.value, true) == Store16(b.value, false)
  {
    hide WordSum, Checksum, Blank, Stamp, Verifies, Store16, Pseudo4, Transmitted;
    l := L4Csum4(frame, l4, src, dst, proto, l4Len, skip, true);
    b := L4Csum4(frame, l4, src, dst, proto, l4Len, skip, false);
    if l.Ok? {
      TransmittedAgrees(Pseudo4(src, dst, proto, l4Len) + Blank(frame[l4..l4 + l4Len], skip));
    }
  }

  /** The same for IPv6. */
  method L4Csum6Agrees(frame: seq<byte>, l4: nat, src: seq<byte>, dst: seq<byte>, nextHdr: byte, l4Len: u16, skip: u32)
    returns (l: Result, b: Result)
    requires l4 <= |frame| && |src| == |dst| == 16
    ensures l.Ok? <==> b.Ok?
    ensures l.Ok? ==> l.value < U16 && b.value < U16 && Store16(l.value, true) == Store16(b.value, false)
  {
    hide WordSum, Checksum, Blank, Stamp, Verifies, Store16, Pseudo6, Transmitted;
    l := L4Csum6(frame, l4, src, dst, nextHdr, l4Len, skip, true);
    b := L4Csum6(frame, l4, src, dst, nextHdr, l4Len, skip, false);
    if l.Ok? {
      TransmittedAgrees(Pseudo6(src, dst, nextHdr, l4Len) + Blank(frame[l4..l4 + l4Len], skip));
    }
  }

  /** Without a field to skip the sum is a check: 0xFFFF comes out exactly for bytes that verify, or are all zero. */
  lemma NoSkipChecks(bs: seq<byte>, little: bool)
    ensures Transmitted(Checksum(WordSum(bs, little))) == ONES <==> Verifies(bs) || AllZero(bs)
  {
    hide WordSum, Norm;
    NativeVerifies(bs, little);
    ZeroSum(bs, little);
    NormRange(WordSum(bs, little));
  }

  lemma Stamped4(bs: seq<byte>, src: seq<byte>, dst: seq<byte>, proto: byte, skip: nat, range: u32, little: bool)
    requires |src| == |dst| == 4 && |bs| < U16 && !BadRange(|bs|, skip) && skip + 2 <= |bs|
    requires range == WordSum(Blank(bs, skip), little)
    ensures var l4Len := |bs|;
            var psum := PseudoCsum4(Load32(src, little), Load32(dst, little), proto, l4Len, little);
            Verifies(Pseudo4(src, dst, proto, |bs|) + Stamp(bs, skip, Transmitted(Fold(CsumAdd(range, psum))), little))
  {
    var l4Len := |bs|;
    hide Stamp, WordSum, Fold, CsumAdd, Blank, Verifies, Same, Pseudo4, BadRange;
    Pseudo4Value(src, dst, proto, |bs|, little);
    L4Verifies(Pseudo4(src, dst, proto, |bs|), bs, skip, range, PseudoCsum4(Load32(src, little), Load32(dst, little), proto, l4Len, little), little);
  }

  lemma Stamped6(bs: seq<byte>, src: seq<byte>, dst: seq<byte>, nextHdr: byte, skip: nat, range: u32, little: bool)
    requires |src| == |dst| == 16 && |bs| < U16 && !BadRange(|bs|, skip) && skip + 2 <= |bs|
    requires range == WordSum(Blank(bs, skip), little)
    ensures var l4Len := |bs|;
            var psum := PseudoSum6(AddrWords(src, little), AddrWords(dst, little), nextHdr, l4Len, little);
            Verifies(Pseudo6(src, dst, nextHdr, |bs|) + Stamp(bs, skip, Transmitted(Fold(CsumAdd(range, psum))), little))
  {
    var l4Len := |bs|;
    hide Stamp, WordSum, Fold, CsumAdd, Blank, Verifies, Same, Pseudo6, BadRange;
    Pseudo6Value(src, dst, nextHdr, |bs|, little);
    L4Verifies(Pseudo6(src, dst, nextHdr, |bs|), bs, skip, range, PseudoSum6(AddrWords(src, little), AddrWords(dst, little), nextHdr, l4Len, little), little);
  }

  lemma L4Verifies(pseudo: seq<byte>, bs: seq<byte>, skip: nat, range: u32, psum: u32, little: bool)
    requires |pseudo| % 2 == 0 && !BadRange(|bs|, skip) && skip + 2 <= |bs|
    requires range == WordSum(Blank(bs, skip), little)
    requires Same(psum, WordSum(pseudo, little))
    ensures Verifies(pseudo + Stamp(bs, skip, Transmitted(Fold(CsumAdd(range, psum))), little))
  {
    assert skip % 2 == 0;
    hide Stamp, WordSum, Fold, CsumAdd, Norm, Blank, Verifies;
    AddKeepsValue(range, psum);
    SameAdd(psum, WordSum(pseudo, little), range, range);
    StampVerifies(pseudo, bs, skip, CsumAdd(range, psum), Transmitted(Fold(CsumAdd(range, psum))), little);
  }

  lemma Pseudo6Sum(src: seq<byte>, dst: seq<byte>, nextHdr: byte, l4Len: u32, little: bool)
    requires |src| == |dst| == 16
    ensures WordSum(Pseudo6(src, dst, nextHdr, l4Len), little)
            == WordSum(src, little) + WordSum(dst, little) + WordSum(Wire32(l4Len), little)
               + WordSum(Wire32(nextHdr), little)
  {
    assert Wire32(nextHdr) == [0, 0] + [0, nextHdr];
    assert Pseudo6(src, dst, nextHdr, l4Len) == src + (dst + (Wire32(l4Len) + Wire32(nextHdr)));
    hide WordSum, Wire32;
    WordSumConcat(src, dst + (Wire32(l4Len) + Wire32(nextHdr)), little);
    WordSumConcat(dst, Wire32(l4Len) + Wire32(nextHdr), little);
    WordSumConcat(Wire32(l4Len), Wire32(nextHdr), little);
  }

  lemma Pseudo6Value(src: seq<byte>, dst: seq<byte>, nextHdr: byte, l4Len: u32, little: bool)
    requires |src| == |dst| == 16
    ensures Same(PseudoSum6(AddrWords(src, little), AddrWords(dst, little), nextHdr, l4Len, little),
                 WordSum(Pseudo6(src, dst, nextHdr, l4Len), little))
  {
    AddrValue(src, little);
    AddrValue(dst, little);
    hide Load32, WordSum, Plus, Total, Wire32, Pseudo6, CsumAdd, AddrWords;
    Pseudo6Sum(src, dst, nextHdr, l4Len, little);
    var s, d := AddrWords(src, little), AddrWords(dst, little);
    var p1 := Plus(0, s);
    var p2 := Plus(p1, d);
    PlusValue(0, s);
    PlusValue(p1, d);
    SameAdd(p1, WordSum(src, little), Total(d), WordSum(dst, little));
    Load32Value(Wire32(l4Len), little);
    Load32Value(Wire32(nextHdr), little);
    AddSame(p2, Htonl(l4Len, little), WordSum(src, little) + WordSum(dst, little), WordSum(Wire32(l4Len), little));
    AddSame(CsumAdd(p2, Htonl(l4Len, little)), Htonl(nextHdr, little),
            WordSum(src, little) + WordSum(dst, little) + WordSum(Wire32(l4Len), little),
            WordSum(Wire32(nextHdr), little));
  }

  lemma AddrValue(addr: seq<byte>, little: bool)
    requires |addr| == 16
    ensures Same(Total(AddrWords(addr, little)), WordSum(addr, little))
  {
    hide Load32;
    assert addr[0..4] == Quad(addr, 0) && addr[4..8] == Quad(addr, 1);
    assert addr[8..12] == Quad(addr, 2) && addr[12..16] == Quad(addr, 3);
    QuadsValue(AddrWords(addr, little), addr, little);
  }

  lemma AddSame(a: u32, b: u32, x: nat, y: nat)
    requires Same(a, x) && Same(b, y)
    ensures Same(CsumAdd(a, b), x + y)
  {
    AddKeepsValue(a, b);
    SameAdd(a, x, b, y);
  }

  /** The i-th four bytes. */
  function Quad(bytes: seq<byte>, i: nat): (q: seq<byte>)
    requires 4 * i + 4 <= |bytes|
    ensures |q| == 4
  {
    bytes[4 * i..4 * i + 4]
  }

  ghost predicate AreLoads(ws: seq<u32>, bytes: seq<byte>, little: bool) {
    |bytes| == 4 * |ws| && forall i :: 0 <= i < |ws| ==> ws[i] == Load32(Quad(bytes, i), little)
  }

  /** Any run of 32-bit native loads sums to the word sum of the bytes they cover. */
  lemma {:induction false} QuadsValue(ws: seq<u32>, bytes: seq<byte>, little: bool)
    requires AreLoads(ws, bytes, little)
    ensures Same(Total(ws), WordSum(bytes, little))
  {
    if ws == [] {
      assert bytes == [];
    } else {
      hide Load32, WordSum, Same;
      var n := |ws| - 1;
      var init, head, tail := ws[..n], bytes[..4 * n], Quad(bytes, n);
      assert AreLoads(init, head, little) && bytes == head + tail by { SplitLoads(ws, bytes, little); }
      QuadsValue(init, head, little);
      Load32Value(tail, little);
      hide Quad, AreLoads;
      WordSumConcat(head, tail, little);
      SameAdd(Total(init), WordSum(head, little), ws[n], WordSum(tail, little));
    }
  }

  lemma SplitLoads(ws: seq<u32>, bytes: seq<byte>, little: bool)
    requires AreLoads(ws, bytes, little) && ws != []
    ensures var n := |ws| - 1;
            AreLoads(ws[..n], bytes[..4 * n], little) && bytes == bytes[..4 * n] + Quad(bytes, n)
  {
    hide Load32;
    var n := |ws| - 1;
    forall i | 0 <= i < n ensures Quad(bytes[..4 * n], i) == Quad(bytes, i) {
    }
  }

  // ------------------------------------------------------------------------
  // Incremental update of a packet
  // ------------------------------------------------------------------------

  ghost predicate AllZero(bs: seq<byte>) {
    forall i :: 0 <= i < |bs| ==> bs[i] == 0
  }

  lemma {:induction false} ZeroSum(bs: seq<byte>, little: bool)
    ensures WordSum(bs, little) == 0 <==> AllZero(bs)
  {
    if |bs| >= 2 {
      ZeroSum(bs[2..], little);
      assert AllZero(bs) <==> bs[0] == 0 && bs[1] == 0 && AllZero(bs[2..]) by {
        assert forall i :: 2 <= i < |bs| ==> bs[i] == bs[2..][i - 2];
      }
    }
  }

  lemma AcceptsSame(a: nat, b: nat, hc: u16)
    requires Same(a, b)
    ensures Accepts(a, hc) <==> Accepts(b, hc)
  {
    SameAdd(a, b, hc, hc);
    NormEq(a + hc, b + hc);
  }

  /**
   * Replacing whole 32-bit fields f by g inside a packet whose stored field hc is accepted: the update yields what
   * recomputing over the new bytes yields, unless every new byte is zero.
   */
  lemma PacketUpdate(pre: seq<byte>, f: seq<byte>, g: seq<byte>, post: seq<byte>, from: seq<u32>, to: seq<u32>,
                     hc: u16, little: bool)
    requires |pre| % 2 == 0 && |f| == |g|
    requires AreLoads(from, f, little) && AreLoads(to, g, little)
    requires Accepts(WordSum(pre + f + post, little), hc)
    ensures var hc' := ReplaceAll(hc, from, to);
            var data := pre + g + post;
            && hc' != ONES
            && (hc' == Checksum(WordSum(data, little)) <==> !AllZero(data))
            && (Accepts(WordSum(data, little), hc') <==> !AllZero(data))
  {
    hide WordSum, Norm, Total, ReplaceAll, Same, Accepts, Checksum;
    FieldLoads(pre, f, post, from, little);
    FieldLoads(pre, g, post, to, little);
    hide AreLoads;
    ZeroSum(pre + g + post, little);
    UpdateBySums(WordSum(pre, little) + WordSum(post, little), WordSum(pre + f + post, little),
                 WordSum(pre + g + post, little), hc, from, to);
  }

  lemma UpdateBySums(rest: nat, before: nat, after: nat, hc: u16, from: seq<u32>, to: seq<u32>)
    requires Same(rest + Total(from), before) && Same(rest + Total(to), after) && Accepts(before, hc)
    ensures var hc' := ReplaceAll(hc, from, to);
            && hc' != ONES
            && (hc' == Checksum(after) <==> after > 0)
            && (Accepts(after, hc') <==> after > 0)
  {
    hide Total, ReplaceAll, Norm, Accepts;
    AcceptsSame(rest + Total(from), before, hc);
    UpdateRefines(rest, hc, from, to);
    AcceptsSame(rest + Total(to), after, ReplaceAll(hc, from, to));
    NormEq(rest + Total(to), after);
  }

  lemma FieldLoads(pre: seq<byte>, f: seq<byte>, post: seq<byte>, ws: seq<u32>, little: bool)
    requires |pre| % 2 == 0 && AreLoads(ws, f, little)
    ensures Same(WordSum(pre, little) + WordSum(post, little) + Total(ws), WordSum(pre + f + post, little))
  {
    assert |f| % 2 == 0;
    hide WordSum, Same, Total;
    QuadsValue(ws, f, little);
    hide AreLoads;
    assert pre + f + post == pre + (f + post);
    WordSumConcat(pre, f + post, little);
    WordSumConcat(f, post, little);
    var rest := WordSum(pre, little) + WordSum(post, little);
    SameRefl(rest);
    SameAdd(rest, rest, Total(ws), WordSum(f, little));
  }

  /** Replacing one 16-bit field: the narrow update yields what recomputing over the new bytes yields. */
  lemma PacketUpdate2(pre: seq<byte>, f: seq<byte>, g: seq<byte>, post: seq<byte>, hc: u16, little: bool)
    requires |pre| % 2 == 0 && |f| == |g| == 2
    requires Accepts(WordSum(pre + f + post, little), hc)
    ensures var hc' := Replace2(hc, Load16(f[0], f[1], little), Load16(g[0], g[1], little));
            var data := pre + g + post;
            && hc' != ONES
            && (hc' == Checksum(WordSum(data, little)) <==> !AllZero(data))
            && (Accepts(WordSum(data, little), hc') <==> !AllZero(data))
  {
    hide WordSum, Norm, Load16, Accepts, Checksum, ReplaceAll, Replace2, Same;
    var from, to := Load16(f[0], f[1], little), Load16(g[0], g[1], little);
    var rest := WordSum(pre, little) + WordSum(post, little);
    FieldSum(pre, f, post, little);
    FieldSum(pre, g, post, little);
    NarrowUpdates(hc, from, to);
    OneWord(from);
    OneWord(to);
    SameRefl(rest + from);
    SameRefl(rest + to);
    ZeroSum(pre + g + post, little);
    UpdateBySums(rest, WordSum(pre + f + post, little), WordSum(pre + g + post, little), hc, [from], [to]);
  }

  lemma OneWord(w: u32)
    ensures Total([w]) == w
  {
    assert [w][..0] == [];
  }
}
