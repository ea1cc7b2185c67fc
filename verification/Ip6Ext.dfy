/** The two IPv6 extension-header walkers and the chain both of them follow. */
module Ip6Ext {
  import opened Words

  const EXT_MAX: nat := 4
  const PULL_MAX: nat := 2048
  const MAX_HDR_OFF: nat := 512

  const HOPOPTS: nat := 0
  const ROUTING: nat := 43
  const FRAGMENT: nat := 44
  const ESP: nat := 50
  const AH: nat := 51
  const NONE: nat := 59
  const DSTOPTS: nat := 60
  const MH: nat := 135

  // ------------------------------------------------------------------------
  // Reference: section 4 of RFC 8200, section 2.2 of RFC 4302
  // ------------------------------------------------------------------------

  predicate IsExt(nh: nat) {
    nh == HOPOPTS || nh == ROUTING || nh == FRAGMENT || nh == DSTOPTS || nh == AH || nh == MH
  }

  /** Length of the extension header of type nh at off. */
  function HdrLen(frame: seq<byte>, off: nat, nh: nat): nat
    requires off + 2 <= |frame|
  {
    var len: nat := frame[off + 1];
    if nh == FRAGMENT then 8 else if nh == AH then 4 * (len + 2) else 8 * (len + 1)
  }

  /** Where a chain ends: the first upper-layer protocol and its offset. */
  datatype Chain = At(proto: nat, off: nat) | Broken

  /** The chain from (nh, off), following at most n extension headers. */
  ghost function Upper(frame: seq<byte>, off: nat, nh: nat, n: nat): Chain
    decreases n
  {
    if !IsExt(nh) then At(nh, off)
    else if n == 0 || off + 2 > |frame| then Broken
    else Upper(frame, off + HdrLen(frame, off, nh), frame[off], n - 1)
  }

  function FragField(frame: seq<byte>, off: nat): nat
    requires off + 4 <= |frame|
  {
    var hi: nat, lo: nat := frame[off + 2], frame[off + 3];
    0x100 * hi + lo
  }

  /** The fragment offset of the last fragment header in the chain; `seen` when there is none. */
  ghost function LastFrag(frame: seq<byte>, off: nat, nh: nat, n: nat, seen: nat): nat
    decreases n
  {
    if !IsExt(nh) || n == 0 || off + 4 > |frame| then seen
    else
      LastFrag(frame, off + HdrLen(frame, off, nh), frame[off], n - 1,
               if nh == FRAGMENT then FragField(frame, off) / 8 else seen)
  }

  /** A fragment header sits in the chain; with `first`, one whose payload starts 8 bytes in. */
  ghost predicate HasFrag(frame: seq<byte>, off: nat, nh: nat, n: nat, first: bool)
    decreases n
  {
    && IsExt(nh) && n > 0 && off + 4 <= |frame|
    && (|| (nh == FRAGMENT && (first ==> FragField(frame, off) / 8 == 1))
        || HasFrag(frame, off + HdrLen(frame, off, nh), frame[off], n - 1, first))
  }

  /** The more-fragments bit of the last fragment header in the chain; `seen` when there is none. */
  ghost predicate LastMore(frame: seq<byte>, off: nat, nh: nat, n: nat, seen: bool)
    decreases n
  {
    if !IsExt(nh) || n == 0 || off + 4 > |frame| then seen
    else
      LastMore(frame, off + HdrLen(frame, off, nh), frame[off], n - 1,
               if nh == FRAGMENT then FragField(frame, off) % 2 == 1 else seen)
  }

  /** The number of extension headers in front of the upper-layer protocol. */
  ghost function Depth(frame: seq<byte>, off: nat, nh: nat, n: nat): nat
    decreases n
  {
    if !IsExt(nh) || n == 0 || off + 2 > |frame| then 0
    else 1 + Depth(frame, off + HdrLen(frame, off, nh), frame[off], n - 1)
  }

  /** An authentication header sits in the chain. */
  ghost predicate HasAh(frame: seq<byte>, off: nat, nh: nat, n: nat)
    decreases n
  {
    && IsExt(nh) && n > 0
    && (nh == AH || (off + 2 <= |frame| && HasAh(frame, off + HdrLen(frame, off, nh), frame[off], n - 1)))
  }

  /** A type 0 routing header (RFC 5095) sits in the chain. */
  ghost predicate HasRh0(frame: seq<byte>, off: nat, nh: nat, n: nat)
    decreases n
  {
    && IsExt(nh) && n > 0 && off + 4 <= |frame|
    && ((nh == ROUTING && frame[off + 2] == 0) || HasRh0(frame, off + HdrLen(frame, off, nh), frame[off], n - 1))
  }

  /** One header of the chain. */
  lemma ChainStep(frame: seq<byte>, off: nat, nh: nat, n: nat)
    requires IsExt(nh) && n > 0 && off + 4 <= |frame|
    ensures var next, nh' := off + HdrLen(frame, off, nh), frame[off];
            && Upper(frame, off, nh, n) == Upper(frame, next, nh', n - 1)
            && Depth(frame, off, nh, n) == 1 + Depth(frame, next, nh', n - 1)
            && (HasRh0(frame, off, nh, n) <==> (nh == ROUTING && frame[off + 2] == 0) || HasRh0(frame, next, nh', n - 1))
            && (HasAh(frame, next, nh', n - 1) ==> HasAh(frame, off, nh, n))
  {
  }

  lemma FragStep(frame: seq<byte>, off: nat, nh: nat, n: nat, fragOff: nat, more: bool)
    requires IsExt(nh) && n > 0 && off + 4 <= |frame|
    ensures var next, nh' := off + HdrLen(frame, off, nh), frame[off];
            && LastFrag(frame, off, nh, n, fragOff)
               == LastFrag(frame, next, nh', n - 1, if nh == FRAGMENT then FragField(frame, off) / 8 else fragOff)
            && LastMore(frame, off, nh, n, more)
               == LastMore(frame, next, nh', n - 1, if nh == FRAGMENT then FragField(frame, off) % 2 == 1 else more)
  {
  }

  /** The end of the chain. */
  lemma ChainStop(frame: seq<byte>, off: nat, nh: nat, n: nat, fragOff: nat, more: bool)
    requires !IsExt(nh) || n == 0
    ensures Upper(frame, off, nh, n) == if IsExt(nh) then Broken else At(nh, off)
    ensures Depth(frame, off, nh, n) == 0 && !HasRh0(frame, off, nh, n)
    ensures LastFrag(frame, off, nh, n, fragOff) == fragOff && LastMore(frame, off, nh, n, more) == more
  {
  }

  lemma AhHere(frame: seq<byte>, off: nat, n: nat)
    requires n > 0
    ensures HasAh(frame, off, AH, n)
  {
  }

  // ------------------------------------------------------------------------
  // caly_skip_ip6_exts: a cursor that pulls each header
  // ------------------------------------------------------------------------

  datatype Code = OK | ENCRYPTED | NO_NEXT | EXT_TRUNC | RH0 | EXT_DEPTH

  datatype Info = Info(nexthdr: nat, extBytes: nat, fragOff: nat, moreFrags: bool, extCount: nat)

  /** caly_pull / caly_peek: are len bytes readable at pos? */
  predicate Readable(frame: seq<byte>, pos: nat, len: nat) {
    len <= PULL_MAX && pos + len <= |frame|
  }

  /** Bytes the walker insists on seeing before it trusts a header of this type. */
  function PeekLen(nh: nat): nat {
    if nh == ROUTING then 4 else if nh == FRAGMENT then 8 else if nh == AH then 12 else 2
  }

  function LenMax(nh: nat): nat {
    if nh == AH then 1024 else PULL_MAX
  }

  function Final(nh: nat): Code {
    if IsExt(nh) then EXT_DEPTH else if nh == ESP then ENCRYPTED else if nh == NONE then NO_NEXT else OK
  }

  method SkipExts(frame: seq<byte>, start: nat, nh0: byte, dropRh0: bool, extMax: nat) returns (code: Code, pos: nat, info: Info)
    requires start <= |frame|
    ensures start <= pos <= |frame|
    ensures code in {OK, ENCRYPTED, NO_NEXT} ==>
              && Upper(frame, start, nh0, Min(extMax, EXT_MAX)) == At(info.nexthdr, pos)
              && code == Final(info.nexthdr)
              && info.extBytes == pos - start
              && info.extCount == Depth(frame, start, nh0, Min(extMax, EXT_MAX)) <= Min(extMax, EXT_MAX)
              && info.moreFrags == LastMore(frame, start, nh0, Min(extMax, EXT_MAX), false)
              && info.fragOff == LastFrag(frame, start, nh0, Min(extMax, EXT_MAX), 0)
              && !(dropRh0 && HasRh0(frame, start, nh0, Min(extMax, EXT_MAX)))
    ensures code == EXT_DEPTH ==> Upper(frame, start, nh0, Min(extMax, EXT_MAX)) == Broken
    ensures code == EXT_TRUNC && !HasAh(frame, start, nh0, Min(extMax, EXT_MAX)) ==>
              forall proto: nat, off: nat :: off <= |frame| ==>
                Upper(frame, start, nh0, Min(extMax, EXT_MAX)) != At(proto, off)
    ensures code == RH0 ==> dropRh0 && HasRh0(frame, start, nh0, Min(extMax, EXT_MAX))
  {
    hide Upper, Depth, HasRh0, HasAh, LastFrag, LastMore, FragField, HdrLen;
    var bound := Min(extMax, EXT_MAX);
    var nh: nat := nh0;
    pos := start;
    info := Info(nh0, 0, 0, false, 0);
    var i := 0;
    while i < bound
      invariant 0 <= i <= bound && start <= pos <= |frame| && nh < 0x100
      invariant Upper(frame, pos, nh, bound - i) == Upper(frame, start, nh0, bound)
      invariant LastFrag(frame, pos, nh, bound - i, info.fragOff) == LastFrag(frame, start, nh0, bound, 0)
      invariant LastMore(frame, pos, nh, bound - i, info.moreFrags) == LastMore(frame, start, nh0, bound, false)
      invariant dropRh0 ==> HasRh0(frame, pos, nh, bound - i) == HasRh0(frame, start, nh0, bound)
      invariant HasAh(frame, pos, nh, bound - i) ==> HasAh(frame, start, nh0, bound)
      invariant info.extBytes == pos - start && info.extCount == i
      invariant i + Depth(frame, pos, nh, bound - i) == Depth(frame, start, nh0, bound)
    {
      UpperAdvances(frame, pos, nh, bound - i);
      if !IsExt(nh) {
        ChainStop(frame, pos, nh, bound - i, info.fragOff, info.moreFrags);
        info := info.(nexthdr := nh);
        return Final(nh), pos, info;
      }
      if nh == AH { AhHere(frame, pos, bound - i); }
      if !Readable(frame, pos, PeekLen(nh)) {
        return EXT_TRUNC, pos, info;
      }
      var hlen := HdrLen(frame, pos, nh);
      UpperAdvances(frame, pos + hlen, frame[pos], bound - i - 1);
      if pos + 4 <= |frame| {
        ChainStep(frame, pos, nh, bound - i);
        FragStep(frame, pos, nh, bound - i, info.fragOff, info.moreFrags);
      } else {
        ShortHeader(frame, pos, nh, bound - i);
      }
      if nh == ROUTING && frame[pos + 2] == 0 && dropRh0 {
        return RH0, pos, info;
      }
      if nh == FRAGMENT {
        info := info.(fragOff := FragField(frame, pos) / 8, moreFrags := FragField(frame, pos) % 2 == 1);
      }
      if hlen > LenMax(nh) || !Readable(frame, pos, hlen) {
        TooLong(frame, pos, nh);
        return EXT_TRUNC, pos, info;
      }
      nh := frame[pos];
      pos := pos + hlen;
      i := i + 1;
      info := info.(extBytes := pos - start, extCount := i);
    }
    ChainStop(frame, pos, nh, bound - i, info.fragOff, info.moreFrags);
    info := info.(nexthdr := nh);
    return Final(nh), pos, info;
  }

  /** A header within four bytes of the end of the frame cannot be whole. */
  lemma ShortHeader(frame: seq<byte>, off: nat, nh: nat, n: nat)
    requires IsExt(nh) && off + 2 <= |frame| < off + 4 && n > 0
    ensures HdrLen(frame, off, nh) >= 8
    ensures Upper(frame, off, nh, n) == Upper(frame, off + HdrLen(frame, off, nh), frame[off], n - 1)
  {
  }

  /** Only an authentication header can be longer than the walker pulls. */
  lemma TooLong(frame: seq<byte>, off: nat, nh: nat)
    requires IsExt(nh) && off + 2 <= |frame|
    ensures HdrLen(frame, off, nh) <= LenMax(nh) || nh == AH
  {
  }

  // ------------------------------------------------------------------------
  // The walk inside caly_parse_l3: plain offsets, no final bound
  // ------------------------------------------------------------------------

  datatype Policy = Policy(dropRh0: bool, dropAllFrags: bool, fragChecks: bool)

  datatype Walk =
    | Accept(proto: nat, off: nat, fragOff: nat, frag: bool)
    | TooDeep | Trunc | Rh0 | FragPolicy | FragOffOne

  method ParseExts(frame: seq<byte>, start: nat, nh0: byte, p: Policy, extMax: nat) returns (w: Walk)
    requires start <= |frame|
    ensures w.Accept? ==>
              && Upper(frame, start, nh0, Min(extMax, EXT_MAX)) == At(w.proto, w.off)
              && w.fragOff == LastFrag(frame, start, nh0, Min(extMax, EXT_MAX), 0)
              && w.off <= MAX_HDR_OFF
              && w.frag == HasFrag(frame, start, nh0, Min(extMax, EXT_MAX), false)
              && !(p.dropAllFrags && w.frag)
              && !(p.fragChecks && HasFrag(frame, start, nh0, Min(extMax, EXT_MAX), true))
              && !(p.dropRh0 && HasRh0(frame, start, nh0, Min(extMax, EXT_MAX)))
    ensures w == FragPolicy ==> p.dropAllFrags && HasFrag(frame, start, nh0, Min(extMax, EXT_MAX), false)
    ensures w == FragOffOne ==>
              p.fragChecks && !p.dropAllFrags && HasFrag(frame, start, nh0, Min(extMax, EXT_MAX), true)
    ensures w == Rh0 ==> p.dropRh0 && HasRh0(frame, start, nh0, Min(extMax, EXT_MAX))
    ensures w == Trunc ==> forall proto: nat, off: nat :: off <= |frame| ==>
              Upper(frame, start, nh0, Min(extMax, EXT_MAX)) != At(proto, off)
    ensures w == TooDeep ==> forall proto: nat, off: nat :: off <= MAX_HDR_OFF ==>
              Upper(frame, start, nh0, Min(extMax, EXT_MAX)) != At(proto, off)
  {
    var bound := Min(extMax, EXT_MAX);
    var nh: nat, off: nat := nh0, start;
    var fragOff: nat, frag := 0, false;
    var i := 0;
    while i < bound && IsExt(nh)
      invariant 0 <= i <= bound && nh < 0x100
      invariant Upper(frame, off, nh, bound - i) == Upper(frame, start, nh0, bound)
      invariant LastFrag(frame, off, nh, bound - i, fragOff) == LastFrag(frame, start, nh0, bound, 0)
      invariant p.dropRh0 ==> HasRh0(frame, off, nh, bound - i) == HasRh0(frame, start, nh0, bound)
      invariant HasFrag(frame, start, nh0, bound, false) <==> frag || HasFrag(frame, off, nh, bound - i, false)
      invariant p.fragChecks ==> HasFrag(frame, off, nh, bound - i, true) == HasFrag(frame, start, nh0, bound, true)
      invariant p.dropAllFrags ==> !frag
    {
      UpperAdvances(frame, off, nh, bound - i);
      if off > MAX_HDR_OFF {
        return TooDeep;
      }
      if off + 8 > |frame| {
        return Trunc;
      }
      if nh == ROUTING && p.dropRh0 && frame[off + 2] == 0 {
        return Rh0;
      }
      if nh == FRAGMENT {
        frag := true;
        fragOff := FragField(frame, off) / 8;
        if p.dropAllFrags {
          return FragPolicy;
        }
        if p.fragChecks && fragOff == 1 {
          return FragOffOne;
        }
      }
      var hdrBytes := Max(HdrLen(frame, off, nh), 8);
      nh := frame[off];
      off := off + hdrBytes;
      i := i + 1;
    }
    if IsExt(nh) || off > MAX_HDR_OFF {
      return TooDeep;
    }
    return Accept(nh, off, fragOff, frag);
  }

  /** Every header pushes the end of the chain at least 8 bytes further. */
  lemma {:induction false} UpperAdvances(frame: seq<byte>, off: nat, nh: nat, n: nat)
    ensures var u := Upper(frame, off, nh, n); u.At? ==> u.off >= off + (if IsExt(nh) then 8 else 0)
    decreases n
  {
    if IsExt(nh) && n > 0 && off + 2 <= |frame| {
      UpperAdvances(frame, off + HdrLen(frame, off, nh), frame[off], n - 1);
    }
  }

  // ------------------------------------------------------------------------
  // Agreement
  // ------------------------------------------------------------------------

  /**
   * Run on the same frame the walkers never disagree about the upper protocol, its offset or the fragment offset,
   * and the parser accepts whatever the cursor walked to within its offset ceiling, fragment policy aside.
   */
  method Agree(frame: seq<byte>, start: nat, nh0: byte, p: Policy, extMax: nat)
    returns (code: Code, pos: nat, info: Info, w: Walk)
    requires start <= |frame|
    ensures code in {OK, ENCRYPTED, NO_NEXT} && w.Accept? ==>
              w.proto == info.nexthdr && w.off == pos && w.fragOff == info.fragOff
    ensures code in {OK, ENCRYPTED, NO_NEXT} && pos <= MAX_HDR_OFF && !p.dropAllFrags && !p.fragChecks ==> w.Accept?
    ensures code == EXT_DEPTH ==> !w.Accept?
  {
    code, pos, info := SkipExts(frame, start, nh0, p.dropRh0, extMax);
    w := ParseExts(frame, start, nh0, p, extMax);
  }
}
