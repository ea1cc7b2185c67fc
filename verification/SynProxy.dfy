/** The SYN proxy's in-place rewrite of an inbound SYN into a SYN-ACK. */
module SynProxy {
  import opened Words
  import opened OnesComplement
  import opened InternetChecksum

  const TCP: byte := 6
  const SYNACK_FLAGS: byte := 0x12
  const SYNACK_TTL: byte := 64
  const MAX_TCP_HDR: nat := 60

  // ------------------------------------------------------------------------
  // Byte strings
  // ------------------------------------------------------------------------

  /** s with bs written at off: the field reads back, every slice clear of it is untouched. */
  function Put(s: seq<byte>, off: nat, bs: seq<byte>): (r: seq<byte>)
    requires off + |bs| <= |s|
    ensures |r| == |s|
    ensures forall a, b {:trigger r[a..b]} :: 0 <= a <= b <= |s| ==>
              && (b <= off || off + |bs| <= a ==> r[a..b] == s[a..b])
              && (a == off && b == off + |bs| ==> r[a..b] == bs)
  {
    s[..off] + bs + s[off + |bs|..]
  }

  /** Two adjacent n-byte fields exchanged. */
  function Mirror(s: seq<byte>, off: nat, n: nat): (r: seq<byte>)
    requires off + 2 * n <= |s|
    ensures |r| == |s|
    ensures forall a, b {:trigger r[a..b]} :: 0 <= a <= b <= |s| ==>
              && (b <= off || off + 2 * n <= a ==> r[a..b] == s[a..b])
              && (a == off && b == off + n ==> r[a..b] == s[off + n..off + 2 * n])
              && (a == off + n && b == off + 2 * n ==> r[a..b] == s[off..off + n])
  {
    Put(Put(s, off, s[off + n..off + 2 * n]), off + n, s[off..off + n])
  }

  function Be16(bs: seq<byte>): u16
    requires |bs| == 2
  {
    Load16(bs[0], bs[1], false)
  }

  function Be32(bs: seq<byte>): u32
    requires |bs| == 4
  {
    Load32(bs, false)
  }

  // ------------------------------------------------------------------------
  // The rewrite as a function of the frame
  // ------------------------------------------------------------------------

  /** One MSS option, then NOPs; a header without option space gets none. */
  function Options(optLen: nat, mss: u16): (r: seq<byte>)
    ensures |r| == if optLen < 4 then 0 else optLen
  {
    if optLen < 4 then [] else [2, 4] + Wire16(mss) + seq(optLen - 4, _ => 1)
  }

  function SynAckTcp(s: seq<byte>, th: nat, tcpLen: nat, cookie: u32, mss: u16): (r: seq<byte>)
    requires 20 <= tcpLen && th + tcpLen <= |s|
    ensures |r| == |s|
  {
    var seqNo := Be32(s[th + 4..th + 8]);
    var s1 := Mirror(s, th, 2);
    var s2 := Put(s1, th + 4, Wire32(cookie));
    var s3 := Put(s2, th + 8, Wire32((seqNo + 1) % 0x1_0000_0000));
    var s4 := Put(s3, th + 14, Wire16(0xFFFF));
    var s5 := Put(s4, th + 18, [0, 0]);
    var s6 := Put(s5, th + 13, [SYNACK_FLAGS]);
    Put(s6, th + 20, Options(tcpLen - 20, mss))
  }

  /** A range re-checksummed: psum is the sum of whatever precedes it. */
  function Rechecksum(s: seq<byte>, off: nat, len: nat, field: nat, psum: nat, little: bool): (r: seq<byte>)
    requires field + 2 <= len && off + len <= |s|
    ensures |r| == |s|
  {
    var blank := Put(s, off + field, [0, 0]);
    Put(blank, off + field, Store16(Fold((psum + WordSum(blank[off..off + len], little)) % U32), little))
  }

  /** The IPv4 half of the rewrite: mirrored addresses, fresh TTL, no fragment, new header checksum. */
  function Rewrite4Ip(s: seq<byte>, nh: nat, little: bool): (r: seq<byte>)
    requires 14 <= nh && nh + 20 <= |s|
    ensures |r| == |s|
  {
    var s1 := Mirror(s, 0, 6);
    var s2 := Mirror(s1, nh + 12, 4);
    var s3 := Put(s2, nh + 8, [SYNACK_TTL]);
    var s4 := Put(s3, nh + 4, [0, 0]);
    var s5 := Put(s4, nh + 6, [0x40, 0]);
    Rechecksum(s5, nh, 20, 10, 0, little)
  }

  function Rewrite4(s: seq<byte>, nh: nat, tcpLen: nat, cookie: u32, mss: u16, little: bool): (r: seq<byte>)
    requires 14 <= nh && 20 <= tcpLen <= MAX_TCP_HDR && nh + 20 + tcpLen <= |s|
    ensures |r| == |s|
  {
    var s1 := Rewrite4Ip(s, nh, little);
    var s2 := SynAckTcp(s1, nh + 20, tcpLen, cookie, mss);
    var psum := WordSum(s2[nh + 12..nh + 20], little) + Htons(TCP, little) + Htons(tcpLen, little);
    Rechecksum(s2, nh + 20, tcpLen, 16, psum, little)
  }

  function Rewrite6Ip(s: seq<byte>, nh: nat): (r: seq<byte>)
    requires 14 <= nh && nh + 40 <= |s|
    ensures |r| == |s|
  {
    var s1 := Mirror(s, 0, 6);
    var s2 := Mirror(s1, nh + 8, 16);
    Put(s2, nh + 7, [SYNACK_TTL])
  }

  function Rewrite6(s: seq<byte>, nh: nat, tcpLen: nat, cookie: u32, mss: u16, little: bool): (r: seq<byte>)
    requires 14 <= nh && 20 <= tcpLen <= MAX_TCP_HDR && nh + 40 + tcpLen <= |s|
    ensures |r| == |s|
  {
    var s1 := Rewrite6Ip(s, nh);
    var s2 := SynAckTcp(s1, nh + 40, tcpLen, cookie, mss);
    var psum := WordSum(s2[nh + 8..nh + 40], little) + Htons(TCP, little) + Htons(tcpLen, little);
    Rechecksum(s2, nh + 40, tcpLen, 16, psum, little)
  }

  // ------------------------------------------------------------------------
  // The C routines, in place
  // ------------------------------------------------------------------------

  /** A store or memcpy into the frame. */
  method Write(f: array<byte>, off: nat, bs: seq<byte>)
    requires off + |bs| <= f.Length
    modifies f
    ensures f[..] == Put(old(f[..]), off, bs)
  {
    forall i | 0 <= i < |bs| {
      f[off + i] := bs[i];
    }
  }

  method SwapFields(f: array<byte>, off: nat, n: nat)
    requires off + 2 * n <= f.Length
    modifies f
    ensures f[..] == Mirror(old(f[..]), off, n)
  {
    var tmp := f[off..off + n];
    Write(f, off, f[off + n..off + 2 * n]);
    Write(f, off + n, tmp);
  }

  /** sp_write_mss over the option area opt..opt + optLen. */
  method WriteMss(f: array<byte>, opt: nat, optLen: nat, mss: u16)
    requires opt + optLen <= f.Length && optLen <= MAX_TCP_HDR - 20
    modifies f
    ensures f[..] == Put(old(f[..]), opt, Options(optLen, mss))
  {
    hide Put, Options, Wire16;
    if optLen < 4 {
      PutNothing(f[..], opt);
      return;
    }
    ghost var opts := Options(optLen, mss);
    OptionPrefixes(optLen, mss, 4);
    Write(f, opt, [2, 4] + Wire16(mss));
    var i := 4;
    while i < optLen
      invariant 4 <= i <= optLen
      invariant f[..] == Put(old(f[..]), opt, opts[..i])
    {
      OptionPrefixes(optLen, mss, i);
      PutAppend(old(f[..]), opt, opts[..i], [1]);
      Write(f, opt + i, [1]);
      i := i + 1;
    }
    assert opts[..i] == opts;
  }

  lemma PutNothing(s: seq<byte>, off: nat)
    requires off <= |s|
    ensures Put(s, off, []) == s
  {
  }

  lemma OptionPrefixes(optLen: nat, mss: u16, i: nat)
    requires 4 <= i <= optLen
    ensures var opts := Options(optLen, mss);
            opts[..4] == [2, 4] + Wire16(mss) && (i < optLen ==> opts[..i + 1] == opts[..i] + [1])
  {
  }

  lemma PutAppend(s: seq<byte>, off: nat, a: seq<byte>, b: seq<byte>)
    requires off + |a| + |b| <= |s|
    ensures Put(Put(s, off, a), off + |a|, b) == Put(s, off, a + b)
  {
  }

  /** The native words of f[off..off + 2 * n] added to a plain 32-bit sum. */
  method SumNative(f: array<byte>, off: nat, n: nat, init: u32, little: bool) returns (sum: u32)
    requires off + 2 * n <= f.Length && init + ONES * n < U32
    ensures sum == init + WordSum(f[off..off + 2 * n], little)
  {
    sum := init;
    var i := 0;
    assert f[off..off] == [];
    while i < n
      invariant 0 <= i <= n
      invariant sum == init + WordSum(f[off..off + 2 * i], little) <= init + ONES * i
    {
      hide WordSum, Load16;
      ghost var pre, w := f[off..off + 2 * i], [f[off + 2 * i], f[off + 2 * i + 1]];
      assert WordSum([], little) == 0 by { NoWords(little); }
      FieldSum(pre, w, [], little);
      assert f[off..off + 2 * (i + 1)] == pre + w + [];
      sum := sum + Load16(f[off + 2 * i], f[off + 2 * i + 1], little);
      i := i + 1;
    }
  }

  lemma NoWords(little: bool)
    ensures WordSum([], little) == 0
  {
  }

  /** sp_make_synack_tcp. */
  method MakeSynAckTcp(f: array<byte>, th: nat, tcpLen: nat, cookie: u32, clientSeq: u32, mss: u16)
    requires 20 <= tcpLen <= MAX_TCP_HDR && th + tcpLen <= f.Length
    requires clientSeq == Be32(f[th + 4..th + 8])
    modifies f
    ensures f[..] == SynAckTcp(old(f[..]), th, tcpLen, cookie, mss)
  {
    hide Be32, Wire32, Wire16, Options, Put, Mirror;
    assert f[..][th + 4..th + 8] == f[th + 4..th + 8];
    SwapFields(f, th, 2);
    Write(f, th + 4, Wire32(cookie));
    Write(f, th + 8, Wire32((clientSeq + 1) % 0x1_0000_0000));
    Write(f, th + 14, Wire16(0xFFFF));
    Write(f, th + 18, [0, 0]);
    Write(f, th + 13, [SYNACK_FLAGS]);
    WriteMss(f, th + 20, tcpLen - 20, mss);
  }

  /** sp_ip4_csum and the store half of sp_tcp_csum: blank the field, sum, fold, store. */
  method Restamp(f: array<byte>, off: nat, len: nat, field: nat, psum: u32, little: bool)
    requires field + 2 <= len <= MAX_TCP_HDR && len % 2 == 0 && off + len <= f.Length
    requires psum <= 18 * ONES
    modifies f
    ensures f[..] == Rechecksum(old(f[..]), off, len, field, psum, little)
  {
    hide WordSum, Put, Store16, Fold;
    Write(f, off + field, [0, 0]);
    ghost var blank := f[..];
    var sum := SumNative(f, off, len / 2, psum, little);
    assert f[off..off + 2 * (len / 2)] == blank[off..off + len];
    assert sum == (psum + WordSum(blank[off..off + len], little)) % U32;
    Write(f, off + field, Store16(Fold(sum), little));
  }

  /**
   * The helper's answer on the wire: its low 32 bits are the sequence number and,
   * where there is option space, the MSS option holds the 16 bits above them.
   */
  ghost predicate CarriesAnswer(t: seq<byte>, th: nat, tcpLen: nat, value: int)
    requires 20 <= tcpLen && th + tcpLen <= |t|
  {
    var seqNo: int := Be32(t[th + 4..th + 8]);
    && seqNo == value % 0x1_0000_0000
    && (tcpLen >= 24 ==>
          var mss: int := Be16(t[th + 22..th + 24]);
          mss * 0x1_0000_0000 + seqNo == value % 0x1_0000_0000_0000)
  }

  /** The two halves of the helper's 64-bit answer. */
  function Cookie(value: nat): u32 { value % 0x1_0000_0000 }

  function Mss(value: nat): u16 { (value / 0x1_0000_0000) % 0x1_0000 }

  method RewriteIp4(f: array<byte>, nh: nat, little: bool)
    requires 14 <= nh && nh + 20 <= f.Length
    modifies f
    ensures f[..] == Rewrite4Ip(old(f[..]), nh, little)
  {
    hide Put, Mirror, Rechecksum;
    SwapFields(f, 0, 6);
    SwapFields(f, nh + 12, 4);
    Write(f, nh + 8, [SYNACK_TTL]);
    Write(f, nh + 4, [0, 0]);
    Write(f, nh + 6, [0x40, 0]);
    Restamp(f, nh, 20, 10, 0, little);
  }

  method RewriteIp6(f: array<byte>, nh: nat)
    requires 14 <= nh && nh + 40 <= f.Length
    modifies f
    ensures f[..] == Rewrite6Ip(old(f[..]), nh)
  {
    hide Put, Mirror;
    SwapFields(f, 0, 6);
    SwapFields(f, nh + 8, 16);
    Write(f, nh + 7, [SYNACK_TTL]);
  }

  /** The transport half: TCP header, then its checksum behind the pseudo header at addrs..addrs + 2 * words. */
  method RewriteTcp(f: array<byte>, th: nat, tcpLen: nat, addrs: nat, words: nat, clientSeq: u32, cookie: u32,
                    mss: u16, little: bool)
    requires 20 <= tcpLen <= MAX_TCP_HDR && tcpLen % 2 == 0 && th + tcpLen <= f.Length
    requires addrs + 2 * words <= f.Length && words <= 16 && clientSeq == Be32(f[th + 4..th + 8])
    modifies f
    ensures var s := SynAckTcp(old(f[..]), th, tcpLen, cookie, mss);
            var psum := WordSum(s[addrs..addrs + 2 * words], little) + Htons(TCP, little) + Htons(tcpLen, little);
            f[..] == Rechecksum(s, th, tcpLen, 16, psum, little)
  {
    hide WordSum, Htons, Be32, SynAckTcp, Rechecksum;
    MakeSynAckTcp(f, th, tcpLen, cookie, clientSeq, mss);
    assert f[..][addrs..addrs + 2 * words] == f[addrs..addrs + 2 * words];
    var psum := SumNative(f, addrs, words, 0, little);
    WordSumBound(f[addrs..addrs + 2 * words], little);
    psum := psum + Htons(TCP, little) + Htons(tcpLen, little);
    Restamp(f, th, tcpLen, 16, psum, little);
  }

  method TurnAround4(f: array<byte>, nh: nat, tcpLen: nat, cookie: u32, mss: u16, little: bool)
    requires 14 <= nh && 20 <= tcpLen <= MAX_TCP_HDR && tcpLen % 2 == 0 && nh + 20 + tcpLen <= f.Length
    modifies f
    ensures f[..] == Rewrite4(old(f[..]), nh, tcpLen, cookie, mss, little)
  {
    hide WordSum, Htons, Be32, SynAckTcp, Rechecksum, Rewrite4Ip;
    var th := nh + 20;
    var clientSeq := Be32(f[th + 4..th + 8]);
    Rewrite4IpKeeps(f[..], nh, little);
    RewriteIp4(f, nh, little);
    assert f[th + 4..th + 8] == f[..][th + 4..th + 8] == old(f[..])[th + 4..th + 8] == old(f[th + 4..th + 8]);
    RewriteTcp(f, th, tcpLen, nh + 12, 4, clientSeq, cookie, mss, little);
  }

  /** sp_syn_v4: a SYN with options-bearing IP header, with payload, or without a cookie is passed untouched. */
  method SynV4(f: array<byte>, nh: nat, tcpLen: nat, value: int, little: bool) returns (tx: bool)
    requires 14 <= nh && 20 <= tcpLen <= MAX_TCP_HDR && tcpLen % 4 == 0
    requires nh + 20 <= f.Length && nh + 4 * (f[nh] % 16) + tcpLen <= f.Length
    modifies f
    ensures tx <==> old(f[nh]) % 16 == 5 && Be16(old(f[nh + 2..nh + 4])) == 20 + tcpLen && value >= 0
    ensures !tx ==> f[..] == old(f[..])
    ensures tx ==> f[..] == Rewrite4(old(f[..]), nh, tcpLen, Cookie(value), Mss(value), little)
    ensures tx ==> CarriesAnswer(f[..], nh + 20, tcpLen, value)
  {
    if f[nh] % 16 != 5 || Be16(f[nh + 2..nh + 4]) != 20 + tcpLen || value < 0 {
      return false;
    }
    hide Rewrite4;
    ghost var s := f[..];
    TurnAround4(f, nh, tcpLen, Cookie(value), Mss(value), little);
    Answered4(s, nh, tcpLen, value, little);
    return true;
  }

  method TurnAround6(f: array<byte>, nh: nat, tcpLen: nat, cookie: u32, mss: u16, little: bool)
    requires 14 <= nh && 20 <= tcpLen <= MAX_TCP_HDR && tcpLen % 2 == 0 && nh + 40 + tcpLen <= f.Length
    modifies f
    ensures f[..] == Rewrite6(old(f[..]), nh, tcpLen, cookie, mss, little)
  {
    hide WordSum, Htons, Be32, SynAckTcp, Rechecksum, Rewrite6Ip;
    var th := nh + 40;
    var clientSeq := Be32(f[th + 4..th + 8]);
    Rewrite6IpKeeps(f[..], nh);
    RewriteIp6(f, nh);
    assert f[th + 4..th + 8] == f[..][th + 4..th + 8] == old(f[..])[th + 4..th + 8] == old(f[th + 4..th + 8]);
    RewriteTcp(f, th, tcpLen, nh + 8, 16, clientSeq, cookie, mss, little);
  }

  /** sp_syn_v6. */
  method SynV6(f: array<byte>, nh: nat, tcpLen: nat, value: int, little: bool) returns (tx: bool)
    requires 14 <= nh && 20 <= tcpLen <= MAX_TCP_HDR && tcpLen % 4 == 0
    requires nh + 40 + tcpLen <= f.Length
    modifies f
    ensures tx <==> Be16(old(f[nh + 4..nh + 6])) == tcpLen && value >= 0
    ensures !tx ==> f[..] == old(f[..])
    ensures tx ==> f[..] == Rewrite6(old(f[..]), nh, tcpLen, Cookie(value), Mss(value), little)
    ensures tx ==> CarriesAnswer(f[..], nh + 40, tcpLen, value)
  {
    if Be16(f[nh + 4..nh + 6]) != tcpLen || value < 0 {
      return false;
    }
    hide Rewrite6;
    ghost var s := f[..];
    TurnAround6(f, nh, tcpLen, Cookie(value), Mss(value), little);
    Answered6(s, nh, tcpLen, value, little);
    return true;
  }

  // ------------------------------------------------------------------------
  // What the rewritten frame says
  // ------------------------------------------------------------------------

  lemma Rewrite4IpKeeps(s: seq<byte>, nh: nat, little: bool)
    requires 14 <= nh && nh + 20 <= |s|
    ensures var r := Rewrite4Ip(s, nh, little);
            forall a, b {:trigger r[a..b]} :: nh + 20 <= a <= b <= |s| ==> r[a..b] == s[a..b]
  {
    hide WordSum, Store16, Put, Mirror;
  }

  lemma Rewrite6IpKeeps(s: seq<byte>, nh: nat)
    requires 14 <= nh && nh + 40 <= |s|
    ensures var r := Rewrite6Ip(s, nh);
            forall a, b {:trigger r[a..b]} :: nh + 40 <= a <= b <= |s| ==> r[a..b] == s[a..b]
  {
    hide Put, Mirror;
  }

  /** Ethernet addresses mirrored, ethertype and VLAN tags kept. */
  ghost predicate LinkMirrored(s: seq<byte>, t: seq<byte>, nh: nat)
    requires 14 <= nh <= |s| == |t|
  {
    t[0..6] == s[6..12] && t[6..12] == s[0..6] && t[12..nh] == s[12..nh]
  }

  /** An MSS option and nothing but NOPs after it. */
  ghost predicate OptionArea(opt: seq<byte>, mss: u16) {
    |opt| >= 4 && opt[..2] == [2, 4] && Be16(opt[2..4]) == mss && forall i :: 4 <= i < |opt| ==> opt[i] == 1
  }

  /** The TCP header of the reply, its checksum apart. */
  ghost predicate SynAckHeader(s: seq<byte>, t: seq<byte>, th: nat, tcpLen: nat, cookie: u32, mss: u16)
    requires |s| == |t| && 20 <= tcpLen && th + tcpLen <= |s|
  {
    && t[th..th + 2] == s[th + 2..th + 4] && t[th + 2..th + 4] == s[th..th + 2]
    && Be32(t[th + 4..th + 8]) == cookie
    && Be32(t[th + 8..th + 12]) == (Be32(s[th + 4..th + 8]) + 1) % 0x1_0000_0000
    && t[th + 12..th + 13] == s[th + 12..th + 13] && t[th + 13..th + 14] == [SYNACK_FLAGS]
    && Be16(t[th + 14..th + 16]) == 0xFFFF && t[th + 18..th + 20] == [0, 0]
    && (tcpLen == 20 || OptionArea(t[th + 20..th + tcpLen], mss))
  }

  lemma HalvesJoin(value: nat)
    ensures Cookie(value) == value % 0x1_0000_0000
    ensures var mss: int := Mss(value); mss * 0x1_0000_0000 + Cookie(value) == value % 0x1_0000_0000_0000
  {
  }

  /** A reply whose sequence number and MSS are the two halves carries the answer. */
  lemma ReplyCarriesAnswer(s: seq<byte>, t: seq<byte>, th: nat, tcpLen: nat, value: nat)
    requires |s| == |t| && 20 <= tcpLen && th + tcpLen <= |s|
    requires SynAckHeader(s, t, th, tcpLen, Cookie(value), Mss(value))
    ensures CarriesAnswer(t, th, tcpLen, value)
  {
    hide Be32, Be16, Cookie, Mss;
    HalvesJoin(value);
    if tcpLen >= 24 {
      var opt := t[th + 20..th + tcpLen];
      assert opt[2..4] == [opt[2], opt[3]] && t[th + 22..th + 24] == [t[th + 22], t[th + 23]];
      assert opt[2] == t[th + 22] && opt[3] == t[th + 23];
    }
  }

  lemma WireReads(x: u32, y: u16)
    ensures Be32(Wire32(x)) == x && Be16(Wire16(y)) == y
  {
  }

  lemma OptionsSay(optLen: nat, mss: u16)
    requires optLen >= 4
    ensures OptionArea(Options(optLen, mss), mss)
  {
    WireReads(0, mss);
    hide Wire16, Be16;
    assert Options(optLen, mss)[2..4] == Wire16(mss);
  }

  lemma SynAckTcpSays(s: seq<byte>, th: nat, tcpLen: nat, cookie: u32, mss: u16)
    requires 20 <= tcpLen && tcpLen % 4 == 0 && th + tcpLen <= |s|
    ensures SynAckHeader(s, SynAckTcp(s, th, tcpLen, cookie, mss), th, tcpLen, cookie, mss)
  {
    hide Be32, Be16, Wire32, Wire16, Put, Mirror, Options, OptionArea;
    var ack := (Be32(s[th + 4..th + 8]) + 1) % 0x1_0000_0000;
    WireReads(cookie, 0xFFFF);
    WireReads(ack, mss);
    if tcpLen > 20 { OptionsSay(tcpLen - 20, mss); }
    var t := SynAckTcp(s, th, tcpLen, cookie, mss);
    assert t[th + 4..th + 8] == Wire32(cookie) && t[th + 8..th + 12] == Wire32(ack);
  }

  /** Only the field moves, and prefix and range verify together. */
  lemma RechecksumVerifies(s: seq<byte>, off: nat, len: nat, field: nat, prefix: seq<byte>, little: bool)
    requires field + 2 <= len <= MAX_TCP_HDR && off + len <= |s| && field % 2 == 0
    requires |prefix| % 2 == 0 && |prefix| <= MAX_TCP_HDR
    ensures var t := Rechecksum(s, off, len, field, WordSum(prefix, little), little);
            Verifies(prefix + t[off..off + len])
  {
    hide WordSum, Fold, Blank, Stamp, Rechecksum;
    var psum := WordSum(prefix, little);
    var bs := s[off..off + len];
    WordSumBound(prefix, little);
    WordSumBound(Blank(bs, field), little);
    var acc := psum + WordSum(Blank(bs, field), little);
    assert acc % U32 == acc;
    RechecksumSlice(s, off, len, field, psum, little);
    SameRefl(acc);
    StampVerifies(prefix, bs, field, acc, Fold(acc), little);
  }

  lemma RechecksumField(s: seq<byte>, off: nat, len: nat, field: nat, prefix: seq<byte>, little: bool)
    requires field + 2 <= len <= MAX_TCP_HDR && off + len <= |s|
    requires |prefix| % 2 == 0 && |prefix| <= MAX_TCP_HDR
    ensures var blank := Put(s, off + field, [0, 0]);
            Rechecksum(s, off, len, field, WordSum(prefix, little), little)
            == Put(blank, off + field, Store16(Checksum(WordSum(prefix + blank[off..off + len], little)), little))
  {
    hide WordSum, Fold, Put, Checksum, Store16;
    var bs := Put(s, off + field, [0, 0])[off..off + len];
    WordSumBound(prefix, little);
    WordSumBound(bs, little);
    var acc := WordSum(prefix, little) + WordSum(bs, little);
    assert acc % U32 == acc;
    SameRefl(acc);
    FoldIsChecksum(prefix, bs, acc, little);
  }

  /** Both hosts rewrite the field to the same two bytes. */
  lemma RechecksumAgrees(s: seq<byte>, off: nat, len: nat, field: nat, prefix: seq<byte>)
    requires field + 2 <= len <= MAX_TCP_HDR && off + len <= |s|
    requires |prefix| % 2 == 0 && |prefix| <= MAX_TCP_HDR
    ensures Rechecksum(s, off, len, field, WordSum(prefix, true), true)
            == Rechecksum(s, off, len, field, WordSum(prefix, false), false)
  {
    hide WordSum, Put, Checksum, Store16, Rechecksum;
    RechecksumField(s, off, len, field, prefix, true);
    RechecksumField(s, off, len, field, prefix, false);
    ByteOrderIndependence(prefix + Put(s, off + field, [0, 0])[off..off + len]);
  }

  lemma Rewrite4IpAgrees(s: seq<byte>, nh: nat)
    requires 14 <= nh && nh + 20 <= |s|
    ensures Rewrite4Ip(s, nh, true) == Rewrite4Ip(s, nh, false)
  {
    hide Put, Mirror, Rechecksum;
    var s5 := Put(Put(Put(Mirror(Mirror(s, 0, 6), nh + 12, 4), nh + 8, [SYNACK_TTL]), nh + 4, [0, 0]), nh + 6, [0x40, 0]);
    RechecksumAgrees(s5, nh, 20, 10, []);
  }

  /** The whole IPv4 reply is the same frame on both hosts. */
  lemma Rewrite4Agrees(s: seq<byte>, nh: nat, tcpLen: nat, cookie: u32, mss: u16)
    requires 14 <= nh && 20 <= tcpLen <= MAX_TCP_HDR && nh + 20 + tcpLen <= |s|
    ensures Rewrite4(s, nh, tcpLen, cookie, mss, true) == Rewrite4(s, nh, tcpLen, cookie, mss, false)
  {
    hide Rewrite4Ip, SynAckTcp, Rechecksum, WordSum, Htons, Pseudo4;
    Rewrite4IpAgrees(s, nh);
    var s2 := SynAckTcp(Rewrite4Ip(s, nh, true), nh + 20, tcpLen, cookie, mss);
    PseudoFrame4(s2, nh, tcpLen, true);
    PseudoFrame4(s2, nh, tcpLen, false);
    RechecksumAgrees(s2, nh + 20, tcpLen, 16, Pseudo4(s2[nh + 12..nh + 16], s2[nh + 16..nh + 20], TCP, tcpLen));
  }

  /** The whole IPv6 reply is the same frame on both hosts. */
  lemma Rewrite6Agrees(s: seq<byte>, nh: nat, tcpLen: nat, cookie: u32, mss: u16)
    requires 14 <= nh && 20 <= tcpLen <= MAX_TCP_HDR && nh + 40 + tcpLen <= |s|
    ensures Rewrite6(s, nh, tcpLen, cookie, mss, true) == Rewrite6(s, nh, tcpLen, cookie, mss, false)
  {
    hide Rewrite6Ip, SynAckTcp, Rechecksum, WordSum, Htons, Pseudo6;
    var s2 := SynAckTcp(Rewrite6Ip(s, nh), nh + 40, tcpLen, cookie, mss);
    PseudoFrame6(s2, nh, tcpLen, true);
    PseudoFrame6(s2, nh, tcpLen, false);
    RechecksumAgrees(s2, nh + 40, tcpLen, 16, Pseudo6(s2[nh + 8..nh + 24], s2[nh + 24..nh + 40], TCP, tcpLen));
  }

  lemma RechecksumSlice(s: seq<byte>, off: nat, len: nat, field: nat, psum: nat, little: bool)
    requires field + 2 <= len && off + len <= |s|
    ensures var bs := s[off..off + len];
            Rechecksum(s, off, len, field, psum, little)[off..off + len]
            == Stamp(bs, field, Fold((psum + WordSum(Blank(bs, field), little)) % U32), little)
  {
    hide WordSum, Store16, Fold, Put;
    PutInRange(s, off, len, field, [0, 0]);
    var bs, blank := s[off..off + len], Put(s, off + field, [0, 0]);
    assert blank[off..off + len] == Blank(bs, field);
    var v := Store16(Fold((psum + WordSum(Blank(bs, field), little)) % U32), little);
    PutInRange(blank, off, len, field, v);
  }

  lemma PutInRange(s: seq<byte>, off: nat, len: nat, field: nat, v: seq<byte>)
    requires |v| == 2 && field + 2 <= len && off + len <= |s|
    ensures var bs := s[off..off + len];
            Put(s, off + field, v)[off..off + len] == bs[..field] + v + bs[field + 2..]
  {
  }

  /** IPv4 part of the reply: kept fields kept, addresses mirrored, header checksum valid. */
  ghost predicate Ip4Reply(s: seq<byte>, t: seq<byte>, nh: nat)
    requires nh + 20 <= |s| == |t|
  {
    && t[nh..nh + 4] == s[nh..nh + 4] && t[nh + 4..nh + 6] == [0, 0] && t[nh + 6..nh + 8] == [0x40, 0]
    && t[nh + 8..nh + 9] == [SYNACK_TTL] && t[nh + 9..nh + 10] == s[nh + 9..nh + 10]
    && t[nh + 12..nh + 16] == s[nh + 16..nh + 20] && t[nh + 16..nh + 20] == s[nh + 12..nh + 16]
    && Verifies(t[nh..nh + 20])
  }

  lemma Rewrite4IpSays(s: seq<byte>, nh: nat, little: bool)
    requires 14 <= nh && nh + 20 <= |s|
    ensures var t := Rewrite4Ip(s, nh, little);
            LinkMirrored(s, t, nh) && Ip4Reply(s, t, nh)
  {
    hide Put, Mirror, Verifies, WordSum, Store16, Fold;
    Rewrite4IpVerifies(s, nh, little);
  }

  lemma Rewrite4IpVerifies(s: seq<byte>, nh: nat, little: bool)
    requires 14 <= nh && nh + 20 <= |s|
    ensures Verifies(Rewrite4Ip(s, nh, little)[nh..nh + 20])
  {
    var s5 := Put(Put(Put(Mirror(Mirror(s, 0, 6), nh + 12, 4), nh + 8, [SYNACK_TTL]), nh + 4, [0, 0]), nh + 6, [0x40, 0]);
    var t := Rewrite4Ip(s, nh, little);
    assert WordSum([], little) == 0;
    hide Put, Mirror, Verifies, WordSum, Rechecksum;
    RechecksumVerifies(s5, nh, 20, 10, [], little);
    assert [] + t[nh..nh + 20] == t[nh..nh + 20];
  }

  /** The whole IPv4 reply to the SYN at nh. */
  ghost predicate Reply4(s: seq<byte>, t: seq<byte>, nh: nat, tcpLen: nat, cookie: u32, mss: u16)
    requires 14 <= nh && 20 <= tcpLen <= MAX_TCP_HDR && nh + 20 + tcpLen <= |s|
  {
    var th := nh + 20;
    && |t| == |s| && LinkMirrored(s, t, nh) && Ip4Reply(s, t, nh)
    && SynAckHeader(s, t, th, tcpLen, cookie, mss) && t[th + tcpLen..|t|] == s[th + tcpLen..|s|]
    && Verifies(Pseudo4(t[nh + 12..nh + 16], t[nh + 16..nh + 20], TCP, tcpLen) + t[th..th + tcpLen])
  }

  lemma Answered4(s: seq<byte>, nh: nat, tcpLen: nat, value: nat, little: bool)
    requires 14 <= nh && 20 <= tcpLen <= MAX_TCP_HDR && tcpLen % 4 == 0 && nh + 20 + tcpLen <= |s|
    ensures CarriesAnswer(Rewrite4(s, nh, tcpLen, Cookie(value), Mss(value), little), nh + 20, tcpLen, value)
  {
    hide Rewrite4, Cookie, Mss, Verifies, SynAckHeader;
    SynAck4Correct(s, nh, tcpLen, Cookie(value), Mss(value), little);
    ReplyCarriesAnswer(s, Rewrite4(s, nh, tcpLen, Cookie(value), Mss(value), little), nh + 20, tcpLen, value);
  }

  lemma SynAck4Correct(s: seq<byte>, nh: nat, tcpLen: nat, cookie: u32, mss: u16, little: bool)
    requires 14 <= nh && 20 <= tcpLen <= MAX_TCP_HDR && tcpLen % 4 == 0 && nh + 20 + tcpLen <= |s|
    ensures Reply4(s, Rewrite4(s, nh, tcpLen, cookie, mss, little), nh, tcpLen, cookie, mss)
  {
    hide Put, Verifies, WordSum, Htons, Store16, Be32, Be16, OptionArea, Rechecksum, SynAckTcp, Rewrite4Ip;
    var th := nh + 20;
    var s1 := Rewrite4Ip(s, nh, little);
    var s2 := SynAckTcp(s1, th, tcpLen, cookie, mss);
    Rewrite4IpKeeps(s, nh, little);
    Keeps4(s, nh, tcpLen, cookie, mss, little);
    Rewrite4IpSays(s, nh, little);
    SynAckTcpSays(s1, th, tcpLen, cookie, mss);
    PseudoFrame4(s2, nh, tcpLen, little);
    RechecksumVerifies(s2, th, tcpLen, 16, Pseudo4(s2[nh + 12..nh + 16], s2[nh + 16..nh + 20], TCP, tcpLen), little);
  }

  lemma Keeps4(s: seq<byte>, nh: nat, tcpLen: nat, cookie: u32, mss: u16, little: bool)
    requires 14 <= nh && 20 <= tcpLen <= MAX_TCP_HDR && nh + 20 + tcpLen <= |s|
    ensures var s1 := Rewrite4Ip(s, nh, little);
            var s2 := SynAckTcp(s1, nh + 20, tcpLen, cookie, mss);
            var t := Rewrite4(s, nh, tcpLen, cookie, mss, little);
            forall a, b {:trigger t[a..b]} :: 0 <= a <= b <= |s| ==>
              && (b <= nh + 20 ==> t[a..b] == s1[a..b] == s2[a..b])
              && (nh + 20 + tcpLen <= a ==> t[a..b] == s[a..b])
              && (nh + 20 <= a && (b <= nh + 36 || nh + 38 <= a) ==> t[a..b] == s2[a..b])
  {
    hide Put, Mirror, WordSum, Htons, Store16, Be32;
  }

  lemma PseudoFrame4(s: seq<byte>, nh: nat, tcpLen: u16, little: bool)
    requires nh + 20 <= |s|
    ensures WordSum(Pseudo4(s[nh + 12..nh + 16], s[nh + 16..nh + 20], TCP, tcpLen), little)
            == WordSum(s[nh + 12..nh + 20], little) + Htons(TCP, little) + Htons(tcpLen, little)
  {
    Pseudo4Sum(s[nh + 12..nh + 16], s[nh + 16..nh + 20], TCP, tcpLen, little);
    assert s[nh + 12..nh + 20] == s[nh + 12..nh + 16] + s[nh + 16..nh + 20];
    hide WordSum, Htons;
    WordSumConcat(s[nh + 12..nh + 16], s[nh + 16..nh + 20], little);
  }

  /** IPv6 part of the reply. */
  ghost predicate Ip6Reply(s: seq<byte>, t: seq<byte>, nh: nat)
    requires nh + 40 <= |s| == |t|
  {
    && t[nh..nh + 7] == s[nh..nh + 7] && t[nh + 7..nh + 8] == [SYNACK_TTL]
    && t[nh + 8..nh + 24] == s[nh + 24..nh + 40] && t[nh + 24..nh + 40] == s[nh + 8..nh + 24]
  }

  /** The whole IPv6 reply to the SYN at nh. */
  ghost predicate Reply6(s: seq<byte>, t: seq<byte>, nh: nat, tcpLen: nat, cookie: u32, mss: u16)
    requires 14 <= nh && 20 <= tcpLen <= MAX_TCP_HDR && nh + 40 + tcpLen <= |s|
  {
    var th := nh + 40;
    && |t| == |s| && LinkMirrored(s, t, nh) && Ip6Reply(s, t, nh)
    && SynAckHeader(s, t, th, tcpLen, cookie, mss) && t[th + tcpLen..|t|] == s[th + tcpLen..|s|]
    && Verifies(Pseudo6(t[nh + 8..nh + 24], t[nh + 24..nh + 40], TCP, tcpLen) + t[th..th + tcpLen])
  }

  lemma Answered6(s: seq<byte>, nh: nat, tcpLen: nat, value: nat, little: bool)
    requires 14 <= nh && 20 <= tcpLen <= MAX_TCP_HDR && tcpLen % 4 == 0 && nh + 40 + tcpLen <= |s|
    ensures CarriesAnswer(Rewrite6(s, nh, tcpLen, Cookie(value), Mss(value), little), nh + 40, tcpLen, value)
  {
    hide Rewrite6, Cookie, Mss, Verifies, SynAckHeader;
    SynAck6Correct(s, nh, tcpLen, Cookie(value), Mss(value), little);
    ReplyCarriesAnswer(s, Rewrite6(s, nh, tcpLen, Cookie(value), Mss(value), little), nh + 40, tcpLen, value);
  }

  lemma SynAck6Correct(s: seq<byte>, nh: nat, tcpLen: nat, cookie: u32, mss: u16, little: bool)
    requires 14 <= nh && 20 <= tcpLen <= MAX_TCP_HDR && tcpLen % 4 == 0 && nh + 40 + tcpLen <= |s|
    ensures Reply6(s, Rewrite6(s, nh, tcpLen, cookie, mss, little), nh, tcpLen, cookie, mss)
  {
    hide Put, Verifies, WordSum, Htons, Store16, Be32, Be16, OptionArea, Rechecksum, SynAckTcp, Rewrite6Ip;
    var th := nh + 40;
    var s1 := Rewrite6Ip(s, nh);
    var s2 := SynAckTcp(s1, th, tcpLen, cookie, mss);
    Rewrite6IpKeeps(s, nh);
    Keeps6(s, nh, tcpLen, cookie, mss, little);
    Rewrite6IpSays(s, nh);
    SynAckTcpSays(s1, th, tcpLen, cookie, mss);
    PseudoFrame6(s2, nh, tcpLen, little);
    RechecksumVerifies(s2, th, tcpLen, 16, Pseudo6(s2[nh + 8..nh + 24], s2[nh + 24..nh + 40], TCP, tcpLen), little);
  }

  lemma Rewrite6IpSays(s: seq<byte>, nh: nat)
    requires 14 <= nh && nh + 40 <= |s|
    ensures var t := Rewrite6Ip(s, nh);
            LinkMirrored(s, t, nh) && Ip6Reply(s, t, nh)
  {
    hide Put, Mirror;
  }

  lemma Keeps6(s: seq<byte>, nh: nat, tcpLen: nat, cookie: u32, mss: u16, little: bool)
    requires 14 <= nh && 20 <= tcpLen <= MAX_TCP_HDR && nh + 40 + tcpLen <= |s|
    ensures var s1 := Rewrite6Ip(s, nh);
            var s2 := SynAckTcp(s1, nh + 40, tcpLen, cookie, mss);
            var t := Rewrite6(s, nh, tcpLen, cookie, mss, little);
            forall a, b {:trigger t[a..b]} :: 0 <= a <= b <= |s| ==>
              && (b <= nh + 40 ==> t[a..b] == s1[a..b] == s2[a..b])
              && (nh + 40 + tcpLen <= a ==> t[a..b] == s[a..b])
              && (nh + 40 <= a && (b <= nh + 56 || nh + 58 <= a) ==> t[a..b] == s2[a..b])
  {
    hide Put, Mirror, WordSum, Htons, Store16, Be32;
  }

  lemma PseudoFrame6(s: seq<byte>, nh: nat, tcpLen: u16, little: bool)
    requires nh + 40 <= |s|
    ensures WordSum(Pseudo6(s[nh + 8..nh + 24], s[nh + 24..nh + 40], TCP, tcpLen), little)
            == WordSum(s[nh + 8..nh + 40], little) + Htons(TCP, little) + Htons(tcpLen, little)
  {
    SmallWire(tcpLen, little);
    SmallWire(TCP, little);
    hide WordSum, Htons, Pseudo6;
    Pseudo6Sum(s[nh + 8..nh + 24], s[nh + 24..nh + 40], TCP, tcpLen, little);
    assert s[nh + 8..nh + 40] == s[nh + 8..nh + 24] + s[nh + 24..nh + 40];
    WordSumConcat(s[nh + 8..nh + 24], s[nh + 24..nh + 40], little);
  }

  lemma SmallWire(x: u16, little: bool)
    ensures WordSum(Wire32(x), little) == Htons(x, little)
  {
    var w := Wire16(x);
    assert Wire32(x) == [] + [0, 0] + w && w == [] + w + [];
    FieldSum([], [0, 0], w, little);
    FieldSum([], w, [], little);
  }

  // ------------------------------------------------------------------------
  // The program: from the received frame to the verdict
  // ------------------------------------------------------------------------

  const ETH_IP: u16 := 0x0800
  const ETH_IPV6: u16 := 0x86DD

  predicate IsTag(proto: nat) {
    proto == 0x8100 || proto == 0x88A8 || proto == 0x9100
  }

  datatype Link = Truncated | Payload(proto: u16, nh: nat)

  /** Where the network header starts once at most n VLAN tags are stripped. */
  function Strip(s: seq<byte>, n: nat): (l: Link)
    ensures l.Payload? ==> 14 <= l.nh <= |s|
  {
    if n == 0 then (if |s| < 14 then Truncated else Payload(Be16(s[12..14]), 14))
    else
      var l := Strip(s, n - 1);
      if l.Truncated? || !IsTag(l.proto) then l
      else if l.nh + 4 > |s| then Truncated
      else Payload(Be16(s[l.nh + 2..l.nh + 4]), l.nh + 4)
  }

  predicate FlagSet(flags: byte, bit: nat)
    requires bit > 0
  {
    (flags / bit) % 2 == 1
  }

  predicate IsSyn(flags: byte) {
    FlagSet(flags, 2) && !FlagSet(flags, 0x10) && !FlagSet(flags, 4) && !FlagSet(flags, 1)
  }

  predicate IsAck(flags: byte) {
    FlagSet(flags, 0x10) && !FlagSet(flags, 2) && !FlagSet(flags, 4) && !FlagSet(flags, 1)
  }

  /** What the maps and the helpers answer for this packet. */
  datatype World = World(monitor: bool, mgmt: set<u16>, allowlisted: bool, closed: bool, known: bool, strict: bool,
                         cookie: int, ackValid: bool)

  datatype Verdict = Pass | Drop | Tx

  /** The TCP header the program settles on, if any. */
  datatype Segment = Absent | Found(ip6: bool, nh: nat, th: nat, tcpLen: nat)

  /** g is a complete, unfragmented TCP header right behind the IP header of s, with both ports set. */
  ghost predicate SegmentOf(s: seq<byte>, g: Segment) {
    && g.Found?
    && Strip(s, 2) == Payload(if g.ip6 then ETH_IPV6 else ETH_IP, g.nh)
    && (if g.ip6 then g.nh + 40 <= |s| && s[g.nh + 6] == TCP && g.th == g.nh + 40
        else g.nh + 20 <= |s| && s[g.nh + 9] == TCP && s[g.nh] % 16 >= 5 && g.th == g.nh + 4 * (s[g.nh] % 16)
             && Be16(s[g.nh + 6..g.nh + 8]) % 0x4000 == 0)
    && g.th + 20 <= |s| && Be16(s[g.th..g.th + 2]) != 0 && Be16(s[g.th + 2..g.th + 4]) != 0
    && g.tcpLen == s[g.th + 12] / 16 * 4 && 20 <= g.tcpLen <= MAX_TCP_HDR && g.th + g.tcpLen <= |s|
  }

  /** The VLAN loop. */
  method StripTags(s: seq<byte>) returns (l: Link)
    ensures l == Strip(s, 2)
  {
    if |s| < 14 {
      return Truncated;
    }
    var proto, nh := Be16(s[12..14]), 14;
    var i := 0;
    while i < 2 && IsTag(proto)
      invariant 0 <= i <= 2 && 14 <= nh <= |s|
      invariant Strip(s, i) == Payload(proto, nh)
    {
      if nh + 4 > |s| {
        StripStops(s, i + 1, 2);
        return Truncated;
      }
      proto, nh := Be16(s[nh + 2..nh + 4]), nh + 4;
      i := i + 1;
    }
    StripStops(s, i, 2);
    return Payload(proto, nh);
  }

  /** caly_xdp_synproxy up to the TCP checks: the segment if there is one. */
  method Locate(s: seq<byte>) returns (g: Segment)
    ensures g.Found? ==> SegmentOf(s, g)
    ensures g.Absent? ==> forall h :: !SegmentOf(s, h)
  {
    hide Be16;
    var l := StripTags(s);
    hide Strip;
    if l.Truncated? {
      return Absent;
    }
    var nh := l.nh;
    var ip6 := l.proto == ETH_IPV6;
    var th: nat;
    if l.proto == ETH_IP {
      if nh + 20 > |s| || s[nh + 9] != TCP || s[nh] % 16 < 5 || Be16(s[nh + 6..nh + 8]) % 0x4000 != 0 {
        return Absent;
      }
      th := nh + 4 * (s[nh] % 16);
    } else if ip6 {
      if nh + 40 > |s| || s[nh + 6] != TCP {
        return Absent;
      }
      th := nh + 40;
    } else {
      return Absent;
    }
    if th + 20 > |s| || Be16(s[th..th + 2]) == 0 || Be16(s[th + 2..th + 4]) == 0 {
      return Absent;
    }
    var tcpLen: nat := s[th + 12] / 16 * 4;
    if tcpLen < 20 || tcpLen > MAX_TCP_HDR || th + tcpLen > |s| {
      return Absent;
    }
    return Found(ip6, nh, th, tcpLen);
  }

  lemma {:induction false} StripStops(s: seq<byte>, i: nat, n: nat)
    requires i <= n
    requires i == n || Strip(s, i).Truncated? || !IsTag(Strip(s, i).proto)
    ensures Strip(s, n) == Strip(s, i)
  {
    if i < n { StripStops(s, i, n - 1); }
  }

  /** The SYN carries no payload and its IP header no options. */
  ghost predicate Bare(s: seq<byte>, g: Segment)
    requires SegmentOf(s, g)
  {
    if g.ip6 then Be16(s[g.nh + 4..g.nh + 6]) == g.tcpLen
    else s[g.nh] % 16 == 5 && Be16(s[g.nh + 2..g.nh + 4]) == 20 + g.tcpLen
  }

  /** The packet is past every escape hatch of the program. */
  ghost predicate Exposed(s: seq<byte>, g: Segment, w: World)
    requires SegmentOf(s, g)
  {
    !w.monitor && Be16(s[g.th + 2..g.th + 4]) !in w.mgmt && !w.allowlisted && !w.closed && !w.known
  }

  /**
   * caly_xdp_synproxy: exactly the bare, exposed SYNs with a cookie are transmitted, each as the correct reply to the
   * frame it replaces; any other verdict leaves the frame as received; a drop needs an exposed ACK with a bad cookie.
   */
  method Proxy(f: array<byte>, w: World, little: bool) returns (v: Verdict, ghost g: Segment)
    modifies f
    ensures if g.Found? then SegmentOf(old(f[..]), g) else forall h :: !SegmentOf(old(f[..]), h)
    ensures v == Tx <==> && g.Found? && IsSyn(old(f[..])[g.th + 13]) && Exposed(old(f[..]), g, w)
                         && Bare(old(f[..]), g) && w.cookie >= 0
    ensures v == Tx && !g.ip6 ==> Reply4(old(f[..]), f[..], g.nh, g.tcpLen, Cookie(w.cookie), Mss(w.cookie))
    ensures v == Tx && g.ip6 ==> Reply6(old(f[..]), f[..], g.nh, g.tcpLen, Cookie(w.cookie), Mss(w.cookie))
    ensures v == Tx ==> CarriesAnswer(f[..], g.th, g.tcpLen, w.cookie)
    ensures v != Tx ==> f[..] == old(f[..])
    ensures v == Drop <==> && g.Found? && IsAck(old(f[..])[g.th + 13]) && Exposed(old(f[..]), g, w)
                           && w.strict && !w.ackValid
  {
    hide Strip, Be16, Reply4, Reply6, Bare, SegmentOf, IsSyn, IsAck, Exposed, Cookie, Mss, CarriesAnswer;
    var seg := Locate(f[..]);
    g := seg;
    if seg.Absent? {
      return Pass, g;
    }
    v := Judge(f, seg, w, little);
  }

  lemma NotBoth(flags: byte)
    ensures !(IsSyn(flags) && IsAck(flags))
  {
  }

  /** The decisions behind a located segment. */
  method Judge(f: array<byte>, g: Segment, w: World, little: bool) returns (v: Verdict)
    requires SegmentOf(f[..], g)
    modifies f
    ensures v == Tx <==> && IsSyn(old(f[..])[g.th + 13]) && Exposed(old(f[..]), g, w)
                         && Bare(old(f[..]), g) && w.cookie >= 0
    ensures v == Tx && !g.ip6 ==> Reply4(old(f[..]), f[..], g.nh, g.tcpLen, Cookie(w.cookie), Mss(w.cookie))
    ensures v == Tx && g.ip6 ==> Reply6(old(f[..]), f[..], g.nh, g.tcpLen, Cookie(w.cookie), Mss(w.cookie))
    ensures v == Tx ==> CarriesAnswer(f[..], g.th, g.tcpLen, w.cookie)
    ensures v != Tx ==> f[..] == old(f[..])
    ensures v == Drop <==> && IsAck(old(f[..])[g.th + 13]) && Exposed(old(f[..]), g, w)
                           && w.strict && !w.ackValid
  {
    hide Strip, Be16, Reply4, Reply6, Bare, SegmentOf, IsSyn, IsAck, Cookie, Mss, CarriesAnswer;
    ghost var s := f[..];
    SegmentRange(s, g);
    var flags := f[g.th + 13];
    NotBoth(flags);
    assert s[g.th + 2..g.th + 4] == f[g.th + 2..g.th + 4];
    if (!IsSyn(flags) && !IsAck(flags)) || w.monitor {
      return Pass;
    }
    if Be16(f[g.th + 2..g.th + 4]) in w.mgmt || w.allowlisted || w.closed || w.known {
      return Pass;
    }
    if IsSyn(flags) {
      var tx := Answer(f, g, w.cookie, little);
      return if tx then Tx else Pass;
    }
    return if w.ackValid || !w.strict then Pass else Drop;
  }

  lemma SegmentRange(s: seq<byte>, g: Segment)
    requires SegmentOf(s, g)
    ensures g.Found? && 14 <= g.nh && g.nh + 20 <= g.th && 20 <= g.tcpLen <= MAX_TCP_HDR && g.th + g.tcpLen <= |s|
    ensures g.tcpLen % 4 == 0
  {
  }

  /** The SYN branch. */
  method Answer(f: array<byte>, g: Segment, cookie: int, little: bool) returns (tx: bool)
    requires SegmentOf(f[..], g)
    modifies f
    ensures tx <==> Bare(old(f[..]), g) && cookie >= 0
    ensures !tx ==> f[..] == old(f[..])
    ensures tx && !g.ip6 ==> Reply4(old(f[..]), f[..], g.nh, g.tcpLen, Cookie(cookie), Mss(cookie))
    ensures tx && g.ip6 ==> Reply6(old(f[..]), f[..], g.nh, g.tcpLen, Cookie(cookie), Mss(cookie))
    ensures tx ==> CarriesAnswer(f[..], g.th, g.tcpLen, cookie)
  {
    hide Strip, Be16, Reply4, Reply6, Rewrite4, Rewrite6, Cookie, Mss, CarriesAnswer;
    ghost var s := f[..];
    SegmentRange(s, g);
    assert s[g.nh + 2..g.nh + 4] == f[g.nh + 2..g.nh + 4] && s[g.nh + 4..g.nh + 6] == f[g.nh + 4..g.nh + 6];
    if g.ip6 {
      tx := SynV6(f, g.nh, g.tcpLen, cookie, little);
      if tx { SynAck6Correct(s, g.nh, g.tcpLen, Cookie(cookie), Mss(cookie), little); }
    } else {
      tx := SynV4(f, g.nh, g.tcpLen, cookie, little);
      if tx { SynAck4Correct(s, g.nh, g.tcpLen, Cookie(cookie), Mss(cookie), little); }
    }
  }
}
