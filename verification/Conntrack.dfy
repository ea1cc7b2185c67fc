/**
 * Conntrack-lite as a protocol over one shared map: the ingress stage of the
 * XDP program and of the tc program, the tc egress learner, the SYN proxy's
 * splice, and removal of any entry at any time (LRU eviction or sweeping).
 */
module Conntrack {
  import opened Words

  const TCP: nat := 6
  const UDP: nat := 17
  const ICMP: nat := 1
  const ICMPV6: nat := 58

  /** Ingress orientation: the source is the remote peer. */
  datatype Key = Key(saddr: nat, daddr: nat, sport: u16, dport: u16, proto: byte, family: byte)

  function Swap(k: Key): Key {
    Key(k.daddr, k.saddr, k.dport, k.sport, k.proto, k.family)
  }

  /** Mirroring a tuple twice gives it back, so an egress tuple names exactly one ingress key. */
  lemma SwapInvolution(k: Key, l: Key)
    ensures Swap(Swap(k)) == k
    ensures Swap(k) == l <==> k == Swap(l)
  {
  }

  datatype CtState = New | SynRecv | SynSent | Established | FinWait | Closed

  datatype Conn = Conn(state: CtState, outbound: bool, seenReply: bool, synproxied: bool, created: u64, lastSeen: u64)

  datatype Bits = Bits(syn: bool, ack: bool, rst: bool, fin: bool)

  /** The idle times after which an entry is stale; 0 means never. */
  datatype Timeouts = Timeouts(tcpSyn: u64, tcpEst: u64, tcpFin: u64, udp: u64, udpStream: u64, icmp: u64, generic: u64)

  /**
   * One step.  `accepted`: the packet passes the rest of the policy and its
   * port is tracked.  `stored`: a new entry finds room.
   */
  datatype Step =
    | Ingress(key: Key, bits: Bits, now: u64, accepted: bool, stored: bool)
    | Egress(wire: Key, bits: Bits, now: u64, stored: bool)
    | Splice(key: Key, now: u64, stored: bool)
    | Evict(key: Key)

  type Table = map<Key, Conn>

  function Idle(c: Conn, now: u64): u64 {
    Age(now, c.lastSeen)
  }

  function Timeout(t: Timeouts, k: Key, c: Conn): u64 {
    if k.proto == TCP then
      if c.state == Established then t.tcpEst
      else if c.state == FinWait || c.state == Closed then t.tcpFin
      else t.tcpSyn
    else if k.proto == UDP then if c.seenReply then t.udpStream else t.udp
    else if k.proto == ICMP || k.proto == ICMPV6 then t.icmp
    else t.generic
  }

  predicate Stale(t: Timeouts, k: Key, c: Conn, now: u64) {
    Timeout(t, k, c) != 0 && Idle(c, now) > Timeout(t, k, c)
  }

  predicate IsSyn(k: Key, b: Bits) {
    k.proto == TCP && b.syn && !b.ack
  }

  /** An inbound packet of a live entry. */
  function Refreshed(k: Key, b: Bits, c: Conn, now: u64): Conn {
    var d := c.(lastSeen := now);
    if k.proto == TCP then
      if b.rst then d.(state := Closed)
      else if b.fin then d.(state := FinWait)
      else if b.ack && (c.state == SynRecv || c.state == SynSent || c.state == New)
      then d.(state := Established, seenReply := true)
      else d
    else if c.state == New then d.(state := Established, seenReply := true)
    else d
  }

  /** The conntrack stage short-circuits the packet. */
  predicate FastPath(t: Timeouts, m: Table, k: Key, b: Bits, now: u64) {
    k in m && !Stale(t, k, m[k], now) && Refreshed(k, b, m[k], now).state != Closed
  }

  function Looked(t: Timeouts, m: Table, k: Key, b: Bits, now: u64): Table {
    if k in m && !Stale(t, k, m[k], now) then m[k := Refreshed(k, b, m[k], now)] else m
  }

  function Opened(state: CtState, outbound: bool, now: u64): Conn {
    Conn(state, outbound, false, false, now, now)
  }

  /** The learner reads TCP and UDP with nonzero ports only. */
  predicate Learnable(wire: Key) {
    (wire.proto == TCP || wire.proto == UDP) && wire.sport != 0 && wire.dport != 0
  }

  /** An outbound packet of a known flow. */
  function Answered(k: Key, b: Bits, c: Conn, now: u64): Conn {
    var d := c.(lastSeen := now, outbound := true,
                state := if c.state == SynRecv || c.state == SynSent then Established else c.state);
    var e := if d.state == Established then d.(seenReply := true) else d;
    if k.proto == TCP && b.rst then e.(state := Closed)
    else if k.proto == TCP && b.fin then e.(state := FinWait)
    else e
  }

  function Sent(m: Table, e: Step): Table
    requires e.Egress?
  {
    var k := Swap(e.wire);
    if !Learnable(e.wire) then m
    else if k in m then m[k := Answered(k, e.bits, m[k], e.now)]
    else if k.proto == TCP && (!IsSyn(k, e.bits) || e.bits.rst) then m
    else if e.stored then m[k := Opened(if k.proto == TCP then SynSent else Established, true, e.now)]
    else m
  }

  /** One step on the XDP rung. */
  function XdpNext(t: Timeouts, m: Table, e: Step): Table {
    match e
    case Ingress(k, b, now, accepted, stored) =>
      var n := Looked(t, m, k, b, now);
      if !FastPath(t, m, k, b, now) && accepted && IsSyn(k, b) && stored
      then n[k := Opened(SynRecv, false, now)] else n
    case Egress(_, _, _, _) => Sent(m, e)
    case Splice(k, now, stored) =>
      if k.proto == TCP && stored then m[k := Conn(Established, false, true, true, now, now)] else m
    case Evict(k) => m - {k}
  }

  datatype Hit = Miss | Unconfirmed | Confirmed

  /** An inbound packet of an entry on the tc rung. */
  function TcRefreshed(k: Key, b: Bits, c: Conn, now: u64): Conn {
    var d := c.(lastSeen := now);
    if c.state == Closed then d
    else
      var e := if c.state == SynRecv && k.proto == TCP && b.ack && !b.syn
               then d.(state := Established, seenReply := true) else d;
      if k.proto == TCP && b.rst then e.(state := Closed)
      else if k.proto == TCP && b.fin then e.(state := FinWait)
      else e
  }

  function TcHit(m: Table, k: Key, b: Bits, now: u64): Hit {
    if k !in m || m[k].state == Closed then Miss
    else
      var c := TcRefreshed(k, b, m[k], now);
      if c.seenReply || c.outbound then Confirmed else Unconfirmed
  }

  predicate TcLearns(k: Key, b: Bits) {
    (IsSyn(k, b) && !b.rst && !b.fin) || k.proto == UDP || k.proto == ICMP || k.proto == ICMPV6
  }

  /** One step on the tc rung, which has no SYN proxy. */
  function TcNext(m: Table, e: Step): Table {
    match e
    case Ingress(k, b, now, accepted, stored) =>
      var n := if k in m then m[k := TcRefreshed(k, b, m[k], now)] else m;
      if TcHit(m, k, b, now) == Miss && accepted && TcLearns(k, b) && stored
      then n[k := Opened(if k.proto == TCP then SynRecv else New, false, now)] else n
    case Egress(_, _, _, _) => Sent(m, e)
    case Splice(_, _, _) => m
    case Evict(k) => m - {k}
  }

  /** The shared map. */
  class FlowTable {
    var conns: Table

    method Xdp(t: Timeouts, k: Key, b: Bits, now: u64, accepted: bool, stored: bool) returns (pass: bool)
      modifies this
      ensures pass <==> FastPath(t, old(conns), k, b, now)
      ensures conns == XdpNext(t, old(conns), Ingress(k, b, now, accepted, stored))
    {
      pass := false;
      if k in conns {
        var c := conns[k];
        var idle := if now >= c.lastSeen then now - c.lastSeen else 0;
        var timeout := Timeout(t, k, c);
        if timeout == 0 || idle <= timeout {
          c := c.(lastSeen := now);
          if k.proto == TCP {
            if b.rst {
              c := c.(state := Closed);
            } else if b.fin {
              c := c.(state := FinWait);
            } else if b.ack && (c.state == SynRecv || c.state == SynSent || c.state == New) {
              c := c.(state := Established, seenReply := true);
            }
          } else if c.state == New {
            c := c.(state := Established, seenReply := true);
          }
          conns := conns[k := c];
          if c.state != Closed {
            return true;
          }
        }
      }
      if accepted && IsSyn(k, b) && stored {
        conns := conns[k := Opened(SynRecv, false, now)];
      }
    }

    method Transmit(wire: Key, b: Bits, now: u64, stored: bool)
      modifies this
      ensures conns == Sent(old(conns), Egress(wire, b, now, stored))
    {
      if (wire.proto != TCP && wire.proto != UDP) || wire.sport == 0 || wire.dport == 0 {
        return;
      }
      var k := Key(wire.daddr, wire.saddr, wire.dport, wire.sport, wire.proto, wire.family);
      if k in conns {
        var c := conns[k].(lastSeen := now, outbound := true);
        if c.state == SynRecv || c.state == SynSent {
          c := c.(state := Established);
        }
        if c.state == Established {
          c := c.(seenReply := true);
        }
        if wire.proto == TCP && b.rst {
          c := c.(state := Closed);
        } else if wire.proto == TCP && b.fin {
          c := c.(state := FinWait);
        }
        conns := conns[k := c];
        return;
      }
      if wire.proto == TCP && (!(b.syn && !b.ack) || b.rst) {
        return;
      }
      if stored {
        conns := conns[k := Opened(if wire.proto == TCP then SynSent else Established, true, now)];
      }
    }

    /** A validated cookie: the flow is spliced in as established. */
    method Spliced(t: Timeouts, k: Key, now: u64, stored: bool)
      requires k.proto == TCP
      modifies this
      ensures conns == XdpNext(t, old(conns), Splice(k, now, stored))
    {
      if stored {
        conns := conns[k := Conn(Established, false, true, true, now, now)];
      }
    }

    method Tc(k: Key, b: Bits, now: u64, accepted: bool, stored: bool) returns (hit: Hit)
      modifies this
      ensures hit == TcHit(old(conns), k, b, now)
      ensures conns == TcNext(old(conns), Ingress(k, b, now, accepted, stored))
    {
      hit := Miss;
      if k in conns {
        var c := conns[k].(lastSeen := now);
        if c.state != Closed {
          if c.state == SynRecv && k.proto == TCP && b.ack && !b.syn {
            c := c.(state := Established, seenReply := true);
          }
          if k.proto == TCP && b.rst {
            c := c.(state := Closed);
          } else if k.proto == TCP && b.fin {
            c := c.(state := FinWait);
          }
          hit := if c.seenReply || c.outbound then Confirmed else Unconfirmed;
        }
        conns := conns[k := c];
      }
      if hit == Miss && accepted && TcLearns(k, b) && stored {
        conns := conns[k := Opened(if k.proto == TCP then SynRecv else New, false, now)];
      }
    }
  }

  function XdpRun(t: Timeouts, es: seq<Step>): Table {
    if es == [] then map[] else XdpNext(t, XdpRun(t, es[..|es| - 1]), es[|es| - 1])
  }

  function TcRun(es: seq<Step>): Table {
    if es == [] then map[] else TcNext(TcRun(es[..|es| - 1]), es[|es| - 1])
  }

  /** Step e is a stored outbound packet of k's flow. */
  predicate Solicits(e: Step, k: Key) {
    e.Egress? && e.stored && Learnable(e.wire) && Swap(e.wire) == k
  }

  /** A stored outbound packet of the flow that no removal of the entry follows. */
  predicate Survives(es: seq<Step>, k: Key) {
    exists i :: 0 <= i < |es| && Solicits(es[i], k) && Evict(k) !in es[i + 1..]
  }

  lemma SurvivesSnoc(es: seq<Step>, e: Step, k: Key)
    ensures Survives(es + [e], k) <==> Solicits(e, k) || (Survives(es, k) && e != Evict(k))
  {
    var all := es + [e];
    assert all[|es|] == e && all[|es| + 1..] == [];
    if Survives(all, k) {
      var i :| 0 <= i < |all| && Solicits(all[i], k) && Evict(k) !in all[i + 1..];
      if i < |es| {
        assert all[i + 1..] == es[i + 1..] + [e];
        assert e in all[i + 1..];
      }
    }
    if Survives(es, k) && e != Evict(k) {
      var i :| 0 <= i < |es| && Solicits(es[i], k) && Evict(k) !in es[i + 1..];
      assert all[i + 1..] == es[i + 1..] + [e];
      assert all[i] == es[i];
    }
    if Solicits(e, k) {
      assert Solicits(all[|es|], k) && Evict(k) !in all[|es| + 1..];
    }
  }

  /** One step and one key that is not TCP: only the learner opens it and only a removal drops it. */
  lemma XdpStepOther(t: Timeouts, m: Table, e: Step, k: Key)
    requires k.proto != TCP
    requires k in m ==> k.proto == UDP && m[k].state == Established
    ensures var n := XdpNext(t, m, e);
            && (k in n <==> Solicits(e, k) || (k in m && e != Evict(k)))
            && (k in n ==> k.proto == UDP && n[k].state == Established)
  {
    hide Stale;
  }

  /**
   * On the XDP rung, over every run: a UDP entry exists exactly when an outbound
   * packet with the mirrored tuple stored it and nothing removed it since; it is
   * always ESTABLISHED; and no entry of any protocol but TCP and UDP ever exists.
   */
  lemma {:induction false} XdpUdpIsSolicited(t: Timeouts, es: seq<Step>, k: Key)
    requires k.proto != TCP
    ensures k in XdpRun(t, es) <==> Survives(es, k)
    ensures k in XdpRun(t, es) ==> k.proto == UDP && XdpRun(t, es)[k].state == Established
  {
    hide XdpNext, Survives, Solicits;
    if es == [] {
      NothingSurvives(k);
    } else {
      var n := |es| - 1;
      XdpUdpIsSolicited(t, es[..n], k);
      XdpStepOther(t, XdpRun(t, es[..n]), es[n], k);
      SurvivesSnoc(es[..n], es[n], k);
      assert es == es[..n] + [es[n]];
    }
  }

  lemma NothingSurvives(k: Key)
    ensures !Survives([], k)
  {
  }

  /** Step e refreshes the UDP entry of k: an outbound packet of the flow, or an inbound one within the timeout. */
  predicate Touches(t: Timeouts, m: Table, e: Step, k: Key) {
    || (Outbound(e, k) && (k in m || e.stored))
    || (e.Ingress? && e.key == k && k in m && !Stale(t, k, m[k], e.now))
  }

  lemma TouchStep(t: Timeouts, m: Table, e: Step, k: Key)
    requires k.proto == UDP && (k in m ==> m[k].state == Established) && k in XdpNext(t, m, e)
    ensures Touches(t, m, e, k) ==> XdpNext(t, m, e)[k].lastSeen == e.now
    ensures !Touches(t, m, e, k) ==> k in m && XdpNext(t, m, e)[k].lastSeen == m[k].lastSeen
    ensures XdpNext(t, m, e)[k].seenReply <==> k in m && (m[k].seenReply || Outbound(e, k))
  {
    hide Stale;
  }

  /** The idle time of a UDP entry runs from the last step that touched it. */
  lemma {:induction false} LastSeenIsLastTouch(t: Timeouts, es: seq<Step>, k: Key) returns (i: nat)
    requires k.proto == UDP && k in XdpRun(t, es)
    ensures i < |es| && Touches(t, XdpRun(t, es[..i]), es[i], k)
    ensures (es[i].Egress? || es[i].Ingress?) && XdpRun(t, es)[k].lastSeen == es[i].now
    ensures forall j :: i < j < |es| ==> !Touches(t, XdpRun(t, es[..j]), es[j], k)
  {
    hide XdpNext, Stale;
    var n := |es| - 1;
    var m := XdpRun(t, es[..n]);
    XdpUdpIsSolicited(t, es[..n], k);
    TouchStep(t, m, es[n], k);
    if Touches(t, m, es[n], k) {
      i := n;
    } else {
      i := LastSeenIsLastTouch(t, es[..n], k);
      assert forall j :: 0 <= j <= n ==> es[..n][..j] == es[..j];
    }
  }

  /** Outbound packet i found the entry alive, and nothing removed it since. */
  predicate RepliedAt(es: seq<Step>, k: Key, i: nat) {
    i < |es| && Outbound(es[i], k) && Survives(es[..i], k) && Evict(k) !in es[i + 1..]
  }

  predicate Replied(es: seq<Step>, k: Key) {
    exists i :: 0 <= i < |es| && RepliedAt(es, k, i)
  }

  lemma RepliedEarlier(es: seq<Step>, e: Step, k: Key, i: nat)
    requires i < |es|
    ensures RepliedAt(es + [e], k, i) <==> RepliedAt(es, k, i) && e != Evict(k)
  {
    hide Survives, Outbound;
    var all := es + [e];
    assert all[i] == es[i] && all[..i] == es[..i];
    assert all[i + 1..] == es[i + 1..] + [e];
    assert e in all[i + 1..];
  }

  lemma RepliedLast(es: seq<Step>, e: Step, k: Key)
    ensures RepliedAt(es + [e], k, |es|) <==> Outbound(e, k) && Survives(es, k)
  {
    hide Survives, Outbound;
    var all := es + [e];
    assert all[|es|] == e && all[|es| + 1..] == [] && all[..|es|] == es;
  }

  lemma RepliedSnoc(es: seq<Step>, e: Step, k: Key)
    ensures Replied(es + [e], k) <==> (Outbound(e, k) && Survives(es, k)) || (Replied(es, k) && e != Evict(k))
  {
    hide RepliedAt, Survives, Outbound;
    RepliedLast(es, e, k);
    forall i | 0 <= i < |es|
      ensures RepliedAt(es + [e], k, i) <==> RepliedAt(es, k, i) && e != Evict(k)
    {
      RepliedEarlier(es, e, k, i);
    }
  }

  lemma OutboundIsNoEviction(e: Step, k: Key)
    ensures Outbound(e, k) ==> e != Evict(k)
  {
  }

  /** Over every run the longer timeout applies exactly to flows that sent again while their entry was alive. */
  lemma {:induction false} StreamIsReplied(t: Timeouts, es: seq<Step>, k: Key)
    requires k.proto == UDP
    ensures k in XdpRun(t, es) && XdpRun(t, es)[k].seenReply <==> k in XdpRun(t, es) && Replied(es, k)
    ensures Replied(es, k) ==> k in XdpRun(t, es)
  {
    hide XdpNext, Replied, Outbound, Survives;
    if es == [] {
      NothingReplied(k);
    } else {
      var n := |es| - 1;
      var m, e := XdpRun(t, es[..n]), es[n];
      StreamIsReplied(t, es[..n], k);
      XdpUdpIsSolicited(t, es[..n], k);
      XdpStepOther(t, m, e, k);
      RepliedSnoc(es[..n], e, k);
      OutboundIsNoEviction(e, k);
      assert es == es[..n] + [e];
      if k in XdpNext(t, m, e) { TouchStep(t, m, e, k); }
    }
  }

  lemma NothingReplied(k: Key)
    ensures !Replied([], k)
  {
  }

  /** So a UDP packet skips the policy exactly when such an entry survives within its timeout. */
  lemma UdpFastPathIff(t: Timeouts, es: seq<Step>, k: Key, b: Bits, now: u64)
    requires k.proto == UDP
    ensures FastPath(t, XdpRun(t, es), k, b, now)
            <==> Survives(es, k) && k in XdpRun(t, es) && !Stale(t, k, XdpRun(t, es)[k], now)
  {
    hide XdpRun, Survives, Stale;
    XdpUdpIsSolicited(t, es, k);
  }

  /** ICMP never skips the policy on the XDP rung. */
  lemma IcmpNeverFast(t: Timeouts, es: seq<Step>, k: Key, b: Bits, now: u64)
    requires k.proto == ICMP || k.proto == ICMPV6
    ensures !FastPath(t, XdpRun(t, es), k, b, now)
  {
    hide XdpRun, Survives, Stale;
    XdpUdpIsSolicited(t, es, k);
  }

  /** What may open a TCP entry: an accepted SYN, our own SYN, or a validated cookie. */
  predicate Opens(e: Step, k: Key) {
    || (e.Ingress? && e.key == k && e.accepted && e.stored && IsSyn(k, e.bits))
    || (Solicits(e, k) && IsSyn(k, e.bits) && !e.bits.rst)
    || (e.Splice? && e.key == k && e.stored)
  }

  lemma XdpTcpStep(t: Timeouts, m: Table, e: Step, k: Key)
    requires k.proto == TCP && k in XdpNext(t, m, e)
    ensures e != Evict(k) && (k in m || Opens(e, k))
  {
    hide Stale, Refreshed, Answered;
  }

  /** Over every run a TCP entry has an origin since its last removal. */
  lemma {:induction false} XdpTcpHasOrigin(t: Timeouts, es: seq<Step>, k: Key) returns (i: nat)
    requires k.proto == TCP && k in XdpRun(t, es)
    ensures i < |es| && Opens(es[i], k) && Evict(k) !in es[i + 1..]
  {
    hide XdpNext, Opens;
    var n := |es| - 1;
    var m := XdpRun(t, es[..n]);
    XdpTcpStep(t, m, es[n], k);
    if k in m {
      i := XdpTcpHasOrigin(t, es[..n], k);
      assert es[i + 1..] == es[..n][i + 1..] + [es[n]];
    } else {
      i := n;
      assert es[n + 1..] == [];
    }
  }

  /** Step e is any outbound packet of k's flow. */
  predicate Outbound(e: Step, k: Key) {
    e.Egress? && Learnable(e.wire) && Swap(e.wire) == k
  }

  predicate AcceptedSyn(e: Step, k: Key) {
    e.Ingress? && e.key == k && e.accepted && e.stored && IsSyn(k, e.bits)
  }

  predicate Acknowledges(e: Step, k: Key) {
    e.Ingress? && e.key == k && e.bits.ack && !e.bits.syn
  }

  predicate SawOutbound(es: seq<Step>, k: Key) {
    exists i :: 0 <= i < |es| && Outbound(es[i], k)
  }

  predicate SawSyn(es: seq<Step>, k: Key) {
    exists i :: 0 <= i < |es| && AcceptedSyn(es[i], k)
  }

  predicate SawHandshake(es: seq<Step>, k: Key) {
    exists i, j :: 0 <= i < j < |es| && AcceptedSyn(es[i], k) && Acknowledges(es[j], k)
  }

  /** What the flags and states of an entry prove about the past. */
  predicate Proven(es: seq<Step>, k: Key, c: Conn) {
    && (c.outbound ==> SawOutbound(es, k))
    && (c.seenReply ==> SawOutbound(es, k) || (k.proto == TCP && SawHandshake(es, k)))
    && (c.state == SynRecv ==> k.proto == TCP && SawSyn(es, k))
  }

  lemma ProvenStays(es: seq<Step>, e: Step, k: Key, c: Conn)
    requires Proven(es, k, c)
    ensures Proven(es + [e], k, c)
  {
    var all := es + [e];
    if SawOutbound(es, k) {
      var i :| 0 <= i < |es| && Outbound(es[i], k);
      assert Outbound(all[i], k);
    }
    if SawSyn(es, k) {
      var i :| 0 <= i < |es| && AcceptedSyn(es[i], k);
      assert AcceptedSyn(all[i], k);
    }
    if SawHandshake(es, k) {
      var i, j :| 0 <= i < j < |es| && AcceptedSyn(es[i], k) && Acknowledges(es[j], k);
      assert AcceptedSyn(all[i], k) && Acknowledges(all[j], k);
    }
  }

  lemma SawLast(es: seq<Step>, e: Step, k: Key)
    ensures Outbound(e, k) ==> SawOutbound(es + [e], k)
    ensures AcceptedSyn(e, k) ==> SawSyn(es + [e], k)
    ensures SawSyn(es, k) && Acknowledges(e, k) ==> SawHandshake(es + [e], k)
  {
    var all := es + [e];
    assert all[|es|] == e;
    if SawSyn(es, k) {
      var i :| 0 <= i < |es| && AcceptedSyn(es[i], k);
      assert AcceptedSyn(all[i], k);
    }
  }

  /** One step on the tc rung keeps every entry proven. */
  lemma TcStepProven(es: seq<Step>, m: Table, e: Step, k: Key)
    requires k in m ==> Proven(es, k, m[k])
    ensures k in TcNext(m, e) ==> Proven(es + [e], k, TcNext(m, e)[k])
  {
    hide SawOutbound, SawSyn, SawHandshake;
    SawLast(es, e, k);
    if k in m { ProvenStays(es, e, k, m[k]); }
  }

  /** The steps since the last removal of k. */
  function Life(es: seq<Step>, k: Key): seq<Step> {
    if es == [] || es[|es| - 1] == Evict(k) then [] else Life(es[..|es| - 1], k) + [es[|es| - 1]]
  }

  /** A life is the end of the run, from its start or the last removal on. */
  lemma {:induction false} LifeIsSuffix(es: seq<Step>, k: Key) returns (j: nat)
    ensures j <= |es| && Life(es, k) == es[j..] && Evict(k) !in es[j..]
    ensures j == 0 || es[j - 1] == Evict(k)
  {
    if es == [] || es[|es| - 1] == Evict(k) {
      j := |es|;
    } else {
      var n := |es| - 1;
      j := LifeIsSuffix(es[..n], k);
      assert es[j..] == es[..n][j..] + [es[n]];
    }
  }

  lemma {:induction false} TcEntriesAreProven(es: seq<Step>, k: Key)
    requires k in TcRun(es)
    ensures Proven(Life(es, k), k, TcRun(es)[k])
  {
    hide TcNext, Proven;
    var n := |es| - 1;
    var m := TcRun(es[..n]);
    if k in m { TcEntriesAreProven(es[..n], k); }
    EvictedIsGone(m, es[n], k);
    TcStepProven(Life(es[..n], k), m, es[n], k);
  }

  lemma EvictedIsGone(m: Table, e: Step, k: Key)
    ensures e == Evict(k) ==> k !in TcNext(m, e)
  {
  }

  /**
   * On the tc rung, over every run: a packet is CONFIRMED only if, since the
   * entry's last removal, an outbound packet of its flow was seen or, for TCP,
   * an accepted SYN and then an ACK (this packet included).
   */
  lemma ConfirmedIsSolicited(es: seq<Step>, k: Key, b: Bits, now: u64, accepted: bool, stored: bool)
    requires TcHit(TcRun(es), k, b, now) == Confirmed
    ensures var life := Life(es, k) + [Ingress(k, b, now, accepted, stored)];
            SawOutbound(life, k) || (k.proto == TCP && SawHandshake(life, k))
  {
    hide TcRun, SawOutbound, SawSyn, SawHandshake, Life;
    var m, e := TcRun(es), Ingress(k, b, now, accepted, stored);
    TcEntriesAreProven(es, k);
    TcStepProven(Life(es, k), m, e, k);
  }

  /** For anything but TCP the outbound packet is necessary. */
  lemma ConfirmedUdpWasSent(es: seq<Step>, k: Key, b: Bits, now: u64)
    requires TcHit(TcRun(es), k, b, now) == Confirmed && k.proto != TCP
    ensures SawOutbound(Life(es, k), k)
  {
    hide TcRun, SawOutbound, SawSyn, SawHandshake, Life;
    TcEntriesAreProven(es, k);
  }
}
