/**
 * The short-circuit of conntrack-lite read off the history of a flow: for TCP on
 * the XDP rung and for every protocol on the tc rung, exactly which steps make a
 * packet skip the rules.
 */
module FlowHistory {
  import opened Words
  import opened Conntrack

  // ------------------------------------------------------------------------
  // TCP on the XDP rung: steps against the table they meet
  // ------------------------------------------------------------------------

  /** The entry takes the packet: an outbound one, or an inbound one within the timeout. */
  predicate Heard(t: Timeouts, m: Table, e: Step, k: Key) {
    k in m && (Outbound(e, k) || (e.Ingress? && e.key == k && !Stale(t, k, m[k], e.now)))
  }

  /** A RST or FIN that the entry takes. */
  predicate Ends(t: Timeouts, m: Table, e: Step, k: Key) {
    Heard(t, m, e, k) && (e.bits.rst || e.bits.fin)
  }

  /** A packet that answers a handshake: any outbound one, or an inbound ACK. */
  predicate Acks(t: Timeouts, m: Table, e: Step, k: Key) {
    Heard(t, m, e, k) && (e.Egress? || e.bits.ack)
  }

  /** A step that makes the entry anew: an accepted SYN that is not short-circuited, an own SYN, a validated cookie. */
  predicate Creates(t: Timeouts, m: Table, e: Step, k: Key) {
    || (AcceptedSyn(e, k) && !FastPath(t, m, k, e.bits, e.now))
    || (Outbound(e, k) && k !in m && IsSyn(k, e.bits) && !e.bits.rst && e.stored)
    || (e.Splice? && e.key == k && e.stored)
  }

  function Ending(e: Step): CtState
    requires e.Ingress? || e.Egress?
  {
    if e.bits.rst then Closed else FinWait
  }

  function Beginning(e: Step): CtState {
    if e.Splice? then Established else if e.Ingress? then SynRecv else SynSent
  }

  /** One step and one TCP key. */
  lemma XdpTcpNext(t: Timeouts, m: Table, e: Step, k: Key)
    requires k.proto == TCP && (k in m ==> m[k].state != New)
    ensures var n := XdpNext(t, m, e);
            && (k in n <==> e != Evict(k) && (k in m || Creates(t, m, e, k)))
            && (k in n && Creates(t, m, e, k) ==> n[k].state == Beginning(e) && n[k].lastSeen == e.now)
            && (k in n && !Creates(t, m, e, k) ==>
                  && n[k].lastSeen == (if Heard(t, m, e, k) then e.now else m[k].lastSeen)
                  && n[k].state == (if Ends(t, m, e, k) then Ending(e)
                                    else if Acks(t, m, e, k) && (m[k].state == SynRecv || m[k].state == SynSent)
                                    then Established else m[k].state))
  {
    hide Stale;
  }

  // ------------------------------------------------------------------------
  // The same, at a step of a run
  // ------------------------------------------------------------------------

  ghost predicate CreatesAt(t: Timeouts, es: seq<Step>, k: Key, i: nat) {
    i < |es| && Creates(t, XdpRun(t, es[..i]), es[i], k)
  }

  ghost predicate HeardAt(t: Timeouts, es: seq<Step>, k: Key, i: nat) {
    i < |es| && Heard(t, XdpRun(t, es[..i]), es[i], k)
  }

  ghost predicate EndsAt(t: Timeouts, es: seq<Step>, k: Key, i: nat) {
    i < |es| && Ends(t, XdpRun(t, es[..i]), es[i], k)
  }

  ghost predicate AcksAt(t: Timeouts, es: seq<Step>, k: Key, i: nat) {
    i < |es| && Acks(t, XdpRun(t, es[..i]), es[i], k)
  }

  lemma PrefixAt(t: Timeouts, es: seq<Step>, n: nat, k: Key, i: nat)
    requires i < n <= |es|
    ensures CreatesAt(t, es[..n], k, i) == CreatesAt(t, es, k, i)
    ensures HeardAt(t, es[..n], k, i) == HeardAt(t, es, k, i)
    ensures EndsAt(t, es[..n], k, i) == EndsAt(t, es, k, i)
    ensures AcksAt(t, es[..n], k, i) == AcksAt(t, es, k, i)
    ensures es[..n][i] == es[i]
  {
    hide Creates, Heard, Ends, Acks, XdpRun;
    assert es[..n][..i] == es[..i];
  }

  /** The entry was last made at step o and not removed since. */
  ghost predicate Born(t: Timeouts, es: seq<Step>, k: Key, o: nat) {
    CreatesAt(t, es, k, o) && forall j :: o < j < |es| ==> !CreatesAt(t, es, k, j) && es[j] != Evict(k)
  }

  /** The last RST or FIN since o came at l; l == o says that there was none. */
  ghost predicate LastEnd(t: Timeouts, es: seq<Step>, k: Key, o: nat, l: nat) {
    o <= l < |es| && (l > o ==> EndsAt(t, es, k, l)) && forall j :: l < j < |es| ==> !EndsAt(t, es, k, j)
  }

  /** The last packet the entry took since o came at h; h == o says that there was none. */
  ghost predicate LastHeard(t: Timeouts, es: seq<Step>, k: Key, o: nat, h: nat) {
    o <= h < |es| && (h > o ==> HeardAt(t, es, k, h)) && forall j :: h < j < |es| ==> !HeardAt(t, es, k, j)
  }

  /** The handshake is complete: a cookie stood for it, or a packet since o answered it. */
  ghost predicate Acked(t: Timeouts, es: seq<Step>, k: Key, o: nat)
    requires o < |es|
  {
    es[o].Splice? || exists j :: o < j < |es| && AcksAt(t, es, k, j)
  }

  /** The state that a history leaves. */
  ghost function Phase(t: Timeouts, es: seq<Step>, k: Key, o: nat, l: nat): CtState
    requires o < |es| && LastEnd(t, es, k, o, l)
  {
    if l > o then Ending(es[l]) else if Acked(t, es, k, o) then Established else Beginning(es[o])
  }

  lemma EndIsPacket(t: Timeouts, es: seq<Step>, k: Key, i: nat)
    ensures EndsAt(t, es, k, i) ==> es[i].Ingress? || es[i].Egress?
    ensures HeardAt(t, es, k, i) ==> es[i].Ingress? || es[i].Egress?
    ensures CreatesAt(t, es, k, i) ==> !es[i].Evict?
  {
  }

  /** Over every run: the state of a TCP entry is what its history since its making says, and its clock the last packet heard. */
  lemma {:induction false} TcpHistory(t: Timeouts, es: seq<Step>, k: Key) returns (o: nat, l: nat, h: nat)
    requires k.proto == TCP && k in XdpRun(t, es)
    ensures Born(t, es, k, o) && LastEnd(t, es, k, o, l) && LastHeard(t, es, k, o, h)
    ensures XdpRun(t, es)[k].state == Phase(t, es, k, o, l) != New
    ensures !es[h].Evict? && XdpRun(t, es)[k].lastSeen == es[h].now
  {
    hide Creates, Heard, Ends, Acks, XdpNext, Born, LastEnd, LastHeard, Acked;
    var n := |es| - 1;
    var m, e := XdpRun(t, es[..n]), es[n];
    if k in m {
      o, l, h := TcpHistory(t, es[..n], k);
    }
    XdpTcpNext(t, m, e, k);
    EndIsPacket(t, es, k, n);
    if Creates(t, m, e, k) {
      o, l, h := n, n, n;
      HistoryStarts(t, es, k);
    } else {
      HistoryGrows(t, es, k, o, l, h);
      if Ends(t, m, e, k) { l := n; }
      if Heard(t, m, e, k) { h := n; }
    }
  }

  lemma HistoryStarts(t: Timeouts, es: seq<Step>, k: Key)
    requires |es| > 0 && CreatesAt(t, es, k, |es| - 1)
    ensures var n := |es| - 1;
            && Born(t, es, k, n) && LastEnd(t, es, k, n, n) && LastHeard(t, es, k, n, n)
            && (Acked(t, es, k, n) <==> es[n].Splice?)
  {
    hide CreatesAt, HeardAt, EndsAt, AcksAt;
  }

  /** What a last step that does not make the entry anew adds to its history. */
  lemma HistoryGrows(t: Timeouts, es: seq<Step>, k: Key, o: nat, l: nat, h: nat)
    requires |es| > 0 && Born(t, es[..|es| - 1], k, o)
    requires LastEnd(t, es[..|es| - 1], k, o, l) && LastHeard(t, es[..|es| - 1], k, o, h)
    requires !CreatesAt(t, es, k, |es| - 1) && es[|es| - 1] != Evict(k)
    ensures var n := |es| - 1;
            && o <= l < n && h < n && Born(t, es, k, o)
            && (Acked(t, es, k, o) <==> Acked(t, es[..n], k, o) || AcksAt(t, es, k, n))
            && es[..n][l] == es[l] && es[..n][o] == es[o] && es[..n][h] == es[h]
            && LastEnd(t, es, k, o, if EndsAt(t, es, k, n) then n else l)
            && LastHeard(t, es, k, o, if HeardAt(t, es, k, n) then n else h)
  {
    hide CreatesAt, HeardAt, EndsAt, AcksAt;
    var n := |es| - 1;
    forall i | 0 <= i < n
      ensures CreatesAt(t, es[..n], k, i) == CreatesAt(t, es, k, i) && HeardAt(t, es[..n], k, i) == HeardAt(t, es, k, i)
      ensures AcksAt(t, es[..n], k, i) == AcksAt(t, es, k, i) && EndsAt(t, es[..n], k, i) == EndsAt(t, es, k, i)
      ensures es[..n][i] == es[i]
    {
      PrefixAt(t, es, n, k, i);
    }
    NotInEmpty(t, es[..n], k, o);
  }

  lemma NotInEmpty(t: Timeouts, es: seq<Step>, k: Key, o: nat)
    requires CreatesAt(t, es, k, o)
    ensures o < |es|
  {
  }

  // ------------------------------------------------------------------------
  // The TCP fast path
  // ------------------------------------------------------------------------

  /** An opening step that no removal follows. */
  ghost predicate Alive(es: seq<Step>, k: Key) {
    exists i :: 0 <= i < |es| && Opens(es[i], k) && Evict(k) !in es[i + 1..]
  }

  lemma OpenedStays(t: Timeouts, m: Table, e: Step, k: Key)
    requires k.proto == TCP
    ensures Opens(e, k) || (k in m && e != Evict(k)) ==> k in XdpNext(t, m, e)
  {
    hide Stale, Refreshed, Answered;
  }

  lemma {:induction false} OpenedIsPresent(t: Timeouts, es: seq<Step>, k: Key, i: nat)
    requires k.proto == TCP && i < |es| && Opens(es[i], k) && Evict(k) !in es[i + 1..]
    ensures k in XdpRun(t, es)
  {
    hide XdpNext, Opens;
    var n := |es| - 1;
    OpenedStays(t, XdpRun(t, es[..n]), es[n], k);
    if i < n {
      assert es[i + 1..] == es[..n][i + 1..] + [es[n]];
      OpenedIsPresent(t, es[..n], k, i);
    }
  }

  /** A TCP entry exists exactly when an opening step put it there and nothing removed it since. */
  lemma TcpEntryIff(t: Timeouts, es: seq<Step>, k: Key)
    requires k.proto == TCP
    ensures k in XdpRun(t, es) <==> Alive(es, k)
  {
    hide XdpRun, Opens;
    if k in XdpRun(t, es) {
      var i := XdpTcpHasOrigin(t, es, k);
    } else if Alive(es, k) {
      var i :| 0 <= i < |es| && Opens(es[i], k) && Evict(k) !in es[i + 1..];
      OpenedIsPresent(t, es, k, i);
    }
  }

  /** The idle limit that a history calls for; 0 stands for none. */
  ghost function Limit(t: Timeouts, es: seq<Step>, k: Key, o: nat, l: nat): u64
    requires o < |es|
  {
    if l > o then t.tcpFin else if Acked(t, es, k, o) then t.tcpEst else t.tcpSyn
  }

  /**
   * Over every run a TCP packet skips the rules exactly when its entry is there,
   * the packet is no RST, the last RST or FIN of the flow was no RST unless this
   * packet is a FIN, and the last packet heard is within the limit that the
   * history calls for.
   */
  lemma TcpFastPathIff(t: Timeouts, es: seq<Step>, k: Key, b: Bits, now: u64) returns (o: nat, l: nat, h: nat)
    requires k.proto == TCP
    ensures FastPath(t, XdpRun(t, es), k, b, now) ==> Alive(es, k)
    ensures Alive(es, k) ==>
              && Born(t, es, k, o) && LastEnd(t, es, k, o, l) && LastHeard(t, es, k, o, h) && !es[h].Evict?
              && (l > o ==> es[l].Ingress? || es[l].Egress?)
              && (FastPath(t, XdpRun(t, es), k, b, now) <==>
                    && !b.rst && (b.fin || l == o || !es[l].bits.rst)
                    && (Limit(t, es, k, o, l) == 0 || Age(now, es[h].now) <= Limit(t, es, k, o, l)))
  {
    hide XdpRun, Alive, Born, LastEnd, LastHeard, Acked;
    TcpEntryIff(t, es, k);
    o, l, h := 0, 0, 0;
    if k in XdpRun(t, es) {
      o, l, h := TcpHistory(t, es, k);
      Bounds(t, es, k, o, l);
      EndIsPacket(t, es, k, l);
    }
  }

  lemma Bounds(t: Timeouts, es: seq<Step>, k: Key, o: nat, l: nat)
    requires Born(t, es, k, o) && LastEnd(t, es, k, o, l)
    ensures o <= l < |es| && (l > o ==> EndsAt(t, es, k, l))
    ensures es[o].Ingress? || es[o].Egress? || es[o].Splice?
    ensures es[o].Splice? ==> Acked(t, es, k, o)
  {
  }

  const FLOW: Key := Key(1, 2, 80, 4000, TCP, 4)
  const SYN: Bits := Bits(true, false, false, false)
  const ACK: Bits := Bits(false, true, false, false)
  const RST: Bits := Bits(false, false, true, false)
  const FIN: Bits := Bits(false, false, false, true)

  /** An own SYN, answered by a RST. */
  function ResetRun(): seq<Step> {
    [Egress(Swap(FLOW), SYN, 1, true), Ingress(FLOW, RST, 1, false, false)]
  }

  /**
   * The comment says that a RST must not open the door for the next packet.  For
   * an own connection that the peer resets this holds for a plain packet; a FIN
   * goes through, and after it everything does.
   */
  lemma FinReopensAfterReset(t: Timeouts)
    ensures var r := XdpRun(t, ResetRun());
            && !FastPath(t, r, FLOW, ACK, 1) && FastPath(t, r, FLOW, FIN, 1)
            && FastPath(t, XdpRun(t, ResetRun() + [Ingress(FLOW, FIN, 1, false, false)]), FLOW, ACK, 1)
  {
    hide XdpRun;
    var r := ResetRun();
    NothingYet(t);
    RunSnoc(t, [], r[0]);
    RunSnoc(t, [r[0]], r[1]);
    RunSnoc(t, r, Ingress(FLOW, FIN, 1, false, false));
    assert [] + [r[0]] == [r[0]] && [r[0]] + [r[1]] == r;
  }

  lemma NothingYet(t: Timeouts)
    ensures XdpRun(t, []) == map[]
  {
  }

  lemma RunSnoc(t: Timeouts, es: seq<Step>, e: Step)
    ensures XdpRun(t, es + [e]) == XdpNext(t, XdpRun(t, es), e)
  {
    hide XdpNext;
    assert (es + [e])[..|es|] == es;
  }

  // ------------------------------------------------------------------------
  // The UDP fast path
  // ------------------------------------------------------------------------

  /**
   * Over every run a UDP packet skips the rules exactly when an own packet opened
   * the flow, nothing removed it since, and the last packet that touched the
   * entry is within the stream timeout if we sent again, else within the short one.
   */
  lemma UdpFastPathSteps(t: Timeouts, es: seq<Step>, k: Key, b: Bits, now: u64) returns (h: nat)
    requires k.proto == UDP
    ensures FastPath(t, XdpRun(t, es), k, b, now) ==> Survives(es, k)
    ensures Survives(es, k) ==>
              && h < |es| && !es[h].Evict? && Touches(t, XdpRun(t, es[..h]), es[h], k)
              && (forall j :: h < j < |es| ==> !Touches(t, XdpRun(t, es[..j]), es[j], k))
              && var limit := if Replied(es, k) then t.udpStream else t.udp;
                 FastPath(t, XdpRun(t, es), k, b, now) <==> limit == 0 || Age(now, es[h].now) <= limit
  {
    hide XdpRun, Survives, Replied, Touches;
    XdpUdpIsSolicited(t, es, k);
    StreamIsReplied(t, es, k);
    h := 0;
    if k in XdpRun(t, es) {
      h := LastSeenIsLastTouch(t, es, k);
    }
  }

  // ------------------------------------------------------------------------
  // The tc rung: steps against the table they meet
  // ------------------------------------------------------------------------

  /** A RST or FIN that the entry takes; a closed one takes only our own. */
  predicate TcEnds(m: Table, e: Step, k: Key) {
    && k.proto == TCP && k in m
    && (Outbound(e, k) || (e.Ingress? && e.key == k && m[k].state != Closed))
    && (e.bits.rst || e.bits.fin)
  }

  /** What may open an entry: an accepted packet of a kind that is learned, or an own packet, for TCP a SYN. */
  predicate TcOpens(e: Step, k: Key) {
    || (e.Ingress? && e.key == k && e.accepted && e.stored && TcLearns(k, e.bits))
    || (Solicits(e, k) && (k.proto != TCP || (IsSyn(k, e.bits) && !e.bits.rst)))
  }

  /** It does where there is no entry, and from outside where the entry is closed. */
  predicate TcCreates(m: Table, e: Step, k: Key) {
    TcOpens(e, k) && (k !in m || (e.Ingress? && m[k].state == Closed))
  }

  predicate Known(c: Conn) {
    c.seenReply || c.outbound
  }

  predicate StateFits(k: Key, c: Conn) {
    if k.proto == TCP then c.state != New else c.state == New || c.state == Established
  }

  lemma TcPresent(m: Table, e: Step, k: Key)
    ensures k in TcNext(m, e) <==> e != Evict(k) && (k in m || TcOpens(e, k))
  {
    hide TcRefreshed, Answered;
  }

  lemma TcMade(m: Table, e: Step, k: Key)
    requires TcCreates(m, e, k)
    ensures k in TcNext(m, e)
    ensures var c := TcNext(m, e)[k];
            && StateFits(k, c) && c.state != Closed && (Known(c) <==> e.Egress?)
            && (c.state == SynRecv <==> k.proto == TCP && e.Ingress?)
  {
    hide TcRefreshed, Answered;
  }

  lemma TcKept(m: Table, e: Step, k: Key)
    requires k in m && StateFits(k, m[k]) && !TcCreates(m, e, k) && e != Evict(k)
    ensures k in TcNext(m, e)
    ensures var c, d := m[k], TcNext(m, e)[k];
            && StateFits(k, d)
            && (d.state == Closed <==> if TcEnds(m, e, k) then e.bits.rst else c.state == Closed)
            && (Known(d) <==> Known(c) || Outbound(e, k) || (c.state == SynRecv && Acknowledges(e, k)))
            && (d.state == SynRecv <==>
                  c.state == SynRecv && !TcEnds(m, e, k) && !Outbound(e, k) && !Acknowledges(e, k))
  {
  }

  // ------------------------------------------------------------------------
  // The same, at a step of a run
  // ------------------------------------------------------------------------

  ghost predicate TcCreatesAt(es: seq<Step>, k: Key, i: nat) {
    i < |es| && TcCreates(TcRun(es[..i]), es[i], k)
  }

  ghost predicate TcEndsAt(es: seq<Step>, k: Key, i: nat) {
    i < |es| && TcEnds(TcRun(es[..i]), es[i], k)
  }

  lemma TcPrefixAt(es: seq<Step>, n: nat, k: Key, i: nat)
    requires i < n <= |es|
    ensures TcCreatesAt(es[..n], k, i) == TcCreatesAt(es, k, i)
    ensures TcEndsAt(es[..n], k, i) == TcEndsAt(es, k, i)
    ensures es[..n][i] == es[i]
  {
    hide TcCreates, TcEnds, TcRun;
    assert es[..n][..i] == es[..i];
  }

  /** The entry was last made at step o and not removed since. */
  ghost predicate TcBorn(es: seq<Step>, k: Key, o: nat) {
    && o < |es| && TcCreatesAt(es, k, o) && !es[o].Evict? && !es[o].Splice?
    && forall j :: o < j < |es| ==> !TcCreatesAt(es, k, j) && es[j] != Evict(k)
  }

  /** The last RST or FIN since o came at l; l == o says that there was none. */
  ghost predicate TcLastEnd(es: seq<Step>, k: Key, o: nat, l: nat) {
    && o <= l < |es| && (l > o ==> TcEndsAt(es, k, l) && !es[l].Evict? && !es[l].Splice?)
    && forall j :: l < j < |es| ==> !TcEndsAt(es, k, j)
  }

  ghost predicate Sends(es: seq<Step>, k: Key, o: nat) {
    exists j :: o < j < |es| && Outbound(es[j], k)
  }

  /** An ACK at j completes the handshake begun at o: no RST or FIN came between. */
  ghost predicate CompletesAt(es: seq<Step>, k: Key, o: nat, j: nat) {
    o < j < |es| && Acknowledges(es[j], k) && forall i :: o < i < j ==> !TcEndsAt(es, k, i)
  }

  ghost predicate Completes(es: seq<Step>, k: Key, o: nat) {
    exists j :: o < j < |es| && CompletesAt(es, k, o, j)
  }

  /** We opened the flow, we sent since, or the peer completed its handshake. */
  ghost predicate Solicited(es: seq<Step>, k: Key, o: nat)
    requires o < |es|
  {
    es[o].Egress? || Sends(es, k, o) || (k.proto == TCP && Completes(es, k, o))
  }

  /** The flow is waiting for the ACK of its handshake. */
  ghost predicate Waits(es: seq<Step>, k: Key, o: nat, l: nat)
    requires o < |es|
  {
    k.proto == TCP && es[o].Ingress? && l == o && !Solicited(es, k, o)
  }

  lemma TcHistoryStarts(es: seq<Step>, k: Key)
    requires |es| > 0 && TcCreatesAt(es, k, |es| - 1)
    ensures var n := |es| - 1;
            TcBorn(es, k, n) && TcLastEnd(es, k, n, n) && (Solicited(es, k, n) <==> es[n].Egress?)
  {
    hide TcRun;
  }

  lemma CompletesGrows(es: seq<Step>, k: Key, o: nat, l: nat)
    requires |es| > 0 && o < |es| - 1 && TcLastEnd(es[..|es| - 1], k, o, l)
    ensures Completes(es, k, o) <==>
              Completes(es[..|es| - 1], k, o) || (Acknowledges(es[|es| - 1], k) && l == o)
  {
    hide TcEndsAt, Acknowledges;
    var n := |es| - 1;
    forall i | 0 <= i < n ensures TcEndsAt(es[..n], k, i) == TcEndsAt(es, k, i) && es[..n][i] == es[i] {
      TcPrefixAt(es, n, k, i);
    }
    forall j | o < j < n ensures CompletesAt(es[..n], k, o, j) == CompletesAt(es, k, o, j) {
    }
    assert CompletesAt(es, k, o, n) <==> Acknowledges(es[n], k) && l == o;
  }

  lemma SendsGrows(es: seq<Step>, k: Key, o: nat)
    requires |es| > 0 && o < |es| - 1
    ensures Sends(es, k, o) <==> Sends(es[..|es| - 1], k, o) || Outbound(es[|es| - 1], k)
  {
    hide Outbound;
    var n := |es| - 1;
    assert forall i :: 0 <= i < n ==> es[..n][i] == es[i];
  }

  /** What a last step that does not make the entry anew adds to its history. */
  lemma TcHistoryGrows(es: seq<Step>, k: Key, o: nat, l: nat)
    requires |es| > 0 && TcBorn(es[..|es| - 1], k, o) && TcLastEnd(es[..|es| - 1], k, o, l)
    requires !TcCreatesAt(es, k, |es| - 1) && es[|es| - 1] != Evict(k)
    ensures var n := |es| - 1;
            && o <= l < n && TcBorn(es, k, o) && es[..n][o] == es[o] && es[..n][l] == es[l]
            && TcLastEnd(es, k, o, if TcEndsAt(es, k, n) then n else l)
            && (Solicited(es, k, o) <==>
                  || Solicited(es[..n], k, o) || Outbound(es[n], k)
                  || (k.proto == TCP && Acknowledges(es[n], k) && l == o))
  {
    hide TcCreatesAt, TcEndsAt, Completes, Sends, Outbound, Acknowledges;
    var n := |es| - 1;
    forall i | 0 <= i < n
      ensures TcCreatesAt(es[..n], k, i) == TcCreatesAt(es, k, i)
      ensures TcEndsAt(es[..n], k, i) == TcEndsAt(es, k, i) && es[..n][i] == es[i]
    {
      TcPrefixAt(es, n, k, i);
    }
    CompletesGrows(es, k, o, l);
    SendsGrows(es, k, o);
    TcEndIsPacket(es, k, n);
  }

  lemma TcEndIsPacket(es: seq<Step>, k: Key, i: nat)
    ensures TcEndsAt(es, k, i) ==> es[i].Ingress? || es[i].Egress?
  {
  }

  /** Over every run: an entry is closed, known and waiting exactly as its history since its making says. */
  lemma {:induction false} TcHistory(es: seq<Step>, k: Key) returns (o: nat, l: nat)
    requires k in TcRun(es)
    ensures TcBorn(es, k, o) && TcLastEnd(es, k, o, l)
    ensures var c := TcRun(es)[k];
            && StateFits(k, c)
            && (c.state == Closed <==> l > o && es[l].bits.rst)
            && (Known(c) <==> Solicited(es, k, o))
            && (c.state == SynRecv <==> Waits(es, k, o, l))
  {
    hide TcCreates, TcEnds, TcNext, TcBorn, TcLastEnd, Solicited, Known, StateFits, Outbound, Acknowledges;
    var n := |es| - 1;
    var m, e := TcRun(es[..n]), es[n];
    if k in m {
      o, l := TcHistory(es[..n], k);
    }
    TcPresent(m, e, k);
    if TcCreates(m, e, k) {
      o, l := n, n;
      TcMade(m, e, k);
      TcHistoryStarts(es, k);
    } else {
      TcOpensMissing(m, e, k);
      TcKept(m, e, k);
      TcHistoryGrows(es, k, o, l);
      TcEndIsPacket(es, k, n);
      Origin(es, k, o);
      Origin(es[..n], k, o);
      if TcEnds(m, e, k) { l := n; }
    }
  }

  lemma Origin(es: seq<Step>, k: Key, o: nat)
    requires TcBorn(es, k, o)
    ensures es[o].Egress? || es[o].Ingress?
    ensures es[o].Egress? ==> Solicited(es, k, o)
  {
  }

  lemma TcOpensMissing(m: Table, e: Step, k: Key)
    ensures k !in m && TcOpens(e, k) ==> TcCreates(m, e, k)
  {
  }

  /** An opening step that no removal follows. */
  ghost predicate TcAlive(es: seq<Step>, k: Key) {
    exists i :: 0 <= i < |es| && TcOpens(es[i], k) && Evict(k) !in es[i + 1..]
  }

  lemma TcAliveSnoc(es: seq<Step>, e: Step, k: Key)
    ensures TcAlive(es + [e], k) <==> TcOpens(e, k) || (TcAlive(es, k) && e != Evict(k))
  {
    hide TcOpens;
    var all := es + [e];
    assert all[|es|] == e && all[|es| + 1..] == [];
    forall i | 0 <= i < |es|
      ensures all[i] == es[i] && (Evict(k) !in all[i + 1..] <==> Evict(k) !in es[i + 1..] && e != Evict(k))
    {
      assert all[i + 1..] == es[i + 1..] + [e];
    }
    if TcOpens(e, k) {
      assert TcOpens(all[|es|], k) && Evict(k) !in all[|es| + 1..];
    }
    if TcAlive(es, k) && e != Evict(k) {
      var i :| 0 <= i < |es| && TcOpens(es[i], k) && Evict(k) !in es[i + 1..];
      assert TcOpens(all[i], k) && Evict(k) !in all[i + 1..];
    }
  }

  lemma OpeningIsNoRemoval(e: Step, k: Key)
    ensures TcOpens(e, k) ==> e != Evict(k)
  {
  }

  /** An entry of any protocol exists exactly when an opening step put it there and nothing removed it since. */
  lemma {:induction false} TcEntryIff(es: seq<Step>, k: Key)
    ensures k in TcRun(es) <==> TcAlive(es, k)
  {
    hide TcNext, TcOpens;
    if |es| > 0 {
      var n := |es| - 1;
      TcEntryIff(es[..n], k);
      TcPresent(TcRun(es[..n]), es[n], k);
      OpeningIsNoRemoval(es[n], k);
      TcAliveSnoc(es[..n], es[n], k);
      assert es == es[..n] + [es[n]];
    }
  }

  /**
   * The tc rung, over every run, in both directions: a packet misses exactly when
   * the flow was not opened or its last RST or FIN was a RST; it is CONFIRMED
   * exactly when the flow is also solicited, or this packet is the ACK that
   * completes a handshake from outside.
   */
  lemma ConfirmedIff(es: seq<Step>, k: Key, b: Bits, now: u64) returns (o: nat, l: nat)
    ensures !TcAlive(es, k) ==> TcHit(TcRun(es), k, b, now) == Miss
    ensures TcAlive(es, k) ==>
              && TcBorn(es, k, o) && TcLastEnd(es, k, o, l)
              && var reset := l > o && es[l].bits.rst;
                 && (TcHit(TcRun(es), k, b, now) == Miss <==> reset)
                 && (TcHit(TcRun(es), k, b, now) == Confirmed <==>
                       && !reset
                       && (|| Solicited(es, k, o)
                           || (k.proto == TCP && es[o].Ingress? && l == o && b.ack && !b.syn)))
  {
    hide TcRun, TcAlive, TcBorn, TcLastEnd, Solicited, StateFits;
    TcEntryIff(es, k);
    o, l := 0, 0;
    if k in TcRun(es) {
      o, l := TcHistory(es, k);
    }
  }
}
