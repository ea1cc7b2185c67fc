/**
 * When the XDP chain drops a packet of any kind, and which reason it charges:
 * guards on the configuration, the packet, the maps, the tail calls and the
 * monitor flags, and one order of precedence among the reasons of a program.
 */
module DropLaw {
  import opened Words
  import opened Chain

  // ------------------------------------------------------------------------
  // The guards of each program
  // ------------------------------------------------------------------------

  /** A broken frame, too many tags, IPv6 switched off, or an ethertype nobody asked for. */
  predicate L2Drop(c: Cfg, f: Frame, i: Iface) {
    && c.enabled && !i.disabled
    && (|| f.short || f.types == []
        || var k := Untagged(f.types, 0, Min(if c.vlan then c.vlanMax else 0, VLAN_DEPTH));
           || k == |f.types|
           || (IsTag(f.types[k]) && (c.vlan || c.dropUnknown))
           || (f.types[k] == ETH_IP6 && (!c.ipv6 || i.noIpv6))
           || (!IsTag(f.types[k]) && f.types[k] !in {ETH_ARP, ETH_IP, ETH_IP6} && c.dropUnknown))
  }

  predicate Oversized(c: Cfg, p: Pkt) {
    var most := if p.v4 then c.icmpMax else c.icmp6Max;
    most != 0 && p.payload > most
  }

  /** What no allow list, management port or mandatory type excuses. */
  predicate Malformed(c: Cfg, p: Pkt) {
    || (c.land && p.sameAddr)
    || (p.proto == TCP && !p.truncated && c.tcpChecks && p.badFlags)
    || (Ports(p) && !p.truncated && c.anomaly && (p.sport == 0 || p.dport == 0))
    || (IsIcmp(p) && ((c.fragChecks && p.frag) || Oversized(c, p)))
  }

  /** Unreachable for IPv4; packet too big, router and neighbour discovery for IPv6. */
  predicate Vital(p: Pkt) {
    (p.proto == ICMP || p.proto == ICMPV6) && if p.v4 then p.icmpType == 3 else p.icmpType in {2, 133, 134, 135, 136}
  }

  /** A complete L4 header that names a management port as its destination. */
  predicate Managed(c: Cfg, p: Pkt) {
    && !p.truncated
    && (p.proto == TCP ==> p.dport in c.mgmtTcp) && (p.proto == UDP ==> p.dport in c.mgmtUdp)
    && (p.proto == TCP || p.proto == UDP)
  }

  /** A type the ICMP policy refuses, or a source that cannot be on this side. */
  predicate Refused(c: Cfg, p: Pkt, wan: bool, m: Maps) {
    || (IsIcmp(p) && c.icmpFilter && m.icmpPolicy == ICMP_DROP)
    || (c.bogon && wan && (m.badSource || m.ownPrefix))
  }

  predicate Tracked(c: Cfg, p: Pkt, m: Maps) {
    c.conntrack && !p.truncated && m.ctPass
  }

  /** An operator's block or ban, which a tracked flow does not outlive. */
  predicate Outlawed(c: Cfg, m: Maps) {
    (c.blocklist && m.blocked) || m.ban == Hard
  }

  /** An automatic ban, a SYN-ACK nobody asked for, or lockdown, which a tracked flow outlives. */
  predicate Unwelcome(c: Cfg, p: Pkt, m: Maps) {
    || (m.ban == Soft && m.banStill)
    || (c.capEgress && c.conntrack && !p.truncated && p.proto == TCP && p.syn && p.ack)
    || (c.mode == LOCKDOWN && !(c.lockdownIcmp && IsIcmp(p) && m.icmpPolicy != ICMP_DROP))
  }

  predicate PolicyDrop(c: Cfg, p: Pkt, wan: bool, m: Maps) {
    || Malformed(c, p)
    || (!Vital(p) && Refused(c, p, wan, m))
    || (&& !Vital(p) && !(c.allowlist && m.allowed) && !Managed(c, p)
        && (Outlawed(c, m) || (!Tracked(c, p, m) && Unwelcome(c, p, m))))
  }

  /** The policy program hands the packet on. */
  predicate PolicyOn(c: Cfg, p: Pkt, wan: bool, m: Maps) {
    && !Malformed(c, p) && !Vital(p) && !Refused(c, p, wan, m)
    && !(c.allowlist && m.allowed) && !Tracked(c, p, m)
    && (if Managed(c, p) then !c.mgmtBypass else !Outlawed(c, m) && !Unwelcome(c, p, m) && c.mode != LOCKDOWN)
  }

  predicate Amplifies(c: Cfg, p: Pkt, mgmt: bool, wan: bool, m: Maps) {
    c.antiAmplify && c.capEgress && wan && p.proto == UDP && !p.truncated && !mgmt && m.amplifier
  }

  /** The port policy has a say. */
  predicate Ruled(c: Cfg, p: Pkt, mgmt: bool) {
    c.portPolicy && !p.truncated && !mgmt && Ports(p)
  }

  predicate RuleRefuses(c: Cfg, m: Maps) {
    match m.rule
    case Absent => c.defaultDeny
    case Present(ruleMgmt, closed, limited) => !ruleMgmt && (closed || (limited && !m.portGrants))
  }

  predicate Alien(c: Cfg, p: Pkt, mgmt: bool) {
    c.defaultDeny && !mgmt && !IsIcmp(p) && !Ports(p) && !p.truncated
  }

  predicate Exempt(c: Cfg, p: Pkt, mgmt: bool, m: Maps) {
    Ruled(c, p, mgmt) && m.rule.Present? && m.rule.mgmt
  }

  predicate OverRate(c: Cfg, p: Pkt, m: Maps) {
    (c.rateLimit && m.rateHit) || Scans(c, p, m)
  }

  /** The cap on SYNs of a machine that cannot answer them with cookies. */
  predicate OverCap(c: Cfg, p: Pkt, m: Maps) {
    IsSyn(p) && !c.capSynproxy && c.synCap && !m.capGrants
  }

  predicate ActionDrop(c: Cfg, p: Pkt, mgmt: bool, wan: bool, m: Maps) {
    || Amplifies(c, p, mgmt, wan, m)
    || (Ruled(c, p, mgmt) && RuleRefuses(c, m))
    || Alien(c, p, mgmt)
    || (!Exempt(c, p, mgmt, m) && (OverRate(c, p, m) || OverCap(c, p, m)))
  }

  // ------------------------------------------------------------------------
  // The stages against the guards
  // ------------------------------------------------------------------------

  lemma ManagedIff(c: Cfg, p: Pkt)
    ensures Managed(c, p) == MgmtPort(c, p)
  {
  }

  lemma L2DropIff(c: Cfg, f: Frame, i: Iface)
    ensures var d := MainStage(c, f, i);
            (d.Decided? && d.act == Drop <==> L2Drop(c, f, i)) && (d.Continue? <==> L2Open(c, f, i))
  {
    hide Untagged;
  }

  lemma PolicyDropIff(c: Cfg, p: Pkt, wan: bool, m: Maps)
    ensures var d := PolicyStage(c, p, wan, m);
            (d.Decided? && d.act == Drop <==> PolicyDrop(c, p, wan, m)) && (d.Continue? <==> PolicyOn(c, p, wan, m))
  {
  }

  lemma ActionDropIff(c: Cfg, p: Pkt, mgmt: bool, wan: bool, m: Maps)
    ensures var d, a := LimitStage(c, p, mgmt, wan, m), AcceptStage(c, p, mgmt, wan, m);
            && (if d.Decided? then d.act == Drop else a.act == Drop) == ActionDrop(c, p, mgmt, wan, m)
            && (d.Continue? && TriesProxy(c, p, m) ==> a.act == Pass)
  {
  }

  // ------------------------------------------------------------------------
  // The whole chain
  // ------------------------------------------------------------------------

  predicate AtParse(w: World) {
    Runs(w.main) && L2Open(w.main.cfg.value, w.f, w.i) && w.toParse && Runs(w.parse)
  }

  predicate AtPolicy(w: World) {
    AtParse(w) && w.parsed.Good? && w.toPolicy && Runs(w.policy)
  }

  predicate AtAction(w: World) {
    AtPolicy(w) && PolicyOn(w.policy.cfg.value, w.parsed.p, w.i.wan, w.m) && w.toAction && Runs(w.action)
  }

  predicate Watched(s: Start, i: Iface)
    requires s.cfg.Some?
  {
    Watching(s.cfg.value, i)
  }

  /**
   * Every packet is dropped exactly when the program it reaches has one of these
   * grounds and is not watching only; monitored, the same grounds make a would-drop.
   */
  lemma DropsIff(w: World)
    ensures MainOutcome(w).act == Drop <==>
              || (Runs(w.main) && L2Drop(w.main.cfg.value, w.f, w.i) && !Watched(w.main, w.i))
              || (AtParse(w) && w.parsed.Bad? && !Watched(w.parse, w.i))
              || (AtPolicy(w) && PolicyDrop(w.policy.cfg.value, w.parsed.p, w.i.wan, w.m) && !Watched(w.policy, w.i))
              || (&& AtAction(w) && !Watched(w.action, w.i)
                  && ActionDrop(w.action.cfg.value, w.parsed.p, Managed(w.policy.cfg.value, w.parsed.p), w.i.wan, w.m))
    ensures MainOutcome(w).would <==>
              || (Runs(w.main) && L2Drop(w.main.cfg.value, w.f, w.i) && Watched(w.main, w.i))
              || (AtParse(w) && w.parsed.Bad? && Watched(w.parse, w.i))
              || (AtPolicy(w) && PolicyDrop(w.policy.cfg.value, w.parsed.p, w.i.wan, w.m) && Watched(w.policy, w.i))
              || (&& AtAction(w) && Watched(w.action, w.i)
                  && ActionDrop(w.action.cfg.value, w.parsed.p, Managed(w.policy.cfg.value, w.parsed.p), w.i.wan, w.m))
  {
    hide MainStage, PolicyStage, LimitStage, AcceptStage, TriesProxy, Watching, MgmtPort, Managed,
         L2Open, L2Drop, PolicyDrop, PolicyOn, ActionDrop;
    if Runs(w.main) { L2DropIff(w.main.cfg.value, w.f, w.i); }
    if w.parsed.Good? && Runs(w.policy) {
      var mgmt := Managed(w.policy.cfg.value, w.parsed.p);
      ManagedIff(w.policy.cfg.value, w.parsed.p);
      PolicyDropIff(w.policy.cfg.value, w.parsed.p, w.i.wan, w.m);
      if Runs(w.action) { ActionDropIff(w.action.cfg.value, w.parsed.p, mgmt, w.i.wan, w.m); }
    }
  }

  /** An operator's block or ban reaches every protocol; only the allow list, a management port and vital ICMP are spared. */
  lemma OutlawIsDropped(w: World)
    requires AtPolicy(w) && !Watched(w.policy, w.i) && Outlawed(w.policy.cfg.value, w.m)
    ensures MainOutcome(w).act == Drop <==>
              var c, p := w.policy.cfg.value, w.parsed.p;
              || Malformed(c, p)
              || (&& !Vital(p)
                  && (Refused(c, p, w.i.wan, w.m) || (!(c.allowlist && w.m.allowed) && !Managed(c, p))))
              || (&& AtAction(w) && !Watched(w.action, w.i)
                  && ActionDrop(w.action.cfg.value, p, Managed(c, p), w.i.wan, w.m))
  {
    hide MainOutcome, L2Drop, L2Open, Malformed, Vital, Refused, Managed, Tracked, Unwelcome, ActionDrop, Untagged;
    DropsIff(w);
    L2Apart(w.main.cfg.value, w.f, w.i);
  }

  lemma L2Apart(c: Cfg, f: Frame, i: Iface)
    ensures !(L2Drop(c, f, i) && L2Open(c, f, i))
  {
    hide Untagged;
  }

  // ------------------------------------------------------------------------
  // The reason charged
  // ------------------------------------------------------------------------

  /** The reasons of the two programs that drop; all others pass. */
  predicate Ground(r: Reason) {
    || r.Land? || r.TcpFlags? || r.PortZero? || r.FragIcmp? || r.IcmpOversize? || r.IcmpType? || r.Bogon? || r.SourceSelf?
    || r.Blocklist? || r.BanActive? || r.SynAckUnsolicited? || r.Lockdown?
    || r.Amplifier? || r.PortClosed? || r.PortRate? || r.DefaultDeny? || r.UnknownL4?
    || r.Rate? || r.Portscan? || r.GlobalSyn?
  }

  /** What each reason of stage 2 says of a packet. */
  predicate ShapeHolds(c: Cfg, p: Pkt, wan: bool, m: Maps, r: Reason) {
    || (r.Land? && c.land && p.sameAddr)
    || (r.TcpFlags? && p.proto == TCP && !p.truncated && c.tcpChecks && p.badFlags)
    || (r.PortZero? && Ports(p) && !p.truncated && c.anomaly && (p.sport == 0 || p.dport == 0))
    || (r.FragIcmp? && IsIcmp(p) && c.fragChecks && p.frag)
    || (r.IcmpOversize? && IsIcmp(p) && Oversized(c, p))
    || (r.PassIcmpMandatory? && Vital(p))
    || (r.IcmpType? && IsIcmp(p) && c.icmpFilter && m.icmpPolicy == ICMP_DROP)
    || (r.Bogon? && c.bogon && wan && m.badSource)
    || (r.SourceSelf? && c.bogon && wan && m.ownPrefix)
  }

  /** What each reason of stages 3 to 5b says of a packet. */
  predicate GateHolds(c: Cfg, p: Pkt, m: Maps, r: Reason) {
    || (r.PassAllowlist? && c.allowlist && m.allowed)
    || (r.PassMgmt? && Managed(c, p) && c.mgmtBypass)
    || (r.PassConntrack? && Tracked(c, p, m))
    || (&& !Managed(c, p)
        && (|| (r.Blocklist? && c.blocklist && m.blocked)
            || (r.BanActive? && (m.ban == Hard || (m.ban == Soft && m.banStill && !Tracked(c, p, m))))
            || (r.SynAckUnsolicited? && c.capEgress && c.conntrack && !p.truncated && p.proto == TCP && p.syn && p.ack)
            || (r.PassIcmpPolicy? && c.mode == LOCKDOWN && c.lockdownIcmp && IsIcmp(p) && m.icmpPolicy != ICMP_DROP)
            || (r.Lockdown? && c.mode == LOCKDOWN)))
  }

  predicate PolicyHolds(c: Cfg, p: Pkt, wan: bool, m: Maps, r: Reason) {
    ShapeHolds(c, p, wan, m, r) || GateHolds(c, p, m, r)
  }

  /** The order in which the policy program weighs its reasons. */
  function PolicyRank(r: Reason): nat {
    if r.Land? then 0 else if r.TcpFlags? then 1 else if r.PortZero? then 2 else if r.FragIcmp? then 3
    else if r.IcmpOversize? then 4 else if r.PassIcmpMandatory? then 5 else if r.IcmpType? then 6
    else if r.Bogon? then 7 else if r.SourceSelf? then 8 else 9 + GateRank(r)
  }

  function GateRank(r: Reason): nat {
    if r.PassAllowlist? then 0 else if r.PassMgmt? then 1 else if r.Blocklist? then 2 else if r.BanActive? then 3
    else if r.PassConntrack? then 4 else if r.SynAckUnsolicited? then 5 else if r.PassIcmpPolicy? then 6 else 7
  }

  /** The policy program decides for the first reason that holds, drops exactly on a ground, and goes on when none holds. */
  lemma PolicyReasonIsFirst(c: Cfg, p: Pkt, wan: bool, m: Maps, q: Reason)
    ensures var d := PolicyStage(c, p, wan, m);
            && (d.Decided? ==> PolicyHolds(c, p, wan, m, d.reason) && d.act == if Ground(d.reason) then Drop else Pass)
            && (PolicyHolds(c, p, wan, m, q) ==> d.Decided? && PolicyRank(d.reason) <= PolicyRank(q))
  {
    hide ShapeHolds, GateHolds, PolicyRank, Ground, AnomalyStage, HatchStage;
    ShapeTrue(c, p, wan, m);
    ShapeFirst(c, p, wan, m, q);
    if AnomalyStage(c, p, wan, m).Decided? { ShapeRank(c, p, wan, m, AnomalyStage(c, p, wan, m).reason); }
    GateAfterShape(c, p, m, q);
    GateTrue(c, p, m);
    GateFirst(c, p, m, q);
  }

  lemma ShapeTrue(c: Cfg, p: Pkt, wan: bool, m: Maps)
    ensures var d := AnomalyStage(c, p, wan, m);
            d.Decided? ==> ShapeHolds(c, p, wan, m, d.reason) && d.act == if Ground(d.reason) then Drop else Pass
  {
  }

  lemma ShapeFirst(c: Cfg, p: Pkt, wan: bool, m: Maps, q: Reason)
    ensures var d := AnomalyStage(c, p, wan, m);
            ShapeHolds(c, p, wan, m, q) ==> d.Decided? && PolicyRank(d.reason) <= PolicyRank(q)
  {
  }

  lemma ShapeRank(c: Cfg, p: Pkt, wan: bool, m: Maps, r: Reason)
    ensures ShapeHolds(c, p, wan, m, r) ==> PolicyRank(r) < 9
  {
    hide Vital, Oversized, IsIcmp, Ports, GateRank;
  }

  lemma GateAfterShape(c: Cfg, p: Pkt, m: Maps, q: Reason)
    ensures GateHolds(c, p, m, q) ==> PolicyRank(q) >= 9
  {
    hide Managed, Tracked, IsIcmp, GateRank;
  }

  lemma GateTrue(c: Cfg, p: Pkt, m: Maps)
    ensures var d := HatchStage(c, p, m);
            d.Decided? ==> GateHolds(c, p, m, d.reason) && d.act == if Ground(d.reason) then Drop else Pass
  {
    hide MgmtPort, Managed, IsIcmp;
    ManagedIff(c, p);
  }

  lemma GateFirst(c: Cfg, p: Pkt, m: Maps, q: Reason)
    ensures var d := HatchStage(c, p, m);
            GateHolds(c, p, m, q) ==> d.Decided? && PolicyRank(d.reason) <= PolicyRank(q)
  {
    hide MgmtPort, Managed, IsIcmp;
    ManagedIff(c, p);
  }

  /** What each reason of the action program says of a packet. */
  predicate ActionHolds(c: Cfg, p: Pkt, mgmt: bool, wan: bool, m: Maps, r: Reason) {
    || (r.Amplifier? && Amplifies(c, p, mgmt, wan, m))
    || PortHolds(c, p, mgmt, m, r)
    || (r.Rate? && c.rateLimit && m.rateHit)
    || (r.Portscan? && Scans(c, p, m))
    || (r.GlobalSyn? && OverCap(c, p, m))
    || (r.PassLan? && !wan) || r.PassDefault?
  }

  predicate PortHolds(c: Cfg, p: Pkt, mgmt: bool, m: Maps, r: Reason) {
    (r.UnknownL4? && Alien(c, p, mgmt)) || (Ruled(c, p, mgmt) && RuleHolds(c, m, r))
  }

  predicate RuleHolds(c: Cfg, m: Maps, r: Reason) {
    if m.rule.Absent? then r.DefaultDeny? && c.defaultDeny
    else
      || (r.PassMgmt? && m.rule.mgmt) || (r.PortClosed? && m.rule.closed)
      || (r.PortRate? && m.rule.limited && !m.portGrants)
      || (r.PassPortRate? && m.rule.limited) || r.PassPortOpen?
  }

  function ActionRank(r: Reason): nat {
    if r.Amplifier? then 0 else if r.PassMgmt? then 1 else if r.DefaultDeny? then 2 else if r.PortClosed? then 3
    else if r.PortRate? then 4 else if r.UnknownL4? then 5 else if r.Rate? then 6 else if r.Portscan? then 7
    else 8 + AcceptRank(r)
  }

  function AcceptRank(r: Reason): nat {
    if r.GlobalSyn? then 0 else if r.PassPortRate? then 1 else if r.PassPortOpen? then 2 else if r.PassLan? then 3 else 4
  }

  predicate Scans(c: Cfg, p: Pkt, m: Maps) {
    c.portscan && !p.truncated && Ports(p) && m.scanHit
  }

  /** The end of the action program short of the SYN proxy. */
  function Ended(c: Cfg, p: Pkt, mgmt: bool, wan: bool, m: Maps): Decision {
    var l := LimitStage(c, p, mgmt, wan, m);
    if l.Decided? then l else AcceptStage(c, p, mgmt, wan, m)
  }

  /** The same for the action program; short of the SYN proxy it always decides. */
  lemma ActionReasonIsFirst(c: Cfg, p: Pkt, mgmt: bool, wan: bool, m: Maps, q: Reason)
    ensures var d := Ended(c, p, mgmt, wan, m);
            && d.Decided? && ActionHolds(c, p, mgmt, wan, m, d.reason) && d.act == (if Ground(d.reason) then Drop else Pass)
            && (ActionHolds(c, p, mgmt, wan, m, q) ==> ActionRank(d.reason) <= ActionRank(q))
  {
    hide Ended, ActionHolds, ActionRank, Ground;
    ActionTrue(c, p, mgmt, wan, m);
    if ActionHolds(c, p, mgmt, wan, m, q) { ActionFirst(c, p, mgmt, wan, m, q); }
  }

  lemma ActionTrue(c: Cfg, p: Pkt, mgmt: bool, wan: bool, m: Maps)
    ensures var d := Ended(c, p, mgmt, wan, m);
            && d.Decided? && ActionHolds(c, p, mgmt, wan, m, d.reason) && d.act == if Ground(d.reason) then Drop else Pass
  {
    hide Ended, PortHolds, PortStage, OverCap, Amplifies, Scans, ActionRank, Ground;
    EndedIs(c, p, mgmt, wan, m);
    PortTrue(c, p, mgmt, m);
    Ranks(Ended(c, p, mgmt, wan, m).reason);
  }

  lemma ActionFirst(c: Cfg, p: Pkt, mgmt: bool, wan: bool, m: Maps, q: Reason)
    requires ActionHolds(c, p, mgmt, wan, m, q)
    ensures var d := Ended(c, p, mgmt, wan, m);
            d.Decided? && ActionRank(d.reason) <= ActionRank(q)
  {
    hide Ended, PortHolds, PortStage, OverCap, Amplifies, Scans, ActionRank, Ground;
    EndedIs(c, p, mgmt, wan, m);
    PortTrue(c, p, mgmt, m);
    if PortHolds(c, p, mgmt, m, q) { PortFirst(c, p, mgmt, m, q); }
    Ranks(q);
    Ranks(Ended(c, p, mgmt, wan, m).reason);
  }

  lemma EndedIs(c: Cfg, p: Pkt, mgmt: bool, wan: bool, m: Maps)
    ensures var port, r := PortStage(c, p, mgmt, m).0, PortStage(c, p, mgmt, m).1;
            Ended(c, p, mgmt, wan, m) ==
              if Amplifies(c, p, mgmt, wan, m) then Decided(Drop, Amplifier)
              else if port.Decided? then port
              else if c.rateLimit && m.rateHit then Decided(Drop, Rate)
              else if Scans(c, p, m) then Decided(Drop, Portscan)
              else if OverCap(c, p, m) then Decided(Drop, GlobalSyn)
              else Decided(Pass, if r.PassDefault? && !wan then PassLan else r)
  {
    hide PortStage;
  }

  lemma Ranks(q: Reason)
    ensures (q.Amplifier? ==> ActionRank(q) == 0) && (q.Rate? ==> ActionRank(q) == 6) && (q.Portscan? ==> ActionRank(q) == 7)
    ensures q.GlobalSyn? ==> ActionRank(q) == 8
    ensures (q.PassLan? ==> ActionRank(q) == 11) && (q.PassDefault? ==> ActionRank(q) == 12)
    ensures q.PassLan? || q.PassDefault? ==> !Ground(q)
    ensures q.Amplifier? || q.Rate? || q.Portscan? || q.GlobalSyn? ==> Ground(q)
  {
  }

  /** The port stage ends for a reason of its own, or names the rule that lets the packet on. */
  lemma PortTrue(c: Cfg, p: Pkt, mgmt: bool, m: Maps)
    ensures var d, r := PortStage(c, p, mgmt, m).0, PortStage(c, p, mgmt, m).1;
            && (d.Decided? ==> && PortHolds(c, p, mgmt, m, d.reason) && 1 <= ActionRank(d.reason) <= 5
                               && d.act == if Ground(d.reason) then Drop else Pass)
            && (d.Continue? ==> r.PassDefault? || (PortHolds(c, p, mgmt, m, r) && 9 <= ActionRank(r) <= 10 && !Ground(r)))
  {
  }

  lemma PortFirst(c: Cfg, p: Pkt, mgmt: bool, m: Maps, q: Reason)
    requires PortHolds(c, p, mgmt, m, q)
    ensures 1 <= ActionRank(q) <= 5 || 9 <= ActionRank(q) <= 10
    ensures PortStage(c, p, mgmt, m).0.Continue? ==> ActionRank(q) >= 9
    ensures var d, r := PortStage(c, p, mgmt, m).0, PortStage(c, p, mgmt, m).1;
            && (d.Decided? ==> ActionRank(d.reason) <= ActionRank(q))
            && (d.Continue? ==> !r.PassDefault? && ActionRank(r) <= ActionRank(q))
  {
  }

  /**
   * Over the whole chain: a packet that the policy program ends, or the action
   * program without the SYN proxy, is charged the first reason that is true of it.
   */
  lemma ChargedReasonIsFirst(w: World, q: Reason)
    ensures var r := MainOutcome(w).reason;
            && (AtPolicy(w) && !PolicyOn(w.policy.cfg.value, w.parsed.p, w.i.wan, w.m) ==>
                  && r.Some? && PolicyHolds(w.policy.cfg.value, w.parsed.p, w.i.wan, w.m, r.value)
                  && (PolicyHolds(w.policy.cfg.value, w.parsed.p, w.i.wan, w.m, q) ==> PolicyRank(r.value) <= PolicyRank(q)))
            && (AtAction(w) && !ReachesProxy(w) ==>
                  var mgmt := Managed(w.policy.cfg.value, w.parsed.p);
      ManagedIff(w.policy.cfg.value, w.parsed.p);
                  && r.Some? && ActionHolds(w.action.cfg.value, w.parsed.p, mgmt, w.i.wan, w.m, r.value)
                  && (ActionHolds(w.action.cfg.value, w.parsed.p, mgmt, w.i.wan, w.m, q) ==>
                        ActionRank(r.value) <= ActionRank(q)))
  {
    hide MainStage, PolicyStage, LimitStage, AcceptStage, TriesProxy, Watching, MgmtPort, Managed, L2Open, L2Drop, PolicyDrop,
         PolicyOn, PolicyHolds, PolicyRank, ActionHolds, ActionRank, Ground;
    if AtPolicy(w) {
      ManagedIff(w.policy.cfg.value, w.parsed.p);
      L2DropIff(w.main.cfg.value, w.f, w.i);
      PolicyDropIff(w.policy.cfg.value, w.parsed.p, w.i.wan, w.m);
      PolicyReasonIsFirst(w.policy.cfg.value, w.parsed.p, w.i.wan, w.m, q);
      if AtAction(w) {
        ActionReasonIsFirst(w.action.cfg.value, w.parsed.p, Managed(w.policy.cfg.value, w.parsed.p), w.i.wan, w.m, q);
      }
    }
  }

  /** The ethertype the L2 walk stops at. */
  function Inner(c: Cfg, f: Frame): nat
    requires f.types != []
  {
    Untagged(f.types, 0, Min(if c.vlan then c.vlanMax else 0, VLAN_DEPTH))
  }

  /** What each reason of the first program says of a frame; no two are ever true of one frame. */
  predicate L2Holds(c: Cfg, f: Frame, i: Iface, r: Reason) {
    if !c.enabled || i.disabled then r.PassDisabled?
    else if f.short || f.types == [] then r.EthTruncated?
    else if Inner(c, f) == |f.types| then r.VlanTruncated?
    else
      var t := f.types[Inner(c, f)];
      || (r.VlanDepth? && IsTag(t) && c.vlan)
      || (r.Ip6Disabled? && t == ETH_IP6 && (!c.ipv6 || i.noIpv6))
      || (r.UnknownL3? && c.dropUnknown && t !in {ETH_ARP, ETH_IP, ETH_IP6} && !(IsTag(t) && c.vlan))
      || (&& r.PassNotIp?
          && (|| t == ETH_ARP || (t == ETH_IP && !c.ipv4)
              || (!c.dropUnknown && t !in {ETH_IP, ETH_IP6} && !(IsTag(t) && c.vlan))))
  }

  lemma L2ReasonIff(c: Cfg, f: Frame, i: Iface, r: Reason)
    ensures MainStage(c, f, i).Decided? && MainStage(c, f, i).reason == r <==> L2Holds(c, f, i, r)
  {
    hide Untagged;
  }

  /** What each reason of the proxy program says of a SYN. */
  predicate ProxyHolds(c: Cfg, p: Pkt, m: Maps, r: Reason) {
    || (r.ProxySkipped? && (p.rst || p.fin || Monitors(c)))
    || (&& !p.rst && !p.fin && !Monitors(c)
        && (|| (r.PassMgmt? && p.dport in c.mgmtTcp)
            || (&& p.dport !in c.mgmtTcp
                && (|| (r.PassAllowlist? && c.allowlist && m.allowed)
                    || (&& !(c.allowlist && m.allowed)
                        && (|| (r.PassConntrack? && !m.portClosed && c.conntrack && m.known)
                            || (r.ProxySkipped? && (m.portClosed || (!(c.conntrack && m.known) && !m.bare)))))))))
  }

  lemma ProxyReasonIff(c: Cfg, p: Pkt, m: Maps, r: Reason)
    requires IsSyn(p)
    ensures ProxyStage(c, p, m).reason == Some(r) <==> ProxyHolds(c, p, m, r)
    ensures ProxyStage(c, p, m).reason.None? <==> Exposed(c, p, m) && m.bare
  {
  }
}
