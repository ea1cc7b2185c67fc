/**
 * The tail-call chain main -> parse -> policy -> action (-> SYN proxy) of the
 * XDP dataplane: every stage as a decision on the configuration the program
 * read, the parsed packet and whatever the maps answer, and the accounting of
 * the shared verdict block.  Any tail call may fail, and any program may find
 * the configuration or the scratch entry missing.
 */
module Chain {
  import opened Words
  import Conntrack
  import SP = SynProxy

  const TCP: nat := 6
  const UDP: nat := 17
  const ICMP: nat := 1
  const ICMPV6: nat := 58
  const ETH_ARP: nat := 0x0806
  const ETH_IP: nat := 0x0800
  const ETH_IP6: nat := 0x86DD
  const VLAN_DEPTH: nat := 2
  const UNDER_ATTACK: nat := 2
  const LOCKDOWN: nat := 3
  const MONITOR_ONLY: nat := 4
  const ICMP_DROP: nat := 0

  /** One reading of the configuration map. */
  datatype Cfg = Cfg(
    enabled: bool, monitor: bool, mode: nat, vlan: bool, vlanMax: nat, ipv4: bool, ipv6: bool, dropUnknown: bool,
    land: bool, tcpChecks: bool, anomaly: bool, fragChecks: bool, icmpFilter: bool, icmpMax: nat, icmp6Max: nat,
    bogon: bool, allowlist: bool, mgmtBypass: bool, mgmtTcp: set<u16>, mgmtUdp: set<u16>, blocklist: bool,
    conntrack: bool, capEgress: bool, lockdownIcmp: bool, antiAmplify: bool, portPolicy: bool, defaultDeny: bool,
    rateLimit: bool, portscan: bool, synproxy: bool, capSynproxy: bool, synCap: bool)

  datatype Iface = Iface(disabled: bool, monitor: bool, wan: bool, noIpv6: bool)

  /** The outer ethertype and the one behind each tag; the frame ends inside a tag that has none. */
  datatype Frame = Frame(len: nat, short: bool, types: seq<nat>)

  /** What the L3/L4 parse leaves in the scratch entry. */
  datatype Pkt = Pkt(proto: nat, v4: bool, sameAddr: bool, truncated: bool, frag: bool, sport: u16, dport: u16,
                     syn: bool, ack: bool, rst: bool, fin: bool, badFlags: bool, icmpType: nat, payload: nat)

  datatype Ban = NoBan | Soft | Hard
  datatype Rule = Absent | Present(mgmt: bool, closed: bool, limited: bool)

  /** What the maps and helpers answer for this packet: anything at all. */
  datatype Maps = Maps(
    badSource: bool, ownPrefix: bool, icmpPolicy: nat, allowed: bool, blocked: bool, ban: Ban, banStill: bool,
    ctPass: bool, amplifier: bool, rule: Rule, portGrants: bool, rateHit: bool, scanHit: bool, proxied: bool,
    capGrants: bool, portClosed: bool, known: bool, bare: bool, cookie: bool)

  datatype Reason =
    | ConfigMissing | ScratchFail | PassDisabled | PassNotIp | PassDefault | PassLan | PassIcmpMandatory
    | PassAllowlist | PassMgmt | PassConntrack | PassIcmpPolicy | PassPortRate | PassPortOpen
    | EthTruncated | VlanTruncated | VlanDepth | UnknownL3 | Ip6Disabled | ParseError(code: nat)
    | Land | TcpFlags | PortZero | FragIcmp | IcmpOversize | IcmpType | Bogon | SourceSelf
    | Blocklist | BanActive | SynAckUnsolicited | Lockdown | Amplifier | PortClosed | PortRate | DefaultDeny
    | UnknownL4 | Rate | Portscan | GlobalSyn | ProxySkipped

  datatype Act = Pass | Drop | Tx

  datatype Decision = Continue | Decided(act: Act, reason: Reason)

  predicate IsTag(t: nat) {
    t in {0x8100, 0x88A8, 0x9100, 0x9200, 0x9300}
  }

  predicate IsIcmp(p: Pkt) {
    p.proto == ICMP || p.proto == ICMPV6
  }

  predicate IsSyn(p: Pkt) {
    p.proto == TCP && p.syn && !p.ack
  }

  predicate Ports(p: Pkt) {
    p.proto == TCP || p.proto == UDP
  }

  /** Global monitor mode, by flag or by mode. */
  predicate Monitors(c: Cfg) {
    c.monitor || c.mode == MONITOR_ONLY
  }

  /** The index of the ethertype behind at most `max` tags, or |types| when the frame ends first. */
  function Untagged(types: seq<nat>, i: nat, max: nat): (k: nat)
    requires i < |types|
    ensures i <= k <= |types| && k <= i + max
    ensures k < |types| ==> (k == i + max || !IsTag(types[k])) && forall j :: i <= j < k ==> IsTag(types[j])
    ensures k == |types| ==> forall j :: i <= j < k ==> IsTag(types[j])
    decreases max
  {
    if max == 0 || !IsTag(types[i]) then i
    else if i + 1 == |types| then i + 1
    else Untagged(types, i + 1, max - 1)
  }

  method WalkTags(types: seq<nat>, max: nat) returns (k: nat)
    requires types != []
    ensures k == Untagged(types, 0, Min(max, VLAN_DEPTH))
  {
    var depth := Min(max, VLAN_DEPTH);
    k := 0;
    for i := 0 to VLAN_DEPTH
      invariant k < |types| && k <= i && k <= depth
      invariant Untagged(types, 0, depth) == Untagged(types, k, depth - k)
      invariant k < i ==> k >= depth || !IsTag(types[k])
    {
      if i >= depth || !IsTag(types[k]) {
        break;
      }
      if k + 1 == |types| {
        return k + 1;
      }
      k := k + 1;
    }
  }

  /** Stage 0 and the L2 part of stage 1. */
  function MainStage(c: Cfg, f: Frame, i: Iface): Decision {
    if !c.enabled || i.disabled then Decided(Pass, PassDisabled)
    else if f.short || f.types == [] then Decided(Drop, EthTruncated)
    else
      var k := Untagged(f.types, 0, Min(if c.vlan then c.vlanMax else 0, VLAN_DEPTH));
      if k == |f.types| then Decided(Drop, VlanTruncated)
      else
        var t := f.types[k];
        if IsTag(t) then
          if c.vlan then Decided(Drop, VlanDepth)
          else if c.dropUnknown then Decided(Drop, UnknownL3)
          else Decided(Pass, PassNotIp)
        else if t == ETH_ARP then Decided(Pass, PassNotIp)
        else if t == ETH_IP then if c.ipv4 then Continue else Decided(Pass, PassNotIp)
        else if t == ETH_IP6 then if c.ipv6 && !i.noIpv6 then Continue else Decided(Drop, Ip6Disabled)
        else if c.dropUnknown then Decided(Drop, UnknownL3)
        else Decided(Pass, PassNotIp)
  }

  predicate Mandatory(p: Pkt) {
    if p.v4 then p.icmpType == 3 else p.icmpType == 2 || 133 <= p.icmpType <= 136
  }

  function IcmpStage(c: Cfg, p: Pkt, m: Maps): Decision {
    var most := if p.v4 then c.icmpMax else c.icmp6Max;
    if c.fragChecks && p.frag then Decided(Drop, FragIcmp)
    else if most != 0 && p.payload > most then Decided(Drop, IcmpOversize)
    else if Mandatory(p) then Decided(Pass, PassIcmpMandatory)
    else if c.icmpFilter && m.icmpPolicy == ICMP_DROP then Decided(Drop, IcmpType)
    else Continue
  }

  function BogonStage(c: Cfg, wan: bool, m: Maps): Decision {
    if c.bogon && wan && m.badSource then Decided(Drop, Bogon)
    else if c.bogon && wan && m.ownPrefix then Decided(Drop, SourceSelf)
    else Continue
  }

  /** Stage 2. */
  function AnomalyStage(c: Cfg, p: Pkt, wan: bool, m: Maps): Decision {
    if c.land && p.sameAddr then Decided(Drop, Land)
    else if p.proto == TCP && !p.truncated && c.tcpChecks && p.badFlags then Decided(Drop, TcpFlags)
    else if Ports(p) && !p.truncated && c.anomaly && (p.sport == 0 || p.dport == 0) then Decided(Drop, PortZero)
    else if IsIcmp(p) && IcmpStage(c, p, m) != Continue then IcmpStage(c, p, m)
    else BogonStage(c, wan, m)
  }

  predicate MgmtPort(c: Cfg, p: Pkt) {
    !p.truncated && ((p.proto == TCP && p.dport in c.mgmtTcp) || (p.proto == UDP && p.dport in c.mgmtUdp))
  }

  predicate Missed(c: Cfg, p: Pkt, m: Maps) {
    c.conntrack && !p.truncated && !m.ctPass
  }

  /** Stages 3 to 5b. */
  function HatchStage(c: Cfg, p: Pkt, m: Maps): Decision {
    if c.allowlist && m.allowed then Decided(Pass, PassAllowlist)
    else if MgmtPort(c, p) && c.mgmtBypass then Decided(Pass, PassMgmt)
    else if !MgmtPort(c, p) && c.blocklist && m.blocked then Decided(Drop, Blocklist)
    else if !MgmtPort(c, p) && m.ban == Hard then Decided(Drop, BanActive)
    else if c.conntrack && !p.truncated && m.ctPass then Decided(Pass, PassConntrack)
    else if !MgmtPort(c, p) && m.ban == Soft && m.banStill then Decided(Drop, BanActive)
    else if c.capEgress && Missed(c, p, m) && p.proto == TCP && p.syn && p.ack && !MgmtPort(c, p)
    then Decided(Drop, SynAckUnsolicited)
    else if c.mode == LOCKDOWN && !MgmtPort(c, p) then
      if c.lockdownIcmp && IsIcmp(p) && m.icmpPolicy != ICMP_DROP then Decided(Pass, PassIcmpPolicy)
      else Decided(Drop, Lockdown)
    else Continue
  }

  function PolicyStage(c: Cfg, p: Pkt, wan: bool, m: Maps): Decision {
    if AnomalyStage(c, p, wan, m) != Continue then AnomalyStage(c, p, wan, m) else HatchStage(c, p, m)
  }

  /** Stage 7: the port rule; a rule that lets the packet on names the reason it passes for. */
  function PortStage(c: Cfg, p: Pkt, mgmt: bool, m: Maps): (Decision, Reason) {
    if c.portPolicy && !p.truncated && !mgmt && Ports(p) then
      match m.rule
      case Absent => (if c.defaultDeny then Decided(Drop, DefaultDeny) else Continue, PassDefault)
      case Present(ruleMgmt, closed, limited) =>
        if ruleMgmt then (Decided(Pass, PassMgmt), PassMgmt)
        else if closed then (Decided(Drop, PortClosed), PassDefault)
        else if limited && !m.portGrants then (Decided(Drop, PortRate), PassDefault)
        else (Continue, if limited then PassPortRate else PassPortOpen)
    else if c.defaultDeny && !mgmt && !IsIcmp(p) && !Ports(p) && !p.truncated
    then (Decided(Drop, UnknownL4), PassDefault)
    else (Continue, PassDefault)
  }

  /** Stages 6 to 9. */
  function LimitStage(c: Cfg, p: Pkt, mgmt: bool, wan: bool, m: Maps): Decision {
    if c.antiAmplify && c.capEgress && wan && p.proto == UDP && !p.truncated && !mgmt && m.amplifier
    then Decided(Drop, Amplifier)
    else if PortStage(c, p, mgmt, m).0 != Continue then PortStage(c, p, mgmt, m).0
    else if c.rateLimit && m.rateHit then Decided(Drop, Rate)
    else if c.portscan && !p.truncated && Ports(p) && m.scanHit then Decided(Drop, Portscan)
    else Continue
  }

  /** Stage 10 tries the SYN proxy. */
  predicate TriesProxy(c: Cfg, p: Pkt, m: Maps) {
    IsSyn(p) && c.synproxy && c.capSynproxy && c.mode == UNDER_ATTACK && m.proxied
  }

  /** The rest of stage 10 and the accept. */
  function AcceptStage(c: Cfg, p: Pkt, mgmt: bool, wan: bool, m: Maps): (d: Decision)
    ensures d.Decided?
  {
    if IsSyn(p) && !c.capSynproxy && c.synCap && !m.capGrants then Decided(Drop, GlobalSyn)
    else
      var r := PortStage(c, p, mgmt, m).1;
      Decided(Pass, if r == PassDefault && !wan then PassLan else r)
  }

  /** How the SYN proxy program ends: it charges no specific reason once it has asked for a cookie. */
  datatype Ending = Ending(act: Act, reason: Option<Reason>)

  /** The SYN is past every escape hatch of the proxy. */
  predicate Exposed(c: Cfg, p: Pkt, m: Maps) {
    && !p.rst && !p.fin && !Monitors(c)
    && p.dport !in c.mgmtTcp && !(c.allowlist && m.allowed)
    && !m.portClosed && !(c.conntrack && m.known)
  }

  /** The SYN proxy program on the SYN it was called for. */
  function ProxyStage(c: Cfg, p: Pkt, m: Maps): Ending
    requires IsSyn(p)
  {
    if p.rst || p.fin || Monitors(c) then Ending(Pass, Some(ProxySkipped))
    else if p.dport in c.mgmtTcp then Ending(Pass, Some(PassMgmt))
    else if c.allowlist && m.allowed then Ending(Pass, Some(PassAllowlist))
    else if m.portClosed then Ending(Pass, Some(ProxySkipped))
    else if c.conntrack && m.known then Ending(Pass, Some(PassConntrack))
    else if !m.bare then Ending(Pass, Some(ProxySkipped))
    else Ending(if m.cookie then Tx else Pass, None)
  }

  /** The map answers and the frame that the proxy program works on are those of the chain. */
  ghost predicate SameFacts(s: seq<byte>, c: Cfg, p: Pkt, m: Maps, w: SP.World) {
    && w.monitor == Monitors(c) && w.mgmt == c.mgmtTcp && w.allowlisted == (c.allowlist && m.allowed)
    && w.closed == m.portClosed && w.known == (c.conntrack && m.known) && m.cookie == (w.cookie >= 0)
    && (m.bare <==> exists g :: SP.SegmentOf(s, g) && SP.Bare(s, g))
    && (forall g :: SP.SegmentOf(s, g) ==>
          && p.dport == SP.Be16(s[g.th + 2..g.th + 4])
          && (SP.IsSyn(s[g.th + 13]) <==> p.syn && !p.ack && !p.rst && !p.fin)
          && (SP.IsAck(s[g.th + 13]) <==> p.ack && !p.syn && !p.rst && !p.fin))
  }

  /** A frame has at most one segment. */
  lemma SegmentIsUnique(s: seq<byte>, g: SP.Segment, h: SP.Segment)
    requires SP.SegmentOf(s, g) && SP.SegmentOf(s, h)
    ensures g == h
  {
    hide SP.Strip, SP.Be16;
  }

  /** The chain's proxy stage is the verdict of the byte-level program on the frame it was called for. */
  method ProxyOnFrame(f: array<byte>, c: Cfg, p: Pkt, m: Maps, w: SP.World, little: bool) returns (v: SP.Verdict)
    requires IsSyn(p) && SameFacts(f[..], c, p, m, w)
    modifies f
    ensures ProxyStage(c, p, m).act == if v == SP.Tx then Tx else if v == SP.Drop then Drop else Pass
    ensures v != SP.Tx ==> f[..] == old(f[..])
  {
    hide SP.SegmentOf, SP.Bare, SP.Be16, SP.IsSyn, SP.IsAck, SP.Reply4, SP.Reply6;
    ghost var s := f[..];
    ghost var g;
    v, g := SP.Proxy(f, w, little);
    if m.bare {
      ghost var h :| SP.SegmentOf(s, h) && SP.Bare(s, h);
      SegmentIsUnique(s, g, h);
    }
  }

  /** What one program finds when it starts: its configuration and the scratch entry. */
  datatype Start = Start(cfg: Option<Cfg>, scratch: bool)

  /** One packet: the frame, the parse outcome, the map answers, each program's start, and which tail calls succeed. */
  datatype World = World(f: Frame, i: Iface, parsed: Result, m: Maps,
                         main: Start, parse: Start, policy: Start, action: Start, proxy: Start,
                         toParse: bool, toPolicy: bool, toAction: bool, toProxy: bool)

  datatype Result = Bad(code: nat) | Good(p: Pkt)

  /** The verdict, the reason and bytes charged, and whether monitoring turned a drop into a pass. */
  datatype Outcome = Outcome(act: Act, reason: Option<Reason>, bytes: nat, would: bool)

  /** The verdict block: monitoring turns a drop into a pass and keeps the reason. */
  function Settled(act: Act, reason: Reason, len: nat, watching: bool): Outcome {
    if act == Drop && watching then Outcome(Pass, Some(reason), len, true) else Outcome(act, Some(reason), len, false)
  }

  function Failed(s: Start, len: nat): Outcome {
    Outcome(Pass, Some(if s.cfg.None? then ConfigMissing else ScratchFail), len, false)
  }

  predicate Runs(s: Start) {
    s.cfg.Some? && s.scratch
  }

  predicate Watching(c: Cfg, i: Iface) {
    Monitors(c) || i.monitor
  }

  function MainOutcome(w: World): Outcome {
    if !Runs(w.main) then Failed(w.main, w.f.len)
    else
      var c := w.main.cfg.value;
      var d := MainStage(c, w.f, w.i);
      if d.Decided? then Settled(d.act, d.reason, w.f.len, Watching(c, w.i))
      else if w.toParse then ParseOutcome(w)
      else Settled(Pass, PassDefault, w.f.len, Watching(c, w.i))
  }

  function ParseOutcome(w: World): Outcome {
    if !Runs(w.parse) then Failed(w.parse, 0)
    else if w.parsed.Bad? then Settled(Drop, ParseError(w.parsed.code), w.f.len, Watching(w.parse.cfg.value, w.i))
    else if w.toPolicy then PolicyOutcome(w, w.parsed.p)
    else Settled(Pass, PassDefault, w.f.len, Watching(w.parse.cfg.value, w.i))
  }

  function PolicyOutcome(w: World, p: Pkt): Outcome {
    if !Runs(w.policy) then Failed(w.policy, 0)
    else
      var c := w.policy.cfg.value;
      var d := PolicyStage(c, p, w.i.wan, w.m);
      if d.Decided? then Settled(d.act, d.reason, w.f.len, Watching(c, w.i))
      else if w.toAction then ActionOutcome(w, p, MgmtPort(c, p))
      else Settled(Pass, if w.i.wan then PassDefault else PassLan, w.f.len, Watching(c, w.i))
  }

  function ActionOutcome(w: World, p: Pkt, mgmt: bool): Outcome {
    if !Runs(w.action) then Failed(w.action, 0)
    else
      var c := w.action.cfg.value;
      var d := LimitStage(c, p, mgmt, w.i.wan, w.m);
      if d.Decided? then Settled(d.act, d.reason, w.f.len, Watching(c, w.i))
      else if TriesProxy(c, p, w.m) && w.toProxy then ProxyOutcome(w, p)
      else
        var a := AcceptStage(c, p, mgmt, w.i.wan, w.m);
        Settled(a.act, a.reason, w.f.len, Watching(c, w.i))
  }

  function ProxyOutcome(w: World, p: Pkt): Outcome
    requires IsSyn(p)
  {
    if w.proxy.cfg.None? then Outcome(Pass, Some(ConfigMissing), w.f.len, false)
    else
      var d := ProxyStage(w.proxy.cfg.value, p, w.m);
      Outcome(d.act, d.reason, w.f.len, false)
  }

  datatype Tally = Tally(n: nat, bytes: nat)

  function Plus(t: Tally, len: nat): Tally {
    Tally(t.n + 1, t.bytes + len)
  }

  /** The aggregate counters, and the specific reasons as a multiset. */
  datatype Counters = Counters(total: Tally, pass: Tally, drop: Tally, tx: Tally, would: Tally, reasons: multiset<Reason>)

  const ZERO: Counters := Counters(Tally(0, 0), Tally(0, 0), Tally(0, 0), Tally(0, 0), Tally(0, 0), multiset{})

  function Charged(c: Counters, o: Outcome): Counters {
    Counters(Plus(c.total, o.bytes),
             if o.act == Pass then Plus(c.pass, o.bytes) else c.pass,
             if o.act == Drop then Plus(c.drop, o.bytes) else c.drop,
             if o.act == Tx then Plus(c.tx, o.bytes) else c.tx,
             if o.would then Plus(c.would, o.bytes) else c.would,
             if o.reason.Some? then c.reasons + multiset{o.reason.value} else c.reasons)
  }

  /** The per-CPU statistics array. */
  class Dataplane {
    var total: Tally
    var pass: Tally
    var drop: Tally
    var tx: Tally
    var would: Tally
    var reasons: multiset<Reason>

    ghost function Value(): Counters
      reads this
    {
      Counters(total, pass, drop, tx, would, reasons)
    }

    constructor ()
      ensures Value() == ZERO && Balanced(Value())
    {
      total, pass, drop, tx, would := Tally(0, 0), Tally(0, 0), Tally(0, 0), Tally(0, 0), Tally(0, 0);
      reasons := multiset{};
    }

    /** The totals, the specific reason if there is one, and exactly one of the three aggregates. */
    method Charge(act: Act, reason: Option<Reason>, len: nat)
      modifies this
      ensures Value() == Charged(old(Value()), Outcome(act, reason, len, false))
    {
      total := Plus(total, len);
      if reason.Some? {
        reasons := reasons + multiset{reason.value};
      }
      if act == Drop {
        drop := Plus(drop, len);
      } else if act == Tx {
        tx := Plus(tx, len);
      } else {
        pass := Plus(pass, len);
      }
    }

    /** The shared verdict block. */
    method Settle(decision: Act, reason: Reason, len: nat, watching: bool) returns (act: Act)
      modifies this
      ensures Value() == Charged(old(Value()), Settled(decision, reason, len, watching))
      ensures act == Settled(decision, reason, len, watching).act
    {
      act := decision;
      if act == Drop && watching {
        would := Plus(would, len);
        act := Pass;
      }
      Charge(act, Some(reason), len);
    }

    /** A program without configuration or scratch entry fails open. */
    method FailOpen(reason: Reason, len: nat)
      modifies this
      ensures Value() == Charged(old(Value()), Outcome(Pass, Some(reason), len, false))
    {
      Charge(Pass, Some(reason), len);
    }

    method Enter(w: World) returns (act: Act)
      modifies this
      ensures Value() == Charged(old(Value()), MainOutcome(w)) && act == MainOutcome(w).act
    {
      hide Charged, ParseOutcome, MainStage;
      if w.main.cfg.None? || !w.main.scratch {
        FailOpen(if w.main.cfg.None? then ConfigMissing else ScratchFail, w.f.len);
        return Pass;
      }
      var c := w.main.cfg.value;
      var d := MainStage(c, w.f, w.i);
      if d.Continue? && w.toParse {
        act := Parse(w);
        return;
      }
      act := Settle(if d.Decided? then d.act else Pass, if d.Decided? then d.reason else PassDefault,
                    w.f.len, Watching(c, w.i));
    }

    method Parse(w: World) returns (act: Act)
      modifies this
      ensures Value() == Charged(old(Value()), ParseOutcome(w)) && act == ParseOutcome(w).act
    {
      hide Charged, PolicyOutcome;
      if w.parse.cfg.None? || !w.parse.scratch {
        FailOpen(if w.parse.cfg.None? then ConfigMissing else ScratchFail, 0);
        return Pass;
      }
      var watching := Watching(w.parse.cfg.value, w.i);
      match w.parsed
      case Bad(code) => act := Settle(Drop, ParseError(code), w.f.len, watching);
      case Good(p) =>
        if w.toPolicy {
          act := Policy(w, p);
        } else {
          act := Settle(Pass, PassDefault, w.f.len, watching);
        }
    }

    method Policy(w: World, p: Pkt) returns (act: Act)
      modifies this
      ensures Value() == Charged(old(Value()), PolicyOutcome(w, p)) && act == PolicyOutcome(w, p).act
    {
      hide Charged, ActionOutcome, AnomalyStage, HatchStage;
      if w.policy.cfg.None? || !w.policy.scratch {
        FailOpen(if w.policy.cfg.None? then ConfigMissing else ScratchFail, 0);
        return Pass;
      }
      var c := w.policy.cfg.value;
      var d := AnomalyStage(c, p, w.i.wan, w.m);
      if d.Continue? {
        d := HatchStage(c, p, w.m);
      }
      if d.Continue? && w.toAction {
        act := Action(w, p, MgmtPort(c, p));
        return;
      }
      act := Settle(if d.Decided? then d.act else Pass,
                    if d.Decided? then d.reason else if w.i.wan then PassDefault else PassLan,
                    w.f.len, Watching(c, w.i));
    }

    method Action(w: World, p: Pkt, mgmt: bool) returns (act: Act)
      modifies this
      ensures Value() == Charged(old(Value()), ActionOutcome(w, p, mgmt)) && act == ActionOutcome(w, p, mgmt).act
    {
      hide Charged, LimitStage, AcceptStage, ProxyStage;
      if w.action.cfg.None? || !w.action.scratch {
        FailOpen(if w.action.cfg.None? then ConfigMissing else ScratchFail, 0);
        return Pass;
      }
      var c := w.action.cfg.value;
      var d := LimitStage(c, p, mgmt, w.i.wan, w.m);
      if d.Continue? {
        if TriesProxy(c, p, w.m) && w.toProxy {
          act := SynProxy(w, p);
          return;
        }
        d := AcceptStage(c, p, mgmt, w.i.wan, w.m);
      }
      act := Settle(d.act, d.reason, w.f.len, Watching(c, w.i));
    }

    method SynProxy(w: World, p: Pkt) returns (act: Act)
      requires IsSyn(p)
      modifies this
      ensures Value() == Charged(old(Value()), ProxyOutcome(w, p)) && act == ProxyOutcome(w, p).act
    {
      hide ProxyStage;
      if w.proxy.cfg.None? {
        FailOpen(ConfigMissing, w.f.len);
        return Pass;
      }
      var d := ProxyStage(w.proxy.cfg.value, p, w.m);
      Charge(d.act, d.reason, w.f.len);
      return d.act;
    }

    /** Any sequence of packets: the books balance, and each aggregate grows by exactly the packets with its verdict. */
    method Serve(ws: seq<World>) returns (acts: seq<Act>)
      requires Balanced(Value())
      modifies this
      ensures Balanced(Value()) && Grown(old(Value()), Value(), ws)
      ensures |acts| == |ws| && forall i :: 0 <= i < |ws| ==> acts[i] == MainOutcome(ws[i]).act
    {
      hide MainOutcome, Charged, Balanced, Grown;
      acts := [];
      ghost var c0 := Value();
      NothingGrown(c0, ws[..0]);
      for i := 0 to |ws|
        invariant Balanced(Value()) && Grown(c0, Value(), ws[..i])
        invariant |acts| == i && forall j :: 0 <= j < i ==> acts[j] == MainOutcome(ws[j]).act
      {
        ghost var c := Value();
        var act := Enter(ws[i]);
        WouldIsPass(ws[i]);
        ChargeBalances(c, MainOutcome(ws[i]));
        assert ws[..i + 1][..i] == ws[..i];
        GrownSnoc(c0, c, ws[..i + 1]);
        acts := acts + [act];
      }
      assert ws[..|ws|] == ws;
    }
  }

  /** Every packet and every byte of the total is in exactly one of pass, drop and tx. */
  predicate Balanced(c: Counters) {
    && c.total.n == c.pass.n + c.drop.n + c.tx.n
    && c.total.bytes == c.pass.bytes + c.drop.bytes + c.tx.bytes
    && c.would.n <= c.pass.n && c.would.bytes <= c.pass.bytes
  }

  /** A later program that finds no configuration or scratch entry does not know the length and charges none. */
  predicate LateFailure(w: World) {
    && Runs(w.main) && MainStage(w.main.cfg.value, w.f, w.i).Continue? && w.toParse
    && (|| !Runs(w.parse)
        || (&& w.parsed.Good? && w.toPolicy
            && (|| !Runs(w.policy)
                || (PolicyStage(w.policy.cfg.value, w.parsed.p, w.i.wan, w.m).Continue? && w.toAction && !Runs(w.action)))))
  }

  /** What a packet is charged, of everything the chain did with it. */
  lemma ChargesSay(w: World)
    ensures MainOutcome(w).bytes == if LateFailure(w) then 0 else w.f.len
    ensures MainOutcome(w).reason.None? <==> Cookied(w)
    ensures MainOutcome(w).would ==> MainOutcome(w).act == Pass
  {
    hide MainStage, PolicyStage, LimitStage, AcceptStage, Cookied;
    CookiedIff(w);
  }

  function Verdicts(ws: seq<World>, a: Act): nat {
    if |ws| == 0 then 0
    else Verdicts(ws[..|ws| - 1], a) + (if MainOutcome(ws[|ws| - 1]).act == a then 1 else 0)
  }

  /** The bytes of the packets that no late failure hides. */
  function Bytes(ws: seq<World>): nat {
    if |ws| == 0 then 0
    else Bytes(ws[..|ws| - 1]) + (if LateFailure(ws[|ws| - 1]) then 0 else ws[|ws| - 1].f.len)
  }

  function Cookies(ws: seq<World>): nat {
    if |ws| == 0 then 0 else Cookies(ws[..|ws| - 1]) + (if Cookied(ws[|ws| - 1]) then 1 else 0)
  }

  /** Each aggregate grew by its packets, the total by all bytes, and the reasons by one per packet without a cookie. */
  predicate Grown(c0: Counters, c: Counters, ws: seq<World>) {
    && c.total.n == c0.total.n + |ws|
    && c.pass.n == c0.pass.n + Verdicts(ws, Pass)
    && c.drop.n == c0.drop.n + Verdicts(ws, Drop)
    && c.tx.n == c0.tx.n + Verdicts(ws, Tx)
    && c.total.bytes == c0.total.bytes + Bytes(ws)
    && |c.reasons| + Cookies(ws) == |c0.reasons| + |ws|
  }

  lemma WouldIsPass(w: World)
    ensures MainOutcome(w).would ==> MainOutcome(w).act == Pass
  {
    hide MainOutcome, Cookied, LateFailure;
    ChargesSay(w);
  }

  lemma ChargeBalances(c: Counters, o: Outcome)
    requires Balanced(c) && (o.would ==> o.act == Pass)
    ensures Balanced(Charged(c, o))
  {
  }

  lemma NothingGrown(c: Counters, ws: seq<World>)
    requires |ws| == 0
    ensures Grown(c, c, ws)
  {
    hide MainOutcome, LateFailure, Cookied;
  }

  lemma GrownSnoc(c0: Counters, c: Counters, ws: seq<World>)
    requires |ws| > 0 && Grown(c0, c, ws[..|ws| - 1])
    ensures Grown(c0, Charged(c, MainOutcome(ws[|ws| - 1])), ws)
  {
    hide MainOutcome, LateFailure, Cookied;
    ChargesSay(ws[|ws| - 1]);
  }

  /** Reasons that drop before the allowlist: L2, parse and stage 2. */
  predicate Early(r: Reason) {
    || r in {EthTruncated, VlanTruncated, VlanDepth, UnknownL3, Ip6Disabled}
    || r.ParseError?
    || r in {Land, TcpFlags, PortZero, FragIcmp, IcmpOversize, IcmpType, Bogon, SourceSelf}
  }

  /** Reasons a management port can still be dropped for when the bypass is off. */
  predicate Metered(r: Reason) {
    r in {Rate, Portscan, GlobalSyn}
  }

  predicate OnlyEarly(o: Outcome) {
    o.act == Drop ==> o.reason.Some? && Early(o.reason.value)
  }

  predicate EarlyOrMetered(o: Outcome) {
    o.act == Drop ==> o.reason.Some? && (Early(o.reason.value) || Metered(o.reason.value))
  }

  lemma MainDropsEarly(c: Cfg, f: Frame, i: Iface)
    ensures MainStage(c, f, i).Decided? && MainStage(c, f, i).act != Pass ==>
              MainStage(c, f, i).act == Drop && Early(MainStage(c, f, i).reason)
  {
    hide Untagged;
  }

  lemma AnomalyDropsEarly(c: Cfg, p: Pkt, wan: bool, m: Maps)
    ensures var d := AnomalyStage(c, p, wan, m);
            d.Decided? && d.act != Pass ==> d.act == Drop && Early(d.reason)
  {
  }

  /** If the policy program passes everything stage 2 lets through, a drop has an early reason. */
  lemma OnlyEarlyDrops(w: World)
    requires w.parsed.Good? && Runs(w.policy) ==>
               HatchStage(w.policy.cfg.value, w.parsed.p, w.m).Decided?
               && HatchStage(w.policy.cfg.value, w.parsed.p, w.m).act == Pass
    ensures OnlyEarly(MainOutcome(w))
    ensures MainOutcome(w).act != Tx
  {
    hide MainStage, AnomalyStage, HatchStage, ActionOutcome;
    if Runs(w.main) { MainDropsEarly(w.main.cfg.value, w.f, w.i); }
    if w.parsed.Good? && Runs(w.policy) { AnomalyDropsEarly(w.policy.cfg.value, w.parsed.p, w.i.wan, w.m); }
  }

  /** With the allowlist on, an allowlisted source is dropped only for an early reason, whatever the maps and the mode hold. */
  lemma AllowlistIsEscapeHatch(w: World)
    requires w.m.allowed && (w.policy.cfg.Some? ==> w.policy.cfg.value.allowlist)
    ensures OnlyEarly(MainOutcome(w))
    ensures MainOutcome(w).act != Tx
  {
    hide MainOutcome;
    OnlyEarlyDrops(w);
  }

  /** With the bypass on, a management-port packet is dropped only for an early reason. */
  lemma MgmtBypassIsEscapeHatch(w: World)
    requires w.parsed.Good? && (w.policy.cfg.Some? ==>
               w.policy.cfg.value.mgmtBypass && MgmtPort(w.policy.cfg.value, w.parsed.p))
    ensures OnlyEarly(MainOutcome(w))
    ensures MainOutcome(w).act != Tx
  {
    hide MainOutcome;
    OnlyEarlyDrops(w);
  }

  lemma ActionDropsMetered(w: World, p: Pkt)
    requires Ports(p)
    ensures EarlyOrMetered(ActionOutcome(w, p, true))
  {
  }

  lemma HatchSparesMgmt(c: Cfg, p: Pkt, m: Maps)
    requires MgmtPort(c, p)
    ensures HatchStage(c, p, m).Decided? ==> HatchStage(c, p, m).act == Pass
  {
  }

  /** Even without the bypass no ban, block list, port rule or lockdown costs the management port: only rates, scans and the SYN cap do. */
  lemma MgmtKeepsTheDoorOpen(w: World)
    requires w.parsed.Good? && (w.policy.cfg.Some? ==> MgmtPort(w.policy.cfg.value, w.parsed.p))
    ensures EarlyOrMetered(MainOutcome(w))
  {
    hide MainStage, AnomalyStage, HatchStage, ActionOutcome;
    if Runs(w.main) { MainDropsEarly(w.main.cfg.value, w.f, w.i); }
    if Runs(w.policy) {
      AnomalyDropsEarly(w.policy.cfg.value, w.parsed.p, w.i.wan, w.m);
      HatchSparesMgmt(w.policy.cfg.value, w.parsed.p, w.m);
      ActionDropsMetered(w, w.parsed.p);
    }
  }

  predicate Quiet(s: Start) {
    s.cfg.Some? ==> Monitors(s.cfg.value)
  }

  /** No stage but the SYN proxy transmits. */
  lemma StagesNeverTransmit(c: Cfg, p: Pkt, mgmt: bool, wan: bool, m: Maps)
    ensures PolicyStage(c, p, wan, m).Decided? ==> PolicyStage(c, p, wan, m).act != Tx
    ensures LimitStage(c, p, mgmt, wan, m).Decided? ==> LimitStage(c, p, mgmt, wan, m).act != Tx
    ensures AcceptStage(c, p, mgmt, wan, m).act != Tx
  {
  }

  /** Under global monitor mode, as every program reads it, no packet is dropped or transmitted. */
  lemma MonitorOnlyPasses(w: World)
    requires Quiet(w.main) && Quiet(w.parse) && Quiet(w.policy) && Quiet(w.action) && Quiet(w.proxy)
    ensures MainOutcome(w).act == Pass
  {
    hide MainStage, PolicyStage, LimitStage, AcceptStage;
    if Runs(w.main) { MainDropsEarly(w.main.cfg.value, w.f, w.i); }
    if w.parsed.Good? {
      if Runs(w.policy) { StagesNeverTransmit(w.policy.cfg.value, w.parsed.p, true, w.i.wan, w.m); }
      if Runs(w.action) {
        var mgmt := Runs(w.policy) && MgmtPort(w.policy.cfg.value, w.parsed.p);
        StagesNeverTransmit(w.action.cfg.value, w.parsed.p, mgmt, w.i.wan, w.m);
      }
    }
  }

  /** The packet travels the whole chain into the SYN proxy. */
  predicate ReachesProxy(w: World) {
    && Runs(w.main) && MainStage(w.main.cfg.value, w.f, w.i).Continue? && w.toParse
    && Runs(w.parse) && w.parsed.Good? && w.toPolicy
    && Runs(w.policy) && PolicyStage(w.policy.cfg.value, w.parsed.p, w.i.wan, w.m).Continue? && w.toAction
    && Runs(w.action)
    && LimitStage(w.action.cfg.value, w.parsed.p, MgmtPort(w.policy.cfg.value, w.parsed.p), w.i.wan, w.m).Continue?
    && TriesProxy(w.action.cfg.value, w.parsed.p, w.m) && w.toProxy
  }

  // ------------------------------------------------------------------------
  // When a packet is transmitted, as guards on configuration, packet and maps
  // ------------------------------------------------------------------------

  /** L2 hands the frame on: an IPv4 or IPv6 ethertype behind at most the inspected tags. */
  predicate L2Open(c: Cfg, f: Frame, i: Iface) {
    && c.enabled && !i.disabled && !f.short && f.types != []
    && var k := Untagged(f.types, 0, Min(if c.vlan then c.vlanMax else 0, VLAN_DEPTH));
       k < |f.types| && ((f.types[k] == ETH_IP && c.ipv4) || (f.types[k] == ETH_IP6 && c.ipv6 && !i.noIpv6))
  }

  /** The policy program lets a SYN on: no anomaly, no escape hatch, no reputation, no known flow, no lockdown. */
  predicate PolicyOpen(c: Cfg, p: Pkt, wan: bool, m: Maps) {
    && !(c.land && p.sameAddr)
    && (p.truncated || (!(c.tcpChecks && p.badFlags) && !(c.anomaly && (p.sport == 0 || p.dport == 0))))
    && !(c.bogon && wan && (m.badSource || m.ownPrefix))
    && !(c.allowlist && m.allowed)
    && !(c.conntrack && !p.truncated && m.ctPass)
    && (if MgmtPort(c, p) then !c.mgmtBypass
        else !(c.blocklist && m.blocked) && m.ban != Hard && !(m.ban == Soft && m.banStill) && c.mode != LOCKDOWN)
  }

  /** Port rule, buckets and scan filter let a SYN on. */
  predicate LimitOpen(c: Cfg, p: Pkt, mgmt: bool, m: Maps) {
    && (c.portPolicy && !p.truncated && !mgmt ==>
          if m.rule.Absent? then !c.defaultDeny
          else !m.rule.mgmt && !m.rule.closed && (m.rule.limited ==> m.portGrants))
    && !(c.rateLimit && m.rateHit)
    && !(c.portscan && !p.truncated && m.scanHit)
  }

  lemma L2OpenIff(c: Cfg, f: Frame, i: Iface)
    ensures MainStage(c, f, i).Continue? <==> L2Open(c, f, i)
  {
    hide Untagged;
  }

  lemma SynOpenIff(c: Cfg, p: Pkt, mgmt: bool, wan: bool, m: Maps)
    requires IsSyn(p)
    ensures PolicyStage(c, p, wan, m).Continue? <==> PolicyOpen(c, p, wan, m)
    ensures LimitStage(c, p, mgmt, wan, m).Continue? <==> LimitOpen(c, p, mgmt, m)
  {
  }

  /** Every guard on the way of a SYN from the wire to the request for a cookie. */
  predicate Cookied(w: World) {
    && Runs(w.main) && Runs(w.parse) && Runs(w.policy) && Runs(w.action) && w.proxy.cfg.Some?
    && w.toParse && w.toPolicy && w.toAction && w.toProxy && w.parsed.Good?
    && var p := w.parsed.p;
       && IsSyn(p) && L2Open(w.main.cfg.value, w.f, w.i)
       && PolicyOpen(w.policy.cfg.value, p, w.i.wan, w.m)
       && LimitOpen(w.action.cfg.value, p, MgmtPort(w.policy.cfg.value, p), w.m)
       && w.action.cfg.value.synproxy && w.action.cfg.value.capSynproxy && w.action.cfg.value.mode == UNDER_ATTACK
       && w.m.proxied && Exposed(w.proxy.cfg.value, p, w.m) && w.m.bare
  }

  lemma CookiedIff(w: World)
    ensures Cookied(w) <==> ReachesProxy(w) && w.proxy.cfg.Some? && Exposed(w.proxy.cfg.value, w.parsed.p, w.m) && w.m.bare
  {
    hide MainStage, PolicyStage, LimitStage, L2Open, PolicyOpen, LimitOpen, MgmtPort, Exposed;
    if Runs(w.main) { L2OpenIff(w.main.cfg.value, w.f, w.i); }
    if w.parsed.Good? && Runs(w.policy) && IsSyn(w.parsed.p) {
      var p, c, mgmt := w.parsed.p, w.policy.cfg.value, MgmtPort(w.policy.cfg.value, w.parsed.p);
      SynOpenIff(c, p, mgmt, w.i.wan, w.m);
      if Runs(w.action) { SynOpenIff(w.action.cfg.value, p, mgmt, w.i.wan, w.m); }
    }
  }

  /** A packet is transmitted exactly under these guards and with a cookie; the interface's monitor flag is not among them. */
  lemma TransmitsIff(w: World)
    ensures MainOutcome(w).act == Tx <==> Cookied(w) && w.m.cookie
  {
    hide MainStage, PolicyStage, LimitStage, AcceptStage, Cookied;
    CookiedIff(w);
    if Runs(w.main) { MainDropsEarly(w.main.cfg.value, w.f, w.i); }
    if w.parsed.Good? && Runs(w.policy) {
      var mgmt := MgmtPort(w.policy.cfg.value, w.parsed.p);
      StagesNeverTransmit(w.policy.cfg.value, w.parsed.p, mgmt, w.i.wan, w.m);
      if Runs(w.action) { StagesNeverTransmit(w.action.cfg.value, w.parsed.p, mgmt, w.i.wan, w.m); }
    }
  }

  /**
   * A monitored interface: nothing is dropped, and nothing is transmitted unless
   * the SYN proxy is on and able, the mode is UNDER_ATTACK, the port is proxied
   * and the packet is a plain SYN.
   */
  lemma MonitoredInterface(w: World)
    requires w.i.monitor
    ensures MainOutcome(w).act != Drop
    ensures MainOutcome(w).act == Tx ==>
              && w.action.cfg.Some? && w.parsed.Good? && w.m.proxied
              && w.action.cfg.value.synproxy && w.action.cfg.value.capSynproxy && w.action.cfg.value.mode == UNDER_ATTACK
              && IsSyn(w.parsed.p) && !w.parsed.p.rst && !w.parsed.p.fin
  {
    TransmitsIff(w);
    hide MainStage, PolicyStage, LimitStage, AcceptStage, L2Open, PolicyOpen, LimitOpen;
  }

  /** A packet on a monitored interface that the proxy answers. */
  lemma InterfaceMonitorStillTransmits() returns (w: World)
    ensures w.i.monitor && MainOutcome(w).act == Tx
  {
    var c := Cfg(true, false, UNDER_ATTACK, false, 0, true, true, false,
                 false, false, false, false, false, 0, 0,
                 false, false, false, {}, {}, false,
                 false, false, false, false, false, false,
                 false, false, true, true, false);
    var p := Pkt(TCP, true, false, false, false, 1, 80, true, false, false, false, false, 0, 0);
    var m := Maps(false, false, 0, false, false, NoBan, false, false, false, Absent, true, false, false, true,
                  true, false, false, true, true);
    var s := Start(Some(c), true);
    w := World(Frame(60, false, [ETH_IP]), Iface(false, true, true, false), Good(p), m, s, s, s, s, s, true, true, true, true);
    assert Untagged(w.f.types, 0, 0) == 0;
    assert Cookied(w);
    TransmitsIff(w);
  }

  /**
   * The comment says that mandatory ICMP can never be dropped.  Past the parse
   * it is dropped exactly for equal addresses, as a fragment or as oversized.
   */
  lemma MandatoryIcmpDropsIff(c: Cfg, p: Pkt, wan: bool, m: Maps)
    requires IsIcmp(p) && Mandatory(p)
    ensures PolicyStage(c, p, wan, m).Decided?
    ensures PolicyStage(c, p, wan, m).act == Drop <==>
              || (c.land && p.sameAddr)
              || (c.fragChecks && p.frag)
              || (var most := if p.v4 then c.icmpMax else c.icmp6Max; most != 0 && p.payload > most)
  {
    hide HatchStage;
  }

  /** The conntrack key of a parsed packet. */
  function FlowKey(p: Pkt, saddr: nat, daddr: nat): Conntrack.Key
    requires p.proto < 0x100
  {
    Conntrack.Key(saddr, daddr, p.sport, p.dport, p.proto, if p.v4 then 4 else 6)
  }

  /**
   * After any run of the conntrack protocol: a UDP packet whose flow was opened
   * by an outbound packet that nothing removed since, and that is not idle past
   * its timeout, is not lost to an automatic ban, the mode, the port policy or
   * the buckets: short of an operator ban or block it is dropped only for an
   * early reason.
   */
  lemma OwnReplySurvivesSoftBan(w: World, t: Conntrack.Timeouts, es: seq<Conntrack.Step>, k: Conntrack.Key, now: u64)
    requires w.parsed.Good? && w.parsed.p.proto == UDP && !w.parsed.p.truncated
    requires k == FlowKey(w.parsed.p, k.saddr, k.daddr) && Conntrack.Survives(es, k)
    requires k in Conntrack.XdpRun(t, es) ==> !Conntrack.Stale(t, k, Conntrack.XdpRun(t, es)[k], now)
    requires w.m.ctPass == Conntrack.FastPath(t, Conntrack.XdpRun(t, es), k, Conntrack.Bits(false, false, false, false), now)
    requires w.policy.cfg.Some? ==> w.policy.cfg.value.conntrack && !(w.policy.cfg.value.blocklist && w.m.blocked)
    requires w.m.ban != Hard
    ensures OnlyEarly(MainOutcome(w))
  {
    hide MainOutcome, Conntrack.Survives, Conntrack.XdpRun, Conntrack.Stale, Conntrack.FastPath;
    Conntrack.XdpUdpIsSolicited(t, es, k);
    Conntrack.UdpFastPathIff(t, es, k, Conntrack.Bits(false, false, false, false), now);
    OnlyEarlyDrops(w);
  }
}
