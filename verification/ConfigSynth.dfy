/**
 * Configuration synthesis (src/user/autotune.c): the candidate configuration
 * for a mode and a set of attack classes, the gate in front of the map write,
 * and the push.  Flag words are sets of bit numbers, class masks sets of class
 * numbers, so that OR is union and AND is intersection.
 */
module ConfigSynth {
  import opened Words
  import opened Baselines
  import opened ModeMachine

  const NSEC_PER_SEC: nat := 1_000_000_000
  const BUCKETS: nat := 6
  const TB_PPS: nat := 0
  const TB_BPS: nat := 1
  const TB_SYN: nat := 2
  const TB_UDP: nat := 3
  const TB_ICMP: nat := 4
  const TB_NEWCONN: nat := 5

  const C_SYN: nat := 0
  const C_ACK: nat := 1
  const C_UDP: nat := 2
  const C_AMP: nat := 3
  const C_ICMP: nat := 4
  const C_FRAG: nat := 5
  const C_CONN_EXH: nat := 6
  const C_SLOWLORIS: nat := 7
  const C_PORTSCAN: nat := 8
  const C_VOLUMETRIC: nat := 9

  const F_ENABLED: nat := 0
  const F_DROP_ALL_FRAGS: nat := 12
  const F_ALLOWLIST: nat := 17
  const F_ANTI_AMPLIFY: nat := 21
  const F_DEFAULT_DENY: nat := 23
  const F_CONNTRACK: nat := 24
  const F_PORTSCAN_DETECT: nat := 25
  const F_SYNPROXY: nat := 26
  const F_MGMT_BYPASS_ALL: nat := 29
  const F_LOCKDOWN_ICMP: nat := 30
  const F_CAP_SYNPROXY: nat := 32

  const MGMT_SLOTS: nat := 16
  const SSH: u16 := 22
  const ABI_VERSION: u64 := 0x1_0001

  type Buckets = b: seq<u64> | |b| == BUCKETS witness seq(BUCKETS, i => 0)
  type Ports = p: seq<u16> | |p| == MGMT_SLOTS witness seq(MGMT_SLOTS, i => 0)

  const FLOORS: Buckets := [2000, 2000000, 100, 1000, 20, 50]

  /** Sizing is fixed at load time; `rest` stands for the fields nothing here reads. */
  datatype Config = Config(
    abi: u64, gen: u64, flags: set<nat>, rate: Buckets, burst: Buckets, synFallback: u64,
    banBase: u64, banMax: u64, strikeLimit: u32, scanThreshold: u32, ctSyn: u64, ctEst: u64,
    logSample: u32, mode: nat, tcpCount: u32, udpCount: u32, tcpPorts: Ports, udpPorts: Ports,
    sizing: seq<u32>, rest: seq<u64>)

  /** What the tunables allow the controller to switch on. */
  datatype Gates = Gates(synproxy: bool, amp: bool, portscan: bool, dropFrags: bool)

  datatype Press = Press(cls: nat, kind: nat, pct: nat)

  const PRESSES: seq<Press> := [
    Press(C_SYN, TB_SYN, 50), Press(C_ACK, TB_PPS, 50), Press(C_UDP, TB_UDP, 50),
    Press(C_UDP, TB_BPS, 50), Press(C_AMP, TB_UDP, 70), Press(C_ICMP, TB_ICMP, 25),
    Press(C_FRAG, TB_PPS, 75), Press(C_CONN_EXH, TB_NEWCONN, 40), Press(C_SLOWLORIS, TB_NEWCONN, 60),
    Press(C_VOLUMETRIC, TB_PPS, 60), Press(C_VOLUMETRIC, TB_BPS, 60)]

  /** The share of the operator's limit that each mode leaves. */
  function ModePct(mode: Mode): (p: nat)
    ensures 10 <= p <= 100
  {
    match mode
    case 1 => 50
    case 2 => 25
    case 3 => 10
    case _ => 100
  }

  function ScaleDown(v: u64, pct: nat, floor: u64): u64 {
    if v == 0 then 0
    else if pct >= 100 then v
    else Max(Min(Max(MulDiv(v, pct, 100), floor), v), 1)
  }

  function ScaleUp(v: u64, pct: nat, cap: u64): u64
    requires pct < U64
  {
    if v == 0 then 0
    else if pct <= 100 then v
    else
      var r := MulDiv(v, pct, 100);
      Max(if cap != 0 then Min(r, cap) else r, v)
  }

  lemma ScaleDownBounds(v: u64, pct: nat, floor: u64)
    ensures Min(v, floor) <= ScaleDown(v, pct, floor) <= v
    ensures ScaleDown(v, pct, floor) == 0 <==> v == 0
  {
    hide MulDiv;
  }

  lemma ScaleUpBounds(v: u64, pct: nat, cap: u64)
    requires pct < U64
    ensures v <= ScaleUp(v, pct, cap)
    ensures cap != 0 ==> ScaleUp(v, pct, cap) <= Max(v, cap)
  {
    hide MulDiv;
  }

  lemma PercentMono(v: u64, a: nat, b: nat)
    requires a <= b < 100
    ensures MulDiv(v, a, 100) <= MulDiv(v, b, 100) <= v
  {
    hide Share;
    QuotientBound(v, b, 100);
    ShareMono(v, a, b, 100);
  }

  lemma ShareMono(v: nat, a: nat, b: nat, d: nat)
    requires a <= b && d > 0
    ensures Share(v, a, d) <= Share(v, b, d)
  {
    MulMono(a, b, v);
    DivMono(v * a, v * b, d);
  }

  lemma ScaleDownMono(v: u64, a: nat, b: nat, floor: u64)
    requires a <= b
    ensures ScaleDown(v, a, floor) <= ScaleDown(v, b, floor)
  {
    hide MulDiv;
    if b < 100 { PercentMono(v, a, b); }
  }

  /** The strongest single press among the first n rows; presses do not compound. */
  function KindPct(modePct: nat, classes: set<nat>, kind: nat, n: nat): nat
    requires n <= |PRESSES|
  {
    if n == 0 then modePct
    else
      var p := PRESSES[n - 1];
      var rest := KindPct(modePct, classes, kind, n - 1);
      if p.kind == kind && p.cls in classes then Min(rest, modePct * p.pct / 100) else rest
  }

  predicate Applies(i: nat, classes: set<nat>, kind: nat)
    requires i < |PRESSES|
  {
    PRESSES[i].kind == kind && PRESSES[i].cls in classes
  }

  lemma {:induction false} KindPctIsStrongest(modePct: nat, classes: set<nat>, kind: nat, n: nat)
    requires n <= |PRESSES|
    ensures var k := KindPct(modePct, classes, kind, n);
            && k <= modePct
            && (forall i :: 0 <= i < n && Applies(i, classes, kind) ==> k <= modePct * PRESSES[i].pct / 100)
            && (k == modePct || exists i :: 0 <= i < n && Applies(i, classes, kind) && k == modePct * PRESSES[i].pct / 100)
  {
    if n > 0 { KindPctIsStrongest(modePct, classes, kind, n - 1); }
  }

  /** A lower mode share or more classes never raise the percentage. */
  lemma {:induction false} KindPctMono(a: nat, b: nat, more: set<nat>, fewer: set<nat>, kind: nat, n: nat)
    requires n <= |PRESSES| && a <= b && fewer <= more
    ensures KindPct(a, more, kind, n) <= KindPct(b, fewer, kind, n)
  {
    if n > 0 {
      KindPctMono(a, b, more, fewer, kind, n - 1);
      var pct := PRESSES[n - 1].pct;
      assert a * pct / 100 <= b * pct / 100 by {
        MulMono(a, b, pct);
        DivMono(a * pct, b * pct, 100);
      }
    }
  }

  lemma {:induction false} NoClassNoPress(modePct: nat, kind: nat, n: nat)
    requires n <= |PRESSES|
    ensures KindPct(modePct, {}, kind, n) == modePct
  {
    if n > 0 { NoClassNoPress(modePct, kind, n - 1); }
  }

  method PressKind(modePct: nat, classes: set<nat>, kind: nat) returns (pct: nat)
    ensures pct == KindPct(modePct, classes, kind, |PRESSES|)
  {
    pct := modePct;
    for i := 0 to |PRESSES|
      invariant pct == KindPct(modePct, classes, kind, i)
    {
      if PRESSES[i].kind == kind && PRESSES[i].cls in classes {
        var c := modePct * PRESSES[i].pct / 100;
        if c < pct { pct := c; }
      }
    }
  }

  predicate ListsSsh(c: Config) {
    1 <= c.tcpCount <= MGMT_SLOTS && SSH in c.tcpPorts[..c.tcpCount]
  }

  /** The management lists as the repair leaves them. */
  function Repaired(c: Config): Config {
    var n := Min(c.tcpCount, MGMT_SLOTS);
    var d := c.(udpCount := Min(c.udpCount, MGMT_SLOTS));
    if SSH in c.tcpPorts[..n] then d.(tcpCount := n)
    else if n < MGMT_SLOTS then d.(tcpCount := n + 1, tcpPorts := c.tcpPorts[n := SSH])
    else d.(tcpPorts := c.tcpPorts[MGMT_SLOTS - 1 := SSH], tcpCount := MGMT_SLOTS)
  }

  /** TCP/22 is always listed, and only a full list loses a port to it: its last. */
  lemma RepairListsSsh(c: Config)
    ensures ListsSsh(Repaired(c)) && Repaired(c).udpCount <= MGMT_SLOTS
    ensures ListsSsh(c) && c.udpCount <= MGMT_SLOTS ==> Repaired(c) == c
    ensures var n := Min(c.tcpCount, MGMT_SLOTS);
            forall i :: 0 <= i < n && !(i == MGMT_SLOTS - 1 && SSH !in c.tcpPorts[..n]) ==>
              i < Repaired(c).tcpCount && Repaired(c).tcpPorts[i] == c.tcpPorts[i]
  {
    var n := Min(c.tcpCount, MGMT_SLOTS);
    var r := Repaired(c);
    if SSH !in c.tcpPorts[..n] {
      var at := Min(n, MGMT_SLOTS - 1);
      assert r.tcpPorts[..r.tcpCount][at] == SSH;
    } else {
      var i :| 0 <= i < n && c.tcpPorts[..n][i] == SSH;
      assert n >= 1;
    }
  }

  method EnforceMgmt(c: Config) returns (r: Config, repaired: bool)
    ensures r == Repaired(c)
    ensures repaired <==> r != c
  {
    r, repaired := c, false;
    var n: nat := c.tcpCount;
    if n > MGMT_SLOTS {
      n, repaired := MGMT_SLOTS, true;
    }
    var i := 0;
    while i < n && c.tcpPorts[i] != SSH
      invariant 0 <= i <= n
      invariant SSH !in c.tcpPorts[..i]
    {
      i := i + 1;
    }
    if i == n {
      if n < MGMT_SLOTS {
        r := r.(tcpPorts := r.tcpPorts[n := SSH]);
        n := n + 1;
      } else {
        r := r.(tcpPorts := r.tcpPorts[MGMT_SLOTS - 1 := SSH]);
      }
      assert r.tcpPorts[n - 1] != c.tcpPorts[n - 1] || n != c.tcpCount;
      repaired := true;
    } else {
      assert c.tcpPorts[..n][i] == SSH;
    }
    r := r.(tcpCount := n);
    if r.udpCount > MGMT_SLOTS {
      r, repaired := r.(udpCount := MGMT_SLOTS), true;
    }
  }

  /** The bits this module may switch on, and when. */
  function Granted(g: Gates, live: Config, mode: Mode, classes: set<nat>): set<nat> {
    (if Fighting(mode) && C_SYN in classes && g.synproxy && F_CAP_SYNPROXY in live.flags then {F_SYNPROXY} else {})
    + (if Fighting(mode) && C_AMP in classes && g.amp then {F_ANTI_AMPLIFY} else {})
    + (if Fighting(mode) && C_PORTSCAN in classes && g.portscan then {F_PORTSCAN_DETECT} else {})
    + (if mode == LOCKDOWN then {F_ALLOWLIST, F_MGMT_BYPASS_ALL, F_LOCKDOWN_ICMP, F_CONNTRACK, F_DEFAULT_DENY} else {})
    + (if mode == LOCKDOWN && C_FRAG in classes && g.dropFrags then {F_DROP_ALL_FRAGS} else {})
  }

  function OperatorBits(f: set<nat>): set<nat> {
    set b | b in f && b < 32
  }

  function CapabilityBits(f: set<nat>): set<nat> {
    set b | b in f && 32 <= b < 48
  }

  function Limits(base: Buckets, mode: Mode, classes: set<nat>): Buckets {
    seq(BUCKETS, k requires 0 <= k < BUCKETS =>
      ScaleDown(base[k], KindPct(ModePct(mode), classes, k, |PRESSES|), FLOORS[k]))
  }

  function BanPct(mode: Mode): nat {
    if mode == UNDER_ATTACK then 200 else if mode == LOCKDOWN then 400 else 100
  }

  function LogPct(mode: Mode): nat {
    if mode == ELEVATED then 200 else if mode == UNDER_ATTACK then 400 else if mode == LOCKDOWN then 800 else 100
  }

  function Strikes(base: u32, mode: Mode): u32 {
    if base <= 2 then base
    else if mode == UNDER_ATTACK then Max(base / 2, 2)
    else if mode == LOCKDOWN then Max(base / 4, 2)
    else base
  }

  /** A 32-bit result cut from a 64-bit scaling. */
  function Cut32(v: u64): u32 {
    v % U32
  }

  /** Every field as the mode and the classes ask for it, before the management lists are repaired. */
  function Shaped(base: Config, g: Gates, live: Config, mode: Mode, classes: set<nat>): Config {
    var pct := ModePct(mode);
    var scans := Fighting(mode) && C_PORTSCAN in classes;
    var hoards := Fighting(mode) && (C_CONN_EXH in classes || C_SLOWLORIS in classes);
    base.(
      mode := mode,
      abi := if live.abi != 0 then live.abi else ABI_VERSION,
      gen := live.gen,
      flags := OperatorBits(base.flags) + CapabilityBits(live.flags) + Granted(g, live, mode, classes),
      rate := Limits(base.rate, mode, classes),
      burst := Limits(base.burst, mode, classes),
      synFallback := ScaleDown(base.synFallback, KindPct(pct, classes, TB_SYN, |PRESSES|), 5000),
      banBase := ScaleUp(base.banBase, BanPct(mode), base.banMax),
      strikeLimit := Strikes(base.strikeLimit, mode),
      scanThreshold := if scans then Cut32(ScaleDown(base.scanThreshold, pct, 8)) else base.scanThreshold,
      ctSyn := if hoards then ScaleDown(base.ctSyn, pct, 2 * NSEC_PER_SEC) else base.ctSyn,
      ctEst := if hoards then ScaleDown(base.ctEst, pct, 60 * NSEC_PER_SEC) else base.ctEst,
      logSample := Cut32(ScaleUp(base.logSample, LogPct(mode), 1_000_000)))
  }

  function Candidate(base: Config, g: Gates, live: Config, wanted: nat, classes: set<nat>): Config {
    Repaired(Shaped(base, g, live, if wanted > MONITOR_ONLY then NORMAL else wanted, classes))
  }

  method ScaleBuckets(base: Buckets, mode: Mode, classes: set<nat>) returns (out: Buckets)
    ensures out == Limits(base, mode, classes)
  {
    hide KindPct, ScaleDown, ModePct;
    var modePct := ModePct(mode);
    var scaled: seq<u64> := [];
    for k := 0 to BUCKETS
      invariant |scaled| == k
      invariant forall j :: 0 <= j < k ==> scaled[j] == Limits(base, mode, classes)[j]
    {
      var pct := PressKind(modePct, classes, k);
      scaled := scaled + [ScaleDown(base[k], pct, FLOORS[k])];
    }
    out := scaled;
  }

  /** The policy bits: operator and capability bits kept, authorised ones added. */
  method PolicyFlags(base: Config, g: Gates, live: Config, mode: Mode, classes: set<nat>) returns (f: set<nat>)
    ensures f == OperatorBits(base.flags) + CapabilityBits(live.flags) + Granted(g, live, mode, classes)
  {
    f := OperatorBits(base.flags) + CapabilityBits(live.flags);
    if Fighting(mode) {
      if C_SYN in classes && g.synproxy && F_CAP_SYNPROXY in live.flags { f := f + {F_SYNPROXY}; }
      if C_AMP in classes && g.amp { f := f + {F_ANTI_AMPLIFY}; }
      if C_PORTSCAN in classes && g.portscan { f := f + {F_PORTSCAN_DETECT}; }
    }
    if mode == LOCKDOWN {
      f := f + {F_ALLOWLIST} + {F_MGMT_BYPASS_ALL} + {F_LOCKDOWN_ICMP} + {F_CONNTRACK} + {F_DEFAULT_DENY};
      if C_FRAG in classes && g.dropFrags { f := f + {F_DROP_ALL_FRAGS}; }
    }
  }

  method BuildConfig(base: Config, g: Gates, live: Config, wanted: nat, classes: set<nat>) returns (out: Config)
    ensures out == Candidate(base, g, live, wanted, classes)
  {
    hide KindPct, ScaleDown, ScaleUp, ModePct, Limits, Granted, OperatorBits, CapabilityBits, Repaired, Cut32;
    out := base;
    var mode: Mode := if wanted > MONITOR_ONLY then NORMAL else wanted;
    var modePct := ModePct(mode);
    out := out.(mode := mode);
    out := out.(abi := if live.abi != 0 then live.abi else ABI_VERSION);
    var rate := ScaleBuckets(base.rate, mode, classes);
    var burst := ScaleBuckets(base.burst, mode, classes);
    out := out.(rate := rate, burst := burst);
    var synPct := PressKind(modePct, classes, TB_SYN);
    out := out.(synFallback := ScaleDown(base.synFallback, synPct, 5000));
    out := out.(banBase := ScaleUp(base.banBase, BanPct(mode), base.banMax));
    out := out.(strikeLimit := Strikes(base.strikeLimit, mode));
    if Fighting(mode) && C_PORTSCAN in classes {
      out := out.(scanThreshold := Cut32(ScaleDown(base.scanThreshold, modePct, 8)));
    }
    if Fighting(mode) && (C_CONN_EXH in classes || C_SLOWLORIS in classes) {
      out := out.(ctSyn := ScaleDown(base.ctSyn, modePct, 2 * NSEC_PER_SEC),
                  ctEst := ScaleDown(base.ctEst, modePct, 60 * NSEC_PER_SEC));
    }
    out := out.(logSample := Cut32(ScaleUp(base.logSample, LogPct(mode), 1_000_000)));
    var f := PolicyFlags(base, g, live, mode, classes);
    out := out.(flags := f, gen := live.gen);
    var repaired;
    out, repaired := EnforceMgmt(out);
  }

  predicate RightAbi(abi: u64) {
    abi / U16 == ABI_MAJOR
  }

  /** The gate before a map write, as conditions. */
  predicate Sane(base: Config, c: Config) {
    && RightAbi(c.abi)
    && c.mode <= MONITOR_ONLY
    && ListsSsh(c)
    && (F_ENABLED in c.flags <==> F_ENABLED in base.flags)
    && (F_ALLOWLIST in base.flags ==> F_ALLOWLIST in c.flags)
    && (c.mode == LOCKDOWN ==> F_ALLOWLIST in c.flags || F_MGMT_BYPASS_ALL in c.flags)
    && c.sizing == base.sizing
  }

  method ConfigSane(base: Config, c: Config) returns (ok: bool)
    ensures ok <==> Sane(base, c)
  {
    if c.abi / U16 != ABI_MAJOR || c.mode > MONITOR_ONLY { return false; }
    if c.tcpCount == 0 || c.tcpCount > MGMT_SLOTS { return false; }
    var found := false;
    for i := 0 to c.tcpCount
      invariant found <==> SSH in c.tcpPorts[..i]
    {
      assert c.tcpPorts[..i + 1] == c.tcpPorts[..i] + [c.tcpPorts[i]];
      if c.tcpPorts[i] == SSH { found := true; }
    }
    if !found { return false; }
    if (F_ENABLED in c.flags) != (F_ENABLED in base.flags) { return false; }
    if F_ALLOWLIST in base.flags && F_ALLOWLIST !in c.flags { return false; }
    if c.mode == LOCKDOWN && F_ALLOWLIST !in c.flags && F_MGMT_BYPASS_ALL !in c.flags { return false; }
    return c.sizing == base.sizing;
  }

  /** Every bucket stays between the smaller of base and floor, and base; none is switched on or off. */
  lemma LimitsWithinBase(base: Buckets, mode: Mode, classes: set<nat>, k: nat)
    requires k < BUCKETS
    ensures Min(base[k], FLOORS[k]) <= Limits(base, mode, classes)[k] <= base[k]
    ensures Limits(base, mode, classes)[k] == 0 <==> base[k] == 0
  {
    hide KindPct, ScaleDown, ModePct;
    ScaleDownBounds(base[k], KindPct(ModePct(mode), classes, k, |PRESSES|), FLOORS[k]);
  }

  /** A higher rung or a larger class set never loosens a bucket. */
  lemma LimitsNeverLoosen(base: Buckets, a: Mode, b: Mode, fewer: set<nat>, more: set<nat>, k: nat)
    requires k < BUCKETS && a <= b <= LOCKDOWN && fewer <= more
    ensures Limits(base, b, more)[k] <= Limits(base, a, fewer)[k]
  {
    hide KindPct, ScaleDown;
    KindPctMono(ModePct(b), ModePct(a), more, fewer, k, |PRESSES|);
    ScaleDownMono(base[k], KindPct(ModePct(b), more, k, |PRESSES|), KindPct(ModePct(a), fewer, k, |PRESSES|), FLOORS[k]);
  }

  lemma NoClassRestoresLimits(base: Buckets, mode: Mode)
    requires ModePct(mode) == 100
    ensures Limits(base, mode, {}) == base
  {
    hide KindPct;
    forall k | 0 <= k < BUCKETS
      ensures Limits(base, mode, {})[k] == base[k]
    {
      NoClassNoPress(100, k, |PRESSES|);
    }
  }

  /** Some asserted class presses this bucket. */
  predicate Pressed(classes: set<nat>, kind: nat) {
    exists i :: 0 <= i < |PRESSES| && Applies(i, classes, kind)
  }

  /** A cut percentage keeps a value exactly when its floor already covers it. */
  lemma CutKeepsIff(v: u64, pct: nat, floor: u64)
    requires pct < 100 && floor > 0
    ensures ScaleDown(v, pct, floor) == v <==> v <= floor
  {
    hide MulDiv;
    if v > floor {
      PercentMono(v, pct, 99);
      CutIsLess(v);
    }
  }

  lemma CutIsLess(v: u64)
    requires v > 0
    ensures MulDiv(v, 99, 100) < v
  {
    assert v * 99 / 100 < v;
  }

  /** In full: the share of the mode is whole, and a press is a cut. */
  lemma WholeShareIff(classes: set<nat>, kind: nat)
    ensures KindPct(100, classes, kind, |PRESSES|) <= 100
    ensures KindPct(100, classes, kind, |PRESSES|) == 100 <==> !Pressed(classes, kind)
  {
    KindPctIsStrongest(100, classes, kind, |PRESSES|);
    hide KindPct;
    assert forall i :: 0 <= i < |PRESSES| ==> 100 * PRESSES[i].pct / 100 < 100;
  }

  /**
   * In NORMAL, for every class set and bucket: the limit is the operator's own
   * exactly when no asserted class presses that bucket or its floor covers it.
   */
  lemma NormalLimitIff(base: Buckets, classes: set<nat>, k: nat)
    requires k < BUCKETS
    ensures Limits(base, NORMAL, classes)[k] == base[k] <==> (Pressed(classes, k) ==> base[k] <= FLOORS[k])
  {
    hide KindPct, ScaleDown, Pressed;
    WholeShareIff(classes, k);
    var pct := KindPct(100, classes, k, |PRESSES|);
    if pct < 100 {
      CutKeepsIff(base[k], pct, FLOORS[k]);
    } else {
      Unscaled(base[k], 0, FLOORS[k]);
    }
  }

  /** So a class can press a bucket even in NORMAL: the SYN class lowers every SYN limit above the floor. */
  lemma ClassPressesInNormal(base: Buckets)
    requires base[TB_SYN] > FLOORS[TB_SYN]
    ensures Limits(base, NORMAL, {C_SYN})[TB_SYN] < base[TB_SYN]
  {
    hide Limits;
    assert Applies(0, {C_SYN}, TB_SYN);
    NormalLimitIff(base, {C_SYN}, TB_SYN);
    LimitsWithinBase(base, NORMAL, {C_SYN}, TB_SYN);
  }

  /** The flag word, bit by bit: no operator bit is cleared, capabilities are the live ones. */
  lemma FlagsExact(base: Config, g: Gates, live: Config, wanted: nat, classes: set<nat>)
    ensures var c := Candidate(base, g, live, wanted, classes);
            && OperatorBits(base.flags) <= c.flags
            && CapabilityBits(c.flags) == CapabilityBits(live.flags)
            && (forall b :: b in c.flags ==> b < 48)
            && (forall b :: b in c.flags && b !in OperatorBits(base.flags) && b < 32 ==> b in Granted(g, live, c.mode, classes))
            && (F_ENABLED in c.flags <==> F_ENABLED in base.flags)
  {
    hide Limits, ScaleDown, ScaleUp, KindPct, ModePct, Strikes, Cut32, ListsSsh;
    var c := Candidate(base, g, live, wanted, classes);
    var mode: Mode := if wanted > MONITOR_ONLY then NORMAL else wanted;
    GrantsAreOperatorBits(g, live, mode, classes);
    assert c.mode == mode;
    assert c.flags == OperatorBits(base.flags) + CapabilityBits(live.flags) + Granted(g, live, mode, classes);
  }

  lemma GrantsAreOperatorBits(g: Gates, live: Config, mode: Mode, classes: set<nat>)
    ensures forall b :: b in Granted(g, live, mode, classes) ==> 0 < b < 32
    ensures !Fighting(mode) ==> Granted(g, live, mode, classes) == {}
    ensures mode == LOCKDOWN ==> F_ALLOWLIST in Granted(g, live, mode, classes)
  {
  }

  lemma CandidateFields(base: Config, g: Gates, live: Config, wanted: nat, classes: set<nat>)
    ensures var c := Candidate(base, g, live, wanted, classes);
            && c.mode <= MONITOR_ONLY && c.sizing == base.sizing && ListsSsh(c)
            && c.abi == (if live.abi != 0 then live.abi else ABI_VERSION)
            && (c.mode == LOCKDOWN ==> F_ALLOWLIST in c.flags)
            && c.rate == Limits(base.rate, c.mode, classes) && c.burst == Limits(base.burst, c.mode, classes)
  {
    hide Limits, ScaleDown, ScaleUp, KindPct, ModePct, Strikes, Cut32, Granted, ListsSsh;
    var mode: Mode := if wanted > MONITOR_ONLY then NORMAL else wanted;
    GrantsAreOperatorBits(g, live, mode, classes);
    RepairListsSsh(Shaped(base, g, live, mode, classes));
  }

  /** The gate accepts a candidate exactly when the live configuration has the right ABI, whatever the baseline holds. */
  lemma CandidateIsSaneIff(base: Config, g: Gates, live: Config, wanted: nat, classes: set<nat>)
    ensures Sane(base, Candidate(base, g, live, wanted, classes)) <==> live.abi == 0 || RightAbi(live.abi)
  {
    hide Candidate, ListsSsh;
    FlagsExact(base, g, live, wanted, classes);
    CandidateFields(base, g, live, wanted, classes);
    assert F_ALLOWLIST in base.flags ==> F_ALLOWLIST in OperatorBits(base.flags);
  }

  /** Only ABI, capability and generation fields of the live configuration matter. */
  lemma CandidateReadsLittle(base: Config, g: Gates, live: Config, other: Config, wanted: nat, classes: set<nat>)
    requires live.abi == other.abi && live.gen == other.gen
    requires CapabilityBits(live.flags) == CapabilityBits(other.flags)
    ensures Candidate(base, g, live, wanted, classes) == Candidate(base, g, other, wanted, classes)
  {
    hide Limits, ScaleDown, ScaleUp, KindPct, ModePct, Strikes, Cut32, Repaired;
    assert F_CAP_SYNPROXY in live.flags <==> F_CAP_SYNPROXY in CapabilityBits(live.flags);
    assert F_CAP_SYNPROXY in other.flags <==> F_CAP_SYNPROXY in CapabilityBits(other.flags);
  }

  lemma Unscaled(v: u64, cap: u64, floor: u64)
    ensures ScaleDown(v, 100, floor) == v && ScaleUp(v, 100, cap) == v
  {
  }

  lemma SmallCut(v: u64)
    requires v < U32
    ensures Cut32(v) == v
  {
  }

  /** NORMAL without a class is the operator's baseline again, up to identity fields. */
  lemma NormalRestoresBaseline(base: Config, g: Gates, live: Config)
    requires ListsSsh(base) && base.udpCount <= MGMT_SLOTS
    ensures Candidate(base, g, live, NORMAL, {})
            == base.(mode := NORMAL, abi := if live.abi != 0 then live.abi else ABI_VERSION, gen := live.gen,
                     flags := OperatorBits(base.flags) + CapabilityBits(live.flags))
  {
    hide Limits, ScaleDown, ScaleUp, KindPct, Cut32, Repaired, OperatorBits, CapabilityBits, Granted;
    NoClassRestoresLimits(base.rate, NORMAL);
    NoClassRestoresLimits(base.burst, NORMAL);
    NoClassNoPress(100, TB_SYN, |PRESSES|);
    Unscaled(base.synFallback, 0, 5000);
    Unscaled(base.banBase, base.banMax, 0);
    Unscaled(base.logSample, 1_000_000, 0);
    SmallCut(base.logSample);
    GrantsAreOperatorBits(g, live, NORMAL, {});
    var c := Shaped(base, g, live, NORMAL, {});
    RepairListsSsh(c);
  }

  /** All limits of a NORMAL candidate are the operator's own exactly when the floors cover every pressed one. */
  lemma NormalRestoresIff(base: Config, g: Gates, live: Config, classes: set<nat>)
    ensures var c := Candidate(base, g, live, NORMAL, classes);
            c.rate == base.rate && c.burst == base.burst && c.synFallback == base.synFallback <==>
              && (forall k :: 0 <= k < BUCKETS && Pressed(classes, k) ==>
                    base.rate[k] <= FLOORS[k] && base.burst[k] <= FLOORS[k])
              && (Pressed(classes, TB_SYN) ==> base.synFallback <= 5000)
  {
    hide Limits, ScaleDown, ScaleUp, KindPct, Cut32, OperatorBits, CapabilityBits, Granted, Pressed, ListsSsh;
    CandidateFields(base, g, live, NORMAL, classes);
    forall k | 0 <= k < BUCKETS
      ensures Limits(base.rate, NORMAL, classes)[k] == base.rate[k] <==> (Pressed(classes, k) ==> base.rate[k] <= FLOORS[k])
      ensures Limits(base.burst, NORMAL, classes)[k] == base.burst[k] <==> (Pressed(classes, k) ==> base.burst[k] <= FLOORS[k])
    {
      NormalLimitIff(base.rate, classes, k);
      NormalLimitIff(base.burst, classes, k);
    }
    SynFallbackIff(base.synFallback, classes);
    var c := Candidate(base, g, live, NORMAL, classes);
    assert c.synFallback == ScaleDown(base.synFallback, KindPct(100, classes, TB_SYN, |PRESSES|), 5000);
  }

  lemma SynFallbackIff(v: u64, classes: set<nat>)
    ensures ScaleDown(v, KindPct(100, classes, TB_SYN, |PRESSES|), 5000) == v <==> (Pressed(classes, TB_SYN) ==> v <= 5000)
  {
    hide KindPct, ScaleDown, Pressed;
    WholeShareIff(classes, TB_SYN);
    var pct := KindPct(100, classes, TB_SYN, |PRESSES|);
    if pct < 100 {
      CutKeepsIff(v, pct, 5000);
    } else {
      Unscaled(v, 0, 5000);
    }
  }

  /** Bans, strikes, scans, timeouts and logging only ever get stricter than the baseline, within their limits. */
  lemma OnlyHarsher(base: Config, g: Gates, live: Config, wanted: nat, classes: set<nat>)
    ensures var c := Candidate(base, g, live, wanted, classes);
            && base.banBase <= c.banBase && (base.banMax != 0 ==> c.banBase <= Max(base.banBase, base.banMax))
            && Min(base.strikeLimit, 2) <= c.strikeLimit <= base.strikeLimit
            && Min(base.scanThreshold, 8) <= c.scanThreshold <= base.scanThreshold
            && Min(base.ctSyn, 2 * NSEC_PER_SEC) <= c.ctSyn <= base.ctSyn
            && Min(base.ctEst, 60 * NSEC_PER_SEC) <= c.ctEst <= base.ctEst
            && base.logSample <= c.logSample <= Max(base.logSample, 1_000_000)
            && Min(base.synFallback, 5000) <= c.synFallback <= base.synFallback
  {
    hide Limits, ScaleDown, ScaleUp, KindPct, ModePct, Cut32, OperatorBits, CapabilityBits, Granted;
    var mode: Mode := if wanted > MONITOR_ONLY then NORMAL else wanted;
    var pct := ModePct(mode);
    ScaleUpBounds(base.banBase, BanPct(mode), base.banMax);
    ScaleUpBounds(base.logSample, LogPct(mode), 1_000_000);
    SmallCut(ScaleUp(base.logSample, LogPct(mode), 1_000_000));
    ScaleDownBounds(base.scanThreshold, pct, 8);
    SmallCut(ScaleDown(base.scanThreshold, pct, 8));
    ScaleDownBounds(base.ctSyn, pct, 2 * NSEC_PER_SEC);
    ScaleDownBounds(base.ctEst, pct, 60 * NSEC_PER_SEC);
    ScaleDownBounds(base.synFallback, KindPct(pct, classes, TB_SYN, |PRESSES|), 5000);
  }

  predicate SameButGen(a: Config, b: Config) {
    a.(gen := b.gen) == b
  }

  /** The push side of the controller; `written` is what reached the configuration map, in order. */
  class Pusher {
    var base: Config
    const g: Gates
    const dryRun: bool
    var applied: Option<Config>
    var written: seq<Config>
    var pushes: u64
    var rejected: u64

    /** Nothing that locks the operator out or carries a foreign ABI ever reaches the map. */
    ghost predicate Valid()
      reads this
    {
      forall i :: 0 <= i < |written| ==> ListsSsh(written[i]) && RightAbi(written[i].abi)
    }

    /** A controller that has pushed nothing yet; the live configuration counts as applied. */
    constructor (base: Config, g: Gates, dryRun: bool, live: Config)
      ensures Valid() && written == [] && applied == Some(live)
      ensures this.base == base && this.g == g && this.dryRun == dryRun
    {
      this.base, this.g, this.dryRun := base, g, dryRun;
      applied, written, pushes, rejected := Some(live), [], 0, 0;
    }

    /** One push: refused, unchanged, kept by a dry run, failed to write, or written under the next generation. */
    method Push(live: Config, mode: nat, classes: set<nat>, writable: bool) returns (code: int)
      requires Valid()
      modifies `applied, `written, `pushes, `rejected
      ensures Valid()
      ensures var c := Candidate(base, g, live, mode, classes);
              var next := c.(gen := Wrap64(live.gen + 1));
              var same := old(applied).Some? && SameButGen(c, old(applied).value);
              && (code == -22 <==> live.abi != 0 && !RightAbi(live.abi))
              && (code == 0 && !same ==> applied == Some(next))
              && (code != 0 || same ==> applied == old(applied))
              && written == old(written) + (if code == 0 && !same && !dryRun then [next] else [])
              && (code == -5 <==> Sane(base, c) && !same && !dryRun && !writable)
              && (code == 0 || code == -22 || code == -5)
              && pushes == (if code == 0 && !same then Wrap64(old(pushes) + 1) else old(pushes))
              && rejected == (if code != 0 then Wrap64(old(rejected) + 1) else old(rejected))
    {
      hide Candidate, ListsSsh, Sane, RightAbi;
      var cand := BuildConfig(base, g, live, mode, classes);
      CandidateIsSaneIff(base, g, live, mode, classes);
      CandidateFields(base, g, live, mode, classes);
      SaneAbi(base, cand);
      var sane := ConfigSane(base, cand);
      if !sane {
        rejected := Wrap64(rejected + 1);
        return -22;
      }
      if applied.Some? && cand.(gen := applied.value.gen) == applied.value {
        return 0;
      }
      GenKeepsLists(cand, Wrap64(live.gen + 1));
      cand := cand.(gen := Wrap64(live.gen + 1));
      if !dryRun {
        if !writable {
          rejected := Wrap64(rejected + 1);
          return -5;
        }
        written := written + [cand];
      }
      applied := Some(cand);
      pushes := Wrap64(pushes + 1);
      return 0;
    }
  }

  lemma SaneAbi(base: Config, c: Config)
    ensures Sane(base, c) ==> RightAbi(c.abi)
  {
  }

  lemma GenKeepsLists(c: Config, gen: u64)
    ensures ListsSsh(c.(gen := gen)) == ListsSsh(c)
  {
  }
}
