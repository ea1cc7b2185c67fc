/**
 * The synthesised configuration field by field: exactly which values each limit,
 * timeout, threshold and flag of a candidate takes, in both directions.
 */
module ConfigExact {
  import opened Words
  import opened Baselines
  import opened ModeMachine
  import opened ConfigSynth

  // ------------------------------------------------------------------------
  // Scaling
  // ------------------------------------------------------------------------

  /** A value scaled down reaches n exactly when the value does and n is 1, within the floor, or within the share. */
  lemma ScaleDownIff(v: u64, pct: nat, floor: u64, n: nat)
    ensures n <= ScaleDown(v, pct, floor) <==> n <= v && (n <= 1 || n <= floor || n * 100 <= v * pct)
  {
    hide Share;
    if pct >= 100 {
      MulMono(100, pct, v);
    } else {
      ShareFits(v, pct, 100);
      ShareIff(v, pct, 100, n);
    }
  }

  predicate UpFits(v: u64, pct: nat) {
    v * pct < 100 * U64
  }

  /** A value scaled up reaches n exactly when it did before, or n is within the cap and the multiple. */
  lemma ScaleUpIff(v: u64, pct: nat, cap: u64, n: nat)
    requires pct < U64 && UpFits(v, pct)
    ensures n <= ScaleUp(v, pct, cap) <==> n <= v || (pct > 100 && (cap == 0 || n <= cap) && n * 100 <= v * pct)
  {
    hide Share;
    ShareIff(v, pct, 100, U64);
    ShareIff(v, pct, 100, n);
  }

  /** v at least, and a whole number m up to the cap if there is one. */
  function UpTo(v: nat, m: nat, cap: nat): nat {
    Max(v, if cap != 0 then Min(m, cap) else m)
  }

  /**
   * The product is cut back to 64 bits.  A value is scaled up as it should be
   * exactly when the product fits, or the cap is no higher than what is left.
   */
  lemma ScalesUpIff(v: u64, pct: nat, cap: u64)
    requires 100 < pct < U64
    ensures ScaleUp(v, pct, cap) == UpTo(v, Share(v, pct, 100), cap) <==>
              UpFits(v, pct) || (cap != 0 && cap <= Max(v, Share(v, pct, 100) % U64))
  {
    hide Share;
    ShareIff(v, pct, 100, U64);
    if v == 0 { ShareIff(v, pct, 100, 1); }
  }

  // ------------------------------------------------------------------------
  // Limits
  // ------------------------------------------------------------------------

  /** n is within the share of v that a press to pct leaves of the mode's own share. */
  predicate Leaves(v: u64, modePct: nat, pct: nat, n: nat) {
    n * 100 <= v * (modePct * pct / 100)
  }

  /** n is within the share of v that every asserted press of the bucket leaves. */
  ghost predicate WithinPresses(v: u64, modePct: nat, classes: set<nat>, kind: nat, n: nat) {
    forall i :: 0 <= i < |PRESSES| && Applies(i, classes, kind) ==> Leaves(v, modePct, PRESSES[i].pct, n)
  }

  lemma WithinShareIff(v: u64, modePct: nat, classes: set<nat>, kind: nat, n: nat)
    ensures n * 100 <= v * KindPct(modePct, classes, kind, |PRESSES|) <==>
              n * 100 <= v * modePct && WithinPresses(v, modePct, classes, kind, n)
  {
    hide Applies;
    var k := KindPct(modePct, classes, kind, |PRESSES|);
    KindPctIsStrongest(modePct, classes, kind, |PRESSES|);
    hide KindPct;
    MulMono(k, modePct, v);
    forall i | 0 <= i < |PRESSES| && Applies(i, classes, kind)
      ensures v * k <= v * (modePct * PRESSES[i].pct / 100)
    {
      MulMono(k, modePct * PRESSES[i].pct / 100, v);
    }
  }

  /** A limit reaches n exactly when the base does and n is 1, within the floor, or within the share of the mode and of every press. */
  lemma LimitIff(base: Buckets, mode: Mode, classes: set<nat>, k: nat, n: nat)
    requires k < BUCKETS
    ensures n <= Limits(base, mode, classes)[k] <==>
              && n <= base[k]
              && (|| n <= 1 || n <= FLOORS[k]
                  || (n * 100 <= base[k] * ModePct(mode) && WithinPresses(base[k], ModePct(mode), classes, k, n)))
  {
    hide KindPct, ScaleDown, ModePct, WithinPresses;
    ScaleDownIff(base[k], KindPct(ModePct(mode), classes, k, |PRESSES|), FLOORS[k], n);
    WithinShareIff(base[k], ModePct(mode), classes, k, n);
  }

  // ------------------------------------------------------------------------
  // The other fields
  // ------------------------------------------------------------------------

  /** A half, a quarter and a tenth of v, as the rungs leave it. */
  predicate WithinRung(mode: Mode, v: nat, n: nat) {
    && (mode == ELEVATED ==> 2 * n <= v)
    && (mode == UNDER_ATTACK ==> 4 * n <= v)
    && (mode == LOCKDOWN ==> 10 * n <= v)
  }

  lemma RungIff(mode: Mode, v: nat, n: nat)
    requires n <= v
    ensures n * 100 <= v * ModePct(mode) <==> WithinRung(mode, v, n)
  {
  }

  lemma ModeScaleIff(v: u64, mode: Mode, floor: u64, n: nat)
    requires floor > 0
    ensures n <= ScaleDown(v, ModePct(mode), floor) <==> n <= v && (n <= floor || WithinRung(mode, v, n))
  {
    hide ModePct, WithinRung;
    ScaleDownIff(v, ModePct(mode), floor, n);
    if n <= v { RungIff(mode, v, n); }
  }

  function Rung(wanted: nat): Mode {
    if wanted > MONITOR_ONLY then NORMAL else wanted
  }

  /** What the repair leaves alone. */
  lemma RepairKeeps(c: Config)
    ensures Repaired(c).(tcpCount := c.tcpCount, tcpPorts := c.tcpPorts, udpCount := c.udpCount) == c
  {
  }

  /** Strikes: half under attack, a quarter in lockdown, never below 2. */
  lemma StrikesIff(base: Config, g: Gates, live: Config, wanted: nat, classes: set<nat>, n: nat)
    ensures n <= Candidate(base, g, live, wanted, classes).strikeLimit <==>
              && n <= base.strikeLimit
              && (|| n <= 2
                  || ((Rung(wanted) == UNDER_ATTACK ==> 2 * n <= base.strikeLimit)
                      && (Rung(wanted) == LOCKDOWN ==> 4 * n <= base.strikeLimit)))
  {
    hide Limits, ScaleDown, ScaleUp, KindPct, ModePct, Cut32, Granted, OperatorBits, CapabilityBits, Repaired;
    RepairKeeps(Shaped(base, g, live, Rung(wanted), classes));
  }

  /** Scans: the threshold falls with the rung while a scan is asserted, never below 8. */
  lemma ScanThresholdIff(base: Config, g: Gates, live: Config, wanted: nat, classes: set<nat>, n: nat)
    ensures n <= Candidate(base, g, live, wanted, classes).scanThreshold <==>
              n <= base.scanThreshold && (n <= 8 || C_PORTSCAN !in classes || WithinRung(Rung(wanted), base.scanThreshold, n))
  {
    hide Limits, ScaleDown, ScaleUp, KindPct, ModePct, Cut32, Granted, OperatorBits, CapabilityBits, Repaired, Strikes;
    RepairKeeps(Shaped(base, g, live, Rung(wanted), classes));
    ModeScaleIff(base.scanThreshold, Rung(wanted), 8, n);
    ScaleDownBounds(base.scanThreshold, ModePct(Rung(wanted)), 8);
    SmallCut(ScaleDown(base.scanThreshold, ModePct(Rung(wanted)), 8));
  }

  /** Half-open and established flows idle out sooner while a class asserts that they are hoarded. */
  lemma TimeoutsIff(base: Config, g: Gates, live: Config, wanted: nat, classes: set<nat>, n: nat)
    ensures var c := Candidate(base, g, live, wanted, classes);
            var hoards := C_CONN_EXH in classes || C_SLOWLORIS in classes;
            && (n <= c.ctSyn <==>
                  n <= base.ctSyn && (n <= 2 * NSEC_PER_SEC || !hoards || WithinRung(Rung(wanted), base.ctSyn, n)))
            && (n <= c.ctEst <==>
                  n <= base.ctEst && (n <= 60 * NSEC_PER_SEC || !hoards || WithinRung(Rung(wanted), base.ctEst, n)))
  {
    hide Limits, ScaleDown, ScaleUp, KindPct, ModePct, Cut32, Granted, OperatorBits, CapabilityBits, Repaired, Strikes;
    RepairKeeps(Shaped(base, g, live, Rung(wanted), classes));
    ModeScaleIff(base.ctSyn, Rung(wanted), 2 * NSEC_PER_SEC, n);
    ModeScaleIff(base.ctEst, Rung(wanted), 60 * NSEC_PER_SEC, n);
  }

  /** How often each rung logs less: twice, four and eight times. */
  function Thinned(mode: Mode): nat {
    if mode == ELEVATED then 2 else if mode == UNDER_ATTACK then 4 else if mode == LOCKDOWN then 8 else 1
  }

  /** One record in more is logged, up to one in a million. */
  lemma LogSampleIff(base: Config, g: Gates, live: Config, wanted: nat, classes: set<nat>, n: nat)
    ensures n <= Candidate(base, g, live, wanted, classes).logSample <==>
              n <= base.logSample || (n <= 1_000_000 && n <= Thinned(Rung(wanted)) * base.logSample)
  {
    hide Limits, ScaleDown, ScaleUp, KindPct, ModePct, Cut32, Granted, OperatorBits, CapabilityBits, Repaired, Strikes;
    RepairKeeps(Shaped(base, g, live, Rung(wanted), classes));
    var pct := LogPct(Rung(wanted));
    ScaleUpIff(base.logSample, pct, 1_000_000, n);
    ScaleUpBounds(base.logSample, pct, 1_000_000);
    SmallCut(ScaleUp(base.logSample, pct, 1_000_000));
  }

  function Lengthened(mode: Mode): nat {
    if mode == UNDER_ATTACK then 2 else if mode == LOCKDOWN then 4 else 1
  }

  /**
   * Bans last twice as long under attack and four times in lockdown, up to the
   * ceiling, exactly when 64 bits hold the product or the ceiling is no higher
   * than the base or what is left of the product.
   */
  lemma BanBaseIff(base: Config, g: Gates, live: Config, wanted: nat, classes: set<nat>)
    ensures var longer := Lengthened(Rung(wanted)) * base.banBase;
            Candidate(base, g, live, wanted, classes).banBase == UpTo(base.banBase, longer, base.banMax) <==>
              || longer < U64
              || (base.banMax != 0 && base.banMax <= Max(base.banBase, longer % U64))
  {
    hide Limits, ScaleDown, ScaleUp, KindPct, ModePct, Cut32, Granted, OperatorBits, CapabilityBits, Repaired, Strikes, Share;
    RepairKeeps(Shaped(base, g, live, Rung(wanted), classes));
    var pct, longer := BanPct(Rung(wanted)), Lengthened(Rung(wanted)) * base.banBase;
    if Lengthened(Rung(wanted)) == 1 {
      Unscaled(base.banBase, base.banMax, 0);
    } else {
      ScalesUpIff(base.banBase, pct, base.banMax);
      Hundredfold(base.banBase, Lengthened(Rung(wanted)));
    }
  }

  /** A base of 2^63 ns is not doubled under attack: the product wraps to nothing. */
  lemma DoubledBaseWraps(base: Config, g: Gates, live: Config, classes: set<nat>)
    requires base.banBase == HALF64
    ensures Candidate(base, g, live, UNDER_ATTACK, classes).banBase == HALF64
  {
    hide Limits, ScaleDown, KindPct, ModePct, Cut32, Granted, OperatorBits, CapabilityBits, Repaired, Strikes, Share;
    RepairKeeps(Shaped(base, g, live, UNDER_ATTACK, classes));
    Hundredfold(HALF64, 2);
  }

  lemma Hundredfold(v: nat, factor: nat)
    ensures Share(v, factor * 100, 100) == factor * v
  {
    DivUnique(v * (factor * 100), 100, factor * v);
  }

  /** The SYN cap of a machine without the proxy. */
  lemma SynCapIff(base: Config, g: Gates, live: Config, wanted: nat, classes: set<nat>, n: nat)
    ensures var m, v := Rung(wanted), base.synFallback;
            n <= Candidate(base, g, live, wanted, classes).synFallback <==>
              && n <= v
              && (n <= 5000 || (WithinRung(m, v, n) && (C_SYN in classes ==> Leaves(v, ModePct(m), 50, n))))
  {
    hide Limits, ScaleDown, ScaleUp, KindPct, ModePct, Cut32, Granted, OperatorBits, CapabilityBits, Repaired, Strikes,
         WithinRung;
    var m := Rung(wanted);
    RepairKeeps(Shaped(base, g, live, m, classes));
    ScaleDownIff(base.synFallback, KindPct(ModePct(m), classes, TB_SYN, |PRESSES|), 5000, n);
    WithinShareIff(base.synFallback, ModePct(m), classes, TB_SYN, n);
    if n <= base.synFallback { RungIff(m, base.synFallback, n); }
    PressesAre(base.synFallback, ModePct(m), classes, n);
  }

  /** The presses of each bucket, with the share that each class leaves. */
  lemma PressesAre(v: u64, p: nat, classes: set<nat>, n: nat)
    ensures WithinPresses(v, p, classes, TB_PPS, n) <==>
              && (C_ACK in classes ==> Leaves(v, p, 50, n)) && (C_FRAG in classes ==> Leaves(v, p, 75, n))
              && (C_VOLUMETRIC in classes ==> Leaves(v, p, 60, n))
    ensures WithinPresses(v, p, classes, TB_BPS, n) <==>
              (C_UDP in classes ==> Leaves(v, p, 50, n)) && (C_VOLUMETRIC in classes ==> Leaves(v, p, 60, n))
    ensures WithinPresses(v, p, classes, TB_SYN, n) <==> (C_SYN in classes ==> Leaves(v, p, 50, n))
    ensures WithinPresses(v, p, classes, TB_UDP, n) <==>
              (C_UDP in classes ==> Leaves(v, p, 50, n)) && (C_AMP in classes ==> Leaves(v, p, 70, n))
    ensures WithinPresses(v, p, classes, TB_ICMP, n) <==> (C_ICMP in classes ==> Leaves(v, p, 25, n))
    ensures WithinPresses(v, p, classes, TB_NEWCONN, n) <==>
              (C_CONN_EXH in classes ==> Leaves(v, p, 40, n)) && (C_SLOWLORIS in classes ==> Leaves(v, p, 60, n))
  {
    hide Leaves;
    assert (Applies(0, classes, TB_SYN) == (C_SYN in classes)) && (Applies(1, classes, TB_PPS) == (C_ACK in classes));
    assert (Applies(2, classes, TB_UDP) == (C_UDP in classes)) && (Applies(3, classes, TB_BPS) == (C_UDP in classes));
    assert (Applies(4, classes, TB_UDP) == (C_AMP in classes)) && (Applies(5, classes, TB_ICMP) == (C_ICMP in classes));
    assert (Applies(6, classes, TB_PPS) == (C_FRAG in classes)) && (Applies(7, classes, TB_NEWCONN) == (C_CONN_EXH in classes));
    assert (Applies(8, classes, TB_NEWCONN) == (C_SLOWLORIS in classes)) && (Applies(9, classes, TB_PPS) == (C_VOLUMETRIC in classes));
    assert (Applies(10, classes, TB_BPS) == (C_VOLUMETRIC in classes));
  }

  /** Every bit of the flag word, with the exact condition under which it is set. */
  lemma FlagIff(base: Config, g: Gates, live: Config, wanted: nat, classes: set<nat>, b: nat)
    ensures var m := Rung(wanted);
            b in Candidate(base, g, live, wanted, classes).flags <==>
              || (b < 32 && b in base.flags)
              || (32 <= b < 48 && b in live.flags)
              || (b == F_SYNPROXY && Fighting(m) && C_SYN in classes && g.synproxy && F_CAP_SYNPROXY in live.flags)
              || (b == F_ANTI_AMPLIFY && Fighting(m) && C_AMP in classes && g.amp)
              || (b == F_PORTSCAN_DETECT && Fighting(m) && C_PORTSCAN in classes && g.portscan)
              || (b in {F_ALLOWLIST, F_MGMT_BYPASS_ALL, F_LOCKDOWN_ICMP, F_CONNTRACK, F_DEFAULT_DENY} && m == LOCKDOWN)
              || (b == F_DROP_ALL_FRAGS && m == LOCKDOWN && C_FRAG in classes && g.dropFrags)
  {
    hide Limits, ScaleDown, ScaleUp, KindPct, ModePct, Cut32, Repaired, Strikes;
    RepairKeeps(Shaped(base, g, live, Rung(wanted), classes));
  }

  // ------------------------------------------------------------------------
  // The management lists
  // ------------------------------------------------------------------------

  /**
   * The repair, slot by slot: a list that names TCP/22 is only cut to its slots;
   * any other grows by TCP/22, or gives up its last slot when it is full.
   */
  lemma RepairIff(c: Config)
    ensures var r, n := Repaired(c), Min(c.tcpCount, MGMT_SLOTS);
            var listed := SSH in c.tcpPorts[..n];
            && r.udpCount == Min(c.udpCount, MGMT_SLOTS) && r.udpPorts == c.udpPorts
            && r.tcpCount == (if listed then n else Min(n + 1, MGMT_SLOTS))
            && (forall i :: 0 <= i < MGMT_SLOTS ==>
                  r.tcpPorts[i] == if !listed && i == Min(n, MGMT_SLOTS - 1) then SSH else c.tcpPorts[i])
  {
  }
}
