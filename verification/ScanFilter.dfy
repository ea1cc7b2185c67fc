/**
 * Port-scan evidence: the 512-bit two-hash Bloom filter (src/bpf/common.h), the
 * window helper around it (src/bpf/ratelimit.h) and the scan stage of the XDP
 * program (src/bpf/xdp_firewall.bpf.c).  A bitmap is the set of its set bits.
 */
module ScanFilter {
  import opened Words
  import opened Mixing

  const BITS: nat := 512
  const DEFAULT_WINDOW: u64 := 30_000_000_000

  function Bit(port: u16, seed: bv32): (b: nat)
    ensures b < BITS
  {
    ((Mix32(port as bv32, seed) & 511) as bv9) as nat
  }

  function Bits(port: u16): set<nat> {
    {Bit(port, 0x9E3779B9), Bit(port, 0x7F4A7C15)}
  }

  datatype Filter = Filter(start: u64, distinct: u32, hits: u32, lastPort: u32, bitmap: set<nat>)

  datatype Probe = Probe(now: u64, port: u16)

  /** At least one bit of the port is not set yet. */
  predicate Unseen(bitmap: set<nat>, port: u16) {
    !(Bits(port) <= bitmap)
  }

  function Marked(f: Filter, port: u16): Filter {
    f.(bitmap := f.bitmap + Bits(port), distinct := if Unseen(f.bitmap, port) then Bump(f.distinct) else f.distinct)
  }

  function Cleared(now: u64): Filter {
    Filter(now, 0, 0, 0, {})
  }

  /** A hit; consecutive probes of one port are not marked again. */
  function Hit(f: Filter, sentinel: u32, port: u16): Filter {
    var g := f.(hits := Bump(f.hits));
    if f.lastPort == sentinel then g else Marked(g, port).(lastPort := sentinel)
  }

  /** The first probe of a source makes its entry. */
  function First(q: Probe): Filter {
    Marked(Cleared(q.now), q.port).(hits := 1, lastPort := q.port)
  }

  function StageWindow(window: u64): u64 {
    if window == 0 then DEFAULT_WINDOW else window
  }

  /** The scan stage, before a ban clears the filter. */
  function StageCounted(f: Filter, window: u64, q: Probe): Filter {
    var g := if q.now < f.start || q.now - f.start > StageWindow(window) then Cleared(q.now) else f;
    Hit(g, q.port, q.port)
  }

  predicate StageBans(f: Filter, window: u64, threshold: u32, q: Probe) {
    threshold != 0 && StageCounted(f, window, q).distinct > threshold
  }

  function StageNext(f: Filter, window: u64, threshold: u32, q: Probe): Filter {
    if StageBans(f, window, threshold, q) then Cleared(q.now) else StageCounted(f, window, q)
  }

  /** The window helper: a zero window never ends. */
  function Rolled(f: Filter, window: u64, now: u64): Filter {
    if f.start == 0 || (window != 0 && Age(now, f.start) > window) then Cleared(now) else f
  }

  function RegisterNext(f: Filter, window: u64, threshold: u32, q: Probe): Filter {
    if threshold == 0 then f else Hit(Rolled(f, window, q.now), q.port + 1, q.port)
  }

  predicate RegisterBans(f: Filter, window: u64, threshold: u32, q: Probe) {
    && threshold != 0 && Rolled(f, window, q.now).lastPort != q.port + 1
    && RegisterNext(f, window, threshold, q).distinct > threshold
  }

  /** The filter of one source. */
  class Scan {
    var start: u64
    var distinct: u32
    var hits: u32
    var lastPort: u32
    var bitmap: set<nat>

    ghost function Value(): Filter
      reads this
    {
      Filter(start, distinct, hits, lastPort, bitmap)
    }

    constructor (q: Probe)
      ensures Value() == First(q)
    {
      start, distinct, hits, lastPort, bitmap := q.now, 0, 1, 0, {};
      new;
      var unseen := Mark(q.port);
      lastPort := q.port;
    }

    method Mark(port: u16) returns (unseen: bool)
      modifies `distinct, `bitmap
      ensures Value() == Marked(old(Value()), port)
      ensures unseen <==> Unseen(old(bitmap), port)
    {
      hide Bit;
      var h1, h2 := Bit(port, 0x9E3779B9), Bit(port, 0x7F4A7C15);
      unseen := !(h1 in bitmap && h2 in bitmap);
      assert bitmap + Bits(port) == bitmap + {h1} + {h2};
      bitmap := bitmap + {h1} + {h2};
      if unseen && distinct < U32 - 1 {
        distinct := distinct + 1;
      }
    }

    method Reset(now: u64)
      modifies this
      ensures Value() == Cleared(now)
    {
      start, distinct, hits, lastPort, bitmap := now, 0, 0, 0, {};
    }

    /** caly_scan_register; last_port holds port + 1. */
    method Register(window: u64, threshold: u32, q: Probe) returns (ban: bool)
      modifies this
      ensures Value() == RegisterNext(old(Value()), window, threshold, q)
      ensures ban <==> RegisterBans(old(Value()), window, threshold, q)
    {
      hide Marked;
      if threshold == 0 {
        return false;
      }
      if start == 0 || (window != 0 && Age(q.now, start) > window) {
        Reset(q.now);
      }
      hits := Bump(hits);
      if lastPort == q.port + 1 {
        return false;
      }
      lastPort := q.port + 1;
      MarkIgnoresLastPort(Value(), q.port);
      var unseen := Mark(q.port);
      return distinct > threshold;
    }

    /** The scan stage on an existing entry. */
    method Stage(window: u64, threshold: u32, q: Probe) returns (ban: bool)
      modifies this
      ensures Value() == StageNext(old(Value()), window, threshold, q)
      ensures ban <==> StageBans(old(Value()), window, threshold, q)
    {
      hide Marked;
      var win := if window == 0 then DEFAULT_WINDOW else window;
      if q.now < start || q.now - start > win {
        Reset(q.now);
      }
      hits := Bump(hits);
      if lastPort != q.port {
        var unseen := Mark(q.port);
        lastPort := q.port;
      }
      ban := threshold != 0 && distinct > threshold;
      if ban {
        Reset(q.now);
      }
    }
  }

  lemma MarkIgnoresLastPort(f: Filter, port: u16)
    ensures forall l: u32 :: Marked(f.(lastPort := l), port) == Marked(f, port).(lastPort := l)
  {
  }

  // ------------------------------------------------------------------------
  // Evidence
  // ------------------------------------------------------------------------

  /** The bits of every port in `ports` are set, and the count exceeds neither these ports nor the bits. */
  predicate Covers(f: Filter, ports: set<u16>) {
    && f.distinct <= |ports| && f.distinct <= |f.bitmap|
    && (forall b :: b in f.bitmap ==> b < BITS)
    && (forall p :: p in ports ==> Bits(p) <= f.bitmap)
  }

  /** A port with an unset bit was not marked before, so the count stays covered. */
  lemma MarkCovers(f: Filter, ports: set<u16>, port: u16)
    requires Covers(f, ports)
    ensures Unseen(f.bitmap, port) ==> port !in ports
    ensures Covers(Marked(f, port), ports + {port})
  {
    hide Bit;
    var more := f.bitmap + Bits(port);
    SubsetSize(f.bitmap, more);
    SubsetSize(ports, ports + {port});
    if Unseen(f.bitmap, port) {
      StrictSize(f.bitmap, more);
      assert port !in ports;
    }
  }

  /** The estimate is at most the number of distinct ports marked, and at most 512. */
  lemma EstimateIsLow(f: Filter, ports: set<u16>)
    requires Covers(f, ports)
    ensures f.distinct <= |ports| && f.distinct <= BITS
  {
    AtMostAllBits(f.bitmap, BITS);
  }

  function Ports(qs: seq<Probe>): set<u16> {
    set i | 0 <= i < |qs| :: qs[i].port
  }

  predicate Ordered(qs: seq<Probe>) {
    forall i, j :: 0 <= i < j < |qs| ==> qs[i].now <= qs[j].now
  }

  /** The filter stands for the probes from j on: none before its start, its marked ports among theirs. */
  predicate Backed(f: Filter, qs: seq<Probe>, j: nat, ports: set<u16>) {
    && j <= |qs| && Covers(f, ports) && ports <= Ports(qs[j..])
    && (forall i :: j <= i < |qs| ==> f.start <= qs[i].now)
  }

  lemma PortsSnoc(qs: seq<Probe>, q: Probe)
    ensures Ports(qs + [q]) == Ports(qs) + {q.port}
  {
    var all := qs + [q];
    assert all[|qs|] == q && forall i :: 0 <= i < |qs| ==> all[i] == qs[i];
    forall p | p in Ports(qs) + {q.port}
      ensures p in Ports(all)
    {
      if p in Ports(qs) {
        var i :| 0 <= i < |qs| && qs[i].port == p;
        assert all[i].port == p;
      } else {
        assert all[|qs|].port == p;
      }
    }
  }

  lemma ClearedCovers(now: u64)
    ensures Covers(Cleared(now), {})
  {
  }

  /** One hit on a filter that stands for the probes from j on. */
  lemma HitBacked(f: Filter, qs: seq<Probe>, j: nat, ports: set<u16>, sentinel: u32, q: Probe) returns (more: set<u16>)
    requires Backed(f, qs, j, ports) && f.start <= q.now
    ensures Backed(Hit(f, sentinel, q.port), qs + [q], j, more)
    ensures Hit(f, sentinel, q.port).start == f.start
  {
    hide Bits, Ports;
    var all := qs + [q];
    assert all[j..] == qs[j..] + [q];
    PortsSnoc(qs[j..], q);
    var g := f.(hits := Bump(f.hits));
    more := ports;
    if f.lastPort != sentinel {
      MarkCovers(g, ports, q.port);
      more := ports + {q.port};
    }
    forall i | j <= i < |all|
      ensures f.start <= all[i].now
    {
      assert i < |qs| ==> all[i] == qs[i];
    }
  }

  lemma EmptyBacked(now: u64, qs: seq<Probe>)
    ensures Backed(Cleared(now), qs, |qs|, {})
  {
    ClearedCovers(now);
  }

  /** The stage's count is backed by the probes of one window. */
  lemma StageBacked(f: Filter, qs: seq<Probe>, j: nat, ports: set<u16>, window: u64, q: Probe)
      returns (i: nat, more: set<u16>)
    requires Backed(f, qs, j, ports)
    ensures Backed(StageCounted(f, window, q), qs + [q], i, more)
    ensures var s := StageCounted(f, window, q).start; s <= q.now && q.now - s <= StageWindow(window)
  {
    hide Backed, Hit, StageWindow;
    if q.now < f.start || q.now - f.start > StageWindow(window) {
      EmptyBacked(q.now, qs);
      i := |qs|;
      more := HitBacked(Cleared(q.now), qs, i, {}, q.port, q);
    } else {
      i := j;
      more := HitBacked(f, qs, j, ports, q.port, q);
    }
  }

  function ScanRun(window: u64, threshold: u32, qs: seq<Probe>): Filter
    requires qs != []
  {
    var n := |qs| - 1;
    if n == 0 then First(qs[0]) else StageNext(ScanRun(window, threshold, qs[..n]), window, threshold, qs[n])
  }

  lemma FirstBacked(q: Probe) returns (ports: set<u16>)
    ensures Backed(First(q), [q], 0, ports)
  {
    hide Bits;
    ports := {q.port};
    ClearedCovers(q.now);
    MarkCovers(Cleared(q.now), {}, q.port);
    assert {} + {q.port} == ports;
    assert [q][0..] == [q];
    assert [q][0].port == q.port;
  }

  /** Over every run of probes the filter stands for the probes of its current window. */
  lemma {:induction false} ScanIsBacked(window: u64, threshold: u32, qs: seq<Probe>) returns (j: nat, ports: set<u16>)
    requires qs != []
    ensures Backed(ScanRun(window, threshold, qs), qs, j, ports)
  {
    hide Backed, First, StageCounted;
    var n := |qs| - 1;
    if n == 0 {
      j := 0;
      ports := FirstBacked(qs[0]);
      assert qs == [qs[0]];
    } else {
      var i, before := ScanIsBacked(window, threshold, qs[..n]);
      var f := ScanRun(window, threshold, qs[..n]);
      j, ports := StageBacked(f, qs[..n], i, before, window, qs[n]);
      assert qs == qs[..n] + [qs[n]];
      if StageBans(f, window, threshold, qs[n]) {
        EmptyBacked(qs[n].now, qs);
        j, ports := |qs|, {};
      }
    }
  }

  /**
   * A ban on the last probe of a run: from some probe j on, all probes lie in
   * one window and touch more than threshold distinct ports.
   */
  lemma ScanBanHasEvidence(window: u64, threshold: u32, qs: seq<Probe>) returns (j: nat)
    requires |qs| > 1 && Ordered(qs)
    requires StageBans(ScanRun(window, threshold, qs[..|qs| - 1]), window, threshold, qs[|qs| - 1])
    ensures j < |qs| && |Ports(qs[j..])| > threshold && 0 < threshold < BITS
    ensures forall i :: j <= i < |qs| ==> qs[|qs| - 1].now - qs[i].now <= StageWindow(window)
  {
    hide Bits, Ports, StageWindow, ScanRun;
    var n := |qs| - 1;
    var i, before := ScanIsBacked(window, threshold, qs[..n]);
    var f := ScanRun(window, threshold, qs[..n]);
    var ports;
    j, ports := StageBacked(f, qs[..n], i, before, window, qs[n]);
    assert qs == qs[..n] + [qs[n]];
    EstimateIsLow(StageCounted(f, window, qs[n]), ports);
    SubsetSize(ports, Ports(qs[j..]));
    if j == |qs| { NoPorts(qs[j..]); }
  }

  lemma NoPorts(qs: seq<Probe>)
    requires qs == []
    ensures |Ports(qs)| == 0
  {
    assert Ports(qs) == {};
  }

  /** A record as memory gives it: start 0 makes the helper open a window first. */
  const ZEROED: Filter := Filter(0, 0, 0, 0, {})

  function RegisterRun(window: u64, threshold: u32, qs: seq<Probe>): Filter {
    if qs == [] then ZEROED
    else RegisterNext(RegisterRun(window, threshold, qs[..|qs| - 1]), window, threshold, qs[|qs| - 1])
  }

  /** The helper's count is backed by the probes of one window. */
  lemma RegisterBacked(f: Filter, qs: seq<Probe>, j: nat, ports: set<u16>, window: u64, threshold: u32, q: Probe)
      returns (i: nat, more: set<u16>)
    requires Backed(f, qs, j, ports) && f.start <= q.now && threshold != 0
    ensures Backed(RegisterNext(f, window, threshold, q), qs + [q], i, more)
    ensures var s := RegisterNext(f, window, threshold, q).start; s <= q.now && (window != 0 ==> q.now - s <= window)
  {
    hide Backed, Hit;
    if Rolled(f, window, q.now) == f && !(f.start == 0 || (window != 0 && Age(q.now, f.start) > window)) {
      i := j;
      more := HitBacked(f, qs, j, ports, q.port + 1, q);
    } else {
      EmptyBacked(q.now, qs);
      i := |qs|;
      more := HitBacked(Cleared(q.now), qs, i, {}, q.port + 1, q);
    }
  }

  lemma {:induction false} RegisterIsBacked(window: u64, threshold: u32, qs: seq<Probe>) returns (j: nat, ports: set<u16>)
    requires threshold != 0 && Ordered(qs)
    ensures Backed(RegisterRun(window, threshold, qs), qs, j, ports)
    ensures qs == [] || RegisterRun(window, threshold, qs).start <= qs[|qs| - 1].now
    ensures qs == [] ==> RegisterRun(window, threshold, qs).start == 0
  {
    hide Backed, RegisterNext;
    if qs == [] {
      j, ports := 0, {};
      EmptyBacked(0, qs);
    } else {
      var n := |qs| - 1;
      var i, before := RegisterIsBacked(window, threshold, qs[..n]);
      var f := RegisterRun(window, threshold, qs[..n]);
      j, ports := RegisterBacked(f, qs[..n], i, before, window, threshold, qs[n]);
      assert qs == qs[..n] + [qs[n]];
    }
  }

  /** The same for the helper, over every run from a zeroed record; a zero window never ends. */
  lemma RegisterBanHasEvidence(window: u64, threshold: u32, qs: seq<Probe>) returns (j: nat)
    requires qs != [] && Ordered(qs)
    requires RegisterBans(RegisterRun(window, threshold, qs[..|qs| - 1]), window, threshold, qs[|qs| - 1])
    ensures j < |qs| && |Ports(qs[j..])| > threshold && 0 < threshold < BITS
    ensures window != 0 ==> forall i :: j <= i < |qs| ==> qs[|qs| - 1].now - qs[i].now <= window
  {
    hide Bits, Ports, RegisterRun, Hit;
    var n := |qs| - 1;
    var i, before := RegisterIsBacked(window, threshold, qs[..n]);
    var f := RegisterRun(window, threshold, qs[..n]);
    var ports;
    j, ports := RegisterBacked(f, qs[..n], i, before, window, threshold, qs[n]);
    assert qs == qs[..n] + [qs[n]];
    EstimateIsLow(RegisterNext(f, window, threshold, qs[n]), ports);
    SubsetSize(ports, Ports(qs[j..]));
    if j == |qs| { NoPorts(qs[j..]); }
  }

  // ------------------------------------------------------------------------
  // Finite sets
  // ------------------------------------------------------------------------

  lemma {:induction false} SubsetSize<T>(a: set<T>, b: set<T>)
    requires a <= b
    ensures |a| <= |b|
    decreases |a|
  {
    if a != {} {
      var x :| x in a;
      SubsetSize(a - {x}, b - {x});
    }
  }

  lemma StrictSize<T>(a: set<T>, b: set<T>)
    requires a < b
    ensures |a| < |b|
  {
    var x :| x in b && x !in a;
    SubsetSize(a, b - {x});
  }

  lemma {:induction false} AtMostAllBits(s: set<nat>, n: nat)
    requires forall b :: b in s ==> b < n
    ensures |s| <= n
  {
    if n > 0 {
      AtMostAllBits(s - {n - 1}, n - 1);
    } else {
      assert s == {};
    }
  }
}
