/**
 * The port-scan filter read off the run of probes: exactly which probes count,
 * when the scan stage and the window helper ban, and how far the estimate can
 * fall short of the ports probed.
 */
module ScanExact {
  import opened Words
  import opened ScanFilter

  /** The bits of all ports probed. */
  function AllBits(ps: seq<Probe>): set<nat> {
    if |ps| == 0 then {} else AllBits(ps[..|ps| - 1]) + Bits(ps[|ps| - 1].port)
  }

  /** The probes whose port has a bit that no earlier one set. */
  function Fresh(ps: seq<Probe>): nat {
    if |ps| == 0 then 0
    else
      var before := ps[..|ps| - 1];
      Fresh(before) + if Bits(ps[|ps| - 1].port) <= AllBits(before) then 0 else 1
  }

  lemma AddedBits(s: set<nat>, port: u16)
    ensures |s + Bits(port)| <= |s| + 2
    ensures !(Bits(port) <= s) ==> |s| < |s + Bits(port)|
  {
    hide Bit;
    var a, b := Bit(port, 0x9E3779B9), Bit(port, 0x7F4A7C15);
    assert s + Bits(port) == (s + {a}) + {b};
    assert |s + {a}| <= |s| + 1;
    assert |(s + {a}) + {b}| <= |s + {a}| + 1;
    if !(Bits(port) <= s) { StrictSize(s, s + Bits(port)); }
  }

  /** Each counted probe sets one bit or two: the count is between half the bits and all of them. */
  lemma {:induction false} FreshWithinBits(ps: seq<Probe>)
    ensures Fresh(ps) <= |AllBits(ps)| <= 2 * Fresh(ps)
    ensures forall b :: b in AllBits(ps) ==> b < BITS
  {
    hide Bits, Bit;
    if |ps| > 0 {
      var n := |ps| - 1;
      FreshWithinBits(ps[..n]);
      AddedBits(AllBits(ps[..n]), ps[n].port);
      BitsAreLow(ps[n].port);
      if Bits(ps[n].port) <= AllBits(ps[..n]) { assert AllBits(ps) == AllBits(ps[..n]); }
    }
  }

  lemma BitsAreLow(port: u16)
    ensures forall b :: b in Bits(port) ==> b < BITS
  {
    hide Bit;
  }

  /** The count fits the filter. */
  lemma FreshIsSmall(ps: seq<Probe>)
    ensures Fresh(ps) <= BITS
  {
    hide Fresh, AllBits;
    FreshWithinBits(ps);
    AtMostAllBits(AllBits(ps), BITS);
  }

  /** The filter holds the probes from j on. */
  predicate Holds(f: Filter, qs: seq<Probe>, j: nat) {
    j <= |qs| && f.bitmap == AllBits(qs[j..]) && f.distinct == Fresh(qs[j..])
  }

  lemma Snoc(qs: seq<Probe>, j: nat)
    requires j < |qs|
    ensures qs[j..][..|qs| - 1 - j] == qs[..|qs| - 1][j..] && qs[j..][|qs| - 1 - j] == qs[|qs| - 1]
  {
  }

  /** A probe that is marked. */
  lemma MarkHolds(f: Filter, qs: seq<Probe>, j: nat)
    requires |qs| > 0 && j < |qs| && Holds(f, qs[..|qs| - 1], j)
    ensures Holds(Marked(f, qs[|qs| - 1].port), qs, j)
  {
    hide Bits;
    Snoc(qs, j);
    FreshIsSmall(qs[..|qs| - 1][j..]);
  }

  /** A probe of the port before it changes nothing. */
  lemma RepeatHolds(f: Filter, qs: seq<Probe>, j: nat)
    requires |qs| > 1 && j < |qs| - 1 && Holds(f, qs[..|qs| - 1], j) && qs[|qs| - 1].port == qs[|qs| - 2].port
    ensures Holds(f, qs, j)
  {
    hide Bits;
    var before := qs[..|qs| - 1][j..];
    Snoc(qs, j);
    assert before[|before| - 1] == qs[|qs| - 2];
    assert Bits(qs[|qs| - 1].port) <= AllBits(before);
    assert AllBits(before) + Bits(qs[|qs| - 1].port) == AllBits(before);
  }

  // ------------------------------------------------------------------------
  // The scan stage
  // ------------------------------------------------------------------------

  /** The first probe the filter holds, and the time its window is anchored at. */
  datatype Opening = Opening(first: nat, anchor: u64)

  /**
   * The window in which the last probe counts.  A cleared filter remembers port 0
   * as the last one probed, so a probe of port 0 that meets it does not count.
   */
  function CountedIn(window: u64, threshold: u32, qs: seq<Probe>): Opening
    requires |qs| > 0
    decreases |qs|, 0
  {
    var n := |qs| - 1;
    if n == 0 then Opening(0, qs[0].now)
    else
      var o := OpenAfter(window, threshold, qs[..n]);
      var w := if qs[n].now < o.anchor || qs[n].now - o.anchor > StageWindow(window) then Opening(n, qs[n].now) else o;
      if w.first == n && qs[n].port == 0 then Opening(n + 1, w.anchor) else w
  }

  /** The window left open: a ban empties it. */
  function OpenAfter(window: u64, threshold: u32, qs: seq<Probe>): (o: Opening)
    requires |qs| > 0
    decreases |qs|, 2
  {
    var o := CountedIn(window, threshold, qs);
    if BansNow(window, threshold, qs) then Opening(|qs|, qs[|qs| - 1].now) else o
  }

  /** More than threshold probes of the window set a new bit; the probe that makes the entry never bans. */
  predicate BansNow(window: u64, threshold: u32, qs: seq<Probe>)
    requires |qs| > 0
    decreases |qs|, 1
  {
    && |qs| > 1 && threshold != 0
    && CountedIn(window, threshold, qs).first <= |qs|
    && Fresh(qs[CountedIn(window, threshold, qs).first..]) > threshold
  }

  predicate Remembers(f: Filter, qs: seq<Probe>, o: Opening) {
    && Holds(f, qs, o.first) && f.start == o.anchor
    && f.lastPort == if o.first < |qs| then qs[|qs| - 1].port else 0
  }

  lemma FirstRemembers(qs: seq<Probe>)
    requires |qs| == 1
    ensures Remembers(First(qs[0]), qs, Opening(0, qs[0].now))
  {
    hide Bits;
    var f := Cleared(qs[0].now);
    NothingHeld(f, qs[..0]);
    MarkHolds(f, qs, 0);
  }

  lemma NothingHeld(f: Filter, qs: seq<Probe>)
    requires f.bitmap == {} && f.distinct == 0
    ensures Holds(f, qs, |qs|)
  {
  }

  lemma CountedRemembers(f: Filter, window: u64, threshold: u32, qs: seq<Probe>)
    requires |qs| > 1 && Remembers(f, qs[..|qs| - 1], OpenAfter(window, threshold, qs[..|qs| - 1]))
    ensures Remembers(StageCounted(f, window, qs[|qs| - 1]), qs, CountedIn(window, threshold, qs))
  {
    hide Bits, Holds, Marked, StageWindow, OpenAfter;
    var n := |qs| - 1;
    var q, o := qs[n], OpenAfter(window, threshold, qs[..n]);
    var rolls := q.now < o.anchor || q.now - o.anchor > StageWindow(window);
    var g := if rolls then Cleared(q.now) else f;
    var first := if rolls then n else o.first;
    NothingHeld(Cleared(q.now), qs[..n]);
    HitRemembers(g, qs, first);
  }

  lemma HitRemembers(g: Filter, qs: seq<Probe>, j: nat)
    requires |qs| > 1 && Holds(g, qs[..|qs| - 1], j)
    requires g.lastPort == if j < |qs| - 1 then qs[|qs| - 2].port else 0
    ensures var n := |qs| - 1;
            var h := Hit(g, qs[n].port, qs[n].port);
            var k := if j == n && qs[n].port == 0 then n + 1 else j;
            Holds(h, qs, k) && h.start == g.start && h.lastPort == if k < |qs| then qs[n].port else 0
  {
    hide Bits;
    var n := |qs| - 1;
    var h := g.(hits := Bump(g.hits));
    if g.lastPort != qs[n].port {
      MarkHolds(h, qs, j);
    } else if j < n {
      RepeatHolds(h, qs, j);
    } else {
      NothingHeld(h, qs);
    }
  }

  /** Over every run the filter holds exactly the probes of the open window. */
  lemma {:induction false} FilterIsOpenWindow(window: u64, threshold: u32, qs: seq<Probe>)
    requires |qs| > 0
    ensures Remembers(ScanRun(window, threshold, qs), qs, OpenAfter(window, threshold, qs))
    ensures |qs| > 1 ==>
              (StageBans(ScanRun(window, threshold, qs[..|qs| - 1]), window, threshold, qs[|qs| - 1]) <==>
                 BansNow(window, threshold, qs))
  {
    hide Bits, Bit, StageCounted, CountedIn, Fresh, AllBits;
    var n := |qs| - 1;
    if n == 0 {
      FirstRemembers(qs);
      FirstOpens(window, threshold, qs);
    } else {
      FilterIsOpenWindow(window, threshold, qs[..n]);
      CountedRemembers(ScanRun(window, threshold, qs[..n]), window, threshold, qs);
      NothingHeld(Cleared(qs[n].now), qs);
    }
  }

  lemma FirstOpens(window: u64, threshold: u32, qs: seq<Probe>)
    requires |qs| == 1
    ensures CountedIn(window, threshold, qs) == Opening(0, qs[0].now) && !BansNow(window, threshold, qs)
  {
  }

  /** Over every run a probe bans exactly when more than threshold probes of its window set a bit that was not set. */
  lemma ScanBansIff(window: u64, threshold: u32, qs: seq<Probe>)
    requires |qs| > 1
    ensures var first := CountedIn(window, threshold, qs).first;
            first <= |qs|
            && (StageBans(ScanRun(window, threshold, qs[..|qs| - 1]), window, threshold, qs[|qs| - 1]) <==>
                  threshold != 0 && Fresh(qs[first..]) > threshold)
  {
    hide StageBans, ScanRun, Fresh, Holds;
    FilterIsOpenWindow(window, threshold, qs);
    FilterIsOpenWindow(window, threshold, qs[..|qs| - 1]);
    CountedRemembers(ScanRun(window, threshold, qs[..|qs| - 1]), window, threshold, qs);
    HeldIsWithin(StageCounted(ScanRun(window, threshold, qs[..|qs| - 1]), window, qs[|qs| - 1]), qs,
                 CountedIn(window, threshold, qs).first);
  }

  lemma HeldIsWithin(f: Filter, qs: seq<Probe>, j: nat)
    requires Holds(f, qs, j)
    ensures j <= |qs|
  {
  }

  /** So no scan escapes whose ports cover more than twice the threshold in bits of one window. */
  lemma WideScanIsBanned(window: u64, threshold: u32, qs: seq<Probe>)
    requires |qs| > 1 && threshold != 0
    requires CountedIn(window, threshold, qs).first <= |qs|
    requires |AllBits(qs[CountedIn(window, threshold, qs).first..])| > 2 * threshold
    ensures StageBans(ScanRun(window, threshold, qs[..|qs| - 1]), window, threshold, qs[|qs| - 1])
  {
    hide StageBans, ScanRun, Fresh, AllBits, CountedIn;
    ScanBansIff(window, threshold, qs);
    FreshWithinBits(qs[CountedIn(window, threshold, qs).first..]);
  }

  // ------------------------------------------------------------------------
  // The window helper
  // ------------------------------------------------------------------------

  /** A window opens with the first probe, after a full window, and after one anchored at time 0. */
  function RegisterOpen(window: u64, qs: seq<Probe>): Opening {
    if |qs| == 0 then Opening(0, 0)
    else
      var n := |qs| - 1;
      var o := RegisterOpen(window, qs[..n]);
      if o.anchor == 0 || (window != 0 && Age(qs[n].now, o.anchor) > window) then Opening(n, qs[n].now) else o
  }

  predicate Recalls(f: Filter, qs: seq<Probe>, o: Opening) {
    && Holds(f, qs, o.first) && f.start == o.anchor && (|qs| > 0 ==> o.first < |qs|)
    && f.lastPort == if o.first < |qs| then qs[|qs| - 1].port + 1 else 0
  }

  lemma RegisterRecalls(f: Filter, window: u64, threshold: u32, qs: seq<Probe>)
    requires |qs| > 0 && threshold != 0 && Recalls(f, qs[..|qs| - 1], RegisterOpen(window, qs[..|qs| - 1]))
    ensures Recalls(RegisterNext(f, window, threshold, qs[|qs| - 1]), qs, RegisterOpen(window, qs))
    ensures var n, first := |qs| - 1, RegisterOpen(window, qs).first;
            Rolled(f, window, qs[n].now).lastPort == if first < n then qs[n - 1].port + 1 else 0
  {
    hide Bits, Holds, Marked;
    var n := |qs| - 1;
    var q := qs[n];
    var g := Rolled(f, window, q.now);
    var h, first := g.(hits := Bump(g.hits)), RegisterOpen(window, qs).first;
    NothingHeld(Cleared(q.now), qs[..n]);
    HitsDoNotMatter(g, qs[..n], first);
    MarkedKeeps(h, q.port);
    if g.lastPort != q.port + 1 {
      MarkHolds(h, qs, first);
    } else {
      RepeatHolds(h, qs, first);
    }
    LastPortDoesNotMatter(Marked(h, q.port), qs, first, q.port + 1);
  }

  lemma HitsDoNotMatter(f: Filter, qs: seq<Probe>, j: nat)
    ensures Holds(f, qs, j) == Holds(f.(hits := Bump(f.hits)), qs, j)
  {
  }

  lemma LastPortDoesNotMatter(f: Filter, qs: seq<Probe>, j: nat, port: u32)
    ensures Holds(f, qs, j) == Holds(f.(lastPort := port), qs, j)
  {
  }

  lemma MarkedKeeps(f: Filter, port: u16)
    ensures Marked(f, port).start == f.start && Marked(f, port).lastPort == f.lastPort
  {
  }

  lemma {:induction false} RegisterIsOpenWindow(window: u64, threshold: u32, qs: seq<Probe>)
    requires threshold != 0
    ensures Recalls(RegisterRun(window, threshold, qs), qs, RegisterOpen(window, qs))
  {
    hide RegisterNext, Holds;
    if |qs| == 0 {
      NothingHeld(ZEROED, qs);
    } else {
      RegisterIsOpenWindow(window, threshold, qs[..|qs| - 1]);
      RegisterRecalls(RegisterRun(window, threshold, qs[..|qs| - 1]), window, threshold, qs);
    }
  }

  /** The helper bans on the same count, but only when the probe changes the port. */
  lemma RegisterBansIff(window: u64, threshold: u32, qs: seq<Probe>)
    requires |qs| > 0
    ensures var n, first := |qs| - 1, RegisterOpen(window, qs).first;
            && (threshold != 0 ==> first <= n)
            && (RegisterBans(RegisterRun(window, threshold, qs[..n]), window, threshold, qs[n]) <==>
                  && threshold != 0 && (first < n ==> qs[n - 1].port != qs[n].port)
                  && Fresh(qs[first..]) > threshold)
  {
    hide RegisterNext, Fresh, AllBits, Rolled;
    var n := |qs| - 1;
    OpenIsWithin(window, qs);
    if threshold != 0 {
      RegisterIsOpenWindow(window, threshold, qs[..n]);
      RegisterRecalls(RegisterRun(window, threshold, qs[..n]), window, threshold, qs);
    }
  }

  lemma {:induction false} OpenIsWithin(window: u64, qs: seq<Probe>)
    requires |qs| > 0
    ensures RegisterOpen(window, qs).first < |qs|
  {
    if |qs| > 1 { OpenIsWithin(window, qs[..|qs| - 1]); }
  }
}
