/**
 * Strike evidence: the strike register (src/bpf/ratelimit.h) and the strike
 * bookkeeping of the rate stage (src/bpf/xdp_firewall.bpf.c).  Both windows are
 * anchored at a first strike and reset; neither slides.
 */
module StrikeWindow {
  import opened Words

  const DEFAULT_WINDOW: u64 := 60_000_000_000

  datatype Window = Window(start: u64, strikes: u32, striking: bool)

  function Saturate(n: nat): u32 {
    if n < U32 then n else U32 - 1
  }

  /** caly_strike_register on values. */
  function Registered(w: Window, limit: u32, window: u64, now: u64): Window {
    if window == 0 || limit == 0 then w.(strikes := Saturate(w.strikes + 1), striking := true)
    else
      var v := if !w.striking || Age(now, w.start) > window then Window(now, 0, true) else w;
      var n := Saturate(v.strikes + 1);
      v.(strikes := n, striking := n < limit)
  }

  predicate RegisterBans(w: Window, limit: u32, window: u64, now: u64) {
    || window == 0 || limit == 0
    || Registered(w, limit, window, now).strikes >= limit
  }

  /** One strike of the rate stage: eligible for a ban or not, and whether the ban record could be stored. */
  datatype Strike = Strike(now: u64, eligible: bool, stored: bool)

  function StageWindow(window: u64): u64 {
    if window == 0 then DEFAULT_WINDOW else window
  }

  /** The window after the strike is counted, before a ban empties it. */
  function Counted(w: Window, window: u64, now: u64): Window {
    var v := if now < w.start || now - w.start > StageWindow(window) then w.(start := now, strikes := 0) else w;
    v.(strikes := Saturate(v.strikes + 1), striking := true)
  }

  predicate StageBans(w: Window, limit: u32, window: u64, s: Strike) {
    s.eligible && limit != 0 && Counted(w, window, s.now).strikes >= limit
  }

  function Struck(w: Window, limit: u32, window: u64, s: Strike): Window {
    var c := Counted(w, window, s.now);
    if StageBans(w, limit, window, s) && s.stored then c.(strikes := 0, start := s.now) else c
  }

  class Strikes {
    var start: u64
    var strikes: u32
    var striking: bool

    ghost function Value(): Window
      reads this
    {
      Window(start, strikes, striking)
    }

    method Register(limit: u32, window: u64, now: u64) returns (ban: bool)
      modifies this
      ensures Value() == Registered(old(Value()), limit, window, now)
      ensures ban <==> RegisterBans(old(Value()), limit, window, now)
    {
      if window == 0 || limit == 0 {
        strikes := if strikes < U32 - 1 then strikes + 1 else strikes;
        striking := true;
        return true;
      }
      if !striking || Age(now, start) > window {
        start, strikes, striking := now, 0, true;
      }
      strikes := if strikes < U32 - 1 then strikes + 1 else strikes;
      if strikes >= limit {
        striking := false;
        return true;
      }
      return false;
    }

    method Stage(limit: u32, window: u64, s: Strike) returns (ban: bool)
      modifies this
      ensures Value() == Struck(old(Value()), limit, window, s)
      ensures ban <==> StageBans(old(Value()), limit, window, s)
    {
      var win := if window == 0 then DEFAULT_WINDOW else window;
      if s.now < start || s.now - start > win {
        start, strikes := s.now, 0;
      }
      if strikes < U32 - 1 {
        strikes := strikes + 1;
      }
      striking := true;
      ban := s.eligible && limit != 0 && strikes >= limit;
      if ban && s.stored {
        strikes, start := 0, s.now;
      }
    }
  }

  predicate Ordered(ts: seq<u64>) {
    forall i, j :: 0 <= i < j < |ts| ==> ts[i] <= ts[j]
  }

  /** The counter stands for the last k strikes, none earlier than the anchor. */
  predicate Backed(w: Window, ts: seq<u64>, k: nat) {
    k <= |ts| && w.strikes == Saturate(k) && forall i :: |ts| - k <= i < |ts| ==> w.start <= ts[i]
  }

  function StrikeRun(w: Window, limit: u32, window: u64, es: seq<Strike>): Window {
    if es == [] then w else Struck(StrikeRun(w, limit, window, es[..|es| - 1]), limit, window, es[|es| - 1])
  }

  function Times(es: seq<Strike>): seq<u64> {
    seq(|es|, i requires 0 <= i < |es| => es[i].now)
  }

  /** Over any run of strikes from an empty window the counter is backed by real strikes. */
  lemma {:induction false} StrikesAreBacked(w: Window, limit: u32, window: u64, es: seq<Strike>) returns (k: nat)
    requires w.strikes == 0 && Ordered(Times(es))
    ensures Backed(StrikeRun(w, limit, window, es), Times(es), k)
  {
    hide StageBans, StageWindow;
    k := 0;
    if es != [] {
      var n := |es| - 1;
      assert Times(es[..n]) == Times(es)[..n];
      var j := StrikesAreBacked(w, limit, window, es[..n]);
      var v := StrikeRun(w, limit, window, es[..n]);
      k := BackedStep(v, limit, window, Times(es[..n]), j, es[n]);
      assert Times(es) == Times(es[..n]) + [es[n].now];
    }
  }

  lemma BackedStep(w: Window, limit: u32, window: u64, ts: seq<u64>, j: nat, s: Strike) returns (k: nat)
    requires Backed(w, ts, j)
    ensures Backed(Struck(w, limit, window, s), ts + [s.now], k)
  {
    hide StageWindow, StageBans;
    k := CountedBacked(w, window, ts, j, s.now);
    if StageBans(w, limit, window, s) && s.stored { k := 0; }
  }

  lemma CountedBacked(w: Window, window: u64, ts: seq<u64>, j: nat, now: u64) returns (k: nat)
    requires Backed(w, ts, j)
    ensures Backed(Counted(w, window, now), ts + [now], k) && k > 0
    ensures Counted(w, window, now).start <= now && now - Counted(w, window, now).start <= StageWindow(window)
  {
    k := if now < w.start || now - w.start > StageWindow(window) then 1 else j + 1;
  }

  /** A ban on the last strike of a run means that the last `limit` strikes all fell inside one window. */
  lemma StrikeBanHasEvidence(w: Window, limit: u32, window: u64, es: seq<Strike>)
    requires w.strikes == 0 && es != [] && Ordered(Times(es))
    requires StageBans(StrikeRun(w, limit, window, es[..|es| - 1]), limit, window, es[|es| - 1])
    ensures 0 < limit <= |es|
    ensures forall i :: |es| - limit <= i < |es| ==> es[|es| - 1].now - es[i].now <= StageWindow(window)
  {
    var n := |es| - 1;
    assert Times(es[..n]) == Times(es)[..n];
    var j := StrikesAreBacked(w, limit, window, es[..n]);
    var v := StrikeRun(w, limit, window, es[..n]);
    var k := CountedBacked(v, window, Times(es[..n]), j, es[n].now);
    assert Times(es) == Times(es[..n]) + [es[n].now];
    assert k >= limit;
    forall i | |es| - limit <= i < |es|
      ensures es[n].now - es[i].now <= StageWindow(window)
    {
      assert Times(es)[i] == es[i].now;
    }
  }

  // ------------------------------------------------------------------------
  // The stage's window, read off the run
  // ------------------------------------------------------------------------

  /** The first strike the current window counts, and the time it is anchored at. */
  datatype Opening = Opening(first: nat, anchor: u64)

  /** The window in which the last strike is counted. */
  function CountedIn(w: Window, limit: u32, window: u64, es: seq<Strike>): Opening
    requires es != []
    decreases |es|, 0
  {
    var n := |es| - 1;
    var o := OpenAfter(w, limit, window, es[..n]);
    if es[n].now < o.anchor || es[n].now - o.anchor > StageWindow(window) then Opening(n, es[n].now) else o
  }

  /** The window left open by a run: a stored ban empties it. */
  function OpenAfter(w: Window, limit: u32, window: u64, es: seq<Strike>): Opening
    decreases |es|, 1
  {
    if es == [] then Opening(0, w.start)
    else
      var n := |es| - 1;
      var o := CountedIn(w, limit, window, es);
      if es[n].eligible && es[n].stored && 0 < limit <= |es| - o.first then Opening(|es|, es[n].now) else o
  }

  /** The record holds exactly the open window: its anchor, and the strikes since its first. */
  lemma {:induction false} RecordIsOpenWindow(w: Window, limit: u32, window: u64, es: seq<Strike>)
    requires w.strikes == 0
    ensures var o := OpenAfter(w, limit, window, es);
            var r := StrikeRun(w, limit, window, es);
            o.first <= |es| && r.start == o.anchor && r.strikes == Saturate(|es| - o.first)
    ensures es != [] ==> CountedIn(w, limit, window, es).first < |es|
                         && (StageBans(StrikeRun(w, limit, window, es[..|es| - 1]), limit, window, es[|es| - 1]) <==>
                               es[|es| - 1].eligible && 0 < limit <= |es| - CountedIn(w, limit, window, es).first)
  {
    hide StageWindow;
    if es != [] {
      RecordIsOpenWindow(w, limit, window, es[..|es| - 1]);
    }
  }

  /** Over every run, an eligible strike bans exactly when the window that counts it then holds the limit. */
  lemma StageBansIff(w: Window, limit: u32, window: u64, es: seq<Strike>)
    requires w.strikes == 0 && es != []
    ensures StageBans(StrikeRun(w, limit, window, es[..|es| - 1]), limit, window, es[|es| - 1]) <==>
              es[|es| - 1].eligible && 0 < limit <= |es| - CountedIn(w, limit, window, es).first
  {
    hide StageBans, CountedIn, StrikeRun;
    RecordIsOpenWindow(w, limit, window, es);
  }

  /** What a sliding window would ban on: the last `limit` strikes lie within one window. */
  predicate Slides(limit: u32, window: u64, es: seq<Strike>) {
    0 < limit <= |es| && es[|es| - 1].now - es[|es| - limit].now <= StageWindow(window)
  }

  /** The sliding promise is met exactly when the window opened no later than the first of those strikes. */
  lemma SlidingPromiseIff(w: Window, limit: u32, window: u64, es: seq<Strike>)
    requires w.strikes == 0 && es != [] && es[|es| - 1].eligible && Slides(limit, window, es)
    ensures StageBans(StrikeRun(w, limit, window, es[..|es| - 1]), limit, window, es[|es| - 1]) <==>
              CountedIn(w, limit, window, es).first <= |es| - limit
  {
    hide StageBans, CountedIn, StrikeRun;
    StageBansIff(w, limit, window, es);
  }

  /** Strike i follows a silence longer than the window; for the first one, counted from the record's own anchor. */
  predicate AfterSilence(w: Window, window: u64, es: seq<Strike>, i: nat)
    requires i < |es|
  {
    if i == 0 then es[0].now <= w.start || es[0].now - w.start > StageWindow(window)
    else es[i].now - es[i - 1].now > StageWindow(window)
  }

  /** Such a silence opens a new window with the next strike. */
  lemma SilenceOpens(w: Window, limit: u32, window: u64, es: seq<Strike>, i: nat)
    requires i < |es| && AfterSilence(w, window, es, i)
    ensures CountedIn(w, limit, window, es[..i + 1]) == Opening(i, es[i].now)
  {
    hide StageWindow;
    var before := es[..i];
    assert es[..i + 1][..i] == before;
    if i > 0 {
      AnchorInThePast(w, limit, window, before);
    }
  }

  lemma AnchorInThePast(w: Window, limit: u32, window: u64, es: seq<Strike>)
    requires es != []
    ensures OpenAfter(w, limit, window, es).anchor <= es[|es| - 1].now
  {
    hide StageWindow;
  }

  /** While fewer than the limit follow it within the window, it stays open. */
  lemma {:induction false} StaysOpen(w: Window, limit: u32, window: u64, es: seq<Strike>, i: nat, m: nat)
    requires Ordered(Times(es)) && i <= m < |es| && m - i < limit
    requires es[m].now - es[i].now <= StageWindow(window)
    requires CountedIn(w, limit, window, es[..i + 1]) == Opening(i, es[i].now)
    ensures CountedIn(w, limit, window, es[..m + 1]) == Opening(i, es[i].now)
  {
    hide StageWindow;
    if m > i {
      assert Times(es)[i] <= Times(es)[m - 1] <= Times(es)[m];
      StaysOpen(w, limit, window, es, i, m - 1);
      assert es[..m + 1][..m] == es[..m];
    }
  }

  /** So `limit` strikes inside one window that follow a longer silence always ban. */
  lemma BurstAfterSilenceBans(w: Window, limit: u32, window: u64, es: seq<Strike>, i: nat)
    requires w.strikes == 0 && Ordered(Times(es)) && i < |es| && AfterSilence(w, window, es, i)
    requires |es| - i == limit && es[|es| - 1].now - es[i].now <= StageWindow(window) && es[|es| - 1].eligible
    ensures StageBans(StrikeRun(w, limit, window, es[..|es| - 1]), limit, window, es[|es| - 1])
  {
    hide StageBans, CountedIn, StrikeRun, StageWindow, Ordered, AfterSilence;
    SilenceOpens(w, limit, window, es, i);
    StaysOpen(w, limit, window, es, i, |es| - 1);
    assert es[..|es| - 1 + 1] == es;
    StageBansIff(w, limit, window, es);
  }

  const FOUR: seq<Strike> :=
    [Strike(1, true, true), Strike(10, true, true), Strike(12, true, true), Strike(13, true, true)]

  /** Without such a silence the promise can fail: three strikes within one window and no ban at all. */
  lemma StageDoesNotSlide()
    ensures forall i :: 0 <= i < 4 ==> !StageBans(StrikeRun(Window(1, 0, false), 3, 10, FOUR[..i]), 3, 10, FOUR[i])
    ensures Slides(3, 10, FOUR)
  {
    var es, w0 := FOUR, Window(1, 0, false);
    StrikeSnoc(w0, 3, 10, [], es[0]);
    StrikeSnoc(w0, 3, 10, [es[0]], es[1]);
    StrikeSnoc(w0, 3, 10, [es[0], es[1]], es[2]);
    assert es[..0] == [] && es[..1] == [] + [es[0]] && es[..2] == [es[0]] + [es[1]];
    assert es[..3] == [es[0], es[1]] + [es[2]];
    assert StrikeRun(w0, 3, 10, es[..1]) == Window(1, 1, true);
    assert StrikeRun(w0, 3, 10, es[..2]) == Window(1, 2, true);
    assert StrikeRun(w0, 3, 10, es[..3]) == Window(12, 1, true);
  }

  lemma StrikeSnoc(w: Window, limit: u32, window: u64, es: seq<Strike>, s: Strike)
    ensures StrikeRun(w, limit, window, es + [s]) == Struck(StrikeRun(w, limit, window, es), limit, window, s)
  {
    hide Struck;
    assert (es + [s])[..|es|] == es;
  }

  function RegisterRun(w: Window, limit: u32, window: u64, ts: seq<u64>): Window {
    if ts == [] then w else Registered(RegisterRun(w, limit, window, ts[..|ts| - 1]), limit, window, ts[|ts| - 1])
  }

  /** A window that is not striking carries nothing over; a striking one is backed. */
  predicate RegisterBacked(w: Window, ts: seq<u64>, k: nat) {
    w.striking ==> k > 0 && Backed(w, ts, k)
  }

  lemma RegisterStep(w: Window, limit: u32, window: u64, ts: seq<u64>, j: nat, now: u64) returns (k: nat)
    requires limit > 0 && window > 0 && RegisterBacked(w, ts, j) && (ts != [] ==> ts[|ts| - 1] <= now) && Ordered(ts)
    ensures var r := Registered(w, limit, window, now);
            && Backed(r, ts + [now], k) && RegisterBacked(r, ts + [now], k)
            && Age(now, r.start) <= window
  {
    var rolls := !w.striking || Age(now, w.start) > window;
    k := if rolls then 1 else j + 1;
    assert !rolls ==> w.start <= ts[|ts| - 1];
  }

  lemma {:induction false} RegisterIsBacked(w: Window, limit: u32, window: u64, ts: seq<u64>) returns (k: nat)
    requires !w.striking && limit > 0 && window > 0 && Ordered(ts)
    ensures RegisterBacked(RegisterRun(w, limit, window, ts), ts, k)
    ensures ts != [] ==> Backed(RegisterRun(w, limit, window, ts), ts, k)
                         && Age(ts[|ts| - 1], RegisterRun(w, limit, window, ts).start) <= window
  {
    hide Registered;
    k := 0;
    if ts != [] {
      var n := |ts| - 1;
      var j := RegisterIsBacked(w, limit, window, ts[..n]);
      k := RegisterStep(RegisterRun(w, limit, window, ts[..n]), limit, window, ts[..n], j, ts[n]);
      assert ts == ts[..n] + [ts[n]];
    }
  }

  /** The register: a ban on the last strike means that the last `limit` strikes all fell inside one window. */
  lemma RegisterBanHasEvidence(w: Window, limit: u32, window: u64, ts: seq<u64>)
    requires !w.striking && limit > 0 && window > 0 && ts != [] && Ordered(ts)
    requires RegisterBans(RegisterRun(w, limit, window, ts[..|ts| - 1]), limit, window, ts[|ts| - 1])
    ensures limit <= |ts|
    ensures forall i :: |ts| - limit <= i < |ts| ==> ts[|ts| - 1] - ts[i] <= window
  {
    hide Registered;
    var k := RegisterIsBacked(w, limit, window, ts);
    var r := RegisterRun(w, limit, window, ts);
    assert r.strikes >= limit && k >= limit;
  }

  // ------------------------------------------------------------------------
  // The register's window, read off the run
  // ------------------------------------------------------------------------

  /** The first strike of the window in which the last one is counted; a window starts with its first strike. */
  function RegisterFirst(limit: u32, window: u64, ts: seq<u64>): (i: nat)
    requires ts != []
    ensures i < |ts|
    decreases |ts|, 0
  {
    var n := |ts| - 1;
    var o := RegisterOpen(limit, window, ts[..n]);
    if o == n || Age(ts[n], ts[o]) > window then n else o
  }

  /** The first strike of the window left open; |ts| when a ban has closed it. */
  function RegisterOpen(limit: u32, window: u64, ts: seq<u64>): (i: nat)
    ensures i <= |ts|
    decreases |ts|, 1
  {
    if ts == [] then 0
    else
      var i := RegisterFirst(limit, window, ts);
      if limit <= |ts| - i then |ts| else i
  }

  lemma {:induction false} RegisterIsOpenWindow(w: Window, limit: u32, window: u64, ts: seq<u64>)
    requires !w.striking && limit > 0 && window > 0
    ensures var i := RegisterOpen(limit, window, ts);
            var r := RegisterRun(w, limit, window, ts);
            && (r.striking <==> i < |ts|)
            && (i < |ts| ==> r.start == ts[i] && r.strikes == |ts| - i)
    ensures ts != [] ==>
              (RegisterBans(RegisterRun(w, limit, window, ts[..|ts| - 1]), limit, window, ts[|ts| - 1]) <==>
                 limit <= |ts| - RegisterFirst(limit, window, ts))
  {
    hide Age;
    if ts != [] {
      RegisterIsOpenWindow(w, limit, window, ts[..|ts| - 1]);
    }
  }

  /** Over every run the register bans exactly when the window that counts the strike then holds the limit; without a limit or a window it always does. */
  lemma RegisterBansIff(w: Window, limit: u32, window: u64, ts: seq<u64>)
    requires !w.striking && ts != []
    ensures RegisterBans(RegisterRun(w, limit, window, ts[..|ts| - 1]), limit, window, ts[|ts| - 1]) <==>
              window == 0 || limit == 0 || limit <= |ts| - RegisterFirst(limit, window, ts)
  {
    hide RegisterFirst, RegisterRun, Registered;
    if window > 0 && limit > 0 { RegisterIsOpenWindow(w, limit, window, ts); }
  }

  /** From a first strike, or one after a longer silence, fewer than the limit within the window keep it open. */
  lemma {:induction false} RegisterStaysOpen(limit: u32, window: u64, ts: seq<u64>, i: nat, m: nat)
    requires Ordered(ts) && i <= m < |ts| && m - i < limit && ts[m] - ts[i] <= window
    requires i == 0 || ts[i] - ts[i - 1] > window
    ensures RegisterFirst(limit, window, ts[..m + 1]) == i
  {
    var before := ts[..m];
    assert ts[..m + 1][..m] == before;
    var o := RegisterOpen(limit, window, before);
    if m > i {
      RegisterStaysOpen(limit, window, ts, i, m - 1);
    } else if o < i {
      assert ts[o] <= ts[i - 1];
    }
  }

  /** So `limit` strikes inside one window that follow a longer silence, or come first, always ban. */
  lemma RegisterBurstBans(w: Window, limit: u32, window: u64, ts: seq<u64>, i: nat)
    requires !w.striking && limit > 0 && window > 0 && Ordered(ts) && i < |ts|
    requires i == 0 || ts[i] - ts[i - 1] > window
    requires |ts| - i == limit && ts[|ts| - 1] - ts[i] <= window
    ensures RegisterBans(RegisterRun(w, limit, window, ts[..|ts| - 1]), limit, window, ts[|ts| - 1])
  {
    hide RegisterBans, RegisterFirst, RegisterRun, Ordered;
    RegisterStaysOpen(limit, window, ts, i, |ts| - 1);
    assert ts[..|ts| - 1 + 1] == ts;
    RegisterBansIff(w, limit, window, ts);
  }

  const TIMES: seq<u64> := [1, 10, 12, 13]

  /** The comment calls this window sliding; three strikes within one window and no ban show that it is not. */
  lemma AnchoredNotSliding()
    ensures forall i :: 0 <= i < 4 ==> !RegisterBans(RegisterRun(Window(0, 0, false), 3, 10, TIMES[..i]), 3, 10, TIMES[i])
    ensures TIMES[3] - TIMES[1] <= 10
  {
    var ts, w0 := TIMES, Window(0, 0, false);
    RegisterSnoc(w0, 3, 10, [], ts[0]);
    RegisterSnoc(w0, 3, 10, [ts[0]], ts[1]);
    RegisterSnoc(w0, 3, 10, [ts[0], ts[1]], ts[2]);
    assert ts[..0] == [] && ts[..1] == [] + [ts[0]] && ts[..2] == [ts[0]] + [ts[1]];
    assert ts[..3] == [ts[0], ts[1]] + [ts[2]];
    assert RegisterRun(w0, 3, 10, ts[..1]) == Window(1, 1, true);
    assert RegisterRun(w0, 3, 10, ts[..2]) == Window(1, 2, true);
    assert RegisterRun(w0, 3, 10, ts[..3]) == Window(12, 1, true);
  }

  lemma RegisterSnoc(w: Window, limit: u32, window: u64, ts: seq<u64>, t: u64)
    ensures RegisterRun(w, limit, window, ts + [t]) == Registered(RegisterRun(w, limit, window, ts), limit, window, t)
  {
    hide Registered;
    assert (ts + [t])[..|ts|] == ts;
  }
}
