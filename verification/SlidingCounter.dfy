/**
 * The watcher's per-source match counter (watcher/calywatch.py): a deque of at
 * most `threshold` timestamps that answers for an unbounded sliding window.
 */
module SlidingCounter {
  import opened Words

  /** One weighted match. */
  datatype Match = Match(at: real, weight: nat)

  /** The true sliding window: the weight of all matches no older than the cutoff. */
  function Weight(log: seq<Match>, cutoff: real): nat {
    if log == [] then 0
    else Weight(log[..|log| - 1], cutoff) + (if log[|log| - 1].at >= cutoff then log[|log| - 1].weight else 0)
  }

  lemma WeightSnoc(log: seq<Match>, m: Match, cutoff: real)
    ensures Weight(log + [m], cutoff) == Weight(log, cutoff) + (if m.at >= cutoff then m.weight else 0)
  {
    assert (log + [m])[..|log|] == log;
  }

  lemma {:induction false} WeightMono(log: seq<Match>, early: real, late: real)
    requires early <= late
    ensures Weight(log, late) <= Weight(log, early)
  {
    if log != [] { WeightMono(log[..|log| - 1], early, late); }
  }

  /** Every match once per unit of weight, oldest first. */
  function Stamps(log: seq<Match>): seq<real> {
    if log == [] then []
    else Stamps(log[..|log| - 1]) + Copies(log[|log| - 1].at, log[|log| - 1].weight)
  }

  function Copies(at: real, n: nat): (r: seq<real>)
    ensures |r| == n && forall i :: 0 <= i < n ==> r[i] == at
  {
    if n == 0 then [] else Copies(at, n - 1) + [at]
  }

  lemma StampsSnoc(log: seq<Match>, m: Match)
    ensures Stamps(log + [m]) == Stamps(log) + Copies(m.at, m.weight)
  {
    hide Copies;
    assert (log + [m])[..|log|] == log;
  }

  predicate Ordered(log: seq<Match>) {
    forall i, j :: 0 <= i < j < |log| ==> log[i].at <= log[j].at
  }

  /** The last k elements. */
  function Tail<T>(s: seq<T>, k: nat): seq<T>
    requires k <= |s|
  {
    s[|s| - k..]
  }

  /** In an ordered log the recent stamps are exactly the last Weight(cutoff) ones. */
  lemma {:induction false} RecentIsTail(log: seq<Match>, cutoff: real)
    requires Ordered(log)
    ensures Weight(log, cutoff) <= |Stamps(log)|
    ensures forall i :: 0 <= i < |Stamps(log)| ==>
              (Stamps(log)[i] >= cutoff <==> i >= |Stamps(log)| - Weight(log, cutoff))
    ensures log != [] ==> forall i :: 0 <= i < |Stamps(log)| ==> Stamps(log)[i] <= log[|log| - 1].at
  {
    hide Copies;
    if log != [] {
      var n := |log| - 1;
      RecentIsTail(log[..n], cutoff);
      if log[n].at < cutoff {
        OldLog(log[..n], cutoff, log[n].at);
      }
    }
  }

  lemma {:induction false} OldLog(log: seq<Match>, cutoff: real, at: real)
    requires at < cutoff && forall i :: 0 <= i < |log| ==> log[i].at <= at
    ensures Weight(log, cutoff) == 0
  {
    if log != [] { OldLog(log[..|log| - 1], cutoff, at); }
  }

  /** Dropping the front of a tail leaves a shorter tail. */
  lemma TailDrop<T>(s: seq<T>, k: nat)
    requires 0 < k <= |s|
    ensures Tail(s, k)[1..] == Tail(s, k - 1)
    ensures Tail(s, k)[0] == s[|s| - k]
  {
  }

  lemma TailAppend<T>(s: seq<T>, k: nat, x: T)
    requires k <= |s|
    ensures Tail(s, k) + [x] == Tail(s + [x], k + 1)
  {
  }

  class Counter {
    const maxlen: nat
    var dq: seq<real>
    ghost var log: seq<Match>
    ghost var cutoff: real            // of the last query; nothing older is kept

    ghost predicate Valid()
      reads this
    {
      && Ordered(log)
      && var n := Min(maxlen, Weight(log, cutoff));
         n <= |Stamps(log)| && dq == Tail(Stamps(log), n)
    }

    constructor (threshold: nat)
      ensures Valid() && maxlen == threshold && log == []
    {
      maxlen, dq, log, cutoff := threshold, [], [], 0.0;
    }

    /** A bounded append: a full deque loses its oldest entry. */
    method Append(now: real, ghost all: seq<real>, ghost k: nat) returns (ghost k': nat)
      requires k <= |all| && dq == Tail(all, k) && k <= maxlen
      modifies `dq
      ensures k' == Min(maxlen, k + 1)
      ensures dq == Tail(all + [now], k')
    {
      TailAppend(all, k, now);
      k' := k;
      if maxlen > 0 {
        dq := dq + [now];
        if |dq| > maxlen {
          TailDrop(all + [now], k + 1);
          dq := dq[1..];
        } else {
          k' := k + 1;
        }
      }
    }

    /** Drop what has aged out. */
    method Expire(limit: real, ghost all: seq<real>, ghost k: nat, ghost recent: nat) returns (ghost n: nat)
      requires k <= |all| && dq == Tail(all, k) && recent <= |all|
      requires forall i :: 0 <= i < |all| ==> (all[i] >= limit <==> i >= |all| - recent)
      modifies `dq
      ensures n == Min(k, recent) && dq == Tail(all, n)
    {
      n := k;
      while |dq| > 0 && dq[0] < limit
        invariant n <= k && dq == Tail(all, n) && (n < k ==> recent <= n)
        decreases |dq|
      {
        TailDrop(all, n);
        dq := dq[1..];
        n := n - 1;
      }
    }

    /** Count a weighted match: the answer is the true window weight, capped at the threshold. */
    method Add(now: real, window: real, weight: nat) returns (count: nat)
      requires Valid() && window >= 0.0
      requires now - window >= cutoff || log == []
      requires forall i :: 0 <= i < |log| ==> log[i].at <= now
      modifies this
      ensures Valid() && log == old(log) + [Match(now, weight)] && cutoff == now - window
      ensures count == Min(maxlen, Weight(log, now - window))
    {
      hide Weight, Stamps, Copies, Tail;
      ghost var s := Stamps(log);
      ghost var k := Min(maxlen, Weight(log, cutoff));
      assert s + Copies(now, 0) == s;
      for i := 0 to weight
        invariant log == old(log) && k == Min(maxlen, Min(maxlen, Weight(log, cutoff)) + i)
        invariant cutoff == old(cutoff)
        invariant k <= |s + Copies(now, i)| && dq == Tail(s + Copies(now, i), k)
      {
        CopiesSnoc(s, now, i);
        k := Append(now, s + Copies(now, i), k);
      }
      ghost var log' := log + [Match(now, weight)];
      StampsSnoc(log, Match(now, weight));
      WeightSnoc(log, Match(now, weight), now - window);
      RecentIsTail(log', now - window);
      ghost var n := Expire(now - window, Stamps(log'), k, Weight(log', now - window));
      assert n == Min(maxlen, Weight(log', now - window)) by {
        if log != [] { WeightMono(log, cutoff, now - window); } else { NoWeight(cutoff, now - window); }
      }
      TailLength(Stamps(log'), n);
      log, cutoff := log', now - window;
      return |dq|;
    }

    /** Ask without a match; what is dropped could never count again. */
    method Value(now: real, window: real) returns (count: nat)
      requires Valid() && (now - window >= cutoff || log == [])
      modifies this
      ensures Valid() && log == old(log) && cutoff == now - window
      ensures count == Min(maxlen, Weight(log, now - window))
    {
      hide Weight, Stamps, Tail;
      RecentIsTail(log, now - window);
      ghost var n := Expire(now - window, Stamps(log), Min(maxlen, Weight(log, cutoff)), Weight(log, now - window));
      if log != [] { WeightMono(log, cutoff, now - window); } else { NoWeight(cutoff, now - window); }
      TailLength(Stamps(log), n);
      cutoff := now - window;
      return |dq|;
    }
  }

  lemma NoWeight(a: real, b: real)
    ensures Weight([], a) == Weight([], b) == 0
  {
  }

  lemma TailLength<T>(s: seq<T>, k: nat)
    requires k <= |s|
    ensures |Tail(s, k)| == k
  {
  }

  lemma CopiesSnoc(s: seq<real>, at: real, i: nat)
    ensures s + Copies(at, i) + [at] == s + Copies(at, i + 1)
    ensures Copies(at, 0) == []
  {
  }

  /** A match is due: the unbounded window of the log reaches the threshold and the cooldown is over. */
  predicate Due(log: seq<Match>, threshold: nat, window: real, cooldown: real, lastFire: real)
    requires log != []
  {
    var now := log[|log| - 1].at;
    Weight(log, now - window) >= threshold && now - lastFire >= cooldown
  }

  /** When the rule last fired, over the matches ms that follow the log. */
  function LastFire(log: seq<Match>, ms: seq<Match>, threshold: nat, window: real, cooldown: real, start: real): real {
    if ms == [] then start
    else
      var n := |ms| - 1;
      var before := LastFire(log, ms[..n], threshold, window, cooldown, start);
      if Due(log + ms, threshold, window, cooldown, before) then ms[n].at else before
  }

  /** One rule and one source: the counter and the time it last fired. */
  class Tally {
    const threshold: nat
    const window: real
    const cooldown: real
    const counter: Counter
    var lastFire: real

    ghost predicate Valid()
      reads this, counter
    {
      && window >= 0.0 && counter.Valid() && counter.maxlen == threshold
      && (counter.log != [] ==> counter.cutoff == counter.log[|counter.log| - 1].at - window)
    }

    constructor (threshold: nat, window: real, cooldown: real)
      requires window >= 0.0
      ensures Valid() && fresh(counter) && counter.log == [] && lastFire == 0.0
      ensures this.threshold == threshold && this.window == window && this.cooldown == cooldown
    {
      this.threshold, this.window, this.cooldown := threshold, window, cooldown;
      counter := new Counter(threshold);
      lastFire := 0.0;
    }

    /** A rule fires exactly when the unbounded window reaches the threshold and the cooldown is over. */
    method Handle(now: real, weight: nat) returns (fire: bool)
      requires Valid() && (counter.log != [] ==> counter.log[|counter.log| - 1].at <= now)
      modifies `lastFire, counter
      ensures Valid() && counter.log == old(counter.log) + [Match(now, weight)]
      ensures fire <==> Due(counter.log, threshold, window, cooldown, old(lastFire))
      ensures lastFire == if fire then now else old(lastFire)
    {
      hide Weight, Stamps, Copies, Tail;
      assert forall i :: 0 <= i < |counter.log| ==> counter.log[i].at <= counter.log[|counter.log| - 1].at;
      var count := counter.Add(now, window, weight);
      if count < threshold {
        return false;
      }
      if now - lastFire < cooldown {
        return false;
      }
      lastFire := now;
      return true;
    }

    /** Any ordered sequence of matches: each fires exactly when it is due, given all matches before it. */
    method Watch(ms: seq<Match>) returns (fires: seq<bool>)
      requires Valid() && Ordered(counter.log + ms)
      modifies `lastFire, counter
      ensures Valid() && counter.log == old(counter.log) + ms
      ensures |fires| == |ms|
      ensures forall i :: 0 <= i < |ms| ==>
                (fires[i] <==> Due(old(counter.log) + ms[..i + 1], threshold, window, cooldown,
                                   LastFire(old(counter.log), ms[..i], threshold, window, cooldown, old(lastFire))))
      ensures lastFire == LastFire(old(counter.log), ms, threshold, window, cooldown, old(lastFire))
    {
      hide Weight, Stamps, Copies, Tail, Due, Ordered, LastFire;
      ghost var log, start := counter.log, lastFire;
      fires := [];
      assert log + ms[..0] == log;
      NotFired(log, ms[..0], threshold, window, cooldown, start);
      for n := 0 to |ms|
        invariant Valid() && counter.log == log + ms[..n] && |fires| == n
        invariant lastFire == LastFire(log, ms[..n], threshold, window, cooldown, start)
        invariant forall i :: 0 <= i < n ==>
                    (fires[i] <==> Due(log + ms[..i + 1], threshold, window, cooldown,
                                       LastFire(log, ms[..i], threshold, window, cooldown, start)))
      {
        assert log + ms[..n] + [ms[n]] == log + ms[..n + 1];
        if |log| + n > 0 { OrderedPair(log + ms, |log| + n); }
        assert forall i :: 0 <= i < |log| + n ==> (log + ms[..n])[i] == (log + ms)[i];
        FiredNext(log, ms[..n + 1], threshold, window, cooldown, start);
        assert ms[..n + 1][..n] == ms[..n] && Match(ms[n].at, ms[n].weight) == ms[n];
        var fire := Handle(ms[n].at, ms[n].weight);
        fires := fires + [fire];
      }
      assert ms[..|ms|] == ms;
    }
  }

  lemma OrderedPair(all: seq<Match>, n: nat)
    requires Ordered(all) && 0 < n < |all|
    ensures all[n - 1].at <= all[n].at
  {
  }

  lemma NotFired(log: seq<Match>, ms: seq<Match>, threshold: nat, window: real, cooldown: real, start: real)
    requires |ms| == 0
    ensures LastFire(log, ms, threshold, window, cooldown, start) == start
  {
  }

  lemma FiredNext(log: seq<Match>, ms: seq<Match>, threshold: nat, window: real, cooldown: real, start: real)
    requires |ms| > 0
    ensures var n := |ms| - 1;
            var before := LastFire(log, ms[..n], threshold, window, cooldown, start);
            LastFire(log, ms, threshold, window, cooldown, start)
            == if Due(log + ms, threshold, window, cooldown, before) then ms[n].at else before
  {
    hide Due;
  }
}
