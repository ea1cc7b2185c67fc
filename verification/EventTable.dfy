/**
 * The event aggregation table of the daemon (src/user/events.c): one bucket per
 * source, family and reason, a spill slot for congested neighbourhoods, and a
 * flush that reports the busiest buckets.  Counts are unbounded here.
 */
module EventTable {
  import opened Words
  import opened Mixing
  import opened Probing

  const PROBE: nat := 12
  const VERDICT_DROP: nat := 1

  datatype Key = Key(s0: bv32, s1: bv32, s2: bv32, s3: bv32, family: bv32, reason: bv32)

  /** An accepted record and the time it was folded in. */
  datatype Record = Record(key: Key, len: nat, value: u64, ttl: u64, verdict: nat, dport: u16, now: u64)

  datatype Bucket =
    | Unused
    | Used(key: Key, count: nat, bytes: nat, valueMax: u64, ttlMax: u64, verdict: nat,
           dport: u16, portChanges: u32, first: u64, last: u64, emitted: bool)

  function Hash(k: Key): nat {
    (Mix32(k.s0, 0x9E3779B9) ^ Mix32(k.s1 ^ k.s2 ^ k.s3, 0x85EBCA6B)
     ^ Mix32(k.reason ^ (k.family << 16), 0xC2B2AE35)) as nat
  }

  /** A record folded into a bucket. */
  function Fold(b: Bucket, e: Record): (r: Bucket)
    ensures r.Used?
  {
    if b.Unused? then
      Used(e.key, 1, e.len, e.value, e.ttl, e.verdict, e.dport, 0, e.now, e.now, false)
    else
      b.(dport := e.dport,
         portChanges := if b.dport != e.dport && b.portChanges < U32 - 1 then b.portChanges + 1 else b.portChanges,
         count := b.count + 1, bytes := b.bytes + e.len, last := e.now,
         valueMax := Max(b.valueMax, e.value), ttlMax := Max(b.ttlMax, e.ttl),
         verdict := if e.verdict == VERDICT_DROP then VERDICT_DROP else b.verdict)
  }

  function Count(b: Bucket): nat {
    if b.Used? then b.count else 0
  }

  /** The bucket a log alone would give a key. */
  function Summary(log: seq<Record>, k: Key): Bucket {
    if log == [] then Unused
    else
      var e := log[|log| - 1];
      var before := Summary(log[..|log| - 1], k);
      if e.key == k then Fold(before, e) else before
  }

  lemma SummarySnoc(log: seq<Record>, e: Record, k: Key)
    ensures Summary(log + [e], k) == if e.key == k then Fold(Summary(log, k), e) else Summary(log, k)
  {
    hide Fold;
    assert (log + [e])[..|log|] == log;
  }

  function Matching(log: seq<Record>, k: Key): set<nat> {
    set i | 0 <= i < |log| && log[i].key == k
  }

  /** The bytes of a key's records. */
  function Bytes(log: seq<Record>, k: Key): nat {
    if log == [] then 0
    else Bytes(log[..|log| - 1], k) + (if log[|log| - 1].key == k then log[|log| - 1].len else 0)
  }

  /** A summary counts its key's records and their bytes. */
  lemma {:induction false} SummaryCounts(log: seq<Record>, k: Key)
    ensures var b := Summary(log, k);
            && (b.Unused? <==> Matching(log, k) == {})
            && Count(b) == |Matching(log, k)|
            && (b.Used? ==> b.key == k && !b.emitted)
            && Bytes(log, k) == (if b.Used? then b.bytes else 0)
  {
    if log != [] {
      SummaryCounts(log[..|log| - 1], k);
      SummaryGrows(log, k);
    }
  }

  predicate Bounds(b: Bucket, log: seq<Record>, own: set<nat>)
    requires b.Used? && forall i :: i in own ==> i < |log|
  {
    && (forall i :: i in own ==> log[i].value <= b.valueMax && log[i].ttl <= b.ttlMax)
    && (exists i :: i in own && log[i].value == b.valueMax)
    && (exists i :: i in own && log[i].ttl == b.ttlMax)
    && ((exists i :: i in own && log[i].verdict == VERDICT_DROP) <==> b.verdict == VERDICT_DROP)
  }

  predicate Spans(b: Bucket, log: seq<Record>, own: set<nat>)
    requires b.Used? && forall i :: i in own ==> i < |log|
  {
    && (exists i :: i in own && b.first == log[i].now && forall j :: j in own ==> i <= j)
    && (exists i :: i in own && b.last == log[i].now && b.dport == log[i].dport && forall j :: j in own ==> j <= i)
  }

  /** A summary bounds its key's records: peaks, worst verdict, first and last time. */
  lemma {:induction false} SummaryMeans(log: seq<Record>, k: Key)
    requires Summary(log, k).Used?
    ensures Bounds(Summary(log, k), log, Matching(log, k))
    ensures Spans(Summary(log, k), log, Matching(log, k))
  {
    hide Matching, Bounds, Spans, Fold;
    var n := |log| - 1;
    SummaryCounts(log[..n], k);
    SummaryGrows(log, k);
    MatchingInRange(log, k);
    MatchingInRange(log[..n], k);
    if Summary(log[..n], k).Used? {
      SummaryMeans(log[..n], k);
      if log[n].key == k {
        FoldBounds(Summary(log[..n], k), log, Matching(log[..n], k), n);
      } else {
        LongerLog(Summary(log[..n], k), log, Matching(log[..n], k), n);
      }
    } else {
      FirstBounds(log, n);
    }
  }

  /** The records of a key, in order. */
  function Own(log: seq<Record>, k: Key): seq<Record> {
    if log == [] then []
    else
      var e := log[|log| - 1];
      Own(log[..|log| - 1], k) + if e.key == k then [e] else []
  }

  /** How often the port changes from one record to the next. */
  function Changes(rs: seq<Record>): nat {
    if |rs| < 2 then 0
    else Changes(rs[..|rs| - 1]) + if rs[|rs| - 2].dport != rs[|rs| - 1].dport then 1 else 0
  }

  /** A summary counts its key's port changes, and short of a drop it keeps the first verdict. */
  lemma {:induction false} SummaryOrder(log: seq<Record>, k: Key)
    ensures var b, rs := Summary(log, k), Own(log, k);
            && (b.Used? <==> |rs| > 0)
            && (b.Used? ==> b.dport == rs[|rs| - 1].dport && b.portChanges == Min(Changes(rs), U32 - 1)
                            && (b.verdict == VERDICT_DROP || b.verdict == rs[0].verdict))
  {
    if log != [] {
      var n := |log| - 1;
      SummaryOrder(log[..n], k);
      var before := Own(log[..n], k);
      if log[n].key == k { assert Own(log, k)[..|before|] == before; } else { assert Own(log, k) == before; }
    }
  }

  lemma LongerLog(b: Bucket, log: seq<Record>, own: set<nat>, n: nat)
    requires b.Used? && n < |log| && forall i :: i in own ==> i < n
    requires Bounds(b, log[..n], own) && Spans(b, log[..n], own)
    ensures Bounds(b, log, own) && Spans(b, log, own)
  {
    assert forall i :: i in own ==> log[..n][i] == log[i];
  }

  lemma FirstBounds(log: seq<Record>, n: nat)
    requires n < |log|
    ensures Bounds(Fold(Unused, log[n]), log, {n}) && Spans(Fold(Unused, log[n]), log, {n})
  {
    assert n in {n};
  }

  lemma MatchingInRange(log: seq<Record>, k: Key)
    ensures forall i :: i in Matching(log, k) ==> i < |log| && log[i].key == k
  {
  }

  lemma FoldBounds(b: Bucket, log: seq<Record>, own: set<nat>, n: nat)
    requires b.Used? && n < |log| && forall i :: i in own ==> i < n
    requires Bounds(b, log[..n], own) && Spans(b, log[..n], own)
    ensures Bounds(Fold(b, log[n]), log, own + {n}) && Spans(Fold(b, log[n]), log, own + {n})
  {
    var own' := own + {n};
    var m :| m in own && log[..n][m].value == b.valueMax;
    assert m in own' && n in own';
    var l :| l in own && log[..n][l].ttl == b.ttlMax;
    assert l in own';
    var f :| f in own && b.first == log[..n][f].now && forall j :: j in own ==> f <= j;
    assert f in own';
    if b.verdict == VERDICT_DROP {
      var d :| d in own && log[..n][d].verdict == VERDICT_DROP;
      assert d in own';
    }
  }

  lemma SummaryGrows(log: seq<Record>, k: Key)
    requires log != []
    ensures Matching(log, k) == Matching(log[..|log| - 1], k) + (if log[|log| - 1].key == k then {|log| - 1} else {})
    ensures |log| - 1 !in Matching(log[..|log| - 1], k)
  {
  }

  function Keys(t: seq<Bucket>): seq<Home<Key>> {
    seq(|t|, p requires 0 <= p < |t| => if t[p].Unused? then Free else Taken(t[p].key, Hash(t[p].key)))
  }

  function Total(t: seq<Bucket>): nat {
    if t == [] then 0 else Total(t[..|t| - 1]) + Count(t[|t| - 1])
  }

  lemma {:induction false} TotalUpdate(t: seq<Bucket>, p: nat, b: Bucket)
    requires p < |t|
    ensures Total(t[p := b]) + Count(t[p]) == Total(t) + Count(b)
  {
    var n := |t| - 1;
    if p == n {
      assert t[p := b][..n] == t[..n];
    } else {
      assert t[p := b][..n] == t[..n][p := b];
      TotalUpdate(t[..n], p, b);
    }
  }

  /** Every bucket is exactly the summary of its key's records. */
  ghost predicate Exact(t: seq<Bucket>, log: seq<Record>) {
    forall p :: 0 <= p < |t| && t[p].Used? ==> t[p] == Summary(log, t[p].key)
  }

  /** The whole window of k belongs to other keys. */
  predicate Crowded(t: seq<Bucket>, k: Key) {
    |t| > 0 && Passed(Keys(t), k, Hash(k), PROBE)
  }

  ghost predicate Housed(t: seq<Bucket>, k: Key)
    requires |t| > 0
  {
    HasBucket(t, k) || Crowded(t, k)
  }

  /** A record's key has its bucket, or met a window full of other keys. */
  ghost predicate AllHoused(t: seq<Bucket>, log: seq<Record>)
    requires |t| > 0
  {
    forall i :: 0 <= i < |log| ==> Housed(t, log[i].key)
  }

  predicate HasBucket(t: seq<Bucket>, k: Key) {
    exists p :: 0 <= p < |t| && t[p].Used? && t[p].key == k
  }

  /** The records whose key has no bucket. */
  function Homeless(t: seq<Bucket>, log: seq<Record>): set<nat> {
    set i | 0 <= i < |log| && !HasBucket(t, log[i].key)
  }

  /** What holds between flushes, for the records accepted since the last one. */
  ghost predicate Balanced(t: seq<Bucket>, spill: Bucket, live: nat, log: seq<Record>) {
    && |t| > 0
    && Formed(Keys(t), PROBE) && live == |TakenSlots(Keys(t))|
    && Exact(t, log) && AllHoused(t, log)
    && Total(t) + Count(spill) == |log|
    && Count(spill) == |Homeless(t, log)|
  }

  lemma KeysHash(t: seq<Bucket>, k: Key)
    ensures Hashes(Keys(t), k, Hash(k))
  {
    hide Hash;
  }

  lemma KeysUpdate(t: seq<Bucket>, p: nat, b: Bucket)
    requires p < |t| && b.Used?
    ensures Keys(t[p := b]) == Keys(t)[p := Taken(b.key, Hash(b.key))]
    ensures t[p].Used? && t[p].key == b.key ==> Keys(t[p := b]) == Keys(t)
  {
    hide Hash;
  }

  lemma FoldKeepsKey(b: Bucket, e: Record)
    requires b.Used? ==> b.key == e.key
    ensures Fold(b, e).key == e.key && Count(Fold(b, e)) == Count(b) + 1
  {
  }

  /** No bucket and a free probe: the key has no record since the last flush. */
  lemma NoBucketNoRecord(t: seq<Bucket>, log: seq<Record>, k: Key, n: nat)
    requires |t| > 0 && AllHoused(t, log) && Absent(Keys(t), k) && n < PROBE
    requires Keys(t)[Window(Hash(k), n, |t|)].Free?
    ensures Summary(log, k).Unused?
  {
    hide Hash, Window, Summary;
    forall i | 0 <= i < |log|
      ensures log[i].key != k
    {
      assert Housed(t, log[i].key);
      NotHoused(t, k, n);
    }
    assert Matching(log, k) == {};
    SummaryCounts(log, k);
  }

  lemma NotHoused(t: seq<Bucket>, k: Key, n: nat)
    requires |t| > 0 && Absent(Keys(t), k) && n < PROBE
    requires Keys(t)[Window(Hash(k), n, |t|)].Free?
    ensures !Housed(t, k)
  {
    hide Hash, Window;
    forall p | 0 <= p < |t| && t[p].Used?
      ensures t[p].key != k
    {
      assert Keys(t)[p].key == t[p].key;
    }
  }

  /** A record folded into slot p, its key's bucket or a free slot for it, keeps every bucket exact. */
  lemma FoldKeepsExact(t: seq<Bucket>, log: seq<Record>, p: nat, e: Record)
    requires p < |t| && Exact(t, log) && Formed(Keys(t), PROBE)
    requires if t[p].Used? then t[p].key == e.key else Absent(Keys(t), e.key) && Summary(log, e.key).Unused?
    ensures Exact(t[p := Fold(t[p], e)], log + [e])
  {
    hide Hash, Fold, Summary, Placed;
    FoldKeepsKey(t[p], e);
    var t' := t[p := Fold(t[p], e)];
    var v := Keys(t);
    forall q | 0 <= q < |t| && t'[q].Used?
      ensures t'[q] == Summary(log + [e], t'[q].key)
    {
      SummarySnoc(log, e, t'[q].key);
      if q != p {
        assert v[q] == Taken(t[q].key, Hash(t[q].key));
        assert t[p].Used? ==> v[p] == Taken(t[p].key, Hash(t[p].key));
      }
    }
  }

  lemma ExactWithoutBucket(t: seq<Bucket>, log: seq<Record>, e: Record)
    requires Exact(t, log) && Absent(Keys(t), e.key)
    ensures Exact(t, log + [e])
  {
    hide Hash, Fold, Summary;
    forall q | 0 <= q < |t| && t[q].Used?
      ensures t[q] == Summary(log + [e], t[q].key)
    {
      assert Keys(t)[q].key == t[q].key;
      SummarySnoc(log, e, t[q].key);
    }
  }

  /** Buckets never move or vanish between flushes, so housed keys stay housed. */
  lemma HousedStays(t: seq<Bucket>, p: nat, b: Bucket, k: Key)
    requires p < |t| && b.Used? && Housed(t, k)
    requires t[p].Used? ==> t[p].key == b.key
    ensures Housed(t[p := b], k)
  {
    hide Hash, Window;
    KeysUpdate(t, p, b);
    if q :| 0 <= q < |t| && t[q].Used? && t[q].key == k {
      assert t[p := b][q].key == k;
    } else {
      assert Passed(Keys(t[p := b]), k, Hash(k), PROBE);
    }
  }

  lemma AllHousedStays(t: seq<Bucket>, p: nat, b: Bucket, log: seq<Record>, e: Record)
    requires p < |t| && b.Used? && b.key == e.key && AllHoused(t, log)
    requires t[p].Used? ==> t[p].key == b.key
    ensures AllHoused(t[p := b], log + [e])
  {
    hide Housed;
    var log', t' := log + [e], t[p := b];
    forall i | 0 <= i < |log'|
      ensures Housed(t', log'[i].key)
    {
      if i < |log| {
        HousedStays(t, p, b, log[i].key);
      } else {
        OwnBucketHouses(t', p);
      }
    }
  }

  lemma OwnBucketHouses(t: seq<Bucket>, p: nat)
    requires p < |t| && t[p].Used?
    ensures Housed(t, t[p].key)
  {
  }

  /** A record that finds or opens a bucket makes no record homeless, nor houses an earlier one. */
  lemma HousedRecord(t: seq<Bucket>, p: nat, b: Bucket, log: seq<Record>, e: Record)
    requires p < |t| && b.Used? && b.key == e.key
    requires t[p].Used? ==> t[p].key == e.key
    requires t[p].Unused? ==> forall i :: 0 <= i < |log| ==> log[i].key != e.key
    ensures Homeless(t[p := b], log + [e]) == Homeless(t, log)
  {
    var t', log' := t[p := b], log + [e];
    assert t'[p].key == e.key && HasBucket(t', e.key);
    forall i | 0 <= i < |log|
      ensures HasBucket(t', log[i].key) <==> HasBucket(t, log[i].key)
    {
      if HasBucket(t, log[i].key) {
        var q :| 0 <= q < |t| && t[q].Used? && t[q].key == log[i].key;
        assert t'[q].key == log[i].key;
      }
      if HasBucket(t', log[i].key) {
        var q :| 0 <= q < |t| && t'[q].Used? && t'[q].key == log[i].key;
        assert t[q].Used? && t[q].key == log[i].key;
      }
    }
    assert forall i :: 0 <= i < |log| ==> log'[i] == log[i];
  }

  lemma HomelessRecord(t: seq<Bucket>, log: seq<Record>, e: Record)
    requires !HasBucket(t, e.key)
    ensures |Homeless(t, log + [e])| == |Homeless(t, log)| + 1
  {
    hide HasBucket;
    var log' := log + [e];
    assert forall i :: 0 <= i < |log| ==> log'[i] == log[i];
    assert log'[|log|] == e;
    assert Homeless(t, log') == Homeless(t, log) + {|log|};
  }

  lemma AbsentHasNoBucket(t: seq<Bucket>, k: Key)
    requires Absent(Keys(t), k)
    ensures !HasBucket(t, k)
  {
    hide Hash;
    forall p | 0 <= p < |t| && t[p].Used?
      ensures t[p].key != k
    {
      assert Keys(t)[p].key == t[p].key;
    }
  }

  lemma NoRecord(log: seq<Record>, k: Key)
    requires Summary(log, k).Unused?
    ensures forall i :: 0 <= i < |log| ==> log[i].key != k
  {
    hide Summary;
    SummaryCounts(log, k);
    assert forall i :: 0 <= i < |log| && log[i].key == k ==> i in Matching(log, k);
  }

  /** Folding into the key's own bucket keeps the balance. */
  lemma HitBalances(t: seq<Bucket>, spill: Bucket, live: nat, log: seq<Record>, p: nat, e: Record)
    requires Balanced(t, spill, live, log) && p < |t| && t[p].Used? && t[p].key == e.key
    ensures Balanced(t[p := Fold(t[p], e)], spill, live, log + [e])
  {
    hide Hash, Fold, Summary, Formed, Exact, AllHoused, Total, TakenSlots, Homeless;
    FoldKeepsKey(t[p], e);
    HousedRecord(t, p, Fold(t[p], e), log, e);
    KeysUpdate(t, p, Fold(t[p], e));
    FoldKeepsExact(t, log, p, e);
    AllHousedStays(t, p, Fold(t[p], e), log, e);
    TotalUpdate(t, p, Fold(t[p], e));
  }

  /** Opening a bucket in the first free probe keeps the balance. */
  lemma NewBucketBalances(t: seq<Bucket>, spill: Bucket, live: nat, log: seq<Record>, n: nat, e: Record)
    requires Balanced(t, spill, live, log) && n < PROBE && Passed(Keys(t), e.key, Hash(e.key), n)
    requires t[Window(Hash(e.key), n, |t|)].Unused?
    ensures var p := Window(Hash(e.key), n, |t|);
            Balanced(t[p := Fold(t[p], e)], spill, live + 1, log + [e])
  {
    hide Hash, Fold, Summary, Formed, Exact, AllHoused, Total, TakenSlots, Window, Homeless;
    var p := Window(Hash(e.key), n, |t|);
    KeysHash(t, e.key);
    MissIsAbsent(Keys(t), PROBE, e.key, Hash(e.key), n);
    NoBucketNoRecord(t, log, e.key, n);
    NoRecord(log, e.key);
    FoldKeepsKey(t[p], e);
    HousedRecord(t, p, Fold(t[p], e), log, e);
    InsertKeepsForm(Keys(t), PROBE, e.key, Hash(e.key), n);
    KeysUpdate(t, p, Fold(t[p], e));
    FoldKeepsExact(t, log, p, e);
    AllHousedStays(t, p, Fold(t[p], e), log, e);
    TotalUpdate(t, p, Fold(t[p], e));
  }

  /** A full window sends the record to the spill slot, which keeps the balance. */
  lemma SpillBalances(t: seq<Bucket>, spill: Bucket, live: nat, log: seq<Record>, e: Record)
    requires Balanced(t, spill, live, log) && Passed(Keys(t), e.key, Hash(e.key), PROBE)
    ensures Balanced(t, Fold(spill, e), live, log + [e])
  {
    hide Hash, Summary, Formed, Exact, Total, TakenSlots, Window, Homeless, HasBucket;
    KeysHash(t, e.key);
    MissIsAbsent(Keys(t), PROBE, e.key, Hash(e.key), PROBE);
    ExactWithoutBucket(t, log, e);
    AbsentHasNoBucket(t, e.key);
    HomelessRecord(t, log, e);
    var log' := log + [e];
    forall i | 0 <= i < |log'|
      ensures Housed(t, log'[i].key)
    {
      if i < |log| { assert Housed(t, log[i].key); }
    }
  }

  lemma {:induction false} EmptyTable(n: nat)
    ensures Total(seq(n, _ => Unused)) == 0
  {
    var t := seq(n, _ => Unused);
    if n > 0 {
      EmptyTable(n - 1);
      assert t[..n - 1] == seq(n - 1, _ => Unused);
    }
  }

  lemma FreshBalance(t: seq<Bucket>)
    requires |t| > 0 && forall p :: 0 <= p < |t| ==> t[p].Unused?
    ensures Balanced(t, Unused, 0, [])
  {
    EmptyTable(|t|);
    assert t == seq(|t|, _ => Unused);
    assert TakenSlots(Keys(t)) == {};
    assert Homeless(t, []) == {};
  }

  /**
   * The meaning of the balance for one key: all its records since the last
   * flush are in its bucket, or every one of them was spilled; and the spill
   * slot counts exactly the records of such keys.
   */
  lemma KeyIsWholeOrSpilled(t: seq<Bucket>, spill: Bucket, live: nat, log: seq<Record>, k: Key)
    requires Balanced(t, spill, live, log) && Matching(log, k) != {}
    ensures if HasBucket(t, k)
            then (exists p :: 0 <= p < |t| && t[p].Used? && t[p].key == k && t[p].count == |Matching(log, k)|)
                 && Matching(log, k) !! Homeless(t, log)
            else Matching(log, k) <= Homeless(t, log) && Crowded(t, k)
    ensures Count(spill) == |Homeless(t, log)|
  {
    hide Hash, Window, Summary;
    var i :| i in Matching(log, k);
    assert Housed(t, log[i].key);
    if HasBucket(t, k) {
      var p :| 0 <= p < |t| && t[p].Used? && t[p].key == k;
      SummaryCounts(log, k);
    }
  }

  predicate Waiting(b: Bucket) {
    b.Used? && !b.emitted
  }

  /** Slot a outranks slot b: a higher count, or the same count and not a later slot. */
  predicate Outranks(t: seq<Bucket>, a: nat, b: nat)
    requires a < |t| && b < |t|
  {
    Count(t[a]) > Count(t[b]) || (Count(t[a]) == Count(t[b]) && a <= b)
  }

  predicate Picked(t: seq<Bucket>, picks: seq<nat>) {
    forall i :: 0 <= i < |picks| ==> picks[i] < |t| && t[picks[i]].Used?
  }

  /** Pick i outranks every used bucket that the earlier picks left. */
  predicate Ranked(t: seq<Bucket>, picks: seq<nat>) {
    && Picked(t, picks)
    && (forall i, j :: 0 <= i < j < |picks| ==> picks[i] != picks[j])
    && (forall i, q :: 0 <= i < |picks| && 0 <= q < |t| && t[q].Used? && q !in picks[..i] ==> Outranks(t, picks[i], q))
  }

  /** The table with the picked buckets marked. */
  predicate MarkedOnly(t: seq<Bucket>, t': seq<Bucket>, picks: seq<nat>) {
    && |t'| == |t|
    && (forall q :: 0 <= q < |t| ==>
          t'[q] == if q in picks && t[q].Used? then t[q].(emitted := true) else t[q])
  }

  /** The selection is in descending order of count, and no bucket left out has a higher one. */
  lemma RankedMeans(t: seq<Bucket>, picks: seq<nat>)
    requires Ranked(t, picks)
    ensures forall i, j :: 0 <= i < j < |picks| ==> Count(t[picks[i]]) >= Count(t[picks[j]])
    ensures forall i, q :: 0 <= i < |picks| && 0 <= q < |t| && t[q].Used? && q !in picks ==>
              Count(t[picks[i]]) >= Count(t[q])
  {
    forall i, j | 0 <= i < j < |picks|
      ensures Count(t[picks[i]]) >= Count(t[picks[j]])
    {
      assert picks[j] !in picks[..i];
      assert Outranks(t, picks[i], picks[j]);
    }
    forall i, q | 0 <= i < |picks| && 0 <= q < |t| && t[q].Used? && q !in picks
      ensures Count(t[picks[i]]) >= Count(t[q])
    {
      assert Outranks(t, picks[i], q);
    }
  }

  /** The unpicked buckets are the waiting ones. */
  lemma WaitingIsUnpicked(t: seq<Bucket>, t': seq<Bucket>, picks: seq<nat>, q: nat)
    requires MarkedOnly(t, t', picks) && q < |t|
    requires t[q].Used? ==> !t[q].emitted
    ensures Waiting(t'[q]) <==> t[q].Used? && q !in picks
    ensures Waiting(t'[q]) ==> t'[q] == t[q]
  {
  }

  lemma RankedSnoc(t: seq<Bucket>, t': seq<Bucket>, picks: seq<nat>, b: nat)
    requires Ranked(t, picks) && MarkedOnly(t, t', picks) && b < |t| && Waiting(t'[b])
    requires forall p :: 0 <= p < |t| ==> t[p].Used? ==> !t[p].emitted
    requires forall q :: 0 <= q < |t| && Waiting(t'[q]) ==> Outranks(t', b, q)
    ensures Picked(t, picks + [b]) && Ranked(t, picks + [b])
  {
    hide MarkedOnly, Waiting, Count;
    var more := picks + [b];
    WaitingIsUnpicked(t, t', picks, b);
    forall i, q | 0 <= i < |more| && 0 <= q < |t| && t[q].Used? && q !in more[..i]
      ensures Outranks(t, more[i], q)
    {
      if i < |picks| {
        assert more[..i] == picks[..i];
      } else {
        assert more[..i] == picks;
        WaitingIsUnpicked(t, t', picks, q);
      }
    }
  }

  lemma MarkedSnoc(t: seq<Bucket>, t': seq<Bucket>, picks: seq<nat>, b: nat)
    requires MarkedOnly(t, t', picks) && b < |t| && Waiting(t'[b])
    requires t[b].Used? ==> !t[b].emitted
    ensures t'[b] == t[b]
    ensures MarkedOnly(t, t'[b := t'[b].(emitted := true)], picks + [b])
  {
  }

  /** The waiting bucket with the highest count, the first of equals; -1 when none waits. */
  method Best(t: array<Bucket>) returns (b: int)
    ensures -1 <= b < t.Length
    ensures b == -1 <==> forall q :: 0 <= q < t.Length ==> !Waiting(t[q])
    ensures b != -1 ==> Waiting(t[b]) && forall q :: 0 <= q < t.Length && Waiting(t[q]) ==> Outranks(t[..], b, q)
  {
    b := -1;
    for i := 0 to t.Length
      invariant -1 <= b < i
      invariant b == -1 <==> forall q :: 0 <= q < i ==> !Waiting(t[q])
      invariant b != -1 ==> Waiting(t[b]) && forall q :: 0 <= q < i && Waiting(t[q]) ==> Outranks(t[..], b, q)
    {
      if t[i].Used? && !t[i].emitted {
        if b == -1 || t[i].count > t[b].count {
          b := i;
        }
      }
    }
  }

  /** Up to `want` buckets, busiest first; each pick is marked in place. */
  method Select(t: array<Bucket>, want: nat) returns (sel: seq<Bucket>, ghost picks: seq<nat>)
    requires forall p :: 0 <= p < t.Length ==> t[p].Used? ==> !t[p].emitted
    modifies t
    ensures Ranked(old(t[..]), picks) && MarkedOnly(old(t[..]), t[..], picks)
    ensures |sel| == |picks| <= want
    ensures forall i :: 0 <= i < |sel| ==> sel[i] == old(t[..])[picks[i]].(emitted := true)
    ensures |sel| < want ==> forall q :: 0 <= q < t.Length && old(t[q]).Used? ==> q in picks
  {
    hide Outranks, Ranked, MarkedOnly, Waiting;
    ghost var t0 := t[..];
    sel, picks := [], [];
    NothingRanked(t0);
    var k := 0;
    while k < want
      invariant 0 <= k <= want && |sel| == |picks| == k
      invariant Picked(t0, picks) && Ranked(t0, picks) && MarkedOnly(t0, t[..], picks)
      invariant forall i :: 0 <= i < |sel| ==> sel[i] == t0[picks[i]].(emitted := true)
    {
      var b := Best(t);
      if b == -1 {
        forall q | 0 <= q < t.Length && t0[q].Used?
          ensures q in picks
        {
          WaitingIsUnpicked(t0, t[..], picks, q);
        }
        break;
      }
      RankedSnoc(t0, t[..], picks, b);
      MarkedSnoc(t0, t[..], picks, b);
      ghost var marked := t[..][b := t[b].(emitted := true)];
      t[b] := t[b].(emitted := true);
      assert t[..] == marked;
      sel, picks := sel + [t[b]], picks + [b];
      k := k + 1;
    }
  }

  /** The aggregation side of the event consumer. */
  class EventsCtx {
    const agg: array<Bucket>
    var spill: Bucket
    var live: nat
    var overflow: nat
    var accepted: nat
    ghost var log: seq<Record>   // the records since the last flush
    ghost var flushed: nat       // the sum of all flush totals

    ghost predicate Valid()
      reads this, agg
    {
      Balanced(agg[..], spill, live, log) && flushed + |log| == accepted
    }

    constructor (slots: nat)
      requires slots > 0
      ensures Valid() && fresh(agg) && agg.Length == slots && log == [] && accepted == 0
    {
      agg := new Bucket[slots](_ => Unused);
      spill, live, overflow, accepted := Unused, 0, 0, 0;
      log, flushed := [], 0;
      new;
      FreshBalance(agg[..]);
    }

    /** Fold one accepted record into its bucket, a new bucket, or the spill slot. */
    method Add(e: Record)
      requires Valid()
      modifies this, agg
      ensures Valid() && log == old(log) + [e] && accepted == old(accepted) + 1 && flushed == old(flushed)
      ensures overflow == old(overflow) + (if old(Crowded(agg[..], e.key)) then 1 else 0)
      ensures overflow == old(overflow) ==> spill == old(spill)
    {
      hide Hash, Window, Balanced, Fold;
      ghost var t := agg[..];
      NonEmpty(t, spill, live, log);
      var i := 0;
      while i < PROBE
        invariant 0 <= i <= PROBE && t == agg[..] && t != []
        invariant spill == old(spill) && live == old(live) && log == old(log)
        invariant overflow == old(overflow) && accepted == old(accepted) && flushed == old(flushed)
        invariant Passed(Keys(t), e.key, Hash(e.key), i)
      {
        var p := Window(Hash(e.key), i, agg.Length);
        var b := agg[p];
        if b.Used? && b.key == e.key {
          HitBalances(t, spill, live, log, p, e);
          assert Keys(t)[p].key == e.key;
          agg[p] := Fold(b, e);
          assert agg[..] == t[p := Fold(b, e)];
          log, accepted := log + [e], accepted + 1;
          return;
        }
        if b.Unused? {
          NewBucketBalances(t, spill, live, log, i, e);
          agg[p] := Fold(b, e);
          assert agg[..] == t[p := Fold(b, e)];
          live := live + 1;
          log, accepted := log + [e], accepted + 1;
          return;
        }
        i := i + 1;
      }
      SpillBalances(t, spill, live, log, e);
      overflow := overflow + 1;
      spill := Fold(spill, e);
      log, accepted := log + [e], accepted + 1;
    }

    /**
     * Report and start a new window.  `budget` is how many lines the log
     * limiter grants before its first refusal.
     */
    method Flush(top: nat, budget: nat) returns (total: nat, shown: seq<Bucket>, suppressed: nat, ghost picks: seq<nat>)
      requires Valid()
      modifies this, agg
      ensures Valid() && log == [] && accepted == old(accepted)
      ensures total == old(|log|) && flushed == old(flushed) + total
      ensures Ranked(old(agg[..]), picks)
      ensures |shown| + suppressed == |picks| <= top && |shown| <= budget
      ensures suppressed > 0 ==> |shown| == budget
      ensures forall i :: 0 <= i < |shown| ==> shown[i] == old(agg[..])[picks[i]].(emitted := true)
      ensures total > 0 && |picks| < top ==> forall q :: 0 <= q < agg.Length && old(agg[q]).Used? ==> q in picks
    {
      hide Balanced, Ranked;
      ghost var t := agg[..];
      BalanceMeans(t, spill, live, log);
      total := Sum();
      total := total + Count(spill);
      var sel: seq<Bucket> := [];
      picks := [];
      NothingRanked(t);
      if total > 0 {
        sel, picks := Select(agg, top);
      }
      var n := Min(|sel|, budget);
      shown, suppressed := sel[..n], |sel| - n;
      forall i | 0 <= i < agg.Length {
        agg[i] := Unused;
      }
      spill, live := Unused, 0;
      flushed, log := flushed + |log|, [];
      FreshBalance(agg[..]);
    }

    method Sum() returns (total: nat)
      ensures total == Total(agg[..])
    {
      total := 0;
      for i := 0 to agg.Length
        invariant total == Total(agg[..i])
      {
        assert agg[..i + 1][..i] == agg[..i];
        if agg[i].Used? {
          total := total + agg[i].count;
        }
      }
      assert agg[..agg.Length] == agg[..];
    }
  }

  lemma NonEmpty(t: seq<Bucket>, spill: Bucket, live: nat, log: seq<Record>)
    requires Balanced(t, spill, live, log)
    ensures t != []
  {
  }

  lemma NothingRanked(t: seq<Bucket>)
    ensures Ranked(t, []) && MarkedOnly(t, t, [])
  {
  }

  lemma BalanceMeans(t: seq<Bucket>, spill: Bucket, live: nat, log: seq<Record>)
    requires Balanced(t, spill, live, log)
    ensures t != [] && Total(t) + Count(spill) == |log|
    ensures forall p :: 0 <= p < |t| ==> t[p].Used? ==> !t[p].emitted
  {
    hide Summary, Total;
    forall p | 0 <= p < |t| && t[p].Used?
      ensures !t[p].emitted
    {
      SummaryCounts(log, t[p].key);
    }
  }
}
