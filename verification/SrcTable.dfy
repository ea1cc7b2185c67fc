/**
 * The per-source memory of the autotune controller (src/user/autotune.c): an
 * open-addressed table with an 8-slot probe window that recycles the coldest
 * slot under pressure.  It refines a lossy map from sources to histories.
 */
module SrcTable {
  import opened Words
  import opened Mixing
  import opened Probing

  const PROBE: nat := 8
  const AF_INET: bv32 := 4
  const AF_INET6: bv32 := 6

  datatype Key = Key(family: bv32, a0: bv32, a1: bv32, a2: bv32, a3: bv32)

  /** What the controller remembers about a source. */
  datatype History = History(prevDrops: u64, prevPkts: u64, ttl: u64, lastBan: u64, banExpires: u64, offences: u32)

  const BLANK: History := History(0, 0, 0, 0, 0, 0)

  /** A slot whose key has family 0 is empty. */
  datatype Slot = Slot(key: Key, history: History, seen: u64)

  predicate ValidKey(k: Key) {
    || (k.family == AF_INET && k.a0 != 0)
    || (k.family == AF_INET6 && (k.a0 | k.a1 | k.a2 | k.a3) != 0)
  }

  function Hash(k: Key): nat {
    var h0 := Mix32(k.a0, 0x51ED270B);
    var h1 := Mix32(h0 ^ k.a1, 0x2F1B3C5D);
    var h2 := Mix32(h1 ^ k.a2, 0x7A1E9C3F);
    var h3 := Mix32(h2 ^ k.a3, 0x1B873593);
    Mix32(h3 ^ k.family, 0x9E3779B9) as nat
  }

  /** The key view of the table. */
  function Keys(t: seq<Slot>): seq<Home<Key>> {
    seq(|t|, p requires 0 <= p < |t| => if t[p].key.family == 0 then Free else Taken(t[p].key, Hash(t[p].key)))
  }

  /** What every reachable table satisfies. */
  ghost predicate WellFormed(t: seq<Slot>, used: nat) {
    Formed(Keys(t), PROBE) && used == |TakenSlots(Keys(t))|
  }

  lemma KeysHash(t: seq<Slot>, k: Key)
    ensures Hashes(Keys(t), k, Hash(k))
  {
    hide Hash;
  }

  lemma KeysUpdate(t: seq<Slot>, p: nat, s: Slot)
    requires p < |t| && s.key.family != 0
    ensures Keys(t[p := s]) == Keys(t)[p := Taken(s.key, Hash(s.key))]
    ensures t[p].key == s.key ==> Keys(t[p := s]) == Keys(t)
  {
    hide Hash;
  }

  predicate Unknown(t: seq<Slot>, k: Key) {
    forall p :: 0 <= p < |t| ==> t[p].key != k
  }

  /** A slot may be given to k at probe n once the probes before it, and the whole table, are known not to hold k. */
  lemma GiveSlot(t: seq<Slot>, used: nat, k: Key, n: nat, s: Slot)
    requires WellFormed(t, used) && |t| > 0 && k.family != 0 && n < PROBE && s.key == k
    requires Absent(Keys(t), k) && Passed(Keys(t), k, Hash(k), n)
    ensures var p := Window(Hash(k), n, |t|);
            WellFormed(t[p := s], if t[p].key.family == 0 then used + 1 else used)
    ensures Unknown(t, k)
  {
    hide Hash, Formed, Window, TakenSlots;
    InsertKeepsForm(Keys(t), PROBE, k, Hash(k), n);
    KeysUpdate(t, Window(Hash(k), n, |t|), s);
    forall p | 0 <= p < |t|
      ensures t[p].key != k
    {
      assert Keys(t)[p].Taken? ==> Keys(t)[p].key == t[p].key;
    }
  }

  /** One lookup as a relation on tables: slot r now belongs to k. */
  predicate Looked(t: seq<Slot>, k: Key, now: u64, t': seq<Slot>, r: nat, created: bool) {
    && |t'| == |t| && r < |t|
    && t'[r].key == k && t'[r].seen == now
    && (forall p :: 0 <= p < |t| && p != r ==> t'[p] == t[p])
    && (if created then Unknown(t, k) && t'[r].history == BLANK else t[r].key == k && t'[r].history == t[r].history)
  }

  /** The coldest slot of a full window; of equally cold ones the last probed. */
  predicate Coldest(t: seq<Slot>, k: Key, n: nat)
    requires n < PROBE && |t| > 0
  {
    forall i :: 0 <= i < PROBE ==>
      var s := t[Window(Hash(k), i, |t|)].seen;
      t[Window(Hash(k), n, |t|)].seen <= s && (i > n ==> t[Window(Hash(k), n, |t|)].seen < s)
  }

  ghost predicate Stores(t: seq<Slot>, k: Key, s: Slot) {
    exists p :: 0 <= p < |t| && t[p].key == k && t[p] == s
  }

  /**
   * A lookup is a step of a lossy map: it returns the source's own last record
   * or a blank one, and every other record survives unless it is the one recycled.
   */
  lemma LookupRefinesLossyMap(t: seq<Slot>, k: Key, now: u64, t': seq<Slot>, r: nat, created: bool, o: Key, s: Slot)
    requires Looked(t, k, now, t', r, created) && o != k
    ensures Stores(t', o, s) ==> Stores(t, o, s)
    ensures Stores(t, o, s) ==> Stores(t', o, s) || (created && o == t[r].key)
    ensures Stores(t', k, t'[r])
    ensures !created ==> Stores(t, k, t[r]) && t'[r].history == t[r].history
    ensures created ==> (forall h :: !Stores(t, k, h)) && t'[r].history == BLANK
  {
    assert Stores(t', k, t'[r]);
    if Stores(t', o, s) {
      var p :| 0 <= p < |t'| && t'[p].key == o && t'[p] == s;
      assert t[p] == s;
    }
    if Stores(t, o, s) {
      var p :| 0 <= p < |t| && t[p].key == o && t[p] == s;
      assert p != r ==> t'[p] == s;
    }
  }

  /** Every record in the table is the last one written for its source. */
  ghost predicate Faithful(t: seq<Slot>, last: map<Key, History>) {
    forall p :: 0 <= p < |t| && t[p].key.family != 0 ==> t[p].key in last && last[t[p].key] == t[p].history
  }

  lemma FaithfulWrite(t: seq<Slot>, used: nat, last: map<Key, History>, p: nat, s: Slot)
    requires WellFormed(t, used) && Faithful(t, last) && p < |t| && s.key.family != 0
    requires s.key == t[p].key || Unknown(t, s.key)
    ensures Faithful(t[p := s], last[s.key := s.history])
  {
    hide Hash, Placed;
    var v := Keys(t);
    forall q | 0 <= q < |t| && q != p && t[q].key.family != 0
      ensures t[q].key != s.key
    {
      assert v[q] == Taken(t[q].key, Hash(t[q].key));
      assert s.key == t[p].key ==> v[p] == Taken(s.key, Hash(s.key));
    }
  }

  class SourceTable {
    const slots: array<Slot>
    var used: nat
    ghost var last: map<Key, History>   // the latest record of every source ever seen

    ghost predicate Valid()
      reads this, slots
    {
      WellFormed(slots[..], used) && Faithful(slots[..], last)
    }

    /** A zeroed table; capacity 0 stands for a failed allocation. */
    constructor (cap: nat)
      ensures Valid() && slots.Length == cap && used == 0 && fresh(slots)
    {
      var blank := Slot(Key(0, 0, 0, 0, 0), BLANK, 0);
      slots := new Slot[cap](_ => blank);
      used := 0;
      last := map[];
      new;
      assert TakenSlots(Keys(slots[..])) == {};
    }

    /** A blank record for k at its probe n: a free slot, or any slot of a window that does not hold k. */
    method Give(k: Key, n: nat, now: u64)
      requires Valid() && slots.Length > 0 && k.family != 0 && n < PROBE
      requires Passed(Keys(slots[..]), k, Hash(k), n)
      requires Keys(slots[..])[Window(Hash(k), n, slots.Length)].Free? || Passed(Keys(slots[..]), k, Hash(k), PROBE)
      modifies `used, `last, slots
      ensures Valid() && Unknown(old(slots[..]), k) && last == old(last)[k := BLANK]
      ensures slots[..] == old(slots[..])[Window(Hash(k), n, slots.Length) := Slot(k, BLANK, now)]
    {
      hide Window, Hash, WellFormed, Absent, Unknown, Faithful;
      ghost var t := slots[..];
      var p := Window(Hash(k), n, slots.Length);
      Miss(t, used, k, if Keys(t)[p].Free? then n else PROBE);
      GiveSlot(t, used, k, n, Slot(k, BLANK, now));
      FaithfulWrite(t, used, last, p, Slot(k, BLANK, now));
      if slots[p].key.family == 0 {
        used := used + 1;
      }
      slots[p] := Slot(k, BLANK, now);
      last := last[k := BLANK];
      assert slots[..] == t[p := Slot(k, BLANK, now)];
    }

    /** The source's slot, found, taken or recycled; none for an invalid address or a table without slots. */
    method Get(k: Key, now: u64) returns (r: int, created: bool)
      requires Valid()
      modifies `used, `last, slots
      ensures Valid()
      ensures r == -1 <==> slots.Length == 0 || !ValidKey(k)
      ensures r == -1 ==> slots[..] == old(slots[..]) && !created
      ensures last == if created then old(last)[k := BLANK] else old(last)
      ensures r != -1 ==> 0 <= r < slots.Length && Looked(old(slots[..]), k, now, slots[..], r, created)
      ensures r != -1 ==> k in last && slots[r].history == last[k]
      ensures created && old(slots[..])[r].key.family != 0 ==>
                Passed(Keys(old(slots[..])), k, Hash(k), PROBE)
                && exists n :: 0 <= n < PROBE && Window(Hash(k), n, slots.Length) == r && Coldest(old(slots[..]), k, n)
    {
      hide Window, Hash, WellFormed, Absent, Unknown, Faithful;
      created := false;
      if slots.Length == 0 || !ValidKey(k) {
        return -1, false;
      }
      ghost var t := slots[..];
      KeysHash(t, k);
      var i := 0;
      var victim, oldest: u64 := 0, U64 - 1;
      while i < PROBE
        invariant 0 <= i <= PROBE && t == slots[..] && used == old(used) && last == old(last)
        invariant Passed(Keys(t), k, Hash(k), i)
        invariant victim < PROBE && (i > 0 ==> victim < i && oldest == t[Window(Hash(k), victim, |t|)].seen)
        invariant forall j :: 0 <= j < i ==>
                    var s := t[Window(Hash(k), j, |t|)].seen;
                    oldest <= s && (j > victim ==> oldest < s)
        invariant i == 0 ==> oldest == U64 - 1
      {
        var p := Window(Hash(k), i, slots.Length);
        if slots[p].key.family == 0 {
          Give(k, i, now);
          return p, true;
        }
        if slots[p].key == k {
          Touch(t, used, p, slots[p].(seen := now));
          SeenKeepsFaith(t, last, p, now);
          slots[p] := slots[p].(seen := now);
          assert slots[..] == t[p := t[p].(seen := now)];
          return p, false;
        }
        if slots[p].seen <= oldest {
          oldest, victim := slots[p].seen, i;
        }
        i := i + 1;
      }
      var p := Window(Hash(k), victim, slots.Length);
      assert Coldest(t, k, victim);
      Give(k, victim, now);
      return p, true;
    }

    /** The caller's update of the record a lookup returned. */
    method Remember(r: nat, h: History)
      requires Valid() && r < slots.Length && slots[r].key.family != 0
      modifies `last, slots
      ensures Valid() && slots[..] == old(slots[..])[r := old(slots[r]).(history := h)]
      ensures last == old(last)[slots[r].key := h]
    {
      hide WellFormed, Faithful;
      ghost var t := slots[..];
      Touch(t, used, r, slots[r].(history := h));
      FaithfulWrite(t, used, last, r, slots[r].(history := h));
      slots[r] := slots[r].(history := h);
      last := last[slots[r].key := h];
      assert slots[..] == t[r := t[r].(history := h)];
    }
  }

  lemma SeenKeepsFaith(t: seq<Slot>, last: map<Key, History>, p: nat, now: u64)
    requires Faithful(t, last) && p < |t| && t[p].key.family != 0
    ensures Faithful(t[p := t[p].(seen := now)], last)
    ensures t[p].key in last && last[t[p].key] == t[p].history
  {
  }

  lemma Miss(t: seq<Slot>, used: nat, k: Key, n: nat)
    requires WellFormed(t, used) && |t| > 0 && n <= PROBE && Passed(Keys(t), k, Hash(k), n)
    requires n < PROBE ==> Keys(t)[Window(Hash(k), n, |t|)].Free?
    ensures Absent(Keys(t), k)
  {
    hide Hash, Window, Formed;
    KeysHash(t, k);
    MissIsAbsent(Keys(t), PROBE, k, Hash(k), n);
  }

  /** Rewriting a slot under its own key keeps the table well formed. */
  lemma Touch(t: seq<Slot>, used: nat, p: nat, s: Slot)
    requires WellFormed(t, used) && p < |t| && s.key == t[p].key && s.key.family != 0
    ensures WellFormed(t[p := s], used)
  {
    hide Hash, Formed;
    KeysUpdate(t, p, s);
  }
}
