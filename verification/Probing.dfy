/** Bounded linear probing, as the per-source table and the event table share it. */
module Probing {

  /** The key view of a table: free slots, and keys with the slot number their hash asks for. */
  datatype Home<K> = Free | Taken(key: K, start: nat)

  /** The i-th probed slot; masking by a power of two is the remainder. */
  function Window(start: nat, i: nat, cap: nat): (p: nat)
    requires cap > 0
    ensures p < cap
  {
    (start % cap + i) % cap
  }

  /** The probes of a key are neighbouring slots, from its own on and around the end; no slot is probed twice. */
  lemma WindowWalks(start: nat, i: nat, j: nat, cap: nat)
    requires cap > 0 && i < cap && j < cap
    ensures Window(start, 0, cap) == start % cap
    ensures Window(start, i + 1, cap) == if Window(start, i, cap) + 1 == cap then 0 else Window(start, i, cap) + 1
    ensures Window(start, i, cap) == Window(start, j, cap) ==> i == j
  {
    WindowIs(start % cap, i, cap);
    WindowIs(start % cap, j, cap);
    WindowIs(start % cap, i + 1, cap);
    WindowIs(start % cap, 0, cap);
  }

  lemma WindowIs(a: nat, i: nat, cap: nat)
    requires a < cap && i <= cap
    ensures (a + i) % cap == if a + i < cap then a + i else a + i - cap
  {
    if a + i >= cap { assert (a + i - cap) % cap == a + i - cap; }
  }

  /** Slot p is probe i of its key, behind taken slots only. */
  predicate Behind<K>(t: seq<Home<K>>, p: nat, i: nat)
    requires p < |t| && t[p].Taken?
  {
    Window(t[p].start, i, |t|) == p && forall j :: 0 <= j < i ==> t[Window(t[p].start, j, |t|)].Taken?
  }

  predicate Placed<K>(t: seq<Home<K>>, probe: nat, p: nat)
    requires p < |t| && t[p].Taken?
  {
    exists i :: 0 <= i < probe && Behind(t, p, i)
  }

  /** Every key sits in its own probe window with all earlier window slots taken, and none sits twice. */
  predicate Formed<K(==)>(t: seq<Home<K>>, probe: nat) {
    && (forall p :: 0 <= p < |t| && t[p].Taken? ==> Placed(t, probe, p))
    && (forall p, q :: 0 <= p < q < |t| && t[p].Taken? && t[q].Taken? ==> t[p].key != t[q].key)
  }

  function TakenSlots<K>(t: seq<Home<K>>): set<nat> {
    set p | 0 <= p < |t| && t[p].Taken?
  }

  predicate Absent<K(==)>(t: seq<Home<K>>, k: K) {
    forall p :: 0 <= p < |t| && t[p].Taken? ==> t[p].key != k
  }

  /** The first n probes of k met other keys. */
  predicate Passed<K(==)>(t: seq<Home<K>>, k: K, start: nat, n: nat)
    requires |t| > 0
  {
    forall i :: 0 <= i < n ==>
      t[Window(start, i, |t|)].Taken? && t[Window(start, i, |t|)].key != k
  }

  /** Equal keys hash alike. */
  predicate Hashes<K(==)>(t: seq<Home<K>>, k: K, start: nat) {
    forall p :: 0 <= p < |t| && t[p].Taken? && t[p].key == k ==> t[p].start == start
  }

  /** A probe that ends at a free slot, or after the whole window, has searched the whole table. */
  lemma MissIsAbsent<K>(t: seq<Home<K>>, probe: nat, k: K, start: nat, n: nat)
    requires Formed(t, probe) && |t| > 0 && n <= probe && Hashes(t, k, start)
    requires Passed(t, k, start, n)
    requires n < probe ==> t[Window(start, n, |t|)].Free?
    ensures Absent(t, k)
  {
    hide Window;
    forall p | 0 <= p < |t| && t[p].Taken?
      ensures t[p].key != k
    {
      var i :| 0 <= i < probe && Behind(t, p, i);
      PassedOver(t, probe, k, start, n, p, i);
    }
  }

  lemma PassedOver<K>(t: seq<Home<K>>, probe: nat, k: K, start: nat, n: nat, p: nat, i: nat)
    requires p < |t| && t[p].Taken? && n <= probe && i < probe && Behind(t, p, i) && Hashes(t, k, start)
    requires Passed(t, k, start, n)
    requires n < probe ==> t[Window(start, n, |t|)].Free?
    ensures t[p].key != k
  {
    hide Window;
  }

  /** A new key stored at its probe n keeps the table formed. */
  lemma InsertKeepsForm<K>(t: seq<Home<K>>, probe: nat, k: K, start: nat, n: nat)
    requires Formed(t, probe) && |t| > 0 && n < probe && Absent(t, k)
    requires forall i :: 0 <= i < n ==> t[Window(start, i, |t|)].Taken?
    ensures var p := Window(start, n, |t|);
            var t' := t[p := Taken(k, start)];
            && Formed(t', probe)
            && |TakenSlots(t')| == |TakenSlots(t)| + (if t[p].Taken? then 0 else 1)
  {
    hide Window;
    var p := Window(start, n, |t|);
    var t' := t[p := Taken(k, start)];
    forall q | 0 <= q < |t| && t'[q].Taken?
      ensures Placed(t', probe, q)
    {
      if q == p {
        assert Behind(t', p, n);
      } else {
        var i :| 0 <= i < probe && Behind(t, q, i);
        assert Behind(t', q, i);
      }
    }
    if t[p].Taken? {
      assert TakenSlots(t') == TakenSlots(t);
    } else {
      assert TakenSlots(t') == TakenSlots(t) + {p};
    }
  }
}
