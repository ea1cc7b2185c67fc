/** Ban records in the dataplane (src/bpf/xdp_firewall.bpf.c): install, refresh and escalate. */
module BanRecords {
  import opened Words
  import opened BanTtls

  datatype Ban = Ban(expiry: u64, firstSeen: u64, lastHit: u64, ttl: u64, offences: u32, permanent: bool, escalated: bool)

  datatype Policy = Policy(base: u64, max: u64, num: u32, den: u32)

  /** One call: the time, the caller's TTL (0 for none) and whether a new record finds room. */
  datatype Call = Call(now: u64, wanted: u64, room: bool)

  function Refreshed(b: Ban, p: Policy, c: Call): u64 {
    Max(if b.ttl == 0 then p.base else b.ttl, c.wanted)
  }

  function Escalated(b: Ban, p: Policy, c: Call): u64 {
    if c.wanted != 0 then c.wanted else NextTtl(b.ttl, p.base, p.max, p.num, p.den)
  }

  function First(p: Policy, c: Call): u64 {
    var ttl := if c.wanted != 0 then c.wanted else p.base;
    if p.max != 0 && ttl > p.max then p.max else ttl
  }

  predicate Serving(r: Option<Ban>, now: u64) {
    r.Some? && r.value.expiry > now && !r.value.permanent
  }

  /** The TTL of the call; 0 when no ban is installed. */
  function Ttl(r: Option<Ban>, p: Policy, c: Call): u64 {
    if Serving(r, c.now) then Refreshed(r.value, p, c)
    else if r.Some? then Escalated(r.value, p, c)
    else if c.room then First(p, c) else 0
  }

  function After(r: Option<Ban>, p: Policy, c: Call): Option<Ban> {
    var ttl := Ttl(r, p, c);
    if ttl == 0 then r
    else if Serving(r, c.now) then Some(r.value.(expiry := Wrap64(c.now + ttl), lastHit := c.now))
    else if r.Some? then
      Some(r.value.(expiry := Wrap64(c.now + ttl), lastHit := c.now, ttl := ttl,
                    offences := (r.value.offences + 1) % U32, escalated := true))
    else Some(Ban(Wrap64(c.now + ttl), c.now, c.now, ttl, 1, false, false))
  }

  /** The record of one source in the ban map. */
  class Record {
    var ban: Option<Ban>

    method Install(p: Policy, c: Call) returns (ttl: u64)
      modifies this
      ensures ttl == Ttl(old(ban), p, c) && ban == After(old(ban), p, c)
    {
      hide NextTtl;
      if ban.Some? {
        var b := ban.value;
        if b.expiry > c.now && !b.permanent {
          ttl := b.ttl;
          if ttl == 0 { ttl := p.base; }
          if c.wanted > ttl { ttl := c.wanted; }
          if ttl == 0 { return 0; }
          ban := Some(b.(expiry := Wrap64(c.now + ttl), lastHit := c.now));
          return ttl;
        }
        if c.wanted != 0 { ttl := c.wanted; } else { ttl := NextTtl(b.ttl, p.base, p.max, p.num, p.den); }
        if ttl == 0 { return 0; }
        ban := Some(b.(expiry := Wrap64(c.now + ttl), lastHit := c.now, ttl := ttl,
                       offences := (b.offences + 1) % U32, escalated := true));
        return ttl;
      }
      ttl := if c.wanted != 0 then c.wanted else p.base;
      if ttl == 0 { return 0; }
      if p.max != 0 && ttl > p.max { ttl := p.max; }
      if !c.room { return 0; }
      ban := Some(Ban(Wrap64(c.now + ttl), c.now, c.now, ttl, 1, false, false));
    }
  }

  function Run(r: Option<Ban>, p: Policy, cs: seq<Call>): Option<Ban> {
    if cs == [] then r else After(Run(r, p, cs[..|cs| - 1]), p, cs[|cs| - 1])
  }

  /** Calls that either name no TTL or the given one. */
  predicate Uses(cs: seq<Call>, wanted: u64) {
    forall i :: 0 <= i < |cs| ==> cs[i].wanted == 0 || cs[i].wanted == wanted
  }

  /** A ceiling that is set, and that neither the base nor the caller's TTL exceeds. */
  predicate Capped(p: Policy, wanted: u64) {
    0 < p.max && p.base <= p.max && wanted <= p.max
  }

  /** Neither the configuration nor the caller ever names a TTL: nothing is ever banned. */
  predicate Idle(p: Policy, wanted: u64) {
    p.base == 0 && wanted == 0
  }

  lemma {:induction false} TtlsStayBelow(p: Policy, wanted: u64, cs: seq<Call>)
    requires (Capped(p, wanted) || Idle(p, wanted)) && Uses(cs, wanted)
    ensures Run(None, p, cs).Some? ==> Capped(p, wanted) && Run(None, p, cs).value.ttl <= p.max
  {
    hide NextTtl;
    if cs != [] {
      var n := |cs| - 1;
      TtlsStayBelow(p, wanted, cs[..n]);
      var r := Run(None, p, cs[..n]);
      if r.Some? { TtlInRange(r.value.ttl, p.base, p.max, p.num, p.den); }
    }
  }

  /** Every ban over every run respects the ceiling. */
  ghost predicate CeilingHolds(p: Policy, wanted: u64) {
    forall cs: seq<Call>, c: Call :: Uses(cs, wanted) && (c.wanted == 0 || c.wanted == wanted) ==>
      Ttl(Run(None, p, cs), p, c) <= p.max
  }

  lemma OneCall(p: Policy, c: Call)
    ensures Run(None, p, [c]) == After(None, p, c)
  {
    assert [c][..0] == [];
  }

  /** A repeat offender's caller-named TTL is not cut to the ceiling, although a first offender's is. */
  lemma RepeatExceedsCeiling(p: Policy, wanted: u64)
    requires 0 < p.max < wanted
    ensures Ttl(Run(None, p, [Call(0, wanted, true)]), p, Call(p.max, wanted, true)) == wanted
    ensures Ttl(None, p, Call(0, wanted, true)) == p.max
  {
    hide NextTtl, Run;
    OneCall(p, Call(0, wanted, true));
  }

  /** A base above the ceiling: the second offence serves the base. */
  lemma BaseExceedsCeiling(p: Policy)
    requires 0 < p.max < p.base
    ensures Ttl(Run(None, p, [Call(0, 0, true)]), p, Call(p.max, 0, true)) == p.base
  {
    hide Run;
    OneCall(p, Call(0, 0, true));
  }

  /** A run and a call that exceed the ceiling whenever one of the guards fails. */
  lemma CeilingIsExceeded(p: Policy, wanted: u64) returns (cs: seq<Call>, c: Call)
    requires !Capped(p, wanted) && !Idle(p, wanted)
    ensures Uses(cs, wanted) && (c.wanted == 0 || c.wanted == wanted) && Ttl(Run(None, p, cs), p, c) > p.max
  {
    hide NextTtl;
    if p.max == 0 {
      cs, c := [], Call(0, wanted, true);
    } else if p.max < wanted {
      cs, c := [Call(0, wanted, true)], Call(p.max, wanted, true);
      RepeatExceedsCeiling(p, wanted);
    } else {
      cs, c := [Call(0, 0, true)], Call(p.max, 0, true);
      BaseExceedsCeiling(p);
    }
  }

  /** The ceiling holds over all runs exactly when it is set and neither the base nor the caller's TTL exceeds it, or nothing bans at all. */
  lemma CeilingIff(p: Policy, wanted: u64)
    ensures CeilingHolds(p, wanted) <==> Capped(p, wanted) || Idle(p, wanted)
  {
    hide NextTtl, Run, After;
    if Capped(p, wanted) || Idle(p, wanted) {
      forall cs: seq<Call>, c: Call | Uses(cs, wanted) && (c.wanted == 0 || c.wanted == wanted)
        ensures Ttl(Run(None, p, cs), p, c) <= p.max
      {
        TtlsStayBelow(p, wanted, cs);
        var r := Run(None, p, cs);
        if r.Some? { TtlInRange(r.value.ttl, p.base, p.max, p.num, p.den); }
      }
    } else {
      var cs, c := CeilingIsExceeded(p, wanted);
      assert Ttl(Run(None, p, cs), p, c) > p.max;
    }
  }

  /** A ban that is being served is prolonged, never escalated: its TTL and offence count stay. */
  lemma ServingDoesNotEscalate(r: Option<Ban>, p: Policy, c: Call)
    requires Serving(r, c.now) && Ttl(r, p, c) != 0
    ensures After(r, p, c).value.ttl == r.value.ttl && After(r, p, c).value.offences == r.value.offences
    ensures After(r, p, c).value.expiry == Wrap64(c.now + Ttl(r, p, c)) && Ttl(r, p, c) >= r.value.ttl
  {
    hide NextTtl;
  }

  // ------------------------------------------------------------------------
  // A record read off the calls that made it
  // ------------------------------------------------------------------------

  /** The TTL that call i was answered with. */
  function TtlAt(p: Policy, cs: seq<Call>, i: nat): u64
    requires i < |cs|
  {
    Ttl(Run(None, p, cs[..i]), p, cs[i])
  }

  /** Call i banned, or prolonged a ban. */
  ghost predicate BansAt(p: Policy, cs: seq<Call>, i: nat) {
    i < |cs| && TtlAt(p, cs, i) != 0
  }

  /** Call i banned while no ban was being served. */
  ghost predicate OffendsAt(p: Policy, cs: seq<Call>, i: nat) {
    BansAt(p, cs, i) && !Serving(Run(None, p, cs[..i]), cs[i].now)
  }

  ghost function Offences(p: Policy, cs: seq<Call>): nat {
    if |cs| == 0 then 0
    else Offences(p, cs[..|cs| - 1]) + if OffendsAt(p, cs, |cs| - 1) then 1 else 0
  }

  /** The last call that banned is h, the last offence o. */
  ghost predicate Latest(p: Policy, cs: seq<Call>, h: nat, o: nat) {
    && o <= h < |cs| && BansAt(p, cs, h) && OffendsAt(p, cs, o)
    && (forall j :: h < j < |cs| ==> !BansAt(p, cs, j))
    && (forall j :: o < j < |cs| ==> !OffendsAt(p, cs, j))
  }

  /** What a record says of its latest calls. */
  ghost predicate Says(p: Policy, cs: seq<Call>, b: Ban, h: nat, o: nat)
    requires h < |cs| && o < |cs|
  {
    && b.lastHit == cs[h].now && b.expiry == Wrap64(cs[h].now + TtlAt(p, cs, h))
    && b.ttl == TtlAt(p, cs, o) && b.offences == Offences(p, cs) % U32 && !b.permanent
  }

  lemma CallStep(r: Option<Ban>, p: Policy, c: Call)
    ensures var ttl, n := Ttl(r, p, c), After(r, p, c);
            && (ttl == 0 ==> n == r)
            && (ttl != 0 ==> n.Some? && n.value.lastHit == c.now && n.value.expiry == Wrap64(c.now + ttl))
            && (ttl != 0 && Serving(r, c.now) ==>
                  n.value.ttl == r.value.ttl && n.value.offences == r.value.offences && !n.value.permanent)
            && (ttl != 0 && !Serving(r, c.now) ==>
                  && n.value.ttl == ttl && (n.value.permanent <==> r.Some? && r.value.permanent)
                  && n.value.offences == if r.Some? then (r.value.offences + 1) % U32 else 1)
  {
    hide NextTtl, Refreshed, Escalated, First;
  }

  lemma LatestStep(p: Policy, cs: seq<Call>, h: nat, o: nat)
    requires |cs| > 0 && Latest(p, cs[..|cs| - 1], h, o)
    ensures var n := |cs| - 1;
            && o <= h < n
            && Latest(p, cs, if BansAt(p, cs, n) then n else h, if OffendsAt(p, cs, n) then n else o)
            && TtlAt(p, cs, h) == TtlAt(p, cs[..n], h) && TtlAt(p, cs, o) == TtlAt(p, cs[..n], o)
  {
    hide Ttl, Serving, Run;
    var n := |cs| - 1;
    forall i | 0 <= i < n
      ensures TtlAt(p, cs[..n], i) == TtlAt(p, cs, i) && BansAt(p, cs[..n], i) == BansAt(p, cs, i)
      ensures OffendsAt(p, cs[..n], i) == OffendsAt(p, cs, i)
    {
      assert cs[..n][..i] == cs[..i];
    }
  }

  lemma LatestFirst(p: Policy, cs: seq<Call>)
    requires |cs| > 0 && OffendsAt(p, cs, |cs| - 1)
    ensures Latest(p, cs, |cs| - 1, |cs| - 1)
  {
  }

  lemma {:induction false} NoRecordNoOffence(p: Policy, cs: seq<Call>)
    requires Run(None, p, cs).None?
    ensures Offences(p, cs) == 0
  {
    hide Ttl, After;
    if |cs| > 0 {
      var n := |cs| - 1;
      CallStep(Run(None, p, cs[..n]), p, cs[n]);
      RecordStays(Run(None, p, cs[..n]), p, cs[n]);
      NoRecordNoOffence(p, cs[..n]);
    }
  }

  lemma RecordStays(r: Option<Ban>, p: Policy, c: Call)
    ensures r.Some? ==> After(r, p, c).Some?
  {
  }

  /**
   * Over every run of calls: a record's deadline is the last call that banned
   * plus the TTL it was answered with; its TTL is that of the last offence; and
   * it counts the offences.
   */
  lemma {:induction false} RecordIsHistory(p: Policy, cs: seq<Call>) returns (h: nat, o: nat)
    requires Run(None, p, cs).Some?
    ensures Latest(p, cs, h, o) && Says(p, cs, Run(None, p, cs).value, h, o)
  {
    hide Ttl, After, Serving, Latest;
    var n := |cs| - 1;
    var r := Run(None, p, cs[..n]);
    CallStep(r, p, cs[n]);
    if r.Some? {
      h, o := RecordIsHistory(p, cs[..n]);
      LatestStep(p, cs, h, o);
      h, o := if BansAt(p, cs, n) then n else h, if OffendsAt(p, cs, n) then n else o;
    } else {
      NoRecordNoOffence(p, cs[..n]);
      NotServing(r, cs[n].now);
      LatestFirst(p, cs);
      h, o := n, n;
    }
  }

  lemma NotServing(r: Option<Ban>, now: u64)
    ensures r.None? ==> !Serving(r, now)
  {
  }

  /** So a source is banned at a time exactly until the TTL of the last banning call has passed. */
  lemma BannedIff(p: Policy, cs: seq<Call>, now: u64) returns (h: nat)
    ensures Serving(Run(None, p, cs), now) ==> Run(None, p, cs).Some?
    ensures Run(None, p, cs).Some? ==>
              && BansAt(p, cs, h) && (forall j :: h < j < |cs| ==> !BansAt(p, cs, j))
              && (Serving(Run(None, p, cs), now) <==> now < Wrap64(cs[h].now + TtlAt(p, cs, h)))
  {
    hide Run, TtlAt;
    h := 0;
    if Run(None, p, cs).Some? {
      var o;
      h, o := RecordIsHistory(p, cs);
    }
  }

  /** A source has a record exactly when some call banned it. */
  lemma {:induction false} RecordIff(p: Policy, cs: seq<Call>)
    ensures Run(None, p, cs).Some? <==> exists i :: 0 <= i < |cs| && BansAt(p, cs, i)
  {
    hide Ttl, After, Serving;
    if |cs| > 0 {
      var n := |cs| - 1;
      var r := Run(None, p, cs[..n]);
      RecordIff(p, cs[..n]);
      CallStep(r, p, cs[n]);
      RecordStays(r, p, cs[n]);
      forall i | 0 <= i < n ensures BansAt(p, cs[..n], i) == BansAt(p, cs, i) {
        assert cs[..n][..i] == cs[..i];
      }
      assert BansAt(p, cs, n) <==> Ttl(r, p, cs[n]) != 0;
    }
  }

  /**
   * The TTL that the next call is answered with: while a ban is served the
   * longer of the last offence's and the caller's; after it the caller's, or
   * else the last offence's escalated; for a new source the caller's or the
   * base, cut to the ceiling, if there is room.
   */
  lemma NextTtlIs(p: Policy, cs: seq<Call>, c: Call) returns (o: nat)
    ensures Run(None, p, cs).Some? ==>
              && OffendsAt(p, cs, o) && (forall j :: o < j < |cs| ==> !OffendsAt(p, cs, j))
              && (Serving(Run(None, p, cs), c.now) ==> Ttl(Run(None, p, cs), p, c) == Max(TtlAt(p, cs, o), c.wanted))
              && (!Serving(Run(None, p, cs), c.now) ==>
                    Ttl(Run(None, p, cs), p, c) ==
                      if c.wanted != 0 then c.wanted else NextTtl(TtlAt(p, cs, o), p.base, p.max, p.num, p.den))
    ensures Run(None, p, cs).None? ==>
              var wish := if c.wanted != 0 then c.wanted else p.base;
              Ttl(Run(None, p, cs), p, c) == if !c.room then 0 else if p.max != 0 then Min(wish, p.max) else wish
  {
    hide Run, TtlAt, NextTtl;
    o := 0;
    if Run(None, p, cs).Some? {
      var h;
      h, o := RecordIsHistory(p, cs);
    }
  }
}
