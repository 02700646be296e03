/** TTLs of cached responses, from the records of an answer to the TTLs of a hit. */
module CacheTtl {
  import opened Prelude
  import opened Messages
  import opened LruCache
  import opened CacheRuns

  /** How long one record may be cached: its TTL, or the SOA MINIMUM if that is smaller
      (sections 3 and 5 of RFC 2308). In seconds. */
  function Lifetime(rr: RR): nat {
    if rr.data.SOA? && rr.data.minttl < rr.ttl then rr.data.minttl else rr.ttl
  }

  const FOREVER: int := 0x7FFF_FFFF_FFFF_FFFF

  /** The records TTLFromMsg looks at, in its order. */
  function Counted(m: Msg): seq<RR> {
    m.answer + m.ns
  }

  predicate Bears(rrs: seq<RR>) {
    exists i :: 0 <= i < |rrs| && rrs[i].rtype != TYPE_OPT
  }

  /** No longer than the TTL of any record but OPT, nor than the MINIMUM of an SOA. */
  predicate LowerBound(rrs: seq<RR>, t: int) {
    forall i :: 0 <= i < |rrs| && rrs[i].rtype != TYPE_OPT ==>
      && t <= rrs[i].ttl * SECOND
      && (rrs[i].data.SOA? ==> t <= rrs[i].data.minttl * SECOND)
  }

  /** One of these numbers. */
  predicate Attained(rrs: seq<RR>, t: int) {
    exists i :: 0 <= i < |rrs| && rrs[i].rtype != TYPE_OPT &&
      (t == rrs[i].ttl * SECOND || (rrs[i].data.SOA? && t == rrs[i].data.minttl * SECOND))
  }

  /** What TTLFromMsg promises: 0 for what must not be cached, else the least of the TTLs and SOA MINIMUMs
      of the records other than OPT, capped. */
  ghost predicate IsTtlOf(msg: Option<Msg>, maxTtl: int, ttl: int) {
    if msg.None? || msg.value.truncated || !Bears(Counted(msg.value)) then ttl == 0
    else
      exists low :: LowerBound(Counted(msg.value), low) && Attained(Counted(msg.value), low)
        && ttl == Clamp(low, maxTtl)
  }

  function Clamp(low: int, maxTtl: int): int {
    var t := if low > maxTtl then maxTtl else low;
    if t <= 0 then 0 else t
  }

  predicate FitsUint32(rrs: seq<RR>) {
    forall i :: 0 <= i < |rrs| ==> rrs[i].ttl < UINT32
  }

  /** Record TTLs are 32-bit numbers. */
  predicate WellTyped(m: Msg) {
    FitsUint32(m.answer) && FitsUint32(m.ns)
  }

  method TtlFromMsg(msg: Option<Msg>, maxTtl: int) returns (ttl: int)
    requires msg.Some? ==> WellTyped(msg.value)
    ensures IsTtlOf(msg, maxTtl, ttl)
  {
    if msg.None? || msg.value.truncated {
      return 0;
    }
    var low, found := FOREVER, false;
    low, found := ScanSection([], msg.value.answer, low, found);
    assert [] + msg.value.answer == msg.value.answer;
    low, found := ScanSection(msg.value.answer, msg.value.ns, low, found);
    if !found {
      return 0;
    }
    ttl := low;
    if ttl > maxTtl {
      ttl := maxTtl;
    }
    if ttl <= 0 {
      return 0;
    }
    assert LowerBound(Counted(msg.value), low) && Attained(Counted(msg.value), low);
  }

  /** The running minimum over the records seen so far. */
  predicate Scanned(rrs: seq<RR>, low: int, found: bool) {
    if found then LowerBound(rrs, low) && Attained(rrs, low) else !Bears(rrs) && low == FOREVER
  }

  /** One round of the outer loop: the records of one section, after those of `before`. */
  method ScanSection(before: seq<RR>, section: seq<RR>, low0: int, found0: bool) returns (low: int, found: bool)
    requires Scanned(before, low0, found0) && FitsUint32(section)
    ensures Scanned(before + section, low, found)
  {
    low, found := low0, found0;
    assert before + section[..0] == before;
    for i := 0 to |section|
      invariant Scanned(before + section[..i], low, found)
    {
      ScannedNext(before + section[..i], section[i], low, found);
      assert before + section[..i + 1] == (before + section[..i]) + [section[i]];
      if IsOpt(section[i]) {
        continue;
      }
      found := true;
      var t := section[i].ttl * SECOND;
      if section[i].data.SOA? {
        var m := section[i].data.minttl * SECOND;
        if m < t {
          t := m;
        }
      }
      if t < low {
        low := t;
      }
    }
    assert section[..|section|] == section;
  }

  lemma ScannedNext(rrs: seq<RR>, rr: RR, low: int, found: bool)
    requires Scanned(rrs, low, found) && rr.ttl < UINT32
    ensures IsOpt(rr) ==> Scanned(rrs + [rr], low, found)
    ensures !IsOpt(rr) ==>
              Scanned(rrs + [rr], if Lifetime(rr) * SECOND < low then Lifetime(rr) * SECOND else low, true)
  {
    var more := rrs + [rr];
    assert more[|rrs|] == rr;
    if found {
      var i :| 0 <= i < |rrs| && rrs[i].rtype != TYPE_OPT &&
        (low == rrs[i].ttl * SECOND || (rrs[i].data.SOA? && low == rrs[i].data.minttl * SECOND));
      assert more[i] == rrs[i];
    }
  }

  /** A lower bound that is attained is the greatest one. */
  lemma Greatest(rrs: seq<RR>, low: int, other: int)
    requires LowerBound(rrs, low) && Attained(rrs, other)
    ensures low <= other
  {}

  /** The value is unique, so the method computes a function of the message. */
  lemma TtlUnique(msg: Option<Msg>, maxTtl: int, a: int, b: int)
    requires IsTtlOf(msg, maxTtl, a) && IsTtlOf(msg, maxTtl, b)
    ensures a == b
  {
    if msg.Some? && !msg.value.truncated && Bears(Counted(msg.value)) {
      var rrs := Counted(msg.value);
      var low :| LowerBound(rrs, low) && Attained(rrs, low) && a == Clamp(low, maxTtl);
      var other :| LowerBound(rrs, other) && Attained(rrs, other) && b == Clamp(other, maxTtl);
      Greatest(rrs, low, other);
      Greatest(rrs, other, low);
    }
  }

  /** A response is cacheable exactly when it is whole, bears a TTL, and neither the cap nor any TTL or SOA
      MINIMUM is zero. */
  lemma CacheableIff(m: Msg, maxTtl: int, ttl: int)
    requires IsTtlOf(Some(m), maxTtl, ttl)
    ensures ttl > 0 <==>
              && !m.truncated && Bears(Counted(m)) && maxTtl > 0
              && forall i :: 0 <= i < |Counted(m)| && Counted(m)[i].rtype != TYPE_OPT ==>
                   Counted(m)[i].ttl > 0 && (Counted(m)[i].data.SOA? ==> Counted(m)[i].data.minttl > 0)
  {
    var rrs := Counted(m);
    if !m.truncated && Bears(rrs) {
      var low :| LowerBound(rrs, low) && Attained(rrs, low) && ttl == Clamp(low, maxTtl);
      if low > 0 {
        forall i | 0 <= i < |rrs| && rrs[i].rtype != TYPE_OPT
          ensures rrs[i].ttl > 0 && (rrs[i].data.SOA? ==> rrs[i].data.minttl > 0)
        {
          assert low <= rrs[i].ttl * SECOND;
        }
      }
    }
  }

  // ---- end to end ----

  /** ceil(remaining / 1 s) before the conversion to uint32. */
  function CeilSeconds(remaining: int): int {
    (remaining + SECOND - 1) / SECOND
  }

  /** The conversion is harmless exactly while the seconds fit 32 bits. */
  lemma HitTtlExact(remaining: int)
    requires remaining > 0
    ensures HitTtl(remaining) == CeilSeconds(remaining) <==> CeilSeconds(remaining) < UINT32
    ensures CeilSeconds(remaining) >= 1
  {}

  lemma CeilBounds(remaining: int, seconds: int)
    requires 0 < remaining <= seconds * SECOND
    ensures 1 <= CeilSeconds(remaining) <= seconds
    ensures CeilSeconds(remaining) * SECOND < remaining + SECOND
  {}

  /** What a client may be told about records that expire from the cache in `left`: OPT records as stored,
      the others with the TTL the cache has left, rounded up to a second, and never more than they came with
      or than an SOA's MINIMUM. */
  predicate Trustworthy(stored: seq<RR>, got: seq<RR>, left: int) {
    && |got| == |stored|
    && forall i :: 0 <= i < |stored| ==>
         if stored[i].rtype == TYPE_OPT then got[i] == stored[i]
         else
           && got[i] == RR(stored[i].name, stored[i].rtype, got[i].ttl, stored[i].data)
           && 1 <= got[i].ttl < UINT32 && left <= got[i].ttl * SECOND < left + SECOND
           && got[i].ttl <= stored[i].ttl && (stored[i].data.SOA? ==> got[i].ttl <= stored[i].data.minttl)
  }

  lemma TtlBounds(rrs: seq<RR>, low: int, left: int)
    requires FitsUint32(rrs) && LowerBound(rrs, low) && Attained(rrs, low) && 0 < left <= low
    ensures 1 <= HitTtl(left) < UINT32 && left <= HitTtl(left) * SECOND < left + SECOND
    ensures left + SECOND - 1 <= FOREVER
    ensures LowerBound(rrs, HitTtl(left) * SECOND)
  {
    var i :| 0 <= i < |rrs| && rrs[i].rtype != TYPE_OPT;
    CeilBounds(left, rrs[i].ttl);
    HitTtlExact(left);
    forall j | 0 <= j < |rrs| && rrs[j].rtype != TYPE_OPT
      ensures HitTtl(left) <= rrs[j].ttl && (rrs[j].data.SOA? ==> HitTtl(left) <= rrs[j].data.minttl)
    {
      CeilBounds(left, rrs[j].ttl);
      if rrs[j].data.SOA? { CeilBounds(left, rrs[j].data.minttl); }
    }
  }

  lemma SetIsTrustworthy(stored: seq<RR>, got: seq<RR>, ttl: nat, left: int)
    requires TtlsSet(stored, got, ttl) && LowerBound(stored, ttl * SECOND)
    requires 1 <= ttl < UINT32 && left <= ttl * SECOND < left + SECOND
    ensures Trustworthy(stored, got, left)
  {}

  /** How long an entry lives: the engine's TTL, or the cap of the cache if that is smaller. */
  function Life(l: Limits, ttl: int): int {
    if ttl < l.maxTtl then ttl else l.maxTtl
  }

  /** The engine computes the TTL under the cap of the configuration in force, and Put caps it again with
      the cap the cache was made with; a reload changes the first and not the second. Whoever reads the
      entry before it expires is told what it may trust, and no 64-bit number overflows. */
  lemma TtlEndToEnd(l: Limits, key: string, m: Msg, engineCap: int, ttl: int, t0: int, t: int)
    requires WellTyped(m) && IsTtlOf(Some(m), engineCap, ttl) && ttl > 0 && t0 <= t < t0 + Life(l, ttl)
    ensures var left := t0 + Life(l, ttl) - t;
            var got := Handed(Entry(key, m, t0 + Life(l, ttl)), t);
            && Trustworthy(m.answer, got.answer, left) && Trustworthy(m.ns, got.ns, left)
            && got.(answer := m.answer, ns := m.ns) == m
            && left + SECOND - 1 <= FOREVER
  {
    var rrs, left := Counted(m), t0 + Life(l, ttl) - t;
    var low :| LowerBound(rrs, low) && Attained(rrs, low) && ttl == Clamp(low, engineCap);
    TtlBounds(rrs, low, left);
    var got := Handed(Entry(key, m, t0 + Life(l, ttl)), t);
    assert LowerBound(m.answer, HitTtl(left) * SECOND) && LowerBound(m.ns, HitTtl(left) * SECOND) by {
      BoundParts(m.answer, m.ns, HitTtl(left) * SECOND);
    }
    AgedIsSet(m.answer, got.answer, HitTtl(left));
    AgedIsSet(m.ns, got.ns, HitTtl(left));
    SetIsTrustworthy(m.answer, got.answer, HitTtl(left), left);
    SetIsTrustworthy(m.ns, got.ns, HitTtl(left), left);
  }

  lemma BoundParts(a: seq<RR>, b: seq<RR>, t: int)
    requires LowerBound(a + b, t)
    ensures LowerBound(a, t) && LowerBound(b, t)
  {
    assert forall i :: 0 <= i < |a| ==> a[i] == (a + b)[i];
    assert forall i :: 0 <= i < |b| ==> b[i] == (a + b)[|a| + i];
  }

  /** The operations leave the entry of a key alone: no flush and no store under it. */
  predicate LeavesEntry(ops: seq<Op>, key: string) {
    forall i :: 0 <= i < |ops| ==> !ops[i].Flush? && !(Stores(ops[i]) && ops[i].key == key)
  }

  /** A cache that has run through some operations, stored m under key, and gone on with others. */
  function RunWith(l: Limits, before: seq<Op>, key: string, m: Msg, ttl: int, t0: int, after: seq<Op>): CacheState {
    Run(l, EMPTY, before + [Put(key, Some(m), ttl, t0)] + after)
  }

  /** Over whole runs, whatever caps reloads have given the engine: after it stores m under key with the
      TTL of m, and nothing else is stored under key and no flush follows, every hit on key is m with
      TTLs a client may trust. */
  lemma HitTtlOverRuns(l: Limits, before: seq<Op>, key: string, m: Msg, engineCap: int, ttl: int, t0: int,
                       after: seq<Op>, t: int)
    requires l.max >= 1 && WellTyped(m) && IsTtlOf(Some(m), engineCap, ttl) && ttl > 0 && t0 <= t
    requires LeavesEntry(after, key)
    ensures var got := Got(RunWith(l, before, key, m, ttl, t0, after), key, t);
            var left := t0 + Life(l, ttl) - t;
            got.Some? ==>
              && left > 0
              && Trustworthy(m.answer, got.value.answer, left) && Trustworthy(m.ns, got.value.ns, left)
              && got.value.(answer := m.answer, ns := m.ns) == m
  {
    HitIsStored(l, before, key, m, ttl, t0, after, t);
    if t < t0 + Cap(l, ttl) { TtlEndToEnd(l, key, m, engineCap, ttl, t0, t); }
  }

  lemma HitIsStored(l: Limits, before: seq<Op>, key: string, m: Msg, ttl: int, t0: int, after: seq<Op>, t: int)
    requires l.max >= 1 && ttl > 0 && LeavesEntry(after, key)
    ensures var got := Got(RunWith(l, before, key, m, ttl, t0, after), key, t);
            got.Some? ==> got.value == Handed(Entry(key, m, t0 + Cap(l, ttl)), t) && t < t0 + Cap(l, ttl)
  {
    HistoryAfterAll(l, before, key, m, ttl, t0, after);
    HitReturnsLastPut(l, before + [Put(key, Some(m), ttl, t0)] + after, key, t);
    var h := HistoryOf(l, EMPTY, Gone, before + [Put(key, Some(m), ttl, t0)] + after, key);
    assert h.Live? ==> Entry(key, h.msg, h.expires) == Entry(key, m, t0 + Cap(l, ttl));
  }

  /** Two hits on one stored entry in a run of the cache: no TTL of the later one exceeds the same
      record's TTL in the earlier one. */
  lemma HitTtlsDecrease(l: Limits, before: seq<Op>, key: string, m: Msg, engineCap: int, ttl: int, t0: int,
                        after: seq<Op>, more: seq<Op>, t: int, u: int)
    requires l.max >= 1 && WellTyped(m) && IsTtlOf(Some(m), engineCap, ttl) && ttl > 0 && t0 <= t <= u
    requires LeavesEntry(after, key) && LeavesEntry(more, key)
    ensures var first := Got(RunWith(l, before, key, m, ttl, t0, after), key, t);
            var second := Got(RunWith(l, before, key, m, ttl, t0, after + more), key, u);
            first.Some? && second.Some? ==>
              && NoLater(second.value.answer, first.value.answer) && NoLater(second.value.ns, first.value.ns)
  {
    HitTtlOverRuns(l, before, key, m, engineCap, ttl, t0, after, t);
    HitTtlOverRuns(l, before, key, m, engineCap, ttl, t0, after + more, u);
    var first := Got(RunWith(l, before, key, m, ttl, t0, after), key, t);
    var second := Got(RunWith(l, before, key, m, ttl, t0, after + more), key, u);
    var expires := t0 + Life(l, ttl);
    if first.Some? && second.Some? {
      LessLeft(m.answer, first.value.answer, second.value.answer, expires - t, expires - u);
      LessLeft(m.ns, first.value.ns, second.value.ns, expires - t, expires - u);
    }
  }

  /** The same records with TTLs no larger. */
  predicate NoLater(rrs: seq<RR>, than: seq<RR>) {
    && |rrs| == |than|
    && forall i :: 0 <= i < |rrs| ==> rrs[i].ttl <= than[i].ttl && rrs[i].(ttl := than[i].ttl) == than[i]
  }

  lemma LessLeft(stored: seq<RR>, first: seq<RR>, second: seq<RR>, left: int, less: int)
    requires Trustworthy(stored, first, left) && Trustworthy(stored, second, less) && less <= left
    ensures NoLater(second, first)
  {}

  lemma HistoryAfterAll(l: Limits, before: seq<Op>, key: string, m: Msg, ttl: int, t0: int, after: seq<Op>)
    requires ttl > 0 && LeavesEntry(after, key)
    ensures var h := HistoryOf(l, EMPTY, Gone, before + [Put(key, Some(m), ttl, t0)] + after, key);
            h.Live? ==> h.msg == m && h.expires == t0 + Cap(l, ttl)
  {
    var ops := before + [Put(key, Some(m), ttl, t0)];
    HistoryAfterPut(l, before, key, m, ttl, t0);
    RunAppend(l, EMPTY, Gone, ops, after, key);
    HistoryKept(l, Run(l, EMPTY, ops), HistoryOf(l, EMPTY, Gone, ops, key), after, key);
  }

  lemma HistoryAfterPut(l: Limits, before: seq<Op>, key: string, m: Msg, ttl: int, t0: int)
    requires ttl > 0
    ensures HistoryOf(l, EMPTY, Gone, before + [Put(key, Some(m), ttl, t0)], key) == Live(m, t0 + Cap(l, ttl), {})
  {
    RunAppend(l, EMPTY, Gone, before, [Put(key, Some(m), ttl, t0)], key);
  }

  lemma {:induction false} RunAppend(l: Limits, c: CacheState, h: History, a: seq<Op>, b: seq<Op>, key: string)
    ensures Run(l, c, a + b) == Run(l, Run(l, c, a), b)
    ensures HistoryOf(l, c, h, a + b, key) == HistoryOf(l, Run(l, c, a), HistoryOf(l, c, h, a, key), b, key)
    decreases |a|
  {
    if a == [] {
      assert a + b == b;
    } else {
      assert (a + b)[1..] == a[1..] + b && (a + b)[0] == a[0];
      RunAppend(l, Apply(l, c, a[0]), Record(l, c, h, a[0], key), a[1..], b, key);
    }
  }

  lemma {:induction false} HistoryKept(l: Limits, c: CacheState, h: History, ops: seq<Op>, key: string)
    requires LeavesEntry(ops, key)
    ensures h.Live? ==>
              var h' := HistoryOf(l, c, h, ops, key);
              h'.Live? ==> h'.msg == h.msg && h'.expires == h.expires
    ensures h.Gone? ==> HistoryOf(l, c, h, ops, key).Gone?
    decreases |ops|
  {
    if ops != [] { HistoryKept(l, Apply(l, c, ops[0]), Record(l, c, h, ops[0], key), ops[1..], key); }
  }
}
