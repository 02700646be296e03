/** Whole runs of the response cache: what a stored key may be lost to, and what a hit returns. */
module CacheRuns {
  import opened Prelude
  import opened Messages
  import opened LruCache

  datatype Op =
    | Get(key: string, now: int)
    | Put(key: string, msg: Option<Msg>, ttl: int, now: int)
    | Flush

  function Apply(l: Limits, c: CacheState, op: Op): CacheState {
    match op
    case Get(key, now) => AfterGet(c, key, now)
    case Put(key, msg, ttl, now) => AfterPut(l, c, key, msg, ttl, now)
    case Flush => c.(list := [])
  }

  function Run(l: Limits, c: CacheState, ops: seq<Op>): CacheState
    decreases |ops|
  {
    if ops == [] then c else Run(l, Apply(l, c, ops[0]), ops[1..])
  }

  function CountGets(ops: seq<Op>): nat {
    if ops == [] then 0 else (if ops[0].Get? then 1 else 0) + CountGets(ops[1..])
  }

  /** The history of one key: nothing usable stored, or the last message put under it, when it
      expires, and the distinct other keys put or hit since the key itself was last put or hit. */
  datatype History = Gone | Live(msg: Msg, expires: int, since: set<string>)

  predicate Stores(op: Op) {
    op.Put? && op.ttl > 0 && op.msg.Some?
  }

  function Cap(l: Limits, ttl: int): int {
    if ttl > l.maxTtl then l.maxTtl else ttl
  }

  function Record(l: Limits, c: CacheState, h: History, op: Op, key: string): History {
    match op
    case Flush => Gone
    case Put(k, msg, ttl, now) =>
      if !Stores(op) then h
      else if k == key then Live(msg.value, now + Cap(l, ttl), {})
      else if h.Live? then h.(since := h.since + {k})
      else h
    case Get(k, now) =>
      if h.Gone? then h
      else if k != key then (if IsHit(c.list, k, now) then h.(since := h.since + {k}) else h)
      else if h.expires <= now then Gone
      else if IsHit(c.list, k, now) then h.(since := {})
      else h
  }

  function HistoryOf(l: Limits, c: CacheState, h: History, ops: seq<Op>, key: string): History
    decreases |ops|
  {
    if ops == [] then h else HistoryOf(l, Apply(l, c, ops[0]), Record(l, c, h, ops[0], key), ops[1..], key)
  }

  /** The keys used more recently than key (all of them when it is absent). */
  function Ahead(list: seq<Entry>, key: string): set<string> {
    if list == [] || list[0].key == key then {} else {list[0].key} + Ahead(list[1..], key)
  }

  /** The invariant relating the list to the history of one key. */
  ghost predicate Agree(l: Limits, c: CacheState, h: History, key: string) {
    && Unique(c.list) && |c.list| <= l.max
    && (Contains(c.list, key) ==>
          && h.Live? && c.list[IndexOf(c.list, key)] == Entry(key, h.msg, h.expires)
          && Ahead(c.list, key) <= h.since)
    && (h.Live? ==> key !in h.since)
    && (h.Live? && !Contains(c.list, key) ==> |h.since| >= l.max)
  }

  lemma {:induction false} AheadKeys(list: seq<Entry>, key: string)
    ensures forall k :: k in Ahead(list, key) ==> k != key && Contains(list, k)
  {
    if list != [] && list[0].key != key { AheadKeys(list[1..], key); }
  }

  /** After removing position i, another key keeps its entry and has no other keys ahead. */
  lemma RemovedOther(list: seq<Entry>, i: nat, key: string)
    requires Unique(list) && i < |list| && list[i].key != key
    ensures Contains(RemoveAt(list, i), key) == Contains(list, key)
    ensures Contains(list, key) ==> RemoveAt(list, i)[IndexOf(RemoveAt(list, i), key)] == list[IndexOf(list, key)]
    ensures Ahead(RemoveAt(list, i), key) == Ahead(list, key) - {list[i].key}
  {
    RemovedEntry(list, i, key);
    RemovedAhead(list, i, key);
  }

  lemma {:induction false} RemovedEntry(list: seq<Entry>, i: nat, key: string)
    requires i < |list| && list[i].key != key
    ensures Contains(RemoveAt(list, i), key) == Contains(list, key)
    ensures Contains(list, key) ==> RemoveAt(list, i)[IndexOf(RemoveAt(list, i), key)] == list[IndexOf(list, key)]
  {
    var rest := RemoveAt(list, i);
    if i == 0 {
      assert rest == list[1..];
    } else {
      assert rest[0] == list[0] && rest[1..] == RemoveAt(list[1..], i - 1);
      RemovedEntry(list[1..], i - 1, key);
    }
  }

  lemma {:induction false} RemovedAhead(list: seq<Entry>, i: nat, key: string)
    requires Unique(list) && i < |list| && list[i].key != key
    ensures Ahead(RemoveAt(list, i), key) == Ahead(list, key) - {list[i].key}
  {
    var rest := RemoveAt(list, i);
    if i == 0 {
      assert rest == list[1..];
      AheadKeys(list[1..], key);
      HeadOnce(list);
    } else {
      assert rest[0] == list[0] && rest[1..] == RemoveAt(list[1..], i - 1);
      RemovedAhead(list[1..], i - 1, key);
    }
  }

  lemma HeadOnce(list: seq<Entry>)
    requires Unique(list) && list != []
    ensures !Contains(list[1..], list[0].key)
  {}

  lemma RemovedSelf(list: seq<Entry>, i: nat)
    requires Unique(list) && i < |list|
    ensures Unique(RemoveAt(list, i)) && !Contains(RemoveAt(list, i), list[i].key)
  {}

  /** Pushing a new entry in front puts one more key ahead of every other. */
  lemma Pushed(list: seq<Entry>, e: Entry, key: string)
    requires Unique(list) && !Contains(list, e.key)
    ensures Unique([e] + list)
    ensures e.key == key ==> IndexOf([e] + list, key) == 0 && Ahead([e] + list, key) == {}
    ensures e.key != key ==>
              && Contains([e] + list, key) == Contains(list, key)
              && (Contains(list, key) ==> ([e] + list)[IndexOf([e] + list, key)] == list[IndexOf(list, key)])
              && Ahead([e] + list, key) == {e.key} + Ahead(list, key)
  {
    assert ([e] + list)[1..] == list;
  }

  /** A hit moves its entry to the front. */
  lemma Moved(list: seq<Entry>, i: nat, key: string)
    requires Unique(list) && i < |list|
    ensures Unique(ToFront(list, i))
    ensures list[i].key == key ==> IndexOf(ToFront(list, i), key) == 0 && Ahead(ToFront(list, i), key) == {}
    ensures list[i].key != key ==>
              && Contains(ToFront(list, i), key) == Contains(list, key)
              && (Contains(list, key) ==> ToFront(list, i)[IndexOf(ToFront(list, i), key)] == list[IndexOf(list, key)])
              && Ahead(ToFront(list, i), key) == {list[i].key} + Ahead(list, key)
  {
    RemovedSelf(list, i);
    Pushed(RemoveAt(list, i), list[i], key);
    if list[i].key != key { RemovedOther(list, i, key); }
  }

  /** Every key of the list but the last one is ahead of the last one. */
  lemma {:induction false} AheadOfTail(list: seq<Entry>)
    requires Unique(list) && list != []
    ensures IndexOf(list, list[|list| - 1].key) == |list| - 1
    ensures |Ahead(list, list[|list| - 1].key)| == |list| - 1
  {
    var tail := list[|list| - 1];
    if |list| > 1 {
      AheadOfTail(list[1..]);
      AheadKeys(list[1..], tail.key);
      HeadOnce(list);
    }
  }

  lemma {:induction false} TailNotAhead(list: seq<Entry>, key: string)
    requires Unique(list) && list != [] && list[|list| - 1].key != key && Contains(list, key)
    ensures list[|list| - 1].key !in Ahead(list, key)
  {
    if list[0].key != key {
      TailNotAhead(list[1..], key);
      assert list[1..][|list| - 2] == list[|list| - 1];
    }
  }

  // ---- one operation ----

  lemma AgreeGet(l: Limits, c: CacheState, h: History, op: Op, key: string)
    requires Agree(l, c, h, key) && op.Get?
    ensures Agree(l, Apply(l, c, op), Record(l, c, h, op, key), key)
  {
    var i := IndexOf(c.list, op.key);
    if i < |c.list| {
      if c.list[i].expires <= op.now {
        RemovedSelf(c.list, i);
        if op.key != key { RemovedOther(c.list, i, key); }
      } else {
        Moved(c.list, i, key);
        if h.Live? && op.key != key { SubsetSize(h.since, h.since + {op.key}); }
      }
    }
  }

  lemma OverwriteSelf(l: Limits, c: CacheState, h: History, op: Op, key: string)
    requires Agree(l, c, h, key) && Stores(op) && Contains(c.list, op.key) && op.key == key
    ensures Agree(l, Apply(l, c, op), Record(l, c, h, op, key), key)
  {}

  lemma OverwriteOther(l: Limits, c: CacheState, h: History, op: Op, key: string)
    requires Agree(l, c, h, key) && Stores(op) && Contains(c.list, op.key) && op.key != key
    ensures Agree(l, Apply(l, c, op), Record(l, c, h, op, key), key)
  {
    ReplacedOther(c.list, IndexOf(c.list, op.key), Entry(op.key, op.msg.value, op.now + Cap(l, op.ttl)), key);
    if h.Live? { SubsetSize(h.since, h.since + {op.key}); }
  }

  /** An entry put in front in place of the old one of its key, seen from another key. */
  lemma ReplacedOther(list: seq<Entry>, i: nat, e: Entry, key: string)
    requires Unique(list) && i < |list| && list[i].key == e.key != key
    ensures var more := [e] + RemoveAt(list, i);
            && Unique(more) && |more| == |list| && Contains(more, key) == Contains(list, key)
            && (Contains(list, key) ==> more[IndexOf(more, key)] == list[IndexOf(list, key)])
            && Ahead(more, key) == {e.key} + Ahead(list, key)
  {
    RemovedSelf(list, i);
    Pushed(RemoveAt(list, i), e, key);
    RemovedOther(list, i, key);
  }

  lemma AgreeOverwrite(l: Limits, c: CacheState, h: History, op: Op, key: string)
    requires Agree(l, c, h, key) && Stores(op) && Contains(c.list, op.key)
    ensures Agree(l, Apply(l, c, op), Record(l, c, h, op, key), key)
  {
    if op.key == key { OverwriteSelf(l, c, h, op, key); } else { OverwriteOther(l, c, h, op, key); }
  }

  /** What is left of a list after making room, for the key put and for the key observed. */
  function Kept(l: Limits, list: seq<Entry>): seq<Entry> {
    if 0 < |list| && l.max <= |list| then list[..|list| - 1] else list
  }

  lemma KeptFacts(l: Limits, list: seq<Entry>, key: string)
    requires Unique(list)
    ensures Unique(Kept(l, list))
    ensures Contains(Kept(l, list), key) ==>
              && Contains(list, key)
              && Kept(l, list)[IndexOf(Kept(l, list), key)] == list[IndexOf(list, key)]
              && Ahead(Kept(l, list), key) == Ahead(list, key)
    ensures Contains(list, key) && !Contains(Kept(l, list), key) ==>
              list != [] && l.max <= |list| && |Ahead(list, key)| == |list| - 1
    ensures !Contains(list, key) ==> !Contains(Kept(l, list), key)
  {
    var n := |list|;
    if 0 < n && l.max <= n {
      assert RemoveAt(list, n - 1) == Kept(l, list);
      RemovedSelf(list, n - 1);
      AheadOfTail(list);
      if list[n - 1].key != key {
        RemovedOther(list, n - 1, key);
        if Contains(list, key) { TailNotAhead(list, key); }
      }
    }
  }

  lemma AgreeInsert(l: Limits, c: CacheState, h: History, op: Op, key: string)
    requires l.max >= 1 && Agree(l, c, h, key) && Stores(op) && !Contains(c.list, op.key)
    ensures Agree(l, Apply(l, c, op), Record(l, c, h, op, key), key)
  {
    var e := Entry(op.key, op.msg.value, op.now + Cap(l, op.ttl));
    var kept := Kept(l, c.list);
    assert Apply(l, c, op).list == [e] + kept;
    KeptFacts(l, c.list, key);
    KeptFacts(l, c.list, op.key);
    Pushed(kept, e, key);
    if op.key != key && h.Live? {
      SubsetSize(h.since, h.since + {op.key});
      if Contains(c.list, key) && !Contains(kept, key) {
        AheadKeys(c.list, key);
        SubsetSize(Ahead(c.list, key) + {op.key}, h.since + {op.key});
      }
    }
  }

  lemma AgreeStep(l: Limits, c: CacheState, h: History, op: Op, key: string)
    requires l.max >= 1 && Agree(l, c, h, key)
    ensures Agree(l, Apply(l, c, op), Record(l, c, h, op, key), key)
  {
    if op.Get? {
      AgreeGet(l, c, h, op, key);
    } else if Stores(op) {
      if Contains(c.list, op.key) { AgreeOverwrite(l, c, h, op, key); } else { AgreeInsert(l, c, h, op, key); }
    }
  }

  lemma {:induction false} AgreeRun(l: Limits, c: CacheState, h: History, ops: seq<Op>, key: string)
    requires l.max >= 1 && Agree(l, c, h, key)
    ensures Agree(l, Run(l, c, ops), HistoryOf(l, c, h, ops, key), key)
    decreases |ops|
  {
    if ops != [] {
      AgreeStep(l, c, h, ops[0], key);
      AgreeRun(l, Apply(l, c, ops[0]), Record(l, c, h, ops[0], key), ops[1..], key);
    }
  }

  // ---- the results ----

  /** LRU over whole runs: a key that was stored and has neither expired nor been flushed is
      absent only if at least max distinct other keys were put or hit since its last use. */
  lemma LruGuarantee(l: Limits, ops: seq<Op>, key: string)
    requires l.max >= 1
    ensures var h := HistoryOf(l, EMPTY, Gone, ops, key);
            h.Live? && |h.since| < l.max ==> Contains(Run(l, EMPTY, ops).list, key)
    ensures |Run(l, EMPTY, ops).list| <= l.max && Unique(Run(l, EMPTY, ops).list)
  {
    AgreeRun(l, EMPTY, Gone, ops, key);
  }

  /** A hit returns the last message put under the key, with only its TTLs rewritten, and only
      before that message expires. */
  lemma HitReturnsLastPut(l: Limits, ops: seq<Op>, key: string, now: int)
    requires l.max >= 1
    ensures var h := HistoryOf(l, EMPTY, Gone, ops, key);
            var got := Got(Run(l, EMPTY, ops), key, now);
            got.Some? ==> h.Live? && now < h.expires && got.value == Handed(Entry(key, h.msg, h.expires), now)
  {
    AgreeRun(l, EMPTY, Gone, ops, key);
  }

  /** Hits and misses account for every Get. */
  lemma {:induction false} GetsCounted(l: Limits, c: CacheState, ops: seq<Op>)
    ensures Run(l, c, ops).hits + Run(l, c, ops).misses == c.hits + c.misses + CountGets(ops)
    decreases |ops|
  {
    if ops != [] { GetsCounted(l, Apply(l, c, ops[0]), ops[1..]); }
  }

  /** How many Gets of the run were answered. */
  function CountAnswered(l: Limits, c: CacheState, ops: seq<Op>): nat
    decreases |ops|
  {
    if ops == [] then 0
    else
      (if ops[0].Get? && Got(c, ops[0].key, ops[0].now).Some? then 1 else 0)
      + CountAnswered(l, Apply(l, c, ops[0]), ops[1..])
  }

  /** The hits are the Gets that were answered. */
  lemma {:induction false} HitsCounted(l: Limits, c: CacheState, ops: seq<Op>)
    ensures Run(l, c, ops).hits == c.hits + CountAnswered(l, c, ops)
    decreases |ops|
  {
    if ops != [] { HitsCounted(l, Apply(l, c, ops[0]), ops[1..]); }
  }

  // ---- when nothing expires the guarantee is exact ----

  /** No Get of the run finds an entry past its expiry. */
  predicate NothingExpires(l: Limits, c: CacheState, ops: seq<Op>)
    decreases |ops|
  {
    ops != [] ==>
      && (ops[0].Get? && Contains(c.list, ops[0].key) ==> IsHit(c.list, ops[0].key, ops[0].now))
      && NothingExpires(l, Apply(l, c, ops[0]), ops[1..])
  }

  ghost predicate Exact(l: Limits, c: CacheState, h: History, key: string) {
    && Agree(l, c, h, key)
    && (Contains(c.list, key) ==> Ahead(c.list, key) == h.since)
  }

  /** What an operation leaves: if the key is present, its history is live and counts exactly the keys
      ahead of it. */
  ghost predicate ExactAfter(l: Limits, c: CacheState, h: History, op: Op, key: string)
  {
    var c', h' := Apply(l, c, op), Record(l, c, h, op, key);
    Contains(c'.list, key) ==> h'.Live? && Ahead(c'.list, key) == h'.since
  }

  lemma ExactHit(l: Limits, c: CacheState, h: History, op: Op, key: string)
    requires l.max >= 1 && Exact(l, c, h, key) && op.Get? && IsHit(c.list, op.key, op.now)
    ensures ExactAfter(l, c, h, op, key)
  {
    AgreeGet(l, c, h, op, key);
    Moved(c.list, IndexOf(c.list, op.key), key);
  }

  lemma ExactOverwrite(l: Limits, c: CacheState, h: History, op: Op, key: string)
    requires l.max >= 1 && Exact(l, c, h, key) && Stores(op) && Contains(c.list, op.key)
    ensures ExactAfter(l, c, h, op, key)
  {
    var i := IndexOf(c.list, op.key);
    AgreeOverwrite(l, c, h, op, key);
    RemovedSelf(c.list, i);
    Pushed(RemoveAt(c.list, i), Entry(op.key, op.msg.value, op.now + Cap(l, op.ttl)), key);
    if op.key != key { RemovedOther(c.list, i, key); }
  }

  lemma ExactStep(l: Limits, c: CacheState, h: History, op: Op, key: string)
    requires l.max >= 1 && Exact(l, c, h, key)
    requires op.Get? && Contains(c.list, op.key) ==> IsHit(c.list, op.key, op.now)
    ensures Exact(l, Apply(l, c, op), Record(l, c, h, op, key), key)
  {
    AgreeStep(l, c, h, op, key);
    if op.Get? && Contains(c.list, op.key) {
      ExactHit(l, c, h, op, key);
    } else if Stores(op) {
      if Contains(c.list, op.key) { ExactOverwrite(l, c, h, op, key); } else { ExactInsert(l, c, h, op, key); }
    }
  }

  lemma ExactInsert(l: Limits, c: CacheState, h: History, op: Op, key: string)
    requires l.max >= 1 && Exact(l, c, h, key) && Stores(op) && !Contains(c.list, op.key)
    ensures ExactAfter(l, c, h, op, key)
  {
    var e := Entry(op.key, op.msg.value, op.now + Cap(l, op.ttl));
    AgreeInsert(l, c, h, op, key);
    KeptFacts(l, c.list, key);
    KeptFacts(l, c.list, op.key);
    Pushed(Kept(l, c.list), e, key);
  }

  lemma {:induction false} ExactRun(l: Limits, c: CacheState, h: History, ops: seq<Op>, key: string)
    requires l.max >= 1 && Exact(l, c, h, key) && NothingExpires(l, c, ops)
    ensures Exact(l, Run(l, c, ops), HistoryOf(l, c, h, ops, key), key)
    decreases |ops|
  {
    if ops != [] {
      ExactStep(l, c, h, ops[0], key);
      ExactRun(l, Apply(l, c, ops[0]), Record(l, c, h, ops[0], key), ops[1..], key);
    }
  }

  lemma {:induction false} AheadShort(list: seq<Entry>, key: string)
    requires Contains(list, key)
    ensures |Ahead(list, key)| < |list|
  {
    if list[0].key != key { AheadShort(list[1..], key); }
  }

  /** As long as no Get meets an expired entry, a key is present exactly when it was stored and
      fewer than max distinct other keys were put or hit since its last use. */
  lemma LruExact(l: Limits, ops: seq<Op>, key: string)
    requires l.max >= 1 && NothingExpires(l, EMPTY, ops)
    ensures var h := HistoryOf(l, EMPTY, Gone, ops, key);
            Contains(Run(l, EMPTY, ops).list, key) <==> h.Live? && |h.since| < l.max
  {
    ExactRun(l, EMPTY, Gone, ops, key);
    var c := Run(l, EMPTY, ops);
    if Contains(c.list, key) { AheadShort(c.list, key); }
  }

  // ---- what "expired entries first" comes to ----

  /** A full cache drops its tail for a new key even when an entry elsewhere has expired and the
      tail has not: expiry is looked at in the tail position only. */
  lemma ExpiredElsewhereStays(l: Limits, c: CacheState, key: string, msg: Msg, ttl: int, now: int, i: nat)
    requires l.max >= 1 && Unique(c.list) && |c.list| == l.max && i < l.max - 1 && ttl > 0
    requires !Contains(c.list, key)
    requires c.list[i].expires < now < c.list[l.max - 1].expires
    ensures var after := AfterPut(l, c, key, Some(msg), ttl, now).list;
            && after[i + 1] == c.list[i]
            && !Contains(after, c.list[l.max - 1].key)
  {
    var n := |c.list| - 1;
    assert RemoveAt(c.list, n) == c.list[..n];
    RemovedSelf(c.list, n);
    RemovedOther(c.list, n, key);
    Pushed(c.list[..n], Entry(key, msg, now + Cap(l, ttl)), c.list[n].key);
  }
}
