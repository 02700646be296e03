/** The response cache: a recency list of entries plus an index map, with per-entry expiry. */
module LruCache {
  import opened Prelude
  import opened Messages

  datatype Entry = Entry(key: string, msg: Msg, expires: int)

  /** Capacity (positive, as the configuration demands) and the cap on stored TTLs. */
  datatype Limits = Limits(max: int, maxTtl: int)

  datatype CacheState = CacheState(list: seq<Entry>, hits: nat, misses: nat)

  const EMPTY := CacheState([], 0, 0)

  // ---- the recency sequence ----

  /** Position of the entry under key, |list| if there is none. */
  function IndexOf(list: seq<Entry>, key: string): (i: nat)
    ensures i <= |list|
    ensures i < |list| ==> list[i].key == key
    ensures forall j :: 0 <= j < i ==> list[j].key != key
  {
    if list == [] then 0
    else if list[0].key == key then 0
    else 1 + IndexOf(list[1..], key)
  }

  predicate Contains(list: seq<Entry>, key: string) {
    IndexOf(list, key) < |list|
  }

  ghost predicate Unique(list: seq<Entry>) {
    forall i, j :: 0 <= i < j < |list| ==> list[i].key != list[j].key
  }

  function RemoveAt<T>(s: seq<T>, i: nat): seq<T>
    requires i < |s|
  {
    s[..i] + s[i + 1..]
  }

  function ToFront<T>(s: seq<T>, i: nat): seq<T>
    requires i < |s|
  {
    [s[i]] + RemoveAt(s, i)
  }

  /** uint32((remaining + Second - 1) / Second), at least 1. */
  function HitTtl(remaining: int): nat {
    var t := ((remaining + SECOND - 1) / SECOND) % UINT32;
    if t < 1 then 1 else t
  }

  predicate IsHit(list: seq<Entry>, key: string, now: int) {
    Contains(list, key) && now < list[IndexOf(list, key)].expires
  }

  function AfterGet(c: CacheState, key: string, now: int): CacheState {
    var i := IndexOf(c.list, key);
    if i == |c.list| then c.(misses := c.misses + 1)
    else if c.list[i].expires <= now then c.(list := RemoveAt(c.list, i), misses := c.misses + 1)
    else c.(list := ToFront(c.list, i), hits := c.hits + 1)
  }

  function Got(c: CacheState, key: string, now: int): Option<Msg> {
    if IsHit(c.list, key, now) then Some(Handed(c.list[IndexOf(c.list, key)], now)) else None
  }

  /** What a hit on e hands out. */
  function Handed(e: Entry, now: int): Msg {
    AgedMsg(e.msg, HitTtl(e.expires - now))
  }

  /** Entry i is the one under the key, and has not expired. */
  predicate LiveAt(list: seq<Entry>, key: string, now: int, i: nat) {
    i < |list| && list[i].key == key && now < list[i].expires && forall j :: 0 <= j < i ==> list[j].key != key
  }

  /** What a Get returns: the message of the live entry of the key with its TTLs set, and nothing otherwise. */
  lemma GotIsLive(c: CacheState, key: string, now: int)
    ensures Got(c, key, now).Some? <==> exists i :: 0 <= i < |c.list| && LiveAt(c.list, key, now, i)
    ensures forall i :: 0 <= i < |c.list| && LiveAt(c.list, key, now, i) && Got(c, key, now).Some? ==>
              OnlyTtlsSet(c.list[i].msg, Got(c, key, now).value, HitTtl(c.list[i].expires - now))
  {
    forall i | 0 <= i < |c.list| && LiveAt(c.list, key, now, i)
      ensures i == IndexOf(c.list, key)
    {}
    if Got(c, key, now).Some? {
      var e := c.list[IndexOf(c.list, key)];
      assert LiveAt(c.list, key, now, IndexOf(c.list, key));
      AgedIsSet(e.msg.answer, Handed(e, now).answer, HitTtl(e.expires - now));
      AgedIsSet(e.msg.ns, Handed(e, now).ns, HitTtl(e.expires - now));
    }
  }

  /** The list with e in front: in place of its old entry, or, in a full list, of the tail. */
  function Stored(max: int, list: seq<Entry>, e: Entry): seq<Entry> {
    var i := IndexOf(list, e.key);
    if i < |list| then [e] + RemoveAt(list, i)
    else if 0 < |list| && max <= |list| then [e] + list[..|list| - 1]
    else [e] + list
  }

  /** A non-positive ttl or a missing message changes nothing; ttl is capped. */
  function AfterPut(l: Limits, c: CacheState, key: string, msg: Option<Msg>, ttl: int, now: int): CacheState {
    if ttl <= 0 || msg.None? then c
    else c.(list := Stored(l.max, c.list, Entry(key, msg.value, now + if ttl > l.maxTtl then l.maxTtl else ttl)))
  }

  // ---- the object ----

  /** A list element with its entry; the entry is updated in place. */
  class Element {
    const key: string
    var msg: Msg
    var expires: int

    constructor (key: string, msg: Msg, expires: int)
      ensures this.key == key && this.msg == msg && this.expires == expires
    {
      this.key, this.msg, this.expires := key, msg, expires;
    }
  }

  function PosOf(lru: seq<Element>, el: Element): (i: nat)
    requires el in lru
    ensures i < |lru| && lru[i] == el
  {
    if lru[0] == el then 0 else 1 + PosOf(lru[1..], el)
  }

  /** The list and the map hold the same elements, each key once. */
  ghost predicate Linked(lru: seq<Element>, index: map<string, Element>) {
    && (forall i, j :: 0 <= i < j < |lru| ==> lru[i].key != lru[j].key)
    && (forall i :: 0 <= i < |lru| ==> lru[i].key in index && index[lru[i].key] == lru[i])
    && (forall k :: k in index ==> index[k] in lru && index[k].key == k)
  }

  lemma LinkedPosition(lru: seq<Element>, index: map<string, Element>, i: nat)
    requires Linked(lru, index) && i < |lru|
    ensures PosOf(lru, lru[i]) == i
  {}

  lemma LinkedRemove(lru: seq<Element>, index: map<string, Element>, i: nat)
    requires Linked(lru, index) && i < |lru|
    ensures Linked(RemoveAt(lru, i), index - {lru[i].key})
  {}

  lemma LinkedFront(lru: seq<Element>, index: map<string, Element>, i: nat)
    requires Linked(lru, index) && i < |lru|
    ensures Linked(ToFront(lru, i), index)
  {}

  lemma LinkedPush(lru: seq<Element>, index: map<string, Element>, el: Element)
    requires Linked(lru, index) && el.key !in index
    ensures Linked([el] + lru, index[el.key := el])
  {}

  /** `list` is what the elements hold, in order. */
  ghost predicate Shows(lru: seq<Element>, list: seq<Entry>)
    reads lru
  {
    |list| == |lru| && forall i :: 0 <= i < |lru| ==> list[i] == Entry(lru[i].key, lru[i].msg, lru[i].expires)
  }

  lemma ShowsRemove(lru: seq<Element>, list: seq<Entry>, i: nat)
    requires Shows(lru, list) && i < |lru|
    ensures Shows(RemoveAt(lru, i), RemoveAt(list, i))
  {}

  lemma ShowsFront(lru: seq<Element>, list: seq<Entry>, i: nat)
    requires Shows(lru, list) && i < |lru|
    ensures Shows(ToFront(lru, i), ToFront(list, i))
  {}

  lemma ShowsPush(lru: seq<Element>, list: seq<Entry>, el: Element)
    requires Shows(lru, list)
    ensures Shows([el] + lru, [Entry(el.key, el.msg, el.expires)] + list)
  {}

  /** Where the index finds a key is where the sequence has it. */
  lemma Located(lru: seq<Element>, index: map<string, Element>, list: seq<Entry>, key: string)
    requires Linked(lru, index) && Shows(lru, list)
    ensures key in index <==> Contains(list, key)
    ensures key in index ==>
              lru[IndexOf(list, key)] == index[key] && PosOf(lru, index[key]) == IndexOf(list, key)
  {}

  class Cache {
    var lru: seq<Element>
    var index: map<string, Element>
    const max: int
    const maxTtl: int
    var hits: nat
    var misses: nat
    /** The recency sequence the list and the elements stand for. */
    ghost var list: seq<Entry>

    ghost predicate Valid()
      reads this, lru
    {
      1 <= max && |lru| <= max && Linked(lru, index) && Shows(lru, list)
    }

    ghost function State(): CacheState
      reads this
    {
      CacheState(list, hits, misses)
    }

    constructor (maxEntries: int, maxTtl: int)
      requires 1 <= maxEntries
      ensures Valid() && State() == EMPTY
      ensures max == maxEntries && this.maxTtl == maxTtl
    {
      lru, index, hits, misses, list := [], map[], 0, 0, [];
      max, this.maxTtl := maxEntries, maxTtl;
    }

    /** removeLocked: drops the element from the index and the list. */
    method RemoveLocked(el: Element)
      requires Linked(lru, index) && Shows(lru, list) && el in lru
      modifies this`lru, this`index, this`list
      ensures Linked(lru, index) && Shows(lru, list)
      ensures lru == old(RemoveAt(lru, PosOf(lru, el))) && index == old(index) - {el.key}
      ensures list == old(RemoveAt(list, PosOf(lru, el)))
    {
      var i := PosOf(lru, el);
      LinkedRemove(lru, index, i);
      ShowsRemove(lru, list, i);
      index := index - {el.key};
      lru, list := RemoveAt(lru, i), RemoveAt(list, i);
    }

    /** MoveToFront on the list; the entries follow. */
    method MoveToFront(el: Element)
      requires Linked(lru, index) && Shows(lru, list) && el in lru
      modifies this`lru, this`list
      ensures Linked(lru, index) && Shows(lru, list)
      ensures lru == old(ToFront(lru, PosOf(lru, el))) && list == old(ToFront(list, PosOf(lru, el)))
    {
      var i := PosOf(lru, el);
      LinkedFront(lru, index, i);
      ShowsFront(lru, list, i);
      lru, list := ToFront(lru, i), ToFront(list, i);
    }

    /** Get. The message handed out is a fresh copy; the stored one is not touched. */
    method Get(key: string, now: int) returns (r: Option<Msg>)
      requires Valid()
      modifies this
      ensures Valid() && State() == AfterGet(old(State()), key, now)
      ensures r == Got(old(State()), key, now)
    {
      Located(lru, index, list, key);
      if key !in index {
        misses := misses + 1;
        return None;
      }
      var el := index[key];
      var remaining := el.expires - now;
      assert list[IndexOf(list, key)] == Entry(key, el.msg, el.expires);
      if remaining <= 0 {
        RemoveLocked(el);
        misses := misses + 1;
        return None;
      }
      var msg := Serve(el, key, now);
      return Some(msg);
    }

    /** Get on a live entry. */
    method Serve(el: Element, key: string, now: int) returns (msg: Msg)
      requires Valid() && el in lru && IsHit(list, key, now) && PosOf(lru, el) == IndexOf(list, key)
      requires Entry(key, el.msg, el.expires) == list[IndexOf(list, key)]
      modifies this`lru, this`list, this`hits
      ensures Valid() && hits == old(hits) + 1 && list == old(ToFront(list, IndexOf(list, key)))
      ensures msg == Handed(old(list)[IndexOf(old(list), key)], now)
    {
      hits := hits + 1;
      MoveToFront(el);
      msg := AgedCopy(Entry(key, el.msg, el.expires), now);
    }

    /** Put. `nowEvict` is the clock the eviction loop reads, `now` the one the entry is stored with. */
    method Put(key: string, msg: Option<Msg>, ttl: int, nowEvict: int, now: int)
      requires Valid()
      modifies this, lru
      ensures Valid() && State() == AfterPut(Limits(max, maxTtl), old(State()), key, msg, ttl, now)
    {
      if ttl <= 0 || msg.None? {
        return;
      }
      var capped := if ttl > maxTtl then maxTtl else ttl;
      Store(key, msg.value, now + capped, nowEvict);
    }

    /** Put under the lock. */
    method Store(key: string, msg: Msg, expires: int, nowEvict: int)
      requires Valid()
      modifies this`lru, this`index, this`list, lru
      ensures Valid() && list == Stored(max, old(list), Entry(key, msg, expires))
    {
      ghost var was := list;
      Located(lru, index, list, key);
      if key in index {
        Overwrite(index[key], msg, expires);
        assert list == [Entry(key, msg, expires)] + RemoveAt(was, IndexOf(was, key));
      } else {
        MakeRoom(nowEvict);
        ghost var kept := list;
        Insert(key, msg, expires);
        assert list == [Entry(key, msg, expires)] + kept && IndexOf(was, key) == |was|;
      }
    }

    /** The entry of a known key is changed in place and its element moved to the front. */
    method Overwrite(el: Element, msg: Msg, expires: int)
      requires Linked(lru, index) && Shows(lru, list) && el in lru
      modifies this`lru, this`list, el
      ensures Linked(lru, index) && Shows(lru, list) && lru == old(ToFront(lru, PosOf(lru, el)))
      ensures list == [Entry(el.key, msg, expires)] + old(RemoveAt(list, PosOf(lru, el)))
    {
      ghost var i := PosOf(lru, el);
      el.msg, el.expires := msg, expires;
      assert forall j :: 0 <= j < |lru| && j != i ==> lru[j] != el by {
        assert forall j :: 0 <= j < |lru| && j != i ==> lru[j].key != lru[i].key;
      }
      list := list[i := Entry(el.key, msg, expires)];
      MoveToFront(el);
    }

    method Insert(key: string, msg: Msg, expires: int)
      requires Linked(lru, index) && Shows(lru, list) && key !in index
      modifies this`lru, this`index, this`list
      ensures Linked(lru, index) && Shows(lru, list)
      ensures lru != [] && fresh(lru[0]) && lru == [lru[0]] + old(lru)
      ensures list == [Entry(key, msg, expires)] + old(list)
    {
      var el := new Element(key, msg, expires);
      LinkedPush(lru, index, el);
      ShowsPush(lru, list, el);
      lru, list := [el] + lru, [Entry(key, msg, expires)] + list;
      index := index[key := el];
    }

    /** The eviction part of Put: the expired-first loop over the tail and the `if` after it. Under
        the invariant the two together remove exactly the tail of a full list, whatever the clock. */
    method MakeRoom(nowEvict: int)
      requires Valid()
      modifies this`lru, this`index, this`list
      ensures Linked(lru, index) && Shows(lru, list) && index.Keys <= old(index).Keys
      ensures |lru| < max
      ensures list == if |old(list)| == max then old(list)[..max - 1] else old(list)
    {
      while |lru| > 0 && |lru| >= max
        invariant Linked(lru, index) && Shows(lru, list) && index.Keys <= old(index).Keys
        invariant list == old(list) || (|old(list)| == max && list == old(list)[..max - 1])
        decreases |lru|
      {
        var el := lru[|lru| - 1];
        if !(nowEvict > el.expires) {
          break;
        }
        RemoveTail();
      }
      if |lru| >= max {
        RemoveTail();
      }
    }

    /** removeLocked(lru.Back()). */
    method RemoveTail()
      requires Linked(lru, index) && Shows(lru, list) && lru != []
      modifies this`lru, this`index, this`list
      ensures Linked(lru, index) && Shows(lru, list) && index.Keys <= old(index).Keys
      ensures lru == old(lru)[..|old(lru)| - 1] && list == old(list)[..|old(lru)| - 1]
    {
      LinkedPosition(lru, index, |lru| - 1);
      RemoveLocked(lru[|lru| - 1]);
    }

    method Flush()
      requires Valid()
      modifies this`lru, this`index, this`list
      ensures Valid() && State() == old(State()).(list := [])
    {
      lru, list := [], [];
      index := map[];
    }

    method Stats() returns (size: nat, h: nat, m: nat)
      requires Valid()
      ensures size == |State().list| && h == State().hits && m == State().misses
    {
      return |lru|, hits, misses;
    }
  }

  /** The copy a hit hands out: the records are copied, then their TTLs rewritten in the copy. */
  method AgedCopy(e: Entry, now: int) returns (r: Msg)
    ensures r == Handed(e, now) && OnlyTtlsSet(e.msg, r, HitTtl(e.expires - now))
  {
    var stored, remaining := e.msg, e.expires - now;
    var ttl := ((remaining + SECOND - 1) / SECOND) % UINT32;
    if ttl < 1 {
      ttl := 1;
    }
    var answer := new RR[|stored.answer|](i requires 0 <= i < |stored.answer| => stored.answer[i]);
    var ns := new RR[|stored.ns|](i requires 0 <= i < |stored.ns| => stored.ns[i]);
    assert answer[..] == stored.answer && ns[..] == stored.ns;
    SetTtls(answer, ns, ttl);
    r := stored.(answer := answer[..], ns := ns[..]);
    AgedIsSet(stored.answer, r.answer, ttl);
    AgedIsSet(stored.ns, r.ns, ttl);
  }

  /** setTTLs: rewrites the records of both sections in place. */
  method SetTtls(answer: array<RR>, ns: array<RR>, ttl: nat)
    requires answer != ns
    modifies answer, ns
    ensures TtlsSet(old(answer[..]), answer[..], ttl) && TtlsSet(old(ns[..]), ns[..], ttl)
  {
    for i := 0 to answer.Length
      invariant ns[..] == old(ns[..])
      invariant TtlsSet(old(answer[..])[..i], answer[..i], ttl)
      invariant forall k :: i <= k < answer.Length ==> answer[k] == old(answer[k])
    {
      if !IsOpt(answer[i]) {
        answer[i] := answer[i].(ttl := ttl);
      }
    }
    for i := 0 to ns.Length
      invariant TtlsSet(old(answer[..]), answer[..], ttl)
      invariant TtlsSet(old(ns[..])[..i], ns[..i], ttl)
      invariant forall k :: i <= k < ns.Length ==> ns[k] == old(ns[k])
    {
      if !IsOpt(ns[i]) {
        ns[i] := ns[i].(ttl := ttl);
      }
    }
  }
}
