/** How Filter reshapes an address list once the probes are in: `drop` keeps the reachable
    addresses, `prefer` sorts the probed ones stably. Addresses are any values. */
module Filter {
  import opened Probing

  datatype Mode = Drop | Prefer

  datatype Probed<T> = Probed(ip: T, res: Result)

  /** The `less` function given to sort.SliceStable. */
  predicate Less<T>(a: Probed<T>, b: Probed<T>) {
    if a.res.reachable != b.res.reachable then a.res.reachable
    else a.res.reachable && a.res.latency < b.res.latency
  }

  predicate Tied<T>(a: Probed<T>, b: Probed<T>) {
    !Less(a, b) && !Less(b, a)
  }

  ghost predicate Sorted<T>(s: seq<Probed<T>>) {
    forall i, j :: 0 <= i < j < |s| ==> !Less(s[j], s[i])
  }

  /** The elements of s tied with c, in order. */
  function TiedWith<T>(s: seq<Probed<T>>, c: Probed<T>): seq<Probed<T>> {
    if s == [] then []
    else (if Tied(s[0], c) then [s[0]] else []) + TiedWith(s[1..], c)
  }

  /** What a stable sort promises: sorted, and equal elements keep their order. */
  ghost predicate StablySorts<T(!new)>(input: seq<Probed<T>>, output: seq<Probed<T>>) {
    Sorted(output) && forall c :: TiedWith(output, c) == TiedWith(input, c)
  }

  function Insert<T>(x: Probed<T>, s: seq<Probed<T>>): (r: seq<Probed<T>>)
    ensures multiset(r) == multiset(s) + multiset{x}
  {
    if s == [] || !Less(s[0], x) then
      [x] + s
    else
      assert s == [s[0]] + s[1..];
      [s[0]] + Insert(x, s[1..])
  }

  /** A stable sort. StableSortUnique below says every stable sort returns this. */
  function SortStable<T>(s: seq<Probed<T>>): (r: seq<Probed<T>>)
    ensures multiset(r) == multiset(s)
  {
    if s == [] then []
    else
      assert s == [s[0]] + s[1..];
      Insert(s[0], SortStable(s[1..]))
  }

  lemma {:induction false} InsertSorted<T>(x: Probed<T>, s: seq<Probed<T>>)
    requires Sorted(s)
    ensures Sorted(Insert(x, s))
  {
    if s != [] && Less(s[0], x) {
      InsertSorted(x, s[1..]);
      var r := Insert(x, s[1..]);
      forall j | 0 <= j < |r| ensures !Less(r[j], s[0]) {
        assert r[j] in multiset(r);
        assert r[j] == x || r[j] in s[1..];
      }
    }
  }

  lemma TiedCons<T>(x: Probed<T>, s: seq<Probed<T>>, c: Probed<T>)
    ensures TiedWith([x] + s, c) == (if Tied(x, c) then [x] else []) + TiedWith(s, c)
  {}

  /** Only elements that are not tied with each other change places. */
  lemma {:induction false} InsertTied<T>(x: Probed<T>, s: seq<Probed<T>>, c: Probed<T>)
    ensures TiedWith(Insert(x, s), c) == TiedWith([x] + s, c)
  {
    if s != [] && Less(s[0], x) {
      var rest := s[1..];
      InsertTied(x, rest, c);
      TiedCons(s[0], Insert(x, rest), c);
      TiedCons(x, rest, c);
      TiedCons(x, s, c);
      NotBothTied(s[0], x, c);
    }
  }

  lemma NotBothTied<T>(a: Probed<T>, b: Probed<T>, c: Probed<T>)
    requires Less(a, b)
    ensures !(Tied(a, c) && Tied(b, c))
  {}

  lemma {:induction false} SortStablySorts<T(!new)>(s: seq<Probed<T>>)
    ensures StablySorts(s, SortStable(s))
  {
    if s != [] {
      SortStablySorts(s[1..]);
      var rest := SortStable(s[1..]);
      InsertSorted(s[0], rest);
      forall c ensures TiedWith(SortStable(s), c) == TiedWith(s, c) {
        InsertTied(s[0], rest, c);
        assert ([s[0]] + rest)[1..] == rest;
      }
    }
  }

  lemma {:induction false} TiedWithMembers<T>(s: seq<Probed<T>>, c: Probed<T>)
    ensures forall x :: x in TiedWith(s, c) <==> x in s && Tied(x, c)
  {
    if s != [] {
      TiedWithMembers(s[1..], c);
      assert s == [s[0]] + s[1..];
    }
  }

  lemma TiedWithTail<T>(s: seq<Probed<T>>, c: Probed<T>)
    requires s != []
    ensures TiedWith(s[1..], c) == if Tied(s[0], c) then TiedWith(s, c)[1..] else TiedWith(s, c)
  {}

  /** Any two stable sorts of one input agree, so the library's choice of algorithm is irrelevant. */
  lemma {:induction false} StableSortUnique<T(!new)>(input: seq<Probed<T>>, a: seq<Probed<T>>, b: seq<Probed<T>>)
    requires StablySorts(input, a) && StablySorts(input, b)
    ensures a == b
    decreases |a|
  {
    if a != [] { HeadSurvives(input, a, b); }
    if b != [] { HeadSurvives(input, b, a); }
    if a != [] {
      assert Tied(a[0], b[0]) by { SmallestFirst(a, b); }
      assert a[0] == TiedWith(a, a[0])[0] == TiedWith(b, a[0])[0] == b[0];
      TailsAgree(input, a, b);
      StableSortUnique(a[1..], a[1..], b[1..]);
    }
  }

  lemma TailsAgree<T(!new)>(input: seq<Probed<T>>, a: seq<Probed<T>>, b: seq<Probed<T>>)
    requires StablySorts(input, a) && StablySorts(input, b) && a != [] && b != [] && a[0] == b[0]
    ensures StablySorts(a[1..], a[1..]) && StablySorts(a[1..], b[1..])
  {
    forall c ensures TiedWith(b[1..], c) == TiedWith(a[1..], c) {
      assert TiedWith(a, c) == TiedWith(b, c);
      TiedWithTail(a, c);
      TiedWithTail(b, c);
    }
  }

  lemma HeadSurvives<T(!new)>(input: seq<Probed<T>>, a: seq<Probed<T>>, b: seq<Probed<T>>)
    requires StablySorts(input, a) && StablySorts(input, b) && a != []
    ensures b != [] && a[0] in b
  {
    TiedWithMembers(a, a[0]);
    TiedWithMembers(b, a[0]);
    assert a[0] in TiedWith(b, a[0]);
  }

  lemma SmallestFirst<T>(a: seq<Probed<T>>, b: seq<Probed<T>>)
    requires Sorted(a) && Sorted(b) && a != [] && b != [] && a[0] in b && b[0] in a
    ensures Tied(a[0], b[0])
  {}

  // ---- the results of Filter ----

  function Ips<T>(s: seq<Probed<T>>): seq<T> {
    seq(|s|, i requires 0 <= i < |s| => s[i].ip)
  }

  function Reachable<T>(s: seq<Probed<T>>): seq<T> {
    if s == [] then [] else (if s[0].res.reachable then [s[0].ip] else []) + Reachable(s[1..])
  }

  function Limit(n: nat, max: int): nat {
    if max <= 0 || max > n then n else max
  }

  function Pair<T>(ips: seq<T>, results: seq<Result>): seq<Probed<T>>
    requires |results| <= |ips|
  {
    seq(|results|, i requires 0 <= i < |results| => Probed(ips[i], results[i]))
  }

  /** Filter as a function of the addresses and the results of the first Limit of them. */
  function Filtered<T>(ips: seq<T>, results: seq<Result>, mode: Mode): seq<T>
    requires |ips| > 1 ==> |results| <= |ips|
  {
    if |ips| <= 1 then ips
    else
      var ps := Pair(ips, results);
      match mode
      case Drop => if Reachable(ps) == [] then ips else Reachable(ps) + ips[|results|..]
      case Prefer => Ips(SortStable(ps)) + ips[|results|..]
  }

  /** Filter after all workers are done: `results[i]` is what Check returned for `ips[i]`. */
  method Filter<T>(ips: seq<T>, results: seq<Result>, mode: Mode, max: int) returns (out: seq<T>)
    requires |ips| > 1 ==> |results| == Limit(|ips|, max)
    ensures out == Filtered(ips, results, mode)
  {
    if |ips| <= 1 {
      return ips;
    }
    var ps := Pair(ips, results);
    match mode {
      case Drop =>
        var kept := KeepReachable(ps);
        if |kept| == 0 {
          return ips;
        }
        out := kept + ips[|results|..];
      case Prefer =>
        out := AppendIps(SortStable(ps));
        out := out + ips[|results|..];
    }
  }

  method KeepReachable<T>(ps: seq<Probed<T>>) returns (kept: seq<T>)
    ensures kept == Reachable(ps)
  {
    kept := [];
    for i := 0 to |ps|
      invariant kept + Reachable(ps[i..]) == Reachable(ps)
    {
      if ps[i].res.reachable {
        kept := kept + [ps[i].ip];
      }
      assert ps[i..][1..] == ps[i + 1..];
    }
  }

  method AppendIps<T>(stable: seq<Probed<T>>) returns (out: seq<T>)
    ensures out == Ips(stable)
  {
    out := [];
    for i := 0 to |stable|
      invariant out == Ips(stable)[..i]
    {
      out := out + [stable[i].ip];
    }
  }

  // ---- what Filter promises ----

  lemma {:induction false} IpsInsert<T>(x: Probed<T>, s: seq<Probed<T>>)
    ensures multiset(Ips(Insert(x, s))) == multiset(Ips(s)) + multiset{x.ip}
  {
    IpsCons(x, s);
    if s != [] && Less(s[0], x) {
      IpsInsert(x, s[1..]);
      IpsCons(s[0], Insert(x, s[1..]));
      IpsCons(s[0], s[1..]);
      assert s == [s[0]] + s[1..];
    }
  }

  lemma IpsCons<T>(x: Probed<T>, s: seq<Probed<T>>)
    ensures Ips([x] + s) == [x.ip] + Ips(s)
  {}

  lemma {:induction false} IpsSort<T>(s: seq<Probed<T>>)
    ensures multiset(Ips(SortStable(s))) == multiset(Ips(s))
  {
    if s != [] {
      IpsSort(s[1..]);
      IpsInsert(s[0], SortStable(s[1..]));
      IpsCons(s[0], s[1..]);
      assert s == [s[0]] + s[1..];
    }
  }

  /** prefer: a permutation; probed addresses stably sorted, the unprobed tail in place. */
  lemma PreferPermutes<T(!new)>(ips: seq<T>, results: seq<Result>)
    requires |ips| > 1 && |results| <= |ips|
    ensures var out := Filtered(ips, results, Prefer);
            var stable := SortStable(Pair(ips, results));
            && multiset(out) == multiset(ips)
            && StablySorts(Pair(ips, results), stable)
            && |out| == |ips| && |stable| == |results|
            && out[..|results|] == Ips(stable) && out[|results|..] == ips[|results|..]
  {
    var ps := Pair(ips, results);
    var stable := SortStable(ps);
    SortStablySorts(ps);
    IpsSort(ps);
    assert |stable| == |ps| by { assert |multiset(stable)| == |multiset(ps)|; }
    assert Ips(ps) == ips[..|results|];
    assert ips == ips[..|results|] + ips[|results|..];
  }

  function Tail(n: nat, len: nat): seq<nat>
    requires n <= len
  {
    seq(len - n, i requires 0 <= i < len - n => n + i)
  }

  /** What prefer promises about two probed positions: the reachable one first, of two reachable ones the
      faster one, and otherwise the one that was first. */
  predicate Precedes(results: seq<Result>, i: nat, j: nat)
    requires i < |results| && j < |results|
  {
    if results[i].reachable != results[j].reachable then results[i].reachable
    else if results[i].reachable && results[i].latency != results[j].latency then
      results[i].latency < results[j].latency
    else i < j
  }

  /** All positions with a result, each once, in that order. */
  ghost predicate Ranked(results: seq<Result>, at: seq<nat>) {
    && |at| == |results|
    && (forall k :: 0 <= k < |at| ==> at[k] < |results|)
    && (forall k, l :: 0 <= k < l < |at| ==> at[k] != at[l] && Precedes(results, at[k], at[l]))
  }

  /** The positions at which prefer finds what it returns: the probed ones ranked, the others in place. */
  ghost predicate PreferredAt<T(!new)>(out: seq<T>, ips: seq<T>, results: seq<Result>, at: seq<nat>)
    requires |results| <= |ips|
  {
    && |out| == |at| == |ips|
    && (forall k :: 0 <= k < |at| ==> at[k] < |ips| && out[k] == ips[at[k]])
    && (forall k :: |results| <= k < |at| ==> at[k] == k)
    && Ranked(results, at[..|results|])
  }

  /** Positions from k on with their results, in any order. */
  predicate Positions(results: seq<Result>, u: seq<Probed<nat>>, k: nat) {
    forall i :: 0 <= i < |u| ==> k <= u[i].ip < |results| && u[i].res == results[u[i].ip]
  }

  ghost predicate InOrder(results: seq<Result>, u: seq<Probed<nat>>, k: nat) {
    && Positions(results, u, k)
    && forall i, j :: 0 <= i < j < |u| ==> u[i].ip != u[j].ip && Precedes(results, u[i].ip, u[j].ip)
  }

  lemma PrecedesAll(results: seq<Result>, k: nat, u: seq<Probed<nat>>)
    requires k < |results| && u != [] && InOrder(results, u, k + 1) && !Less(u[0], Probed(k, results[k]))
    ensures forall j :: 0 <= j < |u| ==> Precedes(results, k, u[j].ip)
  {
    forall j | 0 < j < |u|
      ensures Precedes(results, k, u[j].ip)
    {
      assert Precedes(results, u[0].ip, u[j].ip);
    }
  }

  /** What precedes all of the rest and what is inserted into it goes in front. */
  lemma FirstStays(results: seq<Result>, k: nat, u: seq<Probed<nat>>, r: seq<Probed<nat>>)
    requires k < |results| && u != [] && InOrder(results, u, k + 1) && InOrder(results, r, k)
    requires multiset(r) == multiset(u[1..]) + multiset{Probed(k, results[k])} && Less(u[0], Probed(k, results[k]))
    ensures InOrder(results, [u[0]] + r, k)
  {
    forall j | 0 <= j < |r|
      ensures r[j].ip != u[0].ip && Precedes(results, u[0].ip, r[j].ip)
    {
      assert r[j] in multiset(r);
      if r[j] != Probed(k, results[k]) {
        assert r[j] in u[1..];
        var i :| 0 <= i < |u[1..]| && u[1..][i] == r[j];
        assert u[i + 1] == r[j];
      }
    }
  }

  lemma {:induction false} InsertInOrder(results: seq<Result>, k: nat, u: seq<Probed<nat>>)
    requires k < |results| && InOrder(results, u, k + 1)
    ensures InOrder(results, Insert(Probed(k, results[k]), u), k)
    decreases |u|
  {
    var x := Probed(k, results[k]);
    if u == [] {
    } else if !Less(u[0], x) {
      PrecedesAll(results, k, u);
    } else {
      InsertInOrder(results, k, u[1..]);
      FirstStays(results, k, u, Insert(x, u[1..]));
    }
  }

  lemma {:induction false} SortInOrder(results: seq<Result>, u: seq<Probed<nat>>, k: nat)
    requires k + |u| == |results|
    requires forall i :: 0 <= i < |u| ==> u[i] == Probed(k + i, results[k + i])
    ensures InOrder(results, SortStable(u), k)
    decreases |u|
  {
    if u != [] {
      SortInOrder(results, u[1..], k + 1);
      InsertInOrder(results, k, SortStable(u[1..]));
    }
  }

  /** u holds the positions in ips of what s holds. */
  ghost predicate Tracks<T(!new)>(ips: seq<T>, s: seq<Probed<T>>, u: seq<Probed<nat>>) {
    && |s| == |u|
    && forall i :: 0 <= i < |s| ==> u[i].ip < |ips| && s[i] == Probed(ips[u[i].ip], u[i].res)
  }

  lemma TracksCons<T(!new)>(ips: seq<T>, s: seq<Probed<T>>, y: Probed<nat>, u: seq<Probed<nat>>)
    requires Tracks(ips, s, u) && y.ip < |ips|
    ensures Tracks(ips, [Probed(ips[y.ip], y.res)] + s, [y] + u)
  {}

  /** The sort looks at the results only, so positions move as the addresses do. */
  lemma {:induction false} InsertTracks<T(!new)>(ips: seq<T>, s: seq<Probed<T>>, y: Probed<nat>, u: seq<Probed<nat>>)
    requires Tracks(ips, s, u) && y.ip < |ips|
    ensures Tracks(ips, Insert(Probed(ips[y.ip], y.res), s), Insert(y, u))
    decreases |s|
  {
    var x := Probed(ips[y.ip], y.res);
    if s == [] {
    } else if Less(s[0], x) {
      assert Less(u[0], y);
      InsertTracks(ips, s[1..], y, u[1..]);
      TracksCons(ips, Insert(x, s[1..]), u[0], Insert(y, u[1..]));
    } else {
      TracksCons(ips, s, y, u);
    }
  }

  lemma {:induction false} SortTracks<T(!new)>(ips: seq<T>, s: seq<Probed<T>>, u: seq<Probed<nat>>)
    requires Tracks(ips, s, u)
    ensures Tracks(ips, SortStable(s), SortStable(u))
    decreases |s|
  {
    if s != [] {
      SortTracks(ips, s[1..], u[1..]);
      InsertTracks(ips, SortStable(s[1..]), u[0], SortStable(u[1..]));
    }
  }

  /** Putting a sorted head and a tail in place together. */
  lemma HeadAndTail<T(!new)>(out: seq<T>, ips: seq<T>, results: seq<Result>, s: seq<Probed<T>>, u: seq<Probed<nat>>)
    requires |results| <= |ips| && |u| == |results| && Tracks(ips, s, u) && InOrder(results, u, 0)
    requires out == Ips(s) + ips[|results|..]
    ensures PreferredAt(out, ips, results, Ips(u) + Tail(|results|, |ips|))
  {
    assert (Ips(u) + Tail(|results|, |ips|))[..|results|] == Ips(u);
  }

  /** In prefer mode reachable addresses come first, the faster ones before the slower ones, then the
      unreachable ones in their order, then those not probed in place. */
  lemma PreferOrder<T(!new)>(ips: seq<T>, results: seq<Result>)
    requires |ips| > 1 && |results| <= |ips|
    ensures exists at: seq<nat> :: PreferredAt(Filtered(ips, results, Prefer), ips, results, at)
  {
    var u := seq(|results|, i requires 0 <= i < |results| => Probed(i, results[i]));
    SortInOrder(results, u, 0);
    SortTracks(ips, Pair(ips, results), u);
    SortedSize(u);
    HeadAndTail(Filtered(ips, results, Prefer), ips, results, SortStable(Pair(ips, results)), SortStable(u));
  }

  lemma SortedSize<T>(s: seq<Probed<T>>)
    ensures |SortStable(s)| == |s|
  {
    assert |multiset(SortStable(s))| == |multiset(s)|;
  }

  /** Positions picked in increasing order. */
  ghost predicate SubsequenceAt<T(!new)>(out: seq<T>, s: seq<T>, at: seq<nat>) {
    && |at| == |out|
    && (forall i :: 0 <= i < |at| ==> at[i] < |s| && out[i] == s[at[i]])
    && (forall i, j :: 0 <= i < j < |at| ==> at[i] < at[j])
  }

  /** The positions below n with a reachable result. */
  function Kept(results: seq<Result>, n: nat): (at: seq<nat>)
    requires n <= |results|
    ensures forall i :: 0 <= i < |at| ==> at[i] < n
    ensures forall i, j :: 0 <= i < j < |at| ==> at[i] < at[j]
    ensures forall k :: k in at <==> 0 <= k < n && results[k].reachable
  {
    if n == 0 then [] else Kept(results, n - 1) + (if results[n - 1].reachable then [n - 1] else [])
  }

  lemma {:induction false} NoneKept(results: seq<Result>, n: nat)
    requires n <= |results| && forall k :: 0 <= k < n ==> !results[k].reachable
    ensures Kept(results, n) == []
  {
    if n > 0 { NoneKept(results, n - 1); }
  }

  function At<T>(ips: seq<T>, at: seq<nat>): seq<T>
    requires forall i :: 0 <= i < |at| ==> at[i] < |ips|
  {
    seq(|at|, i requires 0 <= i < |at| => ips[at[i]])
  }

  lemma {:induction false} ReachableAppend<T>(s: seq<Probed<T>>, x: Probed<T>)
    ensures Reachable(s + [x]) == Reachable(s) + (if x.res.reachable then [x.ip] else [])
  {
    if s != [] {
      ReachableAppend(s[1..], x);
      assert (s + [x])[1..] == s[1..] + [x];
    }
  }

  lemma {:induction false} ReachableIsKept<T>(ips: seq<T>, results: seq<Result>, n: nat)
    requires n <= |results| <= |ips|
    ensures Reachable(Pair(ips, results)[..n]) == At(ips, Kept(results, n))
  {
    if n > 0 {
      ReachableIsKept(ips, results, n - 1);
      var ps := Pair(ips, results);
      ReachableAppend(ps[..n - 1], ps[n - 1]);
      assert ps[..n] == ps[..n - 1] + [ps[n - 1]];
    }
  }

  /** drop: the original when no probed address is reachable, else exactly the reachable probed
      addresses and the unprobed ones, in their order. Never empty for a non-empty input. */
  lemma DropKeeps<T(!new)>(ips: seq<T>, results: seq<Result>)
    requires |ips| > 1 && |results| <= |ips|
    ensures Filtered(ips, results, Drop) != []
    ensures (forall i :: 0 <= i < |results| ==> !results[i].reachable) ==> Filtered(ips, results, Drop) == ips
    ensures !(forall i :: 0 <= i < |results| ==> !results[i].reachable) ==>
              exists at: seq<nat> ::
                && SubsequenceAt(Filtered(ips, results, Drop), ips, at)
                && forall k :: 0 <= k < |ips| ==> (k in at <==> k >= |results| || results[k].reachable)
  {
    var ps, n := Pair(ips, results), |results|;
    var head := Kept(results, n);
    ReachableIsKept(ips, results, n);
    assert ps[..n] == ps;
    if i :| 0 <= i < n && results[i].reachable {
      assert i in head;
      DropPositions(ips, results);
    } else {
      NoneKept(results, n);
    }
  }

  lemma TailMembers(n: nat, len: nat)
    requires n <= len
    ensures forall k :: k in Tail(n, len) <==> n <= k < len
  {
    forall k | n <= k < len
      ensures k in Tail(n, len)
    {
      assert Tail(n, len)[k - n] == k;
    }
  }

  lemma DropPositions<T(!new)>(ips: seq<T>, results: seq<Result>)
    requires |results| <= |ips|
    ensures var n := |results|;
            var at := Kept(results, n) + Tail(n, |ips|);
            && SubsequenceAt(At(ips, Kept(results, n)) + ips[n..], ips, at)
            && forall k :: 0 <= k < |ips| ==> (k in at <==> k >= n || results[k].reachable)
  {
    var n := |results|;
    TailMembers(n, |ips|);
    var at := Kept(results, n) + Tail(n, |ips|);
    assert forall k :: k in at <==> k in Kept(results, n) || k in Tail(n, |ips|);
    InTwoParts(ips, Kept(results, n), n);
  }

  lemma InTwoParts<T(!new)>(ips: seq<T>, head: seq<nat>, n: nat)
    requires n <= |ips| && (forall i :: 0 <= i < |head| ==> head[i] < n)
    requires forall i, j :: 0 <= i < j < |head| ==> head[i] < head[j]
    ensures SubsequenceAt(At(ips, head) + ips[n..], ips, head + Tail(n, |ips|))
  {}
}
