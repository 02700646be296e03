/** Choosing among the DoH upstreams: the failover rotation and the race. */
module Failover {
  const UINT64: nat := 0x1_0000_0000_0000_0000
  const INT64_SIGN: nat := 0x8000_0000_0000_0000

  /** One upstream's answer to one query. */
  datatype Reply<T> = Ok(resp: T) | Failed(error: string)

  datatype Outcome<T> = Answer(resp: T) | NoUpstreams | AllFailed(last: string) | IndexPanic

  // ---- Go's integers ----

  /** int(u) for a uint64 u on a 64-bit platform. */
  function ToInt(u: nat): int {
    if u < INT64_SIGN then u else u - UINT64
  }

  /** Go's %: the result has the sign of the dividend. */
  function Rem(a: int, n: int): int
    requires n > 0
  {
    if a >= 0 then a % n else -((-a) % n)
  }

  /** Where a call that drew the counter value `u` starts. */
  function Start(u: nat, n: int): int
    requires n > 0
  {
    Rem(ToInt(u), n)
  }

  /** The start is a valid index except on the upper half of the counter, and there it is one only
      when the distance to the wrap-around is a multiple of n. */
  lemma StartIsIndex(u: nat, n: int)
    requires n > 0 && u < UINT64
    ensures 0 <= Start(u, n) < n <==> u < INT64_SIGN || (UINT64 - u) % n == 0
  {}

  /** With two upstreams or more some counter value starts below zero: the last one before the wrap. */
  lemma LastValueFails(n: int)
    requires n >= 2
    ensures Start(UINT64 - 1, n) == -1
  {
    assert ToInt(UINT64 - 1) == -1;
    assert 1 % n == 1;
  }

  // ---- the order of asking ----

  function Rotation(start: nat, n: nat): (order: seq<nat>)
    requires start < n
    ensures |order| == n
  {
    seq(n, i requires 0 <= i < n => (start + i) % n)
  }

  predicate Permutes(order: seq<nat>, n: nat) {
    && |order| == n
    && (forall i :: 0 <= i < |order| ==> order[i] < n)
    && (forall i, j :: 0 <= i < j < |order| ==> order[i] != order[j])
    && (forall k :: 0 <= k < n ==> k in order)
  }

  lemma DivModUnique(a: int, n: int, q: int, r: int)
    requires n > 0 && a == n * q + r && 0 <= r < n
    ensures a % n == r
  {
    var d := a / n - q;
    assert n * d == r - a % n;
    assert d >= 1 ==> n * d >= n;
    assert d <= -1 ==> n * d <= -n;
  }

  function Wrapped(k: nat, n: nat): int {
    if k < n then k else k - n
  }

  lemma ModuloWraps(k: nat, n: nat)
    requires n > 0 && k < 2 * n
    ensures k % n == Wrapped(k, n)
  {
    DivModUnique(k, n, if k < n then 0 else 1, Wrapped(k, n));
  }

  /** The rotation without division. */
  lemma RotationAt(start: nat, n: nat)
    requires start < n
    ensures forall i :: 0 <= i < n ==> Rotation(start, n)[i] == Wrapped(start + i, n)
  {
    forall i | 0 <= i < n
      ensures Rotation(start, n)[i] == Wrapped(start + i, n)
    {
      ModuloWraps(start + i, n);
    }
  }

  /** A rotation asks every upstream exactly once. */
  lemma RotationPermutes(start: nat, n: nat)
    requires start < n
    ensures Permutes(Rotation(start, n), n)
  {
    RotationAt(start, n);
    AllReached(start, n, Rotation(start, n));
  }

  lemma AllReached(start: nat, n: nat, order: seq<nat>)
    requires start < n && |order| == n
    requires forall i :: 0 <= i < n ==> order[i] == Wrapped(start + i, n)
    ensures Permutes(order, n)
  {
    forall k | 0 <= k < n
      ensures k in order
    {
      var i := if k >= start then k - start else k + n - start;
      assert order[i] == k;
    }
  }

  /** n calls that draw consecutive counter values start at n different upstreams, and so at each. */
  lemma StartsSpread(u: nat, n: nat)
    requires n > 0 && u + n <= INT64_SIGN
    ensures forall i :: 0 <= i < n ==> Start(u + i, n) == Rotation(u % n, n)[i]
    ensures Permutes(Rotation(u % n, n), n)
  {
    RotationPermutes(u % n, n);
    forall i | 0 <= i < n
      ensures Start(u + i, n) == Rotation(u % n, n)[i]
    {
      ModuloAdds(u, i, n);
    }
  }

  lemma ModuloAdds(u: nat, i: nat, n: nat)
    requires n > 0 && i < n
    ensures (u + i) % n == (u % n + i) % n
  {
    var r, q := u % n, u / n;
    ModuloWraps(r + i, n);
    assert u + i == n * q + (r + i);
    if r + i < n {
      DivModUnique(u + i, n, q, r + i);
    } else {
      DivModUnique(u + i, n, q + 1, r + i - n);
    }
  }

  // ---- who answers ----

  /** The answer of the first upstream that succeeds in the given order of asking. */
  function FirstOk<T>(replies: seq<Reply<T>>, order: seq<nat>): Outcome<T>
    requires order != []
    requires forall i :: 0 <= i < |order| ==> order[i] < |replies|
  {
    match replies[order[0]]
    case Ok(resp) => Answer(resp)
    case Failed(error) => if |order| == 1 then AllFailed(error) else FirstOk(replies, order[1..])
  }

  /** The first `k` upstreams of the order failed. */
  predicate FailedBefore<T>(replies: seq<Reply<T>>, order: seq<nat>, k: nat)
    requires k <= |order| && forall i :: 0 <= i < |order| ==> order[i] < |replies|
  {
    forall i :: 0 <= i < k ==> replies[order[i]].Failed?
  }

  lemma {:induction false} FirstOkAfter<T>(replies: seq<Reply<T>>, order: seq<nat>, k: nat)
    requires k < |order| && forall i :: 0 <= i < |order| ==> order[i] < |replies|
    requires FailedBefore(replies, order, k)
    ensures FirstOk(replies, order) == FirstOk(replies, order[k..])
  {
    if k == 0 {
      assert order[0..] == order;
    } else {
      assert order[1..][k - 1..] == order[k..];
      FirstOkAfter(replies, order[1..], k - 1);
    }
  }

  /** Asking in any order that reaches everybody: an error exactly when all fail, and otherwise the
      answer of an upstream before which everybody failed. */
  lemma FirstOkSpec<T>(replies: seq<Reply<T>>, order: seq<nat>)
    requires |replies| > 0 && Permutes(order, |replies|)
    ensures FirstOk(replies, order).AllFailed? <==> forall r :: r in replies ==> r.Failed?
    ensures FirstOk(replies, order).Answer? <==> exists r :: r in replies && r.Ok?
    ensures FirstOk(replies, order).Answer? ==>
              exists k :: 0 <= k < |order| && FailedBefore(replies, order, k)
                && replies[order[k]] == Ok(FirstOk(replies, order).resp)
    ensures FirstOk(replies, order).AllFailed? ==>
              replies[order[|order| - 1]] == Failed(FirstOk(replies, order).last)
  {
    var k := FirstIndex(replies, order);
    if k < |order| {
      FirstOkAfter(replies, order, k);
      assert replies[order[k]] in replies;
    } else {
      FirstOkAfter(replies, order, |order| - 1);
      forall r | r in replies
        ensures r.Failed?
      {
        var i :| 0 <= i < |replies| && replies[i] == r;
        assert i in order;
        var j :| 0 <= j < |order| && order[j] == i;
      }
    }
  }

  function FirstIndex<T>(replies: seq<Reply<T>>, order: seq<nat>): (k: nat)
    requires forall i :: 0 <= i < |order| ==> order[i] < |replies|
    ensures k <= |order| && FailedBefore(replies, order, k)
    ensures k < |order| ==> replies[order[k]].Ok?
  {
    if order == [] || replies[order[0]].Ok? then 0
    else
      var k := FirstIndex(replies, order[1..]);
      assert forall i :: 1 <= i <= k ==> order[i] == order[1..][i - 1];
      k + 1
  }

  class Rotor {
    var rot: nat

    ghost predicate Valid()
      reads this
    {
      rot < UINT64
    }

    constructor ()
      ensures Valid() && rot == 0
    {
      rot := 0;
    }

    /** rot.Add(1) - 1 on a 64-bit counter that wraps. */
    method Draw() returns (u: nat)
      requires Valid()
      modifies this
      ensures Valid() && u == old(rot) && rot == (old(rot) + 1) % UINT64
    {
      rot := (rot + 1) % UINT64;
      u := (rot + UINT64 - 1) % UINT64;
    }

    /** The failover strategy over the replies the upstreams would give. `asked` lists the upstreams
        that were queried, in order. */
    method Exchange<T>(replies: seq<Reply<T>>) returns (outcome: Outcome<T>, asked: seq<nat>)
      requires Valid()
      modifies this
      ensures Valid()
      ensures rot == if replies == [] then old(rot) else (old(rot) + 1) % UINT64
      ensures replies == [] ==> outcome == NoUpstreams && asked == []
      ensures replies != [] && Start(old(rot), |replies|) < 0 ==> outcome == IndexPanic && asked == []
      ensures replies != [] && Start(old(rot), |replies|) >= 0 ==>
                var order := Rotation(Start(old(rot), |replies|), |replies|);
                && (forall i :: 0 <= i < |order| ==> order[i] < |replies|)
                && outcome == FirstOk(replies, order)
                && asked <= order && 0 < |asked|
                && FailedBefore(replies, order, |asked| - 1)
                && (|asked| < |order| ==> replies[order[|asked| - 1]].Ok?)
    {
      asked := [];
      if replies == [] { return NoUpstreams, []; }
      var n := |replies|;
      var u := Draw();
      var start := Start(u, n);
      if start < 0 {
        assert Rem(start + 0, n) < 0 by { SmallRem(start, n); }
        return IndexPanic, [];
      }
      ghost var order := Rotation(start, n);
      var lastErr := "";
      for i := 0 to n
        invariant asked == order[..i]
        invariant FailedBefore(replies, order, i)
        invariant i > 0 ==> replies[order[i - 1]] == Failed(lastErr)
      {
        var k := Rem(start + i, n);
        asked := asked + [k];
        assert asked == order[..i + 1];
        match replies[k]
        case Ok(resp) =>
          FirstOkAfter(replies, order, i);
          return Answer(resp), asked;
        case Failed(error) => lastErr := error;
      }
      FirstOkAfter(replies, order, n - 1);
      outcome := AllFailed(lastErr);
    }
  }

  /** A start below zero is the index of the first attempt, which the run time refuses. */
  lemma SmallRem(a: int, n: int)
    requires n > 0 && -n < a < 0
    ensures Rem(a, n) == a
  {}
}
