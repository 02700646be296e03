/** Lists without repetitions: each element where it first occurs. */
module FirstOccurrences {

  /** Keeps the first occurrence of each element. */
  function Unique<T(==)>(s: seq<T>): seq<T> {
    if s == [] then []
    else
      var u := Unique(s[..|s| - 1]);
      if s[|s| - 1] in u then u else u + [s[|s| - 1]]
  }

  function First<T(==)>(s: seq<T>, x: T): (i: nat)
    requires x in s
    ensures i < |s| && s[i] == x && forall k :: 0 <= k < i ==> s[k] != x
  {
    if s[0] == x then 0
    else
      assert s == [s[0]] + s[1..];
      var i := First(s[1..], x);
      assert forall k :: 1 <= k <= i ==> s[k] == s[1..][k - 1];
      i + 1
  }

  lemma {:induction false} UniqueMembers<T>(s: seq<T>)
    ensures forall x :: x in Unique(s) <==> x in s
  {
    if s != [] {
      UniqueMembers(s[..|s| - 1]);
      assert s == s[..|s| - 1] + [s[|s| - 1]];
    }
  }

  lemma UniqueMember<T>(s: seq<T>, x: T)
    ensures x in Unique(s) <==> x in s
  {}

  /** The members of `u` stand in the order of their first occurrences in `s`. */
  predicate InOrder<T(==)>(s: seq<T>, u: seq<T>)
    requires forall x :: x in u ==> x in s
  {
    forall i, j :: 0 <= i < j < |u| ==> First(s, u[i]) < First(s, u[j])
  }

  lemma InOrderPrefix<T>(a: seq<T>, s: seq<T>, u: seq<T>)
    requires a <= s && (forall x :: x in u ==> x in a) && InOrder(a, u)
    ensures (forall x :: x in u ==> x in s && First(s, x) < |a|) && InOrder(s, u)
  {}

  /** Which list it is: the members of `s`, each once, in the order of their first occurrences. */
  lemma {:induction false} UniqueInOrder<T>(s: seq<T>)
    ensures (forall x :: x in Unique(s) <==> x in s) && InOrder(s, Unique(s))
  {
    UniqueMembers(s);
    if s != [] {
      var a := s[..|s| - 1];
      UniqueInOrder(a);
      forall x | x in Unique(a)
        ensures x in a
      {
        UniqueMember(a, x);
      }
      InOrderPrefix(a, s, Unique(a));
      InOrderStep(s, Unique(a));
    }
  }

  lemma InOrderStep<T>(s: seq<T>, u: seq<T>)
    requires s != [] && (forall x :: x in u ==> x in s && First(s, x) < |s| - 1) && InOrder(s, u)
    ensures s[|s| - 1] !in s[..|s| - 1] ==> InOrder(s, u + [s[|s| - 1]])
  {}

  lemma UniqueStep<T>(s: seq<T>, x: T)
    ensures Unique(s + [x]) == if x in Unique(s) then Unique(s) else Unique(s) + [x]
  {}

  /** Repetitions may be dropped early. */
  lemma {:induction false} UniqueOfUnique<T>(a: seq<T>, b: seq<T>)
    ensures Unique(a + Unique(b)) == Unique(a + b)
  {
    if b != [] {
      var n := |b| - 1;
      var x := b[n];
      UniqueOfUnique(a, b[..n]);
      assert a + b == (a + b[..n]) + [x];
      UniqueStep(a + b[..n], x);
      UniqueMembers(a + b[..n]);
      UniqueMembers(b[..n]);
      if x !in Unique(b[..n]) {
        assert a + Unique(b) == (a + Unique(b[..n])) + [x];
        UniqueStep(a + Unique(b[..n]), x);
      }
    }
  }

  lemma {:induction false} UniqueOfUniqueLeft<T>(a: seq<T>, b: seq<T>)
    ensures Unique(Unique(a) + b) == Unique(a + b)
  {
    if b == [] {
      assert a + b == a && Unique(a) + b == [] + Unique(a);
      UniqueOfUnique([], a);
      assert [] + a == a;
    } else {
      var n := |b| - 1;
      UniqueOfUniqueLeft(a, b[..n]);
      assert a + b == (a + b[..n]) + [b[n]];
      assert Unique(a) + b == (Unique(a) + b[..n]) + [b[n]];
      UniqueStep(a + b[..n], b[n]);
      UniqueStep(Unique(a) + b[..n], b[n]);
    }
  }
}
