/** sort.Strings: the lexicographic order and the one ascending list of a set of strings. */
module StringOrder {

  predicate Less(a: string, b: string) {
    b != "" && (a == "" || a[0] < b[0] || (a[0] == b[0] && Less(a[1..], b[1..])))
  }

  /** The texts agree up to k, where the first ends or has the smaller character. */
  predicate DifferAt(a: string, b: string, k: nat) {
    k <= |a| && k < |b| && a[..k] == b[..k] && (k == |a| || a[k] < b[k])
  }

  lemma SameStart(a: string, b: string, k: nat)
    requires DifferAt(a, b, k) && k > 0
    ensures a != "" && b != "" && a[0] == b[0]
  {
    assert a[..k][0] == a[0] && b[..k][0] == b[0];
  }

  /** The order is the lexicographic one, character by character. */
  lemma {:induction false} LessIs(a: string, b: string)
    ensures Less(a, b) <==> exists k :: 0 <= k < |b| && DifferAt(a, b, k)
  {
    if b != "" && (a == "" || a[0] != b[0]) {
      if Less(a, b) { assert DifferAt(a, b, 0); }
      if k :| 0 <= k < |b| && DifferAt(a, b, k) {
        if k > 0 { SameStart(a, b, k); }
      }
    } else if b != "" {
      LessIs(a[1..], b[1..]);
      if Less(a, b) {
        var k :| 0 <= k < |b[1..]| && DifferAt(a[1..], b[1..], k);
        assert a[..k + 1] == [a[0]] + a[1..][..k] && b[..k + 1] == [b[0]] + b[1..][..k];
        assert DifferAt(a, b, k + 1);
      }
      if k :| 0 <= k < |b| && DifferAt(a, b, k) {
        assert k > 0;
        assert a[1..][..k - 1] == a[..k][1..] && b[1..][..k - 1] == b[..k][1..];
        assert DifferAt(a[1..], b[1..], k - 1);
      }
    }
  }

  lemma {:induction false} LessTransitive(a: string, b: string, c: string)
    requires Less(a, b) && Less(b, c)
    ensures Less(a, c)
  {
    if a != "" && a[0] == b[0] == c[0] {
      LessTransitive(a[1..], b[1..], c[1..]);
    }
  }

  lemma {:induction false} LessTotal(a: string, b: string)
    ensures !(Less(a, b) && Less(b, a)) && (a != b ==> Less(a, b) || Less(b, a)) && !Less(a, a)
  {
    if a != "" && b != "" && a[0] == b[0] {
      LessTotal(a[1..], b[1..]);
      assert a == [a[0]] + a[1..] && b == [b[0]] + b[1..];
    }
    if a != "" { LessTotal(a[1..], a[1..]); }
  }

  predicate Ascending(list: seq<string>) {
    forall i, j :: 0 <= i < j < |list| ==> Less(list[i], list[j])
  }

  function Insert(x: string, list: seq<string>): seq<string> {
    if list == [] || Less(x, list[0]) then [x] + list else [list[0]] + Insert(x, list[1..])
  }

  function Sorted(list: seq<string>): seq<string> {
    if list == [] then [] else Insert(list[0], Sorted(list[1..]))
  }

  function Elements(list: seq<string>): set<string> {
    set x | x in list
  }

  lemma {:induction false} InsertElements(x: string, list: seq<string>)
    ensures Elements(Insert(x, list)) == Elements(list) + {x}
  {
    if list != [] && !Less(x, list[0]) {
      InsertElements(x, list[1..]);
      assert list == [list[0]] + list[1..];
      assert forall y :: y in Insert(x, list) <==> y == list[0] || y in Elements(Insert(x, list[1..]));
      assert forall y :: y in list <==> y == list[0] || y in Elements(list[1..]);
    }
  }

  /** `x` comes before everything in the list. */
  predicate Before(x: string, list: seq<string>) {
    forall y :: y in list ==> Less(x, y)
  }

  lemma AscendingCons(x: string, list: seq<string>)
    requires Ascending(list)
    ensures Ascending([x] + list) <==> Before(x, list)
  {
    var all := [x] + list;
    if Ascending(all) {
      forall y | y in list
        ensures Less(x, y)
      {
        var i :| 0 <= i < |list| && list[i] == y;
        assert Less(all[0], all[i + 1]);
      }
    }
  }

  lemma {:induction false} InsertAscends(x: string, list: seq<string>)
    requires Ascending(list) && x !in list
    ensures Ascending(Insert(x, list))
  {
    if list == [] {
    } else if Less(x, list[0]) {
      forall y | y in list
        ensures Less(x, y)
      {
        if y != list[0] { LessTransitive(x, list[0], y); }
      }
      AscendingCons(x, list);
    } else {
      LessTotal(x, list[0]);
      assert list == [list[0]] + list[1..];
      InsertAscends(x, list[1..]);
      InsertElements(x, list[1..]);
      AscendingCons(list[0], list[1..]);
      var rest := Insert(x, list[1..]);
      forall y | y in rest
        ensures Less(list[0], y)
      {
        assert y in Elements(rest);
      }
      AscendingCons(list[0], rest);
    }
  }

  predicate Distinct(list: seq<string>) {
    forall i, j :: 0 <= i < j < |list| ==> list[i] != list[j]
  }

  lemma {:induction false} SortedAscends(list: seq<string>)
    requires Distinct(list)
    ensures Ascending(Sorted(list)) && Elements(Sorted(list)) == Elements(list)
  {
    if list != [] {
      SortedAscends(list[1..]);
      assert list == [list[0]] + list[1..];
      assert list[0] !in Elements(list[1..]);
      InsertAscends(list[0], Sorted(list[1..]));
      InsertElements(list[0], Sorted(list[1..]));
    }
  }

  /** A set has only one ascending list. */
  lemma {:induction false} AscendingUnique(a: seq<string>, b: seq<string>)
    requires Ascending(a) && Ascending(b) && Elements(a) == Elements(b)
    ensures a == b
  {
    NoElements(a);
    NoElements(b);
    if a == [] || b == [] {
    } else {
      SameHead(a, b);
      Tail(a);
      Tail(b);
      AscendingUnique(a[1..], b[1..]);
      assert a == [a[0]] + a[1..] && b == [b[0]] + b[1..];
    }
  }

  lemma NoElements(list: seq<string>)
    ensures Elements(list) == {} <==> list == []
  {
    if list != [] { assert list[0] in Elements(list); }
  }

  lemma Tail(a: seq<string>)
    requires a != [] && Ascending(a)
    ensures Elements(a[1..]) == Elements(a) - {a[0]}
  {
    LessTotal(a[0], a[0]);
    assert a == [a[0]] + a[1..];
    forall x | x in a[1..]
      ensures x != a[0]
    {
      LessTotal(x, x);
    }
  }

  lemma SameHead(a: seq<string>, b: seq<string>)
    requires a != [] && b != [] && Ascending(a) && Ascending(b) && Elements(a) == Elements(b)
    ensures a[0] == b[0]
  {
    LessTotal(a[0], b[0]);
    assert a[0] in Elements(b) && b[0] in Elements(a);
    var i :| 0 <= i < |b| && b[i] == a[0];
    var j :| 0 <= j < |a| && a[j] == b[0];
  }

  /** The ascending list of a set. */
  ghost function Order(keys: set<string>): (list: seq<string>)
  {
    if keys == {} then []
    else
      var k :| k in keys;
      Insert(k, Order(keys - {k}))
  }

  lemma {:induction false} OrderAscends(keys: set<string>)
    ensures Ascending(Order(keys)) && Elements(Order(keys)) == keys
  {
    if keys != {} {
      var k :| k in keys && Order(keys) == Insert(k, Order(keys - {k}));
      OrderAscends(keys - {k});
      assert k !in Elements(Order(keys - {k}));
      InsertAscends(k, Order(keys - {k}));
      InsertElements(k, Order(keys - {k}));
    }
  }

  /** Sorting any listing of a set gives its ascending list. */
  lemma SortedIsOrder(list: seq<string>)
    requires Distinct(list)
    ensures Sorted(list) == Order(Elements(list))
  {
    SortedAscends(list);
    OrderAscends(Elements(list));
    AscendingUnique(Sorted(list), Order(Elements(list)));
  }
}
