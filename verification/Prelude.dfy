/** What several models need: an optional value and the size of a subset. */
module Prelude {

  datatype Option<T> = None | Some(value: T)

  lemma {:induction false} SubsetSize<T>(a: set<T>, b: set<T>)
    requires a <= b
    ensures |a| <= |b|
  {
    if a != {} {
      var x :| x in a;
      SubsetSize(a - {x}, b - {x});
    }
  }

  /** Positions below n in ascending order. */
  ghost predicate Ascends(at: seq<nat>, n: nat) {
    (forall i :: 0 <= i < |at| ==> at[i] < n) && forall i, j :: 0 <= i < j < |at| ==> at[i] < at[j]
  }

  /** The positions of the true flags. */
  function Trues(flags: seq<bool>): (at: seq<nat>)
    ensures forall k :: k in at <==> 0 <= k < |flags| && flags[k]
    ensures Ascends(at, |flags|)
  {
    if flags == [] then []
    else
      var n := |flags| - 1;
      Trues(flags[..n]) + (if flags[n] then [n] else [])
  }

  /** What stands at some ascending positions. */
  ghost predicate TakenAt<T(!new)>(out: seq<T>, s: seq<T>, at: seq<nat>) {
    |out| == |at| && Ascends(at, |s|) && forall i :: 0 <= i < |at| ==> out[i] == s[at[i]]
  }

  lemma TakenNext<T(!new)>(out: seq<T>, s: seq<T>, flags: seq<bool>)
    requires s != [] && |flags| == |s| && TakenAt(out, s[..|s| - 1], Trues(flags[..|s| - 1]))
    ensures var n := |s| - 1;
            TakenAt(out + (if flags[n] then [s[n]] else []), s, Trues(flags))
  {
    var n := |s| - 1;
    var before, at := Trues(flags[..n]), Trues(flags);
    assert at == before + (if flags[n] then [n] else []);
    forall i | 0 <= i < |before|
      ensures out[i] == s[at[i]]
    {
      assert at[i] == before[i] < n && s[..n][before[i]] == s[before[i]];
    }
  }
}
