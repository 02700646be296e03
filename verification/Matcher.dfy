/** The polluted-domain matcher: building the pattern sets, the suffix walk, and the subdomain
    relation (section 3.1 of RFC 1034) that the walk decides. */
module Matcher {
  import opened Text

  // ---- patterns ----

  datatype Kind = Blank | Everything | Root(domain: string) | Wildcard(domain: string) | Invalid

  /** What one configured pattern means. */
  function Classify(pattern: string): Kind {
    var p := Lower(TrimSpace(pattern));
    if p == "" then Blank
    else if p == "*" then Everything
    else
      var d := TrimSuffix(p, '.');
      if HasPrefix(d, "*.") then
        if d[2..] == "" || '*' in d[2..] then Invalid else Wildcard(d[2..])
      else if '*' in d then Invalid
      else Root(d)
  }

  datatype Patterns = Patterns(roots: set<string>, wildcards: set<string>, all: bool)

  /** The pattern set of a list, without regard to order or repetition. */
  function Parsed(list: seq<string>): Patterns {
    Patterns(
      set p | p in list && Classify(p).Root? :: Classify(p).domain,
      set p | p in list && Classify(p).Wildcard? :: Classify(p).domain,
      exists p :: p in list && Classify(p).Everything?)
  }

  predicate AllValid(list: seq<string>) {
    forall p :: p in list ==> !Classify(p).Invalid?
  }

  /** Only which patterns occur matters. */
  lemma OrderIrrelevant(a: seq<string>, b: seq<string>)
    requires forall p :: p in a <==> p in b
    ensures Parsed(a) == Parsed(b) && (AllValid(a) <==> AllValid(b))
  {
    assert Parsed(a).roots == Parsed(b).roots;
    assert Parsed(a).wildcards == Parsed(b).wildcards;
  }

  // ---- names ----

  function Labels(name: string): seq<string> {
    Split(name, '.')
  }

  /** `a` is `b` or one of its subdomains' parents: its labels end the labels of `b`. */
  predicate Under(b: string, a: string) {
    |Labels(a)| <= |Labels(b)| && Labels(b)[|Labels(b)| - |Labels(a)|..] == Labels(a)
  }

  predicate StrictlyUnder(b: string, a: string) {
    Under(b, a) && |Labels(a)| < |Labels(b)|
  }

  function Clean(name: string): string {
    TrimSuffix(Lower(TrimSpace(name)), '.')
  }

  /** A normalised name is matched. */
  predicate MatchesClean(ps: Patterns, n: string) {
    n != "" && (
      || ps.all
      || (exists r :: r in ps.roots && Under(n, r))
      || (exists w :: w in ps.wildcards && StrictlyUnder(n, w)))
  }

  predicate Matches(ps: Patterns, name: string) {
    MatchesClean(ps, Clean(name))
  }

  // ---- the walk ----

  /** The text of the labels from the k-th on. */
  function From(n: string, k: nat): string
    requires k < |Labels(n)|
  {
    Join(Labels(n)[k..], '.')
  }

  lemma FromLabels(n: string, k: nat)
    requires k < |Labels(n)|
    ensures Labels(From(n, k)) == Labels(n)[k..]
  {
    SplitJoin(Labels(n)[k..], '.');
  }

  lemma LabelsInjective(a: string, b: string)
    requires Labels(a) == Labels(b)
    ensures a == b
  {
    JoinSplit(a, '.');
    JoinSplit(b, '.');
  }

  /** A domain covers a name exactly when it is one of the texts the walk looks up. */
  lemma UnderIsFrom(n: string, d: string)
    ensures Under(n, d) <==> exists k :: 0 <= k < |Labels(n)| && d == From(n, k)
  {
    if Under(n, d) {
      var k := |Labels(n)| - |Labels(d)|;
      FromLabels(n, k);
      LabelsInjective(d, From(n, k));
    }
    if k :| 0 <= k < |Labels(n)| && d == From(n, k) {
      FromLabels(n, k);
    }
  }

  lemma StrictlyUnderIsFrom(n: string, d: string)
    ensures StrictlyUnder(n, d) <==> exists k :: 1 <= k < |Labels(n)| && d == From(n, k)
  {
    if StrictlyUnder(n, d) {
      var k := |Labels(n)| - |Labels(d)|;
      FromLabels(n, k);
      LabelsInjective(d, From(n, k));
    }
    if k :| 1 <= k < |Labels(n)| && d == From(n, k) {
      FromLabels(n, k);
    }
  }

  /** Cutting a text behind its first dot drops exactly its first label. */
  lemma CutFirstLabel(s: string)
    ensures var i := IndexByte(s, '.');
            if i < 0 then |Labels(s)| == 1 else Labels(s)[1..] == Labels(s[i + 1..]) && |Labels(s)| > 1
  {
    var i := IndexByte(s, '.');
    if i >= 0 {
      SplitConcat(s[..i], '.', s[i + 1..]);
      assert s[..i] + ['.'] + s[i + 1..] == s;
    }
  }

  lemma FromNext(n: string, k: nat)
    requires k < |Labels(n)|
    ensures var i := IndexByte(From(n, k), '.');
            if i < 0 then k == |Labels(n)| - 1
            else k + 1 < |Labels(n)| && From(n, k + 1) == From(n, k)[i + 1..]
  {
    var s := From(n, k);
    var i := IndexByte(s, '.');
    FromLabels(n, k);
    CutFirstLabel(s);
    if i >= 0 {
      FromLabels(n, k + 1);
      assert Labels(n)[k..][1..] == Labels(n)[k + 1..];
      LabelsInjective(From(n, k + 1), s[i + 1..]);
    }
  }

  class Matcher {
    var roots: set<string>
    var wildcard: set<string>
    var matchAll: bool

    function Value(): Patterns
      reads this
    {
      Patterns(roots, wildcard, matchAll)
    }

    constructor ()
      ensures Value() == Patterns({}, {}, false)
    {
      roots, wildcard, matchAll := {}, {}, false;
    }

    /** Replaces the pattern set, or leaves it alone when some pattern is invalid. */
    method Reset(patterns: seq<string>) returns (ok: bool)
      modifies this
      ensures ok <==> AllValid(patterns)
      ensures Value() == if ok then Parsed(patterns) else old(Value())
    {
      var newRoots: set<string>, newWildcard: set<string>, all := {}, {}, false;
      for i := 0 to |patterns|
        invariant AllValid(patterns[..i])
        invariant Patterns(newRoots, newWildcard, all) == Parsed(patterns[..i])
        invariant Value() == old(Value())
      {
        ExtendParsed(patterns, i);
        var p := Lower(TrimSpace(patterns[i]));
        if p == "" { continue; }
        if p == "*" {
          all := true;
          continue;
        }
        p := TrimSuffix(p, '.');
        if HasPrefix(p, "*.") {
          var root := p[2..];
          if root == "" || '*' in root {
            assert patterns[i] in patterns;
            return false;
          }
          newWildcard := newWildcard + {root};
          continue;
        }
        if '*' in p {
          assert patterns[i] in patterns;
          return false;
        }
        newRoots := newRoots + {p};
      }
      assert patterns[..|patterns|] == patterns;
      roots, wildcard, matchAll := newRoots, newWildcard, all;
      return true;
    }

    /** The suffix walk decides the subdomain relation. */
    method Match(name: string) returns (matched: bool)
      ensures matched <==> Matches(Value(), name)
    {
      var n := Clean(name);
      if n == "" { return false; }
      if matchAll { return true; }
      ghost var k := 0;
      var cur := n;
      JoinSplit(n, '.');
      assert Labels(n)[0..] == Labels(n);
      if cur in roots {
        WalkFinds(Value(), n, 0);
        return true;
      }
      while true
        invariant k < |Labels(n)| && cur == From(n, k)
        invariant forall j :: 0 <= j <= k ==> From(n, j) !in roots
        invariant forall j :: 1 <= j <= k ==> From(n, j) !in wildcard
        decreases |Labels(n)| - k
      {
        FromNext(n, k);
        var i := IndexByte(cur, '.');
        if i < 0 {
          WalkMisses(Value(), n);
          return false;
        }
        cur := cur[i + 1..];
        k := k + 1;
        if cur in roots || cur in wildcard {
          WalkFinds(Value(), n, k);
          return true;
        }
      }
    }
  }

  lemma ExtendParsed(list: seq<string>, i: nat)
    requires i < |list|
    ensures var a, b, p := Parsed(list[..i]), Parsed(list[..i + 1]), list[i];
            && b.roots == a.roots + (if Classify(p).Root? then {Classify(p).domain} else {})
            && b.wildcards == a.wildcards + (if Classify(p).Wildcard? then {Classify(p).domain} else {})
            && (b.all <==> a.all || Classify(p).Everything?)
            && (AllValid(list[..i + 1]) <==> AllValid(list[..i]) && !Classify(p).Invalid?)
  {}

  /** Matching, told by the texts of the walk. */
  lemma MatchesByWalk(ps: Patterns, n: string)
    ensures MatchesClean(ps, n) <==>
              n != "" && (
                || ps.all
                || (exists k :: 0 <= k < |Labels(n)| && From(n, k) in ps.roots)
                || (exists k :: 1 <= k < |Labels(n)| && From(n, k) in ps.wildcards))
  {
    forall r | r in ps.roots
      ensures Under(n, r) <==> exists k :: 0 <= k < |Labels(n)| && r == From(n, k)
    {
      UnderIsFrom(n, r);
    }
    forall w | w in ps.wildcards
      ensures StrictlyUnder(n, w) <==> exists k :: 1 <= k < |Labels(n)| && w == From(n, k)
    {
      StrictlyUnderIsFrom(n, w);
    }
    FromIsUnder(n);
  }

  lemma WalkFinds(ps: Patterns, n: string, k: nat)
    requires n != "" && k < |Labels(n)|
    requires From(n, k) in ps.roots || (k >= 1 && From(n, k) in ps.wildcards)
    ensures MatchesClean(ps, n)
  {
    MatchesByWalk(ps, n);
  }

  lemma WalkMisses(ps: Patterns, n: string)
    requires !ps.all
    requires forall j :: 0 <= j < |Labels(n)| ==> From(n, j) !in ps.roots
    requires forall j :: 1 <= j < |Labels(n)| ==> From(n, j) !in ps.wildcards
    ensures !MatchesClean(ps, n)
  {
    MatchesByWalk(ps, n);
  }

  lemma FromIsUnder(n: string)
    ensures forall k :: 0 <= k < |Labels(n)| ==> Under(n, From(n, k))
    ensures forall k :: 1 <= k < |Labels(n)| ==> StrictlyUnder(n, From(n, k))
  {
    forall k | 0 <= k < |Labels(n)|
      ensures Under(n, From(n, k)) && (k >= 1 ==> StrictlyUnder(n, From(n, k)))
    {
      FromLabels(n, k);
    }
  }

  // ---- what matching respects ----

  /** A plain entry behaves like the name itself together with the wildcard below it. */
  lemma PlainIsRootAndWildcard(n: string, d: string)
    ensures MatchesClean(Patterns({d}, {}, false), n) <==>
              n != "" && (n == d || MatchesClean(Patterns({}, {d}, false), n))
  {
    if |Labels(n)| == |Labels(d)| && Under(n, d) {
      LabelsInjective(n, d);
    }
  }

  /** Adding labels on the left keeps a match. */
  lemma SubdomainsMatchToo(ps: Patterns, left: string, n: string)
    requires MatchesClean(ps, n)
    ensures MatchesClean(ps, left + ['.'] + n)
  {
    var m := left + ['.'] + n;
    SplitConcat(left, '.', n);
    assert Labels(m) == Labels(left) + Labels(n);
    forall d | Under(n, d)
      ensures Under(m, d)
    {
      assert Labels(m)[|Labels(m)| - |Labels(d)|..] == Labels(n)[|Labels(n)| - |Labels(d)|..];
    }
  }

  /** A label and a dot in front of a name stay in front of it when it is cleaned. */
  lemma CleanWithLabel(left: string, name: string)
    requires left != "" ==> !IsSpace(left[0])
    requires name != "" && !IsSpace(name[0]) && Clean(name) != ""
    ensures Clean(left + ['.'] + name) == Lower(left) + ['.'] + Clean(name)
  {
    var whole := left + ['.'] + name;
    assert TrimLeft(whole) == whole;
    TrimRightKeepsPrefix(left + ['.'], name);
    var t := TrimRight(name);
    assert left + ['.'] + name == (left + ['.']) + name;
    assert Lower((left + ['.']) + t) == (Lower(left) + ['.']) + Lower(t);
    assert Lower(t) != ['.'];
  }

  lemma {:induction false} TrimRightKeepsPrefix(a: string, b: string)
    requires b != "" && !IsSpace(b[0])
    ensures TrimRight(a + b) == a + TrimRight(b) && TrimRight(b) != ""
    decreases |b|
  {
    if IsSpace(b[|b| - 1]) {
      TrimRightKeepsPrefix(a, b[..|b| - 1]);
      assert (a + b)[..|a + b| - 1] == a + b[..|b| - 1];
    }
  }

  /** The same over names as they arrive. */
  lemma SubdomainNamesMatchToo(ps: Patterns, left: string, name: string)
    requires Matches(ps, name)
    requires left != "" ==> !IsSpace(left[0])
    requires name != "" && !IsSpace(name[0])
    ensures Matches(ps, left + ['.'] + name)
  {
    CleanWithLabel(left, name);
    SubdomainsMatchToo(ps, Lower(left), Clean(name));
  }

  lemma {:induction false} TrimLeftLower(s: string)
    ensures Lower(TrimLeft(s)) == TrimLeft(Lower(s))
  {
    if s != "" && IsSpace(s[0]) {
      TrimLeftLower(s[1..]);
      assert Lower(s)[1..] == Lower(s[1..]);
    }
  }

  lemma {:induction false} TrimRightLower(s: string)
    ensures Lower(TrimRight(s)) == TrimRight(Lower(s))
  {
    if s != "" && IsSpace(s[|s| - 1]) {
      TrimRightLower(s[..|s| - 1]);
      assert Lower(s)[..|s| - 1] == Lower(s[..|s| - 1]);
    }
  }

  lemma CaseIgnored(ps: Patterns, a: string, b: string)
    requires SameLetters(a, b)
    ensures Matches(ps, a) <==> Matches(ps, b)
  {
    LowerIs(a, b);
    TrimLeftLower(a);
    TrimLeftLower(b);
    TrimRightLower(TrimLeft(a));
    TrimRightLower(TrimLeft(b));
  }

  // ---- what a list of patterns means ----

  /** n is d with something and a dot in front of it. */
  ghost predicate Below(n: string, d: string) {
    exists left: string :: n == left + ['.'] + d
  }

  lemma {:induction false} JoinParts(a: seq<string>, b: seq<string>, sep: char)
    requires a != [] && b != []
    ensures Join(a + b, sep) == Join(a, sep) + [sep] + Join(b, sep)
  {
    assert (a + b)[1..] == a[1..] + b;
    if |a| == 1 {
      assert a[1..] + b == b;
    } else {
      JoinParts(a[1..], b, sep);
    }
  }

  /** The subdomain relation on labels, told by the texts: something and a dot in front. */
  lemma UnderIsSuffix(n: string, d: string)
    ensures StrictlyUnder(n, d) <==> Below(n, d)
    ensures Under(n, d) <==> n == d || Below(n, d)
  {
    if StrictlyUnder(n, d) {
      var k := |Labels(n)| - |Labels(d)|;
      JoinParts(Labels(n)[..k], Labels(n)[k..], '.');
      assert Labels(n)[..k] + Labels(n)[k..] == Labels(n);
      JoinSplit(n, '.');
      JoinSplit(d, '.');
      assert n == Join(Labels(n)[..k], '.') + ['.'] + d;
    }
    if left: string :| n == left + ['.'] + d {
      SplitConcat(left, '.', d);
    }
    if Under(n, d) && !StrictlyUnder(n, d) { LabelsInjective(n, d); }
  }

  /** What one pattern covers. */
  ghost predicate Covers(kind: Kind, n: string) {
    match kind
    case Everything => true
    case Root(d) => n == d || Below(n, d)
    case Wildcard(d) => Below(n, d)
    case _ => false
  }

  /** A name is matched exactly when it is not empty and some pattern of the list covers it. */
  lemma MatchesIff(list: seq<string>, name: string)
    ensures Matches(Parsed(list), name) <==>
              Clean(name) != "" && exists p :: p in list && Covers(Classify(p), Clean(name))
  {
    var n := Clean(name);
    forall d
      ensures (StrictlyUnder(n, d) <==> Below(n, d)) && (Under(n, d) <==> n == d || Below(n, d))
    {
      UnderIsSuffix(n, d);
    }
    if Matches(Parsed(list), name) {
      SomeCovers(list, n);
    }
    if n != "" {
      if p :| p in list && Covers(Classify(p), n) { CoveredMatches(list, p, n); }
    }
  }

  lemma SomeCovers(list: seq<string>, n: string)
    requires MatchesClean(Parsed(list), n)
    ensures exists p :: p in list && Covers(Classify(p), n)
  {
    var ps := Parsed(list);
    if ps.all {
      var p :| p in list && Classify(p).Everything?;
      assert Covers(Classify(p), n);
    } else if d :| d in ps.roots && Under(n, d) {
      var p :| p in list && Classify(p).Root? && Classify(p).domain == d;
      UnderIsSuffix(n, d);
      assert Covers(Classify(p), n);
    } else {
      var d :| d in ps.wildcards && StrictlyUnder(n, d);
      var p :| p in list && Classify(p).Wildcard? && Classify(p).domain == d;
      UnderIsSuffix(n, d);
      assert Covers(Classify(p), n);
    }
  }

  lemma CoveredMatches(list: seq<string>, p: string, n: string)
    requires p in list && Covers(Classify(p), n) && n != ""
    ensures MatchesClean(Parsed(list), n)
  {
    match Classify(p)
    case Root(d) =>
      UnderIsSuffix(n, d);
      assert d in Parsed(list).roots;
    case Wildcard(d) =>
      UnderIsSuffix(n, d);
      assert d in Parsed(list).wildcards;
    case _ =>
  }

  /** A name as patterns and the walk look it up: lower case, trimmed, without a trailing dot. */
  predicate IsClean(n: string) {
    Trimmed(n) && (forall i :: 0 <= i < |n| ==> !IsUpper(n[i])) && (n != "" ==> n[|n| - 1] != '.')
  }

  /** How a clean name may be written: in any case, with or without a trailing dot, with space around. */
  predicate Writes(text: string, before: string, n: string, dot: bool, after: string) {
    && AllSpace(before) && AllSpace(after) && |before| + |n| + |after| + (if dot then 1 else 0) == |text|
    && var m := |before|;
       && text[..m] == before && SameLetters(text[m..m + |n|], n)
       && text[m + |n|..] == (if dot then "." else "") + after
  }

  lemma WrittenIs(text: string, before: string, n: string, dot: bool, after: string)
    requires n != "" && IsClean(n) && Writes(text, before, n, dot, after)
    ensures Lower(TrimSpace(text)) == n + (if dot then "." else "")
  {
    var m := |before|;
    var core := text[m..m + |n|];
    var whole := core + (if dot then "." else "");
    assert text == before + whole + after;
    assert core[0] == n[0] || SameLetter(core[0], n[0]);
    TrimSpaceIs(before, whole, after);
    LowerIs(core, n);
    LowerStays(n);
    assert Lower(whole) == Lower(core) + (if dot then "." else "");
  }

  lemma LowerStays(n: string)
    requires forall i :: 0 <= i < |n| ==> !IsUpper(n[i])
    ensures Lower(n) == n
  {}

  /** However a clean name is written, it is looked up as itself. */
  lemma CleanIs(text: string, before: string, n: string, dot: bool, after: string)
    requires n != "" && IsClean(n) && Writes(text, before, n, dot, after)
    ensures Clean(text) == n
  {
    WrittenIs(text, before, n, dot, after);
  }

  /** Likewise a plain pattern stands for the domain, ... */
  lemma PlainIs(text: string, before: string, d: string, dot: bool, after: string)
    requires d != "" && IsClean(d) && '*' !in d && Writes(text, before, d, dot, after)
    ensures Classify(text) == Root(d)
  {
    WrittenIs(text, before, d, dot, after);
    var p := d + (if dot then "." else "");
    assert d[0] != '*' && p[0] == d[0];
    assert p != "*" && TrimSuffix(p, '.') == d;
    assert |d| >= 2 ==> d[..2][0] == d[0];
  }

  /** ... one with `*.` in front for what is below it, ... */
  lemma WildcardIs(text: string, before: string, d: string, dot: bool, after: string)
    requires d != "" && IsClean(d) && '*' !in d && Writes(text, before, "*." + d, dot, after)
    ensures Classify(text) == Wildcard(d)
  {
    WrittenIs(text, before, "*." + d, dot, after);
    assert ("*." + d)[2..] == d;
  }

  /** ... a star alone for everything, and space for nothing. */
  lemma StarAndBlank(before: string, after: string)
    requires AllSpace(before) && AllSpace(after)
    ensures Classify(before + "*" + after) == Everything && Classify(before + "" + after) == Blank
  {
    TrimSpaceIs(before, "*", after);
    TrimSpaceIs(before, "", after);
  }

  /** A star that a pattern must not have: not alone and not in a leading `*.` with something behind it. */
  predicate BadStar(d: string, i: nat)
    requires i < |d|
  {
    d[i] == '*' && (i > 0 || |d| < 3 || d[1] != '.')
  }

  lemma BadStarLower(d: string, e: string)
    requires |d| == |e| && forall i :: 0 <= i < |d| ==> e[i] == LowerChar(d[i])
    ensures forall i :: 0 <= i < |d| ==> (BadStar(d, i) <==> BadStar(e, i))
  {}

  lemma StarsOf(e: string)
    ensures (exists i :: 0 <= i < |e| && BadStar(e, i)) <==>
              if HasPrefix(e, "*.") then e[2..] == "" || '*' in e[2..] else '*' in e
  {
    if HasPrefix(e, "*.") {
      assert e[0] == e[..2][0] && e[1] == e[..2][1];
      if e[2..] == "" { assert BadStar(e, 0); }
      if '*' in e[2..] {
        var i :| 0 <= i < |e[2..]| && e[2..][i] == '*';
        assert BadStar(e, i + 2);
      }
      assert forall i :: 2 <= i < |e| ==> e[i] == e[2..][i - 2];
    } else if '*' in e {
      var i :| 0 <= i < |e| && e[i] == '*';
      assert i == 0 && |e| >= 2 ==> e[..2] == [e[0], e[1]];
      assert BadStar(e, i);
    }
  }

  /** A pattern is refused exactly when it has such a star. */
  lemma InvalidIff(p: string)
    requires Trimmed(p)
    ensures var d := TrimSuffix(p, '.');
            Classify(p).Invalid? <==> p != "*" && exists i :: 0 <= i < |d| && BadStar(d, i)
  {
    TrimSpaceIs("", p, "");
    assert "" + p + "" == p;
    var d, e := TrimSuffix(p, '.'), TrimSuffix(Lower(p), '.');
    assert |d| == |e| && forall i :: 0 <= i < |d| ==> e[i] == LowerChar(d[i]);
    assert p == "*" <==> Lower(p) == "*";
    BadStarLower(d, e);
    StarsOf(e);
  }

  /** One trailing dot makes no difference. */
  lemma TrailingDotIgnored(ps: Patterns, name: string)
    requires name != "" && !IsSpace(name[|name| - 1]) && name[|name| - 1] != '.'
    ensures Matches(ps, name + ['.']) <==> Matches(ps, name)
  {
    TrimLeftKeepsSuffix(name, ['.']);
    var t := TrimLeft(name);
    assert TrimRight(t) == t && TrimRight(t + ['.']) == t + ['.'];
    assert Lower(t + ['.']) == Lower(t) + ['.'];
    assert Lower(t)[|t| - 1] == LowerChar(t[|t| - 1]) != '.';
  }

  lemma {:induction false} TrimLeftKeepsSuffix(a: string, b: string)
    requires a != "" && !IsSpace(a[|a| - 1])
    ensures TrimLeft(a + b) == TrimLeft(a) + b
    ensures TrimLeft(a) != "" && TrimLeft(a)[|TrimLeft(a)| - 1] == a[|a| - 1]
  {
    if IsSpace(a[0]) {
      TrimLeftKeepsSuffix(a[1..], b);
      assert (a + b)[1..] == a[1..] + b;
    }
  }
}
