/** The string helpers of Go's `strings` package that the modelled code uses, over
    sequences of characters: splitting, joining, trimming and ASCII lower-casing. */
module Text {

  /** strings.Split(s, sep) for a one-character separator. */
  function Split(s: string, sep: char): (parts: seq<string>)
    ensures |parts| >= 1
    ensures forall i :: 0 <= i < |parts| ==> sep !in parts[i]
    ensures sep !in s ==> parts == [s]
  {
    if s == "" then [""]
    else
      var rest := Split(s[1..], sep);
      assert [s[0]] + s[1..] == s;
      Prepend(s[0], sep, rest)
  }

  /** The parts of a text that starts with `c` and goes on with the text of `parts`. */
  function Prepend(c: char, sep: char, parts: seq<string>): seq<string>
    requires parts != []
  {
    if c == sep then [""] + parts else [[c] + parts[0]] + parts[1..]
  }

  /** strings.Join(parts, sep) for a one-character separator. */
  function Join(parts: seq<string>, sep: char): string {
    if parts == [] then ""
    else if |parts| == 1 then parts[0]
    else parts[0] + [sep] + Join(parts[1..], sep)
  }

  /** Splitting loses nothing: joining the parts gives the text back. */
  lemma {:induction false} JoinSplit(s: string, sep: char)
    ensures Join(Split(s, sep), sep) == s
  {
    if s != "" {
      JoinSplit(s[1..], sep);
      var rest := Split(s[1..], sep);
      if s[0] == sep {
        assert Split(s, sep)[1..] == rest;
      } else {
        assert Split(s, sep)[1..] == rest[1..];
      }
    }
  }

  /** Splitting at a separator inside the text splits both sides independently. */
  lemma {:induction false} SplitConcat(a: string, sep: char, b: string)
    ensures Split(a + [sep] + b, sep) == Split(a, sep) + Split(b, sep)
  {
    var whole := a + [sep] + b;
    if a == "" {
      assert whole[1..] == b;
    } else {
      assert whole[1..] == a[1..] + [sep] + b && whole[0] == a[0];
      SplitConcat(a[1..], sep, b);
      PrependConcat(a[0], sep, Split(a[1..], sep), Split(b, sep));
    }
  }

  lemma PrependConcat(c: char, sep: char, a: seq<string>, b: seq<string>)
    requires a != []
    ensures Prepend(c, sep, a + b) == Prepend(c, sep, a) + b
  {}

  /** Joining loses nothing either, as long as no part holds the separator. */
  lemma {:induction false} SplitJoin(parts: seq<string>, sep: char)
    requires parts != []
    requires forall i :: 0 <= i < |parts| ==> sep !in parts[i]
    ensures Split(Join(parts, sep), sep) == parts
  {
    if |parts| > 1 {
      SplitJoin(parts[1..], sep);
      SplitConcat(parts[0], sep, Join(parts[1..], sep));
      assert [parts[0]] + parts[1..] == parts;
    }
  }

  /** strings.IndexByte */
  function IndexByte(s: string, c: char): (i: int)
    ensures -1 <= i < |s|
    ensures i < 0 ==> c !in s
    ensures i >= 0 ==> s[i] == c && c !in s[..i]
  {
    if s == "" then -1
    else if s[0] == c then 0
    else
      var i := IndexByte(s[1..], c);
      if i < 0 then -1 else assert s[..i + 1] == [s[0]] + s[1..][..i]; i + 1
  }

  predicate HasPrefix(s: string, p: string) {
    |p| <= |s| && s[..|p|] == p
  }

  /** strings.TrimSuffix for a one-character suffix. */
  function TrimSuffix(s: string, c: char): string {
    if s != "" && s[|s| - 1] == c then s[..|s| - 1] else s
  }

  /** The white space of the ASCII range, as unicode.IsSpace sees it. */
  predicate IsSpace(c: char) {
    c == ' ' || c == '\t' || c == '\n' || c == '\r' || c == 11 as char || c == 12 as char
  }

  function TrimLeft(s: string): string {
    if s != "" && IsSpace(s[0]) then TrimLeft(s[1..]) else s
  }

  function TrimRight(s: string): string {
    if s != "" && IsSpace(s[|s| - 1]) then TrimRight(s[..|s| - 1]) else s
  }

  function TrimSpace(s: string): string {
    TrimRight(TrimLeft(s))
  }

  function LowerChar(c: char): char {
    if 'A' <= c <= 'Z' then (c as int + 32) as char else c
  }

  /** strings.ToLower on ASCII text. */
  function Lower(s: string): (r: string)
    ensures |r| == |s|
  {
    seq(|s|, i requires 0 <= i < |s| => LowerChar(s[i]))
  }

  /** strings.Fields: the maximal runs of non-space characters. */
  function Fields(s: string): (fs: seq<string>)
    ensures forall f :: f in fs ==> f != ""
    decreases |s|
  {
    if s == "" then []
    else if IsSpace(s[0]) then Fields(s[1..])
    else
      var w := Word(s);
      [w] + Fields(s[|w|..])
  }

  /** The leading run of non-space characters. */
  function Word(s: string): (w: string)
    ensures |w| <= |s| && s[..|w|] == w
    ensures s != "" && !IsSpace(s[0]) ==> w != ""
  {
    if s == "" || IsSpace(s[0]) then "" else [s[0]] + Word(s[1..])
  }

  // ---- what the helpers mean ----

  predicate IsUpper(c: char) {
    'A' <= c <= 'Z'
  }

  /** The same character, or a letter and its other case. */
  predicate SameLetter(c: char, d: char) {
    c == d || (IsUpper(c) && d as int == c as int + 32) || (IsUpper(d) && c as int == d as int + 32)
  }

  /** Two texts that differ in the case of ASCII letters only. */
  predicate SameLetters(a: string, b: string) {
    |a| == |b| && forall i :: 0 <= i < |a| ==> SameLetter(a[i], b[i])
  }

  /** Lower-casing changes nothing but the case of letters, leaves no upper-case letter, and so identifies
      exactly the texts that differ in case only. */
  lemma LowerIs(a: string, b: string)
    ensures SameLetters(a, Lower(a)) && forall i :: 0 <= i < |a| ==> !IsUpper(Lower(a)[i])
    ensures Lower(a) == Lower(b) <==> SameLetters(a, b)
  {
    if Lower(a) == Lower(b) {
      forall i | 0 <= i < |a|
        ensures SameLetter(a[i], b[i])
      {
        assert Lower(a)[i] == Lower(b)[i];
      }
    }
  }

  predicate AllSpace(s: string) {
    forall i :: 0 <= i < |s| ==> IsSpace(s[i])
  }

  predicate SpaceFree(s: string) {
    forall i :: 0 <= i < |s| ==> !IsSpace(s[i])
  }

  /** No space at either end. */
  predicate Trimmed(s: string) {
    s != "" ==> !IsSpace(s[0]) && !IsSpace(s[|s| - 1])
  }

  lemma {:induction false} TrimLeftIs(a: string, t: string)
    requires AllSpace(a) && (t != "" ==> !IsSpace(t[0]))
    ensures TrimLeft(a + t) == t
  {
    if a == "" {
      assert a + t == t;
    } else {
      assert (a + t)[1..] == a[1..] + t;
      TrimLeftIs(a[1..], t);
    }
  }

  lemma {:induction false} TrimRightIs(t: string, b: string)
    requires AllSpace(b) && (t != "" ==> !IsSpace(t[|t| - 1]))
    ensures TrimRight(t + b) == t
    decreases |b|
  {
    if b == "" {
      assert t + b == t;
    } else {
      assert (t + b)[..|t + b| - 1] == t + b[..|b| - 1];
      TrimRightIs(t, b[..|b| - 1]);
    }
  }

  /** Trimming takes off exactly the space around a text. */
  lemma TrimSpaceIs(a: string, t: string, b: string)
    requires AllSpace(a) && AllSpace(b) && Trimmed(t)
    ensures TrimSpace(a + t + b) == t
  {
    if t == "" {
      TrimLeftIs(a + t + b, "");
      assert (a + t + b) + "" == a + t + b;
    } else {
      assert a + t + b == a + (t + b);
      TrimLeftIs(a, t + b);
      TrimRightIs(t, b);
    }
  }

  /** A text made of words with space around them: gap, word, gap, word, ..., gap. */
  function Spread(gaps: seq<string>, words: seq<string>): string
    requires |gaps| == |words| + 1
  {
    if words == [] then gaps[0] else gaps[0] + (words[0] + Spread(gaps[1..], words[1..]))
  }

  lemma {:induction false} WordThen(a: string, rest: string)
    requires SpaceFree(a) && (rest == "" || IsSpace(rest[0]))
    ensures Word(a + rest) == a
  {
    if a == "" {
      assert a + rest == rest;
    } else {
      WordThen(a[1..], rest);
      assert (a + rest)[1..] == a[1..] + rest;
    }
  }

  lemma {:induction false} FieldsAfterGap(gap: string, rest: string)
    requires AllSpace(gap)
    ensures Fields(gap + rest) == Fields(rest)
  {
    if gap == "" {
      assert gap + rest == rest;
    } else {
      FieldsAfterGap(gap[1..], rest);
      assert (gap + rest)[1..] == gap[1..] + rest;
    }
  }

  predicate Gaps(gaps: seq<string>) {
    && (forall i :: 0 <= i < |gaps| ==> AllSpace(gaps[i]))
    && (forall i :: 1 <= i < |gaps| - 1 ==> gaps[i] != "")
  }

  predicate AreWords(words: seq<string>) {
    forall i :: 0 <= i < |words| ==> words[i] != "" && SpaceFree(words[i])
  }

  /** The fields of a text are its words: whatever space is between and around them. */
  lemma {:induction false} FieldsAreWords(gaps: seq<string>, words: seq<string>)
    requires |gaps| == |words| + 1 && Gaps(gaps) && AreWords(words)
    ensures Fields(Spread(gaps, words)) == words
    decreases |words|
  {
    if words == [] {
      FieldsAfterGap(gaps[0], "");
      assert gaps[0] + "" == gaps[0];
    } else {
      var rest := Spread(gaps[1..], words[1..]);
      FieldsAfterGap(gaps[0], words[0] + rest);
      assert rest == "" || IsSpace(rest[0]) by { StartsWithGap(gaps[1..], words[1..]); }
      WordThen(words[0], rest);
      assert (words[0] + rest)[|words[0]|..] == rest;
      FieldsAreWords(gaps[1..], words[1..]);
    }
  }

  lemma StartsWithGap(gaps: seq<string>, words: seq<string>)
    requires |gaps| == |words| + 1 && (forall i :: 0 <= i < |gaps| ==> AllSpace(gaps[i]))
    requires words != [] ==> gaps[0] != ""
    ensures var s := Spread(gaps, words); s == "" || IsSpace(s[0])
  {}

  lemma {:induction false} FieldsTrimLeft(s: string)
    ensures Fields(TrimLeft(s)) == Fields(s)
  {
    if s != "" && IsSpace(s[0]) { FieldsTrimLeft(s[1..]); }
  }

  lemma {:induction false} WordBeforeSpace(s: string, c: char)
    requires IsSpace(c)
    ensures Word(s + [c]) == Word(s)
  {
    if s == "" {
      assert s + [c] == [c];
    } else if !IsSpace(s[0]) {
      assert (s + [c])[1..] == s[1..] + [c];
      WordBeforeSpace(s[1..], c);
    }
  }

  lemma {:induction false} FieldsBeforeSpace(s: string, c: char)
    requires IsSpace(c)
    ensures Fields(s + [c]) == Fields(s)
    decreases |s|
  {
    if s == "" {
      assert s + [c] == [c] && [c][1..] == "";
    } else if IsSpace(s[0]) {
      assert (s + [c])[1..] == s[1..] + [c];
      FieldsBeforeSpace(s[1..], c);
    } else {
      var n := |Word(s)|;
      WordBeforeSpace(s, c);
      assert (s + [c])[n..] == s[n..] + [c];
      FieldsBeforeSpace(s[n..], c);
    }
  }

  lemma {:induction false} FieldsTrimRight(s: string)
    ensures Fields(TrimRight(s)) == Fields(s)
    decreases |s|
  {
    if s != "" && IsSpace(s[|s| - 1]) {
      var n := |s| - 1;
      FieldsTrimRight(s[..n]);
      FieldsBeforeSpace(s[..n], s[n]);
      assert s[..n] + [s[n]] == s;
    }
  }

  /** Trimming a text does not change its fields. */
  lemma FieldsTrimSpace(s: string)
    ensures Fields(TrimSpace(s)) == Fields(s)
  {
    FieldsTrimLeft(s);
    FieldsTrimRight(TrimLeft(s));
  }

  lemma {:induction false} TrimRightIsPrefix(s: string)
    ensures TrimRight(s) <= s
    decreases |s|
  {
    if s != "" && IsSpace(s[|s| - 1]) { TrimRightIsPrefix(s[..|s| - 1]); }
  }
}
