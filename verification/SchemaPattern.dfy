/** The line pattern of the schema version: a recogniser and the pattern it stands for. */
module SchemaPattern {
  import opened Prelude
  import opened Text

  /** The three texts the code spells out: the key it looks for, the line that replaces a zero
      line, and the comment put above it in a stamped file. */
  datatype Wording = Wording(key: string, line: string, comment: string)

  /** The comment is put together from short pieces because the solver unfolds a literal character by
      character; the proof about it goes piece by piece. */
  const TRUE_DNS := Wording(
    "schema_version",
    "schema_version = 1",
    "# schema_version" + (": managed by " + ("true-dns, do " + "not edit")))

  // ---- the version line ----

  /** The key is one word of one line. */
  predicate KeyWord(key: string) {
    key != "" && !IsBlank(key[0]) && '\n' !in key
  }

  /** \s of the pattern. */
  predicate IsBlank(c: char) {
    c == ' ' || c == '\t' || c == '\n' || c == '\r' || c == 12 as char
  }

  predicate IsDigit(c: char) {
    '0' <= c <= '9'
  }

  function SkipBlanks(s: string): (r: string)
    ensures |r| <= |s|
  {
    if s != "" && IsBlank(s[0]) then SkipBlanks(s[1..]) else s
  }

  predicate AllBlank(s: string) {
    forall i :: 0 <= i < |s| ==> IsBlank(s[i])
  }

  predicate AllDigits(s: string) {
    forall i :: 0 <= i < |s| ==> IsDigit(s[i])
  }

  function TakeDigits(s: string): (d: string)
    ensures |d| <= |s|
  {
    if s != "" && IsDigit(s[0]) then [s[0]] + TakeDigits(s[1..]) else ""
  }

  /** The digits a line assigns to schema_version, if it is such a line. */
  function VersionDigits(w: Wording, line: string): Option<string> {
    var a := SkipBlanks(line);
    if !HasPrefix(a, w.key) then None
    else
      var b := SkipBlanks(a[|w.key|..]);
      if b == "" || b[0] != '=' then None
      else
        var c := SkipBlanks(b[1..]);
        var d := TakeDigits(c);
        var e := SkipBlanks(c[|d|..]);
        if d == "" || (e != "" && e[0] != '#') then None else Some(d)
  }

  /** The digits of a line as detectSchemaVersion and migrateV0toV1 see it. */
  function LineDigits(w: Wording, line: string): Option<string> {
    VersionDigits(w, TrimSuffix(line, '\r'))
  }

  /** The pattern ^\s*schema_version\s*=\s*(\d+)\s*(?:#.*)?$ read as a concatenation. */
  ghost predicate MatchesPattern(w: Wording, line: string, digits: string) {
    exists w1, w2, w3, w4, rest :: Decomposes(w, line, digits, w1, w2, w3, w4, rest)
  }

  ghost predicate Decomposes(w: Wording, line: string, digits: string,
                             w1: string, w2: string, w3: string, w4: string, rest: string)
  {
    && AllBlank(w1) && AllBlank(w2) && AllBlank(w3) && AllBlank(w4)
    && digits != "" && AllDigits(digits) && (rest == "" || rest[0] == '#')
    && line == w1 + (w.key + (w2 + ("=" + (w3 + (digits + (w4 + rest))))))
  }

  lemma {:induction false} SkipsBlanks(s: string) returns (w: string)
    ensures s == w + SkipBlanks(s) && AllBlank(w)
    ensures SkipBlanks(s) != "" ==> !IsBlank(SkipBlanks(s)[0])
  {
    w := "";
    if s != "" && IsBlank(s[0]) {
      w := SkipsBlanks(s[1..]);
      w := [s[0]] + w;
    }
  }

  lemma {:induction false} TakesDigits(s: string)
    ensures var d := TakeDigits(s); s == d + s[|d|..] && AllDigits(d)
  {
    if s != "" && IsDigit(s[0]) { TakesDigits(s[1..]); }
  }

  lemma {:induction false} SkipsExactly(w: string, s: string)
    requires AllBlank(w) && (s != "" ==> !IsBlank(s[0]))
    ensures SkipBlanks(w + s) == s
  {
    if w == "" {
      assert w + s == s;
    } else {
      assert (w + s)[1..] == w[1..] + s;
      SkipsExactly(w[1..], s);
    }
  }

  lemma {:induction false} TakesExactly(d: string, s: string)
    requires AllDigits(d) && (s != "" ==> !IsDigit(s[0]))
    ensures TakeDigits(d + s) == d
  {
    if d == "" {
      assert d + s == s;
    } else {
      assert (d + s)[1..] == d[1..] + s;
      TakesExactly(d[1..], s);
    }
  }

  /** The recogniser and the pattern agree, with the same capture. */
  lemma RecogniserIsPattern(w: Wording, line: string, digits: string)
    requires KeyWord(w.key)
    ensures VersionDigits(w, line) == Some(digits) <==> MatchesPattern(w, line, digits)
  {
    if VersionDigits(w, line) == Some(digits) {
      RecognisedDecomposes(w, line, digits);
    }
    if MatchesPattern(w, line, digits) {
      var w1, w2, w3, w4, rest :| Decomposes(w, line, digits, w1, w2, w3, w4, rest);
      DecomposedIsRecognised(w, line, digits, w1, w2, w3, w4, rest);
    }
  }

  lemma RecognisedDecomposes(w: Wording, line: string, digits: string)
    requires VersionDigits(w, line) == Some(digits)
    ensures MatchesPattern(w, line, digits)
  {
    var a := SkipBlanks(line);
    var a' := a[|w.key|..];
    var b := SkipBlanks(a');
    var c := SkipBlanks(b[1..]);
    TakesDigits(c);
    var c' := c[|digits|..];
    assert c == digits + c';
    Assembles(w, line, digits, a', b[1..], c');
  }

  /** The parts that the skips leave, put together again. */
  lemma Assembles(w: Wording, line: string, digits: string, afterKey: string, afterEq: string, tail: string)
    requires SkipBlanks(line) == w.key + afterKey && SkipBlanks(afterKey) == "=" + afterEq
    requires SkipBlanks(afterEq) == digits + tail && digits != "" && AllDigits(digits)
    requires SkipBlanks(tail) == "" || SkipBlanks(tail)[0] == '#'
    ensures MatchesPattern(w, line, digits)
  {
    var w1 := SkipsBlanks(line);
    var w2 := SkipsBlanks(afterKey);
    var w3 := SkipsBlanks(afterEq);
    var w4 := SkipsBlanks(tail);
    assert Decomposes(w, line, digits, w1, w2, w3, w4, SkipBlanks(tail));
  }

  lemma DecomposedIsRecognised(w: Wording, line: string, digits: string,
                               w1: string, w2: string, w3: string, w4: string, rest: string)
    requires KeyWord(w.key) && Decomposes(w, line, digits, w1, w2, w3, w4, rest)
    ensures VersionDigits(w, line) == Some(digits)
  {
    var tail := w4 + rest;
    var afterEq := w3 + (digits + tail);
    var afterKey := w2 + ("=" + afterEq);
    SkipsExactly(w1, w.key + afterKey);
    assert (w.key + afterKey)[|w.key|..] == afterKey;
    SkipsExactly(w2, "=" + afterEq);
    assert ("=" + afterEq)[1..] == afterEq;
    SkipsExactly(w3, digits + tail);
    TakesExactly(digits, tail);
    assert (digits + tail)[|digits|..] == tail;
    SkipsExactly(w4, rest);
  }

  // ---- the wording in use ----

  /** What the migration relies on: its own line reads as version 1, its comment as no version
      line, and both are single lines. */
  predicate Proper(w: Wording) {
    && KeyWord(w.key)
    && LineDigits(w, w.line) == Some("1") && '\n' !in w.line
    && LineDigits(w, w.comment).None? && '\n' !in w.comment
  }

  lemma TrueDnsIsProper()
    ensures Proper(TRUE_DNS)
  {
    KeyInUse();
    LineInUse();
    CommentInUse();
  }

  lemma KeyInUse()
    ensures KeyWord(TRUE_DNS.key) && TRUE_DNS.key[0] == 's'
  {}

  lemma LineInUse()
    ensures LineDigits(TRUE_DNS, TRUE_DNS.line) == Some("1") && '\n' !in TRUE_DNS.line
  {
    var w := TRUE_DNS;
    KeyInUse();
    assert w.line == w.key + " = " + "1";
    AssignmentReads(w, "1");
  }

  lemma CommentInUse()
    ensures LineDigits(TRUE_DNS, TRUE_DNS.comment).None? && '\n' !in TRUE_DNS.comment
  {
    KeyInUse();
    var first, last := "# schema_version", "not edit";
    var c := TRUE_DNS.comment;
    assert c == first + (": managed by " + ("true-dns, do " + last));
    assert c[0] == first[0] && c[|c| - 1] == last[|last| - 1];
    CommentReadsNothing(TRUE_DNS, c);
  }

  /** A line starting with # is no version line. */
  lemma CommentReadsNothing(w: Wording, c: string)
    requires KeyWord(w.key) && w.key[0] != '#' && c != "" && c[0] == '#' && c[|c| - 1] != '\r'
    ensures LineDigits(w, c).None?
  {}

  /** `key = digits` is a version line. */
  lemma AssignmentReads(w: Wording, digits: string)
    requires KeyWord(w.key) && digits != "" && AllDigits(digits)
    ensures LineDigits(w, w.key + " = " + digits) == Some(digits) && '\n' !in w.key + " = " + digits
  {
    var line := w.key + " = " + digits;
    assert line == "" + (w.key + (" " + ("=" + (" " + (digits + ("" + ""))))));
    assert Decomposes(w, line, digits, "", " ", " ", "", "");
    DecomposedIsRecognised(w, line, digits, "", " ", " ", "", "");
    assert line[|line| - 1] == digits[|digits| - 1];
  }
}
