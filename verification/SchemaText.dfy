/** The text part of the schema migration: finding the version line and stamping a file. */
module SchemaText {
  import opened Prelude
  import opened Text
  import opened SchemaPattern

  const CURRENT_SCHEMA_VERSION: int := 1

  // ---- detection ----

  /** Two's complement wrap-around of a 64-bit int. */
  function Wrap64(v: int): int {
    (v + 0x8000_0000_0000_0000) % 0x1_0000_0000_0000_0000 - 0x8000_0000_0000_0000
  }

  function DigitsValue(d: string): int {
    if d == "" then 0
    else Wrap64(Wrap64(DigitsValue(d[..|d| - 1]) * 10) + (d[|d| - 1] as int - '0' as int))
  }

  /** A number written in decimal. */
  function Decimal(n: nat): string {
    (if n < 10 then "" else Decimal(n / 10)) + [Digit(n % 10)]
  }

  function Digit(d: nat): (c: char)
    requires d < 10
    ensures IsDigit(c) && c as int - '0' as int == d
  {
    ('0' as int + d) as char
  }

  lemma DigitsNext(front: string, d: nat)
    requires d < 10
    ensures DigitsValue(front + [Digit(d)]) == Wrap64(Wrap64(DigitsValue(front) * 10) + d)
  {
    assert (front + [Digit(d)])[..|front|] == front;
  }

  lemma WrapSmall(n: nat)
    requires n < 0x8000_0000_0000_0000
    ensures Wrap64(n) == n
  {}

  lemma {:induction false} DecimalDigits(n: nat)
    ensures AllDigits(Decimal(n)) && Decimal(n) != ""
  {
    if n >= 10 { DecimalDigits(n / 10); }
  }

  lemma OneMoreDigit(front: string, v: nat, d: nat)
    requires DigitsValue(front) == Wrap64(v) && d < 10
    ensures DigitsValue(front + [Digit(d)]) == Wrap64(v * 10 + d)
  {
    DigitsNext(front, d);
    WrapAppends(v, d);
  }

  lemma LastDigitReads(n: nat, front: string)
    requires DigitsValue(front) == Wrap64(n / 10)
    ensures DigitsValue(front + [Digit(n % 10)]) == Wrap64(n)
  {
    OneMoreDigit(front, n / 10, n % 10);
    assert n / 10 * 10 + n % 10 == n;
  }

  /** The digits of a number read as the number, up to 64-bit wrap-around. */
  lemma {:induction false} DecimalReads(n: nat)
    ensures DigitsValue(Decimal(n)) == Wrap64(n)
  {
    var front := if n < 10 then "" else Decimal(n / 10);
    if n >= 10 { DecimalReads(n / 10); }
    assert DigitsValue(front) == Wrap64(n / 10);
    LastDigitReads(n, front);
    assert Decimal(n) == front + [Digit(n % 10)];
  }

  /** Wrapping early or late makes no difference. */
  lemma WrapAppends(v: int, d: int)
    ensures Wrap64(Wrap64(Wrap64(v) * 10) + d) == Wrap64(v * 10 + d)
  {
    WrapIs(v);
    WrapIs(Wrap64(v) * 10);
    WrapIs(Wrap64(Wrap64(v) * 10) + d);
    WrapIs(v * 10 + d);
    var m := 0x1_0000_0000_0000_0000;
    var a :| v == Wrap64(v) + a * m;
    var b :| Wrap64(v) * 10 == Wrap64(Wrap64(v) * 10) + b * m;
    WrapShift(Wrap64(Wrap64(v) * 10) + d, b + a * 10);
  }

  lemma WrapIs(v: int)
    ensures -0x8000_0000_0000_0000 <= Wrap64(v) < 0x8000_0000_0000_0000
    ensures exists a: int :: v == Wrap64(v) + a * 0x1_0000_0000_0000_0000
  {
    var m, h := 0x1_0000_0000_0000_0000, 0x8000_0000_0000_0000;
    assert v == Wrap64(v) + ((v + h) / m) * m;
  }

  lemma WrapShift(v: int, a: int)
    ensures Wrap64(v + a * 0x1_0000_0000_0000_0000) == Wrap64(v)
  {
    var m := 0x1_0000_0000_0000_0000;
    var x := v + 0x8000_0000_0000_0000;
    assert (x + a * m) % m == x % m;
  }

  /** Index of the first version line, |lines| if there is none. */
  function FirstVersionLine(w: Wording, lines: seq<string>): (i: nat)
    ensures i <= |lines|
    ensures i < |lines| ==> LineDigits(w, lines[i]).Some?
    ensures forall j :: 0 <= j < i ==> LineDigits(w, lines[j]).None?
  {
    if lines == [] then 0
    else if LineDigits(w, lines[0]).Some? then 0
    else 1 + FirstVersionLine(w, lines[1..])
  }

  function LinesVersion(w: Wording, lines: seq<string>): int {
    var i := FirstVersionLine(w, lines);
    if i < |lines| then DigitsValue(LineDigits(w, lines[i]).value) else 0
  }

  function Detect(w: Wording, data: string): int {
    LinesVersion(w, Split(data, '\n'))
  }

  method DetectSchemaVersion(w: Wording, data: string) returns (v: int)
    ensures v == Detect(w, data)
  {
    var lines := Split(data, '\n');
    for i := 0 to |lines|
      invariant i <= FirstVersionLine(w, lines)
    {
      var m := LineDigits(w, lines[i]);
      if m.Some? {
        v := ParseDigits(m.value);
        return v;
      }
    }
    return 0;
  }

  /** The inner loop of detectSchemaVersion. */
  method ParseDigits(d: string) returns (v: int)
    ensures v == DigitsValue(d)
  {
    v := 0;
    for k := 0 to |d|
      invariant v == DigitsValue(d[..k])
    {
      assert d[..k + 1][..k] == d[..k];
      v := Wrap64(Wrap64(v * 10) + (d[k] as int - '0' as int));
    }
    assert d[..|d|] == d;
  }

  /** A file whose first version line assigns the number n. */
  predicate Assigns(w: Wording, data: string, n: nat) {
    var lines := Split(data, '\n');
    exists i :: 0 <= i < |lines| && LineDigits(w, lines[i]) == Some(Decimal(n))
      && forall j :: 0 <= j < i ==> LineDigits(w, lines[j]).None?
  }

  /** It has that version. */
  lemma AssignedVersion(w: Wording, data: string, n: nat)
    requires Assigns(w, data, n)
    ensures Detect(w, data) == Wrap64(n) && (n < 0x8000_0000_0000_0000 ==> Detect(w, data) == n)
  {
    var lines := Split(data, '\n');
    var i :| 0 <= i < |lines| && LineDigits(w, lines[i]) == Some(Decimal(n))
      && forall j :: 0 <= j < i ==> LineDigits(w, lines[j]).None?;
    FirstAt(w, lines, i);
    DecimalReads(n);
    if n < 0x8000_0000_0000_0000 { WrapSmall(n); }
  }

  // ---- migration ----

  predicate IsCanonicalZero(w: Wording, line: string) {
    LineDigits(w, line) == Some("0")
  }

  /** Index of the first line that says exactly 0, |lines| if there is none. */
  function FirstZeroLine(w: Wording, lines: seq<string>): (i: nat)
    ensures i <= |lines|
  {
    if lines == [] then 0
    else if IsCanonicalZero(w, lines[0]) then 0
    else 1 + FirstZeroLine(w, lines[1..])
  }

  lemma {:induction false} FirstZeroIs(w: Wording, lines: seq<string>)
    ensures var i := FirstZeroLine(w, lines); i < |lines| ==> IsCanonicalZero(w, lines[i])
    ensures forall j :: 0 <= j < FirstZeroLine(w, lines) ==> !IsCanonicalZero(w, lines[j])
  {
    if lines != [] && !IsCanonicalZero(w, lines[0]) {
      FirstZeroIs(w, lines[1..]);
      assert forall j :: 1 <= j < |lines| ==> lines[j] == lines[1..][j - 1];
    }
  }

  function Migrate(w: Wording, data: string): string {
    var lines := Split(data, '\n');
    var i := FirstZeroLine(w, lines);
    if i < |lines| then Join(lines[i := w.line], '\n') else Stamp(w) + data
  }

  /** migrateV0toV1 between its read and its write. */
  method MigrateV0ToV1(w: Wording, data: string) returns (out: string)
    ensures out == Migrate(w, data)
  {
    var parts := Split(data, '\n');
    var lines := new string[|parts|](i requires 0 <= i < |parts| => parts[i]);
    assert lines[..] == parts;
    var replaced := ReplaceFirst(w, lines);
    if replaced {
      out := Join(lines[..], '\n');
    } else {
      out := Stamp(w) + data;
    }
  }

  /** The loop over the lines, edited in place. */
  method ReplaceFirst(w: Wording, lines: array<string>) returns (replaced: bool)
    modifies lines
    ensures var i := FirstZeroLine(w, old(lines[..]));
            && (replaced <==> i < lines.Length)
            && lines[..] == if replaced then old(lines[..])[i := w.line] else old(lines[..])
  {
    ghost var parts := lines[..];
    FirstZeroIs(w, parts);
    for i := 0 to lines.Length
      invariant lines[..] == parts && i <= FirstZeroLine(w, parts)
    {
      var m := LineDigits(w, lines[i]);
      if m.Some? && m.value == "0" {
        lines[i] := w.line;
        return true;
      }
      assert !IsCanonicalZero(w, parts[i]);
    }
    return false;
  }

  // ---- what the rewrite changes ----

  /** The text put before a file without a rewritable version line. */
  function Stamp(w: Wording): string {
    w.comment + ['\n'] + (w.line + ['\n'] + ("" + ['\n']))
  }

  /** A stamped file reads: comment, version line, empty line, then the old lines unchanged. */
  lemma StampedLines(w: Wording, data: string)
    requires '\n' !in w.comment && '\n' !in w.line
    ensures Split(Stamp(w) + data, '\n') == [w.comment, w.line, ""] + Split(data, '\n')
  {
    var rest := w.line + ['\n'] + ("" + ['\n'] + data);
    assert Stamp(w) + data == w.comment + ['\n'] + rest;
    SplitConcat(w.comment, '\n', rest);
    SplitConcat(w.line, '\n', "" + ['\n'] + data);
    SplitConcat("", '\n', data);
  }

  /** Exactly one line changes, or the file stands unchanged after the stamp. */
  lemma MigrateChangesOneThing(w: Wording, data: string)
    requires Proper(w)
    ensures var lines := Split(data, '\n');
            var i := FirstZeroLine(w, lines);
            if i < |lines| then
              Split(Migrate(w, data), '\n') == lines[i := w.line] && IsCanonicalZero(w, lines[i])
            else
              Migrate(w, data) == Stamp(w) + data
  {
    var lines := Split(data, '\n');
    var i := FirstZeroLine(w, lines);
    if i < |lines| {
      FirstZeroIs(w, lines);
      OneLineRewritten(lines, i, w.line);
    }
  }

  lemma OneLineRewritten(lines: seq<string>, i: nat, line: string)
    requires i < |lines| && '\n' !in line && forall j :: 0 <= j < |lines| ==> '\n' !in lines[j]
    ensures Split(Join(lines[i := line], '\n'), '\n') == lines[i := line]
  {
    SplitJoin(lines[i := line], '\n');
  }

  // ---- when the migrated file is current ----

  /** Some later line says 0 while the first version line says it in another way (00, say). */
  predicate ZeroShadowed(w: Wording, data: string) {
    var lines := Split(data, '\n');
    FirstVersionLine(w, lines) < FirstZeroLine(w, lines) < |lines|
  }

  lemma {:induction false} FirstAt(w: Wording, lines: seq<string>, i: nat)
    requires i < |lines| && LineDigits(w, lines[i]).Some? && forall j :: 0 <= j < i ==> LineDigits(w, lines[j]).None?
    ensures FirstVersionLine(w, lines) == i
  {}

  /** Rewriting line z of a version-0 file: if it is the first version line the file is current,
      otherwise the first version line still decides. */
  lemma RewrittenVersion(w: Wording, lines: seq<string>, z: nat)
    requires LineDigits(w, w.line) == Some("1")
    requires z < |lines| && LineDigits(w, lines[z]).Some? && LinesVersion(w, lines) == 0
    ensures LinesVersion(w, lines[z := w.line]) == if FirstVersionLine(w, lines) < z then 0 else 1
  {
    var f, changed := FirstVersionLine(w, lines), lines[z := w.line];
    assert f <= z;
    OneReadsOne();
    assert forall j :: 0 <= j < f ==> changed[j] == lines[j];
    FirstAt(w, changed, f);
  }

  lemma OneReadsOne()
    ensures DigitsValue("1") == 1
  {}

  lemma StampedVersion(w: Wording, data: string)
    requires Proper(w)
    ensures Detect(w, Stamp(w) + data) == 1
  {
    StampedLines(w, data);
    OneReadsOne();
    FirstAt(w, Split(Stamp(w) + data, '\n'), 1);
  }

  /** Migrating a version-0 file makes it version 1 exactly when its zero is not shadowed; a
      shadowed one is left at version 0. */
  lemma MigratedVersion(w: Wording, data: string)
    requires Proper(w) && Detect(w, data) == 0
    ensures Detect(w, Migrate(w, data)) == if ZeroShadowed(w, data) then 0 else 1
  {
    var lines := Split(data, '\n');
    MigrateChangesOneThing(w, data);
    if FirstZeroLine(w, lines) < |lines| {
      RewrittenVersion(w, lines, FirstZeroLine(w, lines));
    } else {
      StampedVersion(w, data);
    }
  }

  // ---- the chain ----

  datatype Outcome = Unchanged | Migrated | TooNew | NoMigration

  /** ensureSchemaLocked on the file text. */
  function Ensured(w: Wording, data: string): string {
    if Detect(w, data) == 0 then Migrate(w, data) else data
  }

  function OutcomeOf(v: int): Outcome {
    if v > CURRENT_SCHEMA_VERSION then TooNew
    else if v == CURRENT_SCHEMA_VERSION then Unchanged
    else if v == 0 then Migrated
    else NoMigration
  }

  /** The version loop of ensureSchemaLocked with its one registered migration, from version 0. */
  method EnsureSchemaLocked(w: Wording, data: string) returns (out: string, outcome: Outcome)
    ensures out == Ensured(w, data) && outcome == OutcomeOf(Detect(w, data))
  {
    out := data;
    var v := DetectSchemaVersion(w, data);
    if v > CURRENT_SCHEMA_VERSION {
      return out, TooNew;
    }
    var migrated := false;
    while v < CURRENT_SCHEMA_VERSION
      invariant v <= CURRENT_SCHEMA_VERSION
      invariant !migrated ==> v == Detect(w, data) && out == data
      invariant migrated ==> Detect(w, data) == 0 && v == CURRENT_SCHEMA_VERSION && out == Ensured(w, data)
      decreases CURRENT_SCHEMA_VERSION - v
    {
      if v != 0 {
        return out, NoMigration;
      }
      out := MigrateV0ToV1(w, out);
      migrated := true;
      v := v + 1;
    }
    outcome := if migrated then Migrated else Unchanged;
  }

  /** What becomes of a file that assigns the number n, read as the 64-bit number v: refused if v is above 1,
      left alone if it is 1, migrated if it is 0, and refused for want of a migration if it is negative. */
  lemma VersionDecides(w: Wording, data: string, n: nat)
    requires Assigns(w, data, n)
    ensures var v := Wrap64(n);
            && OutcomeOf(Detect(w, data))
               == (if v > 1 then TooNew else if v == 1 then Unchanged else if v == 0 then Migrated else NoMigration)
            && (v != 0 ==> Ensured(w, data) == data)
    ensures n < 0x8000_0000_0000_0000 ==> Wrap64(n) == n
  {
    AssignedVersion(w, data, n);
  }

  /** Running the migration again changes nothing exactly when the first run was not on a
      shadowed version-0 file. */
  lemma EnsuredIdempotent(w: Wording, data: string)
    requires Proper(w)
    ensures Ensured(w, Ensured(w, data)) == Ensured(w, data) <==> !(Detect(w, data) == 0 && ZeroShadowed(w, data))
    ensures !(Detect(w, data) == 0 && ZeroShadowed(w, data)) ==> OutcomeOf(Detect(w, Ensured(w, data))) != Migrated
  {
    if Detect(w, data) == 0 {
      MigratedVersion(w, data);
      if ZeroShadowed(w, data) {
        MigrateNeverFixed(w, Migrate(w, data));
      }
    }
  }

  /** Migration always changes the text. */
  lemma MigrateNeverFixed(w: Wording, data: string)
    requires Proper(w)
    ensures Migrate(w, data) != data
  {
    var lines := Split(data, '\n');
    var i := FirstZeroLine(w, lines);
    MigrateChangesOneThing(w, data);
    if i < |lines| {
      assert lines[i := w.line][i] == w.line;
    } else {
      assert |Stamp(w) + data| > |data|;
    }
  }

  /** A file of the shadowed kind: its first version line says 00, a later one says 0. */
  lemma ShadowedExample(w: Wording)
    requires Proper(w)
    ensures exists data :: Detect(w, data) == 0 && ZeroShadowed(w, data) && Detect(w, Migrate(w, data)) == 0
  {
    var a, b := ZeroLines(w);
    TwoLineFile(w, a, b);
    MigratedVersion(w, a + ['\n'] + b);
  }

  lemma ZeroLines(w: Wording) returns (a: string, b: string)
    requires Proper(w)
    ensures LineDigits(w, a) == Some("00") && LineDigits(w, b) == Some("0") && '\n' !in a && '\n' !in b
  {
    a, b := w.key + " = " + "00", w.key + " = " + "0";
    AssignmentReads(w, "00");
    AssignmentReads(w, "0");
  }

  lemma TwoLineFile(w: Wording, a: string, b: string)
    requires LineDigits(w, a) == Some("00") && LineDigits(w, b) == Some("0") && '\n' !in a && '\n' !in b
    ensures Detect(w, a + ['\n'] + b) == 0 && ZeroShadowed(w, a + ['\n'] + b)
  {
    SplitConcat(a, '\n', b);
    TwoLines(w, a, b);
    assert Split(a + ['\n'] + b, '\n') == [a, b];
  }

  lemma TwoLines(w: Wording, a: string, b: string)
    requires LineDigits(w, a) == Some("00") && LineDigits(w, b) == Some("0")
    ensures LinesVersion(w, [a, b]) == 0 && FirstVersionLine(w, [a, b]) == 0 && FirstZeroLine(w, [a, b]) == 1
  {}
}
