/** Byte texts, one character per byte, and what a trip through JSON does to them: every byte that is
    not part of a well-formed UTF-8 sequence (section 4 of RFC 3629) becomes the replacement character. */
module Utf8 {

  predicate Ascii(c: char) {
    c < 128 as char
  }

  predicate Within(c: char, low: int, high: int) {
    low <= c as int <= high
  }

  predicate Tail(c: char) {
    Within(c, 0x80, 0xBF)
  }

  /** The bytes allowed after a leading byte: the extreme leading bytes allow fewer. */
  function SecondLow(lead: char): int {
    if lead as int == 0xE0 then 0xA0 else if lead as int == 0xF0 then 0x90 else 0x80
  }

  function SecondHigh(lead: char): int {
    if lead as int == 0xED then 0x9F else if lead as int == 0xF4 then 0x8F else 0xBF
  }

  /** How many bytes a leading byte asks for, 0 if it is none. */
  function Wanted(lead: char): nat {
    if Ascii(lead) then 1
    else if Within(lead, 0xC2, 0xDF) then 2
    else if Within(lead, 0xE0, 0xEF) then 3
    else if Within(lead, 0xF0, 0xF4) then 4
    else 0
  }

  /** The length of the well-formed sequence at the start of the text, 0 if there is none. */
  function RuneSize(b: string): (n: nat)
    ensures n <= |b| && n <= 4
  {
    if b == "" then 0
    else
      var n := Wanted(b[0]);
      if n <= |b| && (n >= 2 ==> Within(b[1], SecondLow(b[0]), SecondHigh(b[0])))
         && (n >= 3 ==> Tail(b[2])) && (n >= 4 ==> Tail(b[3]))
      then n else 0
  }

  predicate Valid(b: string)
    decreases |b|
  {
    b == "" || (RuneSize(b) > 0 && Valid(b[RuneSize(b)..]))
  }

  /** U+FFFD */
  const REPLACEMENT: string := [0xEF as char, 0xBF as char, 0xBD as char]

  /** A text as encoding/json writes it and reads it back. */
  function Recode(b: string): string
    decreases |b|
  {
    if b == "" then ""
    else if RuneSize(b) == 0 then REPLACEMENT + Recode(b[1..])
    else b[..RuneSize(b)] + Recode(b[RuneSize(b)..])
  }

  /** A well-formed sequence is recognised whatever follows it. */
  lemma RunePrefix(b: string, rest: string)
    requires RuneSize(b) > 0
    ensures RuneSize(b[..RuneSize(b)] + rest) == RuneSize(b)
  {
    var n := RuneSize(b);
    var c := b[..n] + rest;
    assert forall i :: 0 <= i < n ==> c[i] == b[i];
  }

  /** Recoding never shortens a text, and keeps its length only if there is nothing to replace. */
  lemma {:induction false} RecodeLength(b: string)
    ensures |Recode(b)| >= |b| && (|Recode(b)| == |b| ==> Valid(b))
    decreases |b|
  {
    if b != "" {
      RecodeLength(if RuneSize(b) == 0 then b[1..] else b[RuneSize(b)..]);
    }
  }

  lemma {:induction false} ValidStays(b: string)
    requires Valid(b)
    ensures Recode(b) == b
    decreases |b|
  {
    if b != "" {
      ValidStays(b[RuneSize(b)..]);
      assert b == b[..RuneSize(b)] + b[RuneSize(b)..];
    }
  }

  /** Exactly the well-formed texts survive. */
  lemma RecodeIff(b: string)
    ensures Recode(b) == b <==> Valid(b)
  {
    RecodeLength(b);
    if Valid(b) { ValidStays(b); }
  }

  lemma {:induction false} RecodeIsValid(b: string)
    ensures Valid(Recode(b))
    decreases |b|
  {
    if b != "" {
      var n := RuneSize(b);
      if n == 0 {
        RecodeIsValid(b[1..]);
        RunePrefix(REPLACEMENT, Recode(b[1..]));
        assert REPLACEMENT[..3] == REPLACEMENT;
        assert Recode(b)[3..] == Recode(b[1..]);
      } else {
        RecodeIsValid(b[n..]);
        RunePrefix(b, Recode(b[n..]));
        assert Recode(b)[n..] == Recode(b[n..]);
      }
    }
  }

  /** The second trip changes nothing. */
  lemma RecodeTwice(b: string)
    ensures Recode(Recode(b)) == Recode(b)
  {
    RecodeIsValid(b);
    RecodeIff(Recode(b));
  }

  lemma RecodeEmpty(b: string)
    ensures Recode(b) == "" <==> b == ""
  {
    RecodeLength(b);
  }

  /** A Latin-1 comment does not survive: its last letter is a leading byte with nothing to lead. */
  lemma Latin1Changes()
    ensures var b := "# caf" + [0xE9 as char, '\n']; !Valid(b) && Recode(b) != b
  {
    var a, b := "# caf", [0xE9 as char, '\n'];
    assert RuneSize(b) == 0;
    AsciiThenInvalid(a, b);
    RecodeIff(a + b);
  }

  lemma {:induction false} AsciiThenInvalid(a: string, b: string)
    requires (forall i :: 0 <= i < |a| ==> Ascii(a[i])) && !Valid(b)
    ensures !Valid(a + b)
  {
    if a == "" {
      assert a + b == b;
    } else {
      assert (a + b)[1..] == a[1..] + b;
      AsciiThenInvalid(a[1..], b);
    }
  }

  // ---- recoding goes piece by piece between ASCII characters ----

  /** A sequence cut short by an ASCII character is not well-formed, with or without what follows. */
  lemma RuneBeforeAscii(a: string, c: char, b: string)
    requires a != "" && Ascii(c)
    ensures RuneSize(a + [c] + b) == RuneSize(a)
  {
    var whole := a + [c] + b;
    assert forall i :: 0 <= i < |a| ==> whole[i] == a[i];
    assert whole[|a|] == c;
  }

  lemma {:induction false} RecodeAscii(a: string, c: char, b: string)
    requires Ascii(c)
    ensures Recode(a + [c] + b) == Recode(a) + [c] + Recode(b)
    decreases |a|
  {
    var whole := a + [c] + b;
    if a == "" {
      assert whole[..1] == [c] && whole[1..] == b;
    } else {
      RuneBeforeAscii(a, c, b);
      var n := if RuneSize(a) == 0 then 1 else RuneSize(a);
      assert whole[n..] == a[n..] + [c] + b && whole[..n] == a[..n];
      RecodeAscii(a[n..], c, b);
    }
  }

  /** The ASCII characters of a recoded text were there before. */
  lemma {:induction false} AsciiKept(b: string, c: char)
    requires Ascii(c) && c in Recode(b)
    ensures c in b
    decreases |b|
  {
    var n := RuneSize(b);
    if n == 0 {
      assert c !in REPLACEMENT;
      AsciiKept(b[1..], c);
      var i :| 0 <= i < |b[1..]| && b[1..][i] == c;
      assert b[i + 1] == c;
    } else if c in b[..n] {
      var i :| 0 <= i < n && b[..n][i] == c;
      assert b[i] == c;
    } else {
      AsciiKept(b[n..], c);
      var i :| 0 <= i < |b[n..]| && b[n..][i] == c;
      assert b[i + n] == c;
    }
  }

  lemma {:induction false} AsciiSame(b: string)
    requires forall i :: 0 <= i < |b| ==> Ascii(b[i])
    ensures Recode(b) == b
  {
    if b != "" {
      AsciiSame(b[1..]);
      assert b == [b[0]] + b[1..];
    }
  }

  /** An ASCII prefix is a prefix of the recoded text exactly if it was one before. */
  lemma {:induction false} AsciiPrefix(b: string, w: string)
    requires forall i :: 0 <= i < |w| ==> Ascii(w[i])
    ensures w <= Recode(b) <==> w <= b
    decreases |w|
  {
    if w != "" && b != "" {
      if Ascii(b[0]) {
        assert Recode(b) == [b[0]] + Recode(b[1..]);
        AsciiPrefix(b[1..], w[1..]);
        assert Recode(b)[1..] == Recode(b[1..]);
        PrefixCons(w, b);
        PrefixCons(w, Recode(b));
      } else {
        assert !Ascii(Recode(b)[0]);
      }
    }
  }

  lemma PrefixCons(w: string, b: string)
    requires w != "" && b != ""
    ensures w <= b <==> w[0] == b[0] && w[1..] <= b[1..]
  {
    if w[0] == b[0] && w[1..] <= b[1..] {
      assert forall i :: 1 <= i < |w| ==> w[i] == w[1..][i - 1] == b[1..][i - 1] == b[i];
    }
  }

  // ---- well-formed texts are the encodings of code points ----

  /** A Unicode scalar value: a code point that is no surrogate. */
  predicate Scalar(cp: nat) {
    cp < 0xD800 || 0xE000 <= cp < 0x11_0000
  }

  function Continuation(bits: nat): char
    requires bits < 64
  {
    (0x80 + bits) as char
  }

  /** The UTF-8 bytes of a scalar value (section 3 of RFC 3629). */
  function Encoded(cp: nat): (b: string)
    requires Scalar(cp)
    ensures b != ""
  {
    if cp < 0x80 then [cp as char]
    else if cp < 0x800 then [(0xC0 + cp / 64) as char, Continuation(cp % 64)]
    else if cp < 0x1_0000 then
      [(0xE0 + cp / 64 / 64) as char, Continuation(cp / 64 % 64), Continuation(cp % 64)]
    else
      [(0xF0 + cp / 64 / 64 / 64) as char,
       Continuation(cp / 64 / 64 % 64), Continuation(cp / 64 % 64), Continuation(cp % 64)]
  }

  predicate Scalars(cps: seq<nat>) {
    forall i :: 0 <= i < |cps| ==> Scalar(cps[i])
  }

  function EncodedAll(cps: seq<nat>): string
    requires Scalars(cps)
  {
    if cps == [] then "" else Encoded(cps[0]) + EncodedAll(cps[1..])
  }

  /** The encoding of a scalar value is recognised in full. */
  lemma EncodedSize(cp: nat)
    requires Scalar(cp)
    ensures RuneSize(Encoded(cp)) == |Encoded(cp)|
  {}

  function Low(c: char): nat
    requires Tail(c)
  {
    c as int - 0x80
  }

  /** The scalar value of a recognised sequence. */
  function Decoded(b: string): (cp: nat)
    requires b != "" && RuneSize(b) == |b|
  {
    if |b| == 1 then b[0] as int
    else if |b| == 2 then (b[0] as int - 0xC0) * 64 + Low(b[1])
    else if |b| == 3 then ((b[0] as int - 0xE0) * 64 + Low(b[1])) * 64 + Low(b[2])
    else (((b[0] as int - 0xF0) * 64 + Low(b[1])) * 64 + Low(b[2])) * 64 + Low(b[3])
  }

  lemma SixBits(a: nat, low: nat)
    requires low < 64
    ensures (a * 64 + low) / 64 == a && (a * 64 + low) % 64 == low
  {}

  /** A recognised sequence is the encoding of a scalar value. */
  lemma DecodedBack(b: string)
    requires b != "" && RuneSize(b) == |b|
    ensures Scalar(Decoded(b)) && Encoded(Decoded(b)) == b
  {
    if |b| == 2 {
      SixBits(b[0] as int - 0xC0, Low(b[1]));
    } else if |b| == 3 {
      DecodedThree(b);
    } else if |b| == 4 {
      DecodedFour(b);
    }
  }

  lemma DecodedThree(b: string)
    requires |b| == 3 && RuneSize(b) == 3
    ensures Scalar(Decoded(b)) && Encoded(Decoded(b)) == b
  {
    var x := (b[0] as int - 0xE0) * 64 + Low(b[1]);
    SixBits(b[0] as int - 0xE0, Low(b[1]));
    SixBits(x, Low(b[2]));
    assert Decoded(b) == x * 64 + Low(b[2]);
  }

  lemma DecodedFour(b: string)
    requires |b| == 4 && RuneSize(b) == 4
    ensures Scalar(Decoded(b)) && Encoded(Decoded(b)) == b
  {
    var x := (b[0] as int - 0xF0) * 64 + Low(b[1]);
    var y := x * 64 + Low(b[2]);
    SixBits(b[0] as int - 0xF0, Low(b[1]));
    SixBits(x, Low(b[2]));
    SixBits(y, Low(b[3]));
    assert Decoded(b) == y * 64 + Low(b[3]);
  }

  /** The well-formed texts are exactly the encodings of sequences of scalar values. */
  lemma ValidIff(b: string)
    ensures Valid(b) <==> exists cps :: Scalars(cps) && EncodedAll(cps) == b
  {
    if Valid(b) { var cps := DecodedAll(b); }
    if cps :| Scalars(cps) && EncodedAll(cps) == b { EncodedIsValid(cps); }
  }

  lemma {:induction false} EncodedIsValid(cps: seq<nat>)
    requires Scalars(cps)
    ensures Valid(EncodedAll(cps))
  {
    if cps != [] {
      var first, rest := Encoded(cps[0]), EncodedAll(cps[1..]);
      EncodedSize(cps[0]);
      EncodedIsValid(cps[1..]);
      assert first[..|first|] == first && (first + rest)[|first|..] == rest;
      RunePrefix(first, rest);
    }
  }

  lemma {:induction false} DecodedAll(b: string) returns (cps: seq<nat>)
    requires Valid(b)
    ensures Scalars(cps) && EncodedAll(cps) == b
    decreases |b|
  {
    cps := [];
    if b != "" {
      var n := RuneSize(b);
      var rest := DecodedAll(b[n..]);
      RunePrefix(b, "");
      assert b[..n] + "" == b[..n];
      DecodedBack(b[..n]);
      cps := [Decoded(b[..n])] + rest;
      assert cps[1..] == rest && b == b[..n] + b[n..];
    }
  }

  lemma RecodeFirst(first: string, rest: string)
    requires first != "" && RuneSize(first) == |first|
    ensures Recode(first + rest) == first + Recode(rest)
  {
    assert first[..|first|] == first;
    RunePrefix(first, rest);
    assert (first + rest)[..|first|] == first && (first + rest)[|first|..] == rest;
  }

  lemma RecodeMore(first: string, rest: string, b: string)
    requires first != "" && RuneSize(first) == |first| && Recode(rest + b) == rest + Recode(b)
    ensures Recode(first + rest + b) == first + rest + Recode(b)
  {
    RecodeFirst(first, rest + b);
    assert first + rest + b == first + (rest + b);
  }

  /** Recoding keeps a well-formed beginning ... */
  lemma {:induction false} RecodeKeeps(cps: seq<nat>, b: string)
    requires Scalars(cps)
    ensures Recode(EncodedAll(cps) + b) == EncodedAll(cps) + Recode(b)
  {
    var whole := EncodedAll(cps);
    if cps == [] {
      assert whole + b == b && whole + Recode(b) == Recode(b);
    } else {
      EncodedSize(cps[0]);
      RecodeKeeps(cps[1..], b);
      RecodeMore(Encoded(cps[0]), EncodedAll(cps[1..]), b);
    }
  }

  /** No scalar value's encoding begins the text. */
  ghost predicate NothingEncoded(b: string) {
    forall cp: nat :: Scalar(cp) ==> !(Encoded(cp) <= b)
  }

  lemma RuneIsEncoded(b: string)
    requires RuneSize(b) > 0
    ensures !NothingEncoded(b)
  {
    var n := RuneSize(b);
    RunePrefix(b, "");
    assert b[..n] + "" == b[..n];
    DecodedBack(b[..n]);
    assert Encoded(Decoded(b[..n])) <= b;
  }

  /** ... and replaces a byte that begins no encoding by U+FFFD, going on with the next one. */
  lemma RecodeReplaces(b: string)
    requires b != "" && NothingEncoded(b)
    ensures Recode(b) == [0xEF as char, 0xBF as char, 0xBD as char] + Recode(b[1..])
    ensures Encoded(0xFFFD) == [0xEF as char, 0xBF as char, 0xBD as char]
  {
    if RuneSize(b) > 0 { RuneIsEncoded(b); }
  }
}
