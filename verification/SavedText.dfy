/** The resolv.conf text as the takeover record gives it back: what recoding does to its lines, its
    nameservers and the upstreams discovered from it. */
module SavedText {
  import opened Prelude
  import opened Text
  import opened Utf8
  import opened FirstOccurrences
  import opened ResolvConf

  function RecodeAll(parts: seq<string>): (r: seq<string>)
    ensures |r| == |parts|
  {
    seq(|parts|, i requires 0 <= i < |parts| => Recode(parts[i]))
  }

  lemma RecodeAllConcat(a: seq<string>, b: seq<string>)
    ensures RecodeAll(a + b) == RecodeAll(a) + RecodeAll(b)
  {}

  // ---- lines and fields ----

  /** A text is recoded line by line. */
  lemma {:induction false} SplitRecode(s: string)
    ensures Split(Recode(s), '\n') == RecodeAll(Split(s, '\n'))
    decreases |s|
  {
    var i := IndexByte(s, '\n');
    if i < 0 {
      assert '\n' !in Recode(s) by { if '\n' in Recode(s) { AsciiKept(s, '\n'); } }
    } else {
      var a, b := s[..i], s[i + 1..];
      assert s == a + ['\n'] + b;
      assert '\n' !in Recode(a) by { if '\n' in Recode(a) { AsciiKept(a, '\n'); } }
      RecodeAscii(a, '\n', b);
      SplitConcat(a, '\n', b);
      SplitConcat(Recode(a), '\n', Recode(b));
      SplitRecode(b);
      RecodeAllConcat(Split(a, '\n'), Split(b, '\n'));
    }
  }

  lemma SpaceFreeRecode(w: string)
    requires SpaceFree(w)
    ensures SpaceFree(Recode(w))
  {
    forall i | 0 <= i < |Recode(w)|
      ensures !IsSpace(Recode(w)[i])
    {
      var c := Recode(w)[i];
      if IsSpace(c) { AsciiKept(w, c); }
    }
  }

  /** The word at the start of a line and what follows it. */
  lemma {:induction false} WordEnds(s: string)
    ensures var w := Word(s); s == w + s[|w|..] && SpaceFree(w) && (s[|w|..] != "" ==> IsSpace(s[|w|]))
  {
    if s != "" && !IsSpace(s[0]) {
      WordEnds(s[1..]);
    }
  }

  lemma FieldsOfWord(w: string, rest: string)
    requires w != "" && SpaceFree(w) && (rest != "" ==> IsSpace(rest[0]))
    ensures Fields(w + rest) == [w] + Fields(rest)
  {
    WordThen(w, rest);
    assert (w + rest)[|w|..] == rest;
  }

  lemma RecodeAfterWord(w: string, rest: string)
    requires rest != "" ==> IsSpace(rest[0])
    ensures Recode(w + rest) == Recode(w) + Recode(rest) && (rest != "" ==> IsSpace(Recode(rest)[0]))
  {
    if rest == "" {
      assert w + rest == w;
    } else {
      assert w + rest == w + [rest[0]] + rest[1..];
      RecodeAscii(w, rest[0], rest[1..]);
      assert Recode(rest) == [rest[0]] + Recode(rest[1..]);
    }
  }

  /** A line is recoded field by field. */
  lemma {:induction false} FieldsRecode(s: string)
    ensures Fields(Recode(s)) == RecodeAll(Fields(s))
    decreases |s|
  {
    if s == "" {
    } else if IsSpace(s[0]) {
      assert Recode(s) == [s[0]] + Recode(s[1..]);
      FieldsRecode(s[1..]);
    } else {
      var w := Word(s);
      var rest := s[|w|..];
      WordEnds(s);
      RecodeAfterWord(w, rest);
      SpaceFreeRecode(w);
      RecodeEmpty(w);
      FieldsOfWord(Recode(w), Recode(rest));
      FieldsRecode(rest);
      RecodeAllConcat([w], Fields(rest));
    }
  }

  // ---- nameservers ----

  lemma AsciiName()
    ensures forall i :: 0 <= i < |NAMESERVER| ==> Ascii(NAMESERVER[i]) && !IsSpace(NAMESERVER[i])
  {}

  lemma IsNameserver(f: string)
    ensures Recode(f) == NAMESERVER <==> f == NAMESERVER
  {
    AsciiName();
    AsciiSame(NAMESERVER);
    AsciiPrefix(f, NAMESERVER);
    RecodeLength(f);
  }

  lemma ServerRecode(line: string)
    ensures ServerOf(Recode(line)) == if ServerOf(line).Some? then Some(Recode(ServerOf(line).value)) else None
  {
    FieldsRecode(line);
    if Fields(line) != [] { IsNameserver(Fields(line)[0]); }
  }

  lemma {:induction false} ServersRecode(lines: seq<string>)
    ensures Servers(RecodeAll(lines)) == RecodeAll(Servers(lines))
  {
    if lines != [] {
      var n := |lines| - 1;
      ServersRecode(lines[..n]);
      ServerRecode(lines[n]);
      assert RecodeAll(lines)[..n] == RecodeAll(lines[..n]);
    }
  }

  /** The record lists the nameservers of the original, each recoded. */
  lemma NameserversRecode(content: string)
    ensures Nameservers(Recode(content)) == RecodeAll(Nameservers(content))
  {
    SplitRecode(content);
    ServersRecode(Split(content, '\n'));
  }

  // ---- discovering upstreams from the record ----

  /** What discovery works from after a takeover of `prev`. */
  function Remembered(h: Header, prev: string): string {
    if Recode(prev) != "" then Recode(prev) else Rewritten(h, prev)
  }

  predicate AllValid(addrs: seq<string>) {
    forall i :: 0 <= i < |addrs| ==> Valid(addrs[i])
  }

  /** Discovery gives the same upstreams before a takeover and after it with the state saved, for every
      file, the empty one included, whose nameserver addresses are well-formed text; the rest of the file
      may be anything. Without the saved state it could only fall back to the public servers. */
  lemma DiscoverySame(h: Header, dial: Dialable, prev: string)
    requires Proper(h) && dial(h.loopback) == None && AllValid(Nameservers(prev))
    ensures Upstreams(dial, Remembered(h, prev)) == Upstreams(dial, prev)
    ensures Upstreams(dial, Rewritten(h, prev)) == Unique(Usable(dial, DEFAULTS))
  {
    OnlyDefaults(h, dial, prev);
    RecodeEmpty(prev);
    if prev == "" {
      assert Nameservers(prev) == [] by {
        assert Split(prev, '\n') == [""];
        EmptyLine();
        One("");
      }
    } else {
      NameserversRecode(prev);
      ValidAllSame(Nameservers(prev));
    }
  }

  lemma OnlyDefaults(h: Header, dial: Dialable, prev: string)
    requires Proper(h) && dial(h.loopback) == None
    ensures Upstreams(dial, Rewritten(h, prev)) == Unique(Usable(dial, DEFAULTS))
  {
    OnlyLoopback(h, prev);
    assert [h.loopback][..0] == [];
    assert Usable(dial, [h.loopback]) == [];
  }

  lemma ValidAllSame(addrs: seq<string>)
    requires AllValid(addrs)
    ensures RecodeAll(addrs) == addrs
  {
    forall i | 0 <= i < |addrs|
      ensures Recode(addrs[i]) == addrs[i]
    {
      RecodeIff(addrs[i]);
    }
  }

  lemma {:induction false} FieldsSpaceFree(s: string)
    ensures forall i :: 0 <= i < |Fields(s)| ==> Fields(s)[i] != "" && SpaceFree(Fields(s)[i])
    decreases |s|
  {
    if s == "" {
    } else if IsSpace(s[0]) {
      FieldsSpaceFree(s[1..]);
    } else {
      WordEnds(s);
      FieldsSpaceFree(s[|Word(s)|..]);
    }
  }

  /** An address on a nameserver line is a field, so trimming leaves it alone. */
  lemma {:induction false} ServersTrimmed(lines: seq<string>)
    ensures forall i :: 0 <= i < |Servers(lines)| ==>
              Servers(lines)[i] != "" && TrimSpace(Servers(lines)[i]) == Servers(lines)[i]
  {
    if lines != [] {
      var n := |lines| - 1;
      ServersTrimmed(lines[..n]);
      FieldsSpaceFree(lines[n]);
      if ServerOf(lines[n]).Some? { NoTrim(ServerOf(lines[n]).value); }
    }
  }

  lemma NoServersInEmpty(prev: string)
    requires Nameservers(prev) != []
    ensures prev != ""
  {
    if prev == "" {
      assert Split(prev, '\n') == [""];
      One("");
    }
  }

  predicate Dotted(s: string) {
    s != "" && forall i :: 0 <= i < |s| ==> '.' <= s[i] <= '9'
  }

  lemma DottedIsPlain(s: string)
    requires Dotted(s)
    ensures Valid(s) && TrimSpace(s) == s
  {
    AsciiSame(s);
    RecodeIff(s);
    NoTrim(s);
  }

  lemma DefaultsDotted()
    ensures forall k :: 0 <= k < |DEFAULTS| ==> Dotted(DEFAULTS[k])
  {}

  lemma DefaultsValid()
    ensures forall k :: 0 <= k < |DEFAULTS| ==> Valid(DEFAULTS[k]) && TrimSpace(DEFAULTS[k]) == DEFAULTS[k]
  {
    DefaultsDotted();
    forall k | 0 <= k < |DEFAULTS|
      ensures Valid(DEFAULTS[k]) && TrimSpace(DEFAULTS[k]) == DEFAULTS[k]
    {
      DottedIsPlain(DEFAULTS[k]);
    }
  }

  /** And only for those: an ill-formed address, say in its port, is discovered before and not after. */
  lemma IllFormedServerDiffers(h: Header, prev: string, i: nat) returns (dial: Dialable)
    requires Valid(h.loopback) && i < |Nameservers(prev)| && !Valid(Nameservers(prev)[i])
    ensures dial(h.loopback) == None
    ensures Upstreams(dial, Remembered(h, prev)) != Upstreams(dial, prev)
  {
    var a := Nameservers(prev)[i];
    dial := x => if x == a then Some(x) else None;
    ServersTrimmed(Split(prev, '\n'));
    assert a in Nameservers(prev) && dial(TrimSpace(a)) == Some(a);
    UsableOnly(dial, Nameservers(prev));
    assert a in Upstreams(dial, prev);
    RememberedIsValid(h, prev);
    NeverDialled(dial, a, Remembered(h, prev));
  }

  /** The record's addresses are well-formed. */
  lemma RememberedIsValid(h: Header, prev: string)
    requires Nameservers(prev) != []
    ensures AllValid(Nameservers(Remembered(h, prev)))
  {
    NoServersInEmpty(prev);
    RecodeEmpty(prev);
    NameserversRecode(prev);
    forall k | 0 <= k < |Nameservers(prev)|
      ensures Valid(RecodeAll(Nameservers(prev))[k])
    {
      RecodeIsValid(Nameservers(prev)[k]);
    }
  }

  lemma NeverDialled(dial: Dialable, a: string, content: string)
    requires !Valid(a) && AllValid(Nameservers(content))
    requires forall x :: dial(x) == if x == a then Some(x) else None
    ensures a !in Upstreams(dial, content)
  {
    ServersTrimmed(Split(content, '\n'));
    DefaultsValid();
    UsableOnly(dial, Nameservers(content));
    UsableOnly(dial, DEFAULTS);
  }

  // ---- a second takeover ----

  lemma AsPrefix(s: string, w: string)
    ensures HasPrefix(s, w) <==> w <= s
  {}

  lemma SurvivesRecode(line: string)
    ensures Survives(Recode(line)) <==> Survives(line)
  {
    SurvivesIff(line);
    SurvivesIff(Recode(line));
    FieldsRecode(line);
    if Fields(line) != [] {
      var f := Fields(line)[0];
      AsciiName();
      AsciiPrefix(f, NAMESERVER);
      AsPrefix(f, NAMESERVER);
      AsPrefix(Recode(f), NAMESERVER);
    }
  }

  lemma {:induction false} KeptRecode(lines: seq<string>)
    ensures |Kept(RecodeAll(lines))| == |Kept(lines)|
  {
    if lines != [] {
      var n := |lines| - 1;
      KeptRecode(lines[..n]);
      SurvivesRecode(lines[n]);
      assert RecodeAll(lines)[..n] == RecodeAll(lines[..n]);
    }
  }

  lemma RecordGrows(h: Header, prev: string)
    requires Proper(h)
    ensures |Kept(Split(Recode(Rewritten(h, prev)), '\n'))| == 1 + |Kept(Split(Recode(prev), '\n'))|
  {
    KeptGrows(h, prev);
    SplitRecode(prev);
    SplitRecode(Rewritten(h, prev));
    KeptRecode(Split(prev, '\n'));
    KeptRecode(Split(Rewritten(h, prev), '\n'));
  }

  /** What a second or third takeover would record is never what the first one recorded. */
  lemma RecordsDiffer(h: Header, prev: string)
    requires Proper(h)
    ensures Recode(Rewritten(h, prev)) != Recode(prev)
    ensures Recode(Rewritten(h, Rewritten(h, prev))) != Recode(prev)
  {
    RecordGrows(h, prev);
    RecordGrows(h, Rewritten(h, prev));
  }
}
