/** The resolv.conf text: taking it over, reading its nameservers, and discovering upstreams. */
module ResolvConf {
  import opened Prelude
  import opened Text
  import opened FirstOccurrences

  const NAMESERVER := "nameserver"

  /** The two lines the takeover puts first, and the address the second one names. */
  datatype Header = Header(marker: string, server: string, loopback: string)

  /** The marker is put together from short pieces because the solver unfolds a literal character by
      character; the proof about it goes piece by piece. */
  const TRUE_DNS := Header(
    "# Managed by truedns. " + ("Run \"truedns restore\"" + " to revert."),
    "nameserver" + [' '] + "127.0.0.1",
    "127.0.0.1")

  // ---- reading ----

  /** The address a line names, if it is a nameserver line. */
  function ServerOf(line: string): Option<string> {
    var f := Fields(line);
    if |f| >= 2 && f[0] == NAMESERVER then Some(f[1]) else None
  }

  function Servers(lines: seq<string>): seq<string> {
    if lines == [] then []
    else
      var n := |lines| - 1;
      Servers(lines[..n]) + (if ServerOf(lines[n]).Some? then [ServerOf(lines[n]).value] else [])
  }

  function Nameservers(content: string): seq<string> {
    Servers(Split(content, '\n'))
  }

  /** The lines that name a server, in order. */
  function ServerLines(lines: seq<string>): seq<string> {
    if lines == [] then []
    else
      var n := |lines| - 1;
      ServerLines(lines[..n]) + (if ServerOf(lines[n]).Some? then [lines[n]] else [])
  }

  lemma {:induction false} ServersOfLines(lines: seq<string>)
    ensures |Servers(lines)| == |ServerLines(lines)|
    ensures forall i :: 0 <= i < |Servers(lines)| ==> ServerOf(ServerLines(lines)[i]) == Some(Servers(lines)[i])
  {
    if lines != [] { ServersOfLines(lines[..|lines| - 1]); }
  }

  lemma {:induction false} ServerLinesTaken(lines: seq<string>, flags: seq<bool>)
    requires |flags| == |lines| && forall k :: 0 <= k < |lines| ==> flags[k] == ServerOf(lines[k]).Some?
    ensures TakenAt(ServerLines(lines), lines, Trues(flags))
  {
    if lines != [] {
      var n := |lines| - 1;
      ServerLinesTaken(lines[..n], flags[..n]);
      TakenNext(ServerLines(lines[..n]), lines, flags);
    }
  }

  /** The line reads: nameserver, an address, perhaps more. */
  predicate NamesServer(line: string) {
    |Fields(line)| >= 2 && Fields(line)[0] == "nameserver"
  }

  /** The listed servers are the second words of the lines whose first word is `nameserver`, in order. */
  lemma ServersPositions(lines: seq<string>) returns (at: seq<nat>)
    ensures Ascends(at, |lines|) && |at| == |Servers(lines)|
    ensures forall i :: 0 <= i < |at| ==> NamesServer(lines[at[i]]) && Servers(lines)[i] == Fields(lines[at[i]])[1]
    ensures forall k :: 0 <= k < |lines| ==> (k in at <==> NamesServer(lines[k]))
  {
    var flags := seq(|lines|, i requires 0 <= i < |lines| => ServerOf(lines[i]).Some?);
    at := Trues(flags);
    ServersOfLines(lines);
    ServerLinesTaken(lines, flags);
  }

  // ---- taking over ----

  /** A line that the takeover keeps. */
  predicate Survives(line: string) {
    var t := TrimSpace(line);
    t != "" && !HasPrefix(t, NAMESERVER)
  }

  function Kept(lines: seq<string>): seq<string> {
    if lines == [] then []
    else
      var n := |lines| - 1;
      Kept(lines[..n]) + (if Survives(lines[n]) then [lines[n]] else [])
  }

  function NewLines(h: Header, lines: seq<string>): seq<string> {
    [h.marker, h.server] + Kept(lines)
  }

  function Rewritten(h: Header, prev: string): string {
    Join(NewLines(h, Split(prev, '\n')), '\n') + ['\n']
  }

  /** SetSystemDNS's text: two lines of its own, then every line it keeps. */
  method TakeOver(h: Header, prev: string) returns (content: string)
    ensures content == Rewritten(h, prev)
  {
    var lines: seq<string> := [];
    lines := lines + [h.marker];
    lines := lines + [h.server];
    var olds := Split(prev, '\n');
    for i := 0 to |olds|
      invariant lines == NewLines(h, olds[..i])
    {
      assert olds[..i + 1][..i] == olds[..i];
      var trimmed := TrimSpace(olds[i]);
      if trimmed == "" || HasPrefix(trimmed, NAMESERVER) { continue; }
      lines := lines + [olds[i]];
      assert NewLines(h, olds[..i]) + [olds[i]] == [h.marker, h.server] + (Kept(olds[..i]) + [olds[i]]);
    }
    assert olds[..|olds|] == olds;
    content := Join(lines, '\n') + ['\n'];
  }

  lemma {:induction false} KeptConcat(a: seq<string>, b: seq<string>)
    ensures Kept(a + b) == Kept(a) + Kept(b)
  {
    if b == [] {
      assert a + b == a;
    } else {
      var n := |b| - 1;
      KeptConcat(a, b[..n]);
      assert (a + b)[..|a + b| - 1] == a + b[..n];
    }
  }

  predicate AllSurvive(lines: seq<string>) {
    forall i :: 0 <= i < |lines| ==> Survives(lines[i])
  }

  lemma {:induction false} KeptMembers(lines: seq<string>)
    ensures AllSurvive(Kept(lines))
    ensures forall l :: l in Kept(lines) <==> l in lines && Survives(l)
  {
    if lines != [] {
      var n := |lines| - 1;
      KeptMembers(lines[..n]);
      assert lines == lines[..n] + [lines[n]];
    }
  }

  /** The kept lines stand in their order, each once. */
  lemma KeptPositions(lines: seq<string>) returns (at: seq<nat>)
    ensures TakenAt(Kept(lines), lines, at)
    ensures forall k :: 0 <= k < |lines| ==> (k in at <==> Survives(lines[k]))
  {
    var flags := seq(|lines|, i requires 0 <= i < |lines| => Survives(lines[i]));
    KeptTaken(lines, flags);
    at := Trues(flags);
  }

  lemma {:induction false} KeptTaken(lines: seq<string>, flags: seq<bool>)
    requires |flags| == |lines| && forall k :: 0 <= k < |lines| ==> flags[k] == Survives(lines[k])
    ensures TakenAt(Kept(lines), lines, Trues(flags))
  {
    if lines != [] {
      var n := |lines| - 1;
      KeptTaken(lines[..n], flags[..n]);
      TakenNext(Kept(lines[..n]), lines, flags);
    }
  }

  /** A line survives exactly when it has a word and the first one does not begin with `nameserver`. */
  lemma SurvivesIff(line: string)
    ensures Survives(line) <==> Fields(line) != [] && !HasPrefix(Fields(line)[0], NAMESERVER)
  {
    FieldsTrimSpace(line);
    TrimLeftStarts(line);
    TrimRightIsPrefix(TrimLeft(line));
    var t := TrimSpace(line);
    if t != "" {
      var w := Word(t);
      assert !IsSpace(t[0]) && t[..|w|] == w && Fields(t)[0] == w;
      WordEnds(t);
      PrefixOfWord(t, w, NAMESERVER);
    }
  }

  lemma {:induction false} WordEnds(s: string)
    ensures var w := Word(s); |w| < |s| ==> IsSpace(s[|w|])
  {
    if s != "" && !IsSpace(s[0]) { WordEnds(s[1..]); }
  }

  /** A word without space that begins a text begins its first word. */
  lemma PrefixOfWord(t: string, w: string, p: string)
    requires w <= t && (|w| < |t| ==> IsSpace(t[|w|])) && SpaceFree(p)
    ensures HasPrefix(t, p) <==> HasPrefix(w, p)
  {
    if HasPrefix(t, p) {
      assert forall i :: 0 <= i < |p| ==> p[i] == t[..|p|][i];
      assert |p| <= |w|;
      assert w[..|p|] == t[..|p|];
    }
    if HasPrefix(w, p) { assert t[..|p|] == w[..|p|]; }
  }

  /** What has been kept once is kept again. */
  lemma {:induction false} KeptAll(lines: seq<string>)
    requires AllSurvive(lines)
    ensures Kept(lines) == lines
  {
    if lines != [] {
      var n := |lines| - 1;
      KeptAll(lines[..n]);
      assert lines == lines[..n] + [lines[n]];
    }
  }

  lemma {:induction false} JoinTrailing(lines: seq<string>, sep: char)
    requires lines != []
    ensures Join(lines + [""], sep) == Join(lines, sep) + [sep]
  {
    assert (lines + [""])[1..] == lines[1..] + [""];
    if |lines| > 1 {
      JoinTrailing(lines[1..], sep);
    } else {
      assert lines[1..] + [""] == [""];
    }
  }

  /** A header as the code writes it: two lines, a comment and a nameserver line. */
  predicate Proper(h: Header) {
    && '\n' !in h.marker && Survives(h.marker) && ServerOf(h.marker) == None
    && '\n' !in h.server && !Survives(h.server) && ServerOf(h.server) == Some(h.loopback)
    && TrimSpace(h.loopback) == h.loopback
  }

  lemma TrueDnsIsProper()
    ensures Proper(TRUE_DNS)
  {
    TrueDnsMarker();
    TrueDnsServer();
  }

  lemma TrueDnsMarker()
    ensures var m := TRUE_DNS.marker; '\n' !in m && Survives(m) && ServerOf(m) == None
  {
    var a, b, c := "# Managed by truedns. ", "Run \"truedns restore\"", " to revert.";
    CommentLine(a, b, c);
  }

  /** A line that starts with a comment sign and ends with a full stop. */
  lemma CommentLine(a: string, b: string, c: string)
    requires a != "" && a[0] == '#' && c != "" && c[|c| - 1] == '.'
    requires '\n' !in a && '\n' !in b && '\n' !in c
    ensures var s := a + (b + c); '\n' !in s && Survives(s) && ServerOf(s) == None
  {}

  lemma TrueDnsServer()
    ensures var s := TRUE_DNS.server;
            '\n' !in s && !Survives(s) && ServerOf(s) == Some(TRUE_DNS.loopback)
    ensures TrimSpace(TRUE_DNS.loopback) == TRUE_DNS.loopback
  {
    FieldsOfTwo(NAMESERVER, "127.0.0.1");
    NoTrim(TRUE_DNS.server);
    NoTrim(TRUE_DNS.loopback);
  }

  lemma EmptyLine()
    ensures !Survives("") && ServerOf("") == None
  {}

  lemma NoTrim(s: string)
    requires s != "" && !IsSpace(s[0]) && !IsSpace(s[|s| - 1])
    ensures TrimSpace(s) == s
  {}

  lemma FieldsOfTwo(a: string, b: string)
    requires a != "" && b != "" && SpaceFree(a) && SpaceFree(b)
    ensures Fields(a + [' '] + b) == [a, b]
  {
    var s := a + [' '] + b;
    assert s == a + ([' '] + b);
    WordThen(a, [' '] + b);
    assert s[|a|..] == [' '] + b;
    assert ([' '] + b)[1..] == b;
    assert b + "" == b;
    WordThen(b, "");
    assert b[|b|..] == "";
    assert Fields(b) == [b] + Fields("");
    assert Fields([' '] + b) == Fields(b);
  }

  /** The first field of a line starts its trimmed text. */
  lemma FirstField(line: string)
    ensures Fields(line) != [] ==> HasPrefix(TrimSpace(line), Fields(line)[0]) && Fields(line)[0] != ""
    ensures line != "" && !IsSpace(line[0]) ==> Fields(line) != [] && Fields(line)[0] == Word(line)
    ensures Fields(line) == Fields(TrimLeft(line))
  {
    FieldsTrimLeft(line);
    TrimLeftStarts(line);
    var t := TrimLeft(line);
    if t != "" {
      var w := Word(t);
      WordIsSpaceFree(t);
      KeepsWord(t, w);
    }
  }

  lemma {:induction false} TrimLeftStarts(s: string)
    ensures TrimLeft(s) != "" ==> !IsSpace(TrimLeft(s)[0])
  {
    if s != "" && IsSpace(s[0]) { TrimLeftStarts(s[1..]); }
  }

  lemma {:induction false} WordIsSpaceFree(s: string)
    ensures SpaceFree(Word(s))
  {
    if s != "" && !IsSpace(s[0]) {
      WordIsSpaceFree(s[1..]);
    }
  }

  /** Trimming on the right does not reach into a leading word. */
  lemma {:induction false} KeepsWord(s: string, w: string)
    requires w != "" && SpaceFree(w) && HasPrefix(s, w)
    ensures HasPrefix(TrimRight(s), w)
    decreases |s|
  {
    if IsSpace(s[|s| - 1]) {
      assert w[|w| - 1] == s[..|w|][|w| - 1] == s[|w| - 1];
      assert s[..|s| - 1][..|w|] == w;
      KeepsWord(s[..|s| - 1], w);
    }
  }

  /** A line that survives names no server. */
  lemma SurvivorNamesNone(line: string)
    requires Survives(line)
    ensures ServerOf(line) == None
  {
    FirstField(line);
  }

  lemma {:induction false} SurvivorsNameNone(lines: seq<string>)
    requires AllSurvive(lines)
    ensures Servers(lines) == []
  {
    if lines != [] {
      var n := |lines| - 1;
      SurvivorNamesNone(lines[n]);
      SurvivorsNameNone(lines[..n]);
    }
  }

  lemma {:induction false} ServersConcat(a: seq<string>, b: seq<string>)
    ensures Servers(a + b) == Servers(a) + Servers(b)
  {
    if b == [] {
      assert a + b == a;
    } else {
      var n := |b| - 1;
      ServersConcat(a, b[..n]);
      assert (a + b)[..|a + b| - 1] == a + b[..n];
    }
  }

  predicate NoBreaks(lines: seq<string>) {
    forall i :: 0 <= i < |lines| ==> '\n' !in lines[i]
  }

  lemma KeptNoBreaks(lines: seq<string>)
    requires NoBreaks(lines)
    ensures NoBreaks(Kept(lines))
  {}

  /** The lines of the rewritten file: its own two, then exactly the surviving lines in order. */
  lemma RewrittenLines(h: Header, prev: string)
    requires Proper(h)
    ensures Split(Rewritten(h, prev), '\n') == [h.marker, h.server] + Kept(Split(prev, '\n')) + [""]
  {
    var lines := NewLines(h, Split(prev, '\n'));
    KeptNoBreaks(Split(prev, '\n'));
    assert NoBreaks(lines + [""]);
    JoinTrailing(lines, '\n');
    SplitJoin(lines + [""], '\n');
  }

  /** After the takeover the only nameserver is the loopback address. */
  lemma OnlyLoopback(h: Header, prev: string)
    requires Proper(h)
    ensures Nameservers(Rewritten(h, prev)) == [h.loopback]
  {
    var lines := Split(prev, '\n');
    RewrittenLines(h, prev);
    KeptMembers(lines);
    SurvivorsNameNone(Kept(lines));
    ServersConcat([h.marker, h.server], Kept(lines));
    ServersConcat(NewLines(h, lines), [""]);
    OwnServers(h);
  }

  lemma OwnServers(h: Header)
    requires Proper(h)
    ensures Servers([h.marker, h.server]) == [h.loopback] && Servers([""]) == []
  {
    EmptyLine();
    ServersConcat([h.marker], [h.server]);
    assert [h.marker] + [h.server] == [h.marker, h.server];
    One(h.marker);
    One(h.server);
    One("");
  }

  lemma One(line: string)
    ensures Servers([line]) == if ServerOf(line).Some? then [ServerOf(line).value] else []
  {
    assert [line][..0] == [];
  }

  /** Every takeover keeps one line more than the one before: its own marker. */
  lemma KeptGrows(h: Header, prev: string)
    requires Proper(h)
    ensures |Kept(Split(Rewritten(h, prev), '\n'))| == 1 + |Kept(Split(prev, '\n'))|
  {
    var lines := Split(prev, '\n');
    RewrittenLines(h, prev);
    KeptMembers(lines);
    KeptAll(Kept(lines));
    KeptConcat([h.marker, h.server], Kept(lines));
    KeptConcat(NewLines(h, lines), [""]);
    OwnKept(h);
  }

  /** So what a second takeover finds, and would save, is never what the first one found. */
  lemma RewrittenDiffers(h: Header, prev: string)
    requires Proper(h)
    ensures Rewritten(h, prev) != prev && Rewritten(h, Rewritten(h, prev)) != prev
  {
    KeptGrows(h, prev);
    KeptGrows(h, Rewritten(h, prev));
  }

  lemma OwnKept(h: Header)
    requires Proper(h)
    ensures |Kept([h.marker, h.server])| == 1 && Kept([""]) == []
  {
    EmptyLine();
    KeptConcat([h.marker], [h.server]);
    assert [h.marker] + [h.server] == [h.marker, h.server];
    OneKept(h.marker);
    OneKept(h.server);
    OneKept("");
  }

  lemma OneKept(line: string)
    ensures Kept([line]) == if Survives(line) then [line] else []
  {
    assert [line][..0] == [];
  }

  // ---- discovering upstreams ----

  /** How an address is used as an upstream: with its port, or not at all when it is malformed,
      loopback, unspecified or one of this machine's own. */
  type Dialable = string -> Option<string>

  function Usable(dial: Dialable, addrs: seq<string>): seq<string> {
    if addrs == [] then []
    else
      var n := |addrs| - 1;
      var a := TrimSpace(addrs[n]);
      Usable(dial, addrs[..n]) + (if a == "" || dial(a).None? then [] else [dial(a).value])
  }

  /** normalizeAddrs: the usable addresses, each where it first occurs. */
  method NormalizeAddrs(dial: Dialable, addrs: seq<string>) returns (out: seq<string>)
    ensures out == Unique(Usable(dial, addrs))
  {
    var seen: set<string> := {};
    out := [];
    for i := 0 to |addrs|
      invariant out == Unique(Usable(dial, addrs[..i]))
      invariant forall x :: x in seen <==> x in out
    {
      assert addrs[..i + 1][..i] == addrs[..i];
      var a := TrimSpace(addrs[i]);
      if a == "" || dial(a).None? {
        assert Usable(dial, addrs[..i + 1]) == Usable(dial, addrs[..i]);
        continue;
      }
      var withPort := dial(a).value;
      UniqueStep(Usable(dial, addrs[..i]), withPort);
      if withPort in seen { continue; }
      seen := seen + {withPort};
      out := out + [withPort];
    }
    assert addrs[..|addrs|] == addrs;
  }

  /** How one listed address is used. */
  function UseOf(dial: Dialable, addr: string): Option<string> {
    var a := TrimSpace(addr);
    if a == "" then None else dial(a)
  }

  /** The addresses that can be used, as they are listed. */
  function UsableOnes(dial: Dialable, addrs: seq<string>): seq<string> {
    if addrs == [] then []
    else
      var n := |addrs| - 1;
      UsableOnes(dial, addrs[..n]) + (if UseOf(dial, addrs[n]).Some? then [addrs[n]] else [])
  }

  lemma {:induction false} UsesOfOnes(dial: Dialable, addrs: seq<string>)
    ensures |Usable(dial, addrs)| == |UsableOnes(dial, addrs)|
    ensures forall i :: 0 <= i < |Usable(dial, addrs)| ==>
              UseOf(dial, UsableOnes(dial, addrs)[i]) == Some(Usable(dial, addrs)[i])
  {
    if addrs != [] { UsesOfOnes(dial, addrs[..|addrs| - 1]); }
  }

  lemma {:induction false} UsableTaken(dial: Dialable, addrs: seq<string>, flags: seq<bool>)
    requires |flags| == |addrs| && forall k :: 0 <= k < |addrs| ==> flags[k] == UseOf(dial, addrs[k]).Some?
    ensures TakenAt(UsableOnes(dial, addrs), addrs, Trues(flags))
  {
    if addrs != [] {
      var n := |addrs| - 1;
      UsableTaken(dial, addrs[..n], flags[..n]);
      TakenNext(UsableOnes(dial, addrs[..n]), addrs, flags);
    }
  }

  /** The upstream addresses are made, in order, from exactly the listed addresses that can be used. */
  lemma UsablePositions(dial: Dialable, addrs: seq<string>) returns (at: seq<nat>)
    ensures Ascends(at, |addrs|) && |at| == |Usable(dial, addrs)|
    ensures forall i :: 0 <= i < |at| ==> UseOf(dial, addrs[at[i]]) == Some(Usable(dial, addrs)[i])
    ensures forall k :: 0 <= k < |addrs| ==> (k in at <==> UseOf(dial, addrs[k]).Some?)
  {
    var flags := seq(|addrs|, i requires 0 <= i < |addrs| => UseOf(dial, addrs[i]).Some?);
    at := Trues(flags);
    UsesOfOnes(dial, addrs);
    UsableTaken(dial, addrs, flags);
  }

  const DEFAULTS := ["223.5.5.5", "119.29.29.29", "1.1.1.1"]

  /** The upstreams that a file's nameservers give, or else the public ones. */
  function Upstreams(dial: Dialable, content: string): seq<string> {
    var got := Unique(Usable(dial, Nameservers(content)));
    if got == [] then Unique(Usable(dial, DEFAULTS)) else got
  }

  /** An upstream is a use of a nameserver of the file, or, when none of these can be used, of a public one. */
  lemma UpstreamsIff(dial: Dialable, content: string, x: string)
    ensures x in Upstreams(dial, content) <==>
              var listed := Nameservers(content);
              if exists a :: a in listed && UseOf(dial, a).Some?
              then exists a :: a in listed && UseOf(dial, a) == Some(x)
              else exists a :: a in ["223.5.5.5", "119.29.29.29", "1.1.1.1"] && UseOf(dial, a) == Some(x)
  {
    var listed := Nameservers(content);
    UsableOnly(dial, listed);
    UsableOnly(dial, DEFAULTS);
    var got := Unique(Usable(dial, listed));
    if got != [] { assert got[0] in got; }
    if a :| a in listed && UseOf(dial, a).Some? { assert UseOf(dial, a).value in got; }
  }

  /** DiscoverSystemDNS: the saved text, if there is one and it says anything, else the live file. */
  method Discover(dial: Dialable, live: string, saved: Option<string>) returns (got: seq<string>)
    ensures got == Upstreams(dial, if saved.Some? && saved.value != "" then saved.value else live)
  {
    var content := live;
    if saved.Some? && saved.value != "" { content := saved.value; }
    var lines := Split(content, '\n');
    var raw: seq<string> := [];
    for i := 0 to |lines|
      invariant raw == Servers(lines[..i])
    {
      assert lines[..i + 1][..i] == lines[..i];
      var f := Fields(lines[i]);
      if |f| >= 2 && f[0] == NAMESERVER { raw := raw + [f[1]]; }
    }
    assert lines[..|lines|] == lines;
    got := NormalizeAddrs(dial, raw);
    if |got| == 0 { got := NormalizeAddrs(dial, DEFAULTS); }
  }

  /** Nothing undialable is ever discovered, and nothing twice. */
  lemma {:induction false} UsableOnly(dial: Dialable, addrs: seq<string>)
    ensures forall x :: x in Unique(Usable(dial, addrs)) <==>
                          exists a :: a in addrs && TrimSpace(a) != "" && dial(TrimSpace(a)) == Some(x)
  {
    UniqueMembers(Usable(dial, addrs));
    UsableMembers(dial, addrs);
  }

  lemma {:induction false} UsableMembers(dial: Dialable, addrs: seq<string>)
    ensures forall x :: x in Usable(dial, addrs) <==>
                          exists a :: a in addrs && TrimSpace(a) != "" && dial(TrimSpace(a)) == Some(x)
  {
    if addrs != [] {
      var n := |addrs| - 1;
      UsableMembers(dial, addrs[..n]);
      assert addrs == addrs[..n] + [addrs[n]];
    }
  }
}
