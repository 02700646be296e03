/** The override table: hosts-format sources, each replaced by its latest complete load, and lookups
    merged across sources. */
module Override {
  import opened Prelude
  import opened Text
  import opened StringOrder
  import opened FirstOccurrences

  /** An address as the parser reads it; 4-in-6 forms read as the IPv4 address they hold. */
  datatype Ip = V4(value: nat) | V6(value: nat)

  type Parser = string -> Option<Ip>

  datatype Pair = Pair(host: string, ip: Ip)

  type Hosts = map<string, seq<Ip>>

  // ---- what a file says ----

  function HostName(name: string): string {
    Lower(TrimSuffix(TrimSpace(name), '.'))
  }

  /** A line without its comment and surrounding space. */
  function Content(line: string): string {
    var t := TrimSpace(line);
    if t == "" || HasPrefix(t, "#") then ""
    else
      var i := IndexByte(t, '#');
      if i >= 0 then TrimSpace(t[..i]) else t
  }

  function NamePairs(names: seq<string>, ip: Ip): seq<Pair> {
    if names == [] then []
    else
      var n := |names| - 1;
      NamePairs(names[..n], ip) + (if HostName(names[n]) == "" then [] else [Pair(HostName(names[n]), ip)])
  }

  function LinePairs(parse: Parser, line: string): seq<Pair> {
    var fields := Fields(Content(line));
    if |fields| < 2 || parse(fields[0]).None? then [] else NamePairs(fields[1..], parse(fields[0]).value)
  }

  /** All (host, address) pairs of a file, in order. */
  function Pairs(parse: Parser, lines: seq<string>): seq<Pair> {
    if lines == [] then []
    else Pairs(parse, lines[..|lines| - 1]) + LinePairs(parse, lines[|lines| - 1])
  }

  /** The addresses that the pairs give a host, in order and with repetitions. */
  function IpsFor(pairs: seq<Pair>, host: string): seq<Ip> {
    if pairs == [] then []
    else
      var n := |pairs| - 1;
      IpsFor(pairs[..n], host) + (if pairs[n].host == host then [pairs[n].ip] else [])
  }

  // ---- what a line says ----

  /** A line up to its first comment sign. */
  function Uncommented(line: string): string {
    var i := IndexByte(line, '#');
    if i >= 0 then line[..i] else line
  }

  lemma {:induction false} TrimLeftTo(s: string, c: char, rest: string)
    requires !IsSpace(c)
    ensures TrimLeft(s + ([c] + rest)) == TrimLeft(s) + ([c] + rest)
  {
    if s == "" {
      assert s + ([c] + rest) == [c] + rest && TrimLeft(s) + ([c] + rest) == [c] + rest;
    } else if IsSpace(s[0]) {
      assert (s + ([c] + rest))[1..] == s[1..] + ([c] + rest);
      TrimLeftTo(s[1..], c, rest);
    }
  }

  lemma {:induction false} TrimRightTo(s: string, c: char, rest: string)
    requires !IsSpace(c)
    ensures TrimRight(s + ([c] + rest)) == s + ([c] + TrimRight(rest))
    decreases |rest|
  {
    var whole := s + ([c] + rest);
    if rest != "" && IsSpace(rest[|rest| - 1]) {
      assert whole[..|whole| - 1] == s + ([c] + rest[..|rest| - 1]);
      TrimRightTo(s, c, rest[..|rest| - 1]);
    }
  }

  lemma {:induction false} TrimLeftLacks(s: string, c: char)
    requires c !in s
    ensures c !in TrimLeft(s) && c !in TrimSpace(s)
  {
    if s != "" && IsSpace(s[0]) {
      TrimLeftLacks(s[1..], c);
    } else {
      TrimRightIsPrefix(s);
    }
  }

  /** The fields read from a line are those in front of its first comment sign. */
  lemma LineFields(line: string)
    ensures Fields(Content(line)) == Fields(Uncommented(line))
  {
    var i := IndexByte(line, '#');
    FieldsTrimSpace(line);
    if i < 0 {
      TrimLeftLacks(line, '#');
    } else {
      var s, rest := line[..i], line[i + 1..];
      var x := TrimLeft(s);
      assert line == s + (['#'] + rest);
      TrimLeftTo(s, '#', rest);
      TrimRightTo(x, '#', rest);
      TrimLeftLacks(s, '#');
      FieldsTrimLeft(s);
      CommentCut(x, TrimRight(rest));
      FieldsTrimSpace(x);
    }
  }

  lemma CommentCut(x: string, rest: string)
    requires '#' !in x
    ensures var t := x + (['#'] + rest);
            IndexByte(t, '#') == |x| && t[..|x|] == x && (HasPrefix(t, "#") <==> x == "")
  {
    var t := x + (['#'] + rest);
    assert t[|x|] == '#' && t[..|x|] == x;
  }

  /** The host a field names: in lower case and without a trailing dot. */
  lemma HostNameIs(word: string)
    requires SpaceFree(word) && (word != "" ==> word[|word| - 1] != '.')
    ensures HostName(word) == Lower(word) && HostName(word + ".") == Lower(word)
  {
    TrimSpaceIs("", word, "");
    TrimSpaceIs("", word + ".", "");
    assert "" + word + "" == word && "" + (word + ".") + "" == word + ".";
  }

  // ---- where a host is mentioned ----

  /** The k-th field of a line. */
  datatype Mention = Mention(line: nat, field: nat)

  predicate Earlier(a: Mention, b: Mention) {
    a.line < b.line || (a.line == b.line && a.field < b.field)
  }

  /** Field k of a line gives the host the address the line starts with. */
  predicate Gives(parse: Parser, line: string, k: nat, host: string) {
    var f := Fields(Uncommented(line));
    1 <= k < |f| && parse(f[0]).Some? && HostName(f[k]) == host
  }

  function AddressOf(parse: Parser, line: string): Ip
    requires Fields(Uncommented(line)) != [] && parse(Fields(Uncommented(line))[0]).Some?
  {
    parse(Fields(Uncommented(line))[0]).value
  }

  /** The mentions of a host among the first k names, which start at field 1 of line l. */
  function NamedIn(names: seq<string>, l: nat, host: string): (at: seq<Mention>)
    ensures forall m :: m in at <==>
                          m.line == l && 1 <= m.field <= |names| && HostName(names[m.field - 1]) == host
    ensures forall i, j :: 0 <= i < j < |at| ==> Earlier(at[i], at[j])
  {
    if names == [] then []
    else
      var n := |names| - 1;
      NamedIn(names[..n], l, host) + (if HostName(names[n]) == host then [Mention(l, n + 1)] else [])
  }

  predicate AllAre(ips: seq<Ip>, ip: Ip, n: nat) {
    |ips| == n && forall i :: 0 <= i < n ==> ips[i] == ip
  }

  function TimesNamed(names: seq<string>, host: string): nat {
    if names == [] then 0
    else
      var n := |names| - 1;
      TimesNamed(names[..n], host) + (if HostName(names[n]) == host then 1 else 0)
  }

  lemma {:induction false} NamedSize(names: seq<string>, l: nat, host: string)
    ensures |NamedIn(names, l, host)| == TimesNamed(names, host)
  {
    if names != [] { NamedSize(names[..|names| - 1], l, host); }
  }

  lemma {:induction false} NamesGive(names: seq<string>, ip: Ip, host: string)
    requires host != ""
    ensures AllAre(IpsFor(NamePairs(names, ip), host), ip, TimesNamed(names, host))
  {
    if names != [] {
      var n := |names| - 1;
      NamesGive(names[..n], ip, host);
      if HostName(names[n]) == "" {
        assert NamePairs(names[..n], ip) + [] == NamePairs(names[..n], ip);
      } else {
        IpsForNext(NamePairs(names[..n], ip), Pair(HostName(names[n]), ip), host);
      }
    }
  }

  lemma IpsForNext(pairs: seq<Pair>, p: Pair, host: string)
    ensures IpsFor(pairs + [p], host) == IpsFor(pairs, host) + (if p.host == host then [p.ip] else [])
  {
    assert (pairs + [p])[..|pairs|] == pairs;
  }

  function MentionsOn(parse: Parser, line: string, l: nat, host: string): (at: seq<Mention>)
    ensures forall m :: m in at <==> m.line == l && Gives(parse, line, m.field, host)
    ensures forall i, j :: 0 <= i < j < |at| ==> Earlier(at[i], at[j])
  {
    var f := Fields(Uncommented(line));
    if |f| < 2 || parse(f[0]).None? then [] else NamedIn(f[1..], l, host)
  }

  /** The addresses are those that the lines of the mentions start with. */
  predicate AddressesAt(parse: Parser, lines: seq<string>, host: string, ips: seq<Ip>, at: seq<Mention>) {
    |ips| == |at| && forall i :: 0 <= i < |at| ==> AddressAt(parse, lines, host, ips[i], at[i])
  }

  predicate AddressAt(parse: Parser, lines: seq<string>, host: string, ip: Ip, m: Mention) {
    m.line < |lines| && Gives(parse, lines[m.line], m.field, host) && ip == AddressOf(parse, lines[m.line])
  }

  lemma LineGives(parse: Parser, lines: seq<string>, l: nat, host: string)
    requires host != "" && l < |lines|
    ensures AddressesAt(parse, lines, host, IpsFor(LinePairs(parse, lines[l]), host),
                        MentionsOn(parse, lines[l], l, host))
  {
    LineFields(lines[l]);
    var f := Fields(Uncommented(lines[l]));
    var at := MentionsOn(parse, lines[l], l, host);
    if |f| >= 2 && parse(f[0]).Some? {
      NamesGive(f[1..], parse(f[0]).value, host);
      NamedSize(f[1..], l, host);
    }
    assert forall i :: 0 <= i < |at| ==> at[i] in at;
  }

  function Mentions(parse: Parser, lines: seq<string>, host: string): (at: seq<Mention>)
    ensures forall m :: m in at <==> m.line < |lines| && Gives(parse, lines[m.line], m.field, host)
    ensures forall i, j :: 0 <= i < j < |at| ==> Earlier(at[i], at[j])
  {
    if lines == [] then []
    else
      var n := |lines| - 1;
      var before, on := Mentions(parse, lines[..n], host), MentionsOn(parse, lines[n], n, host);
      assert forall i :: 0 <= i < |before| ==> before[i] in before;
      assert forall i :: 0 <= i < |on| ==> on[i] in on;
      before + on
  }

  lemma {:induction false} IpsForConcat(a: seq<Pair>, b: seq<Pair>, host: string)
    ensures IpsFor(a + b, host) == IpsFor(a, host) + IpsFor(b, host)
  {
    if b == [] {
      assert a + b == a;
    } else {
      var n := |b| - 1;
      IpsForConcat(a, b[..n], host);
      assert (a + b)[..|a + b| - 1] == a + b[..n];
    }
  }

  lemma MoreLines(parse: Parser, lines: seq<string>, host: string, n: nat, ips: seq<Ip>, at: seq<Mention>)
    requires n <= |lines| && AddressesAt(parse, lines[..n], host, ips, at)
    ensures AddressesAt(parse, lines, host, ips, at)
  {
    forall i | 0 <= i < |at|
      ensures AddressAt(parse, lines, host, ips[i], at[i])
    {
      assert AddressAt(parse, lines[..n], host, ips[i], at[i]);
    }
  }

  lemma AddressesJoin(parse: Parser, lines: seq<string>, host: string, a: seq<Ip>, b: seq<Ip>,
                      at: seq<Mention>, on: seq<Mention>)
    requires AddressesAt(parse, lines, host, a, at) && AddressesAt(parse, lines, host, b, on)
    ensures AddressesAt(parse, lines, host, a + b, at + on)
  {}

  /** What a file gives a host: one address for each field in front of a comment that names the host, in the
      order of lines and fields, always the address its line starts with. */
  lemma {:induction false} FileGives(parse: Parser, lines: seq<string>, host: string)
    requires host != ""
    ensures var at := Mentions(parse, lines, host);
            && AddressesAt(parse, lines, host, IpsFor(Pairs(parse, lines), host), at)
            && (forall i, j :: 0 <= i < j < |at| ==> Earlier(at[i], at[j]))
            && (forall m :: m in at <==> m.line < |lines| && Gives(parse, lines[m.line], m.field, host))
  {
    if lines != [] {
      var n := |lines| - 1;
      FileGives(parse, lines[..n], host);
      LineGives(parse, lines, n, host);
      IpsForConcat(Pairs(parse, lines[..n]), LinePairs(parse, lines[n]), host);
      var before, on := IpsFor(Pairs(parse, lines[..n]), host), IpsFor(LinePairs(parse, lines[n]), host);
      MoreLines(parse, lines, host, n, before, Mentions(parse, lines[..n], host));
      AddressesJoin(parse, lines, host, before, on, Mentions(parse, lines[..n], host),
                    MentionsOn(parse, lines[n], n, host));
    }
  }

  // ---- one source ----

  function Get(hosts: Hosts, host: string): seq<Ip> {
    if host in hosts then hosts[host] else []
  }

  function AddPair(hosts: Hosts, p: Pair): Hosts {
    if p.ip in Get(hosts, p.host) then hosts else hosts[p.host := Get(hosts, p.host) + [p.ip]]
  }

  function Collected(pairs: seq<Pair>): Hosts {
    if pairs == [] then map[] else AddPair(Collected(pairs[..|pairs| - 1]), pairs[|pairs| - 1])
  }

  /** A source lists exactly the hosts it gives an address, each with its distinct addresses in order. */
  lemma {:induction false} CollectedIs(pairs: seq<Pair>, host: string)
    ensures Get(Collected(pairs), host) == Unique(IpsFor(pairs, host))
    ensures host in Collected(pairs) <==> IpsFor(pairs, host) != []
  {
    if pairs != [] {
      var n := |pairs| - 1;
      CollectedIs(pairs[..n], host);
      var ips := IpsFor(pairs[..n], host);
      UniqueStep(ips, pairs[n].ip);
      assert ips + [] == ips;
    }
  }

  lemma PairsStep(parse: Parser, lines: seq<string>, i: nat)
    requires i < |lines|
    ensures Pairs(parse, lines[..i + 1]) == Pairs(parse, lines[..i]) + LinePairs(parse, lines[i])
    ensures LinePairs(parse, lines[i]) == [] ==> Pairs(parse, lines[..i + 1]) == Pairs(parse, lines[..i])
  {
    assert lines[..i + 1][..i] == lines[..i];
  }

  lemma NamePairsStep(before: seq<Pair>, names: seq<string>, ip: Ip, k: nat)
    requires k < |names|
    ensures before + NamePairs(names[..k + 1], ip)
         == if HostName(names[k]) == "" then before + NamePairs(names[..k], ip)
            else (before + NamePairs(names[..k], ip)) + [Pair(HostName(names[k]), ip)]
  {
    assert names[..k + 1][..k] == names[..k];
  }

  lemma CollectedStep(pairs: seq<Pair>, p: Pair)
    ensures Collected(pairs + [p]) == AddPair(Collected(pairs), p)
  {}

  function Parsed(parse: Parser, lines: seq<string>): Hosts {
    Collected(Pairs(parse, lines))
  }

  // ---- all sources ----

  type Sources = map<string, Hosts>

  function Gather(sources: Sources, order: seq<string>, host: string): seq<Ip> {
    if order == [] then []
    else
      var n := |order| - 1;
      Gather(sources, order[..n], host) + (if order[n] in sources then Get(sources[order[n]], host) else [])
  }

  lemma GatherStep(sources: Sources, order: seq<string>, i: nat, host: string)
    requires i < |order| && order[i] in sources
    ensures Gather(sources, order[..i + 1], host) == Gather(sources, order[..i], host) + Get(sources[order[i]], host)
  {
    assert order[..i + 1][..i] == order[..i];
  }

  /** The merged addresses of a host, in ascending order of source. */
  ghost function Resolve(sources: Sources, host: string): seq<Ip> {
    Unique(Gather(sources, Order(sources.Keys), host))
  }

  /** The (source, host) listings of some of the sources. */
  ghost function Listings(sources: Sources, among: set<string>): set<(string, string)> {
    set s, h | s in among && s in sources && h in sources[s] :: (s, h)
  }

  lemma ListingsAdd(sources: Sources, among: set<string>, s: string)
    requires s in sources && s !in among
    ensures |Listings(sources, among + {s})| == |Listings(sources, among)| + |sources[s]|
  {
    var more := set h | h in sources[s] :: (s, h);
    TagsCount(s, sources[s].Keys);
    assert more == set h | h in sources[s].Keys :: (s, h);
    assert Listings(sources, among + {s}) == Listings(sources, among) + more;
    assert Listings(sources, among) !! more;
  }

  lemma {:induction false} TagsCount(s: string, hs: set<string>)
    ensures |set h | h in hs :: (s, h)| == |hs|
    decreases |hs|
  {
    var tags := set h | h in hs :: (s, h);
    if hs == {} {
      assert tags == {};
    } else {
      var h :| h in hs;
      TagsCount(s, hs - {h});
      assert tags == (set g | g in hs - {h} :: (s, g)) + {(s, h)};
    }
  }

  /** One file or URL to load: whether it could be opened (`found`), and whether it could be read to its end. */
  datatype Load = Load(src: string, lines: seq<string>, found: bool, readAll: bool)

  predicate Complete(load: Load) {
    load.found && load.readAll
  }

  function Apply(parse: Parser, sources: Sources, load: Load): Sources {
    if Complete(load) then sources[load.src := Parsed(parse, load.lines)] else sources
  }

  function After(parse: Parser, sources: Sources, loads: seq<Load>): Sources
    decreases |loads|
  {
    if loads == [] then sources else After(parse, Apply(parse, sources, loads[0]), loads[1..])
  }

  /** The last source that failed to load. */
  function LastFailure(loads: seq<Load>): Option<string> {
    if loads == [] then None
    else
      var n := |loads| - 1;
      if loads[n].found && loads[n].readAll then LastFailure(loads[..n]) else Some(loads[n].src)
  }

  lemma MetaStep(sources: Sources, rest: set<string>, s: string)
    requires rest <= sources.Keys && s in rest
    ensures |Listings(sources, sources.Keys - (rest - {s}))| == |Listings(sources, sources.Keys - rest)| + |sources[s]|
  {
    ListingsAdd(sources, sources.Keys - rest, s);
    assert sources.Keys - (rest - {s}) == (sources.Keys - rest) + {s};
  }

  lemma ListingStep(srcs: seq<string>, all: set<string>, rest: set<string>, s: string)
    requires rest <= all && Distinct(srcs) && Elements(srcs) == all - rest && s in rest
    ensures Distinct(srcs + [s]) && Elements(srcs + [s]) == all - (rest - {s})
  {
    assert s !in Elements(srcs);
    assert forall x :: x in srcs + [s] <==> x in Elements(srcs) || x == s;
  }

  class Table {
    var sources: Sources
    var metaSources: seq<string>
    var metaEntries: nat
    var lastError: Option<string>

    /** The metadata describes the sources. */
    ghost predicate Valid()
      reads this
    {
      metaSources == Order(sources.Keys) && metaEntries == |Listings(sources, sources.Keys)|
    }

    constructor ()
      ensures Valid() && sources == map[] && lastError == None
    {
      sources, metaSources, metaEntries, lastError := map[], [], 0, None;
      new;
      assert Listings(sources, sources.Keys) == {};
    }

    /** Parses a source and, if it was read completely, replaces its entries. */
    method LoadSource(parse: Parser, src: string, lines: seq<string>, complete: bool) returns (n: nat)
      modifies this
      ensures Valid()
      ensures sources == if complete then old(sources)[src := Parsed(parse, lines)] else old(sources)
      ensures lastError == if complete then old(lastError) else Some(src)
      ensures n == |Parsed(parse, lines)|
    {
      var parsed: Hosts := map[];
      for i := 0 to |lines|
        invariant parsed == Parsed(parse, lines[..i])
        invariant sources == old(sources) && lastError == old(lastError)
      {
        PairsStep(parse, lines, i);
        parsed := AddLine(parse, parsed, Pairs(parse, lines[..i]), lines[i]);
      }
      assert lines[..|lines|] == lines;
      if complete { sources := sources[src := parsed]; }
      RefreshMeta();
      if !complete { lastError := Some(src); }
      n := |parsed|;
    }

    static method AddLine(parse: Parser, hosts: Hosts, ghost before: seq<Pair>, text: string) returns (parsed: Hosts)
      requires hosts == Collected(before)
      ensures parsed == Collected(before + LinePairs(parse, text))
    {
      assert before + [] == before;
      var line := TrimSpace(text);
      if line == "" || HasPrefix(line, "#") { return hosts; }
      var hash := IndexByte(line, '#');
      if hash >= 0 { line := TrimSpace(line[..hash]); }
      var fields := Fields(line);
      if |fields| < 2 { return hosts; }
      var ip := parse(fields[0]);
      if ip.None? { return hosts; }
      parsed := AddNames(hosts, before, fields[1..], ip.value);
    }

    static method AddNames(hosts: Hosts, ghost before: seq<Pair>, names: seq<string>, ip: Ip) returns (parsed: Hosts)
      requires hosts == Collected(before)
      ensures parsed == Collected(before + NamePairs(names, ip))
    {
      parsed := hosts;
      assert before + [] == before;
      for k := 0 to |names|
        invariant parsed == Collected(before + NamePairs(names[..k], ip))
      {
        NamePairsStep(before, names, ip, k);
        var name := Lower(TrimSuffix(TrimSpace(names[k]), '.'));
        if name == "" { continue; }
        CollectedStep(before + NamePairs(names[..k], ip), Pair(name, ip));
        if ip !in Get(parsed, name) {
          parsed := parsed[name := Get(parsed, name) + [ip]];
        }
      }
      assert names[..|names|] == names;
    }

    /** Loads every file; what cannot be opened or read keeps its previous entries. */
    method LoadFiles(parse: Parser, files: seq<Load>) returns (error: Option<string>)
      requires Valid()
      modifies this
      ensures Valid() && sources == After(parse, old(sources), files)
      ensures error == LastFailure(files) && lastError == error
    {
      error := None;
      assert files[0..] == files;
      for i := 0 to |files|
        invariant Valid() && error == LastFailure(files[..i])
        invariant After(parse, sources, files[i..]) == After(parse, old(sources), files)
      {
        assert files[i..][1..] == files[i + 1..] && files[..i + 1][..i] == files[..i];
        if !files[i].found {
          error := Some(files[i].src);
          continue;
        }
        var n := LoadSource(parse, files[i].src, files[i].lines, files[i].readAll);
        if !files[i].readAll { error := Some(files[i].src); }
      }
      assert files[..|files|] == files;
      lastError := error;
    }

    method RefreshMeta()
      modifies this`metaSources, this`metaEntries
      ensures Valid()
    {
      var srcs: seq<string>, total, rest := [], 0, sources.Keys;
      assert Listings(sources, {}) == {};
      while rest != {}
        invariant rest <= sources.Keys && Distinct(srcs) && Elements(srcs) == sources.Keys - rest
        invariant total == |Listings(sources, sources.Keys - rest)|
        decreases rest
      {
        var s :| s in rest;
        MetaStep(sources, rest, s);
        ListingStep(srcs, sources.Keys, rest, s);
        srcs := srcs + [s];
        total := total + |sources[s]|;
        rest := rest - {s};
      }
      assert sources.Keys - rest == sources.Keys;
      SortedIsOrder(srcs);
      metaSources, metaEntries := Sorted(srcs), total;
    }

    method Lookup(name: string) returns (out: seq<Ip>)
      ensures out == Resolve(sources, HostName(name))
    {
      var host := Lower(TrimSuffix(TrimSpace(name), '.'));
      var srcs: seq<string>, rest := [], sources.Keys;
      while rest != {}
        invariant rest <= sources.Keys && Distinct(srcs) && Elements(srcs) == sources.Keys - rest
        decreases rest
      {
        var s :| s in rest;
        ListingStep(srcs, sources.Keys, rest, s);
        srcs, rest := srcs + [s], rest - {s};
      }
      assert sources.Keys - rest == sources.Keys;
      SortedIsOrder(srcs);
      OrderAscends(sources.Keys);
      srcs := Sorted(srcs);
      out := [];
      for i := 0 to |srcs|
        invariant out == Unique(Gather(sources, srcs[..i], host))
      {
        assert srcs[i] in Elements(srcs);
        GatherStep(sources, srcs, i, host);
        out := AppendNew(out, Gather(sources, srcs[..i], host), Get(sources[srcs[i]], host));
      }
      assert srcs[..|srcs|] == srcs;
    }

    static method AppendNew(prefix: seq<Ip>, ghost before: seq<Ip>, ips: seq<Ip>) returns (out: seq<Ip>)
      requires prefix == Unique(before)
      ensures out == Unique(before + ips)
    {
      out := prefix;
      assert before + [] == before;
      for k := 0 to |ips|
        invariant out == Unique(before + ips[..k])
      {
        UniqueStep(before + ips[..k], ips[k]);
        assert before + ips[..k + 1] == (before + ips[..k]) + [ips[k]];
        if ips[k] !in out { out := out + [ips[k]]; }
      }
      assert ips[..|ips|] == ips;
    }
  }

  // ---- histories ----

  /** The lines of the last complete read of a source. */
  function Latest(loads: seq<Load>, src: string): Option<seq<string>> {
    if loads == [] then None
    else
      var n := |loads| - 1;
      if loads[n].found && loads[n].readAll && loads[n].src == src then Some(loads[n].lines)
      else Latest(loads[..n], src)
  }

  lemma {:induction false} AfterConcat(parse: Parser, sources: Sources, a: seq<Load>, b: seq<Load>)
    ensures After(parse, sources, a + b) == After(parse, After(parse, sources, a), b)
    decreases |a|
  {
    if a == [] {
      assert a + b == b;
    } else {
      assert (a + b)[1..] == a[1..] + b;
      AfterConcat(parse, Apply(parse, sources, a[0]), a[1..], b);
    }
  }

  /** The table holds, for each source, the parse of its latest complete read, and nothing else. */
  lemma {:induction false} TableIsHistory(parse: Parser, loads: seq<Load>, src: string)
    ensures var t := After(parse, map[], loads);
            && (src in t <==> Latest(loads, src).Some?)
            && (src in t ==> t[src] == Parsed(parse, Latest(loads, src).value))
    decreases |loads|
  {
    if loads != [] {
      var n := |loads| - 1;
      TableIsHistory(parse, loads[..n], src);
      AfterConcat(parse, map[], loads[..n], [loads[n]]);
      assert loads[..n] + [loads[n]] == loads;
    }
  }

  /** The addresses of a host, straight from the latest complete reads, source by source. */
  function Raw(parse: Parser, loads: seq<Load>, order: seq<string>, host: string): seq<Ip> {
    if order == [] then []
    else
      var n := |order| - 1;
      var lines := Latest(loads, order[n]);
      Raw(parse, loads, order[..n], host)
      + (if lines.Some? then IpsFor(Pairs(parse, lines.value), host) else [])
  }

  lemma {:induction false} GatherIsRaw(parse: Parser, loads: seq<Load>, order: seq<string>, host: string)
    ensures Unique(Gather(After(parse, map[], loads), order, host)) == Unique(Raw(parse, loads, order, host))
    decreases |order|
  {
    if order != [] {
      var n := |order| - 1;
      var t := After(parse, map[], loads);
      GatherIsRaw(parse, loads, order[..n], host);
      TableIsHistory(parse, loads, order[n]);
      var g, r := Gather(t, order[..n], host), Raw(parse, loads, order[..n], host);
      if order[n] in t {
        var ips := IpsFor(Pairs(parse, Latest(loads, order[n]).value), host);
        CollectedIs(Pairs(parse, Latest(loads, order[n]).value), host);
        UniqueOfUnique(g, ips);
        UniqueOfUniqueLeft(g, ips);
        UniqueOfUniqueLeft(r, ips);
      } else {
        assert g + [] == g && r + [] == r;
      }
    }
  }

  /** After any sequence of complete and failed loads, a lookup gives the first occurrences in the
      concatenation, over the sources in ascending order, of what their latest complete reads say. */
  lemma LookupIsHistory(parse: Parser, loads: seq<Load>, host: string)
    ensures var t := After(parse, map[], loads);
            && Ascending(Order(t.Keys))
            && (forall src :: src in Order(t.Keys) <==> Latest(loads, src).Some?)
            && Resolve(t, host) == Unique(Raw(parse, loads, Order(t.Keys), host))
  {
    var t := After(parse, map[], loads);
    OrderAscends(t.Keys);
    forall src
      ensures src in Order(t.Keys) <==> Latest(loads, src).Some?
    {
      TableIsHistory(parse, loads, src);
      assert src in Order(t.Keys) <==> src in Elements(Order(t.Keys));
    }
    GatherIsRaw(parse, loads, Order(t.Keys), host);
  }

  /** Loads of different sources commute. */
  lemma SourceOrderIrrelevant(parse: Parser, before: seq<Load>, a: Load, b: Load, after: seq<Load>)
    requires a.src != b.src
    ensures After(parse, map[], before + [a, b] + after) == After(parse, map[], before + [b, a] + after)
  {
    var t := After(parse, map[], before);
    AfterConcat(parse, map[], before + [a, b], after);
    AfterConcat(parse, map[], before + [b, a], after);
    AfterConcat(parse, map[], before, [a, b]);
    AfterConcat(parse, map[], before, [b, a]);
    AfterTwo(parse, t, a, b);
    AfterTwo(parse, t, b, a);
    assert Apply(parse, Apply(parse, t, a), b) == Apply(parse, Apply(parse, t, b), a);
  }

  lemma AfterTwo(parse: Parser, t: Sources, a: Load, b: Load)
    ensures After(parse, t, [a, b]) == Apply(parse, Apply(parse, t, a), b)
  {
    var u := Apply(parse, t, a);
    assert After(parse, u, [b]) == After(parse, Apply(parse, u, b), [b][1..]);
    assert After(parse, t, [a, b]) == After(parse, u, [a, b][1..]);
    assert [a, b][1..] == [b] && [b][1..] == [];
  }

  /** A failed read leaves no trace in the table. */
  lemma FailedReadIrrelevant(parse: Parser, before: seq<Load>, failed: Load, after: seq<Load>)
    requires !failed.found || !failed.readAll
    ensures After(parse, map[], before + [failed] + after) == After(parse, map[], before + after)
  {
    AfterConcat(parse, map[], before + [failed], after);
    AfterConcat(parse, map[], before, [failed]);
    AfterConcat(parse, map[], before, after);
  }
}
