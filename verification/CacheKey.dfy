/** Which questions share a cache key. */
module CacheKey {
  import opened Text
  import opened Messages

  /** The library's name tables for types and classes. A missing number reads as "". */
  datatype Names = Names(types: map<nat, string>, classes: map<nat, string>)

  function NameOf(table: map<nat, string>, n: nat): string {
    if n in table then table[n] else ""
  }

  /** What the tables look like: distinct non-empty names without the separator. */
  ghost predicate WellFormed(table: map<nat, string>) {
    && (forall n :: n in table ==> table[n] != "" && '|' !in table[n])
    && (forall m, n :: m in table && n in table && table[m] == table[n] ==> m == n)
  }

  /** Key: lower-cased name, type name and class name. */
  function Key(names: Names, q: Question): string {
    Lower(q.name) + ['|'] + NameOf(names.types, q.qtype) + ['|'] + NameOf(names.classes, q.qclass)
  }

  /** Reading from the right: the part after the last separator is determined. */
  lemma LastPart(a: string, b: string, c: string, d: string)
    requires a + ['|'] + b == c + ['|'] + d && '|' !in b && '|' !in d
    ensures a == c && b == d
  {
    var s := a + ['|'] + b;
    assert s[|a|] == '|' && s[|c|] == '|';
    assert forall i :: |a| < i < |s| ==> s[i] == b[i - |a| - 1];
    assert forall i :: |c| < i < |s| ==> s[i] == d[i - |c| - 1];
    assert |a| == |c|;
    assert s[..|a|] == a && s[|a| + 1..] == b;
    assert (c + ['|'] + d)[..|c|] == c && (c + ['|'] + d)[|c| + 1..] == d;
  }

  /** The two numbers read the same in the table: equal, or both unknown to it. */
  predicate SameName(table: map<nat, string>, m: nat, n: nat) {
    m == n || (m !in table && n !in table)
  }

  /** Exactly which questions share a key. Unregistered types fall together, and so do
      unregistered classes, because the tables read "" for them. */
  lemma KeysShared(names: Names, p: Question, q: Question)
    requires WellFormed(names.types) && WellFormed(names.classes)
    ensures Key(names, p) == Key(names, q) <==>
              && SameLetters(p.name, q.name)
              && SameName(names.types, p.qtype, q.qtype)
              && SameName(names.classes, p.qclass, q.qclass)
  {
    var tp, tq := NameOf(names.types, p.qtype), NameOf(names.types, q.qtype);
    var cp, cq := NameOf(names.classes, p.qclass), NameOf(names.classes, q.qclass);
    LowerIs(p.name, q.name);
    if Key(names, p) == Key(names, q) {
      LastPart(Lower(p.name) + ['|'] + tp, cp, Lower(q.name) + ['|'] + tq, cq);
      LastPart(Lower(p.name), tp, Lower(q.name), tq);
    }
  }

  predicate Registered(names: Names, q: Question) {
    q.qtype in names.types && q.qclass in names.classes
  }

  /** Over registered types and classes the key identifies the question up to the case of its name. */
  lemma RegisteredKeysInjective(names: Names, p: Question, q: Question)
    requires WellFormed(names.types) && WellFormed(names.classes)
    requires Registered(names, p) && Registered(names, q)
    ensures Key(names, p) == Key(names, q) <==>
              SameLetters(p.name, q.name) && p.qtype == q.qtype && p.qclass == q.qclass
  {
    KeysShared(names, p, q);
  }

  /** The questions that break it: one name, one class, two different unregistered types. */
  lemma UnregisteredTypesCollide(names: Names, name: string, t: nat, u: nat, c: nat)
    requires t !in names.types && u !in names.types && t != u
    ensures Question(name, t, c) != Question(name, u, c)
    ensures Key(names, Question(name, t, c)) == Key(names, Question(name, u, c))
  {}
}
