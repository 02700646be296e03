/** Answering an address query from the override table. */
module OverrideAnswer {
  import opened Prelude
  import opened Messages
  import opened Override

  const TYPE_A: nat := 1
  const TYPE_AAAA: nat := 28

  /** The address is of the family the query asks for. */
  predicate InFamily(ip: Ip, qtype: nat) {
    (qtype == TYPE_A && ip.V4?) || (qtype == TYPE_AAAA && ip.V6?)
  }

  /** uint32(ttl / time.Second), at least 1: the conversion drops the upper bits. */
  function RecordTtl(ttl: int): (r: nat)
    ensures 1 <= r < UINT32
    ensures SECOND <= ttl < UINT32 * SECOND ==> r * SECOND <= ttl < (r + 1) * SECOND
    ensures 0 <= ttl < SECOND ==> r == 1
  {
    var seconds := if ttl >= 0 then ttl / SECOND else -((-ttl) / SECOND);
    var low := seconds % UINT32;
    if low < 1 then 1 else low
  }

  function RecordOf(q: Question, ip: Ip, text: Ip -> string, ttl: int): RR {
    RR(q.name, q.qtype, RecordTtl(ttl), if ip.V4? then A(text(ip)) else AAAA(text(ip)))
  }

  function Records(q: Question, ips: seq<Ip>, text: Ip -> string, ttl: int): seq<RR> {
    if ips == [] then []
    else
      var n := |ips| - 1;
      Records(q, ips[..n], text, ttl) + (if InFamily(ips[n], q.qtype) then [RecordOf(q, ips[n], text, ttl)] else [])
  }

  method HasFamily(ips: seq<Ip>, qtype: nat) returns (found: bool)
    ensures found <==> exists ip :: ip in ips && InFamily(ip, qtype)
  {
    for i := 0 to |ips|
      invariant forall k :: 0 <= k < i ==> !InFamily(ips[k], qtype)
    {
      if qtype == TYPE_A {
        if ips[i].V4? {
          assert InFamily(ips[i], qtype);
          return true;
        }
      } else if qtype == TYPE_AAAA {
        if !ips[i].V4? {
          assert InFamily(ips[i], qtype);
          return true;
        }
      }
    }
    return false;
  }

  method Synthesize(id: nat, q: Question, ips: seq<Ip>, text: Ip -> string, ttl: int) returns (m: Msg)
    ensures m == Msg(id, 0, false, [q], Records(q, ips, text, ttl), [], [])
  {
    var answer: seq<RR> := [];
    for i := 0 to |ips|
      invariant answer == Records(q, ips[..i], text, ttl)
    {
      assert ips[..i + 1][..i] == ips[..i];
      if q.qtype == TYPE_A {
        if ips[i].V4? { answer := answer + [RR(q.name, TYPE_A, RecordTtl(ttl), A(text(ips[i])))]; }
      } else if q.qtype == TYPE_AAAA {
        if !ips[i].V4? { answer := answer + [RR(q.name, TYPE_AAAA, RecordTtl(ttl), AAAA(text(ips[i])))]; }
      }
    }
    assert ips[..|ips|] == ips;
    m := Msg(id, 0, false, [q], answer, [], []);
  }

  /** The addresses of the asked family. */
  function OfFamily(ips: seq<Ip>, qtype: nat): seq<Ip> {
    if ips == [] then []
    else
      var n := |ips| - 1;
      OfFamily(ips[..n], qtype) + (if InFamily(ips[n], qtype) then [ips[n]] else [])
  }

  lemma {:induction false} RecordsOfFamily(q: Question, ips: seq<Ip>, text: Ip -> string, ttl: int)
    ensures var mine := OfFamily(ips, q.qtype);
            && |Records(q, ips, text, ttl)| == |mine|
            && forall i :: 0 <= i < |mine| ==> Records(q, ips, text, ttl)[i] == RecordOf(q, mine[i], text, ttl)
  {
    if ips != [] { RecordsOfFamily(q, ips[..|ips| - 1], text, ttl); }
  }

  lemma {:induction false} FamilyTaken(ips: seq<Ip>, qtype: nat, flags: seq<bool>)
    requires |flags| == |ips| && forall k :: 0 <= k < |ips| ==> flags[k] == InFamily(ips[k], qtype)
    ensures TakenAt(OfFamily(ips, qtype), ips, Trues(flags))
  {
    if ips != [] {
      var n := |ips| - 1;
      FamilyTaken(ips[..n], qtype, flags[..n]);
      TakenNext(OfFamily(ips[..n], qtype), ips, flags);
    }
  }

  /** The record that an address of the asked family becomes. */
  predicate RecordFits(rr: RR, q: Question, ip: Ip, text: Ip -> string, ttl: int) {
    && rr.name == q.name && rr.ttl == RecordTtl(ttl)
    && if ip.V4? then rr.rtype == 1 && rr.data == A(text(ip)) else rr.rtype == 28 && rr.data == AAAA(text(ip))
  }

  /** An address of the asked family, spelled out. */
  predicate Asked(ip: Ip, qtype: nat) {
    (qtype == 1 && ip.V4?) || (qtype == 28 && ip.V6?)
  }

  lemma RecordIs(q: Question, ip: Ip, text: Ip -> string, ttl: int)
    ensures InFamily(ip, q.qtype) <==> Asked(ip, q.qtype)
    ensures InFamily(ip, q.qtype) ==> RecordFits(RecordOf(q, ip, text, ttl), q, ip, text, ttl)
  {}

  /** The answer lists exactly the addresses of the asked family, each as often as it is listed and in the
      same order. */
  lemma AnswerIsFamily(q: Question, ips: seq<Ip>, text: Ip -> string, ttl: int) returns (at: seq<nat>)
    ensures Ascends(at, |ips|) && |Records(q, ips, text, ttl)| == |at|
    ensures forall i :: 0 <= i < |at| ==> RecordFits(Records(q, ips, text, ttl)[i], q, ips[at[i]], text, ttl)
    ensures forall k :: 0 <= k < |ips| ==> (k in at <==> Asked(ips[k], q.qtype))
  {
    var flags := seq(|ips|, i requires 0 <= i < |ips| => InFamily(ips[i], q.qtype));
    at := Trues(flags);
    FamilyTaken(ips, q.qtype, flags);
    RecordsOfFamily(q, ips, text, ttl);
    forall i | 0 <= i < |at|
      ensures RecordFits(Records(q, ips, text, ttl)[i], q, ips[at[i]], text, ttl)
    {
      assert at[i] in at;
      RecordIs(q, ips[at[i]], text, ttl);
    }
    forall k | 0 <= k < |ips|
      ensures k in at <==> Asked(ips[k], q.qtype)
    {
      RecordIs(q, ips[k], text, ttl);
    }
  }

  /** It is empty exactly when the table has no address of the family, and then the query goes upstream. */
  lemma EmptyIff(q: Question, ips: seq<Ip>, text: Ip -> string, ttl: int)
    ensures Records(q, ips, text, ttl) == [] <==> !exists ip :: ip in ips && InFamily(ip, q.qtype)
  {
    var at := AnswerIsFamily(q, ips, text, ttl);
    forall k | 0 <= k < |ips|
      ensures InFamily(ips[k], q.qtype) <==> k in at
    {
      RecordIs(q, ips[k], text, ttl);
    }
    if at != [] { assert at[0] in at && ips[at[0]] in ips; }
  }
}
