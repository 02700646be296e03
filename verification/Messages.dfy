/** DNS messages as far as the cache and the engine look at them. */
module Messages {
  const TYPE_OPT: nat := 41
  const SECOND: int := 1_000_000_000
  const UINT32: nat := 0x1_0000_0000

  /** The Go type behind a record; an address is given by its text form. */
  datatype RData = A(ip: string) | AAAA(ip: string) | SOA(minttl: nat) | Other(text: string)

  datatype RR = RR(name: string, rtype: nat, ttl: nat, data: RData)

  datatype Question = Question(name: string, qtype: nat, qclass: nat)

  datatype Msg = Msg(
    id: nat,
    rcode: nat,
    truncated: bool,
    questions: seq<Question>,
    answer: seq<RR>,
    ns: seq<RR>,
    extra: seq<RR>)

  predicate IsOpt(rr: RR) {
    rr.rtype == TYPE_OPT
  }

  predicate HasOpt(m: Msg) {
    exists i :: 0 <= i < |m.extra| && IsOpt(m.extra[i])
  }

  /** A record with its TTL replaced, unless it is an OPT record. */
  function Aged(rr: RR, ttl: nat): RR {
    if IsOpt(rr) then rr else rr.(ttl := ttl)
  }

  function AgedAll(rrs: seq<RR>, ttl: nat): (r: seq<RR>)
    ensures |r| == |rrs|
  {
    seq(|rrs|, i requires 0 <= i < |rrs| => Aged(rrs[i], ttl))
  }

  /** What rewriting TTLs does, record by record: OPT records stay, the others get the TTL and keep the rest. */
  predicate TtlsSet(stored: seq<RR>, got: seq<RR>, ttl: nat) {
    && |got| == |stored|
    && forall i :: 0 <= i < |stored| ==>
         got[i] == if stored[i].rtype == TYPE_OPT then stored[i]
                   else RR(stored[i].name, stored[i].rtype, ttl, stored[i].data)
  }

  lemma AgedIsSet(stored: seq<RR>, got: seq<RR>, ttl: nat)
    ensures got == AgedAll(stored, ttl) <==> TtlsSet(stored, got, ttl)
  {}

  /** A copy of a message with the TTLs of its answer and authority records set, and nothing else changed. */
  predicate OnlyTtlsSet(stored: Msg, got: Msg, ttl: nat) {
    && got.(answer := stored.answer, ns := stored.ns) == stored
    && TtlsSet(stored.answer, got.answer, ttl) && TtlsSet(stored.ns, got.ns, ttl)
  }

  /** A message as a cache hit hands it out: answer and authority TTLs rewritten. */
  function AgedMsg(m: Msg, ttl: nat): Msg {
    m.(answer := AgedAll(m.answer, ttl), ns := AgedAll(m.ns, ttl))
  }
}
