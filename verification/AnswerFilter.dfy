/** How the engine reshapes the address records of a DoH answer with the prober. */
module AnswerFilter {
  import opened Probing
  import opened Filter
  import opened Messages

  predicate IsAddress(rr: RR) {
    rr.data.A? || rr.data.AAAA?
  }

  /** The address text of a record, empty when it has none. */
  function Text(rr: RR): string {
    match rr.data
    case A(ip) => ip
    case AAAA(ip) => ip
    case _ => ""
  }

  /** The three ways the loop sorts a record by its Go type. */
  datatype Kind = Ipv4 | Ipv6 | Plain

  function KindOf(rr: RR): Kind {
    match rr.data
    case A(_) => Ipv4
    case AAAA(_) => Ipv6
    case _ => Plain
  }

  function Select(answer: seq<RR>, kind: Kind): seq<RR> {
    if answer == [] then []
    else
      var n := |answer| - 1;
      Select(answer[..n], kind) + (if KindOf(answer[n]) == kind then [answer[n]] else [])
  }

  function Records4(answer: seq<RR>): seq<RR> { Select(answer, Ipv4) }

  function Records6(answer: seq<RR>): seq<RR> { Select(answer, Ipv6) }

  function Others(answer: seq<RR>): seq<RR> { Select(answer, Plain) }

  function Texts(rrs: seq<RR>): (ips: seq<string>)
    ensures |ips| == |rrs|
  {
    seq(|rrs|, i requires 0 <= i < |rrs| => Text(rrs[i]))
  }

  /** The `byIP` map: the last record with an address text wins. */
  function ByIp(answer: seq<RR>): map<string, RR> {
    if answer == [] then map[]
    else
      var rest, last := ByIp(answer[..|answer| - 1]), answer[|answer| - 1];
      if IsAddress(last) then rest[Text(last) := last] else rest
  }

  lemma SelectStep(p: seq<RR>, last: RR, kind: Kind)
    ensures multiset(Select(p + [last], kind))
            == multiset(Select(p, kind)) + (if KindOf(last) == kind then multiset{last} else multiset{})
  {}

  lemma {:induction false} RecordsConserved(answer: seq<RR>)
    ensures multiset(answer) == multiset(Others(answer)) + multiset(Records4(answer)) + multiset(Records6(answer))
  {
    if answer != [] {
      var p, last := answer[..|answer| - 1], answer[|answer| - 1];
      RecordsConserved(p);
      assert answer == p + [last];
      SelectStep(p, last, Plain);
      SelectStep(p, last, Ipv4);
      SelectStep(p, last, Ipv6);
    }
  }

  lemma {:induction false} SelectMembers(answer: seq<RR>, kind: Kind)
    ensures forall r :: r in Select(answer, kind) <==> r in answer && KindOf(r) == kind
  {
    if answer != [] {
      SelectMembers(answer[..|answer| - 1], kind);
      assert answer == answer[..|answer| - 1] + [answer[|answer| - 1]];
    }
  }

  lemma RecordsMembers(answer: seq<RR>)
    ensures forall r :: r in Records4(answer) <==> r in answer && r.data.A?
    ensures forall r :: r in Records6(answer) <==> r in answer && r.data.AAAA?
  {
    SelectMembers(answer, Ipv4);
    SelectMembers(answer, Ipv6);
  }

  lemma {:induction false} ByIpMembers(answer: seq<RR>)
    ensures forall r :: r in answer && IsAddress(r) ==> Text(r) in ByIp(answer)
    ensures forall t :: t in ByIp(answer) ==>
              ByIp(answer)[t] in answer && IsAddress(ByIp(answer)[t]) && Text(ByIp(answer)[t]) == t
  {
    if answer != [] {
      ByIpMembers(answer[..|answer| - 1]);
      assert answer == answer[..|answer| - 1] + [answer[|answer| - 1]];
    }
  }

  predicate Known(byIp: map<string, RR>, ips: seq<string>) {
    forall i :: 0 <= i < |ips| ==> ips[i] in byIp
  }

  function Pick(byIp: map<string, RR>, ips: seq<string>): seq<RR>
    requires Known(byIp, ips)
  {
    seq(|ips|, i requires 0 <= i < |ips| => byIp[ips[i]])
  }

  /** Fewer than two addresses in both families: the answer is returned as it is. */
  predicate LeftAlone(answer: seq<RR>) {
    |Records4(answer)| <= 1 && |Records6(answer)| <= 1
  }

  /** results4 and results6 are what the workers of the two Filter calls returned. */
  predicate Probed(answer: seq<RR>, results4: seq<Result>, results6: seq<Result>, maxIps: int) {
    && (|Records4(answer)| > 1 ==> |results4| == Limit(|Records4(answer)|, maxIps))
    && (|Records6(answer)| > 1 ==> |results6| == Limit(|Records6(answer)|, maxIps))
  }

  /** filterAnswerIPs around the two Filter calls. */
  method FilterAnswerIps(answer: seq<RR>, results4: seq<Result>, results6: seq<Result>, mode: Mode, maxIps: int)
    returns (out: seq<RR>)
    requires Probed(answer, results4, results6, maxIps)
    ensures out == FilteredAnswer(answer, results4, results6, mode, maxIps)
  {
    var byIp: map<string, RR> := map[];
    var v4, v6: seq<string> := [], [];
    var others: seq<RR> := [];
    for i := 0 to |answer|
      invariant byIp == ByIp(answer[..i]) && others == Others(answer[..i])
      invariant v4 == Texts(Records4(answer[..i])) && v6 == Texts(Records6(answer[..i]))
    {
      assert answer[..i + 1][..i] == answer[..i];
      match answer[i].data {
        case A(ip) =>
          byIp := byIp[ip := answer[i]];
          v4 := v4 + [ip];
        case AAAA(ip) =>
          byIp := byIp[ip := answer[i]];
          v6 := v6 + [ip];
        case _ =>
          others := others + [answer[i]];
      }
    }
    assert answer[..|answer|] == answer;
    if |v4| <= 1 && |v6| <= 1 {
      return answer;
    }
    FamiliesOf(answer);
    FamilyIsPicked(answer, Records4(answer), results4, mode);
    FamilyIsPicked(answer, Records6(answer), results6, mode);
    v4 := Filter.Filter(v4, results4, mode, maxIps);
    v6 := Filter.Filter(v6, results6, mode, maxIps);
    out := AppendPicked(others, byIp, v4);
    out := AppendPicked(out, byIp, v6);
  }

  /** The append loops at the end of filterAnswerIPs. */
  method AppendPicked(prefix: seq<RR>, byIp: map<string, RR>, ips: seq<string>) returns (out: seq<RR>)
    requires Known(byIp, ips)
    ensures out == prefix + Pick(byIp, ips)
  {
    out := prefix;
    for i := 0 to |ips|
      invariant out == prefix + Pick(byIp, ips)[..i]
    {
      out := out + [byIp[ips[i]]];
    }
  }

  predicate FamilyOf(answer: seq<RR>, rrs: seq<RR>) {
    forall i :: 0 <= i < |rrs| ==> rrs[i] in answer && IsAddress(rrs[i])
  }

  lemma FamiliesOf(answer: seq<RR>)
    ensures FamilyOf(answer, Records4(answer)) && FamilyOf(answer, Records6(answer))
  {
    RecordsMembers(answer);
  }

  /** What one family contributes to the new answer. */
  function Family(answer: seq<RR>, rrs: seq<RR>, results: seq<Result>, mode: Mode): seq<RR>
    requires FamilyOf(answer, rrs) && (|rrs| > 1 ==> |results| <= |rrs|)
  {
    FamilyIsPicked(answer, rrs, results, mode);
    Pick(ByIp(answer), Filtered(Texts(rrs), results, mode))
  }

  function FilteredAnswer(answer: seq<RR>, results4: seq<Result>, results6: seq<Result>, mode: Mode, maxIps: int)
    : seq<RR>
    requires Probed(answer, results4, results6, maxIps)
  {
    if LeftAlone(answer) then answer
    else
      FamiliesOf(answer);
      Others(answer)
      + Family(answer, Records4(answer), results4, mode)
      + Family(answer, Records6(answer), results6, mode)
  }

  /** Filter invents no address, so every text it returns is in the map. */
  lemma FamilyIsPicked(answer: seq<RR>, rrs: seq<RR>, results: seq<Result>, mode: Mode)
    requires FamilyOf(answer, rrs) && (|rrs| > 1 ==> |results| <= |rrs|)
    ensures Known(ByIp(answer), Filtered(Texts(rrs), results, mode))
  {
    ByIpMembers(answer);
    var ips := Texts(rrs);
    var out := Filtered(ips, results, mode);
    FilteredMembers(ips, results, mode);
    forall i | 0 <= i < |out| ensures out[i] in ByIp(answer) {
      assert out[i] in ips;
      var j :| 0 <= j < |ips| && ips[j] == out[i];
      assert rrs[j] in answer;
    }
  }

  lemma FilteredMembers<T(!new)>(ips: seq<T>, results: seq<Result>, mode: Mode)
    requires |ips| > 1 ==> |results| <= |ips|
    ensures forall x :: x in Filtered(ips, results, mode) ==> x in ips
  {
    if |ips| > 1 {
      if mode.Prefer? {
        PreferPermutes(ips, results);
        forall x | x in Filtered(ips, results, mode) ensures x in ips {
          assert x in multiset(Filtered(ips, results, mode));
        }
      } else {
        DropKeeps(ips, results);
      }
    }
  }

  // ---- conservation ----

  predicate Clash(a: RR, b: RR) {
    IsAddress(a) && IsAddress(b) && Text(a) == Text(b) && a != b
  }

  /** Records with one address text are one and the same record. */
  predicate NoConflict(answer: seq<RR>) {
    forall i, j :: 0 <= i < |answer| && 0 <= j < |answer| ==> !Clash(answer[i], answer[j])
  }

  /** Then looking a family's texts up gives its records back. */
  lemma PickIsIdentity(answer: seq<RR>, rrs: seq<RR>)
    requires NoConflict(answer) && FamilyOf(answer, rrs)
    ensures Known(ByIp(answer), Texts(rrs)) && Pick(ByIp(answer), Texts(rrs)) == rrs
  {
    ByIpMembers(answer);
    forall i | 0 <= i < |rrs| ensures Texts(rrs)[i] in ByIp(answer) && ByIp(answer)[Texts(rrs)[i]] == rrs[i] {
      var found := ByIp(answer)[Text(rrs[i])];
      assert found in answer && rrs[i] in answer && !Clash(found, rrs[i]);
    }
  }

  lemma {:induction false} PickMultiset(byIp: map<string, RR>, s: seq<string>, t: seq<string>)
    requires multiset(s) == multiset(t) && Known(byIp, s) && Known(byIp, t)
    ensures multiset(Pick(byIp, s)) == multiset(Pick(byIp, t))
    decreases |s|
  {
    if s == [] {
      assert |t| == |multiset(t)|;
    } else {
      assert s[0] in multiset(t);
      var i :| 0 <= i < |t| && t[i] == s[0];
      PickWithout(byIp, s, 0);
      PickWithout(byIp, t, i);
      var u, v := s[..0] + s[0 + 1..], t[..i] + t[i + 1..];
      assert multiset(u) == multiset(s) - multiset{s[0]} && multiset(v) == multiset(t) - multiset{t[i]};
      PickMultiset(byIp, u, v);
    }
  }

  lemma PickWithout(byIp: map<string, RR>, s: seq<string>, i: nat)
    requires Known(byIp, s) && i < |s|
    ensures var rest := s[..i] + s[i + 1..];
            && Known(byIp, rest)
            && multiset(s) == multiset(rest) + multiset{s[i]}
            && multiset(Pick(byIp, s)) == multiset(Pick(byIp, rest)) + multiset{byIp[s[i]]}
  {
    var rest := s[..i] + s[i + 1..];
    Without(s, i);
    Without(Pick(byIp, s), i);
    assert Pick(byIp, rest) == Pick(byIp, s)[..i] + Pick(byIp, s)[i + 1..];
  }

  lemma Without<T>(s: seq<T>, i: nat)
    requires i < |s|
    ensures multiset(s) == multiset(s[..i] + s[i + 1..]) + multiset{s[i]}
  {
    assert s == s[..i] + [s[i]] + s[i + 1..];
  }

  /** What one family contributes: its records permuted, or some of them and never none. */
  lemma FamilyConserved(answer: seq<RR>, rrs: seq<RR>, results: seq<Result>, mode: Mode)
    requires NoConflict(answer) && FamilyOf(answer, rrs) && (|rrs| > 1 ==> |results| <= |rrs|)
    ensures var out := Family(answer, rrs, results, mode);
            && (mode == Prefer ==> multiset(out) == multiset(rrs))
            && multiset(out) <= multiset(rrs)
            && (rrs != [] ==> out != [])
  {
    var ips, byIp := Texts(rrs), ByIp(answer);
    var out := Filtered(ips, results, mode);
    FamilyIsPicked(answer, rrs, results, mode);
    PickIsIdentity(answer, rrs);
    if |ips| > 1 {
      if mode == Prefer {
        PreferPermutes(ips, results);
        PickMultiset(byIp, out, ips);
      } else {
        DropKeeps(ips, results);
        if out != ips {
          var at: seq<nat> :| SubsequenceAt(out, ips, at);
          SubsequenceMultiset(Pick(byIp, out), rrs, at);
        }
      }
    }
  }

  lemma {:induction false} SubsequenceMultiset<T(!new)>(out: seq<T>, s: seq<T>, at: seq<nat>)
    requires SubsequenceAt(out, s, at)
    ensures multiset(out) <= multiset(s)
  {
    if out != [] {
      var n := |out| - 1;
      var k := at[n];
      SubsequenceMultiset(out[..n], s[..k], at[..n]);
      assert out == out[..n] + [out[n]] && s == s[..k] + [s[k]] + s[k + 1..];
    }
  }

  /** Of two clashing records one is gone whatever the probes say. */
  lemma ConflictLoses(answer: seq<RR>, results4: seq<Result>, results6: seq<Result>, mode: Mode, maxIps: int)
    returns (lost: RR)
    requires Probed(answer, results4, results6, maxIps) && !LeftAlone(answer) && !NoConflict(answer)
    ensures lost in answer && lost !in FilteredAnswer(answer, results4, results6, mode, maxIps)
  {
    var i, j :| 0 <= i < |answer| && 0 <= j < |answer| && Clash(answer[i], answer[j]);
    ByIpMembers(answer);
    FamiliesOf(answer);
    SelectMembers(answer, Plain);
    assert answer[i] in answer && answer[j] in answer;
    lost := if ByIp(answer)[Text(answer[i])] == answer[i] then answer[j] else answer[i];
    NotPicked(answer, Records4(answer), results4, mode, lost);
    NotPicked(answer, Records6(answer), results6, mode, lost);
  }

  lemma NotPicked(answer: seq<RR>, rrs: seq<RR>, results: seq<Result>, mode: Mode, lost: RR)
    requires FamilyOf(answer, rrs) && (|rrs| > 1 ==> |results| <= |rrs|)
    requires Text(lost) in ByIp(answer) && ByIp(answer)[Text(lost)] != lost
    ensures lost !in Family(answer, rrs, results, mode)
  {
    ByIpMembers(answer);
    FamilyIsPicked(answer, rrs, results, mode);
  }

  /** prefer keeps the multiset of records exactly when the answer is left alone or no two
      different records share an address text. */
  lemma PreferConserves(answer: seq<RR>, results4: seq<Result>, results6: seq<Result>, maxIps: int)
    requires Probed(answer, results4, results6, maxIps)
    ensures multiset(FilteredAnswer(answer, results4, results6, Prefer, maxIps)) == multiset(answer)
            <==> LeftAlone(answer) || NoConflict(answer)
  {
    if !LeftAlone(answer) {
      if NoConflict(answer) {
        RecordsConserved(answer);
        FamiliesOf(answer);
        FamilyConserved(answer, Records4(answer), results4, Prefer);
        FamilyConserved(answer, Records6(answer), results6, Prefer);
      } else {
        var lost := ConflictLoses(answer, results4, results6, Prefer, maxIps);
        assert lost in multiset(answer);
      }
    }
  }

  ghost predicate DropConserved(answer: seq<RR>, results4: seq<Result>, results6: seq<Result>, maxIps: int)
    requires Probed(answer, results4, results6, maxIps)
  {
    var out := FilteredAnswer(answer, results4, results6, Drop, maxIps);
    && multiset(out) <= multiset(answer)
    && (Records4(answer) != [] ==> exists r :: r in out && r.data.A?)
    && (Records6(answer) != [] ==> exists r :: r in out && r.data.AAAA?)
  }

  /** drop yields some of the records and empties no family, for every outcome of the probes,
      exactly under the same condition. */
  lemma DropConserves(answer: seq<RR>, maxIps: int)
    ensures (forall r4, r6 :: Probed(answer, r4, r6, maxIps) ==> DropConserved(answer, r4, r6, maxIps))
            <==> LeftAlone(answer) || NoConflict(answer)
  {
    if LeftAlone(answer) {
      RecordsMembers(answer);
      assert Records4(answer) != [] ==> Records4(answer)[0] in Records4(answer);
      assert Records6(answer) != [] ==> Records6(answer)[0] in Records6(answer);
    } else if NoConflict(answer) {
      forall r4, r6 | Probed(answer, r4, r6, maxIps) ensures DropConserved(answer, r4, r6, maxIps) {
        DropKeepsFamilies(answer, r4, r6, maxIps);
      }
    } else {
      ConflictBreaksDrop(answer, maxIps);
    }
  }

  lemma DropKeepsFamilies(answer: seq<RR>, results4: seq<Result>, results6: seq<Result>, maxIps: int)
    requires Probed(answer, results4, results6, maxIps) && !LeftAlone(answer) && NoConflict(answer)
    ensures DropConserved(answer, results4, results6, maxIps)
  {
    RecordsConserved(answer);
    FamiliesOf(answer);
    FamilyConserved(answer, Records4(answer), results4, Drop);
    FamilyConserved(answer, Records6(answer), results6, Drop);
    var out4 := Family(answer, Records4(answer), results4, Drop);
    var out6 := Family(answer, Records6(answer), results6, Drop);
    FamilySurvives(Records4(answer), out4);
    FamilySurvives(Records6(answer), out6);
    RecordsMembers(answer);
  }

  lemma FamilySurvives(rrs: seq<RR>, out: seq<RR>)
    requires multiset(out) <= multiset(rrs) && (rrs != [] ==> out != [])
    ensures rrs != [] ==> exists r :: r in out && r in rrs
  {
    if rrs != [] { assert out[0] in multiset(out) && out[0] in multiset(rrs) && out[0] in rrs; }
  }

  /** When nothing is reachable `drop` keeps all addresses, so a clash shows as a lost record. */
  lemma ConflictBreaksDrop(answer: seq<RR>, maxIps: int)
    requires !LeftAlone(answer) && !NoConflict(answer)
    ensures exists r4, r6 :: Probed(answer, r4, r6, maxIps) && !DropConserved(answer, r4, r6, maxIps)
  {
    var r4 := seq(Limit(|Records4(answer)|, maxIps), _ => Result(false, 0));
    var r6 := seq(Limit(|Records6(answer)|, maxIps), _ => Result(false, 0));
    var out := FilteredAnswer(answer, r4, r6, Drop, maxIps);
    NothingDropped(answer, r4, r6, maxIps);
    var lost := ConflictLoses(answer, r4, r6, Drop, maxIps);
    if multiset(out) <= multiset(answer) {
      LostShrinks(out, answer, lost);
    }
    assert !DropConserved(answer, r4, r6, maxIps);
  }

  lemma NothingDropped(answer: seq<RR>, results4: seq<Result>, results6: seq<Result>, maxIps: int)
    requires Probed(answer, results4, results6, maxIps) && !LeftAlone(answer)
    requires forall i :: 0 <= i < |results4| ==> !results4[i].reachable
    requires forall i :: 0 <= i < |results6| ==> !results6[i].reachable
    ensures |FilteredAnswer(answer, results4, results6, Drop, maxIps)| == |answer|
  {
    FamiliesOf(answer);
    NothingReachable(answer, Records4(answer), results4);
    NothingReachable(answer, Records6(answer), results6);
    RecordsConserved(answer);
    assert |multiset(answer)| == |Others(answer)| + |Records4(answer)| + |Records6(answer)|;
  }

  lemma LostShrinks<T>(out: seq<T>, all: seq<T>, lost: T)
    requires multiset(out) <= multiset(all) && lost in all && lost !in out
    ensures |out| < |all|
  {
    var i :| 0 <= i < |all| && all[i] == lost;
    Without(all, i);
    var rest := all[..i] + all[i + 1..];
    assert multiset(rest) == multiset(out) + (multiset(rest) - multiset(out));
    assert |multiset(out)| == |out| && |multiset(rest)| == |rest|;
  }

  lemma NothingReachable(answer: seq<RR>, rrs: seq<RR>, results: seq<Result>)
    requires FamilyOf(answer, rrs) && (|rrs| > 1 ==> |results| <= |rrs|)
    requires forall i :: 0 <= i < |results| ==> !results[i].reachable
    ensures |Family(answer, rrs, results, Drop)| == |rrs|
  {
    FamilyIsPicked(answer, rrs, results, Drop);
    if |rrs| > 1 { DropKeeps(Texts(rrs), results); }
  }

  /** Non-address records always survive, in order, at the front; only addresses follow. */
  lemma OthersFirst(answer: seq<RR>, results4: seq<Result>, results6: seq<Result>, mode: Mode, maxIps: int)
    requires Probed(answer, results4, results6, maxIps) && !LeftAlone(answer)
    ensures var out := FilteredAnswer(answer, results4, results6, mode, maxIps);
            var n := |Others(answer)|;
            && n <= |out| && out[..n] == Others(answer)
            && (forall i :: n <= i < |out| ==> IsAddress(out[i]))
  {
    FamiliesOf(answer);
    FamilyOfAddresses(answer, Records4(answer), results4, mode);
    FamilyOfAddresses(answer, Records6(answer), results6, mode);
  }

  lemma FamilyOfAddresses(answer: seq<RR>, rrs: seq<RR>, results: seq<Result>, mode: Mode)
    requires FamilyOf(answer, rrs) && (|rrs| > 1 ==> |results| <= |rrs|)
    ensures forall r :: r in Family(answer, rrs, results, mode) ==> IsAddress(r)
  {
    ByIpMembers(answer);
    FamilyIsPicked(answer, rrs, results, mode);
  }

  // ---- what becomes of each family ----

  /** The positions of one kind. */
  function PositionsOf(answer: seq<RR>, kind: Kind): (at: seq<nat>)
    ensures forall i :: 0 <= i < |at| ==> at[i] < |answer|
    ensures forall i, j :: 0 <= i < j < |at| ==> at[i] < at[j]
    ensures forall k :: k in at <==> 0 <= k < |answer| && KindOf(answer[k]) == kind
  {
    if answer == [] then []
    else
      var n := |answer| - 1;
      PositionsOf(answer[..n], kind) + (if KindOf(answer[n]) == kind then [n] else [])
  }

  /** The records of one kind are taken from the answer in order, each once. */
  lemma {:induction false} SelectPositions(answer: seq<RR>, kind: Kind)
    ensures SubsequenceAt(Select(answer, kind), answer, PositionsOf(answer, kind))
  {
    if answer != [] { SelectPositions(answer[..|answer| - 1], kind); }
  }

  /** The records that go out for some records: the last ones of the answer with their address texts. */
  function LastWith(answer: seq<RR>, rrs: seq<RR>): (last: seq<RR>)
    requires FamilyOf(answer, rrs)
    ensures |last| == |rrs|
  {
    ByIpMembers(answer);
    Pick(ByIp(answer), Texts(rrs))
  }

  /** r is the last record with its address text. */
  predicate IsLastWith(answer: seq<RR>, text: string, r: RR) {
    exists i :: 0 <= i < |answer| && answer[i] == r && IsAddress(r) && Text(r) == text
      && forall j :: i < j < |answer| && IsAddress(answer[j]) ==> Text(answer[j]) != text
  }

  lemma {:induction false} ByIpIsLast(answer: seq<RR>, text: string)
    requires text in ByIp(answer)
    ensures IsLastWith(answer, text, ByIp(answer)[text])
  {
    var n := |answer| - 1;
    if IsAddress(answer[n]) && Text(answer[n]) == text {
      assert ByIp(answer)[text] == answer[n];
    } else {
      ByIpIsLast(answer[..n], text);
      var r := ByIp(answer[..n])[text];
      var i :| 0 <= i < n && answer[..n][i] == r && IsAddress(r) && Text(r) == text
        && forall j :: i < j < n && IsAddress(answer[..n][j]) ==> Text(answer[..n][j]) != text;
      assert answer[i] == r;
      assert forall j :: i < j < n ==> answer[..n][j] == answer[j];
    }
  }

  /** Which records these are, and when they are the family itself. */
  lemma LastWins(answer: seq<RR>, rrs: seq<RR>)
    requires FamilyOf(answer, rrs)
    ensures forall k :: 0 <= k < |rrs| ==> IsLastWith(answer, Text(rrs[k]), LastWith(answer, rrs)[k])
    ensures NoConflict(answer) ==> LastWith(answer, rrs) == rrs
  {
    ByIpMembers(answer);
    forall k | 0 <= k < |rrs|
      ensures IsLastWith(answer, Text(rrs[k]), LastWith(answer, rrs)[k])
    {
      ByIpIsLast(answer, Text(rrs[k]));
    }
    if NoConflict(answer) { PickIsIdentity(answer, rrs); }
  }

  /** What drop leaves of a family: all of it when no probed address was reached, and otherwise, in order,
      exactly the positions that were reached or not probed. */
  ghost predicate DropFits(out: seq<RR>, rrs: seq<RR>, results: seq<Result>) {
    if |rrs| <= 1 || (forall k :: 0 <= k < |results| ==> !results[k].reachable) then out == rrs
    else
      exists at: seq<nat> ::
        && SubsequenceAt(out, rrs, at)
        && forall k :: 0 <= k < |rrs| ==> (k in at <==> k >= |results| || results[k].reachable)
  }

  /** What prefer makes of a family: the reached positions by ascending latency, then those not reached,
      then those not probed in place. */
  ghost predicate PreferFits(out: seq<RR>, rrs: seq<RR>, results: seq<Result>) {
    if |rrs| <= 1 then out == rrs
    else |results| <= |rrs| && exists at: seq<nat> :: PreferredAt(out, rrs, results, at)
  }

  lemma PickSubsequence(byIp: map<string, RR>, out: seq<string>, ips: seq<string>, at: seq<nat>)
    requires Known(byIp, out) && Known(byIp, ips) && SubsequenceAt(out, ips, at)
    ensures SubsequenceAt(Pick(byIp, out), Pick(byIp, ips), at)
  {}

  lemma FamilyDropped(answer: seq<RR>, rrs: seq<RR>, results: seq<Result>)
    requires FamilyOf(answer, rrs) && (|rrs| > 1 ==> |results| <= |rrs|)
    ensures DropFits(Family(answer, rrs, results, Drop), LastWith(answer, rrs), results)
  {
    var ips := Texts(rrs);
    FamilyIsPicked(answer, rrs, results, Drop);
    ByIpMembers(answer);
    if |rrs| > 1 {
      DropKeeps(ips, results);
      if k :| 0 <= k < |results| && results[k].reachable {
        var out := Filtered(ips, results, Drop);
        var at: seq<nat> :| SubsequenceAt(out, ips, at)
          && forall k :: 0 <= k < |ips| ==> (k in at <==> k >= |results| || results[k].reachable);
        PickSubsequence(ByIp(answer), out, ips, at);
      }
    }
  }

  lemma FamilyPreferred(answer: seq<RR>, rrs: seq<RR>, results: seq<Result>)
    requires FamilyOf(answer, rrs) && (|rrs| > 1 ==> |results| <= |rrs|)
    ensures PreferFits(Family(answer, rrs, results, Prefer), LastWith(answer, rrs), results)
  {
    var ips, last := Texts(rrs), LastWith(answer, rrs);
    FamilyIsPicked(answer, rrs, results, Prefer);
    if |rrs| > 1 {
      PreferOrder(ips, results);
      var at: seq<nat> :| PreferredAt(Filtered(ips, results, Prefer), ips, results, at);
      assert PreferredAt(Family(answer, rrs, results, Prefer), last, results, at);
    }
  }

  ghost predicate FamilyFits(out: seq<RR>, rrs: seq<RR>, results: seq<Result>, mode: Mode) {
    match mode
    case Drop => DropFits(out, rrs, results)
    case Prefer => PreferFits(out, rrs, results)
  }

  /** The three parts of a reshaped answer. */
  ghost predicate ThreeParts(out: seq<RR>, others: seq<RR>, v4: seq<RR>, v6: seq<RR>) {
    out == others + v4 + v6
  }

  /** What becomes of an answer. With at most one address in both families it is left as it is. Otherwise it
      consists of the records that are no addresses, then what the mode makes of the IPv4
      records, then what it makes of the IPv6 records. Where two records share an address text the last one
      stands for both; without such a clash the records of the families are those of the answer. */
  lemma AnswerShape(answer: seq<RR>, results4: seq<Result>, results6: seq<Result>, mode: Mode, maxIps: int)
    requires Probed(answer, results4, results6, maxIps)
    ensures FamilyOf(answer, Records4(answer)) && FamilyOf(answer, Records6(answer))
    ensures |Records4(answer)| <= 1 && |Records6(answer)| <= 1 ==>
              FilteredAnswer(answer, results4, results6, mode, maxIps) == answer
    ensures |Records4(answer)| > 1 || |Records6(answer)| > 1 ==>
              exists v4, v6 ::
                && ThreeParts(FilteredAnswer(answer, results4, results6, mode, maxIps), Others(answer), v4, v6)
                && FamilyFits(v4, LastWith(answer, Records4(answer)), results4, mode)
                && FamilyFits(v6, LastWith(answer, Records6(answer)), results6, mode)
    ensures NoConflict(answer) ==>
              && LastWith(answer, Records4(answer)) == Records4(answer)
              && LastWith(answer, Records6(answer)) == Records6(answer)
  {
    FamiliesOf(answer);
    var v4 := Family(answer, Records4(answer), results4, mode);
    var v6 := Family(answer, Records6(answer), results6, mode);
    assert |Records4(answer)| > 1 || |Records6(answer)| > 1 ==>
        ThreeParts(FilteredAnswer(answer, results4, results6, mode, maxIps), Others(answer), v4, v6);
    match mode {
      case Drop =>
        FamilyDropped(answer, Records4(answer), results4);
        FamilyDropped(answer, Records6(answer), results6);
      case Prefer =>
        FamilyPreferred(answer, Records4(answer), results4);
        FamilyPreferred(answer, Records6(answer), results6);
    }
    LastWins(answer, Records4(answer));
    LastWins(answer, Records6(answer));
  }
}
