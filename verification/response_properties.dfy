/**
 * Properties of the response serialiser that relate several calls or
 * several records: which responses it writes, where it panics, and what
 * it leaves out.
 */
module ResponseProperties {
  import opened Bytes
  import opened Outcomes
  import opened Labels
  import RR = ResourceRecords
  import opened Responses

  /** The authority and additional sections never reach the output. */
  lemma ToBytesIgnoresOtherSections(resp: DnsResponse, authority: seq<DnsResourceRecord>,
                                    additional: seq<DnsResourceRecord>, profile: BuildProfile)
    ensures ToBytes(resp.(authority := authority, additional := additional), profile) == ToBytes(resp, profile)
  {
  }

  /**
   * The answer loop stops at the first answer it cannot write, and the
   * panic is that answer's; the answers after it play no part.
   */
  lemma {:induction false} AnswersPanicAtFirst(rrs: seq<DnsResourceRecord>, profile: BuildProfile, i: nat)
    requires i < |rrs| && !Encodable(rrs[i].rdata, profile)
    requires forall j :: 0 <= j < i ==> Encodable(rrs[j].rdata, profile)
    ensures AnswersBytes(rrs, profile) == Panic(PanicSiteOf(rrs[i].rdata))
  {
    if i > 0 {
      forall j | 0 <= j < i - 1 ensures Encodable(rrs[1..][j].rdata, profile) {
        assert rrs[1..][j] == rrs[j + 1];
      }
      AnswersPanicAtFirst(rrs[1..], profile, i - 1);
    }
  }

  /** `to_bytes` panics at the first answer it cannot write. */
  lemma ToBytesPanicsAtFirst(resp: DnsResponse, profile: BuildProfile, i: nat)
    requires i < |resp.answers| && !Encodable(resp.answers[i].rdata, profile)
    requires forall j :: 0 <= j < i ==> Encodable(resp.answers[j].rdata, profile)
    ensures ToBytes(resp, profile) == Panic(PanicSiteOf(resp.answers[i].rdata))
  {
    AnswersPanicAtFirst(resp.answers, profile, i);
  }

  /**
   * Without overflow checks, `to_bytes` succeeds exactly when every answer
   * is an A, AAAA, CNAME or MX record.
   */
  lemma ReleaseWritesExactlyEncodedTypes(resp: DnsResponse)
    ensures ToBytes(resp, Release).Ok? <==>
      forall i :: 0 <= i < |resp.answers| ==> RR.HasEncoding(ToType(resp.answers[i].rdata))
  {
  }

  /** Any answer of the other ten types makes `to_bytes` panic in `todo!()`, or earlier. */
  lemma UnencodedTypePanics(resp: DnsResponse, profile: BuildProfile, i: nat)
    requires i < |resp.answers| && !RR.HasEncoding(ToType(resp.answers[i].rdata))
    ensures ToBytes(resp, profile).Panic?
  {
  }

  /** The MX overflow panic: only in a debug build, only for an exchange of 65534 or 65535 bytes modulo 2^16. */
  lemma MxPanicsOnlyOnOverflow(preference: u16, exchange: Text, profile: BuildProfile)
    ensures RDataBytes(MX(preference, exchange), profile) == Panic(AddOverflow) <==>
      profile == Debug && |exchange| % 0x1_0000 >= 0xFFFE
  {
  }

  /**
   * Within an answer, the type field is the stored `rtype`, whatever the
   * RDATA, followed by the class and the TTL.
   */
  lemma AnswerFields(rr: DnsResourceRecord, profile: BuildProfile)
    requires AnswerBytes(rr, profile).Ok?
    ensures var r := AnswerBytes(rr, profile).value; var n := NameSize(rr.name);
      && r[..n] == NameBytes(rr.name)
      && U16Value(r[n], r[n + 1]) == rr.rtype
      && U16Value(r[n + 2], r[n + 3]) == rr.rclass
      && U32Value(r[n + 4..n + 8]) == rr.ttl
  {
    var r := AnswerBytes(rr, profile).value;
    var n := NameSize(rr.name);
    var t := U16Bytes(rr.rtype);
    var c := U16Bytes(rr.rclass);
    var fields := t + c + U32Bytes(rr.ttl) + RDataBytes(rr.rdata, profile).value;
    assert r == NameBytes(rr.name) + fields;
    assert r[n..] == fields;
    assert fields[..2] == t && fields[2..4] == c && fields[4..8] == U32Bytes(rr.ttl);
    assert r[n..n + 2] == t && r[n + 2..n + 4] == c && r[n + 4..n + 8] == U32Bytes(rr.ttl);
    assert r[n] == t[0] && r[n + 1] == t[1];
    assert r[n + 2] == c[0] && r[n + 3] == c[1];
  }

  /** The output of `to_bytes` ends with the RDATA of its last answer. */
  lemma ResponseEndsWithLastRData(resp: DnsResponse, profile: BuildProfile)
    requires ToBytes(resp, profile).Ok? && |resp.answers| > 0
    ensures var b := ToBytes(resp, profile).value;
      var d := RDataBytes(resp.answers[|resp.answers| - 1].rdata, profile).value;
      |d| <= |b| && b[|b| - |d|..] == d
  {
    var rrs := resp.answers;
    AnswersEndWithLast(rrs, profile);
    var answers := AnswersBytes(rrs, profile).value;
    var d := RDataBytes(rrs[|rrs| - 1].rdata, profile).value;
    var front := HeaderBytes(resp.header) + QuestionsBytes(resp.questions);
    assert ToBytes(resp, profile).value == front + answers;
    SuffixOfConcat(front, answers, d);
  }

  lemma {:induction false} AnswersEndWithLast(rrs: seq<DnsResourceRecord>, profile: BuildProfile)
    requires AnswersBytes(rrs, profile).Ok? && |rrs| > 0
    ensures var a := AnswersBytes(rrs, profile).value;
      var d := RDataBytes(rrs[|rrs| - 1].rdata, profile).value;
      |d| <= |a| && a[|a| - |d|..] == d
  {
    var first := AnswerBytes(rrs[0], profile).value;
    var others := AnswersBytes(rrs[1..], profile).value;
    var d := RDataBytes(rrs[|rrs| - 1].rdata, profile).value;
    AnswersOf(rrs, profile);
    if |rrs| == 1 {
      AnswerEndsWithRData(rrs[0], profile);
      assert others == [];
      assert first + others == first;
    } else {
      AnswersEndWithLast(rrs[1..], profile);
      assert rrs[1..][|rrs[1..]| - 1] == rrs[|rrs| - 1];
      SuffixOfConcat(first, others, d);
    }
  }

  /** The answer loop in closed form: the first answer, then the others. */
  lemma AnswersOf(rrs: seq<DnsResourceRecord>, profile: BuildProfile)
    requires AnswersBytes(rrs, profile).Ok? && |rrs| > 0
    ensures AnswerBytes(rrs[0], profile).Ok? && AnswersBytes(rrs[1..], profile).Ok?
    ensures AnswersBytes(rrs, profile).value == AnswerBytes(rrs[0], profile).value + AnswersBytes(rrs[1..], profile).value
  {
  }

  lemma AnswerEndsWithRData(rr: DnsResourceRecord, profile: BuildProfile)
    requires AnswerBytes(rr, profile).Ok?
    ensures var a := AnswerBytes(rr, profile).value;
      var d := RDataBytes(rr.rdata, profile).value;
      |d| <= |a| && a[|a| - |d|..] == d
  {
  }

  lemma SuffixOfConcat(x: seq<u8>, y: seq<u8>, d: seq<u8>)
    requires |d| <= |y| && y[|y| - |d|..] == d
    ensures |d| <= |x + y| && (x + y)[|x + y| - |d|..] == d
  {
  }

  // ---- to_type ----

  /** Two RDATA values are of the same variant. */
  predicate SameVariant(d: DnsRecordData, e: DnsRecordData)
  {
    || (d.A? && e.A?) || (d.AAAA? && e.AAAA?) || (d.CNAME? && e.CNAME?) || (d.MX? && e.MX?)
    || (d.NS? && e.NS?) || (d.MD? && e.MD?) || (d.MF? && e.MF?) || (d.MB? && e.MB?)
    || (d.MG? && e.MG?) || (d.MR? && e.MR?) || (d.PTR? && e.PTR?) || (d.SOA? && e.SOA?)
    || (d.SRV? && e.SRV?) || (d.TXT? && e.TXT?)
  }

  /** `to_type` depends only on the variant, and distinct variants give distinct types. */
  lemma ToTypeSeparatesVariants(d: DnsRecordData, e: DnsRecordData)
    ensures ToType(d) == ToType(e) <==> SameVariant(d, e)
  {
  }

  /** An RDATA value of each record type: `to_type` reaches every one of the fourteen. */
  function SampleOf(t: RR.ResourceRecordType): (d: DnsRecordData)
    ensures ToType(d) == t
  {
    match t
    case A => DnsRecordData.A(Ipv4Addr(0, 0, 0, 0))
    case AAAA => DnsRecordData.AAAA(Ipv6Octets(seq(16, i => 0)))
    case CNAME => DnsRecordData.CNAME([])
    case MX => DnsRecordData.MX(0, [])
    case NS => NS([])
    case MD => MD([])
    case MF => MF([])
    case MB => MB([])
    case MG => MG([])
    case MR => MR([])
    case PTR => PTR([])
    case SOA => SOA([], [], 0, 0, 0, 0, 0)
    case SRV => SRV(0, 0, 0, [])
    case TXT => TXT([])
  }
}
