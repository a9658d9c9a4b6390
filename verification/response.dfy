/**
 * `DnsResponse::to_bytes`: the response serialiser. It writes the header,
 * then every question, then every answer record (section 4.1.3 of RFC
 * 1035); the authority and additional sections are never written.
 * Writing into a `Vec<u8>` cannot fail, so the only ways out other than
 * `Ok` are panics: `todo!()` for the ten record types without an encoding,
 * and, in a build with overflow checks, the MX RDATA length `2 + len`.
 */
module Responses {
  import opened Bytes
  import opened Outcomes
  import opened Labels
  import opened Requests
  import RR = ResourceRecords

  /** `std::net::Ipv4Addr`: four octets, most significant first. */
  datatype Ipv4Addr = Ipv4Addr(a: u8, b: u8, c: u8, d: u8)

  /** `u32::from(Ipv4Addr)`: the address as a big-endian u32, whose image is the four octets in order. */
  function Ipv4Bits(addr: Ipv4Addr): (r: u32)
    ensures U32Bytes(r) == [addr.a, addr.b, addr.c, addr.d]
  {
    var octets := [addr.a, addr.b, addr.c, addr.d];
    U32BytesOfValue(octets);
    U32Value(octets)
  }

  datatype Ipv6Octets = Ipv6Octets(octets: seq<u8>)

  /** `std::net::Ipv6Addr`: sixteen octets, most significant first. */
  type Ipv6Addr = a: Ipv6Octets | |a.octets| == 16 witness Ipv6Octets(seq(16, i => 0))

  /** `Ipv6Addr::segments`: eight u16s whose big-endian images, in order, are the sixteen octets. */
  function Segments(addr: Ipv6Addr): (r: seq<u16>)
    ensures |r| == 8
    ensures U16sBytes(r) == addr.octets
  {
    var o := addr.octets;
    var r := seq(8, i requires 0 <= i < 8 => U16Value(o[2 * i], o[2 * i + 1]));
    U16sBytesOfPairs(o, r);
    r
  }

  /** `DnsRecordData`: the RDATA of one resource record. */
  datatype DnsRecordData =
    | A(v4: Ipv4Addr)
    | AAAA(v6: Ipv6Addr)
    | CNAME(cname: Text)
    | MX(preference: u16, exchange: Text)
    | NS(ns: Text)
    | MD(md: Text)
    | MF(mf: Text)
    | MB(mb: Text)
    | MG(mg: Text)
    | MR(mr: Text)
    | PTR(ptr: Text)
    | SOA(mname: Text, rname: Text, serial: u32, refresh: u32, retry: u32, expire: u32, minimum: u32)
    | SRV(priority: u16, weight: u16, port: u16, target: Text)
    | TXT(strings: seq<Text>)

  /** `DnsRecordData::to_type`: the record type of the same name as the variant. */
  function ToType(d: DnsRecordData): (t: RR.ResourceRecordType)
    ensures RR.HasEncoding(t) <==> d.A? || d.AAAA? || d.CNAME? || d.MX?
  {
    match d
    case A(_) => RR.A
    case AAAA(_) => RR.AAAA
    case CNAME(_) => RR.CNAME
    case MX(_, _) => RR.MX
    case NS(_) => RR.NS
    case MD(_) => RR.MD
    case MF(_) => RR.MF
    case MB(_) => RR.MB
    case MG(_) => RR.MG
    case MR(_) => RR.MR
    case PTR(_) => RR.PTR
    case SOA(_, _, _, _, _, _, _) => RR.SOA
    case SRV(_, _, _, _) => RR.SRV
    case TXT(_) => RR.TXT
  }

  /**
   * `DnsResourceRecord` (its `class` field is `rclass` here). `rtype` is
   * stored apart from the RDATA and need not agree with it.
   */
  datatype DnsResourceRecord = DnsResourceRecord(name: seq<DnsLabel>, rtype: u16, rclass: u16, ttl: u32, rdata: DnsRecordData)

  /** `DnsResponseHeader` has exactly the fields of the request header. */
  type DnsResponseHeader = DnsHeader

  datatype DnsResponse = DnsResponse(
    header: DnsResponseHeader,
    questions: seq<DnsQuestion>,
    answers: seq<DnsResourceRecord>,
    authority: seq<DnsResourceRecord>,
    additional: seq<DnsResourceRecord>)

  /**
   * Whether integer overflow is checked: in a debug build `2 + len` panics
   * on overflow, in a release build it wraps around.
   */
  datatype BuildProfile = Debug | Release

  // ---- sizes, defined independently of the encoders ----

  /** Octets of an encoded name: a length octet and the bytes per label, then the zero octet. */
  function NameSize(name: seq<DnsLabel>): nat
  {
    if |name| == 0 then 1 else 1 + |name[0].text| + NameSize(name[1..])
  }

  function QuestionSize(q: DnsQuestion): nat
  {
    NameSize(q.qname) + 4
  }

  function QuestionsSize(qs: seq<DnsQuestion>): nat
  {
    if |qs| == 0 then 0 else QuestionSize(qs[0]) + QuestionsSize(qs[1..])
  }

  /** Octets of the RDLENGTH field and the RDATA of the four variants with an encoding. */
  function RDataSize(d: DnsRecordData): nat
  {
    match d
    case A(_) => 2 + 4
    case AAAA(_) => 2 + 16
    case CNAME(cname) => 2 + |cname|
    case MX(_, exchange) => 2 + 2 + |exchange|
    case _ => 0
  }

  /** Name, then type, class and TTL (2 + 2 + 4 octets), then RDLENGTH and RDATA. */
  function AnswerSize(rr: DnsResourceRecord): nat
  {
    NameSize(rr.name) + 8 + RDataSize(rr.rdata)
  }

  function AnswersSize(rrs: seq<DnsResourceRecord>): nat
  {
    if |rrs| == 0 then 0 else AnswerSize(rrs[0]) + AnswersSize(rrs[1..])
  }

  // ---- encoders ----

  /** The header: the six fields as big-endian u16s, copied verbatim, counts included. */
  function HeaderBytes(h: DnsResponseHeader): (r: seq<u8>)
    ensures |r| == HEADER_LENGTH
    ensures U16Value(r[0], r[1]) == h.id && U16Value(r[2], r[3]) == h.flags
    ensures U16Value(r[4], r[5]) == h.qdcount && U16Value(r[6], r[7]) == h.ancount
    ensures U16Value(r[8], r[9]) == h.nscount && U16Value(r[10], r[11]) == h.arcount
  {
    U16Bytes(h.id) + U16Bytes(h.flags) + U16Bytes(h.qdcount)
    + U16Bytes(h.ancount) + U16Bytes(h.nscount) + U16Bytes(h.arcount)
  }

  /**
   * One label: its length as one octet, then its bytes. The `as u8`
   * cast never truncates, since a label holds at most 63 bytes.
   */
  function LabelBytes(l: DnsLabel): (r: seq<u8>)
    ensures |r| == 1 + |l.text|
    ensures r[0] == |l.text| && r[1..] == l.text
  {
    [|l.text|] + l.text
  }

  /** A name: its labels in order, then the zero octet. */
  function NameBytes(name: seq<DnsLabel>): (r: seq<u8>)
    ensures |r| == NameSize(name)
    ensures r[|r| - 1] == 0
  {
    if |name| == 0 then [0] else LabelBytes(name[0]) + NameBytes(name[1..])
  }

  /** A question: its name, then `qtype` and `qclass` as big-endian u16s. */
  function QuestionBytes(q: DnsQuestion): (r: seq<u8>)
    ensures |r| == QuestionSize(q)
    ensures r[..NameSize(q.qname)] == NameBytes(q.qname)
    ensures var n := NameSize(q.qname); U16Value(r[n], r[n + 1]) == q.qtype && U16Value(r[n + 2], r[n + 3]) == q.qclass
  {
    NameBytes(q.qname) + U16Bytes(q.qtype) + U16Bytes(q.qclass)
  }

  /** The question section: every question, in order. */
  function QuestionsBytes(qs: seq<DnsQuestion>): (r: seq<u8>)
    ensures |r| == QuestionsSize(qs)
  {
    if |qs| == 0 then [] else QuestionBytes(qs[0]) + QuestionsBytes(qs[1..])
  }

  /**
   * `2 + x` on u16s: exact when it fits; otherwise a panic in a debug
   * build and the sum modulo 2^16 in a release build.
   */
  function AddU16(x: u16, y: u16, profile: BuildProfile): (r: Outcome<u16>)
    ensures !r.Err?
    ensures r.Panic? <==> profile == Debug && x + y >= 0x1_0000
    ensures r.Panic? ==> r.site == AddOverflow
    ensures r.Ok? ==> r.value == (x + y) % 0x1_0000
  {
    if x + y < 0x1_0000 then Ok(x + y)
    else if profile == Debug then Panic(AddOverflow)
    else Ok(x + y - 0x1_0000)
  }

  /** An RDATA the serialiser writes without panicking under `profile`. */
  predicate Encodable(d: DnsRecordData, profile: BuildProfile)
  {
    && RR.HasEncoding(ToType(d))
    && !(d.MX? && profile == Debug && 2 + |d.exchange| % 0x1_0000 >= 0x1_0000)
  }

  /** Where writing an RDATA that is not `Encodable` panics. */
  function PanicSiteOf(d: DnsRecordData): PanicSite
  {
    if RR.HasEncoding(ToType(d)) then AddOverflow else NotImplemented
  }

  /**
   * The RDLENGTH field and the RDATA. A: the four octets; AAAA: the eight
   * segments; CNAME: `len as u16`, then the raw text; MX: `2 + len as u16`,
   * the preference, then the raw text. CNAME and MX targets are written as
   * text, not as encoded names. The other ten variants reach `todo!()`.
   */
  function RDataBytes(d: DnsRecordData, profile: BuildProfile): (r: Outcome<seq<u8>>)
    ensures !r.Err?
    ensures r.Ok? <==> Encodable(d, profile)
    ensures r.Panic? ==> r.site == PanicSiteOf(d)
    ensures r.Ok? ==> |r.value| == RDataSize(d)
  {
    match d
    case A(addr) => Ok(U16Bytes(4) + U32Bytes(Ipv4Bits(addr)))
    case AAAA(addr) => Ok(U16Bytes(16) + U16sBytes(Segments(addr)))
    case CNAME(cname) => Ok(U16Bytes(|cname| % 0x1_0000) + cname)
    case MX(preference, exchange) =>
      var rdlength :- AddU16(2, |exchange| % 0x1_0000, profile);
      Ok(U16Bytes(rdlength) + U16Bytes(preference) + exchange)
    case _ => Panic(NotImplemented)
  }

  /**
   * The RDLENGTH field holds the number of RDATA octets after it, modulo
   * 2^16: exactly that number whenever it fits in a u16.
   */
  lemma RDataLengthField(d: DnsRecordData, profile: BuildProfile)
    requires RDataBytes(d, profile).Ok?
    ensures var r := RDataBytes(d, profile).value;
      U16Value(r[0], r[1]) == (|r| - 2) % 0x1_0000
  {
    var r := RDataBytes(d, profile).value;
    var field := U16Value(r[0], r[1]);
    match d
    case A(_) =>
      LengthFieldOf(r, 4);
    case AAAA(_) =>
      LengthFieldOf(r, 16);
    case CNAME(cname) =>
      LengthFieldOf(r, |cname| % 0x1_0000);
    case MX(_, exchange) =>
      var rdlength := AddU16(2, |exchange| % 0x1_0000, profile).value;
      LengthFieldOf(r, rdlength);
      ModOfSum(2, |exchange|);
  }

  /** The u16 read from the front of `U16Bytes(k) + rest` is `k`. */
  lemma LengthFieldOf(r: seq<u8>, k: u16)
    requires |r| >= 2 && r[..2] == U16Bytes(k)
    ensures U16Value(r[0], r[1]) == k
  {
    assert r[0] == r[..2][0] && r[1] == r[..2][1];
  }

  lemma ModOfSum(x: nat, y: nat)
    ensures (x + y % 0x1_0000) % 0x1_0000 == (x + y) % 0x1_0000
  {
    var q := y / 0x1_0000;
    assert y == q * 0x1_0000 + y % 0x1_0000;
    assert x + y == (x + y % 0x1_0000) + q * 0x1_0000;
  }

  /** An A record's RDATA is the length 4, then the address octets in order. */
  lemma RDataOfA(addr: Ipv4Addr, profile: BuildProfile)
    ensures RDataBytes(A(addr), profile) == Ok([0, 4, addr.a, addr.b, addr.c, addr.d])
  {
    assert U16Bytes(4) == [0, 4];
    assert U32Bytes(Ipv4Bits(addr)) == [addr.a, addr.b, addr.c, addr.d];
    assert [0, 4] + [addr.a, addr.b, addr.c, addr.d] == [0, 4, addr.a, addr.b, addr.c, addr.d];
  }

  /** An AAAA record's RDATA is the length 16, then the sixteen address octets in order. */
  lemma RDataOfAaaa(addr: Ipv6Addr, profile: BuildProfile)
    ensures RDataBytes(AAAA(addr), profile) == Ok([0, 16] + addr.octets)
  {
    assert U16Bytes(16) == [0, 16];
  }

  /** A CNAME record's RDATA ends with the raw bytes of the target text. */
  lemma RDataOfCname(cname: Text, profile: BuildProfile)
    ensures RDataBytes(CNAME(cname), profile).Ok?
    ensures RDataBytes(CNAME(cname), profile).value[2..] == cname
  {
  }

  /** An MX record's RDATA is the preference, then the raw bytes of the exchange text. */
  lemma RDataOfMx(preference: u16, exchange: Text, profile: BuildProfile)
    requires Encodable(MX(preference, exchange), profile)
    ensures RDataBytes(MX(preference, exchange), profile).value[2..] == U16Bytes(preference) + exchange
  {
  }

  /**
   * One answer: its name, then the stored `rtype` (not the type of the
   * RDATA), `class` and `ttl`, then the RDATA.
   */
  function AnswerBytes(rr: DnsResourceRecord, profile: BuildProfile): (r: Outcome<seq<u8>>)
    ensures !r.Err?
    ensures r.Ok? <==> Encodable(rr.rdata, profile)
    ensures r.Panic? ==> r.site == PanicSiteOf(rr.rdata)
    ensures r.Ok? ==> |r.value| == AnswerSize(rr)
  {
    var rdata :- RDataBytes(rr.rdata, profile);
    Ok(NameBytes(rr.name) + U16Bytes(rr.rtype) + U16Bytes(rr.rclass) + U32Bytes(rr.ttl) + rdata)
  }

  /** Every answer is encodable under `profile`. */
  predicate AllEncodable(rrs: seq<DnsResourceRecord>, profile: BuildProfile)
  {
    forall i :: 0 <= i < |rrs| ==> Encodable(rrs[i].rdata, profile)
  }

  /** The answer loop: every answer in order; the first one that panics ends it. */
  function AnswersBytes(rrs: seq<DnsResourceRecord>, profile: BuildProfile): (r: Outcome<seq<u8>>)
    ensures !r.Err?
    ensures r.Ok? <==> AllEncodable(rrs, profile)
    ensures r.Ok? ==> |r.value| == AnswersSize(rrs)
  {
    if |rrs| == 0 then Ok([])
    else
      var first :- AnswerBytes(rrs[0], profile);
      var others :- AnswersBytes(rrs[1..], profile);
      assert AllEncodable(rrs, profile) by {
        forall i | 0 <= i < |rrs| ensures Encodable(rrs[i].rdata, profile) {
          if i > 0 { assert rrs[i] == rrs[1..][i - 1]; }
        }
      }
      Ok(first + others)
  }

  /**
   * `DnsResponse::to_bytes`: header, questions, answers. It never returns
   * an error; it succeeds exactly when every answer is encodable, and then
   * its length is the header plus the sizes of the questions and answers.
   */
  function ToBytes(resp: DnsResponse, profile: BuildProfile): (r: Outcome<seq<u8>>)
    ensures !r.Err?
    ensures r.Ok? <==> AllEncodable(resp.answers, profile)
    ensures r.Ok? ==> |r.value| == HEADER_LENGTH + QuestionsSize(resp.questions) + AnswersSize(resp.answers)
    ensures r.Ok? ==> r.value[..HEADER_LENGTH] == HeaderBytes(resp.header)
  {
    var answers :- AnswersBytes(resp.answers, profile);
    Ok(HeaderBytes(resp.header) + QuestionsBytes(resp.questions) + answers)
  }
}
