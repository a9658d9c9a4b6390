/**
 * Concrete cases: the unit tests of the label type and of the parser, the
 * fixed 1.1.1.1 answer of the demo handler, and the overlong labels that
 * make the parser panic.
 */
module Vectors {
  import opened Bytes
  import opened Outcomes
  import opened Labels
  import opened Requests
  import opened Responses
  import opened ParseProperties
  import opened RoundTrip
  import opened ResponseProperties

  const WWW: Text := [0x77, 0x77, 0x77]
  const EXAMPLE: Text := [0x65, 0x78, 0x61, 0x6D, 0x70, 0x6C, 0x65]
  const COM: Text := [0x63, 0x6F, 0x6D]
  /** "www.example.com", dots included. */
  const DOTTED: Text := WWW + [0x2E] + EXAMPLE + [0x2E] + COM

  /** A run of `n` letters "a". */
  function Letters(n: nat): (s: Text)
    ensures |s| == n && IsAscii(s)
  {
    seq(n, i => 0x61)
  }

  /** A label is kept verbatim: the dots of "www.example.com" do not split it. */
  lemma DottedLabelIsKept()
    ensures New(DOTTED).Success? && ToString(New(DOTTED).value) == DOTTED
  {
  }

  /** 64 letters do not fit in a label; 63 letters do, unchanged. */
  lemma LabelLengthLimit()
    ensures New(Letters(MAX_LABEL_LENGTH + 1)).Failure?
    ensures New(Letters(MAX_LABEL_LENGTH)).Success?
    ensures ToString(New(Letters(MAX_LABEL_LENGTH)).value) == Letters(MAX_LABEL_LENGTH)
  {
  }

  const QNAME: seq<DnsLabel> := [LabelText(WWW), LabelText(EXAMPLE), LabelText(COM)]

  /** The query of the parser's unit test: id 0x1234, flags 0x0100, one question www.example.com, type 1, class 1. */
  const QUERY: seq<u8> :=
    [0x12, 0x34, 0x01, 0x00, 0x00, 0x01, 0x00, 0x00, 0x00, 0x00, 0x00, 0x00]
    + [3] + WWW + [7] + EXAMPLE + [3] + COM + [0]
    + [0x00, 0x01, 0x00, 0x01]

  const QUERY_HEADER: DnsHeader := DnsHeader(0x1234, 0x0100, 1, 0, 0, 0)
  const QUESTION: DnsQuestion := DnsQuestion(QNAME, 1, 1)

  lemma QnameIsReadable()
    ensures ReadableName(QNAME)
  {
    assert IsAscii(WWW) && IsAscii(EXAMPLE) && IsAscii(COM);
  }

  lemma QueryHeaderBytes()
    ensures HeaderBytes(QUERY_HEADER) == [0x12, 0x34, 0x01, 0x00, 0x00, 0x01, 0x00, 0x00, 0x00, 0x00, 0x00, 0x00]
  {
    assert U16Bytes(0x1234) == [0x12, 0x34];
    assert U16Bytes(0x0100) == [0x01, 0x00];
    assert U16Bytes(1) == [0x00, 0x01];
    assert U16Bytes(0) == [0x00, 0x00];
  }

  lemma QnameBytes()
    ensures NameBytes(QNAME) == [3] + WWW + [7] + EXAMPLE + [3] + COM + [0]
  {
    assert NameBytes(QNAME[2..]) == [3] + COM + [0];
    assert NameBytes(QNAME[1..]) == [7] + EXAMPLE + NameBytes(QNAME[2..]);
    assert NameBytes(QNAME) == [3] + WWW + NameBytes(QNAME[1..]);
  }

  lemma QuestionSectionBytes()
    ensures QuestionsBytes([QUESTION]) == [3] + WWW + [7] + EXAMPLE + [3] + COM + [0] + [0x00, 0x01, 0x00, 0x01]
  {
    QnameBytes();
    assert U16Bytes(1) == [0x00, 0x01];
    assert QuestionsBytes([QUESTION]) == QuestionBytes(QUESTION) + QuestionsBytes([]);
  }

  /** The parser's unit test: the header fields and the one question come out as written. */
  lemma ParseOfQuery()
    ensures Parse(QUERY) == Ok(DnsRequest(QUERY_HEADER, [QUESTION]))
  {
    QnameIsReadable();
    QueryHeaderBytes();
    QuestionSectionBytes();
    var header := HeaderBytes(QUERY_HEADER);
    var questions := QuestionsBytes([QUESTION]) + [];
    assert questions == [3] + WWW + [7] + EXAMPLE + [3] + COM + [0] + [0x00, 0x01, 0x00, 0x01];
    assert QUERY == header + questions;
    ReadHeaderOfBytes(QUERY_HEADER, questions);
    ReadQuestionsOfBytes([QUESTION], []);
    ParseOfParts(QUERY, QUERY_HEADER, questions, [QUESTION], []);
  }

  /** The one answer of the demo reply: the first question's name, type and class, TTL 0, address 1.1.1.1. */
  predicate IsDemoAnswer(rr: DnsResourceRecord, q: DnsQuestion)
  {
    && rr.name == q.qname && rr.rtype == q.qtype && rr.rclass == q.qclass
    && rr.ttl == 0 && rr.rdata == DnsRecordData.A(Ipv4Addr(1, 1, 1, 1))
  }

  /**
   * The demo handler's reply: the request's id and qdcount with flags
   * 0x8180 (a response, recursion desired and available, NOERROR), the
   * questions echoed, and one A record for the first question. Indexing the
   * first question of a request without questions panics.
   */
  function DemoReply(request: DnsRequest): (r: Outcome<DnsResponse>)
    ensures r.Ok? <==> |request.questions| > 0
    ensures r.Panic? ==> r.site == IndexOutOfBounds
    ensures r.Ok? ==>
      && r.value.header == DnsHeader(request.header.id, 0x8180, request.header.qdcount, 1, 0, 0)
      && r.value.questions == request.questions
      && |r.value.answers| == 1 && IsDemoAnswer(r.value.answers[0], request.questions[0])
      && r.value.authority == [] && r.value.additional == []
  {
    if |request.questions| == 0 then Panic(IndexOutOfBounds)
    else
      var q := request.questions[0];
      Ok(DnsResponse(
        DnsHeader(request.header.id, 0x8180, request.header.qdcount, 1, 0, 0),
        request.questions,
        [DnsResourceRecord(q.qname, q.qtype, q.qclass, 0, DnsRecordData.A(Ipv4Addr(1, 1, 1, 1)))],
        [], []))
  }

  /** The image ends with RDLENGTH 4 and the octets 1, 1, 1, 1. */
  predicate EndsWithOneOneOneOne(b: seq<u8>)
  {
    |b| >= 6 && b[|b| - 6..] == [0x00, 0x04, 0x01, 0x01, 0x01, 0x01]
  }

  /** The demo reply is always written, and ends with RDLENGTH 4 and the octets 1, 1, 1, 1. */
  lemma DemoReplyBytes(request: DnsRequest, profile: BuildProfile)
    requires |request.questions| > 0
    ensures ToBytes(DemoReply(request).value, profile).Ok?
    ensures EndsWithOneOneOneOne(ToBytes(DemoReply(request).value, profile).value)
  {
    OneAddressEndsWithIt(DemoReply(request).value, profile);
  }

  /** A response whose only answer is the address 1.1.1.1 is written and ends with that address. */
  lemma OneAddressEndsWithIt(reply: DnsResponse, profile: BuildProfile)
    requires |reply.answers| == 1 && reply.answers[0].rdata == DnsRecordData.A(Ipv4Addr(1, 1, 1, 1))
    ensures ToBytes(reply, profile).Ok?
    ensures EndsWithOneOneOneOne(ToBytes(reply, profile).value)
  {
    var rdata := DnsRecordData.A(Ipv4Addr(1, 1, 1, 1));
    RDataOfA(Ipv4Addr(1, 1, 1, 1), profile);
    assert AllEncodable(reply.answers, profile);
    ResponseEndsWithLastRData(reply, profile);
    var d := RDataBytes(rdata, profile).value;
    assert d == [0x00, 0x04, 0x01, 0x01, 0x01, 0x01];
  }

  /** The demo reply parses back to the request's header fields and questions. */
  lemma DemoReplyParsesBack(request: DnsRequest, profile: BuildProfile)
    requires |request.questions| > 0 && request.header.qdcount == |request.questions|
    requires forall i :: 0 <= i < |request.questions| ==> ReadableName(request.questions[i].qname)
    ensures ToBytes(DemoReply(request).value, profile).Ok?
    ensures Parse(ToBytes(DemoReply(request).value, profile).value) == Ok(DnsRequest(DemoReply(request).value.header, request.questions))
  {
    DemoReplyBytes(request, profile);
    var reply := DemoReply(request).value;
    assert reply.header.qdcount == |reply.questions| by {
      assert reply.header == DnsHeader(request.header.id, 0x8180, request.header.qdcount, 1, 0, 0);
    }
    assert reply.questions == request.questions;
    ParseOfToBytes(reply, profile);
  }

  /** The demo reply to the unit-test query parses back to that query's question. */
  lemma DemoReplyOfQuery(profile: BuildProfile)
    ensures DemoReply(DnsRequest(QUERY_HEADER, [QUESTION])).Ok?
    ensures var reply := DemoReply(DnsRequest(QUERY_HEADER, [QUESTION])).value;
      && ToBytes(reply, profile).Ok?
      && Parse(ToBytes(reply, profile).value) == Ok(DnsRequest(reply.header, [QUESTION]))
  {
    QnameIsReadable();
    DemoReplyParsesBack(DnsRequest(QUERY_HEADER, [QUESTION]), profile);
  }

  /** A one-question query, as in the parser's unit test, whose name starts with a label of the given octets. */
  function QueryWithLabel(octets: seq<u8>): (data: seq<u8>)
    requires |octets| < 0x100
    ensures |data| == HEADER_LENGTH + |octets| + 6 && U16Value(data[4], data[5]) == 1
    ensures data[HEADER_LENGTH..][0] == |octets| && data[HEADER_LENGTH..][1..|octets| + 1] == octets
  {
    var header: seq<u8> := [0x12, 0x34, 0x01, 0x00, 0x00, 0x01, 0x00, 0x00, 0x00, 0x00, 0x00, 0x00];
    var question := [|octets|] + octets + [0, 0x00, 0x01, 0x00, 0x01];
    assert (header + question)[HEADER_LENGTH..] == question;
    header + question
  }

  /** A label of 64 letters does not fit the 63-byte label: the parser panics. */
  lemma OverlongLabelPanics()
    ensures Parse(QueryWithLabel(Letters(MAX_LABEL_LENGTH + 1))) == Panic(CapacityOverflow)
  {
    var data := QueryWithLabel(Letters(MAX_LABEL_LENGTH + 1));
    ReadLabelPanicsOnAscii(data[HEADER_LENGTH..]);
    ParsePanicsOnFirstLabel(data);
  }

  /**
   * A length octet of 32 passes any 63-octet check, yet 32 octets 0xE9 are
   * pushed as 64 bytes of UTF-8, and the parser panics.
   */
  lemma NonAsciiLabelPanics()
    ensures Parse(QueryWithLabel(seq(32, i => 0xE9))) == Panic(CapacityOverflow)
  {
    var octets: seq<u8> := seq(32, i => 0xE9);
    var data := QueryWithLabel(octets);
    OctetsAsTextOfHigh(octets);
    ReadLabelPanics(data[HEADER_LENGTH..]);
    ParsePanicsOnFirstLabel(data);
  }
}
