/**
 * The other direction of the round trip: writing back what the parser
 * read reproduces the octets it consumed. This holds exactly when every
 * label it read is ASCII; an octet of 0x80 or more comes back as two
 * UTF-8 bytes, and the label's image then differs from the wire.
 */
module ReEncode {
  import opened Bytes
  import opened Outcomes
  import opened Labels
  import opened Requests
  import opened Responses
  import opened ParseProperties

  /** Every label of the name holds only ASCII bytes. */
  predicate AsciiName(name: seq<DnsLabel>)
  {
    forall i :: 0 <= i < |name| ==> IsAscii(name[i].text)
  }

  /** Every question's name is an `AsciiName`. */
  predicate AsciiQuestions(qs: seq<DnsQuestion>)
  {
    forall i :: 0 <= i < |qs| ==> AsciiName(qs[i].qname)
  }

  /** The text read from octets is ASCII exactly when the octets are. */
  lemma {:induction false} OctetsAsTextIsAscii(o: seq<u8>)
    ensures IsAscii(OctetsAsText(o)) <==> IsAscii(o)
  {
    if |o| > 0 && IsAscii(OctetsAsText(o)) {
      var r := OctetsAsText(o);
      var head := CharUtf8(o[0]);
      assert r == head + OctetsAsText(o[1..]);
      assert r[0] == head[0];
      assert o[0] < 0x80;
      forall i | 0 <= i < |OctetsAsText(o[1..])|
        ensures OctetsAsText(o[1..])[i] < 0x80
      {
        assert OctetsAsText(o[1..])[i] == r[i + 1];
      }
      OctetsAsTextIsAscii(o[1..]);
      forall i | 0 <= i < |o|
        ensures o[i] < 0x80
      {
        if i > 0 {
          assert o[i] == o[1..][i - 1];
        }
      }
    }
  }

  /** A label step rewrites to the octets it consumed: the zero octet, or an ASCII label's image. */
  ghost predicate StepReEncodes(step: seq<u8> -> Outcome<Parsed<NameStep>>)
  {
    forall t :: step(t).Ok? ==>
      (step(t).value.value.Terminator? ==> [0] + step(t).value.rest == t)
      && (step(t).value.value.Component? && IsAscii(step(t).value.value.l.text) ==>
            LabelBytes(step(t).value.value.l) + step(t).value.rest == t)
  }

  lemma ReadLabelReEncodes(s: seq<u8>)
    requires ReadLabel(s).Ok?
    ensures ReadLabel(s).value.value.Terminator? ==> [0] + ReadLabel(s).value.rest == s
    ensures ReadLabel(s).value.value.Component? && IsAscii(ReadLabel(s).value.value.l.text) ==>
      LabelBytes(ReadLabel(s).value.value.l) + ReadLabel(s).value.rest == s
  {
    var len: nat := s[0];
    if len == 0 {
      assert [0] + s[1..] == s;
    } else if IsAscii(ReadLabel(s).value.value.l.text) {
      var octets := s[1..][..len];
      OctetsAsTextIsAscii(octets);
      var l := ReadLabel(s).value.value.l;
      assert l.text == octets;
      assert LabelBytes(l) == [len] + octets;
      assert [len] + octets + s[1..][len..] == s;
    }
  }

  lemma ReadLabelStepReEncodes()
    ensures StepReEncodes(ReadLabel)
  {
    forall t | ReadLabel(t).Ok?
      ensures (ReadLabel(t).value.value.Terminator? ==> [0] + ReadLabel(t).value.rest == t)
        && (ReadLabel(t).value.value.Component? && IsAscii(ReadLabel(t).value.value.l.text) ==>
              LabelBytes(ReadLabel(t).value.value.l) + ReadLabel(t).value.rest == t)
    {
      ReadLabelReEncodes(t);
    }
  }

  /** The name loop rewrites to the octets it consumed when its step does and every label is ASCII. */
  lemma {:induction false} ReadLabelsReEncode(step: seq<u8> -> Outcome<Parsed<NameStep>>, s: seq<u8>)
    requires AlwaysConsumes(step) && StepReEncodes(step)
    requires ReadLabels(step, s).Ok? && AsciiName(ReadLabels(step, s).value.value)
    ensures NameBytes(ReadLabels(step, s).value.value) + ReadLabels(step, s).value.rest == s
    decreases |s|
  {
    var next := step(s).value;
    match next.value
    case Terminator =>
      assert ReadLabels(step, s).value == Parsed([], next.rest);
    case Component(l) =>
      var tail := ReadLabels(step, next.rest).value;
      var name := ReadLabels(step, s).value.value;
      assert name == [l] + tail.value;
      assert name[1..] == tail.value;
      assert AsciiName(tail.value) by {
        forall i | 0 <= i < |tail.value| ensures IsAscii(tail.value[i].text) {
          assert tail.value[i] == name[i + 1];
        }
      }
      assert IsAscii(name[0].text);
      ReadLabelsReEncode(step, next.rest);
      assert NameBytes(name) == LabelBytes(l) + NameBytes(tail.value);
      assert LabelBytes(l) + next.rest == s;
  }

  /** A name read with only ASCII labels rewrites to exactly the octets it consumed. */
  lemma ReadNameReEncodes(s: seq<u8>)
    requires ReadName(s).Ok? && AsciiName(ReadName(s).value.value)
    ensures NameBytes(ReadName(s).value.value) + ReadName(s).value.rest == s
  {
    ReadLabelStepReEncodes();
    ReadLabelsReEncode(ReadLabel, s);
  }

  /** The u16 read from two octets writes back as those octets. */
  lemma ReadU16ReEncodes(s: seq<u8>)
    requires ReadU16(s).Ok?
    ensures U16Bytes(ReadU16(s).value.value) + ReadU16(s).value.rest == s
  {
    U16BytesOfValue(s[0], s[1]);
    assert [s[0], s[1]] + s[2..] == s;
  }

  /** A question read with an ASCII name rewrites to exactly the octets it consumed. */
  lemma ReadQuestionReEncodes(s: seq<u8>)
    requires ReadQuestion(s).Ok? && AsciiName(ReadQuestion(s).value.value.qname)
    ensures QuestionBytes(ReadQuestion(s).value.value) + ReadQuestion(s).value.rest == s
  {
    var name := ReadName(s).value;
    var r := name.rest;
    ReadQuestionOf(s, name);
    ReadNameReEncodes(s);
    U16BytesOfValue(r[0], r[1]);
    U16BytesOfValue(r[2], r[3]);
    FourOctetsThenRest(r);
  }

  lemma FourOctetsThenRest(r: seq<u8>)
    requires |r| >= 4
    ensures [r[0], r[1]] + [r[2], r[3]] + r[4..] == r
  {
  }

  /** A question reader that rewrites to what it consumed when the name is ASCII. */
  ghost predicate QuestionReEncodes(read: seq<u8> -> Outcome<Parsed<DnsQuestion>>)
  {
    forall t :: read(t).Ok? && AsciiName(read(t).value.value.qname) ==>
      QuestionBytes(read(t).value.value) + read(t).value.rest == t
  }

  /** The question loop rewrites to the octets it consumed when its reader does. */
  lemma {:induction false} ReadManyReEncode(read: seq<u8> -> Outcome<Parsed<DnsQuestion>>, s: seq<u8>, count: nat)
    requires QuestionReEncodes(read)
    requires ReadMany(read, s, count).Ok? && AsciiQuestions(ReadMany(read, s, count).value.value)
    ensures QuestionsBytes(ReadMany(read, s, count).value.value) + ReadMany(read, s, count).value.rest == s
    decreases count
  {
    if count > 0 {
      var item := read(s).value;
      var tail := ReadMany(read, item.rest, count - 1).value;
      var qs := ReadMany(read, s, count).value.value;
      assert qs == [item.value] + tail.value;
      AsciiQuestionsSplit(qs);
      assert qs[1..] == tail.value;
      ReadManyReEncode(read, item.rest, count - 1);
      assert QuestionBytes(item.value) + item.rest == s;
      assert QuestionsBytes(qs) == QuestionBytes(item.value) + QuestionsBytes(tail.value);
    }
  }

  lemma AsciiQuestionsSplit(qs: seq<DnsQuestion>)
    requires |qs| > 0 && AsciiQuestions(qs)
    ensures AsciiName(qs[0].qname) && AsciiQuestions(qs[1..])
  {
    forall i | 0 <= i < |qs[1..]| ensures AsciiName(qs[1..][i].qname) {
      assert qs[1..][i] == qs[i + 1];
    }
  }

  /** The header read from twelve octets writes back as those octets. */
  lemma ReadHeaderReEncodes(s: seq<u8>)
    requires ReadHeader(s).Ok?
    ensures HeaderBytes(ReadHeader(s).value.value) + ReadHeader(s).value.rest == s
  {
    var h := ReadHeader(s).value.value;
    U16BytesOfValue(s[0], s[1]);
    U16BytesOfValue(s[2], s[3]);
    U16BytesOfValue(s[4], s[5]);
    U16BytesOfValue(s[6], s[7]);
    U16BytesOfValue(s[8], s[9]);
    U16BytesOfValue(s[10], s[11]);
    assert HeaderBytes(h) == s[..HEADER_LENGTH];
    assert s[..HEADER_LENGTH] + s[HEADER_LENGTH..] == s;
  }

  /**
   * Writing back the header and the questions of a parsed datagram whose
   * labels are all ASCII reproduces the octets the parser consumed.
   */
  lemma ParseReEncodes(data: seq<u8>)
    requires ParseMessage(data).Ok?
    requires AsciiQuestions(ParseMessage(data).value.value.questions)
    ensures var m := ParseMessage(data).value;
      HeaderBytes(m.value.header) + QuestionsBytes(m.value.questions) + m.rest == data
  {
    var header := ReadHeader(data).value;
    var questions := ReadQuestions(header.rest, header.value.qdcount).value;
    assert ReadQuestions(header.rest, header.value.qdcount) == ReadMany(ReadQuestion, header.rest, header.value.qdcount);
    ReadHeaderReEncodes(data);
    assert QuestionReEncodes(ReadQuestion) by {
      forall t | ReadQuestion(t).Ok? && AsciiName(ReadQuestion(t).value.value.qname)
        ensures QuestionBytes(ReadQuestion(t).value.value) + ReadQuestion(t).value.rest == t
      {
        ReadQuestionReEncodes(t);
      }
    }
    ReadManyReEncode(ReadQuestion, header.rest, header.value.qdcount);
    assert ParseMessage(data).value == Parsed(DnsRequest(header.value, questions.value), questions.rest);
  }

  /**
   * A response echoing a parsed request's header and questions, with no
   * answers, is written as exactly the octets of the request the parser
   * consumed, whenever every label read was ASCII.
   */
  lemma EchoOfParseIsPrefix(data: seq<u8>, profile: BuildProfile)
    requires ParseMessage(data).Ok?
    requires AsciiQuestions(ParseMessage(data).value.value.questions)
    ensures var m := ParseMessage(data).value;
      var echo := DnsResponse(m.value.header, m.value.questions, [], [], []);
      && ToBytes(echo, profile).Ok?
      && ToBytes(echo, profile).value == data[..|data| - |m.rest|]
  {
    var m := ParseMessage(data).value;
    var echo := DnsResponse(m.value.header, m.value.questions, [], [], []);
    ParseReEncodes(data);
    var front := HeaderBytes(m.value.header) + QuestionsBytes(m.value.questions);
    assert AnswersBytes([], profile) == Ok([]);
    assert ToBytes(echo, profile).value == front + [];
    assert front + m.rest == data;
    assert data[..|front|] == front;
  }
}
