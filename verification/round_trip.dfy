/**
 * The serialiser and the parser share the header and question encoding:
 * parsing what `to_bytes` wrote gives back the header and the questions,
 * provided every label is non-empty ASCII (an empty label would read as
 * the end of the name, and a byte of 0x80 or more would come back as two
 * UTF-8 bytes).
 */
module RoundTrip {
  import opened Bytes
  import opened Outcomes
  import opened Labels
  import opened Requests
  import opened Responses
  import opened ParseProperties

  /** A label the parser reads back as itself. */
  predicate Readable(l: DnsLabel)
  {
    |l.text| > 0 && IsAscii(l.text)
  }

  /** Every label of the name is `Readable`. */
  predicate ReadableName(name: seq<DnsLabel>)
  {
    forall i :: 0 <= i < |name| ==> Readable(name[i])
  }

  lemma ReadU16OfBytes(x: u16, t: seq<u8>)
    ensures ReadU16(U16Bytes(x) + t) == Ok(Parsed(x, t))
  {
    assert (U16Bytes(x) + t)[2..] == t;
  }

  /** Reading a header back from its image. */
  lemma ReadHeaderOfBytes(h: DnsHeader, rest: seq<u8>)
    ensures ReadHeader(HeaderBytes(h) + rest) == Ok(Parsed(h, rest))
  {
    assert (HeaderBytes(h) + rest)[HEADER_LENGTH..] == rest;
  }

  /** The label step reads a `Readable` label back from its image. */
  lemma ReadLabelOfBytes(l: DnsLabel, t: seq<u8>)
    requires Readable(l)
    ensures ReadLabel(LabelBytes(l) + t) == Ok(Parsed(Component(l), t))
  {
    var s := LabelBytes(l) + t;
    var len := |l.text|;
    assert s[1..] == l.text + t;
    assert (l.text + t)[..len] == l.text;
    assert (l.text + t)[len..] == t;
  }

  /** The label step reads the zero octet as the end of the name. */
  lemma ReadLabelOfTerminator(t: seq<u8>)
    ensures ReadLabel([0] + t) == Ok(Parsed(Terminator, t))
  {
    assert ([0] + t)[1..] == t;
  }

  /** The name loop reads back a name whose labels its step reads back. */
  lemma {:induction false} ReadLabelsOfNameBytes(step: seq<u8> -> Outcome<Parsed<NameStep>>, name: seq<DnsLabel>, rest: seq<u8>)
    requires AlwaysConsumes(step)
    requires forall t :: step([0] + t) == Ok(Parsed(Terminator, t))
    requires forall i, t :: 0 <= i < |name| ==> step(LabelBytes(name[i]) + t) == Ok(Parsed(Component(name[i]), t))
    ensures ReadLabels(step, NameBytes(name) + rest) == Ok(Parsed(name, rest))
    decreases |name|
  {
    if |name| == 0 {
      assert NameBytes(name) + rest == [0] + rest;
    } else {
      assert NameBytes(name) + rest == LabelBytes(name[0]) + (NameBytes(name[1..]) + rest);
      assert step(LabelBytes(name[0]) + (NameBytes(name[1..]) + rest))
          == Ok(Parsed(Component(name[0]), NameBytes(name[1..]) + rest));
      forall i, t | 0 <= i < |name[1..]|
        ensures step(LabelBytes(name[1..][i]) + t) == Ok(Parsed(Component(name[1..][i]), t))
      {
        assert name[1..][i] == name[i + 1];
      }
      ReadLabelsOfNameBytes(step, name[1..], rest);
      assert [name[0]] + name[1..] == name;
    }
  }

  /** Reading a name back from its image. */
  lemma ReadNameOfBytes(name: seq<DnsLabel>, rest: seq<u8>)
    requires ReadableName(name)
    ensures ReadName(NameBytes(name) + rest) == Ok(Parsed(name, rest))
  {
    forall t ensures ReadLabel([0] + t) == Ok(Parsed(Terminator, t)) {
      ReadLabelOfTerminator(t);
    }
    forall i, t | 0 <= i < |name| ensures ReadLabel(LabelBytes(name[i]) + t) == Ok(Parsed(Component(name[i]), t)) {
      ReadLabelOfBytes(name[i], t);
    }
    ReadLabelsOfNameBytes(ReadLabel, name, rest);
  }

  /** Reading a question back from its image. */
  lemma ReadQuestionOfBytes(q: DnsQuestion, rest: seq<u8>)
    requires ReadableName(q.qname)
    ensures ReadQuestion(QuestionBytes(q) + rest) == Ok(Parsed(q, rest))
  {
    var t := U16Bytes(q.qtype);
    var c := U16Bytes(q.qclass);
    var after := t + c + rest;
    assert QuestionBytes(q) + rest == NameBytes(q.qname) + after;
    ReadNameOfBytes(q.qname, after);
    ReadQuestionOf(QuestionBytes(q) + rest, Parsed(q.qname, after));
    assert after[0] == t[0] && after[1] == t[1] && after[2] == c[0] && after[3] == c[1];
    assert after[4..] == rest;
  }

  /** The question loop reads back a list of questions its reader reads back one by one. */
  lemma {:induction false} ReadManyOfQuestionsBytes(read: seq<u8> -> Outcome<Parsed<DnsQuestion>>, qs: seq<DnsQuestion>, rest: seq<u8>)
    requires forall i, t :: 0 <= i < |qs| ==> read(QuestionBytes(qs[i]) + t) == Ok(Parsed(qs[i], t))
    ensures ReadMany(read, QuestionsBytes(qs) + rest, |qs|) == Ok(Parsed(qs, rest))
    decreases |qs|
  {
    if |qs| > 0 {
      assert QuestionsBytes(qs) + rest == QuestionBytes(qs[0]) + (QuestionsBytes(qs[1..]) + rest);
      assert read(QuestionBytes(qs[0]) + (QuestionsBytes(qs[1..]) + rest))
          == Ok(Parsed(qs[0], QuestionsBytes(qs[1..]) + rest));
      forall i, t | 0 <= i < |qs[1..]|
        ensures read(QuestionBytes(qs[1..][i]) + t) == Ok(Parsed(qs[1..][i], t))
      {
        assert qs[1..][i] == qs[i + 1];
      }
      ReadManyOfQuestionsBytes(read, qs[1..], rest);
      assert [qs[0]] + qs[1..] == qs;
    } else {
      assert QuestionsBytes(qs) + rest == rest;
    }
  }

  /** Reading every question back from the image of the question section. */
  lemma ReadQuestionsOfBytes(qs: seq<DnsQuestion>, rest: seq<u8>)
    requires forall i :: 0 <= i < |qs| ==> ReadableName(qs[i].qname)
    ensures ReadQuestions(QuestionsBytes(qs) + rest, |qs|) == Ok(Parsed(qs, rest))
  {
    forall i, t | 0 <= i < |qs| ensures ReadQuestion(QuestionBytes(qs[i]) + t) == Ok(Parsed(qs[i], t)) {
      ReadQuestionOfBytes(qs[i], t);
    }
    ReadManyOfQuestionsBytes(ReadQuestion, qs, rest);
  }

  /**
   * Parsing the bytes of a response gives back its header and questions,
   * when `qdcount` counts the questions and every label is non-empty
   * ASCII. The answers, after the questions, are ignored by the parser.
   */
  lemma ParseOfToBytes(resp: DnsResponse, profile: BuildProfile)
    requires ToBytes(resp, profile).Ok?
    requires resp.header.qdcount == |resp.questions|
    requires forall i :: 0 <= i < |resp.questions| ==> ReadableName(resp.questions[i].qname)
    ensures Parse(ToBytes(resp, profile).value) == Ok(DnsRequest(resp.header, resp.questions))
  {
    var answers := AnswersBytes(resp.answers, profile).value;
    var questions := QuestionsBytes(resp.questions);
    var data := ToBytes(resp, profile).value;
    assert data == HeaderBytes(resp.header) + (questions + answers) by {
      ToBytesOf(resp, profile);
    }
    ReadHeaderOfBytes(resp.header, questions + answers);
    ReadQuestionsOfBytes(resp.questions, answers);
    ParseOfParts(data, resp.header, questions + answers, resp.questions, answers);
  }

  /**
   * The image of a response: header, then questions, then answers.
   * It unfolds `ToBytes` once, for the proofs that follow.
   */
  lemma ToBytesOf(resp: DnsResponse, profile: BuildProfile)
    requires ToBytes(resp, profile).Ok?
    ensures ToBytes(resp, profile).value ==
      HeaderBytes(resp.header) + (QuestionsBytes(resp.questions) + AnswersBytes(resp.answers, profile).value)
  {
  }

  /**
   * The parser in closed form: a header, then `qdcount` questions.
   * It unfolds `Parse` once, for the proofs that follow.
   */
  lemma ParseOfParts(data: seq<u8>, h: DnsHeader, afterHeader: seq<u8>, qs: seq<DnsQuestion>, rest: seq<u8>)
    requires ReadHeader(data) == Ok(Parsed(h, afterHeader))
    requires ReadQuestions(afterHeader, h.qdcount) == Ok(Parsed(qs, rest))
    ensures Parse(data) == Ok(DnsRequest(h, qs))
  {
  }
}
