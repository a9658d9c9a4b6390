/**
 * Properties of the query decoder that relate several calls: the octets
 * after the last question never change the outcome, and a datagram cut
 * anywhere before the end of its last question is an error, never a
 * partial request.
 *
 * The two loops, over labels and over questions, are proved once for any
 * step with the matching property, then applied to `ReadLabel` and
 * `ReadQuestion`.
 */
module ParseProperties {
  import opened Bytes
  import opened Outcomes
  import opened Labels
  import opened Requests

  /** The outcome of a reader run on `s + x`, given its outcome on `s`. */
  function Extended<T>(r: Outcome<Parsed<T>>, x: seq<u8>): Outcome<Parsed<T>>
  {
    if r.Ok? then Ok(Parsed(r.value.value, r.value.rest + x)) else r
  }

  /** Octets a successful read took from the front of `s`. */
  function Consumed<T>(s: seq<u8>, p: Parsed<T>): int
  {
    |s| - |p.rest|
  }

  /** Unless it runs out of input, `read` never looks at the octets `x` appended to it. */
  ghost predicate IgnoresAppended<T>(read: seq<u8> -> Outcome<Parsed<T>>, x: seq<u8>)
  {
    forall t :: !read(t).Err? ==> read(t + x) == Extended(read(t), x)
  }

  /** On success, `read` leaves a suffix of its input. */
  ghost predicate LeavesSuffix<T>(read: seq<u8> -> Outcome<Parsed<T>>)
  {
    forall t :: read(t).Ok? ==> |read(t).value.rest| <= |t| && read(t).value.rest == t[|t| - |read(t).value.rest|..]
  }

  /** After a success, `read` returns the same value on every prefix holding what it consumed. */
  ghost predicate ReadsOnlyConsumed<T>(read: seq<u8> -> Outcome<Parsed<T>>)
    requires LeavesSuffix(read)
  {
    forall t, j :: read(t).Ok? && Consumed(t, read(t).value) <= j <= |t| ==>
      read(t[..j]) == Ok(Parsed(read(t).value.value, t[..j][Consumed(t, read(t).value)..]))
  }

  /** After a success, `read` runs out of input on every shorter prefix. */
  ghost predicate NeedsAllConsumed<T>(read: seq<u8> -> Outcome<Parsed<T>>)
  {
    forall t, j :: read(t).Ok? && 0 <= j < Consumed(t, read(t).value) ==> read(t[..j]).Err?
  }

  /** `read` depends on exactly the octets it consumes: no look-ahead, no short cut. */
  ghost predicate ReadsPrefix<T>(read: seq<u8> -> Outcome<Parsed<T>>)
  {
    LeavesSuffix(read) && ReadsOnlyConsumed(read) && NeedsAllConsumed(read)
  }

  // ---- the label step ----

  lemma ReadU16Extends(s: seq<u8>, x: seq<u8>)
    requires !ReadU16(s).Err?
    ensures ReadU16(s + x) == Extended(ReadU16(s), x)
  {
    SlicesOfAppended(s, x, 2);
  }

  lemma ReadLabelTextExtends(s: seq<u8>, len: nat, x: seq<u8>)
    requires !ReadLabelText(s, len).Err?
    ensures ReadLabelText(s + x, len) == Extended(ReadLabelText(s, len), x)
  {
    ReadLabelTextOf(s, len);
    ReadLabelTextOf(s + x, len);
    SlicesOfAppended(s, x, len);
  }

  lemma SlicesOfAppended(s: seq<u8>, x: seq<u8>, n: nat)
    requires n <= |s|
    ensures (s + x)[..n] == s[..n] && (s + x)[n..] == s[n..] + x
  {
  }

  /** The label text reader in closed form. */
  lemma ReadLabelTextOf(s: seq<u8>, len: nat)
    requires |s| >= len
    ensures ReadLabelText(s, len) == Ok(Parsed(OctetsAsText(s[..len]), s[len..]))
  {
  }

  lemma ReadLabelIgnoresAppended(x: seq<u8>)
    ensures IgnoresAppended(ReadLabel, x)
  {
    forall s: seq<u8> | !ReadLabel(s).Err?
      ensures ReadLabel(s + x) == Extended(ReadLabel(s), x)
    {
      var t := s + x;
      assert t[1..] == s[1..] + x;
      if s[0] != 0 {
        var len: nat := s[0];
        ReadLabelTextExtends(s[1..], len, x);
      }
    }
  }

  /** One label step reads exactly the length octet and the octets it announces. */
  lemma ReadLabelOnPrefix(s: seq<u8>, j: nat)
    requires ReadLabel(s).Ok? && j <= |s|
    ensures ReadLabel(s).value.rest == s[Consumed(s, ReadLabel(s).value)..]
    ensures Consumed(s, ReadLabel(s).value) <= j ==>
      ReadLabel(s[..j]) == Ok(Parsed(ReadLabel(s).value.value, s[..j][Consumed(s, ReadLabel(s).value)..]))
    ensures j < Consumed(s, ReadLabel(s).value) ==> ReadLabel(s[..j]).Err?
  {
    if j < Consumed(s, ReadLabel(s).value) {
      ReadLabelOfShortPrefix(s, j);
    } else {
      ReadLabelOfLongPrefix(s, j);
    }
  }

  lemma ReadLabelOfShortPrefix(s: seq<u8>, j: nat)
    requires ReadLabel(s).Ok? && j < Consumed(s, ReadLabel(s).value)
    ensures ReadLabel(s).value.rest == s[Consumed(s, ReadLabel(s).value)..]
    ensures ReadLabel(s[..j]).Err?
  {
    var p := s[..j];
    if j > 0 {
      assert p[0] == s[0];
      assert p[1..] == s[1..][..j - 1];
    }
  }

  lemma ReadLabelOfLongPrefix(s: seq<u8>, j: nat)
    requires ReadLabel(s).Ok? && Consumed(s, ReadLabel(s).value) <= j <= |s|
    ensures ReadLabel(s).value.rest == s[Consumed(s, ReadLabel(s).value)..]
    ensures ReadLabel(s[..j]) == Ok(Parsed(ReadLabel(s).value.value, s[..j][Consumed(s, ReadLabel(s).value)..]))
  {
    var p := s[..j];
    assert p[0] == s[0];
    if s[0] != 0 {
      var len: nat := s[0];
      assert p[1..][..len] == s[1..][..len];
      assert p[1..][len..] == p[len + 1..];
    }
  }

  lemma ReadLabelReadsPrefix()
    ensures ReadsPrefix(ReadLabel)
  {
    forall t, j | ReadLabel(t).Ok? && 0 <= j <= |t|
      ensures ReadLabel(t).value.rest == t[Consumed(t, ReadLabel(t).value)..]
      ensures Consumed(t, ReadLabel(t).value) <= j ==>
        ReadLabel(t[..j]) == Ok(Parsed(ReadLabel(t).value.value, t[..j][Consumed(t, ReadLabel(t).value)..]))
      ensures j < Consumed(t, ReadLabel(t).value) ==> ReadLabel(t[..j]).Err?
    {
      ReadLabelOnPrefix(t, j);
    }
    forall t | ReadLabel(t).Ok?
      ensures ReadLabel(t).value.rest == t[|t| - |ReadLabel(t).value.rest|..]
    {
      ReadLabelOnPrefix(t, 0);
    }
  }

  // ---- the two loops, for any step ----

  /** The name loop never looks past the terminator when its step never looks past its label. */
  lemma {:induction false} ReadLabelsExtends(step: seq<u8> -> Outcome<Parsed<NameStep>>, s: seq<u8>, x: seq<u8>)
    requires AlwaysConsumes(step) && IgnoresAppended(step, x)
    requires !ReadLabels(step, s).Err?
    ensures ReadLabels(step, s + x) == Extended(ReadLabels(step, s), x)
    decreases |s|
  {
    if step(s).Ok? && step(s).value.value.Component? {
      ReadLabelsExtends(step, step(s).value.rest, x);
    }
  }

  /** The name loop depends on exactly the octets it consumes when its step does. */
  lemma {:induction false} ReadLabelsOnPrefix(step: seq<u8> -> Outcome<Parsed<NameStep>>, s: seq<u8>, j: nat)
    requires AlwaysConsumes(step) && ReadsPrefix(step)
    requires ReadLabels(step, s).Ok? && j <= |s|
    ensures ReadLabels(step, s).value.rest == s[Consumed(s, ReadLabels(step, s).value)..]
    ensures Consumed(s, ReadLabels(step, s).value) <= j ==>
      ReadLabels(step, s[..j]) == Ok(Parsed(ReadLabels(step, s).value.value, s[..j][Consumed(s, ReadLabels(step, s).value)..]))
    ensures j < Consumed(s, ReadLabels(step, s).value) ==> ReadLabels(step, s[..j]).Err?
    decreases |s|
  {
    var next := step(s).value;
    var n := Consumed(s, next);
    var m := Consumed(s, ReadLabels(step, s).value);
    assert next.rest == s[n..];
    if j >= n {
      assert step(s[..j]) == Ok(Parsed(next.value, s[..j][n..]));
    }
    if next.value.Component? {
      var tail := ReadLabels(step, next.rest).value;
      ReadLabelsOnPrefix(step, next.rest, if j < n then 0 else j - n);
      assert s[n..][m - n..] == s[m..];
      if j >= n {
        assert s[..j][n..] == next.rest[..j - n];
        if j >= m {
          assert s[..j][n..][m - n..] == s[..j][m..];
        }
      }
    }
  }

  /** The question loop never looks past its last item when its reader does not. */
  lemma {:induction false} ReadManyExtends<T>(read: seq<u8> -> Outcome<Parsed<T>>, s: seq<u8>, count: nat, x: seq<u8>)
    requires IgnoresAppended(read, x)
    requires !ReadMany(read, s, count).Err?
    ensures ReadMany(read, s + x, count) == Extended(ReadMany(read, s, count), x)
    decreases count
  {
    if count > 0 && read(s).Ok? {
      ReadManyExtends(read, read(s).value.rest, count - 1, x);
    }
  }

  /** The question loop cut before the end of its last item runs out of input. */
  lemma {:induction false} ReadManyTruncated<T>(read: seq<u8> -> Outcome<Parsed<T>>, s: seq<u8>, count: nat, j: nat)
    requires ReadsPrefix(read)
    requires ReadMany(read, s, count).Ok?
    requires j < Consumed(s, ReadMany(read, s, count).value)
    ensures ReadMany(read, s[..j], count).Err?
    decreases count
  {
    if count > 0 {
      var item := read(s).value;
      var n := Consumed(s, item);
      assert item.rest == s[n..];
      var tail := ReadMany(read, item.rest, count - 1);
      assert tail.Ok? && ReadMany(read, s, count).value.rest == tail.value.rest;
      if j < n {
        assert read(s[..j]).Err?;
      } else {
        assert read(s[..j]) == Ok(Parsed(item.value, s[..j][n..]));
        assert s[..j][n..] == item.rest[..j - n];
        ReadManyTruncated(read, item.rest, count - 1, j - n);
      }
    }
  }

  // ---- names and questions ----

  /** Reading a name never looks past its terminating zero octet. */
  lemma ReadNameExtends(s: seq<u8>, x: seq<u8>)
    requires !ReadName(s).Err?
    ensures ReadName(s + x) == Extended(ReadName(s), x)
  {
    ReadLabelIgnoresAppended(x);
    ReadLabelsExtends(ReadLabel, s, x);
  }

  /** A name depends on exactly the octets up to and with its terminating zero octet. */
  lemma ReadNameOnPrefix(s: seq<u8>, j: nat)
    requires ReadName(s).Ok? && j <= |s|
    ensures ReadName(s).value.rest == s[Consumed(s, ReadName(s).value)..]
    ensures Consumed(s, ReadName(s).value) <= j ==>
      ReadName(s[..j]) == Ok(Parsed(ReadName(s).value.value, s[..j][Consumed(s, ReadName(s).value)..]))
    ensures j < Consumed(s, ReadName(s).value) ==> ReadName(s[..j]).Err?
  {
    ReadLabelReadsPrefix();
    ReadLabelsOnPrefix(ReadLabel, s, j);
  }

  lemma ReadQuestionIgnoresAppended(x: seq<u8>)
    ensures IgnoresAppended(ReadQuestion, x)
  {
    forall s | !ReadQuestion(s).Err?
      ensures ReadQuestion(s + x) == Extended(ReadQuestion(s), x)
    {
      ReadNameExtends(s, x);
      if ReadName(s).Ok? {
        var qname := ReadName(s).value;
        ReadU16Extends(qname.rest, x);
        ReadU16Extends(ReadU16(qname.rest).value.rest, x);
      }
    }
  }

  /** A question in closed form: its name, then two big-endian u16s. */
  lemma ReadQuestionOf(s: seq<u8>, name: Parsed<seq<DnsLabel>>)
    requires ReadName(s) == Ok(name)
    ensures ReadQuestion(s) ==
      if |name.rest| < 4 then Err(UnexpectedEof)
      else Ok(Parsed(DnsQuestion(name.value, U16Value(name.rest[0], name.rest[1]), U16Value(name.rest[2], name.rest[3])),
                     name.rest[4..]))
  {
    if |name.rest| >= 4 {
      assert name.rest[2..][2..] == name.rest[4..];
    }
  }

  /** A question depends on exactly its name and the four octets after it. */
  lemma ReadQuestionOnPrefix(s: seq<u8>, j: nat)
    requires ReadQuestion(s).Ok? && j <= |s|
    ensures ReadQuestion(s).value.rest == s[Consumed(s, ReadQuestion(s).value)..]
    ensures Consumed(s, ReadQuestion(s).value) <= j ==>
      ReadQuestion(s[..j]) == Ok(Parsed(ReadQuestion(s).value.value, s[..j][Consumed(s, ReadQuestion(s).value)..]))
    ensures j < Consumed(s, ReadQuestion(s).value) ==> ReadQuestion(s[..j]).Err?
  {
    var name := ReadName(s).value;
    var n := Consumed(s, name);
    ReadNameOnPrefix(s, j);
    ReadQuestionOf(s, name);
    assert s[n..][4..] == s[n + 4..];
    assert ReadQuestion(s).value.rest == s[n + 4..];
    assert Consumed(s, ReadQuestion(s).value) == n + 4;
    if j >= n {
      var rest := s[..j][n..];
      ReadQuestionOf(s[..j], Parsed(name.value, rest));
      if j >= n + 4 {
        assert rest[..4] == name.rest[..4];
        assert rest[0] == name.rest[..4][0] && rest[1] == name.rest[..4][1];
        assert rest[2] == name.rest[..4][2] && rest[3] == name.rest[..4][3];
        assert rest[4..] == s[..j][n + 4..];
      }
    }
  }

  lemma ReadQuestionReadsPrefix()
    ensures ReadsPrefix(ReadQuestion)
  {
    forall t, j | ReadQuestion(t).Ok? && 0 <= j <= |t|
      ensures ReadQuestion(t).value.rest == t[Consumed(t, ReadQuestion(t).value)..]
      ensures Consumed(t, ReadQuestion(t).value) <= j ==>
        ReadQuestion(t[..j]) == Ok(Parsed(ReadQuestion(t).value.value, t[..j][Consumed(t, ReadQuestion(t).value)..]))
      ensures j < Consumed(t, ReadQuestion(t).value) ==> ReadQuestion(t[..j]).Err?
    {
      ReadQuestionOnPrefix(t, j);
    }
    forall t | ReadQuestion(t).Ok?
      ensures ReadQuestion(t).value.rest == t[|t| - |ReadQuestion(t).value.rest|..]
    {
      ReadQuestionOnPrefix(t, 0);
    }
  }

  // ---- the whole message ----

  lemma ReadHeaderExtends(s: seq<u8>, x: seq<u8>)
    requires !ReadHeader(s).Err?
    ensures ReadHeader(s + x) == Extended(ReadHeader(s), x)
  {
    var t := s + x;
    assert t[..HEADER_LENGTH] == s[..HEADER_LENGTH];
    assert t[HEADER_LENGTH..] == s[HEADER_LENGTH..] + x;
  }

  /**
   * Octets after the last question are ignored: unless parsing `data` runs
   * out of input, parsing `data + x` returns the same request, or panics
   * in the same way.
   */
  lemma ParseIgnoresTrailingBytes(data: seq<u8>, x: seq<u8>)
    requires !Parse(data).Err?
    ensures Parse(data + x) == Parse(data)
  {
    ReadHeaderExtends(data, x);
    var header := ReadHeader(data).value;
    ReadQuestionIgnoresAppended(x);
    ReadManyExtends(ReadQuestion, header.rest, header.value.qdcount, x);
  }

  /** The message after its header: `qdcount` questions, then whatever follows them. */
  lemma ParseMessageOf(data: seq<u8>)
    requires |data| >= HEADER_LENGTH
    ensures ParseMessage(data).Ok? <==> ReadQuestions(data[HEADER_LENGTH..], U16Value(data[4], data[5])).Ok?
    ensures ParseMessage(data).Ok? ==>
      ParseMessage(data).value.rest == ReadQuestions(data[HEADER_LENGTH..], U16Value(data[4], data[5])).value.rest
  {
  }

  /** A datagram whose questions run out of input is an error. */
  lemma ParseOfShortQuestions(data: seq<u8>, questions: seq<u8>, qdcount: u16)
    requires |data| >= HEADER_LENGTH && data[HEADER_LENGTH..] == questions && U16Value(data[4], data[5]) == qdcount
    requires ReadMany(ReadQuestion, questions, qdcount).Err?
    ensures Parse(data) == Err(UnexpectedEof)
  {
  }

  /** A datagram cut inside its question section is an error. */
  lemma ParseOfTruncatedQuestions(data: seq<u8>, k: nat)
    requires |data| >= HEADER_LENGTH
    requires ReadQuestions(data[HEADER_LENGTH..], U16Value(data[4], data[5])).Ok?
    requires HEADER_LENGTH <= k < HEADER_LENGTH +
      Consumed(data[HEADER_LENGTH..], ReadQuestions(data[HEADER_LENGTH..], U16Value(data[4], data[5])).value)
    ensures Parse(data[..k]) == Err(UnexpectedEof)
  {
    var p := data[..k];
    var qdcount := U16Value(data[4], data[5]);
    var questions := data[HEADER_LENGTH..];
    var short := questions[..k - HEADER_LENGTH];
    assert p[HEADER_LENGTH..] == short;
    assert U16Value(p[4], p[5]) == qdcount;
    ReadQuestionsIsReadMany(questions, qdcount);
    ReadQuestionsTruncated(questions, qdcount, k - HEADER_LENGTH, short);
    ParseOfShortQuestions(p, short, qdcount);
  }

  lemma ReadQuestionsTruncated(s: seq<u8>, count: nat, j: nat, t: seq<u8>)
    requires ReadMany(ReadQuestion, s, count).Ok?
    requires j < Consumed(s, ReadMany(ReadQuestion, s, count).value) && t == s[..j]
    ensures ReadMany(ReadQuestion, t, count).Err?
  {
    ReadQuestionReadsPrefix();
    ReadManyTruncated(ReadQuestion, s, count, j);
  }

  /** The question loop is the generic loop around the question reader. */
  lemma ReadQuestionsIsReadMany(s: seq<u8>, count: nat)
    ensures ReadQuestions(s, count) == ReadMany(ReadQuestion, s, count)
  {
  }

  /**
   * A datagram cut anywhere before the end of its last question is an
   * error: no partial request is ever returned.
   */
  lemma ParseOfTruncatedMessage(data: seq<u8>, k: nat)
    requires ParseMessage(data).Ok?
    requires k < Consumed(data, ParseMessage(data).value)
    ensures Parse(data[..k]) == Err(UnexpectedEof)
  {
    if k >= HEADER_LENGTH {
      ParseMessageOf(data);
      ParseOfTruncatedQuestions(data, k);
    }
  }

  // ---- label contents ----

  /**
   * A label step panics exactly when the announced octets are all present
   * and their text is over 63 bytes; the length octet itself is never
   * compared with 63.
   */
  lemma ReadLabelPanics(s: seq<u8>)
    ensures ReadLabel(s).Panic? <==>
      && 1 <= |s| && s[0] < |s|
      && |OctetsAsText(s[1..s[0] + 1])| > MAX_LABEL_LENGTH
  {
    if 1 <= |s| && s[0] < |s| {
      assert s[1..][..s[0]] == s[1..s[0] + 1];
    }
  }

  /** For ASCII octets the text is as long as the octets, so the panic is a length octet over 63. */
  lemma ReadLabelPanicsOnAscii(s: seq<u8>)
    requires 1 <= |s| && s[0] < |s| && IsAscii(s[1..s[0] + 1])
    ensures ReadLabel(s).Panic? <==> s[0] > MAX_LABEL_LENGTH
  {
    ReadLabelPanics(s);
  }

  /** Octets of 0x80 and above become two bytes each: the text is twice as long as the octets. */
  lemma {:induction false} OctetsAsTextOfHigh(o: seq<u8>)
    requires forall i :: 0 <= i < |o| ==> o[i] >= 0x80
    ensures |OctetsAsText(o)| == 2 * |o|
  {
    if |o| > 0 {
      assert forall i :: 0 <= i < |o[1..]| ==> o[1..][i] == o[i + 1];
      OctetsAsTextOfHigh(o[1..]);
    }
  }

  /** A datagram announcing questions whose first label step panics makes the parser panic. */
  lemma ParsePanicsOnFirstLabel(data: seq<u8>)
    requires |data| >= HEADER_LENGTH && U16Value(data[4], data[5]) > 0
    requires ReadLabel(data[HEADER_LENGTH..]).Panic?
    ensures Parse(data) == Panic(CapacityOverflow)
  {
    ParseOf(data);
  }

  /** A step that only returns non-empty labels. */
  ghost predicate GivesNonEmpty(step: seq<u8> -> Outcome<Parsed<NameStep>>)
  {
    forall t :: step(t).Ok? && step(t).value.value.Component? ==> |step(t).value.value.l.text| > 0
  }

  lemma {:induction false} ReadLabelsNonEmpty(step: seq<u8> -> Outcome<Parsed<NameStep>>, s: seq<u8>)
    requires AlwaysConsumes(step) && GivesNonEmpty(step)
    ensures ReadLabels(step, s).Ok? ==> NonEmptyLabels(ReadLabels(step, s).value.value)
    decreases |s|
  {
    if step(s).Ok? && step(s).value.value.Component? {
      ReadLabelsNonEmpty(step, step(s).value.rest);
    }
  }

  /** Every item a successful loop returns is one its reader can return. */
  lemma {:induction false} ReadManyAll<T>(read: seq<u8> -> Outcome<Parsed<T>>, s: seq<u8>, count: nat, P: T -> bool)
    requires forall t :: read(t).Ok? ==> P(read(t).value.value)
    ensures ReadMany(read, s, count).Ok? ==>
      forall i :: 0 <= i < count ==> P(ReadMany(read, s, count).value.value[i])
    decreases count
  {
    if count > 0 && read(s).Ok? {
      ReadManyAll(read, read(s).value.rest, count - 1, P);
    }
  }

  /** The questions of a parsed datagram are those read after its header. */
  lemma ParseOf(data: seq<u8>)
    requires |data| >= HEADER_LENGTH
    ensures Parse(data).Ok? <==> ReadQuestions(data[HEADER_LENGTH..], U16Value(data[4], data[5])).Ok?
    ensures Parse(data).Ok? ==>
      Parse(data).value.questions == ReadQuestions(data[HEADER_LENGTH..], U16Value(data[4], data[5])).value.value
  {
  }

  /**
   * The zero octet ends a name and never becomes a label: every label of
   * every parsed question holds at least one byte.
   */
  lemma ParsedLabelsAreNonEmpty(data: seq<u8>)
    requires Parse(data).Ok?
    ensures forall i :: 0 <= i < |Parse(data).value.questions| ==> NonEmptyLabels(Parse(data).value.questions[i].qname)
  {
    forall t | ReadName(t).Ok?
      ensures NonEmptyLabels(ReadName(t).value.value)
    {
      ReadLabelsNonEmpty(ReadLabel, t);
    }
    ParseOf(data);
    ReadManyAll(ReadQuestion, data[HEADER_LENGTH..], U16Value(data[4], data[5]), (q: DnsQuestion) => NonEmptyLabels(q.qname));
  }
}
