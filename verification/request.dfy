/**
 * `DNSRequest::parse`: the query decoder. It reads the 12-octet header of
 * section 4.1.1 of RFC 1035 as six big-endian u16s, then `qdcount`
 * questions (section 4.1.2 of RFC 1035), each a run of length-prefixed
 * labels closed by a zero octet and followed by `qtype` and `qclass`.
 * There is no name compression, no check of a length octet against
 * 63, and the answer, authority and additional sections are never read.
 *
 * The `Cursor` over the datagram is modelled by threading the input that
 * is still unread: every reader returns its value with the rest.
 */
module Requests {
  import opened Bytes
  import opened Outcomes
  import opened Labels

  /** The fixed header of section 4.1.1 of RFC 1035; `flags` is kept opaque. */
  datatype DnsHeader = DnsHeader(id: u16, flags: u16, qdcount: u16, ancount: u16, nscount: u16, arcount: u16)

  /** One entry of the question section: the name as its labels in wire order. */
  datatype DnsQuestion = DnsQuestion(qname: seq<DnsLabel>, qtype: u16, qclass: u16)

  datatype DnsRequest = DnsRequest(header: DnsHeader, questions: seq<DnsQuestion>)

  /** Octets in the fixed header. */
  const HEADER_LENGTH: nat := 12

  /** Every label of the name holds at least one byte. */
  predicate NonEmptyLabels(name: seq<DnsLabel>)
  {
    forall i :: 0 <= i < |name| ==> |name[i].text| > 0
  }

  /** Every octet is below 0x80. */
  predicate IsAscii(o: seq<u8>)
  {
    forall i :: 0 <= i < |o| ==> o[i] < 0x80
  }

  /** `Cursor::read_u8`: one octet, or `UnexpectedEof` at the end of the input. */
  function ReadU8(s: seq<u8>): (r: Outcome<Parsed<u8>>)
    ensures !r.Panic?
    ensures r.Ok? <==> |s| >= 1
    ensures r.Err? ==> r.error == UnexpectedEof
    ensures r.Ok? ==> [r.value.value] + r.value.rest == s
  {
    if |s| == 0 then Err(UnexpectedEof) else Ok(Parsed(s[0], s[1..]))
  }

  /** `Cursor::read_u16::<NetworkEndian>`: two octets, most significant first. */
  function ReadU16(s: seq<u8>): (r: Outcome<Parsed<u16>>)
    ensures !r.Panic?
    ensures r.Ok? <==> |s| >= 2
    ensures r.Err? ==> r.error == UnexpectedEof
    ensures r.Ok? ==> r.value == Parsed(U16Value(s[0], s[1]), s[2..])
  {
    if |s| < 2 then Err(UnexpectedEof)
    else
      Ok(Parsed(U16Value(s[0], s[1]), s[2..]))
  }

  /** The header: six big-endian u16s in the order id, flags, qdcount, ancount, nscount, arcount. */
  function ReadHeader(s: seq<u8>): (r: Outcome<Parsed<DnsHeader>>)
    ensures !r.Panic?
    ensures r.Ok? <==> |s| >= HEADER_LENGTH
    ensures r.Err? ==> r.error == UnexpectedEof
    ensures r.Ok? ==> r.value.rest == s[HEADER_LENGTH..]
    ensures r.Ok? ==>
      var h := r.value.value;
      && h.id == U16Value(s[0], s[1])
      && h.flags == U16Value(s[2], s[3])
      && h.qdcount == U16Value(s[4], s[5])
      && h.ancount == U16Value(s[6], s[7])
      && h.nscount == U16Value(s[8], s[9])
      && h.arcount == U16Value(s[10], s[11])
  {
    var id :- ReadU16(s);
    var flags :- ReadU16(id.rest);
    var qdcount :- ReadU16(flags.rest);
    var ancount :- ReadU16(qdcount.rest);
    var nscount :- ReadU16(ancount.rest);
    var arcount :- ReadU16(nscount.rest);
    Ok(Parsed(DnsHeader(id.value, flags.value, qdcount.value, ancount.value, nscount.value, arcount.value),
              arcount.rest))
  }

  /**
   * The UTF-8 bytes `String::push` appends for `octet as char`: the octet
   * itself below 0x80, otherwise the two-byte form of U+0080..U+00FF.
   */
  function CharUtf8(octet: u8): (r: Text)
    ensures |r| == 1 <==> octet < 0x80
    ensures |r| == 1 || |r| == 2
    ensures octet < 0x80 ==> r == [octet]
  {
    if octet < 0x80 then [octet] else [0xC0 + octet / 0x40, 0x80 + octet % 0x40]
  }

  /**
   * The text of a label read octet by octet: it has at least one byte per
   * octet, exactly one per octet only when all octets are ASCII, and is
   * then the octets themselves.
   */
  function OctetsAsText(o: seq<u8>): (r: Text)
    ensures |r| >= |o|
    ensures |r| == |o| <==> IsAscii(o)
    ensures IsAscii(o) ==> r == o
  {
    if |o| == 0 then []
    else
      assert IsAscii(o) <==> o[0] < 0x80 && IsAscii(o[1..]) by {
        if o[0] < 0x80 && IsAscii(o[1..]) {
          forall i | 0 <= i < |o| ensures o[i] < 0x80 {
            if i > 0 { assert o[i] == o[1..][i - 1]; }
          }
        }
      }
      CharUtf8(o[0]) + OctetsAsText(o[1..])
  }

  /** The inner `for _ in 0..len` loop: `len` octets pushed one by one as chars. */
  function ReadLabelText(s: seq<u8>, len: nat): (r: Outcome<Parsed<Text>>)
    ensures !r.Panic?
    ensures r.Ok? <==> |s| >= len
    ensures r.Err? ==> r.error == UnexpectedEof
    ensures r.Ok? ==> r.value.rest == s[len..] && r.value.value == OctetsAsText(s[..len])
    decreases len
  {
    if len == 0 then Ok(Parsed([], s))
    else
      var c :- ReadU8(s);
      var tail :- ReadLabelText(c.rest, len - 1);
      assert s[..len] == [c.value] + c.rest[..len - 1];
      Ok(Parsed(CharUtf8(c.value) + tail.value, tail.rest))
  }

  /** What one pass of the name loop found: the terminator, or one more label. */
  datatype NameStep = Terminator | Component(l: DnsLabel)

  /**
   * One pass of the name loop: a length octet, 0 ending the name; otherwise
   * that many octets become one label through `String::into`, which panics
   * when the text is longer than 63 bytes.
   */
  function ReadLabel(s: seq<u8>): (r: Outcome<Parsed<NameStep>>)
    ensures r.Ok? ==> |r.value.rest| < |s|
    ensures r.Ok? && r.value.value.Component? ==> |r.value.value.l.text| > 0
    ensures r.Err? ==> r.error == UnexpectedEof
    ensures r.Panic? ==> r.site == CapacityOverflow
  {
    var len :- ReadU8(s);
    if len.value == 0 then Ok(Parsed(Terminator, len.rest))
    else
      var text :- ReadLabelText(len.rest, len.value);
      var next :- FromString(text.value);
      Ok(Parsed(Component(next), text.rest))
  }

  /** A reader never returns more input than it was given. */
  ghost predicate NeverGrows<T>(read: seq<u8> -> Outcome<Parsed<T>>)
  {
    forall t :: read(t).Ok? ==> |read(t).value.rest| <= |t|
  }

  /** A reader fails only with the I/O error `e` or the panic `p`. */
  ghost predicate FailsOnlyWith<T>(read: seq<u8> -> Outcome<Parsed<T>>, e: IoError, p: PanicSite)
  {
    forall t :: (read(t).Err? ==> read(t).error == e) && (read(t).Panic? ==> read(t).site == p)
  }

  /** A reader whose every successful read consumes at least one octet. */
  ghost predicate AlwaysConsumes<T>(read: seq<u8> -> Outcome<Parsed<T>>)
  {
    forall t :: read(t).Ok? ==> |read(t).value.rest| < |t|
  }

  /**
   * The name loop around a label step: labels in wire order, up to and
   * without the terminator; the first failure ends the loop.
   */
  function ReadLabels(step: seq<u8> -> Outcome<Parsed<NameStep>>, s: seq<u8>): (r: Outcome<Parsed<seq<DnsLabel>>>)
    requires AlwaysConsumes(step)
    ensures r.Ok? ==> |r.value.rest| < |s|
    decreases |s|
  {
    var next :- step(s);
    match next.value
    case Terminator => Ok(Parsed([], next.rest))
    case Component(l) =>
      var tail :- ReadLabels(step, next.rest);
      Ok(Parsed([l] + tail.value, tail.rest))
  }

  /** The name loop inherits its step's failures. */
  lemma {:induction false} ReadLabelsKeepsFailures(step: seq<u8> -> Outcome<Parsed<NameStep>>, s: seq<u8>,
                                                   e: IoError, p: PanicSite)
    requires AlwaysConsumes(step) && FailsOnlyWith(step, e, p)
    ensures ReadLabels(step, s).Err? ==> ReadLabels(step, s).error == e
    ensures ReadLabels(step, s).Panic? ==> ReadLabels(step, s).site == p
    decreases |s|
  {
    if step(s).Ok? && step(s).value.value.Component? {
      ReadLabelsKeepsFailures(step, step(s).value.rest, e, p);
    }
  }

  /** A name: the labels read by `ReadLabel` until the zero octet. */
  function ReadName(s: seq<u8>): (r: Outcome<Parsed<seq<DnsLabel>>>)
    ensures r.Ok? ==> |r.value.rest| < |s|
    ensures r.Err? ==> r.error == UnexpectedEof
    ensures r.Panic? ==> r.site == CapacityOverflow
  {
    ReadLabelsKeepsFailures(ReadLabel, s, UnexpectedEof, CapacityOverflow);
    ReadLabels(ReadLabel, s)
  }

  /** One question: a name, then `qtype` and `qclass` as big-endian u16s. */
  function ReadQuestion(s: seq<u8>): (r: Outcome<Parsed<DnsQuestion>>)
    ensures r.Ok? ==> |r.value.rest| + 5 <= |s|
    ensures r.Err? ==> r.error == UnexpectedEof
    ensures r.Panic? ==> r.site == CapacityOverflow
  {
    var qname :- ReadName(s);
    var qtype :- ReadU16(qname.rest);
    var qclass :- ReadU16(qtype.rest);
    Ok(Parsed(DnsQuestion(qname.value, qtype.value, qclass.value), qclass.rest))
  }

  /**
   * A `for _ in 0..count` loop around a reader: `count` items in wire
   * order, each read from what the one before it left; the first failure
   * ends the loop.
   */
  function ReadMany<T>(read: seq<u8> -> Outcome<Parsed<T>>, s: seq<u8>, count: nat): (r: Outcome<Parsed<seq<T>>>)
    ensures r.Ok? ==> |r.value.value| == count
    decreases count
  {
    if count == 0 then Ok(Parsed([], s))
    else
      var item :- read(s);
      var items :- ReadMany(read, item.rest, count - 1);
      Ok(Parsed([item.value] + items.value, items.rest))
  }

  /** The loop inherits its reader's bound on the rest and its failures. */
  lemma {:induction false} ReadManyKeepsBounds<T>(read: seq<u8> -> Outcome<Parsed<T>>, s: seq<u8>, count: nat,
                                                  e: IoError, p: PanicSite)
    requires NeverGrows(read) && FailsOnlyWith(read, e, p)
    ensures ReadMany(read, s, count).Ok? ==> |ReadMany(read, s, count).value.rest| <= |s|
    ensures ReadMany(read, s, count).Err? ==> ReadMany(read, s, count).error == e
    ensures ReadMany(read, s, count).Panic? ==> ReadMany(read, s, count).site == p
    decreases count
  {
    if count > 0 && read(s).Ok? {
      ReadManyKeepsBounds(read, read(s).value.rest, count - 1, e, p);
    }
  }

  /** The outer `for _ in 0..qdcount` loop: exactly `count` questions, in wire order. */
  function ReadQuestions(s: seq<u8>, count: nat): (r: Outcome<Parsed<seq<DnsQuestion>>>)
    ensures r.Ok? ==> |r.value.rest| <= |s| && |r.value.value| == count
    ensures r.Err? ==> r.error == UnexpectedEof
    ensures r.Panic? ==> r.site == CapacityOverflow
  {
    ReadManyKeepsBounds(ReadQuestion, s, count, UnexpectedEof, CapacityOverflow);
    ReadMany(ReadQuestion, s, count)
  }

  /** The whole decoder, also returning the octets after the last question. */
  function ParseMessage(data: seq<u8>): (r: Outcome<Parsed<DnsRequest>>)
    ensures r.Ok? ==> |r.value.rest| <= |data|
  {
    var header :- ReadHeader(data);
    var questions :- ReadQuestions(header.rest, header.value.qdcount);
    Ok(Parsed(DnsRequest(header.value, questions.value), questions.rest))
  }

  /**
   * `DNSRequest::parse`. A datagram shorter than the header is an error; on
   * success the header holds the six big-endian u16s at offsets 0, 2, ..,
   * 10 and there are exactly `qdcount` questions.
   * The only panic is a label text over 63 bytes.
   */
  function Parse(data: seq<u8>): (r: Outcome<DnsRequest>)
    ensures |data| < HEADER_LENGTH ==> r == Err(UnexpectedEof)
    ensures r.Err? ==> r.error == UnexpectedEof
    ensures r.Panic? ==> r.site == CapacityOverflow
    ensures r.Ok? ==>
      var h := r.value.header;
      && |data| >= HEADER_LENGTH
      && h.id == U16Value(data[0], data[1])
      && h.flags == U16Value(data[2], data[3])
      && h.qdcount == U16Value(data[4], data[5])
      && h.ancount == U16Value(data[6], data[7])
      && h.nscount == U16Value(data[8], data[9])
      && h.arcount == U16Value(data[10], data[11])
    ensures r.Ok? ==> |r.value.questions| == r.value.header.qdcount
  {
    var message :- ParseMessage(data);
    Ok(message.value)
  }
}
