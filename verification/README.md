# dns-example in Dafny

A model of the message codec of `dns-example`, a small UDP DNS server written
in Rust. The model covers these parts:

- the label type (`DNSLabel`, an `ArrayString<63>`);
- the query decoder `DNSRequest::parse`;
- the response encoder `DnsResponse::to_bytes`, with `DnsRecordData::to_type`;
- the error type of the request handler, `DnsRequestError`: its RCODE mapping, its `Display` names and its two `From` conversions.

The proofs cover each of these parts and also relate the decoder to the encoder in both directions.

Modules, one per file:

| file | module | models |
|---|---|---|
| `bytes.dfy` | `Bytes` | u8/u16/u32 and their big-endian images |
| `outcome.dfy` | `Outcomes` | how a call ends: `Ok`, `Err(io::Error)` through `?`, or a panic |
| `label.dfy` | `Labels` | `src/label.rs` |
| `request.dfy` | `Requests` | `src/request.rs` |
| `resource_record.dfy` | `ResourceRecords` | the record type names returned by `to_type` |
| `response.dfy` | `Responses` | `src/response.rs` |
| `handler.dfy` | `Handler` | `src/handler.rs`, without the trait |
| `parse_properties.dfy` | `ParseProperties` | prefix, truncation and panic laws of the decoder |
| `response_properties.dfy` | `ResponseProperties` | layout and panic laws of the encoder; `to_type` |
| `round_trip.dfy` | `RoundTrip` | the decoder reads back what the encoder wrote |
| `reencode.dfy` | `ReEncode` | the encoder rewrites what the decoder read |
| `vectors.dfy` | `Vectors` | the unit tests, the demo handler's reply, the overlong-label panics |

Modelling choices:

- **Strings.** A Rust `String` is modelled as the sequence of its UTF-8 bytes (`Text = seq<u8>`).
- **The read cursor.** The `Cursor` is modelled by threading the unread suffix: every reader returns `Parsed(value, rest)`.
- **Errors and panics.** These are kept apart, in `Outcome<T> = Ok | Err | Panic`. A `?` error can be matched by the caller; a panic cannot. The panic sites are:
  - `CapacityOverflow`: `push_str` past 63 bytes;
  - `NotImplemented`: `todo!()`;
  - `AddOverflow`: the MX length `2 + len as u16` overflowing in a build with overflow checks;
  - `IndexOutOfBounds`: the demo handler's `request.questions[0]` on a request without questions.
- **Build profile.** `to_bytes` takes a `BuildProfile` (`Debug` or `Release`). It decides whether `AddOverflow` can occur.
- **CNAME length.** The CNAME length field is `len as u16`, which wraps modulo 2^16 in every build. `Responses.RDataBytes` writes it so, and `Responses.RDataLengthField` states the wrapped value.
- **Generic loops.** The two decoder loops are generic combinators:
  - `ReadLabels(step, s)` is the name loop;
  - `ReadMany(read, s, count)` is the `for _ in 0..qdcount` loop.

  `ReadName` and `ReadQuestions` instantiate them with the concrete steps. The laws are proved once for the combinators, given pointwise facts about the steps.

Behaviour of the code worth knowing, set against RFC 1035 where it differs:

- **A length octet over 63.** The decoder does not reject it, although section 2.3.4 of RFC 1035 limits labels to 63 octets. The octets are pushed into a `String` (src/request.rs:53-54), and `into()` then panics in `push_str` once the text exceeds 63 bytes (src/request.rs:57, src/label.rs:19). No format error is returned.
- **Octets of 0x80 and above.** `read_u8()? as char` followed by `String::push` turns each such octet into two UTF-8 bytes (src/request.rs:53-54), so a label's text is not its wire octets. A length octet of 32 followed by 32 octets 0xE9 therefore makes the decoder panic (`Vectors.NonAsciiLabelPanics`).
- **Name length.** The code never checks the 255-octet limit of section 2.3.4 of RFC 1035 on names.
- **Round trips.** Both hold only for labels that are non-empty and ASCII. `RoundTrip.ParseOfToBytes` is one direction; `ReEncode.ParseReEncodes` and `ReEncode.EchoOfParseIsPrefix` are the other, from wire to value and back.

## Model

| member | source | states |
|---|---|---|
| Bytes.U16Bytes | src/response.rs:109-114 | the two octets written for a u16 decode back to it |
| Bytes.U32Bytes | src/response.rs:136 | the four octets written for a u32 decode back to it |
| Bytes.U16BytesOfValue | src/request.rs:33-40 | writing the u16 read from two octets gives back the same two octets |
| Bytes.U32BytesOfValue | src/response.rs:140 | writing the u32 read from four octets gives back the same four octets |
| Bytes.U16sBytes | src/response.rs:144-146 | a run of u16 writes emits two octets per value |
| Bytes.U16sBytesOfPairs | src/response.rs:144-146 | writing the u16s read pairwise from an octet string reproduces that string |
| Labels.ToString | src/label.rs:25-29 | a label's string is at most 63 bytes long |
| Labels.New | src/label.rs:10-13 | succeeds exactly for inputs of at most 63 bytes and stores them unchanged; the error returns the rejected input |
| Labels.FromString | src/label.rs:16-23 | never an error; keeps inputs of at most 63 bytes unchanged and panics with a capacity overflow on longer ones |
| Labels.FromStringAgreesWithNew | src/label.rs:10-23 | the panicking conversion and the checked constructor accept and reject the same inputs, with the same label |
| Labels.FromStringOfToString | src/label.rs:16-29 | label to string and back is the identity, through both constructors |
| Requests.ReadU8 | src/request.rs:46 | one octet when input remains, otherwise UnexpectedEof; the octet and the rest make up the input |
| Requests.ReadU16 | src/request.rs:61-62 | succeeds exactly on two or more octets, with the big-endian value and the input after them; never panics |
| Requests.ReadHeader | src/request.rs:33-40 | succeeds exactly on 12 or more octets; the six fields are the big-endian u16s at offsets 0, 2, 4, 6, 8 and 10 |
| Requests.CharUtf8 | src/request.rs:53-54 | `octet as char` pushed onto a String adds one byte, equal to the octet, below 0x80 and two bytes otherwise |
| Requests.OctetsAsText | src/request.rs:51-55 | the pushed text is at least as long as the octets, exactly as long only when they are ASCII, and then equal to them |
| Requests.ReadLabelText | src/request.rs:51-55 | succeeds exactly when `len` octets remain, with the text of those octets and the input after them |
| Requests.ReadLabel | src/request.rs:46-58 | a successful step consumes input and yields only non-empty labels; its failures are UnexpectedEof or a capacity panic |
| Requests.ReadLabels | src/request.rs:45-59 | a successful name loop consumes at least the terminator |
| Requests.ReadLabelsKeepsFailures | src/request.rs:45-59 | the name loop fails only in the ways its step fails |
| Requests.ReadName | src/request.rs:45-59 | a name consumes input, and fails only with UnexpectedEof or a capacity panic |
| Requests.ReadQuestion | src/request.rs:44-68 | a question consumes at least five octets, and fails only with UnexpectedEof or a capacity panic |
| Requests.ReadMany | src/request.rs:43-69 | a successful loop returns exactly `count` items |
| Requests.ReadManyKeepsBounds | src/request.rs:43-69 | the loop never returns more input than it got, and fails only as its reader fails |
| Requests.ReadQuestions | src/request.rs:43-69 | exactly `qdcount` questions on success; its only failures are UnexpectedEof and a capacity panic |
| Requests.ParseMessage | src/request.rs:30-72 | the octets left after the last question are a part of the datagram |
| Requests.Parse | src/request.rs:30-72 | under 12 octets is UnexpectedEof; on success the header fields are the six big-endian u16s and there are exactly `qdcount` questions; the only panic is the capacity overflow |
| ParseProperties.ReadU16Extends | src/request.rs:61-62 | appending octets does not change what a u16 read returns |
| ParseProperties.ReadLabelTextExtends | src/request.rs:51-55 | appending octets does not change the label text read |
| ParseProperties.ReadLabelIgnoresAppended | src/request.rs:46-58 | the label step never looks past the octets it consumes |
| ParseProperties.ReadLabelOnPrefix | src/request.rs:46-58 | the label step reads exactly the length octet and its octets: any prefix holding them gives the same label, any shorter prefix is UnexpectedEof |
| ParseProperties.ReadLabelOfShortPrefix | src/request.rs:46-58 | a prefix shorter than the consumed octets is UnexpectedEof |
| ParseProperties.ReadLabelOfLongPrefix | src/request.rs:46-58 | a prefix holding the consumed octets gives the same label |
| ParseProperties.ReadLabelReadsPrefix | src/request.rs:46-58 | the label step depends on exactly the octets it consumes |
| ParseProperties.ReadLabelsExtends | src/request.rs:45-59 | the name loop never looks past the terminator, given such a step |
| ParseProperties.ReadLabelsOnPrefix | src/request.rs:45-59 | the name loop depends on exactly the octets it consumes, given such a step |
| ParseProperties.ReadManyExtends | src/request.rs:43-69 | the question loop never looks past its last item, given such a reader |
| ParseProperties.ReadManyTruncated | src/request.rs:43-69 | the question loop cut before the end of its last item is UnexpectedEof, given a prefix-exact reader |
| ParseProperties.ReadNameExtends | src/request.rs:45-59 | a name read ignores the octets after its terminator |
| ParseProperties.ReadNameOnPrefix | src/request.rs:45-59 | a name depends on exactly the octets up to and including its terminator |
| ParseProperties.ReadQuestionIgnoresAppended | src/request.rs:44-68 | a question read ignores the octets after its qclass |
| ParseProperties.ReadQuestionOf | src/request.rs:61-68 | a question is its name, then the big-endian qtype and qclass after it, or UnexpectedEof when fewer than four octets follow |
| ParseProperties.ReadQuestionOnPrefix | src/request.rs:44-68 | a question depends on exactly its name and the four octets after it |
| ParseProperties.ReadQuestionReadsPrefix | src/request.rs:44-68 | the question reader depends on exactly the octets it consumes |
| ParseProperties.ReadHeaderExtends | src/request.rs:33-40 | appending octets does not change the header read |
| ParseProperties.ParseIgnoresTrailingBytes | src/request.rs:30-72 | octets after the last question, such as answer sections, never change the outcome of a parse that ran out of input nowhere |
| ParseProperties.ParseMessageOf | src/request.rs:30-72 | the decoder succeeds exactly when `qdcount` questions can be read after the 12-octet header |
| ParseProperties.ParseOfShortQuestions | src/request.rs:43-69 | questions that run out of input make the whole parse UnexpectedEof |
| ParseProperties.ParseOfTruncatedQuestions | src/request.rs:43-69 | a datagram cut inside its question section is UnexpectedEof |
| ParseProperties.ReadQuestionsTruncated | src/request.rs:43-69 | the question loop over a cut input is an error |
| ParseProperties.ParseOfTruncatedMessage | src/request.rs:30-72 | a datagram cut anywhere before the end of its last question is UnexpectedEof: no partial request is returned |
| ParseProperties.ReadLabelPanics | src/request.rs:57 | the label step panics exactly when the length octet is non-zero, its octets are present, and their pushed text exceeds 63 bytes |
| ParseProperties.ReadLabelPanicsOnAscii | src/request.rs:57 | for ASCII octets the panic is exactly a length octet over 63 |
| ParseProperties.OctetsAsTextOfHigh | src/request.rs:53-54 | octets of 0x80 and above become twice as many text bytes |
| ParseProperties.ParsePanicsOnFirstLabel | src/request.rs:42-57 | a datagram that announces questions and whose first label step panics makes the decoder panic |
| ParseProperties.ReadLabelsNonEmpty | src/request.rs:47-49 | a step giving only non-empty labels makes a name of non-empty labels |
| ParseProperties.ReadManyAll | src/request.rs:43-69 | every item the loop returns is one its reader can return |
| ParseProperties.ParseOf | src/request.rs:30-72 | the questions of a parsed datagram are those read after its header |
| ParseProperties.ParsedLabelsAreNonEmpty | src/request.rs:47-49 | no parsed label is empty, since a zero length octet ends the name |
| Responses.Ipv4Bits | src/response.rs:140 | the big-endian image of `u32::from(addr)` is the four address octets in order |
| Responses.Segments | src/response.rs:144-146 | eight segments whose big-endian images are the sixteen address octets in order |
| Responses.ToType | src/response.rs:42-72 | the type has an encoding in `to_bytes` exactly for A, AAAA, CNAME and MX data |
| Responses.HeaderBytes | src/response.rs:109-114 | 12 octets holding the six header fields as big-endian u16s, counts copied verbatim |
| Responses.LabelBytes | src/response.rs:119-120 | a length octet equal to the label's byte count, then the bytes |
| Responses.NameBytes | src/response.rs:118-122 | as long as the independently defined name size, and ending with the zero octet |
| Responses.QuestionBytes | src/response.rs:117-125 | the name's image, then qtype and qclass as big-endian u16s |
| Responses.QuestionsBytes | src/response.rs:116-125 | as long as the sum of the question sizes |
| Responses.AddU16 | src/response.rs:153 | never an error; panics exactly in a debug build when the sum reaches 2^16, and otherwise gives the sum modulo 2^16 |
| Responses.RDataBytes | src/response.rs:137-180 | written exactly for encodable data (A, AAAA, CNAME; MX unless the debug overflow), with the independently defined size; otherwise a panic at the variant's site |
| Responses.RDataLengthField | src/response.rs:139-153 | the leading u16 is the byte count of the rest modulo 2^16 |
| Responses.RDataOfA | src/response.rs:138-141 | an A record's RDATA is 0, 4, then the four address octets |
| Responses.RDataOfAaaa | src/response.rs:142-147 | an AAAA record's RDATA is 0, 16, then the sixteen address octets |
| Responses.RDataOfCname | src/response.rs:148-151 | a CNAME is always written, and its RDATA after the length field is the raw target bytes |
| Responses.RDataOfMx | src/response.rs:152-156 | an MX RDATA after the length field is the preference, then the raw exchange bytes |
| Responses.AnswerBytes | src/response.rs:128-181 | written exactly when the RDATA is encodable, with the independently defined size; otherwise the RDATA's panic |
| Responses.AnswersBytes | src/response.rs:127-181 | written exactly when every answer is encodable, with the sum of the answer sizes |
| Responses.ToBytes | src/response.rs:106-186 | never an error; written exactly when every answer is encodable; its length is 12 plus the section sizes and it starts with the header image |
| ResponseProperties.ToBytesIgnoresOtherSections | src/response.rs:183 | the authority and additional sections never affect the output |
| ResponseProperties.AnswersPanicAtFirst | src/response.rs:127-181 | the answer loop panics at the site of the first answer it cannot write |
| ResponseProperties.ToBytesPanicsAtFirst | src/response.rs:127-181 | `to_bytes` panics at the site of the first answer it cannot write |
| ResponseProperties.ReleaseWritesExactlyEncodedTypes | src/response.rs:137-180 | in a release build, the output is written exactly when every answer's type is A, AAAA, CNAME or MX |
| ResponseProperties.UnencodedTypePanics | src/response.rs:157-179 | one answer of any of the other ten types makes `to_bytes` panic |
| ResponseProperties.MxPanicsOnlyOnOverflow | src/response.rs:153 | an MX record panics exactly in a debug build with an exchange length of 65534 or 65535 modulo 2^16 |
| ResponseProperties.AnswerFields | src/response.rs:129-136 | an answer starts with its name's image, then rtype, class and ttl in big-endian at the name's end |
| ResponseProperties.ResponseEndsWithLastRData | src/response.rs:127-185 | the output ends with the RDATA image of the last answer |
| ResponseProperties.AnswersEndWithLast | src/response.rs:127-181 | the answer section ends with the RDATA image of its last answer |
| ResponseProperties.ToTypeSeparatesVariants | src/response.rs:42-72 | two RDATA values have the same type exactly when they are of the same variant |
| ResponseProperties.SampleOf | src/response.rs:42-72 | every one of the fourteen record types is the type of some RDATA |
| Handler.ToResponseCode | src/handler.rs:29-51 | every error maps to an RCODE in 1..11 or 16..23 |
| Handler.FromResponseCode | src/handler.rs:29-51 | a code names an error exactly when it is in 1..11 or 16..23 |
| Handler.FromResponseCodeOfToResponseCode | src/handler.rs:29-51 | every error is recovered from its code |
| Handler.ToResponseCodeOfFromResponseCode | src/handler.rs:29-51 | every code in those ranges is the code of an error |
| Handler.ToResponseCodeInjective | src/handler.rs:29-51 | two errors have the same code exactly when they are the same error |
| Handler.ToResponseCodeMonotonic | src/handler.rs:29-51 | codes strictly increase in declaration order |
| Handler.Rfc1035Codes | src/handler.rs:31-35 | FormErr, ServFail, NXDomain, NotImp and Refused are 1 to 5, as in section 4.1.1 of RFC 1035 |
| Handler.Name | src/handler.rs:54-78 | every error renders as a non-empty name |
| Handler.FromNameOfName | src/handler.rs:54-78 | the rendered name identifies the error |
| Handler.NameInjective | src/handler.rs:54-78 | two errors render alike exactly when they are the same error |
| Handler.FromIoError | src/handler.rs:80-84 | every I/O error becomes the error with RCODE 2 |
| Handler.FromBoxedError | src/handler.rs:86-90 | every boxed error becomes the error with RCODE 2 |
| RoundTrip.ReadU16OfBytes | src/request.rs:61-62 | a u16 is read back from its big-endian image, leaving what follows |
| RoundTrip.ReadHeaderOfBytes | src/request.rs:33-40 | the header is read back from the image `to_bytes` writes |
| RoundTrip.ReadLabelOfBytes | src/request.rs:46-58 | a non-empty ASCII label is read back from its image |
| RoundTrip.ReadLabelOfTerminator | src/request.rs:47-49 | the zero octet is read as the end of the name |
| RoundTrip.ReadLabelsOfNameBytes | src/request.rs:45-59 | the name loop reads back a name whose labels its step reads back |
| RoundTrip.ReadNameOfBytes | src/request.rs:45-59 | a name of non-empty ASCII labels is read back from its image |
| RoundTrip.ReadQuestionOfBytes | src/request.rs:44-68 | a question with such a name is read back from its image |
| RoundTrip.ReadManyOfQuestionsBytes | src/request.rs:43-69 | the question loop reads back a list its reader reads back one by one |
| RoundTrip.ReadQuestionsOfBytes | src/request.rs:43-69 | the question section is read back from its image |
| RoundTrip.ParseOfToBytes | src/request.rs:30-72 | parsing a written response gives back its header and questions, when qdcount matches and every label is non-empty ASCII |
| RoundTrip.ToBytesOf | src/response.rs:106-186 | the output is the header image, the questions' image, then the answers' image |
| RoundTrip.ParseOfParts | src/request.rs:30-72 | a header, then `qdcount` questions read after it, parse to that request |
| ReEncode.OctetsAsTextIsAscii | src/request.rs:53-54 | the pushed text is ASCII exactly when the octets are |
| ReEncode.ReadLabelReEncodes | src/request.rs:46-58 | a terminator is the zero octet, and an ASCII label rewrites to the octets it was read from |
| ReEncode.ReadLabelStepReEncodes | src/request.rs:46-58 | the label step rewrites to what it consumed |
| ReEncode.ReadLabelsReEncode | src/request.rs:45-59 | the name loop rewrites to what it consumed when every label is ASCII, given such a step |
| ReEncode.ReadNameReEncodes | src/request.rs:45-59 | a name read with ASCII labels rewrites to exactly the octets consumed |
| ReEncode.ReadU16ReEncodes | src/request.rs:61-62 | a u16 read writes back as the two octets it came from |
| ReEncode.ReadQuestionReEncodes | src/request.rs:44-68 | a question with an ASCII name rewrites to exactly the octets consumed |
| ReEncode.ReadManyReEncode | src/request.rs:43-69 | the question loop rewrites to what it consumed, given such a reader |
| ReEncode.ReadHeaderReEncodes | src/request.rs:33-40 | a header read writes back as the twelve octets it came from |
| ReEncode.ParseReEncodes | src/request.rs:30-72 | writing back the parsed header and questions reproduces the octets consumed, when every label is ASCII |
| ReEncode.EchoOfParseIsPrefix | src/response.rs:106-186 | a response echoing a parsed request, with no answers, is written as exactly the consumed prefix of the datagram |
| Vectors.Letters | src/label.rs:46 | a run of `n` ASCII letters |
| Vectors.DottedLabelIsKept | src/label.rs:35-42 | "www.example.com" is accepted as one label and kept verbatim |
| Vectors.LabelLengthLimit | src/label.rs:44-60 | 64 letters are rejected; 63 letters are accepted and kept |
| Vectors.QnameIsReadable | src/request.rs:93-98 | the test name's labels are non-empty ASCII |
| Vectors.QueryHeaderBytes | src/request.rs:85-90 | the test header is written as its twelve octets |
| Vectors.QnameBytes | src/request.rs:92-98 | the test name is written as its length-prefixed labels and the zero octet |
| Vectors.QuestionSectionBytes | src/request.rs:92-100 | the test question is written as its name, then qtype 1 and qclass 1 |
| Vectors.ParseOfQuery | src/request.rs:80-124 | the unit test's datagram parses to id 0x1234, flags 0x0100, one question www.example.com, type 1, class 1 |
| Vectors.DemoReply | src/main.rs:54-73 | on a request with questions: the request's id and qdcount, flags 0x8180, ancount 1, the questions echoed, and one A record 1.1.1.1 with TTL 0 carrying the first question's name, type and class; on a request without questions, a panic at `questions[0]` |
| Vectors.DemoReplyBytes | src/main.rs:54-73 | the demo reply is always written and ends with RDLENGTH 4 and the octets 1.1.1.1 |
| Vectors.DemoReplyParsesBack | src/main.rs:54-73 | the demo reply parses back to its header and the request's questions |
| Vectors.DemoReplyOfQuery | src/main.rs:54-73 | the demo reply to the unit test's query parses back to that query's question |
| Vectors.QueryWithLabel | src/request.rs:84-99 | a one-question datagram whose first label carries the given octets |
| Vectors.OverlongLabelPanics | src/request.rs:57 | a 64-letter label makes the decoder panic |
| Vectors.NonAsciiLabelPanics | src/request.rs:53-57 | a length octet of 32 with 32 octets 0xE9 makes the decoder panic |

## Left out

- `src/server.rs` and the runtime of `src/main.rs` are not modelled: the tokio UDP socket, the task spawning and the logging. They are I/O and concurrency. The demo handler's reply is kept as `Vectors.DemoReply`.
- The `DnsRequestHandler` trait is left out. It is an async trait object, with no behaviour of its own.
- `resourcerecord.rs` is not part of this model. `ResourceRecordType` is modelled by the fourteen names `to_type` returns, without numeric type codes. `to_bytes` writes the `rtype` field as given and never derives it from the RDATA, and the model does the same.
- I/O errors other than a read past the end are left out. `Cursor` over a slice can return no other error. The writes of `to_bytes` go to a `Vec` and cannot fail, so `to_bytes` has no `Err` path.
- Name compression and the 255-octet name limit are left out, because the code implements neither.
- UTF-8 validity of `Text` is not tracked. CNAME and MX strings are arbitrary byte sequences; a Rust `String` is always valid UTF-8.
- Requests.ParseMessage: its contract only bounds the octets left over. What it reads is stated by `ParseMessageOf`, `ParseOf` and the round-trip lemmas.
- Handler.FromIoError: the `io::Error` argument has only the end-of-input kind here, which the conversion ignores like every other kind.
