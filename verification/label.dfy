/**
 * One DNS name component: a string of at most 63 bytes (section 11 of
 * RFC 2181, section 2.3.4 of RFC 1035), held in a fixed-capacity
 * `ArrayString<63>`. The content is kept verbatim: no case folding and no
 * splitting on dots.
 */
module Labels {
  import opened Bytes
  import opened Outcomes

  /** The label limit, in bytes. */
  const MAX_LABEL_LENGTH: nat := 63

  /** A Rust `String` or `&str`, as the UTF-8 bytes it holds. */
  type Text = seq<u8>

  /** The bytes held by a label's `ArrayString`. */
  datatype LabelText = LabelText(text: Text)

  /** `DNSLabel`: the capacity of the `ArrayString` bounds every label. */
  type DnsLabel = l: LabelText | |l.text| <= MAX_LABEL_LENGTH witness LabelText([])

  /** The error `ArrayString::from` returns: it hands back the rejected string. */
  datatype CapacityError = CapacityError(element: Text)

  /** `From<DNSLabel> for String`: the label's content. */
  function ToString(l: DnsLabel): (s: Text)
    ensures |s| <= MAX_LABEL_LENGTH
    ensures |s| < 0x100
  {
    l.text
  }

  /**
   * `DNSLabel::new`: succeeds exactly when the input fits the capacity, and
   * then stores it unchanged; otherwise the input comes back in the error.
   */
  function New(s: Text): (r: Result<DnsLabel, CapacityError>)
    ensures r.Success? <==> |s| <= MAX_LABEL_LENGTH
    ensures r.Success? ==> ToString(r.value) == s
    ensures r.Failure? ==> r.error.element == s
  {
    if |s| <= MAX_LABEL_LENGTH then Success(LabelText(s)) else Failure(CapacityError(s))
  }

  /**
   * `From<String> for DNSLabel`: `push_str` into an empty `ArrayString<63>`,
   * which panics, rather than truncating, when the input does not fit.
   */
  function FromString(s: Text): (r: Outcome<DnsLabel>)
    ensures !r.Err?
    ensures r.Ok? <==> |s| <= MAX_LABEL_LENGTH
    ensures r.Ok? ==> ToString(r.value) == s
    ensures r.Panic? ==> r.site == CapacityOverflow
  {
    if |s| <= MAX_LABEL_LENGTH then Ok(LabelText(s)) else Panic(CapacityOverflow)
  }

  /** The checked constructor and the panicking conversion agree on every input. */
  lemma FromStringAgreesWithNew(s: Text)
    ensures New(s).Success? ==> FromString(s) == Ok(New(s).value)
    ensures New(s).Failure? <==> FromString(s) == Panic(CapacityOverflow)
  {
  }

  /** Converting a label to a string and back gives the same label. */
  lemma FromStringOfToString(l: DnsLabel)
    ensures FromString(ToString(l)) == Ok(l)
    ensures New(ToString(l)) == Success(l)
  {
  }
}
