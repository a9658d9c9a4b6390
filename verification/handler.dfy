/**
 * `DnsRequestError`: the ways a handler can refuse a request, each mapped
 * to its RCODE in the IANA DNS RCODE registry. Codes 1 to 5 are those of
 * section 4.1.1 of RFC 1035, 6 to 10 those of section 2.2 of RFC 2136,
 * 11 and 16 to 23 later registry entries; 0 (no error) and 12 to 15 are
 * never produced.
 */
module Handler {
  import opened Bytes
  import opened Outcomes

  /** The variants in declaration order. */
  datatype DnsRequestError =
    | FormErr | ServFail | NXDomain | NotImp | Refused
    | YXDomain | YXRRSet | NXRRSet | NotAuth | NotZone | DSOTYPENI
    | BadVersOrSig | BadKey | BadTime | BadMode | BadName | BadAlg | BadTrunc | BadCookie

  /** The RCODE values the mapping may produce. */
  predicate IsErrorCode(code: int)
  {
    1 <= code <= 11 || 16 <= code <= 23
  }

  /** `DnsRequestError::to_response_code`. */
  function ToResponseCode(e: DnsRequestError): (code: u8)
    ensures IsErrorCode(code)
  {
    match e
    case FormErr => 1
    case ServFail => 2
    case NXDomain => 3
    case NotImp => 4
    case Refused => 5
    case YXDomain => 6
    case YXRRSet => 7
    case NXRRSet => 8
    case NotAuth => 9
    case NotZone => 10
    case DSOTYPENI => 11
    case BadVersOrSig => 16
    case BadKey => 17
    case BadTime => 18
    case BadMode => 19
    case BadName => 20
    case BadAlg => 21
    case BadTrunc => 22
    case BadCookie => 23
  }

  /** The error a response code stands for, if it stands for one. */
  function FromResponseCode(code: u8): (r: Option<DnsRequestError>)
    ensures r.Some? <==> IsErrorCode(code)
  {
    match code
    case 1 => Some(FormErr)
    case 2 => Some(ServFail)
    case 3 => Some(NXDomain)
    case 4 => Some(NotImp)
    case 5 => Some(Refused)
    case 6 => Some(YXDomain)
    case 7 => Some(YXRRSet)
    case 8 => Some(NXRRSet)
    case 9 => Some(NotAuth)
    case 10 => Some(NotZone)
    case 11 => Some(DSOTYPENI)
    case 16 => Some(BadVersOrSig)
    case 17 => Some(BadKey)
    case 18 => Some(BadTime)
    case 19 => Some(BadMode)
    case 20 => Some(BadName)
    case 21 => Some(BadAlg)
    case 22 => Some(BadTrunc)
    case 23 => Some(BadCookie)
    case _ => None
  }

  /** Every error is recovered from its code: the mapping is one-to-one. */
  lemma FromResponseCodeOfToResponseCode(e: DnsRequestError)
    ensures FromResponseCode(ToResponseCode(e)) == Some(e)
  {
  }

  /** Every code of the registry ranges above comes from exactly one error: the mapping is onto. */
  lemma ToResponseCodeOfFromResponseCode(code: u8)
    requires IsErrorCode(code)
    ensures ToResponseCode(FromResponseCode(code).value) == code
  {
  }

  /** The two errors with the same code are the same error. */
  lemma ToResponseCodeInjective(e: DnsRequestError, f: DnsRequestError)
    ensures ToResponseCode(e) == ToResponseCode(f) <==> e == f
  {
    FromResponseCodeOfToResponseCode(e);
    FromResponseCodeOfToResponseCode(f);
  }

  /** Position of a variant in the declaration, from 0. */
  function Ordinal(e: DnsRequestError): nat
  {
    match e
    case FormErr => 0
    case ServFail => 1
    case NXDomain => 2
    case NotImp => 3
    case Refused => 4
    case YXDomain => 5
    case YXRRSet => 6
    case NXRRSet => 7
    case NotAuth => 8
    case NotZone => 9
    case DSOTYPENI => 10
    case BadVersOrSig => 11
    case BadKey => 12
    case BadTime => 13
    case BadMode => 14
    case BadName => 15
    case BadAlg => 16
    case BadTrunc => 17
    case BadCookie => 18
  }

  /** Codes strictly increase in declaration order. */
  lemma ToResponseCodeMonotonic(e: DnsRequestError, f: DnsRequestError)
    ensures Ordinal(e) < Ordinal(f) <==> ToResponseCode(e) < ToResponseCode(f)
  {
  }

  /** The five codes of section 4.1.1 of RFC 1035. */
  lemma Rfc1035Codes()
    ensures ToResponseCode(FormErr) == 1 && ToResponseCode(ServFail) == 2
    ensures ToResponseCode(NXDomain) == 3 && ToResponseCode(NotImp) == 4
    ensures ToResponseCode(Refused) == 5
  {
  }

  /** `Display`: the name of the variant. */
  function Name(e: DnsRequestError): (s: string)
    ensures |s| > 0
  {
    match e
    case FormErr => "FormErr"
    case ServFail => "ServFail"
    case NXDomain => "NXDomain"
    case NotImp => "NotImp"
    case Refused => "Refused"
    case YXDomain => "YXDomain"
    case YXRRSet => "YXRRSet"
    case NXRRSet => "NXRRSet"
    case NotAuth => "NotAuth"
    case NotZone => "NotZone"
    case DSOTYPENI => "DSOTYPENI"
    case BadVersOrSig => "BadVersOrSig"
    case BadKey => "BadKey"
    case BadTime => "BadTime"
    case BadMode => "BadMode"
    case BadName => "BadName"
    case BadAlg => "BadAlg"
    case BadTrunc => "BadTrunc"
    case BadCookie => "BadCookie"
  }

  /** The error a rendered name stands for, if any. */
  function FromName(s: string): (r: Option<DnsRequestError>)
  {
    match s
    case "FormErr" => Some(FormErr)
    case "ServFail" => Some(ServFail)
    case "NXDomain" => Some(NXDomain)
    case "NotImp" => Some(NotImp)
    case "Refused" => Some(Refused)
    case "YXDomain" => Some(YXDomain)
    case "YXRRSet" => Some(YXRRSet)
    case "NXRRSet" => Some(NXRRSet)
    case "NotAuth" => Some(NotAuth)
    case "NotZone" => Some(NotZone)
    case "DSOTYPENI" => Some(DSOTYPENI)
    case "BadVersOrSig" => Some(BadVersOrSig)
    case "BadKey" => Some(BadKey)
    case "BadTime" => Some(BadTime)
    case "BadMode" => Some(BadMode)
    case "BadName" => Some(BadName)
    case "BadAlg" => Some(BadAlg)
    case "BadTrunc" => Some(BadTrunc)
    case "BadCookie" => Some(BadCookie)
    case _ => None
  }

  /** The rendered name identifies the variant, so distinct variants render distinctly. */
  lemma FromNameOfName(e: DnsRequestError)
    ensures FromName(Name(e)) == Some(e)
  {
  }

  lemma NameInjective(e: DnsRequestError, f: DnsRequestError)
    ensures Name(e) == Name(f) <==> e == f
  {
    FromNameOfName(e);
    FromNameOfName(f);
  }

  /** `From<std::io::Error>`: every I/O error becomes `ServFail`. */
  function FromIoError(err: IoError): (e: DnsRequestError)
    ensures ToResponseCode(e) == 2
  {
    ServFail
  }

  /** Any boxed error, whose contents the conversion never looks at. */
  datatype BoxedError = BoxedError(description: string)

  /** `From<Box<dyn Error>>`: every boxed error becomes `ServFail`. */
  function FromBoxedError(err: BoxedError): (e: DnsRequestError)
    ensures ToResponseCode(e) == 2
  {
    ServFail
  }
}
