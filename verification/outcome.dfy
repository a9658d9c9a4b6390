/**
 * How a call of the DNS codec ends. A Rust function here either returns
 * (`Ok` or, through `?`, an `Err` carrying a `std::io::Error`) or panics;
 * a panic unwinds out of the call and is not something a caller can match
 * on, so it is kept apart from `Err`.
 */
module Outcomes {
  import opened Bytes

  /** The only I/O error the codec can meet: a read past the end of the datagram. */
  datatype IoError = UnexpectedEof

  /** The places where the codec panics instead of returning an error. */
  datatype PanicSite =
    | CapacityOverflow  // `ArrayString::push_str` given more than 63 bytes
    | NotImplemented    // `todo!()` for an RDATA variant without an encoding
    | AddOverflow       // `2 + len as u16` overflowing in a build with overflow checks
    | IndexOutOfBounds  // indexing an empty `Vec` at 0

  /** A returned value, a returned I/O error, or a panic. */
  datatype Outcome<+T> = Ok(value: T) | Err(error: IoError) | Panic(site: PanicSite)
  {
    predicate IsFailure() {
      !Ok?
    }

    function PropagateFailure<U>(): Outcome<U>
      requires !Ok?
    {
      if Err? then Err(error) else Panic(site)
    }

    function Extract(): T
      requires Ok?
    {
      value
    }
  }

  /** A plain Rust `Result`, for calls that return their error instead of panicking. */
  datatype Result<+T, +E> = Success(value: T) | Failure(error: E)

  /** A value that may be absent, for lookups that can find nothing. */
  datatype Option<+T> = None | Some(value: T)

  /** A value read from the front of the input, and the input left after it. */
  datatype Parsed<+T> = Parsed(value: T, rest: seq<u8>)

}
