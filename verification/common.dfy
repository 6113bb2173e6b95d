/** Shared vocabulary: optional values, fallible results, fixed-width integers and instants. */
module Common {

  /** An optional value, Rust's `Option`. */
  datatype Option<+T> = None | Some(value: T)

  /** A fallible value, Rust's `Result`. */
  datatype Result<+T, +E> = Ok(value: T) | Err(error: E)

  /** An opaque error raised by a collaborator (an `anyhow::Error`): it is only ever passed along. */
  datatype Error = Error(message: string)

  /** Rust's `u16`. */
  type u16 = x: int | 0 <= x < 0x1_0000

  /** One byte of a downloaded body. */
  type Byte = x: int | 0 <= x < 0x100

  /** A point in time, in whole seconds since the Unix epoch; time zones only affect how it is written. */
  type Instant = int

  /** An ASCII letter or digit, the alphabet of the `Alphanumeric` distribution of the `rand` crate. */
  predicate IsAsciiAlphanumeric(c: char)
  {
    ('0' <= c <= '9') || ('A' <= c <= 'Z') || ('a' <= c <= 'z')
  }

  /** `s` is exactly `n` ASCII letters and digits. */
  predicate IsAlphanumericOfLength(s: string, n: nat)
  {
    |s| == n && forall i :: 0 <= i < |s| ==> IsAsciiAlphanumeric(s[i])
  }
}
