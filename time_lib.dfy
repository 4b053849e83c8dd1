/**
 * The part of Go's `time` package that the command line parser uses:
 * the `Duration` type, the `Second` constant and the shape of
 * `time.ParseDuration`. The parser itself is library code and is not
 * modelled; callers receive it as a function value.
 */
module TimeLib {
  import opened Wrappers

  /** A Go `time.Duration`: a signed 64-bit count of nanoseconds. */
  newtype Duration = n: int | -0x8000_0000_0000_0000 <= n < 0x8000_0000_0000_0000

  /** `time.Second`. */
  const Second: Duration := 1_000_000_000

  /**
   * What `time.ParseDuration` returns: a duration together with an error,
   * `None` standing for Go's `nil`.
   */
  datatype ParseResult = ParseResult(value: Duration, err: Option<string>)

  /** The signature of `time.ParseDuration`. */
  type DurationParser = string -> ParseResult
}
