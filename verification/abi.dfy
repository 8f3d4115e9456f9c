/** The frozen VerifiedIngressV1 vocabulary shared by every layer: integer widths, byte strings,
    instants, the error values of go/ingress.go and the fixed limits of the contract. */
module Abi {
  type byte = b: int | 0 <= b < 0x100
  type Bytes = seq<byte>
  type uint64 = n: int | 0 <= n < 0x1_0000_0000_0000_0000
  type int64 = n: int | -0x8000_0000_0000_0000 <= n < 0x8000_0000_0000_0000
  type int32 = n: int | -0x8000_0000 <= n < 0x8000_0000

  const CORRELATION_BYTES: nat := 16
  const MIN_FRAME_BYTES: nat := 1
  const MAX_FRAME_BYTES: nat := 4096
  const VERIFIED_INGRESS_VERSION: nat := 1

  type Correlation = c: Bytes | |c| == CORRELATION_BYTES witness [0, 0, 0, 0, 0, 0, 0, 0, 0, 0, 0, 0, 0, 0, 0, 0]
  const ZERO_CORRELATION: Correlation := [0, 0, 0, 0, 0, 0, 0, 0, 0, 0, 0, 0, 0, 0, 0, 0]

  datatype IngressError =
    | AbiMismatch
    | AuthenticationFailed
    | Closed
    | Duplicate
    | BadFrame
    | StaleGeneration
    | BadLifetime
    | Mismatch
    | Overflow
    | Rejected
    | BadSequence

  /** Go's `error` result: nil or one of the values above. */
  datatype Status = Accepted | Refused(error: IngressError)

  datatype Result<+T> = Ok(value: T) | Err(error: IngressError)

  datatype Option<+T> = None | Some(value: T)

  // Return codes of the native assignment entry point.
  const ASSIGNMENT_OK: int32 := 0
  const ASSIGNMENT_UNKNOWN_OR_CLOSED_HANDLE: int32 := -1
  const ASSIGNMENT_DUPLICATE: int32 := -2
  const ASSIGNMENT_INVALID_OR_EXPIRED_TIME: int32 := -3
  const ASSIGNMENT_WRONG_CONNECTION_STATE: int32 := -4
  const ASSIGNMENT_TRANSPORT_FAILURE: int32 := -0x8000_0000

  // ---------------------------------------------------------------- time

  const NANOS_PER_MILLI: nat := 1_000_000
  const MAX_INGRESS_LIFETIME: nat := 5_000_000_000
  const HANDLE_TTL: nat := 60_000_000_000

  /** An instant, in nanoseconds since the Unix epoch, whose millisecond value fits an int64
      (outside that range Go leaves the result of UnixMilli undefined). */
  type Time = t: int |
      -0x8000_0000_0000_0000 * 1_000_000 <= t < 0x8000_0000_0000_0000 * 1_000_000

  /** time.Time.Sub: the difference, saturated to the int64 range of time.Duration. */
  function Sub(a: Time, b: Time): int64 {
    if a - b > 0x7fff_ffff_ffff_ffff then 0x7fff_ffff_ffff_ffff
    else if a - b < -0x8000_0000_0000_0000 then -0x8000_0000_0000_0000
    else a - b
  }

  /** time.Time.UnixMilli: milliseconds since the epoch, rounded towards the past. */
  function UnixMilli(t: Time): (ms: int64)
    ensures ms * NANOS_PER_MILLI <= t < (ms + 1) * NANOS_PER_MILLI
  {
    t / NANOS_PER_MILLI
  }

  function FromUnixMilli(ms: int64): (t: Time)
    ensures UnixMilli(t) == ms
  {
    ms * NANOS_PER_MILLI
  }

  /** The conversion uint64(x) of a signed value: two's complement. */
  function ToUnsigned(n: int64): (u: uint64)
    ensures u == n || u == n + 0x1_0000_0000_0000_0000
  {
    if n < 0 then n + 0x1_0000_0000_0000_0000 else n
  }

  /** The conversion int64(x) of an unsigned value: two's complement. */
  function ToSigned(n: uint64): (s: int64)
    ensures ToUnsigned(s) == n
  {
    if n < 0x8000_0000_0000_0000 then n else n - 0x1_0000_0000_0000_0000
  }

  /** The lifetime test of assign and deliver. Saturation of the difference never lets a longer
      lifetime through. */
  predicate LiveAt(expiresAt: Time, now: Time): (live: bool)
    ensures live <==> now < expiresAt <= now + 5_000_000_000
  {
    expiresAt > now && Sub(expiresAt, now) <= MAX_INGRESS_LIFETIME
  }
}
