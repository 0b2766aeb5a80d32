/** Shared vocabulary: optional values, bytes, C integer widths, and what a transport reports back. */
module Prelude {

  datatype Option<+T> = None | Some(value: T)

  /** One octet on a wire or in flash. */
  type Byte = x: int | 0 <= x < 256

  type Bytes = seq<Byte>

  /** An unsigned 32-bit number. */
  type UInt32 = x: int | 0 <= x <= 0xFFFF_FFFF

  const UINT8_MODULUS: int := 0x100
  const UINT16_MAX: int := 0xFFFF
  const UINT32_MAX: int := 0xFFFF_FFFF
  const UINT32_MODULUS: int := 0x1_0000_0000
  const UINT64_MODULUS: int := 0x1_0000_0000_0000_0000

  /** Bytes `sentry_flush()` and the batch writers have room for. */
  const ENVELOPE_BUFFER_BYTES: nat := 2048

  /** What a delivery attempt came to. */
  datatype SendResult = OK | UNAVAILABLE | REJECTED | RATE_LIMITED | ERROR

  datatype Response = Response(result: SendResult, httpStatus: nat, retryAfterMs: nat)

  function ResponseMake(result: SendResult): Response {
    Response(result, 0, 0)
  }

  /** Ingest understood a REJECTED request and will never take it; everything else may work later. */
  predicate WorthRetrying(result: SendResult) {
    result == UNAVAILABLE || result == ERROR || result == RATE_LIMITED
  }
}
