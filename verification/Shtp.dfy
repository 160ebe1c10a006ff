/** Sizes and limits of the sensor hub transport (shtp.c, sh2_hal.h, bno08x.cpp). */
module Shtp {
  import opened Bytes

  const HDR_LEN := 4
  const MAX_CHANS := 8
  const MAX_PAYLOAD_IN := 384
  const MAX_TRANSFER_IN := 384
  const MAX_PAYLOAD_OUT := 256
  const MAX_TRANSFER_OUT := 256
  const HAL_BUFFER := 256          // _maxBufferSize

  /** A length with the header taken off, in 16-bit arithmetic. Less the header, a transfer
      limit is the largest piece, so a limit below the header's length is no limit at all. */
  function LessHeader(x: u16): u16 {
    if x >= HDR_LEN then x - HDR_LEN else x + 0x1_0000 - HDR_LEN
  }

  /** Every transfer of n bytes of payload fits the out buffer. */
  predicate FitsBuffer(n: nat, outMaxTransfer: u16) {
    Min(n, LessHeader(outMaxTransfer)) + HDR_LEN <= MAX_TRANSFER_OUT
  }

  /** Only a limit below the header's length can make a transfer too long, and only for more
      than 252 bytes. */
  lemma FitsBufferIff(n: nat, outMaxTransfer: u16)
    requires outMaxTransfer <= MAX_TRANSFER_OUT
    ensures FitsBuffer(n, outMaxTransfer) <==> outMaxTransfer >= HDR_LEN || n <= MAX_TRANSFER_OUT - HDR_LEN
  {
  }
}
