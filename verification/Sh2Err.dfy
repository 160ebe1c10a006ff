/** Error codes (sh2_err.h). */
module Sh2Err {
  const SH2_OK := 0
  const SH2_ERR := -1
  const SH2_ERR_BAD_PARAM := -2
  const SH2_ERR_OP_IN_PROGRESS := -3
  const SH2_ERR_IO := -4
  const SH2_ERR_HUB := -5
  const SH2_ERR_TIMEOUT := -6
}
