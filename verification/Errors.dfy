/** Error codes: 0 for success, and a value of the 0xff...... range read as a signed 32-bit int. */
module Errors {
  function Code(category: nat, code: nat): int { 0xff00_0000 + category * 0x1_0000 + code - 0x1_0000_0000 }

  const SUCCESS := 0
  const E_GENERAL := Code(0x01, 0x01)
  const E_BADARG := Code(0x01, 0x02)
  const E_FORMAT := Code(0x01, 0x03)
  const E_INSUFFICIENT := Code(0x01, 0x0c)
  const E_RANGE := Code(0x01, 0x12)
  const E_CRYPTO := Code(0x04, 0x01)
}
