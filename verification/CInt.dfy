/** The C++ int: 32 bits, division toward zero, and the wrap-around of two's complement hardware. */
module CInt {
  const INT_MAX := 0x7fff_ffff

  predicate IsInt(v: int) { -INT_MAX - 1 <= v <= INT_MAX }

  /** The low 32 bits of v as a signed number. */
  function Wrap(v: int): (w: int)
    ensures IsInt(w) && (w == v <==> IsInt(v))
  {
    (v + INT_MAX + 1) % 0x1_0000_0000 - INT_MAX - 1
  }

  lemma WrapOnce(v: int)
    requires -2 * INT_MAX <= v <= 2 * INT_MAX
    ensures Wrap(v) == if v > INT_MAX then v - 0x1_0000_0000 else if v < -INT_MAX - 1 then v + 0x1_0000_0000 else v
  {
  }

  function Quotient(a: int, b: int): int
    requires b > 0
  {
    if a >= 0 then a / b else -(-a / b)
  }
}
