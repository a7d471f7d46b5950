/**
 * Fixed-width machine integers of the evaluator (`u8`, `u64`, `i64`,
 * `size_t`) as ranges of mathematical integers, with the two's complement
 * casts between signed and unsigned words written out.
 */
module Machine {
  const U64_MODULUS: nat := 0x1_0000_0000_0000_0000
  const I64_MIN: int := -0x8000_0000_0000_0000
  const I64_LIMIT: int := 0x8000_0000_0000_0000

  type u8 = x: int | 0 <= x < 0x100
  type u64 = x: int | 0 <= x < U64_MODULUS
  type i64 = x: int | I64_MIN <= x < I64_LIMIT

  /** The cast `(i64)x`: reinterpret the 64 bits as two's complement. */
  function ToSigned(x: u64): (r: i64)
    ensures r % U64_MODULUS == x
  {
    if x < I64_LIMIT then x else x - U64_MODULUS
  }

  /** The cast `(u64)x` of a signed word. */
  function ToUnsigned(x: i64): (r: u64)
    ensures r % U64_MODULUS == x % U64_MODULUS
    ensures ToSigned(r) == x
  {
    if x >= 0 then x else x + U64_MODULUS
  }

  /** `size_t` addition of a signed offset: the sum taken modulo 2^64. */
  function WrapAdd(base: int, offset: int): (r: u64)
    ensures (r - base - offset) % U64_MODULUS == 0
  {
    (base + offset) % U64_MODULUS
  }

  /** The signed offset `(i64)(target - base)` of a `size_t` difference, taken modulo 2^64. */
  function OffsetTo(base: int, target: int): i64
  {
    ToSigned((target - base) % U64_MODULUS)
  }

  /** An offset taken with `OffsetTo` leads back from `base` to `target`. */
  lemma OffsetRoundTrip(base: int, target: u64)
    ensures WrapAdd(base, OffsetTo(base, target)) == target
  {
    var x := (target - base) % U64_MODULUS;
    var q := (target - base) / U64_MODULUS;
    assert target - base == q * U64_MODULUS + x;
    var s := ToSigned(x);
    assert s == x || s == x - U64_MODULUS;
    assert base + s == target - q * U64_MODULUS || base + s == target - (q + 1) * U64_MODULUS;
  }
}
