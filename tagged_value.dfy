/**
 * Tagged 64-bit values: a 4-bit tag in the low bits and a 60-bit payload
 * above it, read either unsigned or as a sign-extended integer. Masks and
 * shifts are written arithmetically: `v & 0xF` is `v % 16`, `v & ~0xF` is
 * `v - v % 16`, `v >> 4` is `v / 16`, `p << 4` on a 64-bit word is
 * `p * 16 % 2^64`, and `|` of fields that do not overlap is `+`. An
 * arithmetic right shift of a signed word is division rounding down, which
 * is what Dafny's `/` does for a positive divisor.
 */
module TaggedValue {
  import opened Machine

  const TAG_MODULUS: nat := 16
  const PAYLOAD_MODULUS: nat := 0x1000_0000_0000_0000
  const SIGNED_PAYLOAD_LIMIT: int := 0x800_0000_0000_0000

  /** Shift a word left by four bits, dropping what falls off the top. */
  function ShiftedPayload(p: u64): (r: u64)
    ensures r % TAG_MODULUS == 0
  {
    (p * 16) % U64_MODULUS
  }

  /** `_tv_get_tag`: the low four bits. */
  function GetTag(v: u64): (t: u8)
    ensures t < TAG_MODULUS && (v - t) % TAG_MODULUS == 0
  {
    v % 16
  }

  /** `_tv_get_payload_signed`: clear the tag, reinterpret as `i64`, shift right arithmetically. */
  function GetPayloadSigned(v: u64): i64
  {
    ToSigned(v - v % 16) / 16
  }

  /** `_tv_get_payload_unsigned`: shift right logically. */
  function GetPayloadUnsigned(v: u64): (p: u64)
    ensures p < PAYLOAD_MODULUS
  {
    v / 16
  }

  /** `_tv_set_tag`: keep the payload bits, replace the tag by the low four bits of `newTag`. */
  function SetTag(v: u64, newTag: u8): u64
  {
    v - v % 16 + newTag % 16
  }

  /** `_tv_set_payload_signed`: the cast payload shifted into place, with the old tag bits. */
  function SetPayloadSigned(v: u64, payload: i64): u64
  {
    ShiftedPayload(ToUnsigned(payload)) + v % 16
  }

  /** `_tv_set_payload_unsigned`. */
  function SetPayloadUnsigned(v: u64, payload: u64): u64
  {
    ShiftedPayload(payload) + v % 16
  }

  /** `_tv_new_tagged_value_signed`. */
  function NewSigned(tag: u8, payload: i64): u64
  {
    ShiftedPayload(ToUnsigned(payload)) + tag % 16
  }

  /** `_tv_new_tagged_value_unsigned`. */
  function NewUnsigned(tag: u8, payload: u64): u64
  {
    ShiftedPayload(payload) + tag % 16
  }

  /** `BITMAP_SIZE(cap)`: the number of 64-bit words holding `cap` bits. */
  function BitmapSize(cap: nat): (k: nat)
    ensures 64 * k >= cap
    ensures k == 0 || 64 * (k - 1) < cap
  {
    (cap + 63) / 64
  }

  /** Both constructors store the low four bits of the tag. */
  lemma NewTag(tag: u8, signed: i64, unsigned: u64)
    ensures GetTag(NewSigned(tag, signed)) == tag % 16
    ensures GetTag(NewUnsigned(tag, unsigned)) == tag % 16
  {
  }

  /** The unsigned payload reads back modulo 2^60: the top four bits are shifted out. */
  lemma NewUnsignedPayload(tag: u8, payload: u64)
    ensures GetPayloadUnsigned(NewUnsigned(tag, payload)) == payload % PAYLOAD_MODULUS
  {
  }

  /** A signed payload that fits in 60 bits reads back exactly. */
  lemma NewSignedPayload(tag: u8, payload: i64)
    requires -SIGNED_PAYLOAD_LIMIT <= payload < SIGNED_PAYLOAD_LIMIT
    ensures GetPayloadSigned(NewSigned(tag, payload)) == payload
  {
  }

  /** Setting the tag changes only the tag: both payload readings are kept. */
  lemma SetTagKeepsPayload(v: u64, newTag: u8)
    ensures GetTag(SetTag(v, newTag)) == newTag % 16
    ensures GetPayloadUnsigned(SetTag(v, newTag)) == GetPayloadUnsigned(v)
    ensures GetPayloadSigned(SetTag(v, newTag)) == GetPayloadSigned(v)
  {
  }

  /** Setting a payload keeps the tag bits and reads back like a fresh value. */
  lemma SetPayloadKeepsTag(v: u64, signed: i64, unsigned: u64)
    ensures GetTag(SetPayloadSigned(v, signed)) == GetTag(v)
    ensures GetTag(SetPayloadUnsigned(v, unsigned)) == GetTag(v)
    ensures GetPayloadUnsigned(SetPayloadUnsigned(v, unsigned)) == unsigned % PAYLOAD_MODULUS
    ensures -SIGNED_PAYLOAD_LIMIT <= signed < SIGNED_PAYLOAD_LIMIT ==>
      GetPayloadSigned(SetPayloadSigned(v, signed)) == signed
  {
    var tag: u8 := v % 16;
    assert SetPayloadSigned(v, signed) == NewSigned(tag, signed);
    assert SetPayloadUnsigned(v, unsigned) == NewUnsigned(tag, unsigned);
    NewTag(tag, signed, unsigned);
    NewUnsignedPayload(tag, unsigned);
    if -SIGNED_PAYLOAD_LIMIT <= signed < SIGNED_PAYLOAD_LIMIT {
      NewSignedPayload(tag, signed);
    }
  }
}
