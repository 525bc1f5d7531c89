/** Machine integers, options and the blank-string predicate shared by every module. */
module Base {

  const U32_MAX: int := 0xFFFF_FFFF
  const U64_MAX: int := 0xFFFF_FFFF_FFFF_FFFF

  type Byte = x: int | 0 <= x <= 0xFF
  type U32 = x: int | 0 <= x <= 0xFFFF_FFFF
  type U64 = x: int | 0 <= x <= 0xFFFF_FFFF_FFFF_FFFF
  type U128 = x: int | 0 <= x <= 0xFFFF_FFFF_FFFF_FFFF_FFFF_FFFF_FFFF_FFFF

  datatype Option<+T> = None | Some(value: T)

  /** `checked_add(1)`: the next identity, or None at the end of the space. */
  function Next(x: U64): (r: Option<U64>)
    ensures r.Some? <==> x < U64_MAX
    ensures r.Some? ==> r.value == x + 1
  {
    if x < U64_MAX then Some(x + 1) else None
  }

  function Max(x: U64, y: U64): (r: U64)
    ensures x <= r && y <= r && (r == x || r == y)
  {
    if x < y then y else x
  }

  /** The Unicode White_Space property, which `str::trim` strips. */
  predicate IsWhiteSpace(c: char) {
    || '\t' <= c <= '\r'
    || c == ' '
    || c == '\U{0085}'
    || c == '\U{00A0}'
    || c == '\U{1680}'
    || '\U{2000}' <= c <= '\U{200A}'
    || c == '\U{2028}'
    || c == '\U{2029}'
    || c == '\U{202F}'
    || c == '\U{205F}'
    || c == '\U{3000}'
  }

  /** `s.trim().is_empty()` */
  predicate IsBlank(s: string) {
    forall i | 0 <= i < |s| :: IsWhiteSpace(s[i])
  }
}
