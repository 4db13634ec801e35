/** Fixed-width machine integers, checked arithmetic and the failure types shared by every model. */
module Machine {

  type byte = x: int | 0 <= x < 0x100
  type u16 = x: int | 0 <= x < 0x1_0000
  type u32 = x: int | 0 <= x < 0x1_0000_0000
  type u64 = x: int | 0 <= x < 0x1_0000_0000_0000_0000
  type i16 = x: int | -0x8000 <= x < 0x8000

  const U16_MAX: int := 0xFFFF
  const U32_MAX: int := 0xFFFF_FFFF
  const U64_MAX: int := 0xFFFF_FFFF_FFFF_FFFF
  const I16_MAX: int := 0x7FFF

  datatype Option<+T> = None | Some(value: T)

  datatype Result<+T, +E> = Ok(value: T) | Err(error: E)

  /** Target pointer width. The device is 32-bit ARM, the host 64-bit; nothing else is supported. */
  datatype Target = Bits32 | Bits64
  {
    function UsizeMax(): nat {
      match this
      case Bits32 => 0xFFFF_FFFF
      case Bits64 => 0xFFFF_FFFF_FFFF_FFFF
    }

    function IsizeMax(): nat {
      match this
      case Bits32 => 0x7FFF_FFFF
      case Bits64 => 0x7FFF_FFFF_FFFF_FFFF
    }
  }

  /** `a.checked_add(b)` for an unsigned type whose largest value is `max`. */
  function CheckedAdd(a: nat, b: nat, max: nat): Option<nat> {
    if a + b <= max then Some(a + b) else None
  }

  /** `a.checked_mul(b)` for an unsigned type whose largest value is `max`. */
  function CheckedMul(a: nat, b: nat, max: nat): Option<nat> {
    if a * b <= max then Some(a * b) else None
  }

  function Min(a: int, b: int): int {
    if a <= b then a else b
  }

  function Max(a: int, b: int): int {
    if a <= b then b else a
  }

  /** `a.saturating_sub(b)`. */
  function SaturatingSub(a: nat, b: nat): nat {
    if a <= b then 0 else a - b
  }

  /** `a.div_ceil(b)`. */
  function DivCeil(a: nat, b: nat): nat
    requires b > 0
  {
    (a + b - 1) / b
  }
}
