/** Shared result types, bounded integers and saturating arithmetic. */
module Machine {

  datatype Option<+T> = None | Some(value: T)

  datatype Result<+T, +E> = Ok(value: T) | Err(error: E)

  const I32_MIN: int := -0x8000_0000
  const I32_MAX: int := 0x7FFF_FFFF
  const U16_MAX: int := 0xFFFF
  const U32_MAX: int := 0xFFFF_FFFF
  const I64_MIN: int := -0x8000_0000_0000_0000
  const I64_MAX: int := 0x7FFF_FFFF_FFFF_FFFF
  const U64_MAX: int := 0xFFFF_FFFF_FFFF_FFFF

  type i32 = x: int | I32_MIN <= x <= I32_MAX
  type i64 = x: int | I64_MIN <= x <= I64_MAX
  type u16 = x: int | 0 <= x <= U16_MAX
  type u32 = x: int | 0 <= x <= U32_MAX
  type u64 = x: int | 0 <= x <= U64_MAX

  function Clamp(lo: int, hi: int, x: int): int
  {
    if x < lo then lo else if x > hi then hi else x
  }

  function Min(a: int, b: int): int
  {
    if a <= b then a else b
  }

  /** `i32::saturating_add`. */
  function SatAddI32(a: i32, b: i32): i32
  {
    Clamp(I32_MIN, I32_MAX, a + b)
  }

  /** `i64::saturating_add`. */
  function SatAddI64(a: int, b: int): i64
  {
    Clamp(I64_MIN, I64_MAX, a + b)
  }

  /** `i64::saturating_mul`. */
  function SatMulI64(a: int, b: int): i64
  {
    Clamp(I64_MIN, I64_MAX, a * b)
  }

  /** `u64::saturating_add` with a non-negative increment. */
  function SatAddU64(a: u64, b: nat): u64
  {
    Min(U64_MAX, a + b)
  }

  /** Rust's `/` on signed integers, which truncates toward zero. */
  function TruncDiv(a: int, b: int): int
    requires b > 0
  {
    if a >= 0 then a / b else -((-a) / b)
  }

  /** Rust's `%` on signed integers: the remainder takes the sign of the dividend. */
  function TruncRem(a: int, b: int): int
    requires b > 0
  {
    a - TruncDiv(a, b) * b
  }

  /** `BTreeMap::get`. */
  function Get<K, V>(m: map<K, V>, k: K): Option<V>
  {
    if k in m then Some(m[k]) else None
  }

  // Division facts the solver needs spelled out.

  lemma {:induction false} MultipleAtLeast(k: int, d: int)
    requires d > 0 && k >= 1
    ensures k * d >= d
    decreases k
  {
    if k > 1 {
      MultipleAtLeast(k - 1, d);
      assert k * d == (k - 1) * d + d;
    }
  }

  lemma MultipleBelow(k: int, d: int)
    requires d > 0 && -d < k * d < d
    ensures k == 0
  {
    if k > 0 {
      MultipleAtLeast(k, d);
    } else if k < 0 {
      MultipleAtLeast(-k, d);
    }
  }

  lemma QuotientIs(x: int, d: int, q: int)
    requires d > 0 && d * q <= x < d * q + d
    ensures x / d == q
  {
    assert (x / d - q) * d == x - x % d - d * q;
    MultipleBelow(x / d - q, d);
  }

  lemma RemainderIs(x: int, d: int, q: int, r: int)
    requires d > 0 && x == d * q + r && 0 <= r < d
    ensures x % d == r
  {
    QuotientIs(x, d, q);
    assert x == d * (x / d) + x % d;
  }
}
