/**
 * The fixed-width integers of the renderer and the bit arithmetic it does on
 * them. Dafny integers are unbounded, so the widths are subset types and each
 * Rust operator whose meaning differs from Dafny's is written out.
 */
module Primitives {

  newtype u16 = x: int | 0 <= x < 0x1_0000
  newtype u64 = x: int | 0 <= x < 0x1_0000_0000_0000_0000

  const U64_MODULUS: int := 0x1_0000_0000_0000_0000
  const I64_MIN: int := -0x8000_0000_0000_0000
  const I64_MAX: int := 0x7fff_ffff_ffff_ffff

  /** A tile coordinate `(u16, u16)` at the bitmap's storage zoom. */
  type Coord = (u16, u16)

  /** The tiles of a `JourneyBitmap`, by coordinate; `Tile` is its tile type. */
  type Bitmap<Tile> = map<Coord, Tile>

  predicate IsI16(v: int) {
    -0x8000 <= v <= 0x7fff
  }

  predicate IsI64(v: int) {
    I64_MIN <= v <= I64_MAX
  }

  /** `1i64 << k` for a shift that does not overflow. */
  function Pow2(k: nat): (r: int)
    ensures r >= 1
  {
    if k == 0 then 1 else 2 * Pow2(k - 1)
  }

  lemma {:induction false} Pow2Monotone(a: nat, b: nat)
    requires a <= b
    ensures Pow2(a) <= Pow2(b)
  {
    if a < b {
      Pow2Monotone(a, b - 1);
    }
  }

  /**
   * `a >> k` on an i64 is an arithmetic shift: floor division by 2^k. Dafny's
   * `/` with a positive divisor is floor division.
   */
  function Shr(a: int, k: nat): int {
    a / Pow2(k)
  }

  /** Rust's `a % m`: the remainder truncated toward zero, signed like `a`. */
  function TruncRem(a: int, m: int): int
    requires m > 0
  {
    if a >= 0 then a % m else -((-a) % m)
  }

  /** The source's wrap-around idiom `((a % m) + m) % m`, with Rust's `%`. */
  function RustWrap(a: int, m: int): int
    requires m > 0
  {
    TruncRem(TruncRem(a, m) + m, m)
  }

  lemma MulAtLeast(d: int, m: int)
    requires d >= 1 && m > 0
    ensures d * m >= m
  {
    var e := d - 1;
    assert e * m >= 0;
    assert d * m == e * m + m;
  }

  /** The quotient and remainder of `q * m + r` are `q` and `r` when `0 <= r < m`. */
  lemma ModOfDecomposition(a: int, m: int, q: int, r: int)
    requires m > 0 && 0 <= r < m && a == q * m + r
    ensures a / m == q && a % m == r
  {
    var q', r' := a / m, a % m;
    assert (q - q') * m == r' - r;
    if q > q' {
      MulAtLeast(q - q', m);
      assert false;
    } else if q < q' {
      MulAtLeast(q' - q, m);
      assert false;
    }
  }

  /** The source's wrap idiom is Euclidean remainder, which is Dafny's `%`. */
  lemma RustWrapIsEuclidean(a: int, m: int)
    requires m > 0
    ensures RustWrap(a, m) == a % m
    ensures 0 <= RustWrap(a, m) < m
  {
    if a >= 0 {
      ModOfDecomposition(a % m + m, m, 1, a % m);
    } else {
      var q := (-a) % m;
      var k := (-a) / m;
      if q == 0 {
        ModOfDecomposition(m, m, 1, 0);
        ModOfDecomposition(a, m, -k, 0);
      } else {
        ModOfDecomposition(a, m, -k - 1, m - q);
        ModOfDecomposition(m - q, m, 0, m - q);
      }
    }
  }

  /** `u64::wrapping_add(v, 1)`. */
  function WrappingIncrement(v: u64): (r: u64)
    ensures v as int < U64_MODULUS - 1 ==> r as int == v as int + 1
    ensures v as int == U64_MODULUS - 1 ==> r == 0
  {
    ((v as int + 1) % U64_MODULUS) as u64
  }
}
