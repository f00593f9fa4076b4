/**
  The integer widths of the engine, as a release build treats them: sums and
  products wrap around, `as u64` on a float saturates, `as i64` reinterprets.
 */
module MachineInts {

  const U64_LIMIT: int := 0x1_0000_0000_0000_0000
  const I64_LIMIT: int := 0x8000_0000_0000_0000
  const U128_LIMIT: int := 0x1_0000_0000_0000_0000_0000_0000_0000_0000

  type U64 = n: int | 0 <= n < 0x1_0000_0000_0000_0000
  type U128 = n: int | 0 <= n < 0x1_0000_0000_0000_0000_0000_0000_0000_0000

  function WrapU64(n: int): U64 {
    n % U64_LIMIT
  }

  function WrapU128(n: int): U128 {
    n % U128_LIMIT
  }

  /** Two's complement reading of the low 64 bits. */
  function WrapI64(n: int): int {
    var low := n % U64_LIMIT;
    if low < I64_LIMIT then low else low - U64_LIMIT
  }

  /** Float-to-integer cast: truncates and saturates. */
  function SaturatingU64(r: real): U64 {
    if r <= 0.0 then 0
    else if r.Floor >= U64_LIMIT then U64_LIMIT - 1
    else r.Floor
  }

  lemma FloorIs(v: real, n: int)
    ensures n as real <= v < n as real + 1.0 <==> v.Floor == n
    ensures n as real <= v <==> n <= v.Floor
  {
    if n <= v.Floor {
      assert n as real <= v.Floor as real <= v;
    } else {
      assert v < (v.Floor + 1) as real <= n as real;
    }
    if v.Floor <= n {
      assert v < (v.Floor + 1) as real <= (n + 1) as real;
    } else {
      assert (n + 1) as real <= v.Floor as real <= v;
    }
  }

  /** The largest u64 not above v, or 0 below it. */
  predicate NearestU64(n: int, v: real) {
    if v < 0.0 then n == 0 else n as real <= v && (v < n as real + 1.0 || n == U64_LIMIT - 1)
  }

  lemma CastIsNearest(v: real)
    ensures NearestU64(SaturatingU64(v), v)
  {
    FloorIs(v, v.Floor);
  }

  lemma OneNearest(n: U64, m: U64, v: real)
    requires NearestU64(n, v) && NearestU64(m, v)
    ensures n == m
  {
  }

  /** The cast of a value below n + 1, and of a value from n on. */
  lemma CastOrder(v: real, n: nat)
    requires n < U64_LIMIT - 1
    ensures v < n as real + 1.0 <==> SaturatingU64(v) <= n
    ensures n as real <= v ==> n <= SaturatingU64(v)
  {
    FloorIs(v, n);
    FloorIs(v, n + 1);
  }

  /** The cast never exceeds a whole number its operand does not exceed. */
  lemma CastAtMost(v: real, n: nat)
    requires v <= n as real
    ensures SaturatingU64(v) <= n
  {
    if n < U64_LIMIT - 1 {
      CastOrder(v, n);
    }
  }

  /** Two's complement wrapping changes a number by a multiple of 2^64, into the range of an i64. */
  lemma WrapI64Shift(n: int) returns (k: int)
    ensures WrapI64(n) == n + k * U64_LIMIT
    ensures InI64(WrapI64(n))
  {
    k := -(n / U64_LIMIT) - if n % U64_LIMIT < I64_LIMIT then 0 else 1;
    assert n == n / U64_LIMIT * U64_LIMIT + n % U64_LIMIT;
  }

  predicate InI64(n: int) {
    -I64_LIMIT <= n < I64_LIMIT
  }

  /** The i64 that agrees with v in the low 64 bits. */
  predicate IsI64Of(n: int, v: int) {
    -0x8000_0000_0000_0000 <= n < 0x8000_0000_0000_0000 && (n - v) % 0x1_0000_0000_0000_0000 == 0
  }

  lemma WrapIsI64(v: int)
    ensures IsI64Of(WrapI64(v), v)
  {
    var k := WrapI64Shift(v);
    assert k * U64_LIMIT % U64_LIMIT == 0;
  }

  lemma OneI64(n: int, m: int, v: int)
    requires IsI64Of(n, v) && IsI64Of(m, v)
    ensures n == m
  {
    assert (n - m) % U64_LIMIT == 0;
  }

  lemma WrapI64IsExactIff(n: int)
    ensures WrapI64(n) == n <==> InI64(n)
  {
    var k := WrapI64Shift(n);
  }

  /** Wrapping a wrapped part first makes no difference. */
  lemma WrapI64Again(n: int, d: int)
    ensures WrapI64(WrapI64(n) + d) == WrapI64(n + d)
  {
    var k := WrapI64Shift(n);
    var i := WrapI64Shift(WrapI64(n) + d);
    var j := WrapI64Shift(n + d);
    assert WrapI64(WrapI64(n) + d) - WrapI64(n + d) == (k + i - j) * U64_LIMIT;
  }

  lemma WrapI64Less(n: int, d: int)
    ensures WrapI64(d - WrapI64(n)) == WrapI64(d - n)
  {
    var k := WrapI64Shift(n);
    var i := WrapI64Shift(d - WrapI64(n));
    var j := WrapI64Shift(d - n);
    assert WrapI64(d - WrapI64(n)) - WrapI64(d - n) == (i - j - k) * U64_LIMIT;
  }

  lemma CastMonotone(v: real, w: real)
    requires v <= w
    ensures SaturatingU64(v) <= SaturatingU64(w)
  {
    FloorIs(w, v.Floor);
  }

  /** A loss reads as no gain exactly when it is at most 2^63 modulo 2^64. */
  lemma LossWraps(loss: nat)
    ensures WrapI64(0 - loss) <= 0 <==> loss % U64_LIMIT <= I64_LIMIT
  {
    var q := loss / U64_LIMIT;
    assert loss == q * U64_LIMIT + loss % U64_LIMIT;
    var k := WrapI64Shift(0 - loss);
  }

  lemma ModPlus(n: nat, d: nat)
    requires n % U64_LIMIT + d < U64_LIMIT
    ensures (n + d) % U64_LIMIT == n % U64_LIMIT + d
  {
  }
}
