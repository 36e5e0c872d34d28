/**
 The integer arithmetic shared by the firmware's files: fixed-width types and
 C++ division.
 */
module Units {

  /** C++ `uint32_t`. */
  type uint32 = n: int | 0 <= n < 0x1_0000_0000

  const UINT32_SPAN: int := 0x1_0000_0000
  const INT64_MAX: int := 0x7fff_ffff_ffff_ffff

  /** A value an `int64_t` can hold. */
  predicate FitsInt64(n: int) {
    -INT64_MAX - 1 <= n <= INT64_MAX
  }

  /** `static_cast<uint32_t>`: reduction modulo 2^32. */
  function ToUint32(n: int): uint32 {
    n % UINT32_SPAN
  }

  /** C++ `/`, which truncates toward zero; Dafny's `/` rounds a negative dividend down. */
  function TruncDiv(a: int, b: int): int
    requires 0 < b
  {
    if 0 <= a then a / b else -((-a) / b)
  }

  function Abs(n: int): nat {
    if n < 0 then -n else n
  }

  function Max(a: int, b: int): int {
    if a < b then b else a
  }

  function Min(a: int, b: int): int {
    if a < b then a else b
  }

  /** Multiplying by a natural number keeps an inequality. */
  lemma MulKeepsOrder(a: int, b: int, k: nat)
    requires a <= b
    ensures a * k <= b * k
  {
  }

  /** Quotient and remainder are determined by the division equation. */
  lemma QuotientIs(n: int, d: int, q: int, r: int)
    requires n == d * q + r && 0 <= r < d
    ensures n / d == q && n % d == r
  {
    var p := n / d;
    assert n == d * p + n % d;
    if p < q {
      MulKeepsOrder(p + 1, q, d);
    } else if p > q {
      MulKeepsOrder(q + 1, p, d);
    }
  }

  /** Counting on by one. */
  lemma NextPlace(n: nat, d: nat, q: int, r: int)
    requires 0 < d && q == n / d && r == n % d
    ensures 0 <= r < d
    ensures if r + 1 == d then (n + 1) / d == q + 1 && (n + 1) % d == 0 else (n + 1) / d == q && (n + 1) % d == r + 1
  {
    assert n == d * q + r;
    if r + 1 == d {
      assert d * (q + 1) == d * q + d;
      QuotientIs(n + 1, d, q + 1, 0);
    } else {
      QuotientIs(n + 1, d, q, r + 1);
    }
  }
}

/** Datatypes shared by several components. */
module Shared {
  datatype Option<+T> = None | Some(value: T)

  /** One set of readings as the meter hands them to the clusters. */
  datatype Readings = Readings(powerMw: int, voltageMv: int, currentMa: int)
}
