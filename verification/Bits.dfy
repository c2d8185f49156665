/** Machine-word helpers shared by the other modules. */
module Bits {

  datatype Option<+T> = None | Some(value: T)

  type Byte = b: int | 0 <= b < 256

  const U16_LIMIT: nat := 0x1_0000
  const U32_LIMIT: nat := 0x1_0000_0000
  const U64_LIMIT: nat := 0x1_0000_0000_0000_0000

  const USIZE_MAX: nat := U64_LIMIT - 1

  function Max(a: nat, b: nat): nat {
    if a < b then b else a
  }

  function Min(a: nat, b: nat): nat {
    if a < b then a else b
  }

  lemma ConcatAssociative<T>(a: seq<T>, b: seq<T>, c: seq<T>)
    ensures a + (b + c) == a + b + c
  {
  }

  function SatAdd(a: nat, b: nat): (r: nat) {
    if a + b <= USIZE_MAX then a + b else USIZE_MAX
  }

  function SatSub(a: nat, b: nat): (r: nat) {
    if a <= b then 0 else a - b
  }

  function Pow2(k: nat): (r: nat)
    ensures r > 0
  {
    if k == 0 then 1 else 2 * Pow2(k - 1)
  }

  /** Bitwise conjunction, bit by bit. */
  function BitAnd(x: nat, y: nat): (r: nat)
    decreases x
  {
    if x == 0 || y == 0 then 0
    else 2 * BitAnd(x / 2, y / 2) + (if x % 2 == 1 && y % 2 == 1 then 1 else 0)
  }

  predicate Bit(x: nat, k: nat) {
    x / Pow2(k) % 2 == 1
  }

  lemma {:induction false} MaskIsModulo(x: nat, k: nat)
    ensures BitAnd(x, Pow2(k) - 1) == x % Pow2(k)
    decreases k
  {
    if k > 0 {
      var half := Pow2(k - 1);
      MaskIsModulo(x / 2, k - 1);
      assert (Pow2(k) - 1) / 2 == half - 1 && (Pow2(k) - 1) % 2 == 1;
      HalfModulo(x, half);
      if x == 0 { assert 0 % Pow2(k) == 0; }
    }
  }

  lemma HalfModulo(x: nat, half: nat)
    requires half > 0
    ensures x % (2 * half) == 2 * (x / 2 % half) + x % 2
  {
    var q, r := x / 2 / half, x / 2 % half;
    assert x / 2 == q * half + r;
    assert x == (2 * half) * q + (2 * r + x % 2) by { assert 2 * (q * half) == (2 * half) * q; }
    ModuloUnique(x, 2 * half, q, 2 * r + x % 2);
  }

  /** A quotient and a remainder in range are the quotient and the remainder. */
  lemma ModuloUnique(x: nat, n: nat, q: nat, r: nat)
    requires n > 0 && r < n && x == n * q + r
    ensures x % n == r && x / n == q
  {
    var d, m := x / n, x % n;
    assert n * d + m == n * q + r && 0 <= m < n;
    SameQuotient(n, d, m, q, r);
  }

  lemma SameQuotient(n: nat, d: nat, m: nat, q: nat, r: nat)
    requires m < n && r < n && n * d + m == n * q + r
    ensures d == q && m == r
  {
    if d < q {
      MulGap(n, d, q);
    } else if q < d {
      MulGap(n, q, d);
    }
  }

  lemma {:induction false} MulGap(n: nat, a: nat, b: nat)
    requires a < b
    ensures n * a + n <= n * b
  {
    assert n * b == n * (b - 1) + n;
    if a + 1 < b {
      MulGap(n, a, b - 1);
    }
  }

  lemma ShiftedModulo(x: nat, i: nat, n: nat)
    requires n > 0 && i <= n
    ensures (x + i) % n == if x % n + i < n then x % n + i else x % n + i - n
  {
    var q, r := x / n, x % n;
    assert x == n * q + r;
    if r + i < n {
      ModuloUnique(x + i, n, q, r + i);
    } else {
      assert n * (q + 1) == n * q + n;
      ModuloUnique(x + i, n, q + 1, r + i - n);
    }
  }

  /** Positions less than one lap apart occupy different slots. */
  lemma DistinctSlots(p: nat, q: nat, n: nat)
    requires p < q < p + n
    ensures p % n != q % n
  {
    ShiftedModulo(p, q - p, n);
  }

  /** Offset of an absolute position in a ring whose size is a power of two. */
  function Mask(position: nat, k: nat): (r: nat)
    ensures r == position % Pow2(k)
  {
    MaskIsModulo(position, k);
    BitAnd(position, Pow2(k) - 1)
  }
}
