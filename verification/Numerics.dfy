/** Shared vocabulary: optional values and results, finite sums of reals, powers of two and
    the few division facts the models need. */
module Numerics {

  datatype Option<+T> = None | Some(value: T)

  datatype Result<+T, +E> = Ok(value: T) | Err(error: E)

  /** What a step emitted, as a sequence of at most one. */
  function Emitted<T>(o: Option<T>): seq<T> {
    if o.Some? then [o.value] else []
  }

  const U32_MAX: nat := 0xFFFF_FFFF
  const U64_MAX: nat := 0xFFFF_FFFF_FFFF_FFFF

  // ---------- finite sums ----------

  /** f(0) + f(1) + ... + f(n-1), accumulated in the order a loop would. */
  ghost function Sum(f: int -> real, n: nat): real {
    if n == 0 then 0.0 else Sum(f, n - 1) + f(n - 1)
  }

  /** Sequence element, or zero outside the sequence: a signal that is silent
      before its start and after its end. */
  function At(s: seq<real>, n: int): real {
    if 0 <= n < |s| then s[n] else 0.0
  }

  /** A product, named so that proofs may treat it as a symbol. */
  function Times(a: real, b: real): real {
    a * b
  }

  lemma TimesSub(a: real, b: real, c: real)
    ensures Times(a - b, c) == Times(a, c) - Times(b, c)
    ensures Times(1.0, c) == c
  {
  }

  lemma RealProduct(a: int, b: int)
    ensures (a * b) as real == Times(a as real, b as real)
  {
  }

  lemma MulPositive(a: real, b: real)
    requires a > 0.0 && b > 0.0
    ensures a * b > 0.0 && Times(a, b) > 0.0
  {
  }

  lemma MulNonnegative(a: real, b: real)
    requires a >= 0.0 && b >= 0.0
    ensures a * b >= 0.0 && Times(a, b) >= 0.0
  {
  }

  ghost function Entries(s: seq<real>): int -> real {
    n => At(s, n)
  }

  ghost function Total(s: seq<real>): real {
    Sum(Entries(s), |s|)
  }

  lemma {:induction false} SumEq(f: int -> real, g: int -> real, n: nat)
    requires forall k :: 0 <= k < n ==> f(k) == g(k)
    ensures Sum(f, n) == Sum(g, n)
  {
    if n > 0 { SumEq(f, g, n - 1); }
  }

  lemma {:induction false} SumZero(f: int -> real, n: nat)
    requires forall k :: 0 <= k < n ==> f(k) == 0.0
    ensures Sum(f, n) == 0.0
  {
    if n > 0 { SumZero(f, n - 1); }
  }

  lemma {:induction false} SumScale(f: int -> real, g: int -> real, c: real, n: nat)
    requires forall k :: 0 <= k < n ==> g(k) == c * f(k)
    ensures Sum(g, n) == c * Sum(f, n)
  {
    if n > 0 {
      SumScale(f, g, c, n - 1);
      assert c * (Sum(f, n - 1) + f(n - 1)) == c * Sum(f, n - 1) + c * f(n - 1);
    }
  }

  lemma {:induction false} SumAdd(f: int -> real, g: int -> real, h: int -> real, n: nat)
    requires forall k :: 0 <= k < n ==> h(k) == f(k) + g(k)
    ensures Sum(h, n) == Sum(f, n) + Sum(g, n)
  {
    if n > 0 { SumAdd(f, g, h, n - 1); }
  }

  /** A sum may be extended over terms that vanish. */
  lemma {:induction false} SumExtend(f: int -> real, m: nat, n: nat)
    requires m <= n
    requires forall k :: m <= k < n ==> f(k) == 0.0
    ensures Sum(f, n) == Sum(f, m)
  {
    if m < n { SumExtend(f, m, n - 1); }
  }

  /** Dropping s leading terms that vanish renumbers the rest. */
  lemma {:induction false} SumShift(f: int -> real, g: int -> real, s: nat, n: nat)
    requires s <= n
    requires forall k :: 0 <= k < s ==> f(k) == 0.0
    requires forall k :: 0 <= k < n - s ==> g(k) == f(k + s)
    ensures Sum(f, n) == Sum(g, n - s)
  {
    if s == n {
      SumZero(f, n);
    } else {
      SumShift(f, g, s, n - 1);
      assert g(n - 1 - s) == f(n - 1);
    }
  }

  ghost function Row(f: (int, int) -> real, i: int): int -> real {
    j => f(i, j)
  }

  ghost function Column(f: (int, int) -> real, j: int): int -> real {
    i => f(i, j)
  }

  ghost function RowSums(f: (int, int) -> real, n: nat): int -> real {
    i => Sum(Row(f, i), n)
  }

  ghost function ColumnSums(f: (int, int) -> real, m: nat): int -> real {
    j => Sum(Column(f, j), m)
  }

  /** A rectangular table has one total, row by row or column by column. */
  lemma {:induction false} SumSwap(f: (int, int) -> real, m: nat, n: nat)
    ensures Sum(RowSums(f, n), m) == Sum(ColumnSums(f, m), n)
  {
    if m == 0 {
      SumZero(ColumnSums(f, 0), n);
    } else {
      SumSwap(f, m - 1, n);
      SumAdd(ColumnSums(f, m - 1), Row(f, m - 1), ColumnSums(f, m), n);
    }
  }

  // ---------- powers of two ----------

  function Pow2(n: nat): (p: nat)
    ensures p >= 1
  {
    if n == 0 then 1 else 2 * Pow2(n - 1)
  }

  lemma Pow2Twice(n: nat)
    requires n > 0
    ensures Pow2(n) == 2 * Pow2(n - 1)
  {
  }

  lemma {:induction false} Pow2Add(a: nat, b: nat)
    ensures Pow2(a + b) == Pow2(a) * Pow2(b)
  {
    if a > 0 {
      Pow2Add(a - 1, b);
      assert Pow2(a) * Pow2(b) == 2 * (Pow2(a - 1) * Pow2(b));
    }
  }

  // ---------- division ----------

  function Quotient(a: nat, d: nat): nat
    requires d > 0
  {
    a / d
  }

  function Remainder(a: nat, d: nat): nat
    requires d > 0
  {
    a % d
  }

  /** The quotient and remainder are the only pair that rebuild x. */
  lemma DivModUnique(x: int, d: int, q: int, r: int)
    requires 0 <= r < d && x == q * d + r
    ensures x / d == q && x % d == r
  {
    var q', r' := x / d, x % d;
    assert x == q' * d + r';
    assert (q - q') * d == r' - r;
    if q > q' {
      MulMono(1, q - q', d);
    } else if q < q' {
      MulMono(1, q' - q, d);
    }
  }

  lemma MulMono(a: int, b: int, c: int)
    requires a <= b && 0 <= c
    ensures a * c <= b * c
  {
    assert (b - a) * c >= 0;
  }

  lemma DivMono(a: int, b: int, d: int)
    requires a <= b && 0 < d
    ensures a / d <= b / d
  {
    if a / d > b / d {
      MulMono(b / d + 1, a / d, d);
    }
  }

  lemma DivAddMultiple(a: int, k: int, d: int)
    requires 0 < d
    ensures (a + k * d) / d == a / d + k
    ensures (a + k * d) % d == a % d
  {
    assert (a / d + k) * d == (a / d) * d + k * d;
    DivModUnique(a + k * d, d, a / d + k, a % d);
  }

  /** Dividing in two steps is dividing once by the product. */
  lemma DivDiv(x: nat, a: nat, b: nat)
    requires 0 < a && 0 < b
    ensures 0 < a * b
    ensures (x / a) / b == x / (a * b)
  {
    var q := x / a;
    var r := x % a;
    assert a * b > 0 by { MulMono(1, b, a); }
    assert x == ((q / b) * b + q % b) * a + r;
    assert ((q / b) * b + q % b) * a == (q / b) * (a * b) + (q % b) * a;
    assert (q % b) * a + r < a * b by {
      MulMono(q % b + 1, b, a);
      assert (q % b + 1) * a == (q % b) * a + a;
    }
    assert (q % b) * a >= 0;
    DivModUnique(x, a * b, q / b, (q % b) * a + r);
  }

  function CeilDiv(a: nat, d: nat): (c: nat)
    requires 0 < d
  {
    (a + d - 1) / d
  }

  /** Rounding to the nearest integer, halves away from zero. */
  function Round(x: real): int {
    if x >= 0.0 then (x + 0.5).Floor else -((-x + 0.5).Floor)
  }

  /** That is the only integer within a half, or of the two at a half the one
      farther from zero. */
  lemma RoundExactly(x: real, n: int)
    ensures Round(x) == n <==>
      || -0.5 < n as real - x < 0.5
      || (x > 0.0 && n as real - x == 0.5)
      || (x < 0.0 && n as real - x == -0.5)
  {
    var k := Round(x);
    if x >= 0.0 {
      assert k as real <= x + 0.5 < k as real + 1.0;
    } else {
      assert -(k as real) <= -x + 0.5 < -(k as real) + 1.0;
    }
    if n < k { assert n as real <= k as real - 1.0; }
    if n > k { assert n as real >= k as real + 1.0; }
  }

  function Min(a: int, b: int): int {
    if a < b then a else b
  }
}
