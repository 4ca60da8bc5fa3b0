/** The number theory behind which ratios a cascade of small factors can reach. */
module Primes {
  import opened Numerics

  predicate Divides(d: nat, n: nat) {
    d > 0 && n % d == 0
  }

  ghost predicate Prime(p: nat) {
    p >= 2 && forall d :: 2 <= d < p ==> !Divides(d, p)
  }

  lemma DividesWitness(d: nat, n: nat, k: nat)
    requires d > 0 && n == k * d
    ensures Divides(d, n) && n / d == k
  {
    DivModUnique(n, d, k, 0);
  }

  lemma DividesTrans(a: nat, b: nat, c: nat)
    requires Divides(a, b) && Divides(b, c)
    ensures Divides(a, c)
  {
    var k, m := b / a, c / b;
    assert b == k * a && c == m * b;
    assert c == (m * k) * a;
    DividesWitness(a, c, m * k);
  }

  lemma DividesDifference(p: nat, a: nat, b: nat)
    requires p > 0 && b <= a && Divides(p, a) && Divides(p, b)
    ensures Divides(p, a - b)
  {
    var k, m := a / p, b / p;
    assert a == k * p && b == m * p;
    assert k >= m by { if k < m { MulMono(k + 1, m, p); } }
    assert a - b == (k - m) * p;
    DividesWitness(p, a - b, k - m);
  }

  lemma DividesMultiple(p: nat, a: nat, k: nat)
    requires Divides(p, a)
    ensures Divides(p, k * a)
  {
    var m := a / p;
    assert a == m * p;
    assert k * a == (k * m) * p;
    DividesWitness(p, k * a, k * m);
  }

  /** A prime larger than f that divides f * r divides r. */
  lemma {:induction false} PrimeDividesCofactor(p: nat, f: nat, r: nat)
    requires Prime(p) && 0 < f < p && Divides(p, f * r)
    ensures Divides(p, r)
    decreases f
  {
    if f == 1 {
      assert f * r == r;
    } else {
      var q, s := p / f, p % f;
      assert !Divides(f, p);
      assert p == q * f + s;
      assert s * r == r * p - q * (f * r);
      assert q * (f * r) <= r * p by { assert s * r >= 0; }
      assert Divides(p, r * p) by { DividesWitness(p, r * p, r); }
      DividesMultiple(p, f * r, q);
      DividesDifference(p, r * p, q * (f * r));
      PrimeDividesCofactor(p, s, r);
    }
  }

  /** Every number above one has a prime divisor: its least. */
  lemma {:induction false} PrimeDivisor(n: nat, d: nat) returns (p: nat)
    requires 2 <= d <= n && forall e :: 2 <= e < d ==> !Divides(e, n)
    ensures Prime(p) && Divides(p, n) && forall e :: 2 <= e < p ==> !Divides(e, n)
    decreases n - d
  {
    if Divides(d, n) {
      p := d;
      forall e | 2 <= e < d
        ensures !Divides(e, d)
      {
        if Divides(e, d) { DividesTrans(e, d, n); }
      }
    } else {
      p := PrimeDivisor(n, d + 1);
    }
  }

  /** No prime factor above 13. */
  ghost predicate Smooth(n: nat) {
    forall p :: Prime(p) && p > 13 ==> !Divides(p, n)
  }

  /** The least divisor above one of a number without a prime factor above 13. */
  lemma LeastDivisor(n: nat) returns (d: nat)
    requires n > 1 && Smooth(n)
    ensures 2 <= d <= 13 && Divides(d, n) && forall e :: 2 <= e < d ==> !Divides(e, n)
  {
    d := PrimeDivisor(n, 2);
  }

  lemma SmoothQuotient(n: nat, f: nat)
    requires Smooth(n) && f > 0 && Divides(f, n) && n > 0
    ensures Smooth(n / f)
  {
    assert f * (n / f) == n;
    forall p | Prime(p) && p > 13
      ensures !Divides(p, n / f)
    {
      if Divides(p, n / f) { DividesMultiple(p, n / f, f); }
    }
  }

  /** Multiplying by a stage factor adds no prime above 13. */
  lemma SmoothProduct(n: nat, f: nat)
    requires 2 <= f <= 16 && Divides(f, n) && Smooth(n / f)
    ensures Smooth(n)
  {
    assert f * (n / f) == n;
    forall p | Prime(p) && p > 13
      ensures !Divides(p, n)
    {
      NoPrimeFrom14To16(p);
      if Divides(p, n) { PrimeDividesCofactor(p, f, n / f); }
    }
  }

  lemma NoPrimeFrom14To16(p: nat)
    requires Prime(p) && p > 13
    ensures p > 16
  {
    assert Divides(2, 14) && Divides(3, 15) && Divides(2, 16);
  }
}
