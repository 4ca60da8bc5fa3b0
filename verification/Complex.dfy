/** Complex arithmetic over exact reals, and the trigonometry the transforms
    assume. */
module Complex {

  datatype C = C(re: real, im: real)

  const ZERO: C := C(0.0, 0.0)
  const ONE: C := C(1.0, 0.0)

  function Add(a: C, b: C): C { C(a.re + b.re, a.im + b.im) }

  function Sub(a: C, b: C): C { C(a.re - b.re, a.im - b.im) }

  function Mul(a: C, b: C): C {
    C(a.re * b.re - a.im * b.im, a.re * b.im + a.im * b.re)
  }

  function Neg(a: C): C { C(-a.re, -a.im) }

  ghost function Pow(z: C, n: nat): C {
    if n == 0 then ONE else Mul(Pow(z, n - 1), z)
  }

  lemma MulComm(a: C, b: C)
    ensures Mul(a, b) == Mul(b, a)
  {
  }

  lemma MulAssoc(a: C, b: C, c: C)
    ensures Mul(Mul(a, b), c) == Mul(a, Mul(b, c))
  {
  }

  lemma MulAdd(a: C, b: C, c: C)
    ensures Mul(a, Add(b, c)) == Add(Mul(a, b), Mul(a, c))
  {
  }

  lemma MulOne(a: C)
    ensures Mul(a, ONE) == a && Mul(ONE, a) == a
  {
  }

  lemma MulZero(a: C)
    ensures Mul(a, ZERO) == ZERO && Mul(ZERO, a) == ZERO
    ensures Add(ZERO, a) == a && Add(a, ZERO) == a
  {
  }

  lemma MulNeg(a: C, b: C)
    ensures Mul(Neg(a), b) == Neg(Mul(a, b)) == Mul(a, Neg(b))
    ensures Add(a, Neg(b)) == Sub(a, b)
    ensures Neg(Neg(a)) == a
  {
    hide Mul;
    MulNegLeft(a, b);
    MulNegLeft(b, a);
    MulComm(a, b);
    MulComm(a, Neg(b));
  }

  lemma MulNegLeft(a: C, b: C)
    ensures Mul(Neg(a), b) == Neg(Mul(a, b))
  {
    NegProduct(a.re, b.re);
    NegProduct(a.im, b.im);
    NegProduct(a.re, b.im);
    NegProduct(a.im, b.re);
  }

  lemma NegProduct(x: real, y: real)
    ensures (-x) * y == -(x * y)
  {
  }

  lemma {:induction false} PowOne(n: nat)
    ensures Pow(ONE, n) == ONE
  {
    hide Mul;
    if n > 0 {
      PowOne(n - 1);
      MulOne(ONE);
    }
  }

  lemma {:induction false} PowAdd(z: C, m: nat, n: nat)
    ensures Pow(z, m + n) == Mul(Pow(z, m), Pow(z, n))
  {
    hide Mul;
    MulOne(Pow(z, m));
    if n > 0 {
      PowAdd(z, m, n - 1);
      MulAssoc(Pow(z, m), Pow(z, n - 1), z);
    }
  }

  lemma {:induction false} PowPow(z: C, m: nat, n: nat)
    ensures Pow(Pow(z, m), n) == Pow(z, m * n)
  {
    hide Mul;
    if n == 0 {
      assert m * n == 0;
    } else {
      PowPow(z, m, n - 1);
      assert m * n == m * (n - 1) + m;
      PowAdd(z, m * (n - 1), m);
    }
  }

  // ---------- trigonometry, by the laws used of it ----------

  /** The cosine, sine and pi a program calls; only the laws in `Lawful` are
      assumed of them. */
  datatype Trig = Trig(cos: real -> real, sin: real -> real, pi: real)

  ghost predicate AddsAt(t: Trig, a: real, b: real) {
    && t.cos(a + b) == t.cos(a) * t.cos(b) - t.sin(a) * t.sin(b)
    && t.sin(a + b) == t.sin(a) * t.cos(b) + t.cos(a) * t.sin(b)
  }

  ghost predicate ParityAt(t: Trig, a: real) {
    t.sin(-a) == -t.sin(a) && t.cos(-a) == t.cos(a)
  }

  /** The angle-addition formulas, the half turn, and the parities: sine odd,
      cosine even. */
  ghost predicate Lawful(t: Trig) {
    && t.pi > 0.0
    && t.cos(0.0) == 1.0 && t.sin(0.0) == 0.0
    && t.cos(-t.pi) == -1.0 && t.sin(-t.pi) == 0.0
    && (forall a, b :: AddsAt(t, a, b))
    && (forall a :: ParityAt(t, a))
  }

  function Cis(t: Trig, a: real): C {
    C(t.cos(a), t.sin(a))
  }

  lemma CisAdd(t: Trig, a: real, b: real)
    requires Lawful(t)
    ensures Cis(t, a + b) == Mul(Cis(t, a), Cis(t, b))
  {
    assert AddsAt(t, a, b);
  }

  /** The Pythagorean identity, from adding an angle to its opposite. */
  lemma UnitCircle(t: Trig, a: real)
    requires Lawful(t)
    ensures t.cos(a) * t.cos(a) + t.sin(a) * t.sin(a) == 1.0
  {
    assert ParityAt(t, a);
    assert AddsAt(t, a, -a);
    assert a + -a == 0.0;
  }

  lemma CisPowStep(t: Trig, a: real, n: nat, before: real, after: real)
    requires Lawful(t) && n > 0 && after == before + a
    requires Pow(Cis(t, a), n - 1) == Cis(t, before)
    ensures Pow(Cis(t, a), n) == Cis(t, after)
  {
    CisAdd(t, before, a);
  }

  /** de Moivre: n equal rotations are one rotation n times as far. */
  lemma {:induction false} CisPow(t: Trig, a: real, n: nat)
    requires Lawful(t)
    ensures Pow(Cis(t, a), n) == Cis(t, n as real * a)
  {
    if n == 0 {
      assert 0.0 * a == 0.0;
    } else {
      var m: nat := n - 1;
      CisPow(t, a, m);
      assert (m as real + 1.0) * a == m as real * a + a;
      CisPowStep(t, a, n, m as real * a, n as real * a);
    }
  }
}
