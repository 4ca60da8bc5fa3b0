/** The oscillator that shifts a channel to DC. Its phase is kept within one
    turn, yet equals the ideal phase of every sample modulo a turn. */
module Mixer {
  import opened Numerics
  import opened Complex
  import opened Samples

  /** The floating remainder that is never negative. */
  function RemEuclid(x: real, tau: real): real
    requires tau > 0.0
  {
    x - tau * (x / tau).Floor as real
  }

  /** The remainder is the only value in [0, tau) a whole number of turns away. */
  lemma RemEuclidUnique(x: real, tau: real, r: real, k: int)
    requires tau > 0.0 && 0.0 <= r < tau && x == r + tau * k as real
    ensures RemEuclid(x, tau) == r
  {
    var w := r / tau;
    WithinTurn(r, tau);
    assert (w + k as real) * tau == r + tau * k as real;
    assert (x / tau) * tau == x;
    SameQuotient(x / tau, w + k as real, tau);
    assert (x / tau).Floor == k;
  }

  lemma WithinTurn(r: real, tau: real)
    requires 0.0 <= r < tau
    ensures 0.0 <= r / tau < 1.0
  {
    var w := r / tau;
    assert w * tau == r;
    if w < 0.0 { MulPositive(-w, tau); }
    if w >= 1.0 { MulNonnegative(w - 1.0, tau); }
  }

  lemma SameQuotient(a: real, b: real, c: real)
    requires c > 0.0 && a * c == b * c
    ensures a == b
  {
    if a > b { MulPositive(a - b, c); }
    if a < b { MulPositive(b - a, c); }
  }

  lemma RemEuclidIs(x: real, tau: real)
    requires tau > 0.0
    ensures x == RemEuclid(x, tau) + tau * (x / tau).Floor as real
  {
  }

  lemma RemEuclidRange(x: real, tau: real)
    requires tau > 0.0
    ensures 0.0 <= RemEuclid(x, tau) < tau
  {
    var v := x / tau;
    var f := v - v.Floor as real;
    assert v * tau == x;
    assert 0.0 <= f < 1.0;
    assert f * tau == RemEuclid(x, tau);
    assert (1.0 - f) * tau > 0.0 && f * tau >= 0.0;
  }

  /** One step of the running phase: add the increment and drop a whole turn. */
  function AdvancePhase(phase: real, inc: real, tau: real): real {
    if phase + inc >= tau then phase + inc - tau else phase + inc
  }

  /** The running phase n samples after it stood at `start`. */
  ghost function PhaseFrom(start: real, inc: real, tau: real, n: nat): real {
    if n == 0 then start else AdvancePhase(PhaseFrom(start, inc, tau, n - 1), inc, tau)
  }

  ghost function PhaseAt(inc: real, tau: real, n: nat): real {
    PhaseFrom(0.0, inc, tau, n)
  }

  /** How many turns the running phase has dropped. */
  ghost function TurnsAt(inc: real, tau: real, n: nat): nat {
    if n == 0 then 0
    else TurnsAt(inc, tau, n - 1) + if PhaseAt(inc, tau, n - 1) + inc >= tau then 1 else 0
  }

  lemma {:induction false} PhaseAndTurns(inc: real, tau: real, n: nat)
    requires tau > 0.0 && 0.0 <= inc < tau
    ensures 0.0 <= PhaseAt(inc, tau, n) < tau
    ensures Times(n as real, inc) == PhaseAt(inc, tau, n) + Times(tau, TurnsAt(inc, tau, n) as real)
  {
    if n > 0 {
      hide Times;
      var m: nat := n - 1;
      PhaseAndTurns(inc, tau, m);
      OneMoreStep(inc, tau, m as real, PhaseAt(inc, tau, m), TurnsAt(inc, tau, m) as real);
    }
  }

  lemma OneMoreStep(inc: real, tau: real, m: real, phase: real, turns: real)
    requires Times(m, inc) == phase + Times(tau, turns)
    ensures Times(m + 1.0, inc) == phase + inc + Times(tau, turns)
    ensures Times(m + 1.0, inc) == phase + inc - tau + Times(tau, turns + 1.0)
  {
  }

  /** The phase after n samples, in closed form: n times the unreduced step,
      modulo a turn, and never outside [0, tau). */
  lemma PhaseIsIdeal(step: real, tau: real, n: nat)
    requires tau > 0.0
    ensures 0.0 <= PhaseAt(RemEuclid(step, tau), tau, n) < tau
    ensures PhaseAt(RemEuclid(step, tau), tau, n) == RemEuclid(n as real * step, tau)
  {
    hide RemEuclid;
    hide PhaseAt;
    hide PhaseFrom;
    hide TurnsAt;
    var inc := RemEuclid(step, tau);
    RemEuclidIs(step, tau);
    RemEuclidRange(step, tau);
    PhaseAndTurns(inc, tau, n);
    var whole := (step / tau).Floor;
    var turns: int := TurnsAt(inc, tau, n);
    var p := PhaseAt(inc, tau, n);
    IdealTurns(n, step, tau, inc, whole, p, turns);
    RemEuclidUnique(n as real * step, tau, p, turns + n * whole);
  }

  lemma IdealTurns(n: nat, step: real, tau: real, inc: real, whole: int, p: real, turns: int)
    requires step == inc + tau * whole as real && Times(n as real, inc) == p + Times(tau, turns as real)
    ensures n as real * step == p + tau * (turns + n * whole) as real
  {
    var a, w := n as real, whole as real;
    assert a * (inc + tau * w) == a * inc + tau * (a * w);
    assert (n * whole) as real == a * w;
    assert tau * (turns as real + a * w) == tau * turns as real + tau * (a * w);
  }

  function Tau(t: Trig): real { 2.0 * t.pi }

  lemma WholeTurn(t: Trig, a: real)
    requires Lawful(t)
    ensures Cis(t, a - Tau(t)) == Cis(t, a)
  {
    hide Mul;
    CisAdd(t, -t.pi, -t.pi);
    assert Mul(C(-1.0, 0.0), C(-1.0, 0.0)) == ONE by { MinusOneSquared(); }
    CisAdd(t, a, -Tau(t));
    MulOne(Cis(t, a));
    assert -t.pi + -t.pi == -Tau(t);
  }

  lemma MinusOneSquared()
    ensures Mul(C(-1.0, 0.0), C(-1.0, 0.0)) == ONE
  {
  }

  lemma {:induction false} WholeTurns(t: Trig, a: real, k: nat)
    requires Lawful(t)
    ensures Cis(t, a + Tau(t) * k as real) == Cis(t, a)
  {
    var x := a + Tau(t) * k as real;
    if k > 0 {
      var j: nat := k - 1;
      WholeTurns(t, a, j);
      assert Tau(t) * (j as real + 1.0) == Tau(t) * j as real + Tau(t);
      assert x - Tau(t) == a + Tau(t) * j as real;
      WholeTurn(t, x);
    } else {
      assert x == a;
    }
  }

  /** A phasor does not see how its phase was reduced. */
  lemma CisReduced(t: Trig, x: real)
    requires Lawful(t)
    ensures Cis(t, RemEuclid(x, Tau(t))) == Cis(t, x)
  {
    hide RemEuclid;
    var k := (x / Tau(t)).Floor;
    var r := RemEuclid(x, Tau(t));
    RemEuclidIs(x, Tau(t));
    if k >= 0 {
      WholeTurns(t, r, k);
      assert x == r + Tau(t) * k as real;
    } else {
      var n: nat := -k;
      WholeTurns(t, x, n);
      assert Tau(t) * n as real == -(Tau(t) * k as real);
      assert r == x + Tau(t) * n as real;
    }
  }

  /** A sample turned back by an angle: multiplied by (cos, -sin). */
  function Rotate(t: Trig, angle: real, s: Iq): Iq {
    var c, ms := t.cos(angle), -t.sin(angle);
    Iq(s.i * c - s.q * ms, s.i * ms + s.q * c)
  }

  /** Turning back is multiplying by the conjugate phasor. */
  lemma RotateIsConjugate(t: Trig, angle: real, s: Iq)
    requires Lawful(t)
    ensures var r := Rotate(t, angle, s); C(r.i, r.q) == Mul(C(s.i, s.q), Cis(t, -angle))
  {
    assert ParityAt(t, angle);
  }

  /** A tone turned back by its own angle stands still, at full level. */
  lemma ToneToDc(t: Trig, angle: real, level: real)
    requires Lawful(t)
    ensures Rotate(t, angle, Iq(level * t.cos(angle), level * t.sin(angle))) == Iq(level, 0.0)
  {
    UnitCircle(t, angle);
    var c, s := t.cos(angle), t.sin(angle);
    assert level * c * c - (level * s) * (-s) == level * (c * c + s * s);
  }

  ghost predicate TurnsApart(t: Trig, x: real, y: real, turns: int) {
    x == y + 2.0 * t.pi * turns as real
  }

  ghost predicate SameAngle(t: Trig, x: real, y: real) {
    exists turns: int :: TurnsApart(t, x, y, turns)
  }

  /** The angle a tone at `offset` turns through in n samples. */
  ghost function AngleAfter(t: Trig, offset: real, rate: real, n: real): real
    requires rate > 0.0
  {
    2.0 * t.pi * offset * n / rate
  }

  /** The advance per sample: the angle 2 pi * offset / rate brought into one turn,
      or none without a positive rate. */
  function PhaseInc(t: Trig, offset: real, rate: real): (inc: real)
    requires t.pi > 0.0
    ensures 0.0 <= inc < 2.0 * t.pi
    ensures rate <= 0.0 ==> inc == 0.0
    ensures rate > 0.0 ==> SameAngle(t, AngleAfter(t, offset, rate, 1.0), inc)
  {
    if rate > 0.0 then
      var step := 2.0 * t.pi * offset / rate;
      RemEuclidRange(step, Tau(t));
      RemEuclidIs(step, Tau(t));
      assert TurnsApart(t, step, RemEuclid(step, Tau(t)), (step / Tau(t)).Floor);
      assert SameAngle(t, step, RemEuclid(step, Tau(t)));
      assert AngleAfter(t, offset, rate, 1.0) == step by { AngleOfSample(t, offset, rate, 1.0); }
      RemEuclid(step, Tau(t))
    else 0.0
  }

  lemma RotateReduced(t: Trig, x: real, s: Iq)
    requires Lawful(t)
    ensures Rotate(t, RemEuclid(x, Tau(t)), s) == Rotate(t, x, s)
  {
    hide RemEuclid;
    CisReduced(t, x);
    assert Cis(t, RemEuclid(x, Tau(t))).re == t.cos(RemEuclid(x, Tau(t)));
    assert Cis(t, RemEuclid(x, Tau(t))).im == t.sin(RemEuclid(x, Tau(t)));
  }

  lemma UnturnedAtZero(t: Trig, s: Iq)
    requires Lawful(t)
    ensures Rotate(t, 0.0, s) == s
  {
  }

  lemma PiIsPositive(t: Trig)
    requires Lawful(t)
    ensures t.pi > 0.0
  {
  }

  /** What the mixer does to sample n of a stream, whatever happened to the
      running phase on the way: turn it back by 2 pi * offset * n / rate, or leave
      it as it is without a positive rate. */
  lemma MixIsIdeal(t: Trig, offset: real, rate: real, n: nat, s: Iq)
    requires Lawful(t)
    ensures rate > 0.0 ==>
      Rotate(t, PhaseAt(PhaseInc(t, offset, rate), Tau(t), n), s)
        == Rotate(t, AngleAfter(t, offset, rate, n as real), s)
    ensures rate <= 0.0 ==> Rotate(t, PhaseAt(PhaseInc(t, offset, rate), Tau(t), n), s) == s
  {
    if rate > 0.0 {
      hide AngleAfter;
      hide PhaseAt;
      hide Lawful;
      PiIsPositive(t);
      var step := AngleAfter(t, offset, rate, 1.0);
      var x := AngleAfter(t, offset, rate, n as real);
      AngleOfSample(t, offset, rate, n as real);
      PhaseIsIdeal(step, Tau(t), n);
      RotateReduced(t, x, s);
      hide Rotate;
      hide PhaseInc;
      hide RemEuclid;
      var inc := PhaseInc(t, offset, rate);
      var turns: int :| TurnsApart(t, step, inc, turns);
      RemEuclidUnique(step, Tau(t), inc, turns);
      assert x == n as real * step;
    } else {
      hide PhaseAt;
      StandsStill(Tau(t), n);
      UnturnedAtZero(t, s);
    }
  }

  lemma AngleOfSample(t: Trig, offset: real, rate: real, n: real)
    requires rate > 0.0
    ensures AngleAfter(t, offset, rate, n) == n * AngleAfter(t, offset, rate, 1.0)
    ensures AngleAfter(t, offset, rate, 1.0) == 2.0 * t.pi * offset / rate
  {
    var a := 2.0 * t.pi * offset;
    assert (a / rate) * rate == a;
    SameQuotient((a * n) / rate, n * (a / rate), rate) by {
      assert ((a * n) / rate) * rate == a * n;
      assert (n * (a / rate)) * rate == n * ((a / rate) * rate);
    }
  }

  lemma {:induction false} StandsStill(tau: real, n: nat)
    requires tau > 0.0
    ensures PhaseAt(0.0, tau, n) == 0.0
  {
    if n > 0 { StandsStill(tau, n - 1); }
  }

  class Nco {
    const t: Trig
    const phaseInc: real
    var phase: real

    ghost predicate Valid()
      reads this
    {
      t.pi > 0.0 && 0.0 <= phaseInc < 2.0 * t.pi && 0.0 <= phase < 2.0 * t.pi
    }

    constructor (t: Trig, offset: real, rate: real)
      requires t.pi > 0.0
      ensures Valid() && this.t == t && phase == 0.0
      ensures phaseInc == PhaseInc(t, offset, rate)
    {
      this.t := t;
      phaseInc := PhaseInc(t, offset, rate);
      phase := 0.0;
    }

    /** The conjugate phasor of the current sample; the phase moves on. */
    method NextPhasor() returns (c: real, ms: real)
      requires Valid()
      modifies this
      ensures Valid() && phase == AdvancePhase(old(phase), phaseInc, Tau(t))
      ensures c == t.cos(old(phase)) && ms == -t.sin(old(phase))
    {
      c, ms := t.cos(phase), -t.sin(phase);
      phase := phase + phaseInc;
      if phase >= Tau(t) {
        phase := phase - Tau(t);
      }
    }

    method Mix(s: Iq) returns (z: Iq)
      requires Valid()
      modifies this
      ensures Valid() && phase == AdvancePhase(old(phase), phaseInc, Tau(t))
      ensures z == Rotate(t, old(phase), s)
    {
      var c, ms := NextPhasor();
      z := Iq(s.i * c - s.q * ms, s.i * ms + s.q * c);
    }
  }
}
