/** Kaiser filter design: what a filter costs in taps, and the shape and gain of
    the taps themselves. */
module FirDesign {
  import opened Numerics
  import opened Complex

  /** The largest tap count the host's word can hold; also the design's "no such
      filter". */
  const USIZE_MAX: nat := U64_MAX

  /** Half of `USIZE_MAX`, as the nearest double: a larger order is refused. */
  const TAP_LIMIT: nat := 0x8000_0000_0000_0000

  function Ceil(x: real): int {
    -((-x).Floor)
  }

  /** The least odd number of taps above n + 1 (n + 2 if that is odd). */
  function OddTaps(n: nat): (taps: nat)
    ensures taps % 2 == 1 && taps >= 3
    ensures n + 2 <= taps <= n + 3
  {
    if (n + 2) % 2 == 0 then n + 3 else n + 2
  }

  /** Kaiser's estimate before it is made odd. */
  function KaiserOrder(pi: real, stopbandDb: real, transition: real, rate: real): int
    requires pi > 0.0 && transition > 0.0 && rate > 0.0
  {
    Ceil((stopbandDb - 8.0) / RadianWidth(pi, transition, rate))
  }

  /** 2.285 times the transition width in radians per sample. */
  function RadianWidth(pi: real, transition: real, rate: real): (w: real)
    requires pi > 0.0 && transition > 0.0 && rate > 0.0
    ensures w > 0.0
  {
    WidthPositive(pi, transition, rate);
    2.285 * (2.0 * pi * transition / rate)
  }

  lemma WidthPositive(pi: real, transition: real, rate: real)
    requires pi > 0.0 && transition > 0.0 && rate > 0.0
    ensures 2.0 * pi * transition / rate > 0.0
  {
    assert 2.0 * pi * transition > 0.0;
    QuotientPositive(2.0 * pi * transition, rate);
  }

  lemma QuotientPositive(a: real, b: real)
    requires a > 0.0 && b > 0.0
    ensures a / b > 0.0
  {
    assert (a / b) * b == a;
  }

  function EstimateTaps(pi: real, stopbandDb: real, transition: real, rate: real): (taps: nat)
    requires pi > 0.0
    ensures taps % 2 == 1 && 3 <= taps <= USIZE_MAX
  {
    if transition <= 0.0 || rate <= 0.0 then USIZE_MAX
    else
      var n := KaiserOrder(pi, stopbandDb, transition, rate);
      if n < 0 || n > TAP_LIMIT then USIZE_MAX else OddTaps(n)
  }

  /** What the estimate buys: unless it gives up, at least two taps more than
      Kaiser's figure and fewer than four more. */
  lemma EstimateIsTight(pi: real, stopbandDb: real, transition: real, rate: real)
    requires pi > 0.0 && transition > 0.0 && rate > 0.0
    ensures 4.57 * pi * transition > 0.0
    ensures var figure := (stopbandDb - 8.0) * rate / (4.57 * pi * transition);
      var taps := EstimateTaps(pi, stopbandDb, transition, rate);
      if -1.0 < figure <= 9223372036854775808.0
      then figure + 2.0 <= taps as real < figure + 4.0
      else taps == 0xFFFF_FFFF_FFFF_FFFF
  {
    hide RadianWidth;
    hide EstimateTaps;
    var a := stopbandDb - 8.0;
    FigureIs(a, pi, transition, rate);
    EstimateByWidth(pi, stopbandDb, transition, rate);
    assert a / RadianWidth(pi, transition, rate) == (stopbandDb - 8.0) * rate / (4.57 * pi * transition);
  }

  lemma EstimateByWidth(pi: real, stopbandDb: real, transition: real, rate: real)
    requires pi > 0.0 && transition > 0.0 && rate > 0.0
    ensures var figure := (stopbandDb - 8.0) / RadianWidth(pi, transition, rate);
      var taps := EstimateTaps(pi, stopbandDb, transition, rate);
      if -1.0 < figure <= TAP_LIMIT as real
      then figure + 2.0 <= taps as real < figure + 4.0
      else taps == USIZE_MAX
  {
    hide RadianWidth;
  }

  lemma FigureIs(a: real, pi: real, transition: real, rate: real)
    requires pi > 0.0 && transition > 0.0 && rate > 0.0
    ensures 4.57 * pi * transition > 0.0
    ensures a / RadianWidth(pi, transition, rate) == a * rate / (4.57 * pi * transition)
  {
    var w, d := RadianWidth(pi, transition, rate), 4.57 * pi * transition;
    assert pi * transition > 0.0;
    assert (2.0 * pi * transition / rate) * rate == 2.0 * pi * transition;
    assert w * rate == d;
    QuotientScaled(a, w, rate, d);
  }

  lemma QuotientScaled(a: real, w: real, rate: real, d: real)
    requires w > 0.0 && rate > 0.0 && d == w * rate && d > 0.0
    ensures a / w == a * rate / d
  {
    var x, y := a / w, a * rate / d;
    assert x * w == a && y * d == a * rate;
    assert x * d == (x * w) * rate;
    assert (x - y) * d == 0.0;
    if x > y { MulPositive(x - y, d); }
    if x < y { MulPositive(y - x, d); }
  }

  lemma QuotientLe(a: real, b: real, c: real, d: real)
    requires b > 0.0 && d > 0.0 && a * d <= c * b
    ensures a / b <= c / d
  {
    var p, q := a / b, c / d;
    assert p * b == a && q * d == c;
    assert (p * b) * d <= (q * d) * b;
    MulPositive(b, d);
    var e := b * d;
    assert (q - p) * e >= 0.0;
    assert (p - q) * e == -((q - p) * e);
    if q < p { MulPositive(p - q, e); }
  }

  lemma WidthShrinks(pi: real, t: real, r: real, t': real, r': real)
    requires pi > 0.0 && t > 0.0 && r > 0.0 && t' > 0.0 && r' > 0.0
    requires t' * r <= t * r'
    ensures RadianWidth(pi, t', r') <= RadianWidth(pi, t, r)
  {
    var c := 2.0 * pi;
    assert c * (t' * r) <= c * (t * r') by { ScaleLe(c, t' * r, t * r'); }
    assert (c * t') * r == c * (t' * r) && (c * t) * r' == c * (t * r');
    QuotientLe(c * t', r', c * t, r);
  }

  /** With a positive numerator the order grows as the width shrinks; with a
      negative one it only becomes more negative. */
  lemma OrderOfWidth(a: real, w: real, w': real)
    requires 0.0 < w' <= w
    ensures a >= 0.0 ==> 0 <= Ceil(a / w) <= Ceil(a / w')
    ensures a < 0.0 ==> Ceil(a / w') <= Ceil(a / w) <= 0
  {
    if a >= 0.0 {
      ScaleLe(a, w', w);
      QuotientLe(a, w, a, w');
      QuotientLe(0.0, w, a, w);
    } else {
      ScaleLe(-a, w', w);
      QuotientLe(a, w', a, w);
      QuotientLe(a, w, 0.0, w);
    }
  }

  lemma ScaleLe(c: real, a: real, b: real)
    requires c >= 0.0 && a <= b
    ensures c * a <= c * b
  {
    assert c * (b - a) >= 0.0;
  }

  /** A relatively narrower transition never costs fewer taps, for any
      attenuation target, the refusals at both ends included. */
  lemma NarrowerCostsMore(pi: real, stopbandDb: real, t: real, r: real, t': real, r': real)
    requires pi > 0.0 && r > 0.0 && r' > 0.0 && t' * r <= t * r'
    ensures EstimateTaps(pi, stopbandDb, t, r) <= EstimateTaps(pi, stopbandDb, t', r')
  {
    if t' > 0.0 {
      MulPositive(t', r);
      if t <= 0.0 { MulNonnegative(-t, r'); }
      WidthShrinks(pi, t, r, t', r');
      OrderOfWidth(stopbandDb - 8.0, RadianWidth(pi, t, r), RadianWidth(pi, t', r'));
    }
  }

  // ---------- the taps ----------

  /** The special functions the design calls. */
  datatype Special = Special(sqrt: real -> real, besselI0: real -> real, powf: (real, real) -> real)

  ghost predicate PositiveAt(sp: Special, x: real) { sp.besselI0(x) > 0.0 }

  /** The Bessel function is a sum of squares starting at one. */
  ghost predicate LawfulSpecial(sp: Special) {
    forall x :: PositiveAt(sp, x)
  }

  function KaiserBeta(sp: Special, stopbandDb: real): real {
    if stopbandDb > 50.0 then 0.1102 * (stopbandDb - 8.7)
    else if stopbandDb >= 21.0 then
      0.5842 * sp.powf(stopbandDb - 21.0, 0.4) + 0.07886 * (stopbandDb - 21.0)
    else 0.0
  }

  function Abs(x: real): real { if x < 0.0 then -x else x }

  function Clamp(x: real, lo: real, hi: real): real
    requires lo <= hi
  {
    if x < lo then lo else if x > hi then hi else x
  }

  function CutoffRatio(cutoff: real, rate: real): real
    requires rate > 0.0
  {
    Clamp(cutoff / rate, 0.000000001, 0.499999)
  }

  /** The ideal low-pass response at distance x from the centre tap, by its
      limit where it would divide by zero. */
  function Sinc(t: Trig, fc: real, x: real): real
    requires t.pi > 0.0
  {
    if Abs(x) < 0.000000000001 then 2.0 * fc
    else PiTimesNonzero(t.pi, x); t.sin(SincAngle(t, fc, x)) / Times(t.pi, x)
  }

  function SincAngle(t: Trig, fc: real, x: real): real {
    2.0 * t.pi * fc * x
  }

  lemma PiTimesNonzero(pi: real, x: real)
    requires pi > 0.0 && x != 0.0
    ensures Times(pi, x) != 0.0
  {
    if x > 0.0 { assert pi * x > 0.0; } else { assert pi * (-x) > 0.0; }
  }

  /** The Kaiser window at relative position r in [-1, 1]. */
  function Window(sp: Special, beta: real, r: real): real
    requires sp.besselI0(beta) != 0.0
  {
    sp.besselI0(Times(beta, sp.sqrt(Inside(r)))) / sp.besselI0(beta)
  }

  function Inside(r: real): real {
    if 1.0 - r * r < 0.0 then 0.0 else 1.0 - r * r
  }

  /** Tap n before the gain is fixed. */
  function RawTap(t: Trig, sp: Special, taps: nat, fc: real, beta: real, n: int): real
    requires t.pi > 0.0 && taps >= 3 && sp.besselI0(beta) != 0.0
  {
    var m := (taps - 1) as real;
    var x := n as real - m / 2.0;
    Times(Sinc(t, fc, x), Window(sp, beta, 2.0 * x / m))
  }

  lemma SincEvenAt(t: Trig, a: real, b: real, a': real, b': real)
    requires Lawful(t) && b != 0.0 && a' == -a && b' == -b
    ensures t.sin(a') / b' == t.sin(a) / b
  {
    assert ParityAt(t, a);
    NegatedQuotient(t.sin(a), b);
  }

  lemma SincEven(t: Trig, fc: real, x: real, y: real)
    requires Lawful(t) && y == -x
    ensures Sinc(t, fc, y) == Sinc(t, fc, x)
  {
    if Abs(x) >= 0.000000000001 {
      PiTimesNonzero(t.pi, x);
      SincEvenAt(t, SincAngle(t, fc, x), Times(t.pi, x), SincAngle(t, fc, y), Times(t.pi, y));
    }
  }

  lemma NegatedQuotient(a: real, b: real)
    requires b != 0.0
    ensures (-a) / (-b) == a / b
  {
    assert (a / b) * (-b) == -a;
  }

  lemma WindowEven(sp: Special, beta: real, r: real, r': real)
    requires sp.besselI0(beta) != 0.0 && r' == -r
    ensures Window(sp, beta, r') == Window(sp, beta, r)
  {
    hide Times;
    assert Inside(r') == Inside(r) by { assert r' * r' == r * r; }
  }

  lemma RawTapsSymmetric(t: Trig, sp: Special, taps: nat, fc: real, beta: real, n: int)
    requires Lawful(t) && taps >= 3 && sp.besselI0(beta) != 0.0
    ensures RawTap(t, sp, taps, fc, beta, taps - 1 - n) == RawTap(t, sp, taps, fc, beta, n)
  {
    hide Sinc;
    hide Window;
    hide Times;
    var m := (taps - 1) as real;
    var x, y := n as real - m / 2.0, (taps - 1 - n) as real - m / 2.0;
    assert (taps - 1 - n) as real == m - n as real;
    assert y == -x;
    SincEven(t, fc, x, y);
    NegatedNumerator(2.0 * x, m, 2.0 * y);
    WindowEven(sp, beta, 2.0 * x / m, 2.0 * y / m);
  }

  lemma NegatedNumerator(a: real, b: real, a': real)
    requires b != 0.0 && a' == -a
    ensures a' / b == -(a / b)
  {
    assert (-(a / b)) * b == -a;
  }

  ghost function RawTaps(t: Trig, sp: Special, taps: nat, fc: real, beta: real): (h: seq<real>)
    requires t.pi > 0.0 && taps >= 3 && sp.besselI0(beta) != 0.0
    ensures |h| == taps && forall n :: 0 <= n < taps ==> h[n] == RawTap(t, sp, taps, fc, beta, n)
  {
    seq(taps, n => RawTap(t, sp, taps, fc, beta, n))
  }

  function GainScale(dc: real): real {
    if Abs(dc) > 0.0 then 1.0 / dc else 1.0
  }

  /** The finished taps: the windowed response scaled by its own sum. */
  ghost function LowpassTaps(t: Trig, sp: Special, taps: nat, cutoff: real, rate: real, stopbandDb: real): (h: seq<real>)
    requires t.pi > 0.0 && LawfulSpecial(sp) && taps >= 3 && rate > 0.0
    ensures |h| == taps
  {
    var beta := KaiserBeta(sp, stopbandDb);
    assert PositiveAt(sp, beta);
    var raw := RawTaps(t, sp, taps, CutoffRatio(cutoff, rate), beta);
    seq(taps, n requires 0 <= n < taps => Times(GainScale(Total(raw)), raw[n]))
  }

  ghost function RawGain(t: Trig, sp: Special, taps: nat, cutoff: real, rate: real, stopbandDb: real): real
    requires t.pi > 0.0 && LawfulSpecial(sp) && taps >= 3 && rate > 0.0
  {
    var beta := KaiserBeta(sp, stopbandDb);
    assert PositiveAt(sp, beta);
    Total(RawTaps(t, sp, taps, CutoffRatio(cutoff, rate), beta))
  }

  /** A linear-phase filter: the taps read the same from both ends. */
  lemma LowpassSymmetric(t: Trig, sp: Special, taps: nat, cutoff: real, rate: real, stopbandDb: real, n: nat)
    requires Lawful(t) && LawfulSpecial(sp) && taps >= 3 && rate > 0.0 && n < taps
    ensures var h := LowpassTaps(t, sp, taps, cutoff, rate, stopbandDb);
      h[taps - 1 - n] == h[n]
  {
    var beta := KaiserBeta(sp, stopbandDb);
    assert PositiveAt(sp, beta);
    RawTapsSymmetric(t, sp, taps, CutoffRatio(cutoff, rate), beta, n);
  }

  /** Unity gain at DC exactly when the windowed response does not sum to zero
      (and zero gain otherwise). */
  lemma LowpassGain(t: Trig, sp: Special, taps: nat, cutoff: real, rate: real, stopbandDb: real)
    requires t.pi > 0.0 && LawfulSpecial(sp) && taps >= 3 && rate > 0.0
    ensures var h := LowpassTaps(t, sp, taps, cutoff, rate, stopbandDb);
      && (Total(h) == 1.0 <==> RawGain(t, sp, taps, cutoff, rate, stopbandDb) != 0.0)
      && (Total(h) == 0.0 <==> RawGain(t, sp, taps, cutoff, rate, stopbandDb) == 0.0)
  {
    hide RawTap;
    var beta := KaiserBeta(sp, stopbandDb);
    assert PositiveAt(sp, beta);
    var raw := RawTaps(t, sp, taps, CutoffRatio(cutoff, rate), beta);
    var h := LowpassTaps(t, sp, taps, cutoff, rate, stopbandDb);
    var dc := Total(raw);
    ScaledTotal(raw, h, GainScale(dc));
  }

  lemma ScaledTotal(raw: seq<real>, h: seq<real>, c: real)
    requires |h| == |raw| && forall n :: 0 <= n < |h| ==> h[n] == Times(c, raw[n])
    ensures Total(h) == c * Total(raw)
  {
    SumScale(Entries(raw), Entries(h), c, |h|);
  }

  // ---------- the shape, written out ----------

  /** The angle of the ideal response x samples from its centre. */
  ghost function IdealAngle(t: Trig, fc: real, x: real): real {
    2.0 * t.pi * fc * x
  }

  ghost function WithinWindow(r: real): real {
    1.0 - r * r
  }

  /** Tap k from the centre stands to the centre tap as the ideal response under
      the window stands to its value at the centre, the reach of the window being
      c taps. */
  ghost predicate StandsAt(t: Trig, sp: Special, h: seq<real>, fc: real, beta: real, k: nat)
    requires t.pi > 0.0 && |h| % 2 == 1 && 1 <= k <= |h| / 2
  {
    Stands(t, sp, h[|h| / 2 + k], h[|h| / 2], fc, beta, k, |h| / 2)
  }

  ghost predicate Stands(t: Trig, sp: Special, tap: real, centre: real, fc: real, beta: real, k: nat, c: nat)
    requires t.pi > 0.0 && 1 <= k <= c
  {
    var x, r := k as real, k as real / c as real;
    var angle, inside := IdealAngle(t, fc, x), WithinWindow(r);
    PiTimesNonzero(t.pi, x);
    Times(tap, Times(2.0 * fc, sp.besselI0(Times(beta, sp.sqrt(1.0)))))
      == Times(centre, Times(t.sin(angle) / Times(t.pi, x), sp.besselI0(Times(beta, sp.sqrt(inside)))))
  }

  /** The cutoff as a fraction of the rate, kept off zero and a half. */
  ghost function FractionOf(cutoff: real, rate: real): real
    requires rate > 0.0
  {
    if cutoff / rate < 0.000000001 then 0.000000001
    else if cutoff / rate > 0.499999 then 0.499999
    else cutoff / rate
  }

  /** Kaiser's shape parameter over his three ranges of attenuation. */
  ghost function ShapeOf(sp: Special, stopbandDb: real): real {
    if stopbandDb > 50.0 then 0.1102 * (stopbandDb - 8.7)
    else if stopbandDb >= 21.0 then
      0.5842 * sp.powf(stopbandDb - 21.0, 0.4) + 0.07886 * (stopbandDb - 21.0)
    else 0.0
  }

  ghost predicate CentreStands(sp: Special, h: seq<real>, fc: real, beta: real)
    requires h != []
  {
    Total(h) == 0.0 && Times(h[|h| / 2], sp.besselI0(beta)) == Times(2.0 * fc, sp.besselI0(Times(beta, sp.sqrt(1.0))))
  }

  /** The taps are a windowed ideal low-pass around their centre; if they cannot
      be scaled to unity gain the centre one is as the response has it. */
  ghost predicate KaiserShape(t: Trig, sp: Special, h: seq<real>, cutoff: real, rate: real, stopbandDb: real)
    requires t.pi > 0.0 && rate > 0.0
  {
    var c := |h| / 2;
    var fc, beta := FractionOf(cutoff, rate), ShapeOf(sp, stopbandDb);
    && |h| % 2 == 1
    && (forall k :: 1 <= k <= c ==> StandsAt(t, sp, h, fc, beta, k))
    && (Total(h) != 1.0 ==> CentreStands(sp, h, fc, beta))
  }

  lemma LowpassShape(t: Trig, sp: Special, taps: nat, cutoff: real, rate: real, stopbandDb: real)
    requires t.pi > 0.0 && LawfulSpecial(sp) && taps >= 3 && taps % 2 == 1 && rate > 0.0
    ensures KaiserShape(t, sp, LowpassTaps(t, sp, taps, cutoff, rate, stopbandDb), cutoff, rate, stopbandDb)
  {
    hide RawTap;
    hide Stands;
    hide CentreStands;
    hide Times;
    hide ResponseAt;
    hide IdealAngle;
    hide WithinWindow;
    var h := LowpassTaps(t, sp, taps, cutoff, rate, stopbandDb);
    var c := taps / 2;
    var fc, beta := CutoffRatio(cutoff, rate), KaiserBeta(sp, stopbandDb);
    assert fc == FractionOf(cutoff, rate) && beta == ShapeOf(sp, stopbandDb);
    assert PositiveAt(sp, beta);
    var raw := RawTaps(t, sp, taps, fc, beta);
    var scale := GainScale(Total(raw));
    CentreTap(t, sp, taps, fc, beta);
    forall k | 1 <= k <= c
      ensures StandsAt(t, sp, h, fc, beta, k)
    {
      TapFrom(t, sp, taps, fc, beta, k);
      assert h[c + k] == Times(scale, raw[c + k]) && h[c] == Times(scale, raw[c]);
      TapStands(t, sp, scale, raw[c + k], raw[c], fc, beta, k, c);
    }
    if Total(h) != 1.0 { UnscaledCentre(t, sp, taps, cutoff, rate, stopbandDb); }
  }

  lemma UnscaledCentre(t: Trig, sp: Special, taps: nat, cutoff: real, rate: real, stopbandDb: real)
    requires t.pi > 0.0 && LawfulSpecial(sp) && taps >= 3 && taps % 2 == 1 && rate > 0.0
    requires Total(LowpassTaps(t, sp, taps, cutoff, rate, stopbandDb)) != 1.0
    ensures CentreStands(sp, LowpassTaps(t, sp, taps, cutoff, rate, stopbandDb),
                         CutoffRatio(cutoff, rate), KaiserBeta(sp, stopbandDb))
  {
    hide RawTap;
    hide Times;
    hide CutoffRatio;
    hide KaiserBeta;
    var fc, beta := CutoffRatio(cutoff, rate), KaiserBeta(sp, stopbandDb);
    assert PositiveAt(sp, beta);
    var raw := RawTaps(t, sp, taps, fc, beta);
    LowpassGain(t, sp, taps, cutoff, rate, stopbandDb);
    assert RawGain(t, sp, taps, cutoff, rate, stopbandDb) == 0.0;
    assert GainScale(Total(raw)) == 1.0;
    CentreTap(t, sp, taps, fc, beta);
    CentreUnscaled(raw[taps / 2], 2.0 * fc, sp.besselI0(Times(beta, sp.sqrt(1.0))), sp.besselI0(beta));
  }

  /** The windowed response at distance x from the centre, `inside` being one less
      the square of its place in the window. */
  ghost function ResponseAt(t: Trig, sp: Special, x: real, angle: real, inside: real, beta: real): real
    requires t.pi > 0.0 && x != 0.0 && sp.besselI0(beta) != 0.0
  {
    PiTimesNonzero(t.pi, x);
    Times(t.sin(angle) / Times(t.pi, x), sp.besselI0(Times(beta, sp.sqrt(inside))) / sp.besselI0(beta))
  }

  lemma TapFrom(t: Trig, sp: Special, taps: nat, fc: real, beta: real, k: nat)
    requires t.pi > 0.0 && taps >= 3 && taps % 2 == 1 && 1 <= k <= taps / 2 && sp.besselI0(beta) != 0.0
    ensures var x, r := k as real, k as real / (taps / 2) as real;
      RawTap(t, sp, taps, fc, beta, taps / 2 + k) == ResponseAt(t, sp, x, IdealAngle(t, fc, x), WithinWindow(r), beta)
  {
    hide Sinc;
    hide Window;
    hide Times;
    hide IdealAngle;
    hide WithinWindow;
    var c := taps / 2;
    var m := (taps - 1) as real;
    var x := (c + k) as real - m / 2.0;
    var r := k as real / c as real;
    assert taps - 1 == 2 * c && x == k as real;
    HalvedRatio(k as real, c as real);
    assert 2.0 * x / m == r;
    RatioWithin(k as real, c as real);
    SincFrom(t, fc, x);
    WindowFrom(sp, beta, r);
  }

  lemma HalvedRatio(a: real, b: real)
    requires b > 0.0
    ensures 2.0 * a / (2.0 * b) == a / b
  {
    assert (a / b) * (2.0 * b) == 2.0 * a;
  }

  lemma SincFrom(t: Trig, fc: real, x: real)
    requires t.pi > 0.0 && x >= 1.0
    ensures Times(t.pi, x) != 0.0 && Sinc(t, fc, x) == t.sin(IdealAngle(t, fc, x)) / Times(t.pi, x)
  {
    hide Times;
    PiTimesNonzero(t.pi, x);
    assert SincAngle(t, fc, x) == IdealAngle(t, fc, x);
    assert Abs(x) >= 0.000000000001;
  }

  lemma WindowFrom(sp: Special, beta: real, r: real)
    requires r * r <= 1.0 && sp.besselI0(beta) != 0.0
    ensures Window(sp, beta, r) == sp.besselI0(Times(beta, sp.sqrt(WithinWindow(r)))) / sp.besselI0(beta)
  {
    hide Times;
    assert Inside(r) == WithinWindow(r);
  }

  lemma RatioWithin(a: real, b: real)
    requires 0.0 <= a <= b && b > 0.0
    ensures (a / b) * (a / b) <= 1.0
  {
    var r := a / b;
    assert r * b == a;
    if r < 0.0 { MulPositive(-r, b); }
    if r > 1.0 { MulPositive(r - 1.0, b); }
    MulNonnegative(r, 1.0 - r);
    assert r * (1.0 - r) == r - r * r;
  }

  lemma CentreTap(t: Trig, sp: Special, taps: nat, fc: real, beta: real)
    requires t.pi > 0.0 && taps >= 3 && taps % 2 == 1 && sp.besselI0(beta) != 0.0
    ensures RawTap(t, sp, taps, fc, beta, taps / 2)
         == Times(2.0 * fc, sp.besselI0(Times(beta, sp.sqrt(1.0))) / sp.besselI0(beta))
  {
    hide Times;
    var m := (taps - 1) as real;
    var x := (taps / 2) as real - m / 2.0;
    assert x == 0.0 && 2.0 * x / m == 0.0;
    assert Sinc(t, fc, 0.0) == 2.0 * fc;
    WindowFrom(sp, beta, 0.0);
    assert WithinWindow(0.0) == 1.0;
  }

  lemma TapStands(t: Trig, sp: Special, scale: real, tap: real, centre: real, fc: real, beta: real, k: nat, c: nat)
    requires t.pi > 0.0 && 1 <= k <= c && sp.besselI0(beta) != 0.0
    requires var x, r := k as real, k as real / c as real;
      tap == ResponseAt(t, sp, x, IdealAngle(t, fc, x), WithinWindow(r), beta)
    requires centre == Times(2.0 * fc, sp.besselI0(Times(beta, sp.sqrt(1.0))) / sp.besselI0(beta))
    ensures Stands(t, sp, Times(scale, tap), Times(scale, centre), fc, beta, k, c)
  {
    hide Times;
    hide IdealAngle;
    hide WithinWindow;
    var x, r := k as real, k as real / c as real;
    var angle, inside := IdealAngle(t, fc, x), WithinWindow(r);
    PiTimesNonzero(t.pi, x);
    CrossScaled(scale, 2.0 * fc, t.sin(angle) / Times(t.pi, x), sp.besselI0(Times(beta, sp.sqrt(1.0))),
                sp.besselI0(Times(beta, sp.sqrt(inside))), sp.besselI0(beta));
  }

  lemma CrossScaled(scale: real, a: real, s: real, u: real, v: real, b: real)
    requires b != 0.0
    ensures Times(Times(scale, Times(s, v / b)), Times(a, u)) == Times(Times(scale, Times(a, u / b)), Times(s, v))
  {
    var p, q := v / b, u / b;
    assert p * b == v && q * b == u;
    assert (scale * (s * p)) * (a * (q * b)) == (scale * (a * q)) * (s * (p * b));
  }

  lemma CentreUnscaled(centre: real, a: real, u: real, b: real)
    requires b != 0.0 && centre == Times(a, u / b)
    ensures Times(Times(1.0, centre), b) == Times(a, u)
  {
    var q := u / b;
    assert q * b == u;
    assert (a * q) * b == a * (q * b);
  }

  /** Design the taps: fill the windowed response, then scale it to unity gain. */
  method KaiserLowpass(t: Trig, sp: Special, taps: nat, cutoff: real, rate: real, stopbandDb: real)
    returns (h: seq<real>)
    requires t.pi > 0.0 && LawfulSpecial(sp)
    requires taps >= 3 && taps % 2 == 1 && rate > 0.0
    ensures h == LowpassTaps(t, sp, taps, cutoff, rate, stopbandDb)
    ensures |h| == taps && KaiserShape(t, sp, h, cutoff, rate, stopbandDb)
  {
    hide KaiserShape;
    hide RawTap;
    hide RawTaps;
    hide GainScale;
    hide CutoffRatio;
    hide KaiserBeta;
    hide Times;
    var fc := CutoffRatio(cutoff, rate);
    var beta := KaiserBeta(sp, stopbandDb);
    assert PositiveAt(sp, beta);
    ghost var raw := RawTaps(t, sp, taps, fc, beta);
    var buffer := new real[taps](_ => 0.0);
    var dcGain := 0.0;
    for n := 0 to taps
      invariant forall k :: 0 <= k < n ==> buffer[k] == raw[k]
      invariant dcGain == Sum(Entries(raw), n)
    {
      buffer[n] := RawTap(t, sp, taps, fc, beta, n);
      dcGain := dcGain + buffer[n];
    }
    var scale := GainScale(dcGain);
    h := seq(taps, n requires 0 <= n < taps reads buffer => Times(scale, buffer[n]));
    assert h == LowpassTaps(t, sp, taps, cutoff, rate, stopbandDb);
    LowpassShape(t, sp, taps, cutoff, rate, stopbandDb);
  }
}
