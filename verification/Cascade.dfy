/** A chain of decimating filters stepped one sample at a time: the one long
    filter it equals, what it does to a constant, and how long it remembers. */
module Cascade {
  import opened Numerics
  import opened Fir

  ghost predicate ValidSpecs(fs: seq<Spec>) {
    forall i :: 0 <= i < |fs| ==> ValidSpec(fs[i])
  }

  ghost predicate ValidStates(fs: seq<Spec>, ss: seq<State>) {
    |fs| == |ss| && forall i :: 0 <= i < |fs| ==> ValidState(fs[i], ss[i])
  }

  ghost function FreshStates(fs: seq<Spec>): (ss: seq<State>)
    requires ValidSpecs(fs)
    ensures ValidStates(fs, ss)
  {
    seq(|fs|, i requires 0 <= i < |fs| => Fresh(fs[i]))
  }

  /** One sample through the chain: a stage that emits nothing stops it there
      and leaves every later stage untouched. */
  ghost function StepAll(fs: seq<Spec>, ss: seq<State>, x: real): (r: (seq<State>, Option<real>))
    requires ValidStates(fs, ss)
    ensures ValidStates(fs, r.0)
  {
    if fs == [] then ([], Some(x))
    else
      var head := Step(fs[0], ss[0], x);
      if head.1.None? then ([head.0] + ss[1..], None)
      else
        var tail := StepAll(fs[1..], ss[1..], head.1.value);
        ([head.0] + tail.0, tail.1)
  }

  /** A step that has got as far as stage k: the stages before it are in the
      states `done`, and v is about to enter stage k. */
  ghost predicate Underway(fs: seq<Spec>, ss: seq<State>, x: real, k: nat, done: seq<State>, v: real)
    requires ValidStates(fs, ss)
  {
    && k <= |fs| && |done| == k
    && StepAll(fs, ss, x) == (done + StepAll(fs[k..], ss[k..], v).0, StepAll(fs[k..], ss[k..], v).1)
  }

  lemma StateAt(fs: seq<Spec>, ss: seq<State>, k: nat)
    requires ValidStates(fs, ss) && k < |fs|
    ensures ValidState(fs[k], ss[k])
  {
  }

  lemma UnderwayStart(fs: seq<Spec>, ss: seq<State>, x: real)
    requires ValidStates(fs, ss)
    ensures Underway(fs, ss, x, 0, [], x)
  {
    assert fs[0..] == fs && ss[0..] == ss;
    var r := StepAll(fs, ss, x);
    assert [] + r.0 == r.0;
  }

  lemma UnderwayNext(fs: seq<Spec>, ss: seq<State>, x: real, k: nat, done: seq<State>, v: real)
    requires ValidStates(fs, ss) && Underway(fs, ss, x, k, done, v) && k < |fs|
    ensures var head := Step(fs[k], ss[k], v);
      && (head.1.Some? ==> Underway(fs, ss, x, k + 1, done + [head.0], head.1.value))
      && (head.1.None? ==> StepAll(fs, ss, x) == (done + [head.0] + ss[k + 1..], None))
  {
    hide Step;
    var head := Step(fs[k], ss[k], v);
    assert fs[k..][1..] == fs[k + 1..] && ss[k..][1..] == ss[k + 1..];
    if head.1.Some? {
      var tail := StepAll(fs[k + 1..], ss[k + 1..], head.1.value).0;
      assert done + ([head.0] + tail) == done + [head.0] + tail;
    } else {
      assert done + ([head.0] + ss[k + 1..]) == done + [head.0] + ss[k + 1..];
    }
  }

  lemma UnderwayEnd(fs: seq<Spec>, ss: seq<State>, x: real, done: seq<State>, v: real)
    requires ValidStates(fs, ss) && Underway(fs, ss, x, |fs|, done, v)
    ensures StepAll(fs, ss, x) == (done, Some(v))
  {
    assert done + [] == done;
  }

  ghost function RunAll(fs: seq<Spec>, ss: seq<State>, xs: seq<real>): (r: (seq<State>, seq<real>))
    requires ValidStates(fs, ss)
    ensures ValidStates(fs, r.0)
  {
    if xs == [] then (ss, [])
    else
      var before := RunAll(fs, ss, xs[..|xs| - 1]);
      var step := StepAll(fs, before.0, xs[|xs| - 1]);
      (step.0, before.1 + Emitted(step.1))
  }

  // ---------- stage by stage ----------

  /** The whole input through the first stage, its whole output through the
      second, and so on. */
  ghost function StageWise(fs: seq<Spec>, ss: seq<State>, xs: seq<real>): (r: (seq<State>, seq<real>))
    requires ValidStates(fs, ss)
    ensures ValidStates(fs, r.0)
  {
    if fs == [] then ([], xs)
    else
      var head := Run(fs[0], ss[0], xs);
      var tail := StageWise(fs[1..], ss[1..], head.1);
      ([head.0] + tail.0, tail.1)
  }

  lemma {:induction false} StageWiseEmpty(fs: seq<Spec>, ss: seq<State>)
    requires ValidStates(fs, ss)
    ensures StageWise(fs, ss, []) == (ss, [])
  {
    if fs != [] {
      StageWiseEmpty(fs[1..], ss[1..]);
      assert [ss[0]] + ss[1..] == ss;
    }
  }

  lemma {:induction false} StageWiseSnoc(fs: seq<Spec>, ss: seq<State>, xs: seq<real>, x: real)
    requires ValidStates(fs, ss)
    ensures var before := StageWise(fs, ss, xs);
      var step := StepAll(fs, before.0, x);
      StageWise(fs, ss, xs + [x]) == (step.0, before.1 + Emitted(step.1))
  {
    if fs != [] {
      var head := Run(fs[0], ss[0], xs);
      var step := Step(fs[0], head.0, x);
      var tail := StageWise(fs[1..], ss[1..], head.1);
      RunSnoc(fs[0], ss[0], xs, x);
      assert StageWise(fs, ss, xs).0[1..] == tail.0;
      if step.1.Some? {
        StageWiseSnoc(fs[1..], ss[1..], head.1, step.1.value);
      } else {
        assert head.1 + [] == head.1;
        assert tail.1 + [] == tail.1;
      }
    }
  }

  /** Interleaving the stages sample by sample changes nothing. */
  lemma {:induction false} RunAllIsStageWise(fs: seq<Spec>, ss: seq<State>, xs: seq<real>)
    requires ValidStates(fs, ss)
    ensures RunAll(fs, ss, xs) == StageWise(fs, ss, xs)
  {
    hide StageWise;
    hide StepAll;
    if xs == [] {
      StageWiseEmpty(fs, ss);
    } else {
      var n := |xs| - 1;
      RunAllIsStageWise(fs, ss, xs[..n]);
      StageWiseSnoc(fs, ss, xs[..n], xs[n]);
      assert xs[..n] + [xs[n]] == xs;
    }
  }

  // ---------- counts ----------

  ghost function Decimation(fs: seq<Spec>): (d: nat)
    requires ValidSpecs(fs)
    ensures d >= 1
  {
    if fs == [] then 1
    else
      assert fs[0].factor * Decimation(fs[1..]) >= 1 by { MulMono(1, fs[0].factor, Decimation(fs[1..])); }
      fs[0].factor * Decimation(fs[1..])
  }

  /** How many outputs n inputs produce, stage by stage. */
  ghost function OutputCount(fs: seq<Spec>, ss: seq<State>, n: nat): nat
    requires ValidStates(fs, ss)
  {
    if fs == [] then n
    else OutputCount(fs[1..], ss[1..], Quotient(ss[0].phase + n, fs[0].factor))
  }

  lemma {:induction false} StageWiseCount(fs: seq<Spec>, ss: seq<State>, xs: seq<real>)
    requires ValidStates(fs, ss)
    ensures |StageWise(fs, ss, xs).1| == OutputCount(fs, ss, |xs|)
  {
    if fs != [] {
      CountAfter(fs[0], ss[0], xs);
      StageWiseCount(fs[1..], ss[1..], Run(fs[0], ss[0], xs).1);
    }
  }

  lemma {:induction false} OutputCountMono(fs: seq<Spec>, ss: seq<State>, m: nat, n: nat)
    requires ValidStates(fs, ss) && m <= n
    ensures OutputCount(fs, ss, m) <= OutputCount(fs, ss, n)
  {
    if fs != [] {
      DivMono(ss[0].phase + m, ss[0].phase + n, fs[0].factor);
      OutputCountMono(fs[1..], ss[1..], Quotient(ss[0].phase + m, fs[0].factor), Quotient(ss[0].phase + n, fs[0].factor));
    }
  }

  lemma FreshTail(fs: seq<Spec>)
    requires ValidSpecs(fs) && fs != []
    ensures FreshStates(fs)[1..] == FreshStates(fs[1..])
  {
  }

  /** From a fresh chain the stages' floors compose into one: n inputs give
      n / D outputs, D being the product of the factors. */
  lemma {:induction false} FreshCount(fs: seq<Spec>, n: nat)
    requires ValidSpecs(fs)
    ensures OutputCount(fs, FreshStates(fs), n) == Quotient(n, Decimation(fs))
  {
    if fs != [] {
      FreshTail(fs);
      FreshCount(fs[1..], Quotient(n, fs[0].factor));
      DivDiv(n, fs[0].factor, Decimation(fs[1..]));
    }
  }

  // ---------- the equivalent single filter ----------

  ghost function Conv(taps: seq<real>, xs: seq<real>, n: int): real {
    Convolved(taps, [], xs, n)
  }

  ghost function UpsampledTerm(t: seq<real>, f: nat, h: seq<real>, j: int): int -> real {
    k => Times(At(h, k), At(t, j - k * f))
  }

  /** The taps t convolved with h, h being spread out by the decimation f that
      comes before it. */
  ghost function Compose(t: seq<real>, f: nat, h: seq<real>): (c: seq<real>)
    requires |t| > 0 && |h| > 0
    ensures |c| == |t| + f * (|h| - 1) && |c| > 0
  {
    ComposedLength(|t|, f, |h|);
    seq(|t| + f * (|h| - 1), j => Sum(UpsampledTerm(t, f, h, j), |h|))
  }

  lemma ComposedLength(t: nat, f: nat, h: nat)
    requires t > 0 && h > 0
    ensures t + f * (h - 1) > 0
  {
    assert f * (h - 1) >= 0;
  }

  /** The taps of the whole chain. */
  ghost function CompositeTaps(fs: seq<Spec>): (h: seq<real>)
    requires ValidSpecs(fs)
    ensures |h| > 0
  {
    if fs == [] then [1.0]
    else Compose(fs[0].taps, fs[0].factor, CompositeTaps(fs[1..]))
  }

  ghost function Cell(t: seq<real>, f: nat, h: seq<real>, xs: seq<real>, n: int): (int, int) -> real {
    (j, k) => Times(Times(At(h, k), At(t, j - k * f)), Past([], xs, n - j))
  }

  ghost function Delayed(t: seq<real>, f: nat, h: seq<real>, xs: seq<real>, n: int): int -> real {
    k => Times(At(h, k), Conv(t, xs, n - k * f))
  }

  lemma TimesAssoc(a: real, b: real, c: real)
    ensures Times(Times(a, b), c) == Times(a, Times(b, c))
    ensures Times(a, b) == Times(b, a)
  {
  }

  lemma TimesZero(a: real)
    ensures Times(a, 0.0) == 0.0 && Times(0.0, a) == 0.0
    ensures Times(1.0, a) == a && Times(a, 1.0) == a
  {
  }

  lemma SumTimes(f: int -> real, g: int -> real, c: real, n: nat)
    requires forall k :: 0 <= k < n ==> g(k) == Times(c, f(k))
    ensures Sum(g, n) == Times(c, Sum(f, n))
  {
    SumScale(f, g, c, n);
  }

  /** Row j of the table sums to one term of the composed filter. */
  lemma ComposeRow(t: seq<real>, f: nat, h: seq<real>, xs: seq<real>, n: int, j: nat)
    requires |t| > 0 && |h| > 0 && j < |Compose(t, f, h)|
    ensures Tapped(Compose(t, f, h), [], xs, n)(j) == Sum(Row(Cell(t, f, h, xs, n), j), |h|)
  {
    hide Times;
    var x := Past([], xs, n - j);
    var term := UpsampledTerm(t, f, h, j);
    forall k | 0 <= k < |h|
      ensures Row(Cell(t, f, h, xs, n), j)(k) == Times(x, term(k))
    {
      TimesAssoc(term(k), x, x);
    }
    SumTimes(term, Row(Cell(t, f, h, xs, n), j), x, |h|);
    TimesAssoc(x, Sum(term, |h|), x);
  }

  /** A delayed copy of t picks out the input that much earlier. */
  lemma DelayedTaps(t: seq<real>, xs: seq<real>, n: int, s: nat, c: real, col: int -> real, len: nat)
    requires s + |t| <= len
    requires forall j :: 0 <= j < len ==> col(j) == Times(c, Times(At(t, j - s), Past([], xs, n - j)))
    ensures Sum(col, len) == Times(c, Conv(t, xs, n - s))
  {
    hide Times;
    hide Past;
    var tap := Tapped(t, [], xs, n - s);
    var scaled := i => Times(c, tap(i));
    forall j | 0 <= j < s
      ensures col(j) == 0.0
    {
      TimesZero(c);
      TimesZero(Past([], xs, n - j));
    }
    forall i | 0 <= i < len - s
      ensures scaled(i) == col(i + s)
    {
      assert n - (i + s) == n - s - i;
    }
    SumShift(col, scaled, s, len);
    SumTimes(tap, scaled, c, len - s);
    forall i | |t| <= i < len - s
      ensures tap(i) == 0.0
    {
      TimesZero(Past([], xs, n - s - i));
    }
    SumExtend(tap, |t|, len - s);
  }

  /** Column k sums to one tap of h times the delayed output of t. */
  lemma ComposeColumn(t: seq<real>, f: nat, h: seq<real>, xs: seq<real>, n: int, k: nat, len: nat)
    requires |t| > 0 && k < |h| && 0 <= k * f && k * f + |t| <= len
    ensures Sum(Column(Cell(t, f, h, xs, n), k), len) == Delayed(t, f, h, xs, n)(k)
  {
    hide Times;
    hide Conv;
    var s := k * f;
    var col := Column(Cell(t, f, h, xs, n), k);
    forall j | 0 <= j < len
      ensures col(j) == Times(At(h, k), Times(At(t, j - s), Past([], xs, n - j)))
    {
      TimesAssoc(At(h, k), At(t, j - s), Past([], xs, n - j));
    }
    DelayedTaps(t, xs, n, s, At(h, k), col, len);
  }

  lemma ColumnFits(t: seq<real>, f: nat, h: seq<real>, k: nat)
    requires |t| > 0 && k < |h|
    ensures 0 <= k * f && k * f + |t| <= |Compose(t, f, h)|
  {
    MulMono(k, |h| - 1, f);
  }

  lemma ComposeRows(t: seq<real>, f: nat, h: seq<real>, xs: seq<real>, n: int)
    requires |t| > 0 && |h| > 0
    ensures var c := Compose(t, f, h);
      Conv(c, xs, n) == Sum(RowSums(Cell(t, f, h, xs, n), |h|), |c|)
  {
    hide Cell;
    hide Compose;
    hide Tapped;
    var c := Compose(t, f, h);
    var cell := Cell(t, f, h, xs, n);
    forall j | 0 <= j < |c|
      ensures Tapped(c, [], xs, n)(j) == RowSums(cell, |h|)(j)
    {
      ComposeRow(t, f, h, xs, n, j);
    }
    SumEq(Tapped(c, [], xs, n), RowSums(cell, |h|), |c|);
  }

  lemma ComposeColumns(t: seq<real>, f: nat, h: seq<real>, xs: seq<real>, n: int)
    requires |t| > 0 && |h| > 0
    ensures Sum(ColumnSums(Cell(t, f, h, xs, n), |Compose(t, f, h)|), |h|) == Sum(Delayed(t, f, h, xs, n), |h|)
  {
    hide Cell;
    hide Compose;
    hide Delayed;
    var len := |Compose(t, f, h)|;
    var cell := Cell(t, f, h, xs, n);
    forall k | 0 <= k < |h|
      ensures ColumnSums(cell, len)(k) == Delayed(t, f, h, xs, n)(k)
    {
      ColumnFits(t, f, h, k);
      ComposeColumn(t, f, h, xs, n, k, len);
    }
    SumEq(ColumnSums(cell, len), Delayed(t, f, h, xs, n), |h|);
  }

  /** Filtering with the composed taps is filtering with t and then with h, the
      taps of h reaching back f input samples each. */
  lemma ComposeConvolves(t: seq<real>, f: nat, h: seq<real>, xs: seq<real>, n: int)
    requires |t| > 0 && |h| > 0
    ensures Conv(Compose(t, f, h), xs, n) == Sum(Delayed(t, f, h, xs, n), |h|)
  {
    hide *;
    ComposeRows(t, f, h, xs, n);
    SumSwap(Cell(t, f, h, xs, n), |Compose(t, f, h)|, |h|);
    ComposeColumns(t, f, h, xs, n);
  }

  lemma SilentBeforeStart(taps: seq<real>, xs: seq<real>, n: int)
    requires n < 0
    ensures Conv(taps, xs, n) == 0.0
  {
    hide Times;
    forall k | 0 <= k < |taps|
      ensures Tapped(taps, [], xs, n)(k) == 0.0
    {
      TimesZero(At(taps, k));
    }
    SumZero(Tapped(taps, [], xs, n), |taps|);
  }

  lemma NonPositive(j: int, f: nat)
    requires j < 0
    ensures (j + 1) * f - 1 < 0
  {
    MulMono(j + 1, 0, f);
  }

  /** The output of a fresh first stage, at any time including before its start. */
  lemma FirstStageAt(f: Spec, xs: seq<real>, j: int)
    requires ValidSpec(f) && j < Quotient(|xs|, f.factor)
    ensures Past([], Run(f, Fresh(f), xs).1, j) == Conv(f.taps, xs, (j + 1) * f.factor - 1)
  {
    hide Run;
    hide Quotient;
    if j >= 0 {
      FreshRunConvolves(f, xs, j);
    } else {
      NonPositive(j, f.factor);
      SilentBeforeStart(f.taps, xs, (j + 1) * f.factor - 1);
    }
  }

  lemma LaterTerm(f: Spec, h: seq<real>, xs: seq<real>, last: int, n: int, k: nat)
    requires ValidSpec(f) && k < |h| && last < Quotient(|xs|, f.factor)
    requires (last + 1) * f.factor == n + 1
    ensures Tapped(h, [], Run(f, Fresh(f), xs).1, last)(k) == Delayed(f.taps, f.factor, h, xs, n)(k)
  {
    hide Times;
    hide Conv;
    hide Run;
    assert (last - k + 1) * f.factor == (last + 1) * f.factor - k * f.factor;
    FirstStageAt(f, xs, last - k);
  }

  /** An output of the later stages, read as a sum over the chain's own input. */
  lemma LaterStages(f: Spec, h: seq<real>, xs: seq<real>, last: int, n: int)
    requires ValidSpec(f) && |h| > 0 && last < Quotient(|xs|, f.factor)
    requires (last + 1) * f.factor == n + 1
    ensures Conv(h, Run(f, Fresh(f), xs).1, last) == Conv(Compose(f.taps, f.factor, h), xs, n)
  {
    hide *;
    var ys := Run(f, Fresh(f), xs).1;
    forall k | 0 <= k < |h|
      ensures Tapped(h, [], ys, last)(k) == Delayed(f.taps, f.factor, h, xs, n)(k)
    {
      LaterTerm(f, h, xs, last, n, k);
    }
    SumEq(Tapped(h, [], ys, last), Delayed(f.taps, f.factor, h, xs, n), |h|);
    ConvIs(h, ys, last);
    SpecHasTaps(f);
    ComposeConvolves(f.taps, f.factor, h, xs, n);
  }

  lemma SpecHasTaps(f: Spec)
    requires ValidSpec(f)
    ensures |f.taps| > 0 && f.factor > 0
  {
  }

  lemma ConvIs(h: seq<real>, xs: seq<real>, n: int)
    ensures Conv(h, xs, n) == Sum(Tapped(h, [], xs, n), |h|)
  {
  }

  lemma ConvUnit(xs: seq<real>, n: nat)
    requires n < |xs|
    ensures Conv([1.0], xs, n) == xs[n]
  {
    var tap := Tapped([1.0], [], xs, n);
    assert Sum(tap, 1) == Sum(tap, 0) + tap(0);
  }

  /** Output m of a fresh chain is the convolution of the composite taps with
      the input at (m + 1) * D - 1: the whole chain is one decimating filter. */
  lemma {:induction false} CascadeConvolves(fs: seq<Spec>, xs: seq<real>, m: nat)
    requires ValidSpecs(fs) && m < Quotient(|xs|, Decimation(fs))
    ensures m < |StageWise(fs, FreshStates(fs), xs).1|
    ensures StageWise(fs, FreshStates(fs), xs).1[m]
         == Conv(CompositeTaps(fs), xs, (m + 1) * Decimation(fs) - 1)
  {
    hide Compose;
    hide Conv;
    hide Run;
    StageWiseCount(fs, FreshStates(fs), xs);
    FreshCount(fs, |xs|);
    if fs == [] {
      ConvUnit(xs, m);
    } else {
      var f, rest := fs[0], fs[1..];
      FreshTail(fs);
      FreshRunConvolves(f, xs, 0);
      DivDiv(|xs|, f.factor, Decimation(rest));
      CascadeConvolves(rest, Run(f, Fresh(f), xs).1, m);
      OutputWithin(Quotient(|xs|, f.factor), Decimation(rest), m);
      ProductTime(m, f.factor, Decimation(rest));
      LaterStages(f, CompositeTaps(rest), xs, (m + 1) * Decimation(rest) - 1, (m + 1) * Decimation(fs) - 1);
    }
  }

  lemma ProductTime(m: nat, f: nat, d: nat)
    ensures (m + 1) * d * f == (m + 1) * (f * d)
  {
  }

  lemma OutputWithin(n: nat, d: nat, m: nat)
    requires d > 0 && m < Quotient(n, d)
    ensures (m + 1) * d <= n
  {
    MulMono(m + 1, n / d, d);
  }

  // ---------- gain ----------

  /** A window of the input that holds the constant c comes out as c times the
      sum of the taps. */
  lemma ConvConstant(h: seq<real>, xs: seq<real>, n: int, c: real)
    requires |h| - 1 <= n < |xs|
    requires forall i :: n - |h| < i <= n ==> At(xs, i) == c
    ensures Conv(h, xs, n) == Times(c, Total(h))
  {
    hide Times;
    var taps := Entries(h);
    forall k | 0 <= k < |h|
      ensures Tapped(h, [], xs, n)(k) == Times(c, taps(k))
    {
      assert Past([], xs, n - k) == c;
      TimesAssoc(c, At(h, k), c);
    }
    SumTimes(taps, Tapped(h, [], xs, n), c, |h|);
  }

  /** Gains multiply along the chain. */
  lemma ComposeGain(t: seq<real>, f: nat, h: seq<real>)
    requires |t| > 0 && |h| > 0
    ensures Total(Compose(t, f, h)) == Times(Total(t), Total(h))
  {
    hide Times;
    hide UpsampledTerm;
    hide Conv;
    var c := Compose(t, f, h);
    var n := |c| - 1;
    var ones := seq(|c|, _ => 1.0);
    ConvConstant(c, ones, n, 1.0);
    TimesZero(Total(c));
    ComposeConvolves(t, f, h, ones, n);
    var taps := Entries(h);
    forall k | 0 <= k < |h|
      ensures Delayed(t, f, h, ones, n)(k) == Times(Total(t), taps(k))
    {
      MulMono(k, |h| - 1, f);
      assert k * f >= 0;
      ConvConstant(t, ones, n - k * f, 1.0);
      TimesZero(Total(t));
      TimesAssoc(At(h, k), Total(t), 1.0);
    }
    SumTimes(taps, Delayed(t, f, h, ones, n), Total(t), |h|);
  }

  ghost predicate UnityGain(fs: seq<Spec>) {
    forall i :: 0 <= i < |fs| ==> Total(fs[i].taps) == 1.0
  }

  lemma {:induction false} CompositeGain(fs: seq<Spec>)
    requires ValidSpecs(fs) && UnityGain(fs)
    ensures Total(CompositeTaps(fs)) == 1.0
  {
    if fs == [] {
      var f := Entries([1.0]);
      assert Sum(f, 1) == Sum(f, 0) + f(0);
    } else {
      CompositeGain(fs[1..]);
      ComposeGain(fs[0].taps, fs[0].factor, CompositeTaps(fs[1..]));
      TimesZero(1.0);
    }
  }

  /** Once the composite filter lies wholly inside a constant input, the chain
      hands the constant through unchanged. */
  lemma ConstantInside(fs: seq<Spec>, xs: seq<real>, c: real, m: nat)
    requires ValidSpecs(fs) && UnityGain(fs) && m < Quotient(|xs|, Decimation(fs))
    requires forall i :: 0 <= i < |xs| ==> xs[i] == c
    requires (m + 1) * Decimation(fs) >= |CompositeTaps(fs)|
    ensures m < |RunAll(fs, FreshStates(fs), xs).1|
    ensures RunAll(fs, FreshStates(fs), xs).1[m] == c
  {
    hide Times;
    hide Quotient;
    hide CompositeTaps;
    hide StageWise;
    hide RunAll;
    var h := CompositeTaps(fs);
    RunAllIsStageWise(fs, FreshStates(fs), xs);
    CascadeConvolves(fs, xs, m);
    OutputWithin(|xs|, Decimation(fs), m);
    ConvConstant(h, xs, (m + 1) * Decimation(fs) - 1, c);
    CompositeGain(fs);
    TimesZero(c);
  }

  // ---------- memory ----------

  /** Each stage's impulse response, in input samples of the whole chain. */
  ghost function Settling(fs: seq<Spec>): nat {
    if fs == [] then 0 else |fs[0].taps| + fs[0].factor * Settling(fs[1..])
  }

  /** The settling time is no shorter than the composite filter. */
  lemma {:induction false} CompositeSettles(fs: seq<Spec>)
    requires ValidSpecs(fs)
    ensures fs != [] ==> |CompositeTaps(fs)| <= Settling(fs)
    ensures fs == [] ==> |CompositeTaps(fs)| == 1
  {
    hide Compose;
    if fs != [] {
      hide CompositeTaps;
      hide Settling;
      CompositeSettles(fs[1..]);
      HeadFigures(fs);
      ScaledLe(fs[0].factor, |CompositeTaps(fs[1..])| - 1, Settling(fs[1..]));
    }
  }

  lemma HeadFigures(fs: seq<Spec>)
    requires ValidSpecs(fs) && fs != []
    ensures |CompositeTaps(fs)| == |fs[0].taps| + fs[0].factor * (|CompositeTaps(fs[1..])| - 1)
    ensures Settling(fs) == |fs[0].taps| + fs[0].factor * Settling(fs[1..])
  {
    hide Compose;
  }

  lemma ScaledLe(f: nat, a: int, b: int)
    requires a <= b
    ensures f * a <= f * b
  {
    MulMono(a, b, f);
  }

  lemma SettledIsInside(fs: seq<Spec>, m: nat)
    requires ValidSpecs(fs) && (m + 1) * Decimation(fs) >= Settling(fs)
    ensures (m + 1) * Decimation(fs) >= |CompositeTaps(fs)|
  {
    hide CompositeTaps;
    hide Settling;
    CompositeSettles(fs);
    MulMono(1, m + 1, Decimation(fs));
  }

  /** A constant input comes out unchanged from the settling time on. */
  lemma ConstantPasses(fs: seq<Spec>, xs: seq<real>, c: real, m: nat)
    requires ValidSpecs(fs) && UnityGain(fs) && m < Quotient(|xs|, Decimation(fs))
    requires forall i :: 0 <= i < |xs| ==> xs[i] == c
    requires (m + 1) * Decimation(fs) >= Settling(fs)
    ensures m < |RunAll(fs, FreshStates(fs), xs).1|
    ensures RunAll(fs, FreshStates(fs), xs).1[m] == c
  {
    hide *;
    SettledIsInside(fs, m);
    ConstantInside(fs, xs, c, m);
  }

  ghost predicate SamePhases(ss: seq<State>, tt: seq<State>) {
    |ss| == |tt| && forall i :: 0 <= i < |ss| ==> ss[i].phase == tt[i].phase
  }

  ghost predicate AgreeFrom(xs: seq<real>, ys: seq<real>, a: nat) {
    |xs| == |ys| && forall i :: a <= i < |xs| ==> xs[i] == ys[i]
  }

  lemma OutputForgotten(f: Spec, s: State, t: State, xs: seq<real>, ys: seq<real>, a: nat, m: nat)
    requires ValidState(f, s) && ValidState(f, t) && s.phase == t.phase && AgreeFrom(xs, ys, a)
    requires m < |Run(f, s, xs).1| && m < |Run(f, t, ys).1|
    requires Quotient(s.phase + a + |f.taps| - 1, f.factor) <= m
    ensures Run(f, s, xs).1[m] == Run(f, t, ys).1[m]
  {
    hide Run;
    hide Convolved;
    hide OutputTime;
    hide Quotient;
    RunConvolves(f, s, xs, m);
    RunConvolves(f, t, ys, m);
    TimeReached(f, s.phase, a, m);
    SameWindow(f.taps, s.line, t.line, xs, ys, OutputTime(f, s.phase, m), a);
  }

  /** Two runs of one stage at equal phase whose inputs agree from a on emit
      equal outputs once a full delay line of agreeing inputs is in. */
  lemma StageForgets(f: Spec, s: State, t: State, xs: seq<real>, ys: seq<real>, a: nat)
    requires ValidState(f, s) && ValidState(f, t) && s.phase == t.phase
    requires AgreeFrom(xs, ys, a)
    ensures AgreeFrom(Run(f, s, xs).1, Run(f, t, ys).1, Quotient(s.phase + a + |f.taps| - 1, f.factor))
  {
    hide Run;
    hide Quotient;
    CountAfter(f, s, xs);
    CountAfter(f, t, ys);
    forall m | Quotient(s.phase + a + |f.taps| - 1, f.factor) <= m < |Run(f, s, xs).1|
      ensures Run(f, s, xs).1[m] == Run(f, t, ys).1[m]
    {
      OutputForgotten(f, s, t, xs, ys, a, m);
    }
  }

  lemma TimeReached(f: Spec, phase: nat, a: nat, m: nat)
    requires ValidSpec(f) && Quotient(phase + a + |f.taps| - 1, f.factor) <= m
    ensures OutputTime(f, phase, m) - |f.taps| + 1 >= a
  {
    MulMono(Quotient(phase + a + |f.taps| - 1, f.factor) + 1, m + 1, f.factor);
  }

  lemma SameWindow(taps: seq<real>, line: seq<real>, line': seq<real>, xs: seq<real>, ys: seq<real>, n: int, a: nat)
    requires AgreeFrom(xs, ys, a) && n < |xs| && n - |taps| + 1 >= a
    ensures Convolved(taps, line, xs, n) == Convolved(taps, line', ys, n)
  {
    hide Times;
    forall k | 0 <= k < |taps|
      ensures Tapped(taps, line, xs, n)(k) == Tapped(taps, line', ys, n)(k)
    {
      assert Past(line, xs, n - k) == Past(line', ys, n - k);
    }
    SumEq(Tapped(taps, line, xs, n), Tapped(taps, line', ys, n), |taps|);
  }

  /** The first output from which two runs are bound to agree. */
  ghost function AgreeOutput(fs: seq<Spec>, ss: seq<State>, a: nat): nat
    requires ValidStates(fs, ss)
  {
    if fs == [] then a
    else AgreeOutput(fs[1..], ss[1..], Quotient(ss[0].phase + a + |fs[0].taps| - 1, fs[0].factor))
  }

  lemma {:induction false} StagesForget(fs: seq<Spec>, ss: seq<State>, tt: seq<State>,
                                        xs: seq<real>, ys: seq<real>, a: nat)
    requires ValidStates(fs, ss) && ValidStates(fs, tt) && SamePhases(ss, tt)
    requires AgreeFrom(xs, ys, a)
    ensures AgreeFrom(StageWise(fs, ss, xs).1, StageWise(fs, tt, ys).1, AgreeOutput(fs, ss, a))
  {
    hide Quotient;
    hide Run;
    if fs != [] {
      StageForgets(fs[0], ss[0], tt[0], xs, ys, a);
      StagesForget(fs[1..], ss[1..], tt[1..], Run(fs[0], ss[0], xs).1, Run(fs[0], tt[0], ys).1,
                   Quotient(ss[0].phase + a + |fs[0].taps| - 1, fs[0].factor));
    }
  }

  /** Agreement is reached within the settling time. */
  lemma {:induction false} AgreeInTime(fs: seq<Spec>, ss: seq<State>, a: nat)
    requires ValidStates(fs, ss)
    ensures AgreeOutput(fs, ss, a) <= OutputCount(fs, ss, a + Settling(fs))
  {
    if fs != [] {
      var f, p, l, rest := fs[0].factor, ss[0].phase, |fs[0].taps|, Settling(fs[1..]);
      var b := Quotient(p + a + l - 1, f);
      AgreeInTime(fs[1..], ss[1..], b);
      DivAddMultiple(p + a + l - 1, rest, f);
      DivMono(p + a + l - 1 + rest * f, p + (a + (l + f * rest)), f);
      OutputCountMono(fs[1..], ss[1..], b + rest, Quotient(p + (a + Settling(fs)), f));
    }
  }

  /** The settling time bounds the chain's memory. Take two chains at equal
      phases with any contents in their delay lines, and feed them inputs that
      agree from sample a on: every output after the first a + Settling inputs
      is the same in both. With a = 0 it says the contents are forgotten; with
      equal chains, that an output reads only the last Settling inputs. */
  lemma ChainForgets(fs: seq<Spec>, ss: seq<State>, tt: seq<State>, xs: seq<real>, ys: seq<real>, a: nat)
    requires ValidStates(fs, ss) && ValidStates(fs, tt) && SamePhases(ss, tt)
    requires AgreeFrom(xs, ys, a) && a + Settling(fs) <= |xs|
    ensures |RunAll(fs, ss, xs).1| == |RunAll(fs, tt, ys).1|
    ensures forall m :: |RunAll(fs, ss, xs[..a + Settling(fs)]).1| <= m < |RunAll(fs, ss, xs).1| ==>
      RunAll(fs, ss, xs).1[m] == RunAll(fs, tt, ys).1[m]
  {
    var cut := a + Settling(fs);
    RunAllIsStageWise(fs, ss, xs);
    RunAllIsStageWise(fs, tt, ys);
    RunAllIsStageWise(fs, ss, xs[..cut]);
    StageWiseCount(fs, ss, xs[..cut]);
    StagesForget(fs, ss, tt, xs, ys, a);
    AgreeInTime(fs, ss, a);
  }
}
