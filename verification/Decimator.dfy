/** The channelizer: mixer and filter cascade over complex samples, and the
    single linear map a fresh one is. */
module Decimator {
  import opened Numerics
  import opened Complex
  import opened Samples
  import opened Mixer
  import opened FirDesign
  import opened Planner
  import Fir
  import Cascade

  // ---------- the pure machine ----------

  /** What never changes: the trigonometry, the phase step and the filters. */
  datatype Design = Design(t: Trig, inc: real, stages: seq<Fir.Spec>)

  datatype State = State(phase: real, i: seq<Fir.State>, q: seq<Fir.State>)

  ghost predicate ValidDesign(d: Design) {
    Cascade.ValidSpecs(d.stages)
  }

  /** Both filters of every stage are at the same decimation phase. */
  ghost predicate ValidState(d: Design, s: State) {
    && Cascade.ValidStates(d.stages, s.i) && Cascade.ValidStates(d.stages, s.q)
    && Cascade.SamePhases(s.i, s.q)
  }

  ghost function FreshState(d: Design): (s: State)
    requires ValidDesign(d)
    ensures ValidState(d, s)
  {
    State(0.0, Cascade.FreshStates(d.stages), Cascade.FreshStates(d.stages))
  }

  /** Two real outputs make a complex one; either missing, there is none. */
  ghost function Paired(i: Option<real>, q: Option<real>): Option<Iq> {
    if i.Some? && q.Some? then Some(Iq(i.value, q.value)) else None
  }

  /** The real and imaginary halves of a cascade step, and whether a sample came
      out of the far end. */
  ghost function StepBoth(d: Design, s: State, x: Iq): (r: (State, Option<Iq>))
    requires ValidState(d, s)
    ensures ValidState(d, r.0)
  {
    var z := Rotate(d.t, s.phase, x);
    var i, q := Cascade.StepAll(d.stages, s.i, z.i), Cascade.StepAll(d.stages, s.q, z.q);
    LockstepStep(d.stages, s.i, s.q, z.i, z.q);
    (State(AdvancePhase(s.phase, d.inc, Tau(d.t)), i.0, q.0),
     Paired(i.1, q.1))
  }

  lemma StepCount(f: Fir.Spec, s: Fir.State, x: real)
    requires Fir.ValidState(f, s)
    ensures Fir.Step(f, s, x).1.Some? <==> s.phase + 1 == f.factor
    ensures Fir.Step(f, s, x).0.phase == if s.phase + 1 == f.factor then 0 else s.phase + 1
  {
  }

  /** Cascades in lockstep stay there and emit together. */
  lemma {:induction false} LockstepStep(fs: seq<Fir.Spec>, ss: seq<Fir.State>, tt: seq<Fir.State>, x: real, y: real)
    requires Cascade.ValidStates(fs, ss) && Cascade.ValidStates(fs, tt) && Cascade.SamePhases(ss, tt)
    ensures Cascade.SamePhases(Cascade.StepAll(fs, ss, x).0, Cascade.StepAll(fs, tt, y).0)
    ensures Cascade.StepAll(fs, ss, x).1.Some? <==> Cascade.StepAll(fs, tt, y).1.Some?
  {
    hide Fir.Step;
    if fs != [] {
      StepCount(fs[0], ss[0], x);
      StepCount(fs[0], tt[0], y);
      var a, b := Fir.Step(fs[0], ss[0], x), Fir.Step(fs[0], tt[0], y);
      if a.1.Some? {
        LockstepStep(fs[1..], ss[1..], tt[1..], a.1.value, b.1.value);
      }
    }
  }

  /** A run over a sample sequence: the final state and everything emitted. */
  ghost function Run(d: Design, s: State, xs: seq<Iq>): (r: (State, seq<Iq>))
    requires ValidState(d, s)
    ensures ValidState(d, r.0)
  {
    if xs == [] then (s, [])
    else
      var before := Run(d, s, xs[..|xs| - 1]);
      var step := StepBoth(d, before.0, xs[|xs| - 1]);
      (step.0, before.1 + Emitted(step.1))
  }

  lemma RunSnoc(d: Design, s: State, xs: seq<Iq>, x: Iq)
    requires ValidState(d, s)
    ensures var before := Run(d, s, xs);
      var step := StepBoth(d, before.0, x);
      Run(d, s, xs + [x]) == (step.0, before.1 + Emitted(step.1))
  {
    assert (xs + [x])[..|xs|] == xs;
  }

  /** Block boundaries are invisible: a run over two blocks is a run over their
      concatenation. */
  lemma {:induction false} RunAppend(d: Design, s: State, xs: seq<Iq>, ys: seq<Iq>)
    requires ValidState(d, s)
    ensures var first := Run(d, s, xs);
      var second := Run(d, first.0, ys);
      Run(d, s, xs + ys) == (second.0, first.1 + second.1)
  {
    hide StepBoth;
    hide Run;
    var first := Run(d, s, xs);
    if ys == [] {
      RunEmpty(d, first.0);
      assert xs + ys == xs;
      assert first.1 + [] == first.1;
    } else {
      var n := |ys| - 1;
      RunAppend(d, s, xs, ys[..n]);
      RunSnoc(d, s, xs + ys[..n], ys[n]);
      RunSnoc(d, first.0, ys[..n], ys[n]);
      assert ys[..n] + [ys[n]] == ys;
      var second := Run(d, first.0, ys[..n]);
      var last := Emitted(StepBoth(d, second.0, ys[n]).1);
      assert (first.1 + second.1) + last == first.1 + (second.1 + last);
      assert xs + ys == (xs + ys[..n]) + [ys[n]];
    }
  }

  lemma RunEmpty(d: Design, s: State)
    requires ValidState(d, s)
    ensures Run(d, s, []) == (s, [])
  {
  }

  // ---------- the two real cascades behind a run ----------

  /** The input after the mixer: sample n turned back by the phase of time n. */
  ghost function Mixed(d: Design, phase: real, xs: seq<Iq>): (z: seq<Iq>)
    ensures |z| == |xs|
    ensures forall n :: 0 <= n < |z| ==> z[n] == Rotate(d.t, PhaseFrom(phase, d.inc, Tau(d.t), n), xs[n])
  {
    seq(|xs|, n requires 0 <= n < |xs| => Rotate(d.t, PhaseFrom(phase, d.inc, Tau(d.t), n), xs[n]))
  }

  ghost function Is(z: seq<Iq>): (r: seq<real>)
    ensures |r| == |z| && forall n :: 0 <= n < |z| ==> r[n] == z[n].i
  {
    seq(|z|, n requires 0 <= n < |z| => z[n].i)
  }

  ghost function Qs(z: seq<Iq>): (r: seq<real>)
    ensures |r| == |z| && forall n :: 0 <= n < |z| ==> r[n] == z[n].q
  {
    seq(|z|, n requires 0 <= n < |z| => z[n].q)
  }

  lemma SplitSnoc(z: seq<Iq>, x: Iq)
    ensures Is(z + [x]) == Is(z) + [x.i] && Qs(z + [x]) == Qs(z) + [x.q]
  {
  }

  lemma MixedSnoc(d: Design, phase: real, xs: seq<Iq>, x: Iq)
    ensures Mixed(d, phase, xs + [x])
         == Mixed(d, phase, xs) + [Rotate(d.t, PhaseFrom(phase, d.inc, Tau(d.t), |xs|), x)]
  {
    hide *;
  }

  lemma MixedPrefix(d: Design, phase: real, xs: seq<Iq>, cut: nat)
    requires cut <= |xs|
    ensures Mixed(d, phase, xs[..cut]) == Mixed(d, phase, xs)[..cut]
  {
    hide *;
  }

  lemma SplitPrefix(z: seq<Iq>, cut: nat)
    requires cut <= |z|
    ensures Is(z[..cut]) == Is(z)[..cut] && Qs(z[..cut]) == Qs(z)[..cut]
  {
    hide *;
  }

  lemma RunAllSnoc(fs: seq<Fir.Spec>, ss: seq<Fir.State>, xs: seq<real>, x: real)
    requires Cascade.ValidStates(fs, ss)
    ensures var before := Cascade.RunAll(fs, ss, xs);
      var step := Cascade.StepAll(fs, before.0, x);
      Cascade.RunAll(fs, ss, xs + [x]) == (step.0, before.1 + Emitted(step.1))
  {
    assert (xs + [x])[..|xs|] == xs;
  }

  /** A run mixes, and then sends the real and the imaginary part through the
      same cascade independently. */
  lemma {:induction false} RunSplits(d: Design, s: State, xs: seq<Iq>)
    requires ValidState(d, s)
    ensures var r := Run(d, s, xs);
      var z := Mixed(d, s.phase, xs);
      && r.0.phase == PhaseFrom(s.phase, d.inc, Tau(d.t), |xs|)
      && r.0.i == Cascade.RunAll(d.stages, s.i, Is(z)).0
      && r.0.q == Cascade.RunAll(d.stages, s.q, Qs(z)).0
      && Is(r.1) == Cascade.RunAll(d.stages, s.i, Is(z)).1
      && Qs(r.1) == Cascade.RunAll(d.stages, s.q, Qs(z)).1
  {
    hide Rotate;
    hide AdvancePhase;
    if xs != [] {
      var n := |xs| - 1;
      var pre, x := xs[..n], xs[n];
      assert pre + [x] == xs;
      RunSplits(d, s, pre);
      var before := Run(d, s, pre);
      var z := Mixed(d, s.phase, pre);
      var zn := Rotate(d.t, before.0.phase, x);
      RunSnoc(d, s, pre, x);
      MixedSnoc(d, s.phase, pre, x);
      SplitSnoc(z, zn);
      RunAllSnoc(d.stages, s.i, Is(z), zn.i);
      RunAllSnoc(d.stages, s.q, Qs(z), zn.q);
      LockstepStep(d.stages, before.0.i, before.0.q, zn.i, zn.q);
      var step := StepBoth(d, before.0, x);
      if step.1.Some? {
        SplitSnoc(before.1, step.1.value);
      } else {
        assert before.1 + [] == before.1;
        assert Is(before.1) + [] == Is(before.1) && Qs(before.1) + [] == Qs(before.1);
      }
    }
  }

  // ---------- main results ----------

  lemma FreshIs(d: Design)
    requires ValidDesign(d)
    ensures Cascade.ValidSpecs(d.stages)
    ensures FreshState(d) == State(0.0, Cascade.FreshStates(d.stages), Cascade.FreshStates(d.stages))
  {
  }

  /** n samples into a fresh channelizer give n / D outputs. */
  lemma OutputsPerInput(d: Design, xs: seq<Iq>)
    requires ValidDesign(d)
    ensures |Run(d, FreshState(d), xs).1| == Quotient(|xs|, Cascade.Decimation(d.stages))
  {
    hide *;
    FreshIs(d);
    var s := FreshState(d);
    var z := Mixed(d, 0.0, xs);
    RunSplits(d, s, xs);
    Cascade.RunAllIsStageWise(d.stages, s.i, Is(z));
    Cascade.StageWiseCount(d.stages, s.i, Is(z));
    Cascade.FreshCount(d.stages, |xs|);
    assert |Is(Run(d, s, xs).1)| == |Run(d, s, xs).1|;
  }

  /** A fresh channelizer is one linear map: output m is the composite filter
      over the mixed input, read at time (m + 1) * D - 1. */
  lemma ChannelizerIsLinear(d: Design, xs: seq<Iq>, m: nat)
    requires ValidDesign(d) && m < Quotient(|xs|, Cascade.Decimation(d.stages))
    ensures var out := Run(d, FreshState(d), xs).1;
      var h := Cascade.CompositeTaps(d.stages);
      var last := (m + 1) * Cascade.Decimation(d.stages) - 1;
      && m < |out|
      && out[m].i == Cascade.Conv(h, Is(Mixed(d, 0.0, xs)), last)
      && out[m].q == Cascade.Conv(h, Qs(Mixed(d, 0.0, xs)), last)
  {
    hide *;
    FreshIs(d);
    var s := FreshState(d);
    var z := Mixed(d, 0.0, xs);
    RunSplits(d, s, xs);
    Cascade.RunAllIsStageWise(d.stages, s.i, Is(z));
    Cascade.RunAllIsStageWise(d.stages, s.q, Qs(z));
    Cascade.CascadeConvolves(d.stages, Is(z), m);
    Cascade.CascadeConvolves(d.stages, Qs(z), m);
    OutputsPerInput(d, xs);
    var out := Run(d, s, xs).1;
    assert Is(out)[m] == out[m].i && Qs(out)[m] == out[m].q;
  }

  /** The mixed input itself, free of the running phase: sample n is turned back
      by 2 pi * offset * n / rate, and left as it is without a positive rate. */
  lemma MixedIsIdeal(t: Trig, offset: real, rate: real, fs: seq<Fir.Spec>, xs: seq<Iq>, n: nat)
    requires Lawful(t) && n < |xs|
    ensures var d := Design(t, PhaseInc(t, offset, rate), fs);
      && (rate > 0.0 ==> Mixed(d, 0.0, xs)[n] == Rotate(t, 2.0 * t.pi * offset * n as real / rate, xs[n]))
      && (rate <= 0.0 ==> Mixed(d, 0.0, xs)[n] == xs[n])
  {
    hide Rotate;
    hide PhaseInc;
    if rate > 0.0 {
      assert AngleAfter(t, offset, rate, n as real) == 2.0 * t.pi * offset * n as real / rate;
    }
    MixIsIdeal(t, offset, rate, n, xs[n]);
  }

  /** Start-up contents and old inputs are forgotten after the settling time:
      two channelizers at equal phases, whatever their delay lines hold, whose
      inputs agree from sample a on, emit the same from input a + settling on. */
  lemma SettlingForgets(d: Design, s: State, s': State, xs: seq<Iq>, ys: seq<Iq>, a: nat)
    requires ValidState(d, s) && ValidState(d, s') && s.phase == s'.phase
    requires Cascade.SamePhases(s.i, s'.i) && Cascade.SamePhases(s.q, s'.q)
    requires |xs| == |ys| && a + Cascade.Settling(d.stages) <= |xs|
    requires forall n :: a <= n < |xs| ==> xs[n] == ys[n]
    ensures var cut := a + Cascade.Settling(d.stages);
      && |Run(d, s, xs).1| == |Run(d, s', ys).1|
      && forall m :: |Run(d, s, xs[..cut]).1| <= m < |Run(d, s, xs).1| ==>
           Run(d, s, xs).1[m] == Run(d, s', ys).1[m]
  {
    hide *;
    ValidHalves(d, s);
    ValidHalves(d, s');
    var cut := a + Cascade.Settling(d.stages);
    var x, y := Mixed(d, s.phase, xs), Mixed(d, s.phase, ys);
    RunSplits(d, s, xs);
    RunSplits(d, s', ys);
    RunSplits(d, s, xs[..cut]);
    MixedPrefix(d, s.phase, xs, cut);
    SplitPrefix(x, cut);
    MixedAgree(d, s.phase, xs, ys, a);
    Cascade.ChainForgets(d.stages, s.i, s'.i, Is(x), Is(y), a);
    Cascade.ChainForgets(d.stages, s.q, s'.q, Qs(x), Qs(y), a);
    SameParts(Run(d, s, xs).1, Run(d, s', ys).1, |Run(d, s, xs[..cut]).1|);
  }

  lemma MixedAgree(d: Design, phase: real, xs: seq<Iq>, ys: seq<Iq>, a: nat)
    requires |xs| == |ys| && forall n :: a <= n < |xs| ==> xs[n] == ys[n]
    ensures Cascade.AgreeFrom(Is(Mixed(d, phase, xs)), Is(Mixed(d, phase, ys)), a)
    ensures Cascade.AgreeFrom(Qs(Mixed(d, phase, xs)), Qs(Mixed(d, phase, ys)), a)
  {
    hide Rotate;
    hide PhaseFrom;
    hide Tau;
    hide Is;
    hide Qs;
    hide Mixed;
  }

  lemma ValidHalves(d: Design, s: State)
    requires ValidState(d, s)
    ensures Cascade.ValidStates(d.stages, s.i) && Cascade.ValidStates(d.stages, s.q)
  {
  }

  lemma SameParts(u: seq<Iq>, v: seq<Iq>, from: nat)
    requires |Is(u)| == |Is(v)|
    requires forall m :: from <= m < |Is(u)| ==> Is(u)[m] == Is(v)[m]
    requires forall m :: from <= m < |Qs(u)| ==> Qs(u)[m] == Qs(v)[m]
    ensures |u| == |v| && forall m :: from <= m < |u| ==> u[m] == v[m]
  {
    forall m | from <= m < |u|
      ensures u[m] == v[m]
    {
      assert Is(u)[m] == Is(v)[m] && Qs(u)[m] == Qs(v)[m];
    }
  }

  // ---------- figures of a plan ----------

  /** The first stage's impulse response, and every later one's stretched by the
      decimation before it. */
  ghost function PlanSettling(plan: seq<StagePlan>): nat {
    if plan == [] then 0 else plan[0].taps + plan[0].factor * PlanSettling(plan[1..])
  }

  ghost predicate Realises(fs: seq<Fir.Spec>, plan: seq<StagePlan>) {
    |fs| == |plan| && forall k :: 0 <= k < |plan| ==> |fs[k].taps| == plan[k].taps && fs[k].factor == plan[k].factor
  }

  /** The plan's figures are those of the filters that realise it: its settling
      time bounds their memory, its factors multiply to their decimation. */
  lemma {:induction false} PlanFigures(fs: seq<Fir.Spec>, plan: seq<StagePlan>)
    requires Realises(fs, plan) && Cascade.ValidSpecs(fs)
    ensures Cascade.Settling(fs) == PlanSettling(plan)
    ensures Cascade.Decimation(fs) == FactorProduct(plan)
  {
    if plan != [] { PlanFigures(fs[1..], plan[1..]); }
  }

  lemma {:induction false} SettlingSplit(plan: seq<StagePlan>, k: nat)
    requires k < |plan|
    ensures PlanSettling(plan[..k + 1]) == PlanSettling(plan[..k]) + plan[k].taps * FactorProduct(plan[..k])
    ensures FactorProduct(plan[..k + 1]) == FactorProduct(plan[..k]) * plan[k].factor
  {
    var s := plan[k];
    if k == 0 {
      assert plan[..1] == [s] && plan[..1][1..] == [];
    } else {
      var f := plan[0].factor;
      SettlingSplit(plan[1..], k - 1);
      assert plan[..k + 1][1..] == plan[1..][..k] && plan[..k][1..] == plan[1..][..k - 1];
      SplitArithmetic(f, PlanSettling(plan[1..][..k - 1]), s.taps, FactorProduct(plan[1..][..k - 1]), s.factor);
    }
  }

  lemma SplitArithmetic(f: nat, a: nat, taps: nat, p: nat, g: nat)
    ensures f * (a + taps * p) == f * a + taps * (f * p)
    ensures f * (p * g) == (f * p) * g
  {
  }

  /** How many values the machine word has: sums and products wrap there. */
  const WORD: nat := USIZE_MAX + 1

  ghost predicate PositiveCounts(plan: seq<StagePlan>) {
    forall j :: 0 <= j < |plan| ==> plan[j].factor >= 1 && plan[j].taps >= 1
  }

  lemma RealisedCounts(fs: seq<Fir.Spec>, plan: seq<StagePlan>)
    requires Realises(fs, plan) && Cascade.ValidSpecs(fs)
    ensures PositiveCounts(plan)
  {
    forall j | 0 <= j < |plan|
      ensures plan[j].factor >= 1 && plan[j].taps >= 1
    {
      assert Fir.ValidSpec(fs[j]);
    }
  }

  /** The figure as words hold it: the running product saturates, the running
      total wraps. */
  ghost function WordSettling(plan: seq<StagePlan>): nat {
    if plan == [] then 0
    else
      var n := |plan| - 1;
      (WordSettling(plan[..n]) + plan[n].taps * Min(FactorProduct(plan[..n]), USIZE_MAX)) % WORD
  }

  /** That is the settling time exactly when the settling time is a word. */
  lemma {:induction false} SettlingExactly(plan: seq<StagePlan>)
    requires PositiveCounts(plan)
    ensures WordSettling(plan) <= USIZE_MAX
    ensures WordSettling(plan) == PlanSettling(plan) <==> PlanSettling(plan) <= USIZE_MAX
  {
    if plan != [] {
      var n := |plan| - 1;
      var product := FactorProduct(plan[..n]);
      SettlingExactly(plan[..n]);
      SettlingSplit(plan, n);
      assert plan[..n + 1] == plan;
      ScaleAtLeast(plan[n].taps, product);
    }
  }

  lemma ScaleAtLeast(taps: nat, n: nat)
    requires taps >= 1
    ensures taps * n >= n
  {
    MulMono(1, taps, n);
  }

  /** Saturating at every factor is saturating once. */
  lemma SaturatedProduct(p: nat, f: nat)
    requires f >= 1
    ensures Min(Min(p, USIZE_MAX) * f, USIZE_MAX) == Min(p * f, USIZE_MAX)
  {
    if p > USIZE_MAX {
      MulMono(1, f, USIZE_MAX);
      MulMono(1, f, p);
    }
  }

  lemma NothingSettles(plan: seq<StagePlan>)
    ensures WordSettling(plan[..0]) == 0 && Min(FactorProduct(plan[..0]), USIZE_MAX) == 1
  {
  }

  lemma WordSettlingStep(plan: seq<StagePlan>, k: nat)
    requires PositiveCounts(plan) && k < |plan|
    ensures var cum := Min(FactorProduct(plan[..k]), USIZE_MAX);
      && WordSettling(plan[..k + 1]) == (WordSettling(plan[..k]) + plan[k].taps * cum) % WORD
      && Min(FactorProduct(plan[..k + 1]), USIZE_MAX) == Min(cum * plan[k].factor, USIZE_MAX)
  {
    hide Min;
    SettlingSplit(plan, k);
    assert plan[..k + 1][..k] == plan[..k];
    SaturatedProduct(FactorProduct(plan[..k]), plan[k].factor);
  }

  /** Wrapping at every factor is wrapping once. */
  lemma WrappedProduct(p: nat, f: nat)
    ensures ((p % WORD) * f) % WORD == (p * f) % WORD
  {
    var q, r := p / WORD, p % WORD;
    assert p == q * WORD + r;
    assert p * f == r * f + (q * f) * WORD;
    DivAddMultiple(r * f, q * f, WORD);
  }

  lemma {:induction false} ProductPositive(plan: seq<StagePlan>)
    requires forall j :: 0 <= j < |plan| ==> plan[j].factor >= 1
    ensures FactorProduct(plan) >= 1
  {
    if plan != [] {
      ProductPositive(plan[1..]);
      MulMono(1, plan[0].factor, FactorProduct(plan[1..]));
    }
  }

  /** Every stage's windowed response has a non-zero sum to scale by. */
  ghost predicate Scalable(t: Trig, sp: Special, plan: seq<StagePlan>, stopbandDb: real)
    requires t.pi > 0.0 && LawfulSpecial(sp) && ValidPlan(plan)
  {
    forall k :: 0 <= k < |plan| ==>
      RawGain(t, sp, plan[k].taps, plan[k].cutoff, plan[k].inputRate, stopbandDb) != 0.0
  }

  lemma PlanHasUnityGain(t: Trig, sp: Special, plan: seq<StagePlan>, stopbandDb: real)
    requires t.pi > 0.0 && LawfulSpecial(sp) && ValidPlan(plan) && Scalable(t, sp, plan, stopbandDb)
    ensures Cascade.UnityGain(PlanSpecs(t, sp, plan, stopbandDb))
  {
    hide LowpassTaps;
    hide RawGain;
    forall k | 0 <= k < |plan|
      ensures Total(PlanSpecs(t, sp, plan, stopbandDb)[k].taps) == 1.0
    {
      LowpassGain(t, sp, plan[k].taps, plan[k].cutoff, plan[k].inputRate, stopbandDb);
    }
  }

  /** Every sound plan can be built: the filter design's own demands hold at
      every stage. */
  lemma {:induction false} SoundIsBuildable(b: Band, unit: real, remaining: nat, plan: seq<StagePlan>)
    requires b.pi > 0.0 && unit > 0.0 && remaining > 0 && Sound(b, unit, remaining, plan)
    ensures ValidPlan(plan)
  {
    if plan != [] {
      hide Times;
      hide EstimateTaps;
      RemainderShrinks(remaining, plan[0].factor);
      PositiveTimes(unit, remaining);
      SoundIsBuildable(b, unit, Quotient(remaining, plan[0].factor), plan[1..]);
      assert forall k :: 0 < k < |plan| ==> plan[k] == plan[1..][k - 1];
    }
  }

  /** Planner and chain together: the channelizer built for an accepted request
      that needs any decimation can be built, decimates by exactly the ratio - a
      word - down to the planned output rate, and gives one output for every
      `ratio` inputs. */
  lemma PlannedChain(t: Trig, sp: Special, b: Band, inputRate: real, outputRate: real, offset: real, xs: seq<Iq>)
    requires t.pi > 0.0 && LawfulSpecial(sp) && b.pi > 0.0
    requires Validate(inputRate, outputRate, b.passband, b.stopband).Ok?
    requires var ratio := Validate(inputRate, outputRate, b.passband, b.stopband).value;
      Plan(b, ratio, inputRate).Ok?
    ensures var ratio := Validate(inputRate, outputRate, b.passband, b.stopband).value;
      var plan := Plan(b, ratio, inputRate).value;
      && (plan == [] <==> ratio == 1) && ValidPlan(plan)
      && (plan != [] ==> plan[|plan| - 1].outputRate == inputRate / ratio as real)
      && var d := Design(t, PhaseInc(t, offset, inputRate), PlanSpecs(t, sp, plan, b.stopbandDb));
      && Cascade.Decimation(d.stages) == FactorProduct(plan) == ratio <= USIZE_MAX
      && Cascade.Settling(d.stages) == PlanSettling(plan)
      && |Run(d, FreshState(d), xs).1| == Quotient(|xs|, ratio)
  {
    hide Plan;
    hide Times;
    hide Sound;
    hide Run;
    hide LowpassTaps;
    RatioPositive(inputRate, outputRate, b.passband, b.stopband);
    var ratio := Validate(inputRate, outputRate, b.passband, b.stopband).value;
    var unit := UnitRate(inputRate, ratio);
    var plan := Plan(b, ratio, inputRate).value;
    UnitTimesRatio(inputRate, ratio);
    PlansAreSound(b, unit, ratio, inputRate);
    SoundIsBuildable(b, unit, ratio, plan);
    SoundProduct(b, unit, ratio, plan);
    if plan != [] { SoundChain(b, unit, ratio, plan, |plan| - 1); }
    var fs := PlanSpecs(t, sp, plan, b.stopbandDb);
    PlanFigures(fs, plan);
    var d := Design(t, PhaseInc(t, offset, inputRate), fs);
    DesignIsValid(d);
    OutputsPerInput(d, xs);
  }

  ghost function ToneSample(t: Trig, level: real, angle: real): Iq {
    Iq(level * t.cos(angle), level * t.sin(angle))
  }

  /** A tone at the channel's own offset comes out as a constant at full level
      from the settling time on. */
  lemma ToneSurvives(t: Trig, sp: Special, plan: seq<StagePlan>, offset: real, rate: real, stopbandDb: real,
                     level: real, xs: seq<Iq>, m: nat)
    requires Lawful(t) && LawfulSpecial(sp) && ValidPlan(plan) && Scalable(t, sp, plan, stopbandDb)
    requires forall n :: 0 <= n < |xs| ==>
      xs[n] == ToneSample(t, level, if rate > 0.0 then 2.0 * t.pi * offset * n as real / rate else 0.0)
    requires var fs := PlanSpecs(t, sp, plan, stopbandDb);
      m < Quotient(|xs|, Cascade.Decimation(fs)) && (m + 1) * Cascade.Decimation(fs) >= Cascade.Settling(fs)
    ensures var d := Design(t, PhaseInc(t, offset, rate), PlanSpecs(t, sp, plan, stopbandDb));
      && m < |Run(d, FreshState(d), xs).1|
      && Run(d, FreshState(d), xs).1[m] == Iq(level, 0.0)
  {
    hide *;
    PiPositive(t);
    var fs := PlanSpecs(t, sp, plan, stopbandDb);
    var d := Design(t, PhaseInc(t, offset, rate), fs);
    DesignIsValid(d);
    PlanHasUnityGain(t, sp, plan, stopbandDb);
    var z := Mixed(d, 0.0, xs);
    forall n | 0 <= n < |xs|
      ensures z[n] == Iq(level, 0.0)
    {
      var angle := if rate > 0.0 then 2.0 * t.pi * offset * n as real / rate else 0.0;
      MixedIsIdeal(t, offset, rate, fs, xs, n);
      ToneToDc(t, angle, level);
      ToneAtZero(t, level);
      assert xs[n] == ToneSample(t, level, angle);
      ToneIs(t, level, angle);
    }
    SteadyPasses(d, xs, level, m);
  }

  lemma ToneIs(t: Trig, level: real, angle: real)
    ensures ToneSample(t, level, angle) == Iq(level * t.cos(angle), level * t.sin(angle))
  {
  }

  lemma ToneAtZero(t: Trig, level: real)
    requires Lawful(t)
    ensures ToneSample(t, level, 0.0) == Iq(level, 0.0)
  {
  }

  lemma PiPositive(t: Trig)
    requires Lawful(t)
    ensures t.pi > 0.0 && Tau(t) > 0.0
  {
  }

  lemma DesignIsValid(d: Design)
    requires Cascade.ValidSpecs(d.stages)
    ensures ValidDesign(d)
  {
  }

  /** A mixed input that stands still comes out unchanged once settled. */
  lemma SteadyPasses(d: Design, xs: seq<Iq>, level: real, m: nat)
    requires ValidDesign(d) && Cascade.UnityGain(d.stages)
    requires m < Quotient(|xs|, Cascade.Decimation(d.stages))
    requires (m + 1) * Cascade.Decimation(d.stages) >= Cascade.Settling(d.stages)
    requires forall n :: 0 <= n < |xs| ==> Mixed(d, 0.0, xs)[n] == Iq(level, 0.0)
    ensures m < |Run(d, FreshState(d), xs).1| && Run(d, FreshState(d), xs).1[m] == Iq(level, 0.0)
  {
    hide *;
    FreshIs(d);
    var s := FreshState(d);
    var z := Mixed(d, 0.0, xs);
    RunSplits(d, s, xs);
    Cascade.ConstantPasses(d.stages, Is(z), level, m);
    Cascade.ConstantPasses(d.stages, Qs(z), 0.0, m);
    var out := Run(d, s, xs).1;
    assert Is(out)[m] == out[m].i && Qs(out)[m] == out[m].q;
  }

  // ---------- the object ----------

  /** The decimation is a word, so that counting with it does not wrap. */
  ghost predicate Countable(d: Design) {
    ValidDesign(d) && Cascade.Decimation(d.stages) <= USIZE_MAX
  }

  /** One stage's I and Q filters, advanced in lockstep. */
  datatype ChannelStage = ChannelStage(i: Fir.FirDecimator, q: Fir.FirDecimator)

  ghost function Objects(s: ChannelStage): set<object> {
    {s.i, s.q, s.i.hist, s.q.hist}
  }

  ghost predicate ValidStage(s: ChannelStage)
    reads Objects(s)
  {
    && s.i != s.q && s.i.hist != s.q.hist
    && s.i.Valid() && s.q.Valid()
    && s.i.TheSpec() == s.q.TheSpec()
    && s.i.phase == s.q.phase
  }

  ghost predicate Apart(stages: seq<ChannelStage>) {
    forall j, k :: 0 <= j < k < |stages| ==> Objects(stages[j]) !! Objects(stages[k])
  }

  ghost function StageSpecs(stages: seq<ChannelStage>): (fs: seq<Fir.Spec>)
    ensures |fs| == |stages|
    ensures forall k :: 0 <= k < |stages| ==> fs[k] == stages[k].i.TheSpec()
  {
    seq(|stages|, k requires 0 <= k < |stages| => stages[k].i.TheSpec())
  }

  ghost predicate ValidPlan(plan: seq<StagePlan>) {
    forall k :: 0 <= k < |plan| ==>
      plan[k].taps >= 3 && plan[k].taps % 2 == 1 && plan[k].factor >= 1 && plan[k].inputRate > 0.0
  }

  /** The filters a plan calls for. */
  ghost function PlanSpecs(t: Trig, sp: Special, plan: seq<StagePlan>, stopbandDb: real): (fs: seq<Fir.Spec>)
    requires t.pi > 0.0 && LawfulSpecial(sp) && ValidPlan(plan)
    ensures Realises(fs, plan) && Cascade.ValidSpecs(fs)
  {
    seq(|plan|, k requires 0 <= k < |plan| =>
      Fir.Spec(LowpassTaps(t, sp, plan[k].taps, plan[k].cutoff, plan[k].inputRate, stopbandDb), plan[k].factor))
  }

  lemma SplicedUpdate(done: seq<Fir.State>, ss: seq<Fir.State>, k: nat, s: Fir.State)
    requires |done| == k < |ss|
    ensures (done + ss[k..])[k := s] == done + [s] + ss[k + 1..]
    ensures (done + ss[k..])[k] == ss[k]
  {
  }

  /** A filter as a planned stage asks for it: a Kaiser low-pass at that stage's
      cutoff and input rate, with its tap count and factor. */
  ghost predicate BuiltFor(t: Trig, sp: Special, f: Fir.Spec, s: StagePlan, stopbandDb: real)
    requires t.pi > 0.0
  {
    && s.inputRate > 0.0 && |f.taps| == s.taps && f.factor == s.factor
    && KaiserShape(t, sp, f.taps, s.cutoff, s.inputRate, stopbandDb)
  }

  lemma StagesBuiltFor(t: Trig, sp: Special, plan: seq<StagePlan>, stopbandDb: real)
    requires t.pi > 0.0 && LawfulSpecial(sp) && ValidPlan(plan)
    ensures var fs := PlanSpecs(t, sp, plan, stopbandDb);
      forall k :: 0 <= k < |plan| ==> BuiltFor(t, sp, fs[k], plan[k], stopbandDb)
  {
    hide KaiserShape;
    hide LowpassTaps;
    forall k | 0 <= k < |plan|
      ensures BuiltFor(t, sp, PlanSpecs(t, sp, plan, stopbandDb)[k], plan[k], stopbandDb)
    {
      LowpassShape(t, sp, plan[k].taps, plan[k].cutoff, plan[k].inputRate, stopbandDb);
    }
  }

  ghost predicate FreshStage(s: ChannelStage, f: Fir.Spec)
    reads Objects(s)
  {
    ValidStage(s) && s.i.TheSpec() == f && s.i.Abstract() == s.q.Abstract() == Fir.Fresh(f)
  }

  /** Two filters with the same taps and factor. */
  method NewStage(taps: seq<real>, factor: nat) returns (s: ChannelStage)
    requires |taps| > 0 && factor >= 1
    ensures fresh(Objects(s)) && FreshStage(s, Fir.Spec(taps, factor))
  {
    var i := new Fir.FirDecimator(taps, factor);
    var q := new Fir.FirDecimator(taps, factor);
    s := ChannelStage(i, q);
  }

  /** One stage a planned stage, each with filters of its own. */
  method BuildStages(t: Trig, sp: Special, plan: seq<StagePlan>, stopbandDb: real)
    returns (chain: seq<ChannelStage>, ghost owned: set<object>)
    requires t.pi > 0.0 && LawfulSpecial(sp) && ValidPlan(plan)
    ensures |chain| == |plan| && fresh(owned) && Apart(chain)
    ensures forall j :: 0 <= j < |chain| ==> Objects(chain[j]) <= owned
    ensures forall j :: 0 <= j < |chain| ==> FreshStage(chain[j], PlanSpecs(t, sp, plan, stopbandDb)[j])
  {
    hide LowpassTaps;
    hide Fir.Fresh;
    ghost var fs := PlanSpecs(t, sp, plan, stopbandDb);
    chain := [];
    owned := {};
    for k := 0 to |plan|
      invariant |chain| == k && fresh(owned) && Apart(chain)
      invariant forall j :: 0 <= j < k ==> Objects(chain[j]) <= owned
      invariant forall j :: 0 <= j < k ==> FreshStage(chain[j], fs[j])
    {
      var s := plan[k];
      var taps := KaiserLowpass(t, sp, s.taps, s.cutoff, s.inputRate, stopbandDb);
      var stage := NewStage(taps, s.factor);
      assert Fir.Spec(taps, s.factor) == fs[k];
      assert forall j :: 0 <= j < k ==> Objects(chain[j]) !! Objects(stage);
      chain := chain + [stage];
      owned := owned + Objects(stage);
    }
  }

  class Channelizer {
    const nco: Nco
    const stages: seq<ChannelStage>
    const plan: seq<StagePlan>
    const outputRate: real
    ghost const design: Design
    ghost const repr: set<object>

    ghost predicate Valid()
      reads this, repr
    {
      && nco in repr && nco.Valid() && nco.t == design.t && nco.phaseInc == design.inc
      && (forall k :: 0 <= k < |stages| ==> Objects(stages[k]) <= repr && nco !in Objects(stages[k]))
      && (forall k :: 0 <= k < |stages| ==> ValidStage(stages[k]))
      && Apart(stages)
      && design.stages == StageSpecs(stages)
      && Realises(design.stages, plan)
      && this !in repr
    }

    ghost function StatesI(): (ss: seq<Fir.State>)
      requires Valid()
      reads this, repr
      ensures |ss| == |stages| && forall k :: 0 <= k < |ss| ==> ss[k] == stages[k].i.Abstract()
      ensures Cascade.ValidStates(design.stages, ss)
    {
      seq(|stages|, k requires 0 <= k < |stages| reads this, repr => stages[k].i.Abstract())
    }

    ghost function StatesQ(): (ss: seq<Fir.State>)
      requires Valid()
      reads this, repr
      ensures |ss| == |stages| && forall k :: 0 <= k < |ss| ==> ss[k] == stages[k].q.Abstract()
      ensures Cascade.ValidStates(design.stages, ss)
    {
      seq(|stages|, k requires 0 <= k < |stages| reads this, repr => stages[k].q.Abstract())
    }

    ghost function Abstract(): (s: State)
      requires Valid()
      reads this, repr
      ensures ValidState(design, s)
    {
      State(nco.phase, StatesI(), StatesQ())
    }

    /** Build the chain a plan calls for: two filters a stage, sharing their
        taps, and the oscillator in front. */
    constructor (t: Trig, sp: Special, plan: seq<StagePlan>, offset: real, inputRate: real, stopbandDb: real)
      requires t.pi > 0.0 && LawfulSpecial(sp) && plan != [] && ValidPlan(plan)
      ensures Valid() && fresh(repr)
      ensures design == Design(t, PhaseInc(t, offset, inputRate), PlanSpecs(t, sp, plan, stopbandDb))
      ensures this.plan == plan && outputRate == plan[|plan| - 1].outputRate
      ensures |design.stages| == |plan| && forall k :: 0 <= k < |plan| ==> BuiltFor(t, sp, design.stages[k], plan[k], stopbandDb)
      ensures ValidDesign(design) && Abstract() == FreshState(design)
    {
      ghost var fs := PlanSpecs(t, sp, plan, stopbandDb);
      StagesBuiltFor(t, sp, plan, stopbandDb);
      hide BuiltFor;
      var chain, owned := BuildStages(t, sp, plan, stopbandDb);
      var oscillator := new Nco(t, offset, inputRate);
      nco := oscillator;
      stages := chain;
      this.plan := plan;
      outputRate := plan[|plan| - 1].outputRate;
      design := Design(t, PhaseInc(t, offset, inputRate), fs);
      repr := owned + {oscillator};
      new;
      hide PhaseInc;
      hide PlanSpecs;
      hide Fir.Fresh;
      assert StageSpecs(stages) == design.stages;
      assert StatesI() == Cascade.FreshStates(fs) && StatesQ() == Cascade.FreshStates(fs);
    }

    /** Total decimation factor; the product wraps at the word size. */
    method Decimation() returns (d: nat)
      requires Valid()
      ensures d == Cascade.Decimation(design.stages) % WORD
      ensures d == Cascade.Decimation(design.stages) <==> Cascade.Decimation(design.stages) <= USIZE_MAX
    {
      d := 1;
      for k := 0 to |plan|
        invariant d == FactorProduct(plan[..k]) % WORD
      {
        SettlingSplit(plan, k);
        WrappedProduct(FactorProduct(plan[..k]), plan[k].factor);
        d := (d * plan[k].factor) % WORD;
      }
      assert plan[..|plan|] == plan;
      PlanFigures(design.stages, plan);
    }

    /** Input samples until the output is free of the start-up transient: the
        settling time exactly when that is a word. */
    method SettlingSamples() returns (total: nat)
      requires Valid()
      ensures total == WordSettling(plan)
      ensures total == Cascade.Settling(design.stages) <==> Cascade.Settling(design.stages) <= USIZE_MAX
    {
      hide Min;
      hide WordSettling;
      hide FactorProduct;
      var cum := 1;
      total := 0;
      NothingSettles(plan);
      RealisedCounts(design.stages, plan);
      for k := 0 to |plan|
        invariant cum == Min(FactorProduct(plan[..k]), USIZE_MAX)
        invariant total == WordSettling(plan[..k])
      {
        WordSettlingStep(plan, k);
        total := (total + plan[k].taps * cum) % WORD;
        cum := Min(cum * plan[k].factor, USIZE_MAX);
      }
      assert plan[..|plan|] == plan;
      PlanFigures(design.stages, plan);
      SettlingExactly(plan);
    }

    /** One stage's pair of filters, one sample. */
    method StepStage(k: nat, v: Iq) returns (y: Option<Iq>)
      requires Valid() && k < |stages|
      modifies Objects(stages[k])
      ensures Valid()
      ensures forall j :: 0 <= j < |stages| && j != k ==>
        stages[j].i.Abstract() == old(stages[j].i.Abstract()) && stages[j].q.Abstract() == old(stages[j].q.Abstract())
      ensures var i := Fir.Step(design.stages[k], old(stages[k].i.Abstract()), v.i);
        var q := Fir.Step(design.stages[k], old(stages[k].q.Abstract()), v.q);
        && stages[k].i.Abstract() == i.0 && stages[k].q.Abstract() == q.0
        && y == Paired(i.1, q.1)
    {
      hide Fir.Step;
      var s := stages[k];
      StepCount(design.stages[k], s.i.Abstract(), v.i);
      StepCount(design.stages[k], s.q.Abstract(), v.q);
      var i := s.i.Process(v.i);
      var q := s.q.Process(v.q);
      y := if i.Some? && q.Some? then Some(Iq(i.value, q.value)) else None;
    }

    /** One stage's effect on the whole chain. */
    method AdvanceStage(k: nat, v: Iq) returns (y: Option<Iq>)
      requires Valid() && k < |stages|
      modifies repr
      ensures Valid() && nco.phase == old(nco.phase)
      ensures var i := Fir.Step(design.stages[k], old(StatesI()[k]), v.i);
        var q := Fir.Step(design.stages[k], old(StatesQ()[k]), v.q);
        && StatesI() == old(StatesI())[k := i.0] && StatesQ() == old(StatesQ())[k := q.0]
        && y == Paired(i.1, q.1) && (i.1.Some? <==> q.1.Some?)
    {
      hide Fir.Step;
      StepCount(design.stages[k], StatesI()[k], v.i);
      StepCount(design.stages[k], StatesQ()[k], v.q);
      y := StepStage(k, v);
    }

    /** A mixed sample through the cascade: a stage that emits nothing ends the
        step there. */
    method RunStages(z: Iq) returns (y: Option<Iq>)
      requires Valid()
      modifies repr
      ensures Valid() && nco.phase == old(nco.phase)
      ensures var i := Cascade.StepAll(design.stages, old(StatesI()), z.i);
        var q := Cascade.StepAll(design.stages, old(StatesQ()), z.q);
        && StatesI() == i.0 && StatesQ() == q.0
        && y == Paired(i.1, q.1)
    {
      hide Cascade.StepAll;
      hide Cascade.Underway;
      hide Fir.Step;
      hide Realises;
      hide Apart;
      hide ValidStage;
      hide Cascade.ValidStates;
      ghost var fs, si, sq := design.stages, StatesI(), StatesQ();
      ghost var doneI: seq<Fir.State>, doneQ: seq<Fir.State> := [], [];
      var v := z;
      Cascade.UnderwayStart(fs, si, z.i);
      Cascade.UnderwayStart(fs, sq, z.q);
      for k := 0 to |stages|
        invariant Valid() && nco.phase == old(nco.phase)
        invariant |doneI| == |doneQ| == k
        invariant StatesI() == doneI + si[k..] && StatesQ() == doneQ + sq[k..]
        invariant Cascade.Underway(fs, si, z.i, k, doneI, v.i)
        invariant Cascade.Underway(fs, sq, z.q, k, doneQ, v.q)
      {
        Cascade.UnderwayNext(fs, si, z.i, k, doneI, v.i);
        Cascade.UnderwayNext(fs, sq, z.q, k, doneQ, v.q);
        Cascade.StateAt(fs, si, k);
        Cascade.StateAt(fs, sq, k);
        ghost var i, q := Fir.Step(fs[k], si[k], v.i).0, Fir.Step(fs[k], sq[k], v.q).0;
        var r := AdvanceStage(k, v);
        SplicedUpdate(doneI, si, k, i);
        SplicedUpdate(doneQ, sq, k, q);
        doneI, doneQ := doneI + [i], doneQ + [q];
        if r.None? {
          return None;
        }
        v := r.value;
      }
      Cascade.UnderwayEnd(fs, si, z.i, doneI, v.i);
      Cascade.UnderwayEnd(fs, sq, z.q, doneQ, v.q);
      assert doneI + si[|stages|..] == doneI && doneQ + sq[|stages|..] == doneQ;
      return Some(v);
    }

    /** One sample through mixer and cascade. */
    method ProcessSample(sample: Iq) returns (y: Option<Iq>)
      requires Valid()
      modifies repr
      ensures Valid()
      ensures (Abstract(), y) == StepBoth(design, old(Abstract()), sample)
    {
      hide Rotate;
      hide AdvancePhase;
      hide Cascade.StepAll;
      ghost var si, sq := StatesI(), StatesQ();
      var z := nco.Mix(sample);
      assert StatesI() == si && StatesQ() == sq;
      y := RunStages(z);
    }

    /** Normalised samples through the chain, the survivors appended to `out`. */
    method ProcessIq(iq: seq<Iq>, out: seq<Iq>) returns (r: seq<Iq>)
      requires Valid()
      modifies repr
      ensures Valid()
      ensures var run := Run(design, old(Abstract()), iq); Abstract() == run.0 && r == out + run.1
    {
      hide StepBoth;
      hide Run;
      ghost var before := Abstract();
      r := out;
      RunEmpty(design, before);
      for n := 0 to |iq|
        invariant Valid()
        invariant Abstract() == Run(design, before, iq[..n]).0 && r == out + Run(design, before, iq[..n]).1
      {
        RunSnoc(design, before, iq[..n], iq[n]);
        assert iq[..n] + [iq[n]] == iq[..n + 1];
        var y := ProcessSample(iq[n]);
        if y.Some? {
          r := r + [y.value];
        }
      }
      assert iq[..|iq|] == iq;
    }

    /** Interleaved wire samples through the chain; an unpaired last component is
        ignored. */
    method Process(interleaved: seq<I16>, out: seq<Iq>) returns (r: seq<Iq>)
      requires Valid()
      modifies repr
      ensures Valid()
      ensures var run := Run(design, old(Abstract()), Sc16ToIq(interleaved));
        Abstract() == run.0 && r == out + run.1
    {
      hide StepBoth;
      hide Run;
      hide Component;
      ghost var before := Abstract();
      ghost var iq := Sc16ToIq(interleaved);
      r := out;
      RunEmpty(design, before);
      for n := 0 to |interleaved| / 2
        invariant Valid()
        invariant Abstract() == Run(design, before, iq[..n]).0 && r == out + Run(design, before, iq[..n]).1
      {
        var sample := Iq(Component(interleaved[2 * n]), Component(interleaved[2 * n + 1]));
        RunSnoc(design, before, iq[..n], iq[n]);
        assert iq[..n] + [iq[n]] == iq[..n + 1];
        var y := ProcessSample(sample);
        if y.Some? {
          r := r + [y.value];
        }
      }
      assert iq[..|iq|] == iq;
    }
  }
}
