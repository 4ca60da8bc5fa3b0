/** The stateful decimating filter, as a pure step over its delay line and as
    the ring buffer that implements it; and what a whole run of it computes. */
module Fir {
  import opened Numerics

  /** A filter and its decimation factor: the part that never changes. */
  datatype Spec = Spec(taps: seq<real>, factor: nat)

  /** The delay line, newest sample first, and the inputs since the last output. */
  datatype State = State(line: seq<real>, phase: nat)

  ghost predicate ValidSpec(f: Spec) {
    |f.taps| > 0 && f.factor >= 1
  }

  ghost predicate ValidState(f: Spec, s: State) {
    ValidSpec(f) && |s.line| == |f.taps| && s.phase < f.factor
  }

  ghost function Zeros(n: nat): (z: seq<real>)
    ensures |z| == n && forall i :: 0 <= i < n ==> z[i] == 0.0
  {
    seq(n, _ => 0.0)
  }

  ghost function Fresh(f: Spec): (s: State)
    ensures ValidSpec(f) ==> ValidState(f, s)
  {
    State(Zeros(|f.taps|), 0)
  }

  ghost function Product(a: seq<real>, b: seq<real>): int -> real {
    k => Times(At(a, k), At(b, k))
  }

  ghost function Dot(a: seq<real>, b: seq<real>): real {
    Sum(Product(a, b), |a|)
  }

  ghost function Push(line: seq<real>, x: real): (r: seq<real>)
    requires |line| > 0
    ensures |r| == |line|
  {
    [x] + line[..|line| - 1]
  }

  /** One input sample: shift it in, and on every factor-th call emit the tap sum. */
  ghost function Step(f: Spec, s: State, x: real): (r: (State, Option<real>))
    requires ValidState(f, s)
    ensures ValidState(f, r.0)
  {
    var line := Push(s.line, x);
    if s.phase + 1 < f.factor then (State(line, s.phase + 1), None)
    else (State(line, 0), Some(Dot(f.taps, line)))
  }

  /** A run over an input sequence: the state it ends in and all it emitted. */
  ghost function Run(f: Spec, s: State, xs: seq<real>): (r: (State, seq<real>))
    requires ValidState(f, s)
    ensures ValidState(f, r.0)
  {
    if xs == [] then (s, [])
    else
      var before := Run(f, s, xs[..|xs| - 1]);
      var step := Step(f, before.0, xs[|xs| - 1]);
      (step.0, before.1 + Emitted(step.1))
  }

  lemma RunSnoc(f: Spec, s: State, xs: seq<real>, x: real)
    requires ValidState(f, s)
    ensures var before := Run(f, s, xs);
      var step := Step(f, before.0, x);
      Run(f, s, xs + [x]) == (step.0, before.1 + Emitted(step.1))
  {
    assert (xs + [x])[..|xs|] == xs;
  }

  // ---------- what a run computes ----------

  /** The input at time n of a run over xs that began with `line` in the delay
      line: index -1 is the newest sample already there. */
  ghost function Past(line: seq<real>, xs: seq<real>, n: int): real {
    if n >= 0 then At(xs, n) else At(line, -1 - n)
  }

  ghost function Tapped(taps: seq<real>, line: seq<real>, xs: seq<real>, n: int): int -> real {
    k => Times(At(taps, k), Past(line, xs, n - k))
  }

  /** The convolution of the taps with everything the filter has ever seen. */
  ghost function Convolved(taps: seq<real>, line: seq<real>, xs: seq<real>, n: int): real {
    Sum(Tapped(taps, line, xs, n), |taps|)
  }

  /** The input time at which output m appears. */
  ghost function OutputTime(f: Spec, phase: nat, m: int): int {
    (m + 1) * f.factor - 1 - phase
  }

  /** The delay line after a run is the last |taps| inputs, newest first. */
  lemma {:induction false} LineAfter(f: Spec, s: State, xs: seq<real>)
    requires ValidState(f, s)
    ensures forall k :: 0 <= k < |f.taps| ==>
      Run(f, s, xs).0.line[k] == Past(s.line, xs, |xs| - 1 - k)
  {
    if xs != [] {
      var n := |xs| - 1;
      LineAfter(f, s, xs[..n]);
      var before := Run(f, s, xs[..n]).0;
      forall k | 0 <= k < |f.taps|
        ensures Run(f, s, xs).0.line[k] == Past(s.line, xs, n - k)
      {
        assert Run(f, s, xs).0.line == Push(before.line, xs[n]);
        if k > 0 {
          assert before.line[k - 1] == Past(s.line, xs[..n], n - 1 - (k - 1));
        }
      }
    }
  }

  /** Emission is by count alone: after n inputs a stage that began at `phase`
      has emitted (phase + n) / factor outputs. */
  lemma {:induction false} CountAfter(f: Spec, s: State, xs: seq<real>)
    requires ValidState(f, s)
    ensures |Run(f, s, xs).1| == Quotient(s.phase + |xs|, f.factor)
    ensures Run(f, s, xs).0.phase == Remainder(s.phase + |xs|, f.factor)
  {
    if xs == [] {
      DivModUnique(s.phase, f.factor, 0, s.phase);
    } else {
      CountAfter(f, s, xs[..|xs| - 1]);
      var t := s.phase + |xs| - 1;
      var q, r := t / f.factor, t % f.factor;
      assert t == q * f.factor + r;
      if r + 1 < f.factor {
        DivModUnique(t + 1, f.factor, q, r + 1);
      } else {
        assert (q + 1) * f.factor == q * f.factor + f.factor;
        DivModUnique(t + 1, f.factor, q + 1, 0);
      }
    }
  }

  /** The tap sum over a delay line is the convolution at its newest sample. */
  lemma DotIsConvolved(f: Spec, s: State, xs: seq<real>)
    requires ValidState(f, s)
    ensures Dot(f.taps, Run(f, s, xs).0.line) == Convolved(f.taps, s.line, xs, |xs| - 1)
  {
    hide Times;
    LineAfter(f, s, xs);
    SumEq(Product(f.taps, Run(f, s, xs).0.line), Tapped(f.taps, s.line, xs, |xs| - 1), |f.taps|);
  }

  /** Later inputs do not reach back: the convolution at n reads nothing after n. */
  lemma ConvolvedPrefix(taps: seq<real>, line: seq<real>, xs: seq<real>, ys: seq<real>, n: int)
    requires n < |xs|
    ensures Convolved(taps, line, xs, n) == Convolved(taps, line, xs + ys, n)
  {
    hide Times;
    forall k | 0 <= k < |taps|
      ensures Tapped(taps, line, xs, n)(k) == Tapped(taps, line, xs + ys, n)(k)
    {
      assert Past(line, xs, n - k) == Past(line, xs + ys, n - k);
    }
    SumEq(Tapped(taps, line, xs, n), Tapped(taps, line, xs + ys, n), |taps|);
  }

  /** The m-th output of a run is the convolution at the input time it appears,
      whatever was in the delay line when the run began. */
  lemma {:induction false} RunConvolves(f: Spec, s: State, xs: seq<real>, m: nat)
    requires ValidState(f, s) && m < |Run(f, s, xs).1|
    ensures 0 <= OutputTime(f, s.phase, m) < |xs|
    ensures Run(f, s, xs).1[m] == Convolved(f.taps, s.line, xs, OutputTime(f, s.phase, m))
  {
    var n := |xs| - 1;
    var pre := xs[..n];
    var before := Run(f, s, pre);
    if m < |before.1| {
      RunConvolves(f, s, pre, m);
      assert pre + [xs[n]] == xs;
      ConvolvedPrefix(f.taps, s.line, pre, [xs[n]], OutputTime(f, s.phase, m));
    } else {
      CountAfter(f, s, pre);
      CountAfter(f, s, xs);
      EmissionTime(f.factor, s.phase, n, m);
      DotIsConvolved(f, s, xs);
    }
  }

  lemma EmissionTime(factor: nat, phase: nat, n: nat, m: nat)
    requires factor > 0 && m == (phase + n) / factor && (phase + n) % factor + 1 == factor
    ensures (m + 1) * factor - 1 - phase == n
  {
    assert phase + n == m * factor + (phase + n) % factor;
    assert (m + 1) * factor == m * factor + factor;
  }

  lemma SilentPast(taps: seq<real>, xs: seq<real>, n: int)
    ensures Convolved(taps, Zeros(|taps|), xs, n) == Convolved(taps, [], xs, n)
  {
    hide Times;
    forall k | 0 <= k < |taps|
      ensures Tapped(taps, Zeros(|taps|), xs, n)(k) == Tapped(taps, [], xs, n)(k)
    {
      assert Past(Zeros(|taps|), xs, n - k) == Past([], xs, n - k);
    }
    SumEq(Tapped(taps, Zeros(|taps|), xs, n), Tapped(taps, [], xs, n), |taps|);
  }

  /** The filter as one formula: a fresh filter's m-th output is the plain
      convolution of taps and input at (m + 1) * factor - 1, the input being
      silent before its start. */
  lemma FreshRunConvolves(f: Spec, xs: seq<real>, m: nat)
    requires ValidSpec(f)
    ensures |Run(f, Fresh(f), xs).1| == Quotient(|xs|, f.factor)
    ensures m < Quotient(|xs|, f.factor) ==>
      Run(f, Fresh(f), xs).1[m] == Convolved(f.taps, [], xs, (m + 1) * f.factor - 1)
  {
    hide Convolved;
    CountAfter(f, Fresh(f), xs);
    if m < Quotient(|xs|, f.factor) {
      var n := OutputTime(f, 0, m);
      RunConvolves(f, Fresh(f), xs, m);
      SilentPast(f.taps, xs, n);
    }
  }

  // ---------- the ring buffer ----------

  /** Where the ring keeps the sample that is k steps old, the next write going
      to `pos`. */
  function RingIndex(pos: nat, k: nat, len: nat): int {
    if k < pos then pos - 1 - k else pos - 1 - k + len
  }

  class FirDecimator {
    const taps: seq<real>
    const factor: nat
    const hist: array<real>
    var pos: nat
    var phase: nat
    ghost var line: seq<real>

    ghost function TheSpec(): Spec {
      Spec(taps, factor)
    }

    ghost function Abstract(): State
      reads this
    {
      State(line, phase)
    }

    ghost predicate Valid()
      reads this, hist
    {
      && ValidState(TheSpec(), Abstract())
      && hist.Length == |taps| && pos < |taps|
      && forall k :: 0 <= k < |line| ==> line[k] == hist[RingIndex(pos, k, |taps|)]
    }

    constructor (taps: seq<real>, factor: nat)
      requires |taps| > 0 && factor >= 1
      ensures Valid() && fresh(hist)
      ensures TheSpec() == Spec(taps, factor) && Abstract() == Fresh(TheSpec())
    {
      this.taps := taps;
      this.factor := factor;
      hist := new real[|taps|](_ => 0.0);
      pos := 0;
      phase := 0;
      line := Zeros(|taps|);
    }

    /** Overwrite the oldest sample of the ring with the newest. */
    method Store(x: real)
      requires Valid()
      modifies this`pos, this`line, hist
      ensures Valid() && line == Push(old(line), x)
    {
      hist[pos] := x;
      pos := pos + 1;
      if pos == hist.Length {
        pos := 0;
      }
      line := Push(line, x);
    }

    /** Walk the ring backwards from the newest sample, pairing each tap with
        the sample of its age. */
    method TapSum() returns (acc: real)
      requires Valid()
      ensures acc == Dot(taps, line)
    {
      hide Times;
      var idx := if pos == 0 then |taps| - 1 else pos - 1;
      acc := 0.0;
      for k := 0 to |taps|
        invariant 0 <= idx < |taps| && (k < |taps| ==> idx == RingIndex(pos, k, |taps|))
        invariant acc == Sum(Product(taps, line), k)
      {
        assert line[k] == hist[idx];
        acc := acc + Times(taps[k], hist[idx]);
        idx := if idx == 0 then |taps| - 1 else idx - 1;
      }
    }

    /** Push one input sample; emits on every factor-th call. */
    method Process(x: real) returns (y: Option<real>)
      requires Valid()
      modifies this, hist
      ensures Valid()
      ensures (Abstract(), y) == Step(TheSpec(), old(Abstract()), x)
    {
      Store(x);
      phase := phase + 1;
      if phase < factor {
        return None;
      }
      phase := 0;
      var acc := TapSum();
      return Some(acc);
    }

    /** Back to the state of a new filter. */
    method Reset()
      requires Valid()
      modifies this, hist
      ensures Valid() && Abstract() == Fresh(TheSpec())
    {
      for i := 0 to hist.Length
        invariant forall j :: 0 <= j < i ==> hist[j] == 0.0
      {
        hist[i] := 0.0;
      }
      pos := 0;
      phase := 0;
      line := Zeros(|taps|);
    }
  }
}
