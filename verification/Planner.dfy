/** The greedy planner that splits a decimation ratio into stages, and what
    every plan it returns guarantees. */
module Planner {
  import opened Numerics
  import opened FirDesign
  import opened Primes

  const MAX_STAGE_FACTOR: nat := 16

  /** Allowance for rounding in the two rate comparisons. */
  const SLACK: real := 0.000000001

  datatype StagePlan = StagePlan(factor: nat, inputRate: real, outputRate: real,
                                 cutoff: real, stopband: real, taps: nat)

  /** What is asked of every stage. */
  datatype Band = Band(pi: real, passband: real, stopband: real, stopbandDb: real, maxTaps: nat)

  datatype Refusal = NoTransition(factor: nat) | OverBudget(factor: nat, taps: nat)

  datatype PlanError =
    | BadRates
    | OutputAboveInput
    | BadBand
    | StopbandAboveNyquist
    | FractionalRatio
    | NoPlan(remaining: nat, detail: Option<Refusal>)

  datatype Choice = Chosen(plan: StagePlan) | Refused(failure: Option<Refusal>)

  ghost predicate ValidBand(b: Band) {
    b.pi > 0.0 && 0.0 < b.passband < b.stopband
  }

  // ---------- one stage ----------

  /** The stage a factor would give: the last stage stops at the channel's own
      stopband edge, every other only has to keep aliases out of the channel. */
  function StageFor(b: Band, remaining: nat, rate: real, factor: nat): StagePlan
    requires b.pi > 0.0 && factor > 0
  {
    var stageOut := rate / factor as real;
    var stop := if Quotient(remaining, factor) == 1 then b.stopband else stageOut - b.stopband;
    StagePlan(factor, rate, stageOut, (b.passband + stop) / 2.0, stop,
              EstimateTaps(b.pi, b.stopbandDb, stop - b.passband, rate))
  }

  ghost predicate Usable(b: Band, remaining: nat, rate: real, factor: nat)
    requires b.pi > 0.0
  {
    && 2 <= factor <= 16 && factor <= remaining
    && Divides(factor, remaining)
    && b.passband < StageFor(b, remaining, rate, factor).stopband
    && StageFor(b, remaining, rate, factor).taps <= b.maxTaps
  }

  /** Try the factors from `factor` down, keeping the latest reason to refuse. */
  function Search(b: Band, remaining: nat, rate: real, factor: nat, failure: Option<Refusal>): Choice
    requires b.pi > 0.0
  {
    if factor < 2 then Refused(failure)
    else if remaining % factor != 0 then Search(b, remaining, rate, factor - 1, failure)
    else
      var plan := StageFor(b, remaining, rate, factor);
      if plan.stopband <= b.passband then
        Search(b, remaining, rate, factor - 1, Some(NoTransition(factor)))
      else if plan.taps > b.maxTaps then
        Search(b, remaining, rate, factor - 1, Some(OverBudget(factor, plan.taps)))
      else Chosen(plan)
  }

  ghost predicate NothingUsable(b: Band, remaining: nat, rate: real, lo: nat, hi: nat)
    requires b.pi > 0.0
  {
    forall g :: lo < g <= hi ==> !Usable(b, remaining, rate, g)
  }

  lemma StageFactor(b: Band, remaining: nat, rate: real, factor: nat)
    requires b.pi > 0.0 && factor > 0
    ensures StageFor(b, remaining, rate, factor).factor == factor
  {
  }

  /** The search is greedy and complete: it finds the largest usable factor, and
      refuses only when there is none. */
  lemma {:induction false} SearchIsGreedy(b: Band, remaining: nat, rate: real, factor: nat, failure: Option<Refusal>)
    requires b.pi > 0.0 && factor <= MAX_STAGE_FACTOR && factor <= remaining
    ensures var r := Search(b, remaining, rate, factor, failure);
      if r.Chosen? then
        && r.plan.factor <= factor && Usable(b, remaining, rate, r.plan.factor)
        && r.plan == StageFor(b, remaining, rate, r.plan.factor)
        && NothingUsable(b, remaining, rate, r.plan.factor, factor)
      else NothingUsable(b, remaining, rate, 0, factor)
  {
    hide StageFor;
    if factor >= 2 {
      StageFactor(b, remaining, rate, factor);
      if remaining % factor != 0 {
        SearchIsGreedy(b, remaining, rate, factor - 1, failure);
      } else {
        var plan := StageFor(b, remaining, rate, factor);
        if plan.stopband <= b.passband {
          SearchIsGreedy(b, remaining, rate, factor - 1, Some(NoTransition(factor)));
        } else if plan.taps > b.maxTaps {
          SearchIsGreedy(b, remaining, rate, factor - 1, Some(OverBudget(factor, plan.taps)));
        }
      }
    }
  }

  function Choose(b: Band, remaining: nat, rate: real): Choice
    requires b.pi > 0.0
  {
    Search(b, remaining, rate, Min(MAX_STAGE_FACTOR, remaining), None)
  }

  lemma ChooseIsGreedy(b: Band, remaining: nat, rate: real)
    requires b.pi > 0.0
    ensures var r := Choose(b, remaining, rate);
      if r.Chosen? then
        && Usable(b, remaining, rate, r.plan.factor)
        && r.plan == StageFor(b, remaining, rate, r.plan.factor)
        && (forall g :: g > r.plan.factor ==> !Usable(b, remaining, rate, g))
      else forall g :: !Usable(b, remaining, rate, g)
  {
    SearchIsGreedy(b, remaining, rate, Min(MAX_STAGE_FACTOR, remaining), None);
  }

  // ---------- a whole plan ----------

  lemma NextRemainder(b: Band, remaining: nat, rate: real)
    requires b.pi > 0.0 && remaining > 0
    ensures var r := Choose(b, remaining, rate);
      r.Chosen? ==> r.plan.factor > 0 && 1 <= Quotient(remaining, r.plan.factor) < remaining
  {
    ChooseIsGreedy(b, remaining, rate);
    match Choose(b, remaining, rate)
    case Chosen(plan) => RemainderShrinks(remaining, plan.factor);
    case Refused(_) =>
  }

  lemma RemainderShrinks(remaining: nat, factor: nat)
    requires 2 <= factor && Divides(factor, remaining) && remaining > 0
    ensures 1 <= Quotient(remaining, factor) < remaining
  {
    assert remaining == Quotient(remaining, factor) * factor;
    if Quotient(remaining, factor) == 0 { assert false; }
  }

  /** Choose a stage, then plan what remains at its output rate. */
  ghost function Plan(b: Band, remaining: nat, rate: real): Result<seq<StagePlan>, PlanError>
    requires b.pi > 0.0
  {
    if remaining <= 1 then Ok([])
    else
      NextRemainder(b, remaining, rate);
      match Choose(b, remaining, rate)
      case Refused(failure) => Err(NoPlan(remaining, failure))
      case Chosen(plan) =>
        match Plan(b, Quotient(remaining, plan.factor), plan.outputRate)
        case Err(e) => Err(e)
        case Ok(rest) => Ok([plan] + rest)
  }

  /** The checks made before planning; the ratio to plan for if they pass. */
  function Validate(inputRate: real, outputRate: real, passband: real, stopband: real): Result<nat, PlanError> {
    if inputRate <= 0.0 || outputRate <= 0.0 then Err(BadRates)
    else if outputRate > inputRate then Err(OutputAboveInput)
    else if passband <= 0.0 || stopband <= passband then Err(BadBand)
    else if stopband > outputRate / 2.0 + SLACK then Err(StopbandAboveNyquist)
    else
      var ratio := inputRate / outputRate;
      var rounded := Round(ratio);
      if rounded < 1 || Abs(ratio - rounded as real) > SLACK then Err(FractionalRatio)
      else Ok(if rounded > USIZE_MAX then USIZE_MAX else rounded)
  }

  method PlanStages(inputRate: real, outputRate: real, b: Band) returns (r: Result<seq<StagePlan>, PlanError>)
    requires b.pi > 0.0
    ensures var ratio := Validate(inputRate, outputRate, b.passband, b.stopband);
      r == if ratio.Err? then Err(ratio.error) else Plan(b, ratio.value, inputRate)
  {
    var checked := Validate(inputRate, outputRate, b.passband, b.stopband);
    if checked.Err? {
      return Err(checked.error);
    }
    var remaining: nat := checked.value;
    var stages: seq<StagePlan> := [];
    var rate := inputRate;
    ghost var whole := Plan(b, remaining, rate);
    assert forall rest: seq<StagePlan> :: [] + rest == rest;
    while remaining > 1
      invariant var rest := Plan(b, remaining, rate);
        whole == if rest.Err? then rest else Ok(stages + rest.value)
      decreases remaining
    {
      var chosen: Option<StagePlan> := None;
      var failure: Option<Refusal> := None;
      var factor: nat := Min(MAX_STAGE_FACTOR, remaining);
      while factor >= 2 && chosen.None?
        invariant Choose(b, remaining, rate)
          == if chosen.Some? then Chosen(chosen.value) else Search(b, remaining, rate, factor, failure)
        decreases factor, chosen.None?
      {
        if remaining % factor == 0 {
          var plan := StageFor(b, remaining, rate, factor);
          if plan.stopband <= b.passband {
            failure := Some(NoTransition(factor));
          } else if plan.taps > b.maxTaps {
            failure := Some(OverBudget(factor, plan.taps));
          } else {
            chosen := Some(plan);
          }
        }
        factor := factor - 1;
      }
      if chosen.None? {
        return Err(NoPlan(remaining, failure));
      }
      NextRemainder(b, remaining, rate);
      var plan := chosen.value;
      ghost var before := stages;
      rate := plan.outputRate;
      remaining := Quotient(remaining, plan.factor);
      stages := stages + [plan];
      assert forall rest :: before + ([plan] + rest) == stages + rest;
    }
    assert stages + [] == stages;
    return Ok(stages);
  }

  // ---------- what every plan guarantees ----------

  ghost function FactorProduct(stages: seq<StagePlan>): nat {
    if stages == [] then 1 else stages[0].factor * FactorProduct(stages[1..])
  }

  /** A plan for decimating by `remaining` down to the rate `unit`: rates chain
      from unit * remaining to unit, each stage halving at least; cutoffs are the
      middle of the transition band; taps are Kaiser's estimate for it, odd, at
      least three and within budget; and
      every stopband edge keeps aliases off the channel. */
  ghost predicate Sound(b: Band, unit: real, remaining: nat, stages: seq<StagePlan>)
    requires b.pi > 0.0
  {
    if stages == [] then remaining == 1
    else
      var s := stages[0];
      && 2 <= s.factor <= 16 && Divides(s.factor, remaining)
      && s.inputRate == Times(unit, remaining as real)
      && s.outputRate == Times(unit, (Quotient(remaining, s.factor)) as real)
      && s.stopband == (if stages[1..] == [] then b.stopband else s.outputRate - b.stopband)
      && b.passband < s.cutoff < s.stopband && s.cutoff - b.passband == s.stopband - s.cutoff
      && s.taps == EstimateTaps(b.pi, b.stopbandDb, s.stopband - b.passband, s.inputRate)
      && s.taps % 2 == 1 && 3 <= s.taps <= b.maxTaps
      && Sound(b, unit, Quotient(remaining, s.factor), stages[1..])
  }

  /** Dividing the rate by a factor of the remainder leaves the unit alone. */
  lemma RateDivides(unit: real, remaining: nat, factor: nat)
    requires factor > 0 && Divides(factor, remaining)
    ensures Times(unit, remaining as real) / factor as real == Times(unit, (Quotient(remaining, factor)) as real)
  {
    var q, f := (Quotient(remaining, factor)) as real, factor as real;
    assert remaining == Quotient(remaining, factor) * factor;
    assert remaining as real == q * f;
    assert unit * (q * f) == (unit * q) * f;
    QuotientOf(unit * q, f);
  }

  lemma QuotientOf(x: real, f: real)
    requires f != 0.0
    ensures (x * f) / f == x
  {
  }

  /** Every plan is sound. */
  lemma {:induction false} PlansAreSound(b: Band, unit: real, remaining: nat, rate: real)
    requires ValidBand(b) && remaining >= 1 && rate == Times(unit, remaining as real)
    requires Plan(b, remaining, rate).Ok?
    ensures Sound(b, unit, remaining, Plan(b, remaining, rate).value)
    ensures Plan(b, remaining, rate).value == [] <==> remaining == 1
    decreases remaining
  {
    hide Times;
    if remaining > 1 {
      ChooseIsGreedy(b, remaining, rate);
      var plan := Choose(b, remaining, rate).plan;
      RateDivides(unit, remaining, plan.factor);
      RemainderShrinks(remaining, plan.factor);
      PlansAreSound(b, unit, Quotient(remaining, plan.factor), plan.outputRate);
      var rest := Plan(b, Quotient(remaining, plan.factor), plan.outputRate).value;
      assert ([plan] + rest)[1..] == rest;
    }
  }

  lemma ExactQuotient(n: nat, f: nat)
    requires Divides(f, n)
    ensures n == f * Quotient(n, f)
  {
  }

  lemma {:induction false} SoundProduct(b: Band, unit: real, remaining: nat, stages: seq<StagePlan>)
    requires b.pi > 0.0 && Sound(b, unit, remaining, stages)
    ensures FactorProduct(stages) == remaining
  {
    hide Times;
    hide Quotient;
    hide EstimateTaps;
    if stages != [] {
      ExactQuotient(remaining, stages[0].factor);
      SoundProduct(b, unit, Quotient(remaining, stages[0].factor), stages[1..]);
    }
  }

  lemma TimesUnit(unit: real)
    ensures Times(unit, 1.0) == unit
  {
  }

  /** Consecutive stages meet, the first starts at the input rate and the last
      ends at the output rate. */
  lemma {:induction false} SoundChain(b: Band, unit: real, remaining: nat, stages: seq<StagePlan>, i: nat)
    requires b.pi > 0.0 && Sound(b, unit, remaining, stages) && i < |stages|
    ensures i == 0 ==> stages[i].inputRate == Times(unit, remaining as real)
    ensures i + 1 < |stages| ==> stages[i].outputRate == stages[i + 1].inputRate
    ensures i + 1 == |stages| ==> stages[i].outputRate == unit
    decreases i
  {
    hide Times;
    hide Quotient;
    hide EstimateTaps;
    if i > 0 {
      SoundChain(b, unit, Quotient(remaining, stages[0].factor), stages[1..], i - 1);
    } else if |stages| == 1 {
      TimesUnit(unit);
    }
  }

  // ---------- refusals ----------

  /** A factor that divides is refused for want of a transition band exactly
      when its stage is not the last and its output rate does not exceed
      stopband plus passband. */
  lemma TransitionRefusal(b: Band, unit: real, remaining: nat, rate: real, factor: nat)
    requires ValidBand(b) && rate == Times(unit, remaining as real)
    requires factor > 0 && Divides(factor, remaining)
    ensures StageFor(b, remaining, rate, factor).stopband <= b.passband <==>
      Quotient(remaining, factor) != 1 && Times(unit, (Quotient(remaining, factor)) as real) <= b.stopband + b.passband
  {
    RateDivides(unit, remaining, factor);
  }

  /** So it never happens when twice the output rate exceeds their sum. */
  lemma TransitionAlwaysLeft(b: Band, unit: real, remaining: nat, rate: real, factor: nat)
    requires ValidBand(b) && rate == Times(unit, remaining as real) && remaining > 0
    requires b.stopband + b.passband < 2.0 * unit
    requires factor >= 2 && Divides(factor, remaining)
    ensures b.passband < StageFor(b, remaining, rate, factor).stopband
  {
    TransitionRefusal(b, unit, remaining, rate, factor);
    RemainderShrinks(remaining, factor);
    var q := (Quotient(remaining, factor)) as real;
    if Quotient(remaining, factor) != 1 { MulNonnegative(unit, q - 2.0); }
  }

  /** No factor of any remainder is refused for want of a transition. */
  ghost predicate NeverNarrow(b: Band, unit: real)
    requires b.pi > 0.0
  {
    forall remaining: nat, factor: nat :: remaining > 0 && factor >= 2 && Divides(factor, remaining) ==>
      b.passband < StageFor(b, remaining, Times(unit, remaining as real), factor).stopband
  }

  /** And that condition is exact: otherwise two out of four is refused. */
  lemma TransitionExactly(b: Band, unit: real)
    requires ValidBand(b) && unit > 0.0
    ensures NeverNarrow(b, unit) <==> b.stopband + b.passband < 2.0 * unit
  {
    hide StageFor;
    if b.stopband + b.passband < 2.0 * unit {
      forall remaining: nat, factor: nat | remaining > 0 && factor >= 2 && Divides(factor, remaining)
        ensures b.passband < StageFor(b, remaining, Times(unit, remaining as real), factor).stopband
      {
        TransitionAlwaysLeft(b, unit, remaining, Times(unit, remaining as real), factor);
      }
    } else {
      TwoOutOfFour(b, unit);
    }
  }

  lemma TwoOutOfFour(b: Band, unit: real)
    requires ValidBand(b) && b.stopband + b.passband >= 2.0 * unit
    ensures Divides(2, 4) && StageFor(b, 4, Times(unit, 4 as real), 2).stopband <= b.passband
  {
    hide EstimateTaps;
  }

  ghost function UnitRate(inputRate: real, ratio: nat): real
    requires ratio > 0
  {
    inputRate / ratio as real
  }

  lemma RatioPositive(inputRate: real, outputRate: real, passband: real, stopband: real)
    requires Validate(inputRate, outputRate, passband, stopband).Ok?
    ensures Validate(inputRate, outputRate, passband, stopband).value >= 1
    ensures outputRate > 0.0 && inputRate > 0.0 && 0.0 < passband < stopband
  {
  }

  /** Accepted inputs with an output rate of at least 1e-8 Hz leave ample room:
      three halves of the stopband edge fit in the planned output rate, whatever
      the rounding allowance did. */
  lemma AcceptedHasRoom(inputRate: real, outputRate: real, passband: real, stopband: real)
    requires Validate(inputRate, outputRate, passband, stopband).Ok?
    requires outputRate >= 0.00000001
    ensures var ratio := Validate(inputRate, outputRate, passband, stopband).value;
      && ratio >= 1
      && 3.0 * stopband <= 2.0 * UnitRate(inputRate, ratio)
      && stopband + passband < 2.0 * UnitRate(inputRate, ratio)
  {
    var ratio := Validate(inputRate, outputRate, passband, stopband).value;
    var k := ratio as real;
    var x := inputRate / outputRate;
    assert x >= k - SLACK;
    UnitNearOutput(inputRate, outputRate, k, x);
  }

  lemma UnitNearOutput(inputRate: real, outputRate: real, k: real, x: real)
    requires inputRate > 0.0 && outputRate > 0.0 && k >= 1.0
    requires x == inputRate / outputRate && x >= k - SLACK
    ensures inputRate / k >= 0.99 * outputRate
  {
    assert x * outputRate == inputRate;
    MulNonnegative(x - 0.99 * k, outputRate);
    assert (x - 0.99 * k) * outputRate == inputRate - k * (0.99 * outputRate);
    var v := inputRate / k;
    assert v * k == inputRate;
    if v < 0.99 * outputRate { MulPositive(0.99 * outputRate - v, k); }
  }

  /** Below that rate the allowance can let a band through that leaves the
      largest factor no transition: ratio 32 to 1e-9 Hz. */
  lemma TransitionCanBeRefused()
    ensures var b := Band(3.0, 0.0000000012, 0.0000000014, 80.0, USIZE_MAX);
      && Validate(0.000000032, 0.000000001, b.passband, b.stopband) == Ok(32)
      && Divides(16, 32)
      && StageFor(b, 32, 0.000000032, 16).stopband <= b.passband
  {
    assert 0.000000032 / 0.000000001 == 32.0;
    assert Round(32.0) == 32;
    assert 0.000000032 / 16.0 == 0.000000002;
  }

  /** Within the allowance, a billionth, of a whole number. */
  ghost predicate NearWhole(x: real, n: int) {
    -0.000000001 <= x - n as real <= 0.000000001
  }

  ghost predicate NearNoWhole(x: real) {
    forall n: int :: !NearWhole(x, n)
  }

  /** Which fault a refused request is refused for: the first, in this order. */
  lemma {:induction false} RefusedExactly(inputRate: real, outputRate: real, passband: real, stopband: real)
    ensures var r := Validate(inputRate, outputRate, passband, stopband);
      if inputRate <= 0.0 || outputRate <= 0.0 then r == Err(BadRates)
      else if outputRate > inputRate then r == Err(OutputAboveInput)
      else if passband <= 0.0 || stopband <= passband then r == Err(BadBand)
      else if 2.0 * stopband > outputRate + 0.000000002 then r == Err(StopbandAboveNyquist)
      else if NearNoWhole(inputRate / outputRate) then r == Err(FractionalRatio)
      else r.Ok?
  {
    hide Round;
    hide Abs;
    hide NearWhole;
    hide NearNoWhole;
    if 0.0 < outputRate <= inputRate {
      var x := inputRate / outputRate;
      AtLeastOne(inputRate, outputRate);
      RoundIsNear(x);
      AllowanceIs(x, Round(x));
    } else if inputRate > 0.0 && outputRate > 0.0 {
      assert outputRate > inputRate;
      assert Validate(inputRate, outputRate, passband, stopband) == Err(OutputAboveInput);
    }
  }

  lemma AllowanceIs(x: real, n: int)
    ensures Abs(x - n as real) <= SLACK <==> NearWhole(x, n)
  {
  }

  /** Only the nearest whole number can be that near. */
  lemma RoundIsNear(x: real)
    requires x >= 1.0
    ensures Round(x) >= 1 && (NearNoWhole(x) <==> !NearWhole(x, Round(x)))
  {
    if n: int :| NearWhole(x, n) {
      assert n as real >= 0.9;
      RoundsTo(x, n);
    }
  }

  /** Below the word size, a request is accepted for exactly one ratio: the
      whole number the rates' quotient is within the allowance of. */
  lemma {:induction false} AcceptedExactly(inputRate: real, outputRate: real, passband: real, stopband: real, ratio: nat)
    requires ratio < USIZE_MAX
    ensures Validate(inputRate, outputRate, passband, stopband) == Ok(ratio) <==>
      && 0.0 < outputRate <= inputRate && 0.0 < passband < stopband
      && 2.0 * stopband <= outputRate + 0.000000002
      && ratio >= 1 && NearWhole(inputRate / outputRate, ratio)
  {
    hide Round;
    hide Abs;
    hide NearWhole;
    if 0.0 < outputRate <= inputRate {
      var x := inputRate / outputRate;
      AtLeastOne(inputRate, outputRate);
      RoundsTo(x, ratio);
      AllowanceIs(x, Round(x));
      AllowanceIs(x, ratio);
    }
  }

  lemma AtLeastOne(a: real, b: real)
    requires 0.0 < b <= a
    ensures a / b >= 1.0
  {
    var x := a / b;
    assert x * b == a;
    if x < 1.0 { MulPositive(1.0 - x, b); }
  }

  lemma RoundsTo(x: real, n: nat)
    requires x >= 0.0
    ensures NearWhole(x, n) ==> Round(x) == n
  {
    var k := Round(x);
    assert k as real <= x + 0.5 < (k + 1) as real;
    if NearWhole(x, n) {
      assert n as real < (k + 1) as real && k as real < (n + 1) as real;
    }
  }

  // ---------- what a refusal says ----------

  /** The stated reason is the true one for that factor. */
  ghost predicate Explains(b: Band, remaining: nat, rate: real, why: Refusal)
    requires b.pi > 0.0
  {
    && 2 <= why.factor <= MAX_STAGE_FACTOR && Divides(why.factor, remaining)
    && var stage := StageFor(b, remaining, rate, why.factor);
      match why
      case NoTransition(_) => stage.stopband <= b.passband
      case OverBudget(_, taps) => b.passband < stage.stopband && taps == stage.taps && taps > b.maxTaps
  }

  ghost predicate NoDivisor(n: nat, below: nat) {
    forall g :: 2 <= g < below ==> !Divides(g, n)
  }

  /** A refused search reports its smallest divisor, or what it was handed if it
      met none. */
  lemma {:induction false} RefusalNamesSmallest(b: Band, remaining: nat, rate: real, factor: nat, failure: Option<Refusal>)
    requires b.pi > 0.0 && factor <= MAX_STAGE_FACTOR
    ensures var r := Search(b, remaining, rate, factor, failure);
      r.Refused? ==>
        || (r.failure == failure && NoDivisor(remaining, factor + 1))
        || (r.failure.Some? && Explains(b, remaining, rate, r.failure.value)
            && r.failure.value.factor <= factor && NoDivisor(remaining, r.failure.value.factor))
  {
    hide StageFor;
    if factor >= 2 {
      if remaining % factor != 0 {
        RefusalNamesSmallest(b, remaining, rate, factor - 1, failure);
      } else {
        var plan := StageFor(b, remaining, rate, factor);
        if plan.stopband <= b.passband {
          RefusalNamesSmallest(b, remaining, rate, factor - 1, Some(NoTransition(factor)));
        } else if plan.taps > b.maxTaps {
          RefusalNamesSmallest(b, remaining, rate, factor - 1, Some(OverBudget(factor, plan.taps)));
        }
      }
    }
  }

  /** When planning fails it names a remainder of the ratio that no factor can
      take on, at the rate that goes with it. The detail is absent exactly when
      nothing from 2 to 16 divides that remainder; otherwise it gives the smallest
      divisor with the true reason against it. */
  ghost predicate FailsAt(b: Band, unit: real, remaining: nat, e: PlanError)
    requires b.pi > 0.0
  {
    && e.NoPlan? && e.remaining > 1 && Divides(e.remaining, remaining)
    && NothingUsable(b, e.remaining, Times(unit, e.remaining as real), 0, MAX_STAGE_FACTOR)
    && (e.detail.None? <==> NoDivisor(e.remaining, MAX_STAGE_FACTOR + 1))
    && (e.detail.Some? ==>
          && Explains(b, e.remaining, Times(unit, e.remaining as real), e.detail.value)
          && NoDivisor(e.remaining, e.detail.value.factor))
  }

  lemma {:induction false} FailuresAreExplained(b: Band, unit: real, remaining: nat, rate: real)
    requires b.pi > 0.0 && rate == Times(unit, remaining as real)
    requires Plan(b, remaining, rate).Err?
    ensures FailsAt(b, unit, remaining, Plan(b, remaining, rate).error)
    decreases remaining
  {
    hide Times;
    hide StageFor;
    hide Explains;
    hide Usable;
    NextRemainder(b, remaining, rate);
    ChooseIsGreedy(b, remaining, rate);
    var choice := Choose(b, remaining, rate);
    if choice.Refused? {
      RefusalDetail(b, remaining, rate);
      SelfDivides(remaining);
    } else {
      UsableDivides(b, remaining, rate, choice.plan.factor);
      StageRate(b, unit, remaining, rate, choice.plan.factor);
      var later := Quotient(remaining, choice.plan.factor);
      FailuresAreExplained(b, unit, later, choice.plan.outputRate);
      QuotientDivides(remaining, choice.plan.factor);
      DividesTrans(Plan(b, later, choice.plan.outputRate).error.remaining, later, remaining);
    }
  }

  lemma RefusalDetail(b: Band, remaining: nat, rate: real)
    requires b.pi > 0.0 && remaining > 1 && Choose(b, remaining, rate).Refused?
    ensures var detail := Choose(b, remaining, rate).failure;
      && (detail.None? <==> NoDivisor(remaining, MAX_STAGE_FACTOR + 1))
      && (detail.Some? ==>
            Explains(b, remaining, rate, detail.value) && NoDivisor(remaining, detail.value.factor))
  {
    hide StageFor;
    var top := Min(MAX_STAGE_FACTOR, remaining);
    RefusalNamesSmallest(b, remaining, rate, top, None);
    forall g | top < g <= MAX_STAGE_FACTOR
      ensures !Divides(g, remaining)
    {
      DivModUnique(remaining, g, 0, remaining);
    }
  }

  lemma UsableDivides(b: Band, remaining: nat, rate: real, factor: nat)
    requires b.pi > 0.0 && Usable(b, remaining, rate, factor)
    ensures factor >= 2 && Divides(factor, remaining)
  {
  }

  lemma SelfDivides(n: nat)
    requires n > 0
    ensures Divides(n, n)
  {
    DividesWitness(n, n, 1);
  }

  lemma QuotientDivides(n: nat, f: nat)
    requires n > 0 && f > 0 && Divides(f, n)
    ensures Quotient(n, f) > 0 && Divides(Quotient(n, f), n)
  {
    var q := Quotient(n, f);
    assert n == f * q;
    DividesWitness(q, n, f);
  }

  // ---------- greedy is not complete ----------

  /** Tap counts at 80 dB, from Kaiser's figure. */
  lemma TapsAt(pi: real, transition: real, rate: real)
    requires 3.1 <= pi <= 3.2 && transition > 0.0 && rate > 0.0
    ensures transition / rate >= 0.05 ==> EstimateTaps(pi, 80.0, transition, rate) <= 120
    ensures transition * 30.0 == rate ==> EstimateTaps(pi, 80.0, transition, rate) > 120
  {
    EstimateIsTight(pi, 80.0, transition, rate);
    var x := transition / rate;
    var w := RadianWidth(pi, transition, rate);
    var figure := (80.0 - 8.0) / w;
    assert 2.0 * pi * transition / rate == 2.0 * (pi * x);
    assert w == 4.57 * (pi * x);
    assert figure * w == 72.0;
    if x >= 0.05 {
      MulNonnegative(pi - 3.1, x);
      assert w >= 0.708;
      assert figure > 0.0;
      if figure > 102.0 { MulPositive(figure - 102.0, w); }
    }
    if transition * 30.0 == rate {
      assert x * 30.0 == 1.0 by { assert x * rate == transition; assert (x * 30.0 - 1.0) * rate == 0.0; }
      assert w <= 0.49;
      assert figure > 0.0;
      if figure < 140.0 { MulPositive(140.0 - figure, w); }
    }
  }

  /** A greedy search without backtracking can miss a plan: from 42 Hz to 1 Hz
      within 120 taps it takes 14 first and is left with 3, which needs more,
      while 7, 3, 2 stays within the budget. */
  lemma GreedyIsIncomplete(pi: real) returns (stages: seq<StagePlan>)
    requires 3.1 <= pi <= 3.2
    ensures var b := Band(pi, 0.4, 0.5, 80.0, 120);
      && Validate(42.0, 1.0, b.passband, b.stopband) == Ok(42)
      && Sound(b, 1.0, 42, stages)
      && Plan(b, 42, 42.0) == Err(NoPlan(3, Some(OverBudget(3, StageFor(b, 3, 3.0, 3).taps))))
  {
    hide EstimateTaps;
    var b := Band(pi, 0.4, 0.5, 80.0, 120);
    assert 42.0 / 1.0 == 42.0;
    assert Round(42.0) == 42;
    TapsAt(pi, 5.1, 42.0);
    TapsAt(pi, 1.1, 6.0);
    TapsAt(pi, 0.1, 2.0);
    var last := StageFor(b, 2, 2.0, 2);
    var middle := StageFor(b, 6, 6.0, 3);
    stages := [StageFor(b, 42, 42.0, 7), middle, last];
    assert stages[1..] == [middle, last] && [middle, last][1..] == [last] && [last][1..] == [];
    assert Sound(b, 1.0, 1, []);
    assert Sound(b, 1.0, 2, [last]);
    assert Sound(b, 1.0, 6, [middle, last]);
    GreedyGetsStuck(b);
  }

  lemma GreedyGetsStuck(b: Band)
    requires 3.1 <= b.pi <= 3.2 && b == Band(b.pi, 0.4, 0.5, 80.0, 120)
    ensures Plan(b, 42, 42.0) == Err(NoPlan(3, Some(OverBudget(3, StageFor(b, 3, 3.0, 3).taps))))
  {
    hide EstimateTaps;
    TapsAt(b.pi, 2.1, 42.0);
    TapsAt(b.pi, 0.1, 3.0);
    assert 42.0 / 14.0 == 3.0;
    assert Choose(b, 42, 42.0) == Chosen(StageFor(b, 42, 42.0, 14)) by {
      assert Search(b, 42, 42.0, 14, None) == Chosen(StageFor(b, 42, 42.0, 14));
      assert Search(b, 42, 42.0, 15, None) == Search(b, 42, 42.0, 14, None);
    }
    var why := Some(OverBudget(3, StageFor(b, 3, 3.0, 3).taps));
    assert Choose(b, 3, 3.0) == Refused(why) by {
      assert Search(b, 3, 3.0, 2, why) == Search(b, 3, 3.0, 1, why);
    }
    assert Quotient(42, 14) == 3;
  }

  // ---------- largest factor first ----------

  /** The heart of the ordering: against the same factor at a later stage, an
      earlier stage has at least as wide a transition relative to its rate. The
      earlier remainder r is g times the later one r'; after the factor they
      leave g * k and k. */
  lemma EarlierIsWider(unit: real, p: real, s: real, g: real, k: real, gk: real, r: real, r': real, t: real, t': real)
    requires unit > 0.0 && 0.0 < p < s && 3.0 * s - p <= 2.0 * unit
    requires g >= 2.0 && k >= 1.0 && gk == g * k && r' > 0.0 && r == g * r'
    requires t == Times(unit, gk) - s - p
    requires t' == Times(unit, k) - s - p || (k == 1.0 && t' == s - p)
    ensures t' * Times(unit, r) <= t * Times(unit, r')
  {
    if t' == Times(unit, k) - s - p {
      MiddleStageRoom(unit, p, s, g, k);
    } else {
      LastStageRoom(unit, p, s, g);
    }
    MulPositive(unit, r');
    assert unit * (g * r') == g * (unit * r');
    ScaledComparison(t, t', g, unit * r');
  }

  lemma MiddleStageRoom(unit: real, p: real, s: real, g: real, k: real)
    requires 0.0 < p < s && g >= 2.0
    ensures g * (unit * k - s - p) <= unit * (g * k) - s - p
  {
    MulNonnegative(g - 1.0, s + p);
    assert g * (unit * k - s - p) == unit * (g * k) - s - p - (g - 1.0) * (s + p);
  }

  lemma ScaledComparison(t: real, t': real, g: real, x: real)
    requires g * t' <= t && x > 0.0
    ensures t' * (g * x) <= t * x
  {
    MulNonnegative(t - g * t', x);
    assert (t - g * t') * x == t * x - t' * (g * x);
  }

  lemma LastStageRoom(unit: real, p: real, s: real, f1: real)
    requires unit > 0.0 && 0.0 < p < s && 3.0 * s - p <= 2.0 * unit && f1 >= 2.0
    ensures f1 * (s - p) <= unit * f1 - s - p
  {
    var x := unit - s + p;
    MulNonnegative(f1 - 2.0, x);
    assert f1 * x == f1 * unit - f1 * (s - p);
    assert (f1 - 2.0) * x == f1 * x - 2.0 * x;
  }

  /** A stage that leaves a factor of two has at least as much transition for its
      rate as the last stage would: 2 * unit - s - p against twice s - p. */
  ghost predicate Roomy(b: Band, unit: real) {
    3.0 * b.stopband - b.passband <= 2.0 * unit
  }

  /** A factor usable at a later stage was usable at the stage before it: if an
      earlier stage refused it, the refusal stands. */
  lemma UsableLaterUsableNow(b: Band, unit: real, remaining: nat, rate: real, f1: nat, f2: nat)
    requires ValidBand(b) && unit > 0.0 && Roomy(b, unit)
    requires remaining > 0 && rate == Times(unit, remaining as real)
    requires 2 <= f1 && Divides(f1, remaining)
    requires Usable(b, Quotient(remaining, f1), StageFor(b, remaining, rate, f1).outputRate, f2)
    ensures Usable(b, remaining, rate, f2)
  {
    hide EstimateTaps;
    hide Times;
    hide Quotient;
    hide Divides;
    var later := Quotient(remaining, f1);
    var c := Quotient(later, f2);
    var laterRate := StageFor(b, remaining, rate, f1).outputRate;
    RateDivides(unit, remaining, f1);
    RateDivides(unit, later, f2);
    ExactQuotient(remaining, f1);
    ExactQuotient(later, f2);
    Regrouped(remaining, later, c, f1, f2);
    RateDivides(unit, remaining, f2);
    UsableNow(b, unit, f1, f2, c, remaining, later, rate, laterRate);
  }

  lemma Regrouped(remaining: nat, later: nat, c: nat, f1: nat, f2: nat)
    requires remaining == later * f1 && later == c * f2 && f1 >= 2 && f2 >= 2 && remaining > 0
    ensures c >= 1 && Divides(f2, remaining) && Quotient(remaining, f2) == f1 * c && f1 * c != 1 && f2 <= remaining
  {
    if c == 0 { assert false; }
    assert remaining == (f1 * c) * f2;
    DividesWitness(f2, remaining, f1 * c);
    MulMono(1, c, f1);
    MulMono(1, f1 * c, f2);
  }

  lemma UsableNow(b: Band, unit: real, f1: nat, f2: nat, c: nat, remaining: nat, later: nat,
                  rate: real, laterRate: real)
    requires ValidBand(b) && unit > 0.0 && Roomy(b, unit)
    requires f1 >= 2 && f2 >= 2 && c >= 1 && later == c * f2 && remaining == later * f1
    requires rate == Times(unit, remaining as real) && laterRate == Times(unit, later as real)
    requires rate / f2 as real == Times(unit, (f1 * c) as real) && laterRate / f2 as real == Times(unit, c as real)
    requires Quotient(remaining, f2) == f1 * c && f1 * c != 1 && Quotient(later, f2) == c
    requires Divides(f2, remaining) && f2 <= remaining
    requires Usable(b, later, laterRate, f2)
    ensures Usable(b, remaining, rate, f2)
  {
    hide EstimateTaps;
    hide Times;
    hide Quotient;
    hide Divides;
    var now, next := StageFor(b, remaining, rate, f2), StageFor(b, later, laterRate, f2);
    var t, t' := now.stopband - b.passband, next.stopband - b.passband;
    RatesInOrder(b, unit, f1, f2, c, remaining, later, t, t');
    NarrowerCostsMore(b.pi, b.stopbandDb, t, rate, t', laterRate);
    if t <= 0.0 { MulPositive(t', rate); MulNonnegative(-t, laterRate); }
  }

  lemma RatesInOrder(b: Band, unit: real, f1: nat, f2: nat, c: nat, remaining: nat, later: nat, t: real, t': real)
    requires ValidBand(b) && unit > 0.0 && Roomy(b, unit)
    requires f1 >= 2 && f2 >= 2 && c >= 1 && later == c * f2 && remaining == later * f1
    requires t == Times(unit, (f1 * c) as real) - b.stopband - b.passband
    requires t' == if c == 1 then b.stopband - b.passband else Times(unit, c as real) - b.stopband - b.passband
    ensures Times(unit, remaining as real) > 0.0 && Times(unit, later as real) > 0.0
    ensures t' * Times(unit, remaining as real) <= t * Times(unit, later as real)
  {
    RealProduct(f1, c);
    RealProduct(f1, later);
    MulMono(1, c, f2);
    MulMono(1, f1, later);
    PositiveTimes(unit, remaining);
    PositiveTimes(unit, later);
    EarlierIsWider(unit, b.passband, b.stopband, f1 as real, c as real, (f1 * c) as real,
                   remaining as real, later as real, t, t');
  }

  lemma PositiveTimes(unit: real, n: nat)
    requires unit > 0.0 && n > 0
    ensures Times(unit, n as real) > 0.0
  {
    MulPositive(unit, n as real);
  }

  // ---------- the ordering theorem ----------

  ghost predicate NonIncreasing(stages: seq<StagePlan>) {
    forall i :: 0 <= i && i + 1 < |stages| ==> stages[i + 1].factor <= stages[i].factor
  }

  /** With so wide a stopband that even a remainder of sixteen leaves no
      transition, a plan has one stage at most. */
  lemma {:induction false} OneStageAtMost(b: Band, unit: real, remaining: nat, stages: seq<StagePlan>)
    requires ValidBand(b) && unit > 0.0 && b.stopband + b.passband >= 16.0 * unit
    requires remaining > 0 && Sound(b, unit, remaining, stages)
    ensures |stages| <= 1
  {
    if |stages| > 1 {
      hide EstimateTaps;
      hide Times;
      var q := Quotient(remaining, stages[0].factor);
      RemainderShrinks(remaining, stages[0].factor);
      OneStageAtMost(b, unit, q, stages[1..]);
      ExactQuotient(q, stages[1].factor);
      assert Quotient(q, stages[1].factor) == 1 && q <= MAX_STAGE_FACTOR;
      TimesAtMost(unit, q, MAX_STAGE_FACTOR);
    }
  }

  lemma TimesAtMost(unit: real, n: nat, max: nat)
    requires unit > 0.0 && n <= max
    ensures Times(unit, n as real) <= Times(unit, max as real)
  {
    MulNonnegative(unit, max as real - n as real);
  }

  /** Under any tap budget, no stage decimates by more than the one before. */
  lemma {:induction false} FactorsNeverIncrease(b: Band, unit: real, remaining: nat, rate: real)
    requires ValidBand(b) && unit > 0.0 && (Roomy(b, unit) || b.stopband + b.passband >= 16.0 * unit)
    requires remaining >= 1 && rate == Times(unit, remaining as real)
    requires Plan(b, remaining, rate).Ok?
    ensures NonIncreasing(Plan(b, remaining, rate).value)
    decreases remaining
  {
    hide Times;
    hide StageFor;
    if !Roomy(b, unit) {
      PlansAreSound(b, unit, remaining, rate);
      OneStageAtMost(b, unit, remaining, Plan(b, remaining, rate).value);
    } else if remaining > 1 {
      NextRemainder(b, remaining, rate);
      ChooseIsGreedy(b, remaining, rate);
      var plan := Choose(b, remaining, rate).plan;
      var later := Quotient(remaining, plan.factor);
      StageRate(b, unit, remaining, rate, plan.factor);
      FactorsNeverIncrease(b, unit, later, plan.outputRate);
      var rest := Plan(b, later, plan.outputRate).value;
      assert Plan(b, remaining, rate).value == [plan] + rest;
      if rest != [] {
        ChooseIsGreedy(b, later, plan.outputRate);
        UsableLaterUsableNow(b, unit, remaining, rate, plan.factor, rest[0].factor);
      }
    }
  }

  lemma StageRate(b: Band, unit: real, remaining: nat, rate: real, factor: nat)
    requires b.pi > 0.0 && rate == Times(unit, remaining as real) && Divides(factor, remaining)
    ensures StageFor(b, remaining, rate, factor).outputRate == Times(unit, Quotient(remaining, factor) as real)
    ensures StageFor(b, remaining, rate, factor).factor == factor
  {
    RateDivides(unit, remaining, factor);
  }

  // ---------- which ratios can be planned ----------

  /** Whatever the budget, only ratios without a prime factor above 13 have a
      plan. */
  lemma {:induction false} PlannedRatiosAreSmooth(b: Band, remaining: nat, rate: real)
    requires b.pi > 0.0 && remaining >= 1
    requires Plan(b, remaining, rate).Ok?
    ensures Smooth(remaining)
    decreases remaining
  {
    hide StageFor;
    if remaining == 1 {
      OneIsSmooth();
    } else {
      NextRemainder(b, remaining, rate);
      ChooseIsGreedy(b, remaining, rate);
      var plan := Choose(b, remaining, rate).plan;
      PlannedRatiosAreSmooth(b, Quotient(remaining, plan.factor), plan.outputRate);
      SmoothProduct(remaining, plan.factor);
    }
  }

  lemma OneIsSmooth()
    ensures Smooth(1)
  {
  }

  /** What a last stage of this factor costs. */
  ghost function LastStageTaps(b: Band, unit: real, factor: nat): nat
    requires b.pi > 0.0
  {
    EstimateTaps(b.pi, b.stopbandDb, b.stopband - b.passband, Times(unit, factor as real))
  }

  /** What an earlier stage of factor 13 costs that leaves this remainder. */
  ghost function EarlierStageTaps(b: Band, unit: real, left: nat): nat
    requires b.pi > 0.0
  {
    EstimateTaps(b.pi, b.stopbandDb, Times(unit, left as real) - b.stopband - b.passband, Times(unit, (13 * left) as real))
  }

  /** A band and a budget under which some factor is usable at every remainder
      without a prime factor above 13. If a remainder of two leaves a transition,
      any prime factor will do and the budget has to cover a 13. If only five
      does, the least prime factor will, or the whole remainder up to sixteen. */
  ghost predicate Enough(b: Band, unit: real)
    requires b.pi > 0.0
  {
    || (b.stopband + b.passband < 2.0 * unit
        && b.maxTaps >= LastStageTaps(b, unit, 13) && b.maxTaps >= EarlierStageTaps(b, unit, 2))
    || (b.stopband + b.passband < 5.0 * unit
        && b.maxTaps >= LastStageTaps(b, unit, 16) && b.maxTaps >= EarlierStageTaps(b, unit, 5))
  }

  /** Where an earlier stage has the room, the last stage alone decides. */
  lemma RoomyIsEnough(b: Band, unit: real)
    requires ValidBand(b) && unit > 0.0 && Roomy(b, unit) && b.maxTaps >= LastStageTaps(b, unit, 13)
    ensures Enough(b, unit)
  {
    var t, t' := 2.0 * unit - b.stopband - b.passband, b.stopband - b.passband;
    MulNonnegative(t - 2.0 * t', unit * 13.0);
    assert (t - 2.0 * t') * (unit * 13.0) == t * (unit * 13.0) - t' * (unit * 26.0);
    NarrowerCostsMore(b.pi, b.stopbandDb, t, Times(unit, 26.0), t', Times(unit, 13.0));
  }

  /** An unlimited budget leaves only the band. */
  lemma UnlimitedIsEnough(b: Band, unit: real)
    requires b.pi > 0.0 && b.maxTaps >= USIZE_MAX && b.stopband + b.passband < 5.0 * unit
    ensures Enough(b, unit)
  {
    hide EstimateTaps;
  }

  /** A last stage costs no more than one of a larger factor. */
  lemma LastStageWithin(b: Band, unit: real, remaining: nat, rate: real, top: nat)
    requires ValidBand(b) && unit > 0.0 && 2 <= remaining <= top <= MAX_STAGE_FACTOR
    requires rate == Times(unit, remaining as real) && b.maxTaps >= LastStageTaps(b, unit, top)
    ensures Usable(b, remaining, rate, remaining)
  {
    hide EstimateTaps;
    hide Times;
    DivModUnique(remaining, remaining, 1, 0);
    PositiveTimes(unit, remaining);
    TimesAtMost(unit, remaining, top);
    WiderRate(b.stopband - b.passband, rate, Times(unit, top as real));
    NarrowerCostsMore(b.pi, b.stopbandDb, b.stopband - b.passband, rate, b.stopband - b.passband, Times(unit, top as real));
  }

  lemma WiderRate(t: real, r: real, r': real)
    requires t > 0.0 && r <= r'
    ensures t * r <= t * r'
  {
    MulNonnegative(t, r' - r);
  }

  /** A stage that takes out a factor of at most 13 and leaves at least `left`
      costs no more than 13 leaving exactly that. */
  lemma EarlierStageWithin(b: Band, unit: real, remaining: nat, rate: real, d: nat, left: nat)
    requires ValidBand(b) && unit > 0.0 && left >= 2 && b.stopband + b.passband < Times(unit, left as real)
    requires b.maxTaps >= EarlierStageTaps(b, unit, left)
    requires remaining > 0 && rate == Times(unit, remaining as real)
    requires 2 <= d <= 13 && Divides(d, remaining) && Quotient(remaining, d) >= left
    ensures Usable(b, remaining, rate, d)
  {
    hide EstimateTaps;
    hide Times;
    hide Quotient;
    var q := Quotient(remaining, d);
    var c := b.stopband + b.passband;
    RateDivides(unit, remaining, d);
    ExactQuotient(remaining, d);
    MulMono(1, q, d);
    PositiveTimes(unit, remaining);
    PositiveTimes(unit, 13 * left);
    TimesAtMost(unit, left, q);
    RealProduct(d, q);
    EarlierStageWidth(unit, c, left, q, d);
    NarrowerCostsMore(b.pi, b.stopbandDb, Times(unit, q as real) - c, rate,
                      Times(unit, left as real) - c, Times(unit, (13 * left) as real));
  }

  lemma EarlierStageWidth(unit: real, c: real, left: nat, q: nat, d: nat)
    requires unit > 0.0 && 0.0 < c < Times(unit, left as real) && q >= left >= 1 && 0 < d <= 13
    ensures (Times(unit, left as real) - c) * Times(unit, (d * q) as real)
         <= (Times(unit, q as real) - c) * Times(unit, (13 * left) as real)
  {
    hide Times;
    var m, k, f := left as real, q as real, d as real;
    var t, w := Times(unit, m) - c, Times(unit, k) - c;
    assert (d * q) as real == f * k && (13 * left) as real == 13.0 * m;
    MoreLeft(unit, c, m, k, t, w);
    ScaledWidths(t, w, m, k, f);
    RateScaled(unit, t, f * k, w, 13.0 * m);
  }

  /** Leaving k instead of m, the transition grows at least in proportion. */
  lemma MoreLeft(unit: real, c: real, m: real, k: real, t: real, w: real)
    requires unit > 0.0 && 0.0 < c < Times(unit, m) && k >= m
    requires t == Times(unit, m) - c && w == Times(unit, k) - c
    ensures k * t <= m * w && 0.0 < w
  {
    MulNonnegative(k - m, c);
    MulNonnegative(k - m, unit);
    assert (k - m) * c == k * c - m * c && (k - m) * unit == k * unit - m * unit;
    assert k * (unit * m - c) == unit * (m * k) - k * c;
    assert m * (unit * k - c) == unit * (m * k) - m * c;
  }

  lemma ScaledWidths(t: real, w: real, m: real, k: real, f: real)
    requires k * t <= m * w && 0.0 < w && m >= 1.0 && 0.0 < f <= 13.0
    ensures t * (f * k) <= w * (13.0 * m)
  {
    MulNonnegative(f, m * w - k * t);
    assert f * (m * w - k * t) == f * (m * w) - t * (f * k);
    MulPositive(m, w);
    MulNonnegative(13.0 - f, m * w);
    assert (13.0 - f) * (m * w) == w * (13.0 * m) - f * (m * w);
  }

  lemma RateScaled(unit: real, t: real, x: real, w: real, y: real)
    requires unit > 0.0 && t * x <= w * y
    ensures t * Times(unit, x) <= w * Times(unit, y)
  {
    MulNonnegative(unit, w * y - t * x);
    assert unit * (w * y - t * x) == w * (unit * y) - t * (unit * x);
  }

  /** Under such a band and budget some factor is always usable. */
  lemma AlwaysUsable(b: Band, unit: real, remaining: nat, rate: real) returns (d: nat)
    requires ValidBand(b) && unit > 0.0 && Enough(b, unit)
    requires remaining > 1 && rate == Times(unit, remaining as real) && Smooth(remaining)
    ensures Usable(b, remaining, rate, d)
  {
    hide LastStageTaps;
    hide EarlierStageTaps;
    hide Usable;
    hide Smooth;
    d := LeastDivisor(remaining);
    RemainderShrinks(remaining, d);
    TwoAndFive(unit);
    if b.stopband + b.passband < 2.0 * unit
       && b.maxTaps >= LastStageTaps(b, unit, 13) && b.maxTaps >= EarlierStageTaps(b, unit, 2) {
      if Quotient(remaining, d) == 1 {
        ExactQuotient(remaining, d);
        LastStageWithin(b, unit, remaining, rate, 13);
      } else {
        EarlierStageWithin(b, unit, remaining, rate, d, 2);
      }
    } else if remaining <= MAX_STAGE_FACTOR {
      d := remaining;
      LastStageWithin(b, unit, remaining, rate, MAX_STAGE_FACTOR);
    } else {
      LeastDivisorLeavesFive(remaining, d);
      EarlierStageWithin(b, unit, remaining, rate, d, 5);
    }
  }

  lemma TwoAndFive(unit: real)
    ensures Times(unit, 2.0) == 2.0 * unit && Times(unit, 5.0) == 5.0 * unit
  {
  }

  /** Beyond sixteen, taking out the least prime factor leaves at least five. */
  lemma LeastDivisorLeavesFive(n: nat, d: nat)
    requires n > 16 && 2 <= d <= 13 && Divides(d, n) && forall e :: 2 <= e < d ==> !Divides(e, n)
    ensures Quotient(n, d) >= 5
  {
    hide Quotient;
    var q := Quotient(n, d);
    ExactQuotient(n, d);
    if q < 5 {
      MulMono(d, 13, q);
      assert q == 0 || q == 1 || q == 2 || q == 3 || q == 4;
      assert q >= 2 && q < d;
      DividesWitness(q, n, d);
      assert false;
    }
  }

  /** Every ratio without a prime factor above 13 has a plan then. */
  lemma {:induction false} SmoothRatiosArePlanned(b: Band, unit: real, remaining: nat, rate: real)
    requires ValidBand(b) && unit > 0.0 && Enough(b, unit)
    requires remaining >= 1 && rate == Times(unit, remaining as real)
    requires Smooth(remaining)
    ensures Plan(b, remaining, rate).Ok?
    decreases remaining
  {
    hide Times;
    hide Enough;
    if remaining > 1 {
      NextRemainder(b, remaining, rate);
      ChooseIsGreedy(b, remaining, rate);
      var d := AlwaysUsable(b, unit, remaining, rate);
      var plan := Choose(b, remaining, rate).plan;
      StageRate(b, unit, remaining, rate, plan.factor);
      SmoothQuotient(remaining, plan.factor);
      SmoothRatiosArePlanned(b, unit, Quotient(remaining, plan.factor), plan.outputRate);
    }
  }

  /** The planner as its caller sees it, for every accepted request: a plan exists
      only if the ratio has no prime factor above 13, its factors multiply to the
      ratio and every stage is sound. With enough band and
      budget every ratio without a prime factor above 13 has one. Where a stage
      that leaves a factor of two has the room - always, at output rates of 1e-8
      Hz and more - a budget that covers a last stage of factor 13 is enough, and
      the factors never increase. */
  lemma PlannerContract(inputRate: real, outputRate: real, b: Band)
    requires b.pi > 0.0
    requires Validate(inputRate, outputRate, b.passband, b.stopband).Ok?
    ensures var ratio := Validate(inputRate, outputRate, b.passband, b.stopband).value;
      && ratio >= 1
      && var plan, unit := Plan(b, ratio, inputRate), UnitRate(inputRate, ratio);
      && (plan.Ok? ==>
            && Smooth(ratio)
            && FactorProduct(plan.value) == ratio
            && Sound(b, unit, ratio, plan.value))
      && (outputRate >= 0.00000001 ==> Roomy(b, unit))
      && (Roomy(b, unit) ==>
            && (plan.Ok? ==> NonIncreasing(plan.value))
            && (b.maxTaps >= LastStageTaps(b, unit, 13) ==> Enough(b, unit)))
      && (Enough(b, unit) ==> (plan.Ok? <==> Smooth(ratio)))
  {
    hide Times;
    hide LastStageTaps;
    hide Enough;
    RatioPositive(inputRate, outputRate, b.passband, b.stopband);
    var ratio := Validate(inputRate, outputRate, b.passband, b.stopband).value;
    var unit := UnitRate(inputRate, ratio);
    UnitTimesRatio(inputRate, ratio);
    if outputRate >= 0.00000001 {
      AcceptedHasRoom(inputRate, outputRate, b.passband, b.stopband);
    }
    if Roomy(b, unit) && b.maxTaps >= LastStageTaps(b, unit, 13) {
      RoomyIsEnough(b, unit);
    }
    if Enough(b, unit) && Smooth(ratio) {
      SmoothRatiosArePlanned(b, unit, ratio, inputRate);
    }
    if Plan(b, ratio, inputRate).Ok? {
      PlannedRatiosAreSmooth(b, ratio, inputRate);
      PlansAreSound(b, unit, ratio, inputRate);
      SoundProduct(b, unit, ratio, Plan(b, ratio, inputRate).value);
      if Roomy(b, unit) {
        FactorsNeverIncrease(b, unit, ratio, inputRate);
      }
    }
  }

  lemma UnitTimesRatio(inputRate: real, ratio: nat)
    requires ratio > 0
    ensures inputRate == Times(UnitRate(inputRate, ratio), ratio as real)
    ensures inputRate > 0.0 ==> UnitRate(inputRate, ratio) > 0.0
  {
  }

  // ---------- alias protection ----------

  /** A frequency followed through the stages: at stage i it drops by a whole
      number of that stage's output rates. */
  ghost predicate Folded(stages: seq<StagePlan>, freqs: seq<real>, turns: seq<int>) {
    && |freqs| == |stages| + 1 && |turns| == |stages|
    && forall i :: 0 <= i < |stages| ==> freqs[i] == freqs[i + 1] + Times(turns[i] as real, stages[i].outputRate)
  }

  /** Stage i was given the frequency at or beyond its own stopband edge. */
  ghost predicate StoppedAt(stages: seq<StagePlan>, freqs: seq<real>, i: int) {
    0 <= i < |stages| && i < |freqs| && Abs(freqs[i]) >= stages[i].stopband
  }

  lemma FoldReaches(f: real, g: real, m: int, rate: real, s: real)
    requires f == g + Times(m as real, rate) && m != 0 && Abs(g) <= s && rate > 0.0
    ensures Abs(f) >= rate - s
  {
    if m > 0 { MulNonnegative(m as real - 1.0, rate); } else { MulNonnegative(-(m as real) - 1.0, rate); }
  }

  /** Stage i is the last that folded the frequency. */
  ghost predicate LastFold(turns: seq<int>, i: int) {
    && 0 <= i < |turns| && turns[i] != 0
    && forall j :: i < j < |turns| ==> turns[j] == 0
  }

  ghost predicate NeverFolds(turns: seq<int>) {
    forall i :: 0 <= i < |turns| ==> turns[i] == 0
  }

  /** The frequency never folded, or the last stage that folded it was given it at
      or beyond that stage's own stopband edge. */
  ghost predicate Protected(stages: seq<StagePlan>, freqs: seq<real>, turns: seq<int>) {
    NeverFolds(turns) || exists i :: LastFold(turns, i) && StoppedAt(stages, freqs, i)
  }

  /** Whole-cascade alias protection: whatever ends up inside the channel either
      never folded, and is where it was, or stood at or beyond the stopband edge
      of the last stage that folded it. */
  lemma {:induction false} AliasesAreStopped(b: Band, unit: real, remaining: nat, stages: seq<StagePlan>,
                                             freqs: seq<real>, turns: seq<int>)
    requires ValidBand(b) && 2.0 * b.stopband <= unit && remaining > 0
    requires Sound(b, unit, remaining, stages) && Folded(stages, freqs, turns)
    requires Abs(freqs[|stages|]) <= b.stopband
    ensures Protected(stages, freqs, turns)
    ensures NeverFolds(turns) ==> freqs[0] == freqs[|stages|]
  {
    if stages != [] {
      hide Times;
      var later := Quotient(remaining, stages[0].factor);
      RemainderShrinks(remaining, stages[0].factor);
      AliasesAreStopped(b, unit, later, stages[1..], freqs[1..], turns[1..]);
      TimesIs(turns[0], stages[0].outputRate);
      if !NeverFolds(turns[1..]) {
        var i :| LastFold(turns[1..], i) && StoppedAt(stages[1..], freqs[1..], i);
        LaterFold(turns, i);
        assert StoppedAt(stages, freqs, i + 1);
      } else {
        assert forall i :: 0 < i < |turns| ==> turns[i] == turns[1..][i - 1];
        if turns[0] != 0 {
          StageOutput(b, unit, remaining, stages);
          FoldReaches(freqs[0], freqs[1], turns[0], stages[0].outputRate, b.stopband);
          assert LastFold(turns, 0) && StoppedAt(stages, freqs, 0);
        }
      }
    }
  }

  lemma LaterFold(turns: seq<int>, i: int)
    requires turns != [] && LastFold(turns[1..], i)
    ensures LastFold(turns, i + 1)
  {
    forall j | i + 1 < j < |turns|
      ensures turns[j] == 0
    {
      assert turns[1..][j - 1] == turns[j];
    }
  }

  /** Where the gap opens: the output rate less the stopband edge, or zero if the
      edge is beyond the whole output rate. */
  ghost function GapFrequency(b: Band, unit: real): real {
    if b.stopband < unit then unit - b.stopband else 0.0
  }

  /** With a stopband edge beyond half the output rate, every plan lets a frequency
      fold into the channel at the last stage without ever reaching a stopband
      edge. */
  lemma {:induction false} AliasGap(b: Band, unit: real, remaining: nat, stages: seq<StagePlan>)
    returns (freqs: seq<real>, turns: seq<int>)
    requires ValidBand(b) && 0.0 < unit < 2.0 * b.stopband && remaining > 0
    requires Sound(b, unit, remaining, stages) && stages != []
    ensures Folded(stages, freqs, turns) && freqs[0] == GapFrequency(b, unit)
    ensures Abs(freqs[|stages|]) <= b.stopband && turns[|stages| - 1] == 1
    ensures forall i :: !StoppedAt(stages, freqs, i)
  {
    hide Times;
    var f := GapFrequency(b, unit);
    var later := Quotient(remaining, stages[0].factor);
    RemainderShrinks(remaining, stages[0].factor);
    if stages[1..] == [] {
      freqs, turns := [f, f - unit], [1];
      TimesUnit(unit);
      TimesSub(1.0, 1.0, unit);
    } else {
      var fs, ts := AliasGap(b, unit, later, stages[1..]);
      freqs, turns := [f] + fs, [0] + ts;
      TimesIs(0, stages[0].outputRate);
      LaterOutput(b, unit, remaining, stages);
      forall i | 0 <= i < |stages|
        ensures freqs[i] == freqs[i + 1] + Times(turns[i] as real, stages[i].outputRate)
        ensures !StoppedAt(stages, freqs, i)
      {
        if i > 0 {
          assert stages[i] == stages[1..][i - 1] && freqs[i + 1] == fs[i];
          assert !StoppedAt(stages[1..], fs, i - 1);
        }
      }
    }
  }

  /** Whatever frequency ends inside the channel, the plan has protected it. */
  ghost predicate ProtectsChannel(b: Band, stages: seq<StagePlan>) {
    forall freqs, turns :: Folded(stages, freqs, turns) && Abs(freqs[|stages|]) <= b.stopband
      ==> Protected(stages, freqs, turns)
  }

  /** So a plan protects the channel exactly when the stopband edge is within half
      the planned output rate. */
  lemma ProtectedExactly(b: Band, unit: real, remaining: nat, stages: seq<StagePlan>)
    requires ValidBand(b) && unit > 0.0 && remaining > 0
    requires Sound(b, unit, remaining, stages) && stages != []
    ensures ProtectsChannel(b, stages) <==> 2.0 * b.stopband <= unit
  {
    hide *;
    if 2.0 * b.stopband <= unit {
      Protects(b, unit, remaining, stages);
    } else {
      GapIsUnprotected(b, unit, remaining, stages);
    }
  }

  lemma Protects(b: Band, unit: real, remaining: nat, stages: seq<StagePlan>)
    requires ValidBand(b) && 2.0 * b.stopband <= unit && remaining > 0
    requires Sound(b, unit, remaining, stages)
    ensures ProtectsChannel(b, stages)
  {
    hide Sound;
    hide Protected;
    forall freqs, turns | Folded(stages, freqs, turns) && Abs(freqs[|stages|]) <= b.stopband
      ensures Protected(stages, freqs, turns)
    {
      AliasesAreStopped(b, unit, remaining, stages, freqs, turns);
    }
  }

  lemma GapIsUnprotected(b: Band, unit: real, remaining: nat, stages: seq<StagePlan>)
    requires ValidBand(b) && 0.0 < unit < 2.0 * b.stopband && remaining > 0
    requires Sound(b, unit, remaining, stages) && stages != []
    ensures !ProtectsChannel(b, stages)
  {
    hide Sound;
    hide StoppedAt;
    hide Abs;
    var freqs, turns := AliasGap(b, unit, remaining, stages);
    assert !NeverFolds(turns) && !Protected(stages, freqs, turns);
  }

  lemma LaterOutput(b: Band, unit: real, remaining: nat, stages: seq<StagePlan>)
    requires ValidBand(b) && unit > 0.0 && remaining > 0
    requires Sound(b, unit, remaining, stages) && |stages| > 1
    ensures stages[0].outputRate >= 2.0 * unit
  {
    hide EstimateTaps;
    hide Times;
    hide Quotient;
    var q := Quotient(remaining, stages[0].factor);
    RemainderShrinks(remaining, stages[0].factor);
    RemainderShrinks(q, stages[1].factor);
    TwiceUnit(unit, q);
  }

  lemma TwiceUnit(unit: real, q: nat)
    requires unit > 0.0 && q >= 2
    ensures Times(unit, q as real) >= 2.0 * unit
  {
    MulNonnegative(unit, q as real - 2.0);
  }

  lemma TimesIs(m: int, rate: real)
    ensures m == 0 ==> Times(m as real, rate) == 0.0
  {
  }

  lemma StageOutput(b: Band, unit: real, remaining: nat, stages: seq<StagePlan>)
    requires ValidBand(b) && 2.0 * b.stopband <= unit && remaining > 0
    requires Sound(b, unit, remaining, stages) && stages != []
    ensures stages[0].outputRate > 0.0 && stages[0].outputRate - b.stopband >= stages[0].stopband
  {
    hide EstimateTaps;
    RemainderShrinks(remaining, stages[0].factor);
    var q := Quotient(remaining, stages[0].factor);
    MulNonnegative(unit, q as real - 1.0);
    if stages[1..] == [] { assert q == 1; }
  }
}
