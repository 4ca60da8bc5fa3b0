/** Where the planner's promises stop: the exact conditions under which its plans
    are ordered and its budget suffices, and accepted requests beyond them. */
module PlanLimits {
  import opened Numerics
  import opened FirDesign
  import opened Primes
  import opened Planner
  import Dec = Decimator

  /** The plan for a ratio down to the rate `unit`. */
  ghost function PlanFor(b: Band, unit: real, ratio: nat): Result<seq<StagePlan>, PlanError>
    requires b.pi > 0.0
  {
    Plan(b, ratio, Times(unit, ratio as real))
  }

  // ---------- how large a budget is enough ----------

  /** Every ratio the stage factors can reach has a plan. */
  ghost predicate ReachesAll(b: Band, unit: real)
    requires b.pi > 0.0
  {
    forall ratio: nat :: ratio >= 1 && Smooth(ratio) ==> PlanFor(b, unit, ratio).Ok?
  }

  /** A tap budget is enough for every ratio without a prime factor above 13
      exactly when it covers a last stage of factor 13. */
  lemma BudgetExactly(b: Band, unit: real)
    requires ValidBand(b) && unit > 0.0 && Roomy(b, unit)
    ensures ReachesAll(b, unit) <==> b.maxTaps >= LastStageTaps(b, unit, 13)
  {
    hide ReachesAll;
    hide LastStageTaps;
    if b.maxTaps >= LastStageTaps(b, unit, 13) {
      CoversAll(b, unit);
    }
    if ReachesAll(b, unit) {
      ThirteenIsReached(b, unit);
      ThirteenCosts(b, unit);
    }
  }

  lemma CoversAll(b: Band, unit: real)
    requires ValidBand(b) && unit > 0.0 && Roomy(b, unit) && b.maxTaps >= LastStageTaps(b, unit, 13)
    ensures ReachesAll(b, unit)
  {
    hide LastStageTaps;
    RoomyIsEnough(b, unit);
    EnoughReachesAll(b, unit);
  }

  lemma EnoughReachesAll(b: Band, unit: real)
    requires ValidBand(b) && unit > 0.0 && Enough(b, unit)
    ensures ReachesAll(b, unit)
  {
    hide Enough;
    hide Smooth;
    hide Times;
    hide Plan;
    forall ratio: nat | ratio >= 1 && Smooth(ratio)
      ensures PlanFor(b, unit, ratio).Ok?
    {
      SmoothRatiosArePlanned(b, unit, ratio, Times(unit, ratio as real));
    }
  }

  lemma ThirteenIsReached(b: Band, unit: real)
    requires b.pi > 0.0 && ReachesAll(b, unit)
    ensures PlanFor(b, unit, 13).Ok?
  {
    hide PlanFor;
    forall p | Prime(p) && p > 13
      ensures !Divides(p, 13)
    {
    }
    assert Smooth(13);
  }

  /** Thirteen can only be taken out in one last stage. */
  lemma ThirteenCosts(b: Band, unit: real)
    requires b.pi > 0.0 && PlanFor(b, unit, 13).Ok?
    ensures b.maxTaps >= LastStageTaps(b, unit, 13)
  {
    hide EstimateTaps;
    hide Times;
    var rate := Times(unit, 13.0);
    ChooseIsGreedy(b, 13, rate);
    var f := Choose(b, 13, rate).plan.factor;
    DivisorsOf13(f);
  }

  lemma DivisorsOf13(f: nat)
    requires 2 <= f <= 16 && Divides(f, 13)
    ensures f == 13
  {
    assert f == 2 || f == 3 || f == 4 || f == 5 || f == 6 || f == 7 || f == 8 || f == 9 || f == 10
      || f == 11 || f == 12 || f == 13 || f == 14 || f == 15 || f == 16;
  }

  /** With an unlimited budget every ratio without a prime factor above 13 has a
      plan exactly when a remainder of five leaves a transition; 25 has none
      otherwise. */
  lemma UnlimitedExactly(b: Band, unit: real)
    requires ValidBand(b) && unit > 0.0 && b.maxTaps >= USIZE_MAX
    ensures ReachesAll(b, unit) <==> b.stopband + b.passband < 5.0 * unit
  {
    hide ReachesAll;
    hide Enough;
    if b.stopband + b.passband < 5.0 * unit {
      UnlimitedIsEnough(b, unit);
      EnoughReachesAll(b, unit);
    } else {
      TwentyFiveFails(b, unit);
    }
  }

  lemma TwentyFiveFails(b: Band, unit: real)
    requires ValidBand(b) && unit > 0.0 && b.stopband + b.passband >= 5.0 * unit
    ensures !ReachesAll(b, unit)
  {
    hide EstimateTaps;
    hide Times;
    hide Smooth;
    var rate := Times(unit, 25.0);
    TwentyFiveIsSmooth();
    FiveOutOf25(b, unit);
    ChooseIsGreedy(b, 25, rate);
    if Choose(b, 25, rate).Chosen? {
      DivisorsOf25(Choose(b, 25, rate).plan.factor);
    }
    assert PlanFor(b, unit, 25).Err?;
  }

  lemma TwentyFiveIsSmooth()
    ensures Smooth(25)
  {
    OneIsSmooth();
    SmoothProduct(5, 5);
    SmoothProduct(25, 5);
  }

  lemma FiveOutOf25(b: Band, unit: real)
    requires ValidBand(b) && b.stopband + b.passband >= 5.0 * unit
    ensures StageFor(b, 25, Times(unit, 25.0), 5).stopband <= b.passband
  {
    hide EstimateTaps;
  }

  lemma DivisorsOf25(f: nat)
    requires 2 <= f <= 16 && Divides(f, 25)
    ensures f == 5
  {
    assert f == 2 || f == 3 || f == 4 || f == 5 || f == 6 || f == 7 || f == 8 || f == 9 || f == 10
      || f == 11 || f == 12 || f == 13 || f == 14 || f == 15 || f == 16;
  }

  // ---------- when stage factors can increase ----------

  /** No budget, attenuation or ratio gives a plan whose factors increase. */
  ghost predicate AlwaysOrdered(pi: real, passband: real, stopband: real, unit: real)
    requires pi > 0.0
  {
    forall db: real, budget: nat, ratio: nat :: budget <= USIZE_MAX && ratio >= 1 ==>
      Ordered(PlanFor(Band(pi, passband, stopband, db, budget), unit, ratio))
  }

  ghost predicate Ordered(plan: Result<seq<StagePlan>, PlanError>) {
    plan.Ok? ==> NonIncreasing(plan.value)
  }

  /** For a band and an output rate, stage factors never increase exactly when a
      stage that leaves a factor of two has as much room as the last stage, or
      when no remainder up to sixteen leaves a transition at all. */
  lemma OrderedExactly(pi: real, passband: real, stopband: real, unit: real)
    requires pi > 0.0 && 0.0 < passband < stopband && unit > 0.0
    ensures AlwaysOrdered(pi, passband, stopband, unit)
      <==> 3.0 * stopband - passband <= 2.0 * unit || stopband + passband >= 16.0 * unit
  {
    hide AlwaysOrdered;
    if 3.0 * stopband - passband <= 2.0 * unit || stopband + passband >= 16.0 * unit {
      OrderHolds(pi, passband, stopband, unit);
    } else {
      OrderBreaks(pi, passband, stopband, unit);
    }
  }

  lemma OrderHolds(pi: real, passband: real, stopband: real, unit: real)
    requires pi > 0.0 && 0.0 < passband < stopband && unit > 0.0
    requires 3.0 * stopband - passband <= 2.0 * unit || stopband + passband >= 16.0 * unit
    ensures AlwaysOrdered(pi, passband, stopband, unit)
  {
    hide Plan;
    hide Times;
    hide NonIncreasing;
    forall db: real, budget: nat, ratio: nat | budget <= USIZE_MAX && ratio >= 1
      ensures Ordered(PlanFor(Band(pi, passband, stopband, db, budget), unit, ratio))
    {
      var b := Band(pi, passband, stopband, db, budget);
      if PlanFor(b, unit, ratio).Ok? {
        FactorsNeverIncrease(b, unit, ratio, Times(unit, ratio as real));
      }
    }
  }

  lemma OrderBreaks(pi: real, passband: real, stopband: real, unit: real)
    requires pi > 0.0 && 0.0 < passband < stopband && unit > 0.0
    requires 3.0 * stopband - passband > 2.0 * unit && stopband + passband < 16.0 * unit
    ensures !AlwaysOrdered(pi, passband, stopband, unit)
  {
    hide PlanFor;
    hide Ordered;
    var db, budget, ratio := IncreasingPlan(pi, passband, stopband, unit);
    assert !Ordered(PlanFor(Band(pi, passband, stopband, db, budget), unit, ratio));
  }

  /** A budget, an attenuation and a ratio whose plan starts with a factor of two
      and ends with a larger one: 26 as 2 and 13, or 32 as 2 and 16. */
  lemma IncreasingPlan(pi: real, passband: real, stopband: real, unit: real)
    returns (db: real, budget: nat, ratio: nat)
    requires pi > 0.0 && 0.0 < passband < stopband && unit > 0.0
    requires 3.0 * stopband - passband > 2.0 * unit && stopband + passband < 16.0 * unit
    ensures budget <= USIZE_MAX && ratio >= 1
    ensures !Ordered(PlanFor(Band(pi, passband, stopband, db, budget), unit, ratio))
  {
    hide Plan;
    hide Times;
    if stopband + passband < 13.0 * unit {
      db := CutOff(pi, passband, stopband, unit);
      budget, ratio := CUT_BUDGET, 26;
      TwoThenThirteen(Band(pi, passband, stopband, db, CUT_BUDGET), unit);
    } else {
      db, budget, ratio := 80.0, USIZE_MAX, 32;
      TwoThenSixteen(Band(pi, passband, stopband, db, budget), unit);
    }
  }

  /** Just enough for the largest order that is not refused. */
  const CUT_BUDGET: nat := TAP_LIMIT + 3

  /** An attenuation whose order at this width is the largest that is not
      refused. */
  ghost function EdgeDb(pi: real, t: real, r: real): real
    requires pi > 0.0 && t > 0.0 && r > 0.0
  {
    8.0 + Times(TAP_LIMIT as real, RadianWidth(pi, t, r))
  }

  /** At that attenuation the budget admits exactly the transitions at least as
      wide. */
  lemma EdgeAdmits(pi: real, t: real, r: real, t': real, r': real)
    requires pi > 0.0 && t > 0.0 && r > 0.0 && r' > 0.0
    ensures EstimateTaps(pi, EdgeDb(pi, t, r), t', r') <= CUT_BUDGET <==> t' * r >= t * r'
  {
    hide RadianWidth;
    var db := EdgeDb(pi, t, r);
    if t' * r >= t * r' {
      FigureOf(TAP_LIMIT as real, RadianWidth(pi, t, r));
      EstimateIsTight(pi, db, t, r);
      NarrowerCostsMore(pi, db, t', r', t, r);
    } else if t' > 0.0 {
      StrictlyNarrower(pi, t, r, t', r');
      FigureAbove(TAP_LIMIT as real, RadianWidth(pi, t, r), RadianWidth(pi, t', r'));
      EstimateIsTight(pi, db, t', r');
    }
  }

  lemma FigureOf(x: real, w: real)
    requires w > 0.0
    ensures Times(x, w) / w == x
  {
  }

  lemma FigureAbove(x: real, w: real, w': real)
    requires 0.0 < w' < w && x > 0.0
    ensures Times(x, w) / w' > x
  {
    var y := Times(x, w) / w';
    assert y * w' == x * w;
    MulPositive(x, w - w');
    assert x * (w - w') == x * w - x * w';
    if y <= x { MulNonnegative(x - y, w'); }
  }

  lemma StrictlyNarrower(pi: real, t: real, r: real, t': real, r': real)
    requires pi > 0.0 && t > 0.0 && r > 0.0 && t' > 0.0 && r' > 0.0 && t' * r < t * r'
    ensures RadianWidth(pi, t', r') < RadianWidth(pi, t, r)
  {
    var x, x' := 2.0 * pi * t / r, 2.0 * pi * t' / r';
    assert x * r == 2.0 * pi * t && x' * r' == 2.0 * pi * t';
    if x' >= x {
      MulPositive(r, r');
      MulNonnegative(x' - x, r * r');
      assert (x' - x) * (r * r') == (x' * r') * r - (x * r) * r';
      MulPositive(2.0 * pi, t * r' - t' * r);
      assert (2.0 * pi) * (t * r' - t' * r) == (2.0 * pi * t) * r' - (2.0 * pi * t') * r;
    }
  }

  /** The narrower of the two transitions the plan 2, 13 needs. */
  ghost function CutOff(pi: real, p: real, s: real, unit: real): real
    requires pi > 0.0 && 0.0 < p < s && unit > 0.0 && s + p < 13.0 * unit
  {
    PositiveTimes(unit, 26);
    PositiveTimes(unit, 13);
    if 13.0 * unit - s - p <= 2.0 * (s - p) then EdgeDb(pi, 13.0 * unit - s - p, Times(unit, 26.0))
    else EdgeDb(pi, s - p, Times(unit, 13.0))
  }

  lemma TwoThenThirteen(b: Band, unit: real)
    requires ValidBand(b) && unit > 0.0
    requires 3.0 * b.stopband - b.passband > 2.0 * unit && b.stopband + b.passband < 13.0 * unit
    requires b.stopbandDb == CutOff(b.pi, b.passband, b.stopband, unit) && b.maxTaps == CUT_BUDGET
    ensures !Ordered(PlanFor(b, unit, 26))
  {
    hide EstimateTaps;
    hide Times;
    hide EdgeDb;
    Budgeted(b, unit);
    var rate := Times(unit, 26.0);
    StagesOf26(b, unit);
    assert Usable(b, 26, rate, 2) && !Usable(b, 26, rate, 13);
    ChooseIsGreedy(b, 26, rate);
    DivisorsOf26(Choose(b, 26, rate).plan.factor);
    StageRate(b, unit, 26, rate, 2);
    assert Usable(b, 13, Times(unit, 13.0), 13);
    ChooseIsGreedy(b, 13, Times(unit, 13.0));
    DivisorsOf13(Choose(b, 13, Times(unit, 13.0)).plan.factor);
    PlanOfTwo(b, unit, 13);
  }

  /** Which of the three candidate stages the budget admits. */
  lemma Budgeted(b: Band, unit: real)
    requires ValidBand(b) && unit > 0.0
    requires 3.0 * b.stopband - b.passband > 2.0 * unit && b.stopband + b.passband < 13.0 * unit
    requires b.stopbandDb == CutOff(b.pi, b.passband, b.stopband, unit) && b.maxTaps == CUT_BUDGET
    ensures EstimateTaps(b.pi, b.stopbandDb, 13.0 * unit - b.stopband - b.passband, Times(unit, 26.0)) <= b.maxTaps
    ensures EstimateTaps(b.pi, b.stopbandDb, b.stopband - b.passband, Times(unit, 13.0)) <= b.maxTaps
    ensures EstimateTaps(b.pi, b.stopbandDb, 2.0 * unit - b.stopband - b.passband, Times(unit, 26.0)) > b.maxTaps
  {
    hide EstimateTaps;
    hide Times;
    hide EdgeDb;
    PositiveTimes(unit, 26);
    PositiveTimes(unit, 13);
    var r26, r13 := Times(unit, 26.0), Times(unit, 13.0);
    assert r26 == 2.0 * r13 by { TwiceThirteen(unit); }
    var early, last, middle :=
      13.0 * unit - b.stopband - b.passband, b.stopband - b.passband, 2.0 * unit - b.stopband - b.passband;
    if early <= 2.0 * last {
      WiderThan(early, r26, last, r13, middle);
      EdgeAdmits(b.pi, early, r26, early, r26);
      EdgeAdmits(b.pi, early, r26, last, r13);
      EdgeAdmits(b.pi, early, r26, middle, r26);
    } else {
      WiderThan(early, r26, last, r13, middle);
      EdgeAdmits(b.pi, last, r13, early, r26);
      EdgeAdmits(b.pi, last, r13, last, r13);
      EdgeAdmits(b.pi, last, r13, middle, r26);
    }
  }

  lemma TwiceThirteen(unit: real)
    ensures Times(unit, 26.0) == 2.0 * Times(unit, 13.0)
  {
  }

  lemma WiderThan(early: real, r26: real, last: real, r13: real, middle: real)
    requires r13 > 0.0 && r26 == 2.0 * r13 && middle < early && middle < 2.0 * last
    ensures early <= 2.0 * last ==> last * r26 >= early * r13 && middle * r26 < early * r26
    ensures early > 2.0 * last ==> early * r13 >= last * r26 && middle * r13 < last * r26
  {
    if early <= 2.0 * last {
      MulNonnegative(2.0 * last - early, r13);
      MulPositive(early - middle, r26);
    } else {
      MulPositive(early - 2.0 * last, r13);
      MulPositive(2.0 * last - middle, r13);
    }
  }

  lemma StagesOf26(b: Band, unit: real)
    requires b.pi > 0.0
    ensures StageFor(b, 26, Times(unit, 26.0), 2).stopband == 13.0 * unit - b.stopband
    ensures StageFor(b, 26, Times(unit, 26.0), 13).stopband == 2.0 * unit - b.stopband
    ensures StageFor(b, 26, Times(unit, 26.0), 2).outputRate == Times(unit, 13.0)
  {
  }

  lemma DivisorsOf26(f: nat)
    requires 2 <= f <= 16 && Divides(f, 26)
    ensures f == 2 || f == 13
  {
    assert f == 2 || f == 3 || f == 4 || f == 5 || f == 6 || f == 7 || f == 8 || f == 9 || f == 10
      || f == 11 || f == 12 || f == 13 || f == 14 || f == 15 || f == 16;
  }

  lemma DivisorsOf32(f: nat)
    requires 2 <= f <= 16 && Divides(f, 32)
    ensures f == 2 || f == 4 || f == 8 || f == 16
  {
    assert f == 2 || f == 3 || f == 4 || f == 5 || f == 6 || f == 7 || f == 8 || f == 9 || f == 10
      || f == 11 || f == 12 || f == 13 || f == 14 || f == 15 || f == 16;
  }

  /** Two first and the rest in one go is a plan whose factors increase. */
  lemma PlanOfTwo(b: Band, unit: real, last: nat)
    requires b.pi > 0.0 && last > 2
    requires Choose(b, 2 * last, Times(unit, (2 * last) as real)).Chosen?
    requires Choose(b, 2 * last, Times(unit, (2 * last) as real)).plan
          == StageFor(b, 2 * last, Times(unit, (2 * last) as real), 2)
    requires Choose(b, last, Times(unit, last as real)).Chosen?
    requires Choose(b, last, Times(unit, last as real)).plan == StageFor(b, last, Times(unit, last as real), last)
    ensures !Ordered(PlanFor(b, unit, 2 * last))
  {
    hide Times;
    hide EstimateTaps;
    hide Choose;
    var rate := Times(unit, (2 * last) as real);
    StageRate(b, unit, 2 * last, rate, 2);
    DivModUnique(last, last, 1, 0);
    var first, second := StageFor(b, 2 * last, rate, 2), StageFor(b, last, Times(unit, last as real), last);
    assert Plan(b, 1, second.outputRate) == Ok([]);
    assert Plan(b, last, Times(unit, last as real)) == Ok([second]) by { assert [second] + [] == [second]; }
    assert Plan(b, 2 * last, rate) == Ok([first] + [second]);
    assert ([first] + [second])[0].factor < ([first] + [second])[1].factor;
  }

  lemma TwoThenSixteen(b: Band, unit: real)
    requires ValidBand(b) && unit > 0.0 && b.maxTaps == USIZE_MAX
    requires 13.0 * unit <= b.stopband + b.passband < 16.0 * unit
    ensures !Ordered(PlanFor(b, unit, 32))
  {
    hide EstimateTaps;
    hide Times;
    StagesOf32(b, unit);
    var rate := Times(unit, 32.0);
    assert Usable(b, 32, rate, 2);
    assert !Usable(b, 32, rate, 4) && !Usable(b, 32, rate, 8) && !Usable(b, 32, rate, 16);
    ChooseIsGreedy(b, 32, rate);
    DivisorsOf32(Choose(b, 32, rate).plan.factor);
    assert Usable(b, 16, Times(unit, 16.0), 16);
    ChooseIsGreedy(b, 16, Times(unit, 16.0));
    PlanOfTwo(b, unit, 16);
  }

  lemma StagesOf32(b: Band, unit: real)
    requires b.pi > 0.0
    ensures StageFor(b, 32, Times(unit, 32.0), 2).stopband == 16.0 * unit - b.stopband
    ensures StageFor(b, 32, Times(unit, 32.0), 4).stopband == 8.0 * unit - b.stopband
    ensures StageFor(b, 32, Times(unit, 32.0), 8).stopband == 4.0 * unit - b.stopband
    ensures StageFor(b, 32, Times(unit, 32.0), 16).stopband == 2.0 * unit - b.stopband
  {
  }

  // ---------- accepted requests beyond the conditions ----------

  /** The allowance admits a request whose factors can increase: 26 nano-hertz to
      one, with a stopband edge of 1.4. */
  lemma AcceptedOrderBreaks(pi: real) returns (db: real, budget: nat)
    requires pi > 0.0
    ensures budget <= USIZE_MAX
    ensures Validate(0.000000026, 0.000000001, 0.0000000001, 0.0000000014) == Ok(26)
    ensures var plan := Plan(Band(pi, 0.0000000001, 0.0000000014, db, budget), 26, 0.000000026);
      plan.Ok? && !NonIncreasing(plan.value)
  {
    hide Plan;
    var unit := 0.000000001;
    assert 0.000000026 / unit == 26.0;
    assert Round(26.0) == 26;
    db, budget := CutOff(pi, 0.0000000001, 0.0000000014, unit), CUT_BUDGET;
    TwoThenThirteen(Band(pi, 0.0000000001, 0.0000000014, db, budget), unit);
    assert Times(unit, 26.0) == 0.000000026;
  }

  /** The allowance admits a request whose plan does not protect its channel: 2 Hz
      to 1 Hz with a stopband edge half a nano-hertz beyond the half. */
  lemma AcceptedGap(pi: real)
    requires pi > 0.0
    ensures var b := Band(pi, 0.4, 0.5000000005, 80.0, USIZE_MAX);
      && Validate(2.0, 1.0, b.passband, b.stopband) == Ok(2)
      && Plan(b, 2, 2.0).Ok? && Plan(b, 2, 2.0).value != []
      && !ProtectsChannel(b, Plan(b, 2, 2.0).value)
  {
    hide Plan;
    hide ProtectsChannel;
    hide EstimateTaps;
    var b := Band(pi, 0.4, 0.5000000005, 80.0, USIZE_MAX);
    assert 2.0 / 1.0 == 2.0;
    assert Round(2.0) == 2;
    assert Times(1.0, 2.0) == 2.0;
    TwoIsSmooth();
    UnlimitedIsEnough(b, 1.0);
    SmoothRatiosArePlanned(b, 1.0, 2, 2.0);
    PlansAreSound(b, 1.0, 2, 2.0);
    ProtectedExactly(b, 1.0, 2, Plan(b, 2, 2.0).value);
  }

  /** What a stage of the least factor costs bounds the settling time of every
      plan from below. */
  lemma {:induction false} SettlingAtLeast(b: Band, unit: real, remaining: nat, stages: seq<StagePlan>)
    requires ValidBand(b) && unit > 0.0 && remaining > 0
    requires Sound(b, unit, remaining, stages) && stages != []
    ensures MAX_STAGE_FACTOR * Dec.PlanSettling(stages) >= LastStageTaps(b, unit, 2) * remaining
  {
    hide EstimateTaps;
    hide Times;
    hide Quotient;
    var s := stages[0];
    var q := Quotient(remaining, s.factor);
    RemainderShrinks(remaining, s.factor);
    ExactQuotient(remaining, s.factor);
    var least := LastStageTaps(b, unit, 2);
    if stages[1..] == [] {
      assert s.factor == remaining && Dec.PlanSettling(stages[1..]) == 0;
      PositiveTimes(unit, 2);
      AtLeastTwice(unit, remaining);
      WiderRate(b.stopband - b.passband, Times(unit, 2.0), Times(unit, remaining as real));
      var t := b.stopband - b.passband;
      NarrowerCostsMore(b.pi, b.stopbandDb, t, Times(unit, 2.0), t, Times(unit, remaining as real));
      SettlingBase(s.taps, least, remaining);
    } else {
      SettlingAtLeast(b, unit, q, stages[1..]);
      SettlingMore(s.taps, s.factor, Dec.PlanSettling(stages[1..]), least, q);
    }
  }

  lemma AtLeastTwice(unit: real, n: nat)
    requires unit > 0.0 && n >= 2
    ensures Times(unit, 2.0) <= Times(unit, n as real)
  {
    TimesAtMost(unit, 2, n);
  }

  lemma SettlingBase(taps: nat, least: nat, n: nat)
    requires taps >= least && n <= MAX_STAGE_FACTOR
    ensures MAX_STAGE_FACTOR * taps >= least * n
  {
    MulMono(least, taps, n);
    MulMono(n, MAX_STAGE_FACTOR, taps);
  }

  lemma SettlingMore(taps: nat, f: nat, later: nat, least: nat, q: nat)
    requires MAX_STAGE_FACTOR * later >= least * q
    ensures MAX_STAGE_FACTOR * (taps + f * later) >= least * (f * q)
  {
    MulMono(least * q, MAX_STAGE_FACTOR * later, f);
    assert f * (MAX_STAGE_FACTOR * later) == MAX_STAGE_FACTOR * (f * later);
    assert f * (least * q) == least * (f * q);
  }

  /** An accepted request whose settling time is not a word: 2^63 Hz to 1 Hz. The
      running total of its plan wraps. */
  lemma AcceptedSettlingOverflows(pi: real)
    requires 0.0 < pi <= 4.0
    ensures var b := Band(pi, 0.4, 0.5, 80.0, USIZE_MAX);
      var inputRate := TAP_LIMIT as real;
      && Validate(inputRate, 1.0, b.passband, b.stopband) == Ok(TAP_LIMIT)
      && Plan(b, TAP_LIMIT, inputRate).Ok?
      && Dec.PlanSettling(Plan(b, TAP_LIMIT, inputRate).value) > USIZE_MAX
      && Dec.WordSettling(Plan(b, TAP_LIMIT, inputRate).value) != Dec.PlanSettling(Plan(b, TAP_LIMIT, inputRate).value)
  {
    hide Plan;
    hide EstimateTaps;
    hide Sound;
    var b := Band(pi, 0.4, 0.5, 80.0, USIZE_MAX);
    var inputRate := TAP_LIMIT as real;
    assert inputRate / 1.0 == inputRate;
    assert Round(inputRate) == TAP_LIMIT;
    assert inputRate == Times(1.0, TAP_LIMIT as real);
    PowerIsSmooth(63);
    assert Pow2(63) == TAP_LIMIT by { TwoTo63(); }
    UnlimitedIsEnough(b, 1.0);
    SmoothRatiosArePlanned(b, 1.0, TAP_LIMIT, inputRate);
    PlansAreSound(b, 1.0, TAP_LIMIT, inputRate);
    var stages := Plan(b, TAP_LIMIT, inputRate).value;
    SettlingAtLeast(b, 1.0, TAP_LIMIT, stages);
    CostAtTwo(b);
    Dec.SoundIsBuildable(b, 1.0, TAP_LIMIT, stages);
    Dec.SettlingExactly(stages);
  }

  lemma CostAtTwo(b: Band)
    requires 0.0 < b.pi <= 4.0 && b == Band(b.pi, 0.4, 0.5, 80.0, USIZE_MAX)
    ensures LastStageTaps(b, 1.0, 2) >= 64
  {
    var w := RadianWidth(b.pi, 0.1, 2.0);
    assert w == 4.57 * (b.pi * 0.05);
    var figure := 72.0 / w;
    assert figure * w == 72.0;
    if figure < 64.0 { MulPositive(64.0 - figure, w); }
    assert b.stopband - b.passband == 0.1 && b.stopbandDb - 8.0 == 72.0 && Times(1.0, 2.0) == 2.0;
    EstimateIsTight(b.pi, 80.0, 0.1, 2.0);
  }

  lemma {:induction false} PowerIsSmooth(k: nat)
    ensures Smooth(Pow2(k))
  {
    hide Smooth;
    if k == 0 {
      OneIsSmooth();
    } else {
      PowerIsSmooth(k - 1);
      DivModUnique(Pow2(k), 2, Pow2(k - 1), 0);
      SmoothProduct(Pow2(k), 2);
    }
  }

  lemma TwoTo63()
    ensures Pow2(63) == TAP_LIMIT
  {
    hide Pow2;
    TwoTo21();
    Pow2Add(21, 21);
    Pow2Add(21, 42);
  }

  lemma TwoTo21()
    ensures Pow2(21) == 0x20_0000
  {
    assert Pow2(7) == 128;
    Pow2Add(7, 7);
    Pow2Add(7, 14);
  }

  lemma TwoIsSmooth()
    ensures Smooth(2)
  {
  }
}
