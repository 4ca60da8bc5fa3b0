/** Sequence-gap tracking: what the counters of a whole run of packets say. */
module Gaps {
  import opened Numerics

  /** Where the stream resumed, and how many samples are missing before that. */
  datatype GapMarker = GapMarker(atSample: nat, missing: nat)

  datatype Tracking = Tracking(next: Option<nat>, gaps: nat, gapSamples: nat, resets: nat, last: Option<GapMarker>)

  const UNSEEN: Tracking := Tracking(None, 0, 0, 0, None)

  function SaturatingAdd(a: nat, b: nat): nat {
    Min(a + b, U64_MAX)
  }

  /** One packet: the first moves nothing but the expectation, a later start is
      a gap, an earlier one a reset. */
  function Observed(g: Tracking, counter: nat, samples: nat): (Tracking, Option<GapMarker>) {
    var end := Some(SaturatingAdd(counter, samples));
    if g.next.None? || counter == g.next.value then (g.(next := end), None)
    else if counter > g.next.value then
      var marker := GapMarker(counter, counter - g.next.value);
      (Tracking(end, g.gaps + 1, g.gapSamples + marker.missing, g.resets, Some(marker)), Some(marker))
    else (g.(next := end, resets := g.resets + 1), None)
  }

  /** The samples one packet claims: its first counter and how many it carries. */
  datatype Span = Span(counter: nat, samples: nat)

  /** Where the next packet should start; the counter word saturates. */
  function End(p: Span): nat { SaturatingAdd(p.counter, p.samples) }

  /** What a tracker amounts to after a run of packets. */
  ghost function RunSpans(ps: seq<Span>): Tracking {
    if ps == [] then UNSEEN
    else
      var last := ps[|ps| - 1];
      Observed(RunSpans(ps[..|ps| - 1]), last.counter, last.samples).0
  }

  lemma SpansSnoc(spans: seq<Span>, span: Span)
    ensures RunSpans(spans + [span]) == Observed(RunSpans(spans), span.counter, span.samples).0
  {
    assert (spans + [span])[..|spans|] == spans;
  }

  class GapTracker {
    var nextExpected: Option<nat>
    var gaps: nat
    var gapSamples: nat
    var resets: nat
    var lastMarker: Option<GapMarker>

    /** Every packet observed so far. */
    ghost var seen: seq<Span>

    ghost predicate Valid()
      reads this
    {
      Abstract() == RunSpans(seen)
    }

    ghost function Abstract(): Tracking
      reads this
    {
      Tracking(nextExpected, gaps, gapSamples, resets, lastMarker)
    }

    constructor ()
      ensures Valid() && seen == [] && Abstract() == UNSEEN
    {
      nextExpected, gaps, gapSamples, resets, lastMarker := None, 0, 0, 0, None;
      seen := [];
    }

    method Observe(counter: nat, samples: nat) returns (r: Option<GapMarker>)
      requires Valid()
      modifies this
      ensures Valid() && seen == old(seen) + [Span(counter, samples)]
      ensures (Abstract(), r) == Observed(old(Abstract()), counter, samples)
    {
      hide RunSpans;
      SpansSnoc(seen, Span(counter, samples));
      seen := seen + [Span(counter, samples)];
      var end := SaturatingAdd(counter, samples);
      if nextExpected.None? {
        nextExpected := Some(end);
        return None;
      }
      var expected := nextExpected.value;
      nextExpected := Some(end);
      if counter == expected {
        return None;
      }
      if counter > expected {
        var missing := counter - expected;
        gaps := gaps + 1;
        gapSamples := gapSamples + missing;
        var marker := GapMarker(counter, missing);
        lastMarker := Some(marker);
        return Some(marker);
      }
      resets := resets + 1;
      return None;
    }

    /** True when no discontinuity has been observed: every packet started where
        the one before it ended. */
    method IsContiguous() returns (b: bool)
      requires Valid()
      ensures b <==> BackToBack(seen)
    {
      if seen != [] { ContiguousExactly(seen); }
      b := gaps == 0 && resets == 0;
    }
  }

  /** How far packet i starts beyond the end of the one before it. */
  function Skipped(ps: seq<Span>, i: nat): nat
    requires 0 < i < |ps|
  {
    if ps[i].counter > End(ps[i - 1]) then ps[i].counter - End(ps[i - 1]) else 0
  }

  function SteppedBack(ps: seq<Span>, i: nat): nat
    requires 0 < i < |ps|
  {
    if ps[i].counter < End(ps[i - 1]) then End(ps[i - 1]) - ps[i].counter else 0
  }

  ghost function Carried(ps: seq<Span>): nat {
    if ps == [] then 0 else Carried(ps[..|ps| - 1]) + ps[|ps| - 1].samples
  }

  ghost function Lost(ps: seq<Span>): nat {
    if |ps| <= 1 then 0 else Lost(ps[..|ps| - 1]) + Skipped(ps, |ps| - 1)
  }

  /** Which packets start late, in order. */
  ghost function Late(ps: seq<Span>): (at: seq<nat>)
    ensures forall k :: 0 <= k < |at| ==> 0 < at[k] < |ps| && Skipped(ps, at[k]) > 0
  {
    if |ps| <= 1 then []
    else
      var n := |ps| - 1;
      var pre := Late(ps[..n]);
      assert forall k :: 0 <= k < |pre| ==> Skipped(ps[..n], pre[k]) == Skipped(ps, pre[k]);
      pre + (if Skipped(ps, n) > 0 then [n] else [])
  }

  /** They are the packets that start late, each once. */
  lemma {:induction false} LateIsGapAt(ps: seq<Span>)
    ensures forall i :: i in Late(ps) <==> i in GapAt(ps)
    ensures forall k :: 0 < k < |Late(ps)| ==> Late(ps)[k - 1] < Late(ps)[k]
  {
    hide Skipped;
    if |ps| > 1 {
      LateIsGapAt(ps[..|ps| - 1]);
      PlacesGrow(ps);
    }
  }

  lemma LateSnoc(ps: seq<Span>, p: Span)
    requires ps != []
    ensures Late(ps + [p]) == Late(ps) + (if p.counter > End(ps[|ps| - 1]) then [|ps|] else [])
  {
    assert (ps + [p])[..|ps|] == ps;
  }

  /** The marker a packet brings, in terms of the one before it. */
  lemma MarkerIs(ps: seq<Span>, p: Span)
    ensures var marker := Observed(RunSpans(ps), p.counter, p.samples).1;
      marker == if ps != [] && p.counter > End(ps[|ps| - 1])
                then Some(GapMarker(p.counter, p.counter - End(ps[|ps| - 1]))) else None
  {
    if ps != [] { CountersMean(ps); }
  }

  /** The last marker is that of the last packet to start late. */
  lemma {:induction false} LastMarker(ps: seq<Span>)
    ensures var at := Late(ps);
      RunSpans(ps).last == if at == [] then None
        else Some(GapMarker(ps[at[|at| - 1]].counter, Skipped(ps, at[|at| - 1])))
  {
    hide *;
    if ps == [] {
      NothingLast();
    } else {
      var n := |ps| - 1;
      LastMarker(ps[..n]);
      MarkerIs(ps[..n], ps[n]);
      assert ps[..n] + [ps[n]] == ps;
      LastIs(RunSpans(ps[..n]), ps[n]);
      SpansSnoc(ps[..n], ps[n]);
      if n > 0 {
        LateSnoc(ps[..n], ps[n]);
        SkippedLast(ps);
        var at := Late(ps[..n]);
        if at != [] { SkippedPrefix(ps, at[|at| - 1]); }
      } else {
        NoneLateYet(ps);
      }
    }
  }

  lemma NothingLast()
    ensures RunSpans([]).last == None && Late([]) == []
  {
  }

  lemma NoneLateYet(ps: seq<Span>)
    requires |ps| == 1
    ensures Late(ps) == [] && Late(ps[..0]) == [] && ps[..0] == []
  {
  }

  lemma LastIs(g: Tracking, p: Span)
    ensures var r := Observed(g, p.counter, p.samples);
      r.0.last == if r.1.Some? then r.1 else g.last
  {
  }

  lemma SkippedLast(ps: seq<Span>)
    requires |ps| > 1
    ensures ps[..|ps| - 1][|ps| - 2] == ps[|ps| - 2]
    ensures ps[|ps| - 1].counter > End(ps[|ps| - 2]) ==>
      Skipped(ps, |ps| - 1) == ps[|ps| - 1].counter - End(ps[|ps| - 2])
  {
  }

  lemma SkippedPrefix(ps: seq<Span>, i: nat)
    requires 0 < i < |ps| - 1
    ensures Skipped(ps[..|ps| - 1], i) == Skipped(ps, i) && ps[..|ps| - 1][i] == ps[i]
  {
  }

  lemma LostStep(ps: seq<Span>)
    requires |ps| > 1
    ensures Lost(ps) == Lost(ps[..|ps| - 1]) + Skipped(ps, |ps| - 1)
  {
  }

  ghost function Rewound(ps: seq<Span>): nat {
    if |ps| <= 1 then 0 else Rewound(ps[..|ps| - 1]) + SteppedBack(ps, |ps| - 1)
  }

  ghost function GapAt(ps: seq<Span>): set<nat> {
    set i: nat | 0 < i < |ps| && Skipped(ps, i) > 0
  }

  ghost function ResetAt(ps: seq<Span>): set<nat> {
    set i: nat | 0 < i < |ps| && SteppedBack(ps, i) > 0
  }

  /** What packets claim beyond the end of the counter word. */
  ghost function Clipped(ps: seq<Span>): nat {
    if ps == [] then 0
    else
      var last := ps[|ps| - 1];
      Clipped(ps[..|ps| - 1]) + (last.counter + last.samples - End(last))
  }

  ghost predicate WithinCounter(ps: seq<Span>) {
    forall i :: 0 <= i < |ps| ==> ps[i].counter + ps[i].samples <= U64_MAX
  }

  lemma {:induction false} NothingClipped(ps: seq<Span>)
    ensures Clipped(ps) == 0 <==> WithinCounter(ps)
  {
    if ps != [] {
      var n := |ps| - 1;
      NothingClipped(ps[..n]);
      assert forall i :: 0 <= i < n ==> ps[..n][i] == ps[i];
    }
  }

  lemma PlacesGrow(ps: seq<Span>)
    requires |ps| > 1
    ensures var pre, n := ps[..|ps| - 1], |ps| - 1;
      && GapAt(ps) == GapAt(pre) + (if Skipped(ps, n) > 0 then {n} else {}) && n !in GapAt(pre)
      && ResetAt(ps) == ResetAt(pre) + (if SteppedBack(ps, n) > 0 then {n} else {}) && n !in ResetAt(pre)
  {
    var pre, n := ps[..|ps| - 1], |ps| - 1;
    forall i: nat | 0 < i < n
      ensures Skipped(pre, i) == Skipped(ps, i) && SteppedBack(pre, i) == SteppedBack(ps, i)
    {
    }
  }

  lemma PlacesCount(ps: seq<Span>)
    requires |ps| > 1
    ensures var pre, n := ps[..|ps| - 1], |ps| - 1;
      && |GapAt(ps)| == |GapAt(pre)| + (if Skipped(ps, n) > 0 then 1 else 0)
      && |ResetAt(ps)| == |ResetAt(pre)| + (if SteppedBack(ps, n) > 0 then 1 else 0)
  {
    hide Skipped;
    hide SteppedBack;
    PlacesGrow(ps);
  }

  lemma NoPlaces(ps: seq<Span>)
    requires |ps| == 1
    ensures GapAt(ps) == {} && ResetAt(ps) == {}
  {
  }

  /** What the counters mean: the places where a packet starts late and by how
      much, and the places where one starts early, over every run. */
  lemma {:induction false} CountersMean(ps: seq<Span>)
    requires ps != []
    ensures var g := RunSpans(ps);
      && g.next == Some(End(ps[|ps| - 1]))
      && g.gaps == |GapAt(ps)| && g.gapSamples == Lost(ps) && g.resets == |ResetAt(ps)|
  {
    hide GapAt;
    hide ResetAt;
    var n := |ps| - 1;
    if n == 0 {
      NoPlaces(ps);
      assert ps[..0] == [];
      assert GapAt(ps) == {} && ResetAt(ps) == {};
    } else {
      CountersMean(ps[..n]);
      PlacesCount(ps);
      assert ps[..n][n - 1] == ps[n - 1];
    }
  }

  /** Conservation: where the counter stands plus all it was set back, and all that
      saturation clipped, is where it began plus everything carried and everything
      lost. */
  lemma {:induction false} CounterConservation(ps: seq<Span>)
    requires ps != []
    ensures End(ps[|ps| - 1]) + Rewound(ps) + Clipped(ps) == ps[0].counter + Carried(ps) + Lost(ps)
  {
    var n := |ps| - 1;
    if n == 0 {
      assert ps[..0] == [];
    } else {
      CounterConservation(ps[..n]);
      assert ps[..n][n - 1] == ps[n - 1];
    }
  }

  ghost predicate BackToBack(ps: seq<Span>) {
    forall i :: 0 < i < |ps| ==> ps[i].counter == End(ps[i - 1])
  }

  /** The tracker calls a run contiguous exactly when every packet starts where
      the one before it ended. */
  lemma {:induction false} ContiguousExactly(ps: seq<Span>)
    requires ps != []
    ensures RunSpans(ps).gaps == 0 && RunSpans(ps).resets == 0 <==> BackToBack(ps)
  {
    hide *;
    CountersMean(ps);
    NowhereExactly(ps);
    assert |GapAt(ps)| == 0 <==> GapAt(ps) == {};
    assert |ResetAt(ps)| == 0 <==> ResetAt(ps) == {};
  }

  lemma NowhereExactly(ps: seq<Span>)
    ensures GapAt(ps) == {} && ResetAt(ps) == {} <==> BackToBack(ps)
  {
    hide End;
    if !BackToBack(ps) {
      var i: nat :| 0 < i < |ps| && ps[i].counter != End(ps[i - 1]);
      assert i in GapAt(ps) || i in ResetAt(ps);
    }
  }

  /** A run without resets loses exactly what its counters skip: samples carried
      plus samples lost span the counter from first to next expected, but for
      what saturation clipped. */
  lemma {:induction false} ResetFreeSpan(ps: seq<Span>)
    requires ps != [] && RunSpans(ps).resets == 0
    ensures RunSpans(ps).next.Some?
    ensures RunSpans(ps).next.value + Clipped(ps) == ps[0].counter + Carried(ps) + RunSpans(ps).gapSamples
  {
    CountersMean(ps);
    CounterConservation(ps);
    NoRewind(ps);
  }

  lemma {:induction false} NoRewind(ps: seq<Span>)
    requires ResetAt(ps) == {}
    ensures Rewound(ps) == 0
  {
    if |ps| > 1 {
      PlacesGrow(ps);
      NoRewind(ps[..|ps| - 1]);
    }
  }
}
