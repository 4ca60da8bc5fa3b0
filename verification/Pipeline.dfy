/** The channelizer service as a pure machine: datagrams in, an output timeline
    out. Its laws hold over every run. */
module Pipeline {
  import opened Numerics
  import opened Samples
  import opened Bytes
  import opened Vita49
  import opened Timeline
  import opened Vectors
  import Gaps
  import Cascade
  import Dec = Decimator

  /** A discontinuity on both timelines: the input sample the stream resumed at,
      how many were missing, and the output index it resumes at. */
  datatype GapRecord = GapRecord(atInput: nat, missing: nat, atOutput: nat)

  /** Everything a run has determined so far. `input` and `spans` are what it
      has accepted: the samples in order, and each packet's counter and size. */
  datatype Stream = Stream(gap: Gaps.Tracking, chan: Dec.State, line: seq<Slot>, gaps: seq<GapRecord>,
                           input: seq<Iq>, spans: seq<Gaps.Span>, malformed: nat)

  ghost function Begin(d: Dec.Design): (s: Stream)
    requires Dec.ValidDesign(d)
  {
    Stream(Gaps.UNSEEN, Dec.FreshState(d), [], [], [], [], 0)
  }

  ghost function Factor(d: Dec.Design): (n: nat)
    requires Dec.ValidDesign(d)
    ensures n >= 1
  {
    Cascade.Decimation(d.stages)
  }

  /** Output time lost with `missing` input samples: rounded up, so that a loss
      never closes up. */
  ghost function SkipFor(d: Dec.Design, missing: nat): nat
    requires Dec.ValidDesign(d)
  {
    CeilDiv(missing, Factor(d))
  }

  ghost function Skip(d: Dec.Design, marker: Option<Gaps.GapMarker>): nat
    requires Dec.ValidDesign(d)
  {
    if marker.Some? then SkipFor(d, marker.value.missing) else 0
  }

  ghost function Recorded(marker: Option<Gaps.GapMarker>, resumes: nat): seq<GapRecord> {
    if marker.Some? then [GapRecord(marker.value.atSample, marker.value.missing, resumes)] else []
  }

  /** The output timeline after a gap, before the packet's own samples. */
  ghost function AfterGap(d: Dec.Design, s: Stream, span: Gaps.Span): (r: Stream)
    requires Dec.ValidDesign(d)
  {
    var obs := Gaps.Observed(s.gap, span.counter, span.samples);
    var n := Skip(d, obs.1);
    s.(gap := obs.0, line := s.line + Holes(n), gaps := s.gaps + Recorded(obs.1, |s.line| + n),
       spans := s.spans + [span])
  }

  /** Samples through the chain and onto the timeline. */
  ghost function AfterSamples(d: Dec.Design, s: Stream, interleaved: seq<I16>): (r: Stream)
    requires Dec.ValidState(d, s.chan)
    ensures Dec.ValidState(d, r.chan)
  {
    var iq := Sc16ToIq(interleaved);
    var run := Dec.Run(d, s.chan, iq);
    s.(chan := run.0, line := s.line + Slots(run.1), input := s.input + iq)
  }

  /** One datagram: a malformed one is counted and nothing else. */
  ghost function Fed(d: Dec.Design, rate: real, s: Stream, datagram: seq<byte>): (r: Stream)
    requires Dec.ValidDesign(d) && Dec.ValidState(d, s.chan)
    ensures Dec.ValidState(d, r.chan)
  {
    if Parse(datagram).Err? then s.(malformed := s.malformed + 1)
    else AfterSamples(d, AfterGap(d, s, SpanOf(datagram, rate)), SamplesOf(datagram))
  }

  ghost function RunStream(d: Dec.Design, rate: real, datagrams: seq<seq<byte>>): (s: Stream)
    requires Dec.ValidDesign(d)
    ensures Dec.ValidState(d, s.chan)
  {
    if datagrams == [] then Begin(d)
    else Fed(d, rate, RunStream(d, rate, datagrams[..|datagrams| - 1]), datagrams[|datagrams| - 1])
  }

  // ---------- what every run keeps ----------

  /** What the chain puts out for an input. */
  ghost function Outputs(d: Dec.Design, input: seq<Iq>): seq<Iq>
    requires Dec.ValidDesign(d)
  {
    Dec.Run(d, Dec.FreshState(d), input).1
  }

  ghost function SkipTotal(d: Dec.Design, gaps: seq<GapRecord>): nat
    requires Dec.ValidDesign(d)
  {
    if gaps == [] then 0 else SkipTotal(d, gaps[..|gaps| - 1]) + SkipFor(d, gaps[|gaps| - 1].missing)
  }

  ghost function MissingTotal(gaps: seq<GapRecord>): nat {
    if gaps == [] then 0 else MissingTotal(gaps[..|gaps| - 1]) + gaps[|gaps| - 1].missing
  }

  /** n output samples are the fewest that cover the loss. */
  ghost predicate LeastCover(d: Dec.Design, missing: nat, n: nat)
    requires Dec.ValidDesign(d)
  {
    (n - 1) * Factor(d) < missing <= n * Factor(d)
  }

  /** The stretch just before the recorded output index is a hole of the fewest
      output samples that cover the loss, and never empty. */
  ghost predicate Placed(d: Dec.Design, line: seq<Slot>, g: GapRecord)
    requires Dec.ValidDesign(d)
  {
    && LeastCover(d, g.missing, SkipFor(d, g.missing))
    && 1 <= SkipFor(d, g.missing) <= g.atOutput <= |line|
    && forall i :: g.atOutput - SkipFor(d, g.missing) <= i < g.atOutput ==> line[i].Hole?
  }

  ghost predicate ChainKept(d: Dec.Design, s: Stream)
    requires Dec.ValidDesign(d)
  {
    (s.chan, Values(s.line)) == Dec.Run(d, Dec.FreshState(d), s.input)
  }

  ghost predicate GapsKept(d: Dec.Design, s: Stream)
    requires Dec.ValidDesign(d)
  {
    && s.gap == Gaps.RunSpans(s.spans)
    && |s.gaps| == s.gap.gaps && MissingTotal(s.gaps) == s.gap.gapSamples
  }

  ghost predicate LineKept(d: Dec.Design, s: Stream)
    requires Dec.ValidDesign(d)
  {
    && |s.line| == |Values(s.line)| + SkipTotal(d, s.gaps)
    && forall k :: 0 <= k < |s.gaps| ==> Placed(d, s.line, s.gaps[k])
  }

  /** The chain has seen exactly the accepted samples and the timeline holds what
      it made of them; the gap counters are those of the accepted packets; the
      timeline is those outputs and the holes of the recorded gaps. */
  ghost predicate Kept(d: Dec.Design, s: Stream)
    requires Dec.ValidDesign(d)
  {
    ChainKept(d, s) && GapsKept(d, s) && LineKept(d, s)
  }

  lemma BeginKept(d: Dec.Design)
    requires Dec.ValidDesign(d)
    ensures Kept(d, Begin(d))
  {
    hide Dec.FreshState;
    Dec.RunEmpty(d, Dec.FreshState(d));
  }

  lemma PlacedLater(d: Dec.Design, line: seq<Slot>, more: seq<Slot>, g: GapRecord)
    requires Dec.ValidDesign(d) && Placed(d, line, g)
    ensures Placed(d, line + more, g)
  {
    hide SkipFor;
    forall i | g.atOutput - SkipFor(d, g.missing) <= i < g.atOutput
      ensures (line + more)[i].Hole?
    {
      assert (line + more)[i] == line[i];
    }
  }

  lemma SkipPositive(d: Dec.Design, missing: nat)
    requires Dec.ValidDesign(d) && missing > 0
    ensures SkipFor(d, missing) >= 1 && LeastCover(d, missing, SkipFor(d, missing))
  {
    CeilBounds(missing, Factor(d));
    NoneCoversNothing(SkipFor(d, missing), Factor(d), missing);
  }

  lemma NoneCoversNothing(n: nat, f: nat, missing: nat)
    requires 0 < missing <= n * f
    ensures n >= 1
  {
    assert 0 * f == 0;
  }

  lemma AfterGapChain(d: Dec.Design, s: Stream, span: Gaps.Span)
    requires Dec.ValidDesign(d)
    ensures var r := AfterGap(d, s, span);
      r.chan == s.chan && r.input == s.input && Values(r.line) == Values(s.line)
  {
    hide Dec.FreshState;
    hide SkipFor;
    var n := Skip(d, Gaps.Observed(s.gap, span.counter, span.samples).1);
    ValuesAppend(s.line, Holes(n));
    ValuesOfHoles(n);
    assert Values(s.line) + [] == Values(s.line);
  }

  /** What a loss does to the timeline. */
  lemma AfterLoss(d: Dec.Design, s: Stream, span: Gaps.Span, marker: Gaps.GapMarker)
    requires Dec.ValidDesign(d) && Gaps.Observed(s.gap, span.counter, span.samples).1 == Some(marker)
    ensures var r, n := AfterGap(d, s, span), SkipFor(d, marker.missing);
      && r.gap == Gaps.Observed(s.gap, span.counter, span.samples).0
      && r.chan == s.chan && r.line == s.line + Holes(n)
      && r.gaps == s.gaps + [GapRecord(marker.atSample, marker.missing, |s.line| + n)]
  {
    hide SkipFor;
  }

  lemma AfterGapCounts(d: Dec.Design, s: Stream, span: Gaps.Span)
    requires Dec.ValidDesign(d) && GapsKept(d, s)
    ensures GapsKept(d, AfterGap(d, s, span))
  {
    hide SkipFor;
    var r := AfterGap(d, s, span);
    Gaps.SpansSnoc(s.spans, span);
    if Gaps.Observed(s.gap, span.counter, span.samples).1.Some? {
      assert r.gaps[..|s.gaps|] == s.gaps;
    } else {
      assert s.gaps + [] == s.gaps;
    }
  }

  lemma AfterGapLine(d: Dec.Design, s: Stream, span: Gaps.Span)
    requires Dec.ValidDesign(d) && LineKept(d, s)
    ensures LineKept(d, AfterGap(d, s, span))
  {
    hide SkipFor;
    hide Placed;
    hide Values;
    var r := AfterGap(d, s, span);
    var obs := Gaps.Observed(s.gap, span.counter, span.samples);
    var n := Skip(d, obs.1);
    AfterGapChain(d, s, span);
    forall k | 0 <= k < |s.gaps|
      ensures Placed(d, r.line, s.gaps[k])
    {
      PlacedLater(d, s.line, Holes(n), s.gaps[k]);
    }
    if obs.1.Some? {
      NewlyPlaced(d, s.line, obs.1.value);
      assert r.gaps[..|s.gaps|] == s.gaps;
    } else {
      assert s.gaps + [] == s.gaps;
    }
  }

  lemma AfterGapKept(d: Dec.Design, s: Stream, span: Gaps.Span)
    requires Dec.ValidDesign(d) && Kept(d, s)
    ensures Kept(d, AfterGap(d, s, span))
  {
    hide AfterGap;
    hide Dec.Run;
    hide Dec.FreshState;
    AfterGapChain(d, s, span);
    AfterGapCounts(d, s, span);
    AfterGapLine(d, s, span);
  }

  lemma NewlyPlaced(d: Dec.Design, line: seq<Slot>, m: Gaps.GapMarker)
    requires Dec.ValidDesign(d) && m.missing > 0
    ensures var n := SkipFor(d, m.missing);
      Placed(d, line + Holes(n), GapRecord(m.atSample, m.missing, |line| + n))
  {
    SkipPositive(d, m.missing);
  }

  lemma AfterSamplesKept(d: Dec.Design, s: Stream, interleaved: seq<I16>)
    requires Dec.ValidDesign(d) && Dec.ValidState(d, s.chan) && Kept(d, s)
    ensures Kept(d, AfterSamples(d, s, interleaved))
  {
    hide Dec.Run;
    hide Dec.FreshState;
    hide Dec.ValidState;
    hide Placed;
    hide SkipTotal;
    var iq := Sc16ToIq(interleaved);
    var run := Dec.Run(d, s.chan, iq);
    var r := AfterSamples(d, s, interleaved);
    FreshValid(d);
    Dec.RunAppend(d, Dec.FreshState(d), s.input, iq);
    ValuesAppend(s.line, Slots(run.1));
    ValuesOfSlots(run.1);
    forall k | 0 <= k < |s.gaps|
      ensures Placed(d, r.line, s.gaps[k])
    {
      PlacedLater(d, s.line, Slots(run.1), s.gaps[k]);
    }
  }

  lemma FreshValid(d: Dec.Design)
    requires Dec.ValidDesign(d)
    ensures Dec.ValidState(d, Dec.FreshState(d))
  {
  }

  /** Every run keeps the invariant. */
  lemma {:induction false} RunsAreKept(d: Dec.Design, rate: real, datagrams: seq<seq<byte>>)
    requires Dec.ValidDesign(d)
    ensures Kept(d, RunStream(d, rate, datagrams))
  {
    hide Kept;
    hide AfterGap;
    hide AfterSamples;
    hide Parse;
    if datagrams == [] {
      BeginKept(d);
    } else {
      var n := |datagrams| - 1;
      var before := RunStream(d, rate, datagrams[..n]);
      RunsAreKept(d, rate, datagrams[..n]);
      if Parse(datagrams[n]).Ok? {
        var span := SpanOf(datagrams[n], rate);
        AfterGapKept(d, before, span);
        GapKeepsChain(d, before, span);
        AfterSamplesKept(d, AfterGap(d, before, span), SamplesOf(datagrams[n]));
      } else {
        CountKept(d, before);
      }
    }
  }

  lemma GapKeepsChain(d: Dec.Design, s: Stream, span: Gaps.Span)
    requires Dec.ValidDesign(d)
    ensures AfterGap(d, s, span).chan == s.chan
  {
  }

  lemma CountKept(d: Dec.Design, s: Stream)
    requires Dec.ValidDesign(d) && Kept(d, s)
    ensures Kept(d, s.(malformed := s.malformed + 1))
  {
  }

  // ---------- each gap record ----------

  /** A record is packet i's: where that packet starts and how much is missing
      before it; and the output up to the index where it resumes is what the chain
      made of the packets before it. */
  ghost predicate RecordOf(d: Dec.Design, s: Stream, g: GapRecord, i: nat)
    requires Dec.ValidDesign(d)
  {
    && 0 < i < |s.spans| && g.atInput == s.spans[i].counter && g.missing == Gaps.Skipped(s.spans, i)
    && g.atOutput <= |s.line| && Gaps.Carried(s.spans[..i]) <= |s.input|
    && Values(s.line[..g.atOutput]) == Outputs(d, s.input[..Gaps.Carried(s.spans[..i])])
  }

  ghost predicate RecordsKept(d: Dec.Design, s: Stream)
    requires Dec.ValidDesign(d)
  {
    && |s.gaps| == |Gaps.Late(s.spans)|
    && forall k :: 0 <= k < |s.gaps| ==> RecordOf(d, s, s.gaps[k], Gaps.Late(s.spans)[k])
  }

  /** A record stays true of any longer stream. */
  lemma RecordLater(d: Dec.Design, s: Stream, r: Stream, g: GapRecord, i: nat)
    requires Dec.ValidDesign(d) && RecordOf(d, s, g, i)
    requires s.spans <= r.spans && s.line <= r.line && s.input <= r.input
    ensures RecordOf(d, r, g, i)
  {
    hide Outputs;
    hide Values;
    hide Gaps.Carried;
    assert r.spans[..i] == s.spans[..i] && r.spans[i - 1] == s.spans[i - 1];
    assert r.line[..g.atOutput] == s.line[..g.atOutput];
    var n := Gaps.Carried(s.spans[..i]);
    assert r.input[..n] == s.input[..n];
  }

  /** The record a late packet makes. */
  lemma RecordMade(d: Dec.Design, s: Stream, span: Gaps.Span)
    requires Dec.ValidDesign(d) && s.spans != [] && span.counter > Gaps.End(s.spans[|s.spans| - 1])
    requires s.gap == Gaps.RunSpans(s.spans) && Values(s.line) == Outputs(d, s.input)
    requires Gaps.Carried(s.spans) == |s.input|
    ensures var r := AfterGap(d, s, span);
      |r.gaps| == |s.gaps| + 1 && r.gaps[..|s.gaps|] == s.gaps && RecordOf(d, r, r.gaps[|s.gaps|], |s.spans|)
  {
    hide Outputs;
    hide Values;
    hide SkipFor;
    hide Gaps.Carried;
    hide Gaps.Observed;
    var r := AfterGap(d, s, span);
    Gaps.MarkerIs(s.spans, span);
    AfterGapChain(d, s, span);
    assert r.spans[..|s.spans|] == s.spans;
    assert r.line[..|r.line|] == r.line;
    assert s.input[..|s.input|] == s.input;
  }

  lemma NoneMade(d: Dec.Design, s: Stream, span: Gaps.Span)
    requires Dec.ValidDesign(d) && s.gap == Gaps.RunSpans(s.spans)
    requires s.spans == [] || span.counter <= Gaps.End(s.spans[|s.spans| - 1])
    ensures AfterGap(d, s, span).gaps == s.gaps
  {
    hide Gaps.Observed;
    Gaps.MarkerIs(s.spans, span);
  }

  lemma RecordsAfterGap(d: Dec.Design, s: Stream, span: Gaps.Span)
    requires Dec.ValidDesign(d) && RecordsKept(d, s)
    requires s.gap == Gaps.RunSpans(s.spans) && Values(s.line) == Outputs(d, s.input)
    requires Gaps.Carried(s.spans) == |s.input|
    ensures RecordsKept(d, AfterGap(d, s, span))
  {
    hide RecordOf;
    hide Outputs;
    hide Values;
    hide SkipFor;
    hide Gaps.Carried;
    hide Gaps.Observed;
    hide Gaps.Late;
    var r := AfterGap(d, s, span);
    AfterGapGrows(d, s, span);
    forall k | 0 <= k < |s.gaps|
      ensures RecordOf(d, r, s.gaps[k], Gaps.Late(s.spans)[k])
    {
      RecordLater(d, s, r, s.gaps[k], Gaps.Late(s.spans)[k]);
    }
    if s.spans == [] {
      NoneMade(d, s, span);
      NoneLate(s.spans);
      NoneLate(r.spans);
    } else {
      Gaps.LateSnoc(s.spans, span);
      if span.counter > Gaps.End(s.spans[|s.spans| - 1]) {
        RecordMade(d, s, span);
      } else {
        NoneMade(d, s, span);
      }
    }
  }

  lemma NoneLate(spans: seq<Gaps.Span>)
    requires |spans| <= 1
    ensures Gaps.Late(spans) == []
  {
  }

  lemma AfterGapGrows(d: Dec.Design, s: Stream, span: Gaps.Span)
    requires Dec.ValidDesign(d)
    ensures var r := AfterGap(d, s, span);
      r.spans == s.spans + [span] && s.line <= r.line && r.input == s.input
  {
  }

  lemma RecordsAfterSamples(d: Dec.Design, s: Stream, interleaved: seq<I16>)
    requires Dec.ValidDesign(d) && Dec.ValidState(d, s.chan) && RecordsKept(d, s)
    ensures RecordsKept(d, AfterSamples(d, s, interleaved))
  {
    hide RecordOf;
    hide Dec.Run;
    hide Dec.ValidState;
    hide Gaps.Late;
    var r := AfterSamples(d, s, interleaved);
    forall k | 0 <= k < |s.gaps|
      ensures RecordOf(d, r, s.gaps[k], Gaps.Late(s.spans)[k])
    {
      RecordLater(d, s, r, s.gaps[k], Gaps.Late(s.spans)[k]);
    }
  }

  /** Over every run, record k is that of the k-th packet to start late: its
      counter, the samples missing before it, and an output index up to which the
      timeline holds exactly what the chain made of the packets before it. */
  lemma {:induction false} RecordsMatch(d: Dec.Design, rate: real, datagrams: seq<seq<byte>>)
    requires Dec.ValidDesign(d)
    ensures RecordsKept(d, RunStream(d, rate, datagrams))
  {
    hide *;
    if datagrams == [] {
      NoRecords(d, rate);
    } else {
      var n := |datagrams| - 1;
      var before := RunStream(d, rate, datagrams[..n]);
      RecordsMatch(d, rate, datagrams[..n]);
      RunsAreKept(d, rate, datagrams[..n]);
      SpansCarry(d, rate, datagrams[..n]);
      KeptParts(d, before);
      assert datagrams[..n] + [datagrams[n]] == datagrams;
      RunStreamSnoc(d, rate, datagrams[..n], datagrams[n]);
      if Parse(datagrams[n]).Ok? {
        FedIs(d, rate, before, datagrams[n]);
        var span := SpanOf(datagrams[n], rate);
        RecordsAfterGap(d, before, span);
        RecordsAfterSamples(d, AfterGap(d, before, span), SamplesOf(datagrams[n]));
      } else {
        RecordsOfMalformed(d, rate, before, datagrams[n]);
      }
    }
  }

  lemma NoRecords(d: Dec.Design, rate: real)
    requires Dec.ValidDesign(d)
    ensures RecordsKept(d, RunStream(d, rate, []))
  {
  }

  lemma KeptParts(d: Dec.Design, s: Stream)
    requires Dec.ValidDesign(d) && Kept(d, s)
    ensures s.gap == Gaps.RunSpans(s.spans) && Values(s.line) == Outputs(d, s.input)
  {
    hide Dec.Run;
  }

  lemma RecordsOfMalformed(d: Dec.Design, rate: real, s: Stream, datagram: seq<byte>)
    requires Dec.ValidDesign(d) && Dec.ValidState(d, s.chan) && Parse(datagram).Err? && RecordsKept(d, s)
    ensures RecordsKept(d, Fed(d, rate, s, datagram))
  {
    hide Parse;
    hide Gaps.Late;
    hide Gaps.Carried;
    hide Outputs;
    hide Values;
  }

  // ---------- the output clock ----------

  /** Rounded-up losses overshoot by less than one output sample each: by at most
      one input sample fewer than make an output. */
  lemma {:induction false} SkipsBound(d: Dec.Design, gaps: seq<GapRecord>)
    requires Dec.ValidDesign(d)
    ensures MissingTotal(gaps) <= SkipTotal(d, gaps) * Factor(d)
    ensures SkipTotal(d, gaps) * Factor(d) <= MissingTotal(gaps) + |gaps| * (Factor(d) - 1)
  {
    if gaps != [] {
      hide SkipFor;
      var pre, m := gaps[..|gaps| - 1], gaps[|gaps| - 1].missing;
      SkipsBound(d, pre);
      SkipBound(d, m);
      SkipsStep(MissingTotal(pre), SkipTotal(d, pre), m, SkipFor(d, m), |pre|, Factor(d));
    }
  }

  lemma SkipBound(d: Dec.Design, m: nat)
    requires Dec.ValidDesign(d)
    ensures m <= SkipFor(d, m) * Factor(d) <= m + (Factor(d) - 1)
  {
    CeilBounds(m, Factor(d));
  }

  lemma SkipsStep(a: nat, b: nat, m: nat, c: nat, g: nat, f: nat)
    requires f > 0 && a <= b * f <= a + g * (f - 1) && m <= c * f <= m + (f - 1)
    ensures a + m <= (b + c) * f <= a + m + (g + 1) * (f - 1)
  {
    assert (b + c) * f == b * f + c * f;
    assert (g + 1) * (f - 1) == g * (f - 1) + (f - 1);
  }

  /** Rounding up: the least multiple of f that covers m. */
  lemma CeilBounds(m: nat, f: nat)
    requires f > 0
    ensures m <= CeilDiv(m, f) * f <= m + (f - 1)
    ensures m > 0 ==> (CeilDiv(m, f) - 1) * f < m
  {
    var c := CeilDiv(m, f);
    var r := (m + f - 1) % f;
    assert m + f - 1 == c * f + r;
    assert (c - 1) * f == c * f - f;
  }

  /** The output clock, at every point of every run: outputs of the accepted
      samples plus the rounded-up losses; never behind the input clock scaled
      down, and ahead of it by at most one sample a gap. In input samples: less
      than one output behind, and ahead by less than one output a gap. */
  lemma OutputClock(d: Dec.Design, rate: real, datagrams: seq<seq<byte>>)
    requires Dec.ValidDesign(d)
    ensures var s := RunStream(d, rate, datagrams);
      var f := Factor(d);
      var clock := |s.input| + s.gap.gapSamples;
      && |s.line| == Quotient(|s.input|, f) + SkipTotal(d, s.gaps)
      && Quotient(clock, f) <= |s.line| <= Quotient(clock, f) + s.gap.gaps
      && clock - (f - 1) <= |s.line| * f <= clock + s.gap.gaps * (f - 1)
  {
    hide *;
    RunsAreKept(d, rate, datagrams);
    ClockOf(d, RunStream(d, rate, datagrams));
  }

  lemma ClockOf(d: Dec.Design, s: Stream)
    requires Dec.ValidDesign(d) && Kept(d, s)
    ensures var f := Factor(d);
      var clock := |s.input| + s.gap.gapSamples;
      && |s.line| == Quotient(|s.input|, f) + SkipTotal(d, s.gaps)
      && Quotient(clock, f) <= |s.line| <= Quotient(clock, f) + s.gap.gaps
      && clock - (f - 1) <= |s.line| * f <= clock + s.gap.gaps * (f - 1)
  {
    hide Dec.Run;
    hide Dec.FreshState;
    hide SkipFor;
    hide Placed;
    Dec.OutputsPerInput(d, s.input);
    SkipsBound(d, s.gaps);
    ClockArithmetic(|s.input|, MissingTotal(s.gaps), SkipTotal(d, s.gaps), |s.gaps|, Factor(d));
  }

  lemma ClockArithmetic(n: nat, missing: nat, skips: nat, gaps: nat, f: nat)
    requires f > 0 && missing <= skips * f <= missing + gaps * (f - 1)
    ensures Quotient(n + missing, f) <= Quotient(n, f) + skips <= Quotient(n + missing, f) + gaps
    ensures n + missing - (f - 1) <= (Quotient(n, f) + skips) * f <= n + missing + gaps * (f - 1)
  {
    var q, r := n / f, n % f;
    assert n == q * f + r;
    assert (q + skips) * f == q * f + skips * f;
    assert gaps * (f - 1) == gaps * f - gaps;
    DivAddMultiple(n, skips, f);
    DivMono(n + missing, n + skips * f, f);
    DivAddMultiple(n + missing, gaps, f);
    DivMono(n + skips * f, n + missing + gaps * f, f);
  }

  lemma {:induction false} SpansCarry(d: Dec.Design, rate: real, datagrams: seq<seq<byte>>)
    requires Dec.ValidDesign(d)
    ensures Gaps.Carried(RunStream(d, rate, datagrams).spans) == |RunStream(d, rate, datagrams).input|
  {
    hide Parse;
    hide Dec.Run;
    if datagrams != [] {
      var n := |datagrams| - 1;
      var before := RunStream(d, rate, datagrams[..n]);
      SpansCarry(d, rate, datagrams[..n]);
      if Parse(datagrams[n]).Ok? {
        var span := SpanOf(datagrams[n], rate);
        assert (before.spans + [span])[..|before.spans|] == before.spans;
        PacketPairs(datagrams[n], rate);
      }
    }
  }

  lemma PacketPairs(slice: seq<byte>, rate: real)
    requires Parse(slice).Ok?
    ensures |SamplesOf(slice)| % 2 == 0
    ensures SpanOf(slice, rate).samples == |SamplesOf(slice)| / 2
  {
    hide FromBytes;
  }

  /** In a run without resets the scaled-down clock is the input counter itself:
      accepted plus lost samples are the next expected counter less the first,
      short only of what runs past the counter word. */
  lemma InputClock(d: Dec.Design, rate: real, datagrams: seq<seq<byte>>)
    requires Dec.ValidDesign(d)
    requires var s := RunStream(d, rate, datagrams);
      s.spans != [] && s.gap.resets == 0
    ensures var s := RunStream(d, rate, datagrams);
      && s.gap.next.Some?
      && s.gap.next.value + Gaps.Clipped(s.spans) == s.spans[0].counter + |s.input| + s.gap.gapSamples
      && (Gaps.Clipped(s.spans) == 0 <==> Gaps.WithinCounter(s.spans))
  {
    hide RunStream;
    RunsAreKept(d, rate, datagrams);
    SpansCarry(d, rate, datagrams);
    Gaps.ResetFreeSpan(RunStream(d, rate, datagrams).spans);
    Gaps.NothingClipped(RunStream(d, rate, datagrams).spans);
  }

  // ---------- what the sink ends up with ----------

  /** The packets cut from any run's timeline tile it: they carry, in order,
      exactly what the chain made of the accepted samples; they never overlap;
      and none touches an instant that a recorded gap skipped. */
  lemma PacketsOfRun(d: Dec.Design, rate: real, datagrams: seq<seq<byte>>)
    requires Dec.ValidDesign(d)
    ensures var s := RunStream(d, rate, datagrams);
      var ps := Packetise(s.line, 0);
      && Tiles(s.line, 0, ps)
      && Flattened(ps) == Dec.Run(d, Dec.FreshState(d), s.input).1
      && forall k, i :: 0 <= k < |s.gaps| && s.gaps[k].atOutput - SkipFor(d, s.gaps[k].missing) <= i < s.gaps[k].atOutput
           ==> !Covered(ps, i)
  {
    hide RunStream;
    hide Dec.Run;
    hide Dec.FreshState;
    hide SkipFor;
    hide Covered;
    hide Packetise;
    var s := RunStream(d, rate, datagrams);
    RunsAreKept(d, rate, datagrams);
    PacketsTile(s.line, 0);
    forall k, i | 0 <= k < |s.gaps| && s.gaps[k].atOutput - SkipFor(d, s.gaps[k].missing) <= i < s.gaps[k].atOutput
      ensures !Covered(Packetise(s.line, 0), i)
    {
      assert Placed(d, s.line, s.gaps[k]);
      assert s.line[i - 0].Hole?;
    }
  }

  // ---------- splitting ----------

  ghost function WellFormed(datagrams: seq<seq<byte>>): seq<seq<byte>> {
    if datagrams == [] then []
    else
      var n := |datagrams| - 1;
      WellFormed(datagrams[..n]) + (if Parse(datagrams[n]).Ok? then [datagrams[n]] else [])
  }

  /** Malformed datagrams change the malformed count and nothing else. */
  lemma {:induction false} MalformedOnlyCount(d: Dec.Design, rate: real, datagrams: seq<seq<byte>>)
    requires Dec.ValidDesign(d)
    ensures var s := RunStream(d, rate, datagrams);
      && s.malformed == |datagrams| - |WellFormed(datagrams)|
      && s.(malformed := 0) == RunStream(d, rate, WellFormed(datagrams))
  {
    hide Parse;
    hide AfterGap;
    hide AfterSamples;
    if datagrams != [] {
      var n := |datagrams| - 1;
      var pre := WellFormed(datagrams[..n]);
      MalformedOnlyCount(d, rate, datagrams[..n]);
      if Parse(datagrams[n]).Ok? {
        var before := RunStream(d, rate, datagrams[..n]);
        assert (pre + [datagrams[n]])[..|pre|] == pre;
        CountApart(d, before, SpanOf(datagrams[n], rate), SamplesOf(datagrams[n]));
      } else {
        assert pre + [] == pre;
      }
    }
  }

  lemma CountApart(d: Dec.Design, s: Stream, span: Gaps.Span, samples: seq<I16>)
    requires Dec.ValidDesign(d) && Dec.ValidState(d, s.chan)
    ensures AfterGap(d, s, span).chan == s.chan
    ensures var r := AfterSamples(d, AfterGap(d, s, span), samples);
      && r.malformed == s.malformed
      && r.(malformed := 0) == AfterSamples(d, AfterGap(d, s.(malformed := 0), span), samples)
  {
    hide Dec.Run;
    hide Dec.ValidState;
  }

  lemma {:induction false} AllSamplesSnoc(slices: seq<seq<byte>>, last: seq<byte>)
    ensures AllSamples(slices + [last]) == AllSamples(slices) + SamplesOf(last)
  {
    hide SamplesOf;
    if slices == [] {
      assert [last][1..] == [];
      assert slices + [last] == [last];
      assert SamplesOf(last) + [] == [] + SamplesOf(last);
    } else {
      AllSamplesSnoc(slices[1..], last);
      assert (slices + [last])[1..] == slices[1..] + [last] && (slices + [last])[0] == slices[0];
      assert SamplesOf(slices[0]) + (AllSamples(slices[1..]) + SamplesOf(last))
          == (SamplesOf(slices[0]) + AllSamples(slices[1..])) + SamplesOf(last);
    }
  }

  lemma FedInput(d: Dec.Design, rate: real, s: Stream, slice: seq<byte>)
    requires Dec.ValidDesign(d) && Dec.ValidState(d, s.chan)
    ensures Fed(d, rate, s, slice).input == s.input + Sc16ToIq(SamplesOf(slice))
    ensures |SamplesOf(slice)| % 2 == 0
  {
    hide Parse;
    hide SpanOf;
    hide Dec.Run;
    hide Dec.ValidState;
    if Parse(slice).Ok? {
      PacketPairs(slice, rate);
    } else {
      assert Sc16ToIq([]) == [] && s.input + [] == s.input;
    }
  }

  /** What the chain has seen is the payload of every datagram that parses. */
  lemma {:induction false} InputIsPayload(d: Dec.Design, rate: real, datagrams: seq<seq<byte>>)
    requires Dec.ValidDesign(d)
    ensures |AllSamples(datagrams)| % 2 == 0
    ensures RunStream(d, rate, datagrams).input == Sc16ToIq(AllSamples(datagrams))
  {
    hide Fed;
    hide SamplesOf;
    if datagrams == [] {
      assert Sc16ToIq([]) == [];
    } else {
      var n := |datagrams| - 1;
      var pre := datagrams[..n];
      InputIsPayload(d, rate, pre);
      AllSamplesSnoc(pre, datagrams[n]);
      assert pre + [datagrams[n]] == datagrams;
      FedInput(d, rate, RunStream(d, rate, pre), datagrams[n]);
      Sc16ToIqAppend(AllSamples(pre), SamplesOf(datagrams[n]));
    }
  }

  /** A run whose accepted packets follow on from one another has no hole: its
      timeline is the chain's output for the whole input, uncut. */
  lemma ContiguousTimeline(d: Dec.Design, rate: real, datagrams: seq<seq<byte>>)
    requires Dec.ValidDesign(d)
    requires Gaps.BackToBack(RunStream(d, rate, datagrams).spans)
    ensures var s := RunStream(d, rate, datagrams);
      && s.gaps == [] && s.gap.gaps == 0 && s.gap.resets == 0
      && s.line == Slots(Dec.Run(d, Dec.FreshState(d), Sc16ToIq(AllSamples(datagrams))).1)
  {
    hide RunStream;
    hide Dec.Run;
    hide Dec.FreshState;
    var s := RunStream(d, rate, datagrams);
    RunsAreKept(d, rate, datagrams);
    InputIsPayload(d, rate, datagrams);
    if s.spans != [] { Gaps.ContiguousExactly(s.spans); }
    FullLine(s.line);
  }

  /** A timeline with as many samples as slots is nothing but samples. */
  lemma {:induction false} FullLine(line: seq<Slot>)
    ensures |Values(line)| == |line| ==> line == Slots(Values(line))
  {
    if line != [] {
      var n := |line| - 1;
      FullLine(line[..n]);
      if |Values(line)| == |line| {
        assert line[n].Sample?;
        assert line == line[..n] + [line[n]];
      }
    }
  }

  /** Datagram-split invariance: cut a contiguous sample stream into datagrams in
      any two ways, starting at any counters, with any malformed datagrams in
      between, and the timeline - hence every packet cut from it - is the same. */
  lemma SplitInvariance(d: Dec.Design, rate: real, one: seq<seq<byte>>, other: seq<seq<byte>>)
    requires Dec.ValidDesign(d)
    requires Gaps.BackToBack(RunStream(d, rate, one).spans) && Gaps.BackToBack(RunStream(d, rate, other).spans)
    requires AllSamples(one) == AllSamples(other)
    ensures RunStream(d, rate, one).line == RunStream(d, rate, other).line
    ensures Packetise(RunStream(d, rate, one).line, 0) == Packetise(RunStream(d, rate, other).line, 0)
  {
    hide RunStream;
    ContiguousTimeline(d, rate, one);
    ContiguousTimeline(d, rate, other);
  }

  // ---------- cutting one datagram ----------

  /** Two streams that differ at most in how their input was cut up. */
  ghost predicate SameButSpans(s: Stream, t: Stream) {
    s.(spans := t.spans) == t
  }

  /** y and z carry what x does: x's samples in two parts, y from x's counter on
      and z from where y ends. */
  ghost predicate CutInTwo(x: seq<byte>, y: seq<byte>, z: seq<byte>, rate: real) {
    && Parse(x).Ok? && Parse(y).Ok? && Parse(z).Ok?
    && SamplesOf(x) == SamplesOf(y) + SamplesOf(z)
    && SpanOf(y, rate).counter == SpanOf(x, rate).counter
    && SpanOf(z, rate).counter == Gaps.End(SpanOf(y, rate))
  }

  lemma FedSame(d: Dec.Design, rate: real, s: Stream, t: Stream, datagram: seq<byte>)
    requires Dec.ValidDesign(d) && Dec.ValidState(d, s.chan) && SameButSpans(s, t)
    ensures SameButSpans(Fed(d, rate, s, datagram), Fed(d, rate, t, datagram))
  {
    hide Parse;
    hide SpanOf;
    hide SamplesOf;
    hide Dec.Run;
    hide Dec.ValidState;
    hide SkipFor;
    hide Gaps.Observed;
  }

  lemma {:induction false} RunOnSame(d: Dec.Design, rate: real, one: seq<seq<byte>>, other: seq<seq<byte>>, rest: seq<seq<byte>>)
    requires Dec.ValidDesign(d) && SameButSpans(RunStream(d, rate, one), RunStream(d, rate, other))
    ensures SameButSpans(RunStream(d, rate, one + rest), RunStream(d, rate, other + rest))
  {
    hide Fed;
    hide SameButSpans;
    hide RunStream;
    if rest == [] {
      assert one + rest == one && other + rest == other;
    } else {
      var n := |rest| - 1;
      RunOnSame(d, rate, one, other, rest[..n]);
      RunStreamSnoc(d, rate, one + rest[..n], rest[n]);
      RunStreamSnoc(d, rate, other + rest[..n], rest[n]);
      assert (one + rest[..n]) + [rest[n]] == one + rest && (other + rest[..n]) + [rest[n]] == other + rest;
      FedSame(d, rate, RunStream(d, rate, one + rest[..n]), RunStream(d, rate, other + rest[..n]), rest[n]);
    }
  }

  lemma RunStreamSnoc(d: Dec.Design, rate: real, datagrams: seq<seq<byte>>, last: seq<byte>)
    requires Dec.ValidDesign(d)
    ensures RunStream(d, rate, datagrams + [last]) == Fed(d, rate, RunStream(d, rate, datagrams), last)
  {
    hide Fed;
    assert (datagrams + [last])[..|datagrams|] == datagrams;
  }

  /** The tracker: y reveals the loss x would have, z reveals none. */
  lemma CutTracked(g: Gaps.Tracking, counter: nat, a: nat, b: nat)
    ensures var whole := Gaps.Observed(g, counter, a + b);
      var first := Gaps.Observed(g, counter, a);
      && first.1 == whole.1
      && Gaps.Observed(first.0, Gaps.SaturatingAdd(counter, a), b) == (whole.0, None)
  {
  }

  lemma CutGap(d: Dec.Design, s: Stream, x: Gaps.Span, y: Gaps.Span)
    requires Dec.ValidDesign(d) && x.counter == y.counter && y.samples <= x.samples
    ensures var whole := AfterGap(d, s, x);
      SameButSpans(AfterGap(d, s, y).(gap := whole.gap), whole)
  {
    hide SkipFor;
    CutTracked(s.gap, x.counter, y.samples, x.samples - y.samples);
  }

  lemma NoGap(d: Dec.Design, s: Stream, z: Gaps.Span)
    requires Dec.ValidDesign(d) && Gaps.Observed(s.gap, z.counter, z.samples).1.None?
    ensures AfterGap(d, s, z) == s.(gap := Gaps.Observed(s.gap, z.counter, z.samples).0, spans := s.spans + [z])
  {
    assert s.line + Holes(0) == s.line && s.gaps + [] == s.gaps;
  }

  lemma CutSamples(d: Dec.Design, s: Stream, a: seq<I16>, b: seq<I16>)
    requires Dec.ValidDesign(d) && Dec.ValidState(d, s.chan) && |a| % 2 == 0
    ensures AfterSamples(d, AfterSamples(d, s, a), b) == AfterSamples(d, s, a + b)
  {
    hide Dec.Run;
    hide Dec.ValidState;
    hide Sc16ToIq;
    Sc16ToIqAppend(a, b);
    var x, y := Sc16ToIq(a), Sc16ToIq(b);
    Dec.RunAppend(d, s.chan, x, y);
    var first := Dec.Run(d, s.chan, x);
    var second := Dec.Run(d, first.0, y);
    assert Slots(first.1 + second.1) == Slots(first.1) + Slots(second.1);
    assert (s.line + Slots(first.1)) + Slots(second.1) == s.line + (Slots(first.1) + Slots(second.1));
    assert (s.input + x) + y == s.input + (x + y);
  }

  lemma CutStep(d: Dec.Design, rate: real, s: Stream, x: seq<byte>, y: seq<byte>, z: seq<byte>)
    requires Dec.ValidDesign(d) && Dec.ValidState(d, s.chan) && CutInTwo(x, y, z, rate)
    ensures SameButSpans(Fed(d, rate, Fed(d, rate, s, y), z), Fed(d, rate, s, x))
  {
    hide *;
    CutCounts(x, y, z, rate);
    var sx, sy, sz := SpanOf(x, rate), SpanOf(y, rate), SpanOf(z, rate);
    var a, b := SamplesOf(y), SamplesOf(z);
    var whole, part := AfterGap(d, s, sx), AfterGap(d, s, sy);
    CutGap(d, s, sx, sy);
    CutTracked(s.gap, sx.counter, sy.samples, sz.samples);
    GapKeepsChain(d, s, sx);
    GapKeepsChain(d, s, sy);
    FedIs(d, rate, s, y);
    FedIs(d, rate, s, x);
    var fed := AfterSamples(d, part, a);
    SamplesKeepGap(d, part, a);
    GapIs(d, s, sx);
    GapIs(d, s, sy);
    FedIs(d, rate, fed, z);
    NoGap(d, fed, sz);
    ApartFromGap(d, part, fed, a, whole, fed.spans + [sz], b);
  }

  lemma FedIs(d: Dec.Design, rate: real, s: Stream, slice: seq<byte>)
    requires Dec.ValidDesign(d) && Dec.ValidState(d, s.chan) && Parse(slice).Ok?
    ensures AfterGap(d, s, SpanOf(slice, rate)).chan == s.chan
    ensures Fed(d, rate, s, slice) == AfterSamples(d, AfterGap(d, s, SpanOf(slice, rate)), SamplesOf(slice))
  {
    hide Parse;
    hide SpanOf;
    hide SamplesOf;
  }

  lemma CutCounts(x: seq<byte>, y: seq<byte>, z: seq<byte>, rate: real)
    requires CutInTwo(x, y, z, rate)
    ensures Parse(x).Ok? && Parse(y).Ok? && Parse(z).Ok?
    ensures SamplesOf(x) == SamplesOf(y) + SamplesOf(z) && |SamplesOf(y)| % 2 == 0
    ensures SpanOf(y, rate).counter == SpanOf(x, rate).counter
    ensures SpanOf(x, rate).samples == SpanOf(y, rate).samples + SpanOf(z, rate).samples
    ensures SpanOf(z, rate).counter == Gaps.SaturatingAdd(SpanOf(y, rate).counter, SpanOf(y, rate).samples)
  {
    hide Parse;
    hide SpanOf;
    hide SamplesOf;
    PacketPairs(x, rate);
    PacketPairs(y, rate);
    PacketPairs(z, rate);
  }

  lemma SamplesKeepGap(d: Dec.Design, s: Stream, interleaved: seq<I16>)
    requires Dec.ValidDesign(d) && Dec.ValidState(d, s.chan)
    ensures AfterSamples(d, s, interleaved).gap == s.gap && AfterSamples(d, s, interleaved).spans == s.spans
  {
  }

  lemma GapIs(d: Dec.Design, s: Stream, span: Gaps.Span)
    requires Dec.ValidDesign(d)
    ensures AfterGap(d, s, span).gap == Gaps.Observed(s.gap, span.counter, span.samples).0
  {
  }

  /** Samples a then b, the tracker moved in between, are a + b after the move. */
  lemma ApartFromGap(d: Dec.Design, part: Stream, fed: Stream, a: seq<I16>, whole: Stream, spans: seq<Gaps.Span>, b: seq<I16>)
    requires Dec.ValidDesign(d) && Dec.ValidState(d, part.chan) && |a| % 2 == 0
    requires fed == AfterSamples(d, part, a) && SameButSpans(part.(gap := whole.gap), whole)
    ensures SameButSpans(AfterSamples(d, fed.(gap := whole.gap, spans := spans), b), AfterSamples(d, whole, a + b))
  {
    hide Dec.Run;
    hide Dec.ValidState;
    CutSamples(d, part, a, b);
  }

  /** In any run - gaps, resets and malformed datagrams included - a datagram may
      be cut in two at any pair: the timeline, the recorded gaps, the tracker and
      the chain come out the same, and so do the packets. */
  lemma CutAnywhere(d: Dec.Design, rate: real, pre: seq<seq<byte>>, x: seq<byte>, y: seq<byte>, z: seq<byte>,
                    post: seq<seq<byte>>)
    requires Dec.ValidDesign(d) && CutInTwo(x, y, z, rate)
    ensures var whole, cut := RunStream(d, rate, pre + [x] + post), RunStream(d, rate, pre + [y] + [z] + post);
      && SameButSpans(cut, whole)
      && cut.line == whole.line && cut.gaps == whole.gaps && cut.gap == whole.gap && cut.chan == whole.chan
      && Packetise(cut.line, 0) == Packetise(whole.line, 0)
  {
    hide CutInTwo;
    hide Fed;
    RunStreamSnoc(d, rate, pre, x);
    RunStreamSnoc(d, rate, pre, y);
    RunStreamSnoc(d, rate, pre + [y], z);
    CutStep(d, rate, RunStream(d, rate, pre), x, y, z);
    RunOnSame(d, rate, pre + [y] + [z], pre + [x], post);
  }

  /** Any packet of an integer-rate stream can be so cut, at every pair. */
  lemma PacketsCut(chunk: seq<I16>, k: nat, n: nat, r: nat)
    requires |chunk| % 2 == 0 && |chunk| / 2 <= MAX_SAMPLES && 2 * k <= |chunk| && Fits(n, |chunk| / 2 + 1, r)
    ensures var rate := r as real;
      CutInTwo(PacketBytes(chunk, n as real / rate, rate), PacketBytes(chunk[..2 * k], n as real / rate, rate),
               PacketBytes(chunk[2 * k..], (n + k) as real / rate, rate), rate)
  {
    hide *;
    FitsCut(n, k, |chunk| / 2, r);
    WholeReads(chunk, n, r);
    WholeReads(chunk[..2 * k], n, r);
    WholeReads(chunk[2 * k..], n + k, r);
    assert chunk == chunk[..2 * k] + chunk[2 * k..];
    var rate := r as real;
    CutFrom(PacketBytes(chunk, n as real / rate, rate), PacketBytes(chunk[..2 * k], n as real / rate, rate),
            PacketBytes(chunk[2 * k..], (n + k) as real / rate, rate), rate, chunk, k, n);
  }

  lemma FitsCut(n: nat, k: nat, pairs: nat, r: nat)
    requires Fits(n, pairs + 1, r) && k <= pairs
    ensures r >= 1 && Fits(n, 1, r) && Fits(n + k, 1, r) && n + k <= U64_MAX
  {
  }

  /** A packet stamped with a whole sample number reads back as itself. */
  lemma WholeReads(chunk: seq<I16>, n: nat, r: nat)
    requires |chunk| % 2 == 0 && |chunk| / 2 <= MAX_SAMPLES && Fits(n, 1, r)
    ensures var bytes := PacketBytes(chunk, n as real / r as real, r as real);
      ReadsAs(bytes, chunk, n, r as real) && Framed(bytes)
  {
    hide PacketBytes;
    hide ReadsAs;
    hide Framed;
    ChunkReads(chunk, n, 0, r);
    assert n as real / r as real + 0.0 / r as real == n as real / r as real;
  }

  lemma CutFrom(x: seq<byte>, y: seq<byte>, z: seq<byte>, rate: real, chunk: seq<I16>, k: nat, n: nat)
    requires 2 * k <= |chunk| && n + k <= U64_MAX
    requires ReadsAs(x, chunk, n, rate) && ReadsAs(y, chunk[..2 * k], n, rate) && ReadsAs(z, chunk[2 * k..], n + k, rate)
    requires chunk == chunk[..2 * k] + chunk[2 * k..]
    ensures CutInTwo(x, y, z, rate)
  {
    hide Parse;
    hide SpanOf;
    hide SamplesOf;
  }

  // ---------- the service on its own streams ----------

  lemma FedSpans(d: Dec.Design, rate: real, s: Stream, slice: seq<byte>)
    requires Dec.ValidDesign(d) && Dec.ValidState(d, s.chan) && Parse(slice).Ok?
    ensures Fed(d, rate, s, slice).spans == s.spans + [SpanOf(slice, rate)]
    ensures Fed(d, rate, s, slice).malformed == s.malformed
  {
    hide Parse;
    hide SpanOf;
    hide Dec.Run;
    hide Dec.ValidState;
  }

  lemma {:induction false} SpansOfParsed(d: Dec.Design, rate: real, slices: seq<seq<byte>>)
    requires Dec.ValidDesign(d) && AllParse(slices)
    ensures RunStream(d, rate, slices).spans == Spans(slices, rate)
    ensures RunStream(d, rate, slices).malformed == 0
  {
    hide Parse;
    hide SpanOf;
    hide Fed;
    if slices != [] {
      var n := |slices| - 1;
      SpansOfParsed(d, rate, slices[..n]);
      FedSpans(d, rate, RunStream(d, rate, slices[..n]), slices[n]);
      assert slices[..n] + [slices[n]] == slices;
    }
  }

  /** From samples to timeline through the whole system: frame any samples with
      1 to 65531 a packet from any start, walk the bytes, feed each slice. The
      timeline is the chain's output for exactly those samples, so it does not
      depend on how they were framed; nothing is malformed or missing. */
  lemma FramedStreamChannelizes(d: Dec.Design, iq: seq<Iq>, r: nat, spp: nat, s0: nat)
    requires Dec.ValidDesign(d) && 1 <= spp <= MAX_SAMPLES && Fits(s0, |iq|, r)
    ensures var slices := Walk(Joined(StreamPackets(IqToSc16(iq), r as real, spp, s0 as real / r as real, 0))).slices;
      var s := RunStream(d, r as real, slices);
      && s.malformed == 0 && s.gap.gaps == 0 && s.gap.resets == 0
      && s.line == Slots(Dec.Run(d, Dec.FreshState(d), Sc16ToIq(IqToSc16(iq))).1)
  {
    hide *;
    FitsRate(s0, |iq|, r);
    var rate := r as real;
    var slices := Walk(Joined(StreamPackets(IqToSc16(iq), rate, spp, s0 as real / rate, 0))).slices;
    StreamEndToEnd(iq, r, spp, s0);
    StreamSpans(iq, r, spp, s0);
    SpansOfParsed(d, rate, slices);
    ContiguousTimeline(d, rate, slices);
  }

  /** The counters of a framed stream follow on from one another. */
  lemma StreamSpans(iq: seq<Iq>, r: nat, spp: nat, s0: nat)
    requires 1 <= spp <= MAX_SAMPLES && Fits(s0, |iq|, r)
    ensures var slices := Walk(Joined(StreamPackets(IqToSc16(iq), r as real, spp, s0 as real / r as real, 0))).slices;
      Gaps.BackToBack(Spans(slices, r as real))
  {
    hide *;
    FitsRate(s0, |iq|, r);
    var samples := IqToSc16(iq);
    var rate := r as real;
    var ps := StreamPackets(samples, rate, spp, s0 as real / rate, 0);
    StreamCarries(samples, r, spp, s0, 0, 0, rate, s0 as real / rate);
    CarriedSamples(ps, samples, s0, spp, rate);
    AllFramed(ps);
    WalkOfPackets(ps);
    CarriedSpans(ps, samples, s0, spp, rate);
  }
}
