/** What the next hop makes of the packets the service sends, and of whichever of
    them reach it. */
module Downstream {
  import opened Numerics
  import opened Samples
  import opened Bytes
  import opened Vita49
  import opened Timeline
  import opened Vectors
  import opened Pipeline
  import opened Service
  import Gaps
  import Dec = Decimator

  /** Sends framed as the forwarder frames them, each at the rate it was sent. */
  ghost function Forwarded(sends: seq<SentPacket>): (slices: seq<seq<byte>>)
    ensures |slices| == |sends|
    ensures forall k :: 0 <= k < |sends| ==> slices[k] == PacketBytes(sends[k].interleaved, sends[k].ts, sends[k].rate)
  {
    seq(|sends|, k requires 0 <= k < |sends| => PacketBytes(sends[k].interleaved, sends[k].ts, sends[k].rate))
  }

  /** The spans of output time the packets occupy. */
  ghost function Occupied(ps: seq<OutPacket>): (spans: seq<Gaps.Span>)
    ensures |spans| == |ps|
    ensures forall k :: 0 <= k < |ps| ==> spans[k] == Gaps.Span(ps[k].first, |ps[k].samples|)
  {
    seq(|ps|, k requires 0 <= k < |ps| => Gaps.Span(ps[k].first, |ps[k].samples|))
  }

  /** Packets as the service sends them: none empty or too large, in order, and
      numbered within the header's fields at r samples a second. */
  ghost predicate Sendable(ps: seq<OutPacket>, r: nat) {
    && InOrder(ps)
    && forall k :: 0 <= k < |ps| ==> 1 <= |ps[k].samples| <= OUTPUT_PACKET_SAMPLES && Fits(0, PacketEnd(ps[k]), r)
  }

  // ---------- reading the packets back ----------

  lemma PacketReads(p: OutPacket, r: nat)
    requires 1 <= |p.samples| <= OUTPUT_PACKET_SAMPLES && Fits(0, PacketEnd(p), r)
    ensures var bytes := PacketBytes(Rendered(p, r as real).interleaved, Rendered(p, r as real).ts, Rendered(p, r as real).rate);
      ReadsAs(bytes, IqToSc16(p.samples), p.first, r as real) && Framed(bytes)
  {
    hide ReadsAs;
    hide Framed;
    hide PacketBytes;
    WholeReads(IqToSc16(p.samples), p.first, r);
  }

  ghost function SentSamples(ps: seq<OutPacket>): seq<I16> {
    if ps == [] then [] else IqToSc16(ps[0].samples) + SentSamples(ps[1..])
  }

  lemma {:induction false} SentIsQuantised(ps: seq<OutPacket>)
    ensures SentSamples(ps) == IqToSc16(Flattened(ps))
  {
    if ps != [] {
      SentIsQuantised(ps[1..]);
      QuantisedAppend(ps[0].samples, Flattened(ps[1..]));
    }
  }

  lemma QuantisedAppend(a: seq<Iq>, b: seq<Iq>)
    ensures IqToSc16(a + b) == IqToSc16(a) + IqToSc16(b)
  {
    hide Quantise;
    forall k | 0 <= k < 2 * |a + b|
      ensures IqToSc16(a + b)[k] == (IqToSc16(a) + IqToSc16(b))[k]
    {
      if k >= 2 * |a| { assert (k - 2 * |a|) % 2 == k % 2 && (k - 2 * |a|) / 2 == k / 2 - |a|; }
    }
  }

  lemma {:induction false} ReadingEach(slices: seq<seq<byte>>, ps: seq<OutPacket>, rate: real)
    requires |slices| == |ps|
    requires forall k :: 0 <= k < |ps| ==> ReadsAs(slices[k], IqToSc16(ps[k].samples), ps[k].first, rate)
    ensures AllParse(slices) && AllSamples(slices) == SentSamples(ps)
  {
    hide IqToSc16;
    hide Parse;
    hide SpanOf;
    hide SamplesOf;
    if ps != [] {
      assert ReadsAs(slices[0], IqToSc16(ps[0].samples), ps[0].first, rate);
      ReadingEach(slices[1..], ps[1..], rate);
      forall k | 0 <= k < |slices|
        ensures Parse(slices[k]).Ok?
      {
        assert ReadsAs(slices[k], IqToSc16(ps[k].samples), ps[k].first, rate);
      }
    }
  }

  /** The packets survive as they are: concatenated and walked, or one datagram
      each, every one parses, its counter reads back as its first index, and the
      payloads joined are the quantised samples. */
  lemma SendsReadBack(ps: seq<OutPacket>, r: nat)
    requires r >= 1 && Sendable(ps, r)
    ensures var slices := Forwarded(RenderedAll(ps, r as real));
      && AllParse(slices) && AllSamples(slices) == IqToSc16(Flattened(ps))
      && Spans(slices, r as real) == Occupied(ps)
      && Walk(Joined(slices)) == Walked(slices, None, [])
  {
    hide *;
    var rate := r as real;
    var slices := Forwarded(RenderedAll(ps, rate));
    forall k | 0 <= k < |ps|
      ensures ReadsAs(slices[k], IqToSc16(ps[k].samples), ps[k].first, rate) && Framed(slices[k])
    {
      SendableAt(ps, r, k);
      PacketReads(ps[k], r);
    }
    ReadingEach(slices, ps, rate);
    SentIsQuantised(ps);
    SpansRead(slices, ps, rate);
    AllFramed(slices);
    WalkOfPackets(slices);
  }

  lemma SendableAt(ps: seq<OutPacket>, r: nat, k: nat)
    requires Sendable(ps, r) && k < |ps|
    ensures 1 <= |ps[k].samples| <= OUTPUT_PACKET_SAMPLES && Fits(0, PacketEnd(ps[k]), r)
  {
  }

  lemma SpansRead(slices: seq<seq<byte>>, ps: seq<OutPacket>, rate: real)
    requires |slices| == |ps|
    requires forall k :: 0 <= k < |ps| ==> ReadsAs(slices[k], IqToSc16(ps[k].samples), ps[k].first, rate)
    ensures Spans(slices, rate) == Occupied(ps)
  {
    hide Parse;
    hide SpanOf;
    hide SamplesOf;
    hide IqToSc16;
    forall k | 0 <= k < |ps|
      ensures Spans(slices, rate)[k] == Occupied(ps)[k]
    {
      assert ReadsAs(slices[k], IqToSc16(ps[k].samples), ps[k].first, rate);
    }
  }

  // ---------- what the next hop's tracker counts ----------

  /** How many instants from lo up to hi no packet covers. */
  ghost function Uncovered(ps: seq<OutPacket>, lo: int, hi: int): nat
    decreases hi - lo
  {
    if hi <= lo then 0 else Uncovered(ps, lo, hi - 1) + (if Covered(ps, hi - 1) then 0 else 1)
  }

  lemma {:induction false} UncoveredSplit(ps: seq<OutPacket>, lo: int, mid: int, hi: int)
    requires lo <= mid <= hi
    ensures Uncovered(ps, lo, hi) == Uncovered(ps, lo, mid) + Uncovered(ps, mid, hi)
    decreases hi - mid
  {
    if mid < hi { UncoveredSplit(ps, lo, mid, hi - 1); }
  }

  lemma {:induction false} UncoveredSame(ps: seq<OutPacket>, qs: seq<OutPacket>, lo: int, hi: int)
    requires forall i :: lo <= i < hi ==> (Covered(ps, i) <==> Covered(qs, i))
    ensures Uncovered(ps, lo, hi) == Uncovered(qs, lo, hi)
    decreases hi - lo
  {
    hide Covered;
    if lo < hi { UncoveredSame(ps, qs, lo, hi - 1); }
  }

  lemma {:induction false} UncoveredNone(ps: seq<OutPacket>, lo: int, hi: int)
    requires forall i :: lo <= i < hi ==> Covered(ps, i)
    ensures Uncovered(ps, lo, hi) == 0
    decreases hi - lo
  {
    hide Covered;
    if lo < hi { UncoveredNone(ps, lo, hi - 1); }
  }

  lemma {:induction false} UncoveredAll(ps: seq<OutPacket>, lo: int, hi: int)
    requires lo <= hi && forall i :: lo <= i < hi ==> !Covered(ps, i)
    ensures Uncovered(ps, lo, hi) == hi - lo
    decreases hi - lo
  {
    hide Covered;
    if lo < hi { UncoveredAll(ps, lo, hi - 1); }
  }

  lemma {:induction false} EndsBefore(ps: seq<OutPacket>, j: nat, k: nat)
    requires InOrder(ps) && j <= k < |ps|
    ensures PacketEnd(ps[j]) <= PacketEnd(ps[k])
    decreases k - j
  {
    if j < k { EndsBefore(ps, j, k - 1); }
  }

  /** Appending a packet: what was covered before it, the stretch it leaves out,
      and the stretch it covers. */
  lemma LastCovers(ps: seq<OutPacket>, i: int)
    requires |ps| > 1 && InOrder(ps)
    ensures var pre, p := ps[..|ps| - 1], ps[|ps| - 1];
      && (i < p.first ==> (Covered(ps, i) <==> Covered(pre, i)))
      && (PacketEnd(pre[|pre| - 1]) <= i < p.first ==> !Covered(pre, i))
      && (CoveredBy(p, i) ==> Covered(ps, i))
  {
    var pre, n := ps[..|ps| - 1], |ps| - 1;
    if Covered(pre, i) {
      var k :| 0 <= k < |pre| && CoveredBy(pre[k], i);
      assert CoveredBy(ps[k], i);
      EndsBefore(ps, k, n - 1);
    }
    if Covered(ps, i) && i < ps[n].first {
      var k :| 0 <= k < |ps| && CoveredBy(ps[k], i);
      assert k < n && CoveredBy(pre[k], i);
    }
  }

  lemma FirstAt(ps: seq<OutPacket>)
    requires |ps| > 1 && InOrder(ps)
    ensures ps[0].first <= PacketEnd(ps[|ps| - 2]) <= ps[|ps| - 1].first
  {
    EndsBefore(ps, 0, |ps| - 2);
  }

  lemma UncoveredGrows(ps: seq<OutPacket>)
    requires |ps| > 1 && InOrder(ps)
    ensures var pre, p := ps[..|ps| - 1], ps[|ps| - 1];
      Uncovered(ps, ps[0].first, PacketEnd(p))
        == Uncovered(pre, ps[0].first, PacketEnd(pre[|pre| - 1])) + (p.first - PacketEnd(pre[|pre| - 1]))
  {
    hide Covered;
    hide Uncovered;
    var pre, p := ps[..|ps| - 1], ps[|ps| - 1];
    var lo, mid, hi := ps[0].first, PacketEnd(pre[|pre| - 1]), PacketEnd(p);
    FirstAt(ps);
    forall i: int
      ensures i < p.first ==> (Covered(ps, i) <==> Covered(pre, i))
      ensures mid <= i < p.first ==> !Covered(pre, i)
      ensures CoveredBy(p, i) ==> Covered(ps, i)
    {
      LastCovers(ps, i);
    }
    UncoveredSplit(ps, lo, mid, hi);
    UncoveredSplit(ps, mid, p.first, hi);
    UncoveredSame(ps, pre, lo, mid);
    UncoveredAll(ps, mid, p.first);
    assert forall i :: p.first <= i < hi ==> CoveredBy(p, i);
    UncoveredNone(ps, p.first, hi);
  }

  lemma {:induction false} LostIsUncovered(ps: seq<OutPacket>)
    requires InOrder(ps) && ps != [] && WithinWord(ps)
    ensures Gaps.Lost(Occupied(ps)) == Uncovered(ps, ps[0].first, PacketEnd(ps[|ps| - 1]))
  {
    hide *;
    var n := |ps| - 1;
    if n == 0 {
      OnlyCovers(ps);
    } else {
      OrderedPrefix(ps);
      LostIsUncovered(ps[..n]);
      UncoveredGrows(ps);
      LostGrows(ps);
    }
  }

  ghost predicate WithinWord(ps: seq<OutPacket>) {
    forall k :: 0 <= k < |ps| ==> PacketEnd(ps[k]) <= U64_MAX
  }

  lemma OrderedPrefix(ps: seq<OutPacket>)
    requires InOrder(ps) && WithinWord(ps) && |ps| > 1
    ensures InOrder(ps[..|ps| - 1]) && WithinWord(ps[..|ps| - 1])
  {
  }

  lemma LostGrows(ps: seq<OutPacket>)
    requires InOrder(ps) && WithinWord(ps) && |ps| > 1
    ensures Gaps.Lost(Occupied(ps))
         == Gaps.Lost(Occupied(ps[..|ps| - 1])) + (ps[|ps| - 1].first - PacketEnd(ps[|ps| - 2]))
  {
    hide *;
    OccupiedPrefix(ps);
    Gaps.LostStep(Occupied(ps));
    SkippedIs(ps);
  }

  lemma OccupiedPrefix(ps: seq<OutPacket>)
    requires ps != []
    ensures Occupied(ps)[..|ps| - 1] == Occupied(ps[..|ps| - 1])
  {
  }

  lemma SkippedIs(ps: seq<OutPacket>)
    requires InOrder(ps) && WithinWord(ps) && |ps| > 1
    ensures Gaps.Skipped(Occupied(ps), |ps| - 1) == ps[|ps| - 1].first - PacketEnd(ps[|ps| - 2])
  {
    var n := |ps| - 1;
    assert ps[n - 1].first + |ps[n - 1].samples| <= U64_MAX && PacketEnd(ps[n - 1]) <= ps[n].first;
  }

  lemma OnlyCovers(ps: seq<OutPacket>)
    requires |ps| == 1
    ensures Gaps.Lost(Occupied(ps)) == 0 == Uncovered(ps, ps[0].first, PacketEnd(ps[0]))
  {
    hide Uncovered;
    assert forall i :: CoveredBy(ps[0], i) ==> Covered(ps, i);
    assert forall i :: ps[0].first <= i < PacketEnd(ps[0]) ==> CoveredBy(ps[0], i);
    UncoveredNone(ps, ps[0].first, PacketEnd(ps[0]));
  }

  lemma NoneStepBack(ps: seq<OutPacket>)
    requires InOrder(ps) && WithinWord(ps)
    ensures Gaps.ResetAt(Occupied(ps)) == {}
  {
  }

  /** The next hop's tracker over any packets that come in order: no resets, and
      as many samples lost as instants that none of them covers, from the first
      packet to the last. */
  lemma {:induction false} TrackerCounts(ps: seq<OutPacket>)
    requires InOrder(ps) && ps != [] && WithinWord(ps)
    ensures var g := Gaps.RunSpans(Occupied(ps));
      && g.resets == 0 && g.gapSamples == Uncovered(ps, ps[0].first, PacketEnd(ps[|ps| - 1]))
      && g.gaps == |Gaps.GapAt(Occupied(ps))|
  {
    hide *;
    NoneStepBack(ps);
    LostIsUncovered(ps);
    Gaps.CountersMean(Occupied(ps));
  }

  // ---------- the whole run ----------

  ghost function HolesWithin(line: seq<Slot>, lo: nat, hi: nat): nat
    requires hi <= |line|
    decreases hi
  {
    if hi <= lo then 0 else HolesWithin(line, lo, hi - 1) + (if line[hi - 1].Hole? then 1 else 0)
  }

  lemma {:induction false} UncoveredIsHoles(line: seq<Slot>, ps: seq<OutPacket>, lo: nat, hi: nat)
    requires hi <= |line| && CoverExactly(line, 0, ps)
    ensures Uncovered(ps, lo, hi) == HolesWithin(line, lo, hi)
  {
    hide Covered;
    if lo < hi {
      UncoveredIsHoles(line, ps, lo, hi - 1);
      assert line[hi - 1 - 0] == line[hi - 1];
    }
  }

  lemma TilesAreSendable(line: seq<Slot>, ps: seq<OutPacket>, r: nat)
    requires Tiles(line, 0, ps) && Fits(0, |line|, r)
    ensures Sendable(ps, r) && WithinWord(ps)
    ensures forall k :: 0 <= k < |ps| ==> PacketEnd(ps[k]) <= |line|
  {
    hide CoverExactly;
    hide Flattened;
    hide Values;
  }

  /** The service's promise to the next hop. For any run, at an integer output
      rate, its packets read back sample for sample; the counters step forward
      only; the samples the next hop finds missing are exactly the holes in the
      output timeline between the first packet and the last; and it finds no more
      gaps than the service recorded. */
  lemma NextHop(d: Dec.Design, rate: real, datagrams: seq<seq<byte>>, r: nat)
    requires Dec.ValidDesign(d)
    requires Fits(0, |RunStream(d, rate, datagrams).line|, r)
    requires Packetise(RunStream(d, rate, datagrams).line, 0) != []
    ensures var s := RunStream(d, rate, datagrams);
      var ps := Packetise(s.line, 0);
      var slices := Forwarded(RenderedAll(ps, r as real));
      var g := Gaps.RunSpans(Spans(slices, r as real));
      && Walk(Joined(slices)) == Walked(slices, None, []) && AllParse(slices)
      && AllSamples(slices) == IqToSc16(Dec.Run(d, Dec.FreshState(d), s.input).1)
      && PacketEnd(ps[|ps| - 1]) <= |s.line|
      && g.resets == 0 && g.gaps <= |s.gaps|
      && g.gapSamples == HolesWithin(s.line, ps[0].first, PacketEnd(ps[|ps| - 1]))
  {
    hide *;
    FitsRate(0, |RunStream(d, rate, datagrams).line|, r);
    var s := RunStream(d, rate, datagrams);
    var ps := Packetise(s.line, 0);
    PacketsTile(s.line, 0);
    TilesParts(s.line, 0, ps);
    TilesAreSendable(s.line, ps, r);
    SendsReadBack(ps, r);
    SendableInOrder(ps, r);
    TrackerCounts(ps);
    UncoveredIsHoles(s.line, ps, ps[0].first, PacketEnd(ps[|ps| - 1]));
    PacketsOfRun(d, rate, datagrams);
    BreaksAreRecorded(d, rate, datagrams);
  }

  lemma SendableInOrder(ps: seq<OutPacket>, r: nat)
    requires Sendable(ps, r)
    ensures InOrder(ps)
  {
  }

  // ---------- no more gaps than were recorded ----------

  /** Where the timeline's holes begin. */
  ghost function HoleStarts(line: seq<Slot>): set<nat> {
    set i: nat | i < |line| && line[i].Hole? && (i == 0 || line[i - 1].Sample?)
  }

  lemma HolesStartOnce(line: seq<Slot>, n: nat)
    ensures |HoleStarts(line + Holes(n))| <= |HoleStarts(line)| + (if n > 0 then 1 else 0)
  {
    var more := line + Holes(n);
    forall i: nat | |line| < i < |more|
      ensures i !in HoleStarts(more)
    {
      assert more[i - 1] == Holes(n)[i - 1 - |line|];
    }
    forall i | i in HoleStarts(more)
      ensures i in HoleStarts(line) || (i == |line| && n > 0)
    {
      if i < |line| {
        assert more[i] == line[i] && (i > 0 ==> more[i - 1] == line[i - 1]);
      }
    }
    if n > 0 {
      SubsetSize(HoleStarts(more), HoleStarts(line) + {|line|});
    } else {
      SubsetSize(HoleStarts(more), HoleStarts(line));
    }
  }

  lemma SamplesStartNone(line: seq<Slot>, ys: seq<Iq>)
    ensures HoleStarts(line + Slots(ys)) == HoleStarts(line)
  {
    var more := line + Slots(ys);
    forall i: nat
      ensures i in HoleStarts(more) <==> i in HoleStarts(line)
    {
      if i < |line| {
        assert more[i] == line[i] && (i > 0 ==> more[i - 1] == line[i - 1]);
      }
    }
  }

  lemma {:induction false} SubsetSize(a: set<nat>, b: set<nat>)
    requires a <= b
    ensures |a| <= |b|
    decreases a
  {
    if a != {} {
      var x :| x in a;
      SubsetSize(a - {x}, b - {x});
    }
  }

  lemma FedStarts(d: Dec.Design, rate: real, s: Stream, datagram: seq<byte>)
    requires Dec.ValidDesign(d) && Dec.ValidState(d, s.chan) && |HoleStarts(s.line)| <= |s.gaps|
    ensures var r := Fed(d, rate, s, datagram); |HoleStarts(r.line)| <= |r.gaps|
  {
    hide HoleStarts;
    hide Dec.Run;
    hide Dec.ValidState;
    hide SkipFor;
    hide Parse;
    if Parse(datagram).Ok? {
      var span := SpanOf(datagram, rate);
      var n := Skip(d, Gaps.Observed(s.gap, span.counter, span.samples).1);
      var gap := AfterGap(d, s, span);
      HolesStartOnce(s.line, n);
      SamplesStartNone(gap.line, Dec.Run(d, gap.chan, Sc16ToIq(SamplesOf(datagram))).1);
    }
  }

  lemma {:induction false} StartsAreRecorded(d: Dec.Design, rate: real, datagrams: seq<seq<byte>>)
    requires Dec.ValidDesign(d)
    ensures var s := RunStream(d, rate, datagrams); |HoleStarts(s.line)| <= |s.gaps|
  {
    hide HoleStarts;
    hide Fed;
    if datagrams == [] {
      NoStarts();
    } else {
      var n := |datagrams| - 1;
      StartsAreRecorded(d, rate, datagrams[..n]);
      FedStarts(d, rate, RunStream(d, rate, datagrams[..n]), datagrams[n]);
    }
  }

  lemma NoStarts()
    ensures HoleStarts([]) == {}
  {
  }

  /** Every break between packets begins where a hole does. */
  lemma BreakIsStart(line: seq<Slot>, ps: seq<OutPacket>, k: nat)
    requires Tiles(line, 0, ps) && |line| <= U64_MAX && k in Gaps.GapAt(Occupied(ps))
    ensures PacketEnd(ps[k - 1]) in HoleStarts(line)
  {
    hide Flattened;
    hide Values;
    var i := PacketEnd(ps[k - 1]);
    assert Shows(line, 0, ps[k - 1]) && Shows(line, 0, ps[k]);
    assert i < ps[k].first < |line|;
    var last := |ps[k - 1].samples| - 1;
    assert line[ps[k - 1].first - 0 + last] == Sample(ps[k - 1].samples[last]);
    NotCoveredBetween(ps, k, i);
    assert line[i - 0].Hole?;
  }

  lemma NotCoveredBetween(ps: seq<OutPacket>, k: nat, i: int)
    requires InOrder(ps) && 0 < k < |ps| && PacketEnd(ps[k - 1]) <= i < ps[k].first
    requires forall j :: 0 <= j < |ps| ==> |ps[j].samples| >= 1
    ensures !Covered(ps, i)
  {
    if Covered(ps, i) {
      var j :| 0 <= j < |ps| && CoveredBy(ps[j], i);
      if j < k {
        EndsBefore(ps, j, k - 1);
      } else if j > k {
        EndsBefore(ps, k, j - 1);
      }
    }
  }

  /** Distinct breaks begin at distinct holes. */
  lemma {:induction false} BreaksFit(line: seq<Slot>, ps: seq<OutPacket>, breaks: set<nat>, starts: set<nat>)
    requires InOrder(ps) && forall j :: 0 <= j < |ps| ==> |ps[j].samples| >= 1
    requires forall k :: k in breaks ==> 0 < k < |ps| && PacketEnd(ps[k - 1]) in starts
    ensures |breaks| <= |starts|
    decreases breaks
  {
    if breaks != {} {
      var k :| k in breaks;
      var i := PacketEnd(ps[k - 1]);
      forall j | j in breaks - {k}
        ensures 0 < j < |ps| && PacketEnd(ps[j - 1]) in starts - {i}
      {
        if j < k {
          EndsBefore(ps, j, k - 1);
          EndsBefore(ps, j - 1, j);
        } else {
          EndsBefore(ps, k, j - 1);
          EndsBefore(ps, k - 1, k);
        }
      }
      BreaksFit(line, ps, breaks - {k}, starts - {i});
    }
  }

  lemma BreaksAreRecorded(d: Dec.Design, rate: real, datagrams: seq<seq<byte>>)
    requires Dec.ValidDesign(d) && |RunStream(d, rate, datagrams).line| <= U64_MAX
    ensures var s := RunStream(d, rate, datagrams);
      |Gaps.GapAt(Occupied(Packetise(s.line, 0)))| <= |s.gaps|
  {
    hide *;
    var s := RunStream(d, rate, datagrams);
    var ps := Packetise(s.line, 0);
    PacketsTile(s.line, 0);
    TilesParts(s.line, 0, ps);
    StartsAreRecorded(d, rate, datagrams);
    forall k | k in Gaps.GapAt(Occupied(ps))
      ensures 0 < k < |ps| && PacketEnd(ps[k - 1]) in HoleStarts(s.line)
    {
      GapIsBetween(Occupied(ps), k);
      BreakIsStart(s.line, ps, k);
    }
    NoneEmpty(s.line, ps);
    BreaksFit(s.line, ps, Gaps.GapAt(Occupied(ps)), HoleStarts(s.line));
  }

  lemma GapIsBetween(spans: seq<Gaps.Span>, k: nat)
    requires k in Gaps.GapAt(spans)
    ensures 0 < k < |spans|
  {
  }

  lemma NoneEmpty(line: seq<Slot>, ps: seq<OutPacket>)
    requires AllShow(line, 0, ps)
    ensures forall j :: 0 <= j < |ps| ==> |ps[j].samples| >= 1
  {
  }

  // ---------- when the transport loses packets ----------

  /** The packets at the given places, in that order. */
  ghost function Selected(ps: seq<OutPacket>, places: seq<nat>): (qs: seq<OutPacket>)
    requires forall k :: 0 <= k < |places| ==> places[k] < |ps|
    ensures |qs| == |places| && forall k :: 0 <= k < |qs| ==> qs[k] == ps[places[k]]
  {
    seq(|places|, k requires 0 <= k < |places| => ps[places[k]])
  }

  ghost predicate Increasing(places: seq<nat>, n: nat) {
    && (forall k :: 0 <= k < |places| ==> places[k] < n)
    && (forall k :: 0 < k < |places| ==> places[k - 1] < places[k])
  }

  lemma SelectedSendable(ps: seq<OutPacket>, places: seq<nat>, r: nat)
    requires Sendable(ps, r) && Increasing(places, |ps|)
    ensures Sendable(Selected(ps, places), r)
    ensures WithinWord(ps) ==> WithinWord(Selected(ps, places))
  {
    hide Fits;
    var qs := Selected(ps, places);
    forall k | 0 < k < |qs|
      ensures PacketEnd(qs[k - 1]) <= qs[k].first
    {
      EndsBefore(ps, places[k - 1], places[k] - 1);
    }
  }

  /** Whichever packets the transport loses, the next hop takes in the rest: those
      that arrive read back, the counters still step forward only, and the samples
      it finds missing are exactly the instants that no arriving packet covers -
      holes and lost packets alike. */
  lemma NextHopAfterLoss(line: seq<Slot>, places: seq<nat>, r: nat)
    requires Fits(0, |line|, r) && places != [] && Increasing(places, |Packetise(line, 0)|)
    ensures var qs := Selected(Packetise(line, 0), places);
      var slices := Forwarded(RenderedAll(qs, r as real));
      var g := Gaps.RunSpans(Spans(slices, r as real));
      && AllParse(slices) && AllSamples(slices) == IqToSc16(Flattened(qs))
      && g.resets == 0
      && g.gapSamples == Uncovered(qs, qs[0].first, PacketEnd(qs[|qs| - 1]))
  {
    hide *;
    FitsRate(0, |line|, r);
    var ps := Packetise(line, 0);
    PlacesWithin(places, |ps|);
    var qs := Selected(ps, places);
    PacketsTile(line, 0);
    TilesAreSendable(line, ps, r);
    SelectedSendable(ps, places, r);
    SendsReadBack(qs, r);
    SendableInOrder(qs, r);
    TrackerCounts(qs);
  }

  lemma PlacesWithin(places: seq<nat>, n: nat)
    requires Increasing(places, n)
    ensures forall k :: 0 <= k < |places| ==> places[k] < n
  {
  }
}
