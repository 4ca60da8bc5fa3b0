/** Sample vectors framed as a packet stream, and what a reader gets back from
    one: every sample, every counter, and no sign of loss. */
module Vectors {
  import opened Numerics
  import opened Samples
  import opened Bytes
  import opened Vita49
  import Gaps

  /** The stream's packets: spp samples each, the last one possibly fewer, packet
      number i starting i * spp samples after the start. */
  function StreamPackets(samples: seq<I16>, rate: real, spp: nat, start: real, i: nat): seq<seq<byte>>
    requires rate != 0.0 && spp > 0
    decreases |samples|
  {
    if samples == [] then []
    else
      var n := Min(2 * spp, |samples|);
      [PacketBytes(samples[..n], start + (i * spp) as real / rate, rate)]
        + StreamPackets(samples[n..], rate, spp, start, i + 1)
  }

  lemma {:induction false} JoinedAppend(ps: seq<seq<byte>>, qs: seq<seq<byte>>)
    ensures Joined(ps + qs) == Joined(ps) + Joined(qs)
  {
    if ps == [] {
      assert ps + qs == qs;
    } else {
      JoinedAppend(ps[1..], qs);
      assert (ps + qs)[1..] == ps[1..] + qs && (ps + qs)[0] == ps[0];
      assert ps[0] + (Joined(ps[1..]) + Joined(qs)) == (ps[0] + Joined(ps[1..])) + Joined(qs);
    }
  }

  /** Serialise samples as concatenated packets. */
  method Vita49Stream(iq: seq<Iq>, rate: real, spp: nat, start: real) returns (out: seq<byte>, packets: nat)
    requires rate != 0.0 && spp > 0
    ensures out == Joined(StreamPackets(IqToSc16(iq), rate, spp, start, 0))
    ensures packets == |StreamPackets(IqToSc16(iq), rate, spp, start, 0)|
  {
    hide PacketBytes;
    hide StreamPackets;
    hide Joined;
    var interleaved := IqToSc16(iq);
    JoinedNone();
    ghost var whole := StreamPackets(interleaved, rate, spp, start, 0);
    ghost var done: seq<seq<byte>> := [];
    out, packets := [], 0;
    var at := 0;
    assert interleaved[0..] == interleaved && [] + whole == whole;
    while at < |interleaved|
      invariant at <= |interleaved| && packets == |done| && out == Joined(done)
      invariant whole == done + StreamPackets(interleaved[at..], rate, spp, start, packets)
    {
      var rest := interleaved[at..];
      var n := Min(2 * spp, |rest|);
      var firstSample := packets * spp;
      var ts := start + firstSample as real / rate;
      var bytes := BuildPacket(rest[..n], ts, rate);
      assert rest[n..] == interleaved[at + n..];
      StreamUnfold(rest, rate, spp, start, packets);
      JoinedAppend(done, [bytes]);
      JoinedOne(bytes);
      assert (done + [bytes]) + StreamPackets(rest[n..], rate, spp, start, packets + 1)
          == done + ([bytes] + StreamPackets(rest[n..], rate, spp, start, packets + 1));
      done := done + [bytes];
      out := out + bytes;
      packets := packets + 1;
      at := at + n;
    }
    assert interleaved[at..] == [];
    StreamNil(rate, spp, start, packets);
    assert done + [] == done;
  }

  lemma JoinedNone()
    ensures Joined([]) == []
  {
  }

  lemma JoinedOne(bytes: seq<byte>)
    ensures Joined([bytes]) == bytes
  {
    assert [bytes][1..] == [];
    assert Joined([bytes]) == bytes + Joined([]) == bytes;
  }

  // ---------- reading a stream back ----------

  ghost function SamplesOf(slice: seq<byte>): seq<I16> {
    if Parse(slice).Ok? then IqI16(Parse(slice).value) else []
  }

  ghost function AllSamples(slices: seq<seq<byte>>): seq<I16> {
    if slices == [] then [] else SamplesOf(slices[0]) + AllSamples(slices[1..])
  }

  ghost function SpanOf(slice: seq<byte>, rate: real): Gaps.Span {
    if Parse(slice).Err? then Gaps.Span(0, 0)
    else Gaps.Span(SampleCounter(Parse(slice).value, rate), PacketSamples(Parse(slice).value))
  }

  ghost predicate AllParse(slices: seq<seq<byte>>) {
    forall k :: 0 <= k < |slices| ==> Parse(slices[k]).Ok?
  }

  ghost function Spans(slices: seq<seq<byte>>, rate: real): (ps: seq<Gaps.Span>)
    ensures |ps| == |slices|
    ensures forall k :: 0 <= k < |slices| ==> ps[k] == SpanOf(slices[k], rate)
  {
    seq(|slices|, k requires 0 <= k < |slices| => SpanOf(slices[k], rate))
  }

  /** The room a stream of n samples starting at sample s0 needs in the header's
      seconds field and the counter word. */
  ghost predicate Fits(s0: nat, n: nat, r: nat) {
    1 <= r <= U64_MAX && s0 + n <= U64_MAX && s0 + n <= (U32_MAX + 1) * r
  }

  /** A time computed as start + offset seconds is exactly its sample number. */
  lemma ExactTime(s0: nat, offset: nat, r: nat)
    requires r >= 1
    ensures var ts := s0 as real / r as real + offset as real / r as real;
      ts >= 0.0 && WithinHalfSample(ts, s0 + offset, r)
  {
    var rr := r as real;
    var a, b := s0 as real / rr, offset as real / rr;
    assert a * rr == s0 as real && b * rr == offset as real;
    assert (a + b) * rr == a * rr + b * rr;
    if a + b < 0.0 { MulPositive(-(a + b), rr); }
  }

  ghost predicate ReadsAs(slice: seq<byte>, samples: seq<I16>, counter: nat, rate: real) {
    && Parse(slice).Ok?
    && SamplesOf(slice) == samples
    && SpanOf(slice, rate) == Gaps.Span(counter, |samples| / 2)
  }

  ghost predicate Framed(slice: seq<byte>) {
    |slice| >= HEADER_BYTES && WellFramed(slice)
  }

  /** One framed chunk reads back as itself, at its own sample number. */
  lemma ChunkReads(chunk: seq<I16>, s0: nat, offset: nat, r: nat)
    requires |chunk| % 2 == 0 && |chunk| / 2 <= MAX_SAMPLES
    requires Fits(s0, offset + 1, r)
    ensures var bytes := PacketBytes(chunk, s0 as real / r as real + offset as real / r as real, r as real);
      ReadsAs(bytes, chunk, s0 + offset, r as real) && Framed(bytes)
  {
    hide Stamp;
    hide PacketBytes;
    hide CounterOf;
    hide FromBytes;
    var rr := r as real;
    var ts := s0 as real / rr + offset as real / rr;
    var n := s0 + offset;
    ExactTime(s0, offset, r);
    StampOfSample(ts, n, r);
    CounterOfSample(n, r);
    BuildParse(chunk, ts, rr);
    assert chunk[..2 * (|chunk| / 2)] == chunk;
    PacketLength(chunk, ts, rr);
  }

  lemma PacketLength(chunk: seq<I16>, ts: real, rate: real)
    ensures var bytes := PacketBytes(chunk, ts, rate);
      Parse(bytes).Ok? ==> Framed(bytes)
  {
    hide FromBytes;
    hide PacketBytes;
    HeaderOfBytes(PacketBytes(chunk, ts, rate));
  }

  /** The slices are packets of at most spp samples that carry `samples` in
      order, each numbered from where the one before it ended. */
  ghost predicate Carries(slices: seq<seq<byte>>, samples: seq<I16>, counter: nat, spp: nat, rate: real)
    decreases |slices|
  {
    if slices == [] then samples == []
    else
      var n := Min(2 * spp, |samples|);
      && n > 0 && Framed(slices[0])
      && ReadsAs(slices[0], samples[..n], counter, rate)
      && Carries(slices[1..], samples[n..], counter + n / 2, spp, rate)
  }

  lemma CarriesCons(head: seq<byte>, tail: seq<seq<byte>>, samples: seq<I16>, counter: nat, spp: nat, rate: real)
    requires var n := Min(2 * spp, |samples|);
      && n > 0 && Framed(head) && ReadsAs(head, samples[..n], counter, rate)
      && Carries(tail, samples[n..], counter + n / 2, spp, rate)
    ensures Carries([head] + tail, samples, counter, spp, rate)
  {
    hide Framed;
    hide ReadsAs;
    assert ([head] + tail)[1..] == tail;
  }

  lemma CarriesNothing(counter: nat, spp: nat, rate: real)
    ensures Carries([], [], counter, spp, rate)
  {
  }

  /** Every packet of the stream from number i on reads back in order. */
  lemma {:induction false} StreamCarries(samples: seq<I16>, r: nat, spp: nat, s0: nat, i: nat, offset: nat,
                                         rate: real, start: real)
    requires rate > 0.0 && spp > 0 && spp <= MAX_SAMPLES && |samples| % 2 == 0
    requires rate == r as real && start == s0 as real / rate && offset == i * spp
    requires Fits(s0, offset + |samples| / 2, r)
    ensures Carries(StreamPackets(samples, rate, spp, start, i), samples, s0 + offset, spp, rate)
    decreases |samples|
  {
    hide *;
    if samples == [] {
      StreamNil(rate, spp, start, i);
      CarriesNothing(s0 + offset, spp, rate);
    } else {
      var n := Smaller(2 * spp, |samples|);
      FitsFirst(s0, offset, |samples| / 2, r);
      ChunkReads(samples[..n], s0, offset, r);
      StreamUnfold(samples, rate, spp, start, i);
      var head := PacketBytes(samples[..n], start + offset as real / rate, rate);
      var tail := StreamPackets(samples[n..], rate, spp, start, i + 1);
      if n == |samples| {
        StreamNil(rate, spp, start, i + 1);
        CarriesNothing(s0 + offset + n / 2, spp, rate);
        assert samples[n..] == [];
      } else {
        NextOffset(i, spp);
        assert n / 2 == spp;
        StreamCarries(samples[n..], r, spp, s0, i + 1, offset + spp, rate, start);
      }
      CarriesCons(head, tail, samples, s0 + offset, spp, rate);
    }
  }

  lemma NextOffset(i: nat, spp: nat)
    ensures (i + 1) * spp == i * spp + spp
  {
  }

  lemma Smaller(a: nat, b: nat) returns (n: nat)
    ensures n == Min(a, b) && n <= a && n <= b && (n == a || n == b)
  {
    n := Min(a, b);
  }

  lemma FitsFirst(s0: nat, offset: nat, n: nat, r: nat)
    requires Fits(s0, offset + n, r) && n >= 1
    ensures Fits(s0, offset + 1, r)
  {
  }

  lemma StreamNil(rate: real, spp: nat, start: real, i: nat)
    requires rate != 0.0 && spp > 0
    ensures StreamPackets([], rate, spp, start, i) == []
  {
  }

  lemma StreamUnfold(samples: seq<I16>, rate: real, spp: nat, start: real, i: nat)
    requires rate != 0.0 && spp > 0 && samples != []
    ensures var n := Min(2 * spp, |samples|);
      var ps := StreamPackets(samples, rate, spp, start, i);
      ps == [PacketBytes(samples[..n], start + (i * spp) as real / rate, rate)]
         + StreamPackets(samples[n..], rate, spp, start, i + 1)
  {
    hide PacketBytes;
  }

  lemma {:induction false} CarriedSamples(slices: seq<seq<byte>>, samples: seq<I16>, counter: nat, spp: nat, rate: real)
    requires Carries(slices, samples, counter, spp, rate)
    ensures AllParse(slices) && AllSamples(slices) == samples
    ensures forall k :: 0 <= k < |slices| ==> Framed(slices[k])
    decreases |slices|
  {
    hide Parse;
    hide Framed;
    hide SpanOf;
    hide SamplesOf;
    if slices != [] {
      var n := Min(2 * spp, |samples|);
      assert ReadsAs(slices[0], samples[..n], counter, rate);
      CarriedSamples(slices[1..], samples[n..], counter + n / 2, spp, rate);
      assert samples[..n] + samples[n..] == samples;
    }
  }

  lemma CarriesHead(slices: seq<seq<byte>>, samples: seq<I16>, counter: nat, spp: nat, rate: real)
    requires Carries(slices, samples, counter, spp, rate) && slices != [] && |samples| % 2 == 0
    ensures var n := Min(2 * spp, |samples|);
      && SpanOf(slices[0], rate) == Gaps.Span(counter, n / 2)
      && Carries(slices[1..], samples[n..], counter + n / 2, spp, rate)
      && (slices[1..] != [] ==> n == 2 * spp && n < |samples|)
  {
    hide SpanOf;
    hide Framed;
    hide Parse;
    var n := Min(2 * spp, |samples|);
    if slices[1..] != [] { assert samples[n..] != []; }
  }

  /** The counter value after the packet's last sample. */
  ghost function Claimed(span: Gaps.Span): nat { span.counter + span.samples }

  /** Packet k is numbered k full packets after the first, and the next packet
      starts where it ends. */
  lemma {:induction false} CarriedCounters(slices: seq<seq<byte>>, samples: seq<I16>, counter: nat, spp: nat, rate: real, k: nat)
    requires Carries(slices, samples, counter, spp, rate)
    requires k < |slices| && |samples| % 2 == 0
    ensures SpanOf(slices[k], rate).counter == counter + k * spp
    ensures Claimed(SpanOf(slices[k], rate)) <= counter + |samples| / 2
    ensures k + 1 < |slices| ==> Claimed(SpanOf(slices[k], rate)) == counter + (k + 1) * spp
    decreases k
  {
    hide SpanOf;
    hide Carries;
    CarriesHead(slices, samples, counter, spp, rate);
    if k > 0 {
      assert k * spp == (k - 1) * spp + spp && (k + 1) * spp == k * spp + spp;
      CarriedCounters(slices[1..], samples[2 * spp..], counter + spp, spp, rate, k - 1);
    }
  }

  lemma CarriedSpans(slices: seq<seq<byte>>, samples: seq<I16>, counter: nat, spp: nat, rate: real)
    requires Carries(slices, samples, counter, spp, rate)
    requires |samples| % 2 == 0 && counter + |samples| / 2 <= U64_MAX
    ensures Gaps.BackToBack(Spans(slices, rate))
  {
    hide Carries;
    hide SpanOf;
    var ps := Spans(slices, rate);
    forall k | 0 <= k < |slices|
      ensures k > 0 ==> ps[k].counter == Gaps.End(ps[k - 1])
    {
      CarriedCounters(slices, samples, counter, spp, rate, k);
      if k > 0 { CarriedCounters(slices, samples, counter, spp, rate, k - 1); }
    }
  }

  /** Framing end to end: walk the bytes of a stream and there is no error, no
      leftover, every sample in order, every counter start plus samples so far;
      and the gap tracker sees neither a gap nor a reset. */
  lemma StreamEndToEnd(iq: seq<Iq>, r: nat, spp: nat, s0: nat)
    requires 1 <= spp <= MAX_SAMPLES && Fits(s0, |iq|, r)
    ensures var bytes := Joined(StreamPackets(IqToSc16(iq), r as real, spp, s0 as real / r as real, 0));
      var w := Walk(bytes);
      && w.error == None && w.tail == []
      && AllParse(w.slices) && AllSamples(w.slices) == IqToSc16(iq)
      && (forall k :: 0 <= k < |w.slices| ==> SpanOf(w.slices[k], r as real).counter == s0 + k * spp)
      && Gaps.RunSpans(Spans(w.slices, r as real)).gaps == 0
      && Gaps.RunSpans(Spans(w.slices, r as real)).resets == 0
  {
    hide *;
    var samples := IqToSc16(iq);
    var rate := r as real;
    FitsRate(s0, |iq|, r);
    var ps := StreamPackets(samples, rate, spp, s0 as real / rate, 0);
    StreamCarries(samples, r, spp, s0, 0, 0, rate, s0 as real / rate);
    CarriedSamples(ps, samples, s0, spp, rate);
    AllFramed(ps);
    WalkOfPackets(ps);
    CarriedSpans(ps, samples, s0, spp, rate);
    forall k | 0 <= k < |ps|
      ensures SpanOf(ps[k], rate).counter == s0 + k * spp
    {
      CarriedCounters(ps, samples, s0, spp, rate, k);
    }
    if ps == [] {
      NoSpans(ps, rate);
    } else {
      Gaps.ContiguousExactly(Spans(ps, rate));
    }
  }

  lemma FitsRate(s0: nat, n: nat, r: nat)
    requires Fits(s0, n, r)
    ensures 1 <= r && s0 + n <= U64_MAX
  {
  }

  lemma AllFramed(ps: seq<seq<byte>>)
    requires forall k :: 0 <= k < |ps| ==> Framed(ps[k])
    ensures forall k :: 0 <= k < |ps| ==> |ps[k]| >= HEADER_BYTES && WellFramed(ps[k])
  {
  }

  lemma NoSpans(ps: seq<seq<byte>>, rate: real)
    requires ps == []
    ensures Gaps.RunSpans(Spans(ps, rate)) == Gaps.UNSEEN
    ensures Gaps.UNSEEN.gaps == 0 && Gaps.UNSEEN.resets == 0
  {
  }
}
