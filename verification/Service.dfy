/** The channelizer service: packets in, filtered and decimated packets out. */
module Service {
  import opened Numerics
  import opened Complex
  import opened Samples
  import opened Bytes
  import opened Vita49
  import opened Timeline
  import opened Vectors
  import opened Pipeline
  import opened Metering
  import opened FirDesign
  import opened Planner
  import Gaps
  import Cascade
  import Mixer
  import Dec = Decimator

  /** One send: interleaved samples, the time of the first, and the rate they are
      at. */
  datatype SentPacket = SentPacket(interleaved: seq<I16>, ts: real, rate: real)

  /** Where narrowband packets go: every send is kept as it was made, and the
      environment decides which of them the transport loses. */
  class Sink {
    const refuses: nat -> bool
    var packets: seq<SentPacket>
    var rate: real
    var dropped: nat

    constructor (refuses: nat -> bool)
      ensures packets == [] && dropped == 0 && this.refuses == refuses
    {
      this.refuses := refuses;
      packets, rate, dropped := [], 0.0, 0;
    }

    method Send(interleaved: seq<I16>, ts: real, sampleRate: real)
      modifies this
      ensures packets == old(packets) + [SentPacket(interleaved, ts, sampleRate)] && rate == sampleRate
      ensures dropped == old(dropped) + if refuses(|old(packets)|) then 1 else 0
    {
      if refuses(|packets|) {
        dropped := dropped + 1;
      }
      packets := packets + [SentPacket(interleaved, ts, sampleRate)];
      rate := sampleRate;
    }
  }

  datatype PacketOutcome = PacketOutcome(samplesIn: nat, samplesOut: nat, gap: Option<GapRecord>, malformed: bool)

  datatype Report = Report(ok: bool, packetsReceived: nat, malformedPackets: nat, packetsDropped: nat,
                           seqGaps: nat, gapSamples: nat, samplesIn: nat, samplesOut: nat,
                           inputRate: real, outputRate: real, decimation: nat, settlingSamples: nat,
                           offset: real, passband: real, stopbandDb: real,
                           outputLevel: Option<real>, peakOffset: Option<real>, discontinuities: seq<GapRecord>)

  /** A packet as the sink sees it: quantised, stamped with its index over the
      output rate, at the output rate. */
  ghost function Rendered(p: OutPacket, outputRate: real): SentPacket
    requires outputRate != 0.0
  {
    SentPacket(IqToSc16(p.samples), p.first as real / outputRate, outputRate)
  }

  ghost function RenderedAll(ps: seq<OutPacket>, outputRate: real): (r: seq<SentPacket>)
    requires outputRate != 0.0
    ensures |r| == |ps| && forall k :: 0 <= k < |ps| ==> r[k] == Rendered(ps[k], outputRate)
  {
    seq(|ps|, k requires 0 <= k < |ps| => Rendered(ps[k], outputRate))
  }

  /** The one packet more, if there was anything to send: quantised, stamped with
      its first index over the output rate, at the output rate. */
  ghost predicate SentOne(before: seq<SentPacket>, after: seq<SentPacket>, filling: seq<Iq>, first: nat, outputRate: real)
    requires outputRate != 0.0
  {
    if filling == [] then after == before
    else after == before + [SentPacket(IqToSc16(filling), first as real / outputRate, outputRate)]
  }

  class ChannelizerService {
    const channelizer: Dec.Channelizer
    const gapTracker: Gaps.GapTracker
    const sink: Sink
    const inputRate: real
    const outputRate: real
    const offset: real
    const passband: real
    const stopbandDb: real
    const instruments: Instruments

    var samplesInTotal: nat
    var samplesOutTotal: nat
    var malformed: nat
    var discontinuities: seq<GapRecord>
    /** Narrowband samples waiting to be packetised, and the output index of the
        first of them. */
    var outPacket: seq<Iq>
    var outPacketFirst: nat
    var sinkDroppedSeen: nat
    var produced: seq<Iq>
    /** The window being filled for the next measurement. */
    var measure: seq<Iq>

    // metrics
    var packetsReceived: nat
    var packetsDropped: nat
    var seqGaps: nat
    var gapSamples: nat
    var metricSamplesIn: nat
    var metricSamplesOut: nat
    var level: Option<real>
    var peak: Option<real>

    /** What the run so far amounts to, the packets it has sent, the datagrams it
        was fed, the records that never reached it as datagrams, and the blocks it
        has measured. */
    ghost var stream: Stream
    ghost var sent: seq<OutPacket>
    ghost var fed: seq<seq<byte>>
    ghost var unframed: nat
    ghost var blocks: seq<seq<Iq>>
    ghost const before: seq<SentPacket>

    /** The service, its tracker and its sink are no part of the chain. */
    ghost predicate Separate() {
      this !in channelizer.repr && gapTracker !in channelizer.repr && sink !in channelizer.repr
    }

    ghost predicate Owned()
      reads channelizer, channelizer.repr
    {
      channelizer.Valid() && Dec.Countable(channelizer.design) && outputRate != 0.0 && Separate()
    }

    ghost predicate SinkAgrees()
      reads this`sent, this`packetsDropped, this`sinkDroppedSeen, sink
    {
      && outputRate != 0.0
      && sink.packets == before + RenderedAll(sent, outputRate)
      && packetsDropped == sinkDroppedSeen <= sink.dropped
      && (sent != [] ==> sink.rate == outputRate)
    }

    /** The chain, the gap tracker and the output clock stand where the stream
        says, and what was sent plus what is in hand is the timeline cut into
        packets. */
    ghost predicate Running()
      reads this`sent, this`packetsDropped, this`sinkDroppedSeen, this`stream, this`samplesOutTotal,
            this`discontinuities, this`outPacket, this`outPacketFirst,
            sink, channelizer, channelizer.repr, gapTracker
    {
      && Owned() && SinkAgrees()
      && channelizer.Abstract() == stream.chan && Dec.ValidDesign(channelizer.design)
      && gapTracker.Valid() && gapTracker.Abstract() == stream.gap
      && samplesOutTotal == |stream.line| && discontinuities == stream.gaps
      && Sending(stream.line, sent, outPacket, outPacketFirst)
      && Sealed(stream.line, sent, outPacket)
    }

    /** The counters say what the stream says. */
    ghost predicate Counted()
      reads this`stream, this`malformed, this`unframed, this`samplesInTotal, this`packetsReceived,
            this`seqGaps, this`gapSamples, this`metricSamplesIn, this`metricSamplesOut
    {
      && malformed == stream.malformed + unframed
      && samplesInTotal == metricSamplesIn == |stream.input|
      && packetsReceived == |stream.spans|
      && seqGaps == stream.gap.gaps && gapSamples == stream.gap.gapSamples
      && metricSamplesOut == |Values(stream.line)|
    }

    ghost function TheMeter(): Meter
      reads this`measure, this`blocks
    {
      Meter(measure, blocks)
    }

    /** The gauges show what was last read off the measured blocks. */
    ghost predicate GaugesRead()
      reads this`blocks, this`level, this`peak
    {
      Gauges(level, peak) == Readings(instruments, outputRate, passband, blocks)
    }

    /** The settling figure the chain reports. */
    ghost function SettlingFigure(): nat {
      Dec.WordSettling(channelizer.plan)
    }

    /** The state is exactly what the datagrams fed so far determine. */
    ghost predicate Valid()
      reads this, sink, channelizer, channelizer.repr, gapTracker
    {
      && Separate() && Running() && Counted()
      && Dec.ValidDesign(channelizer.design)
      && stream == RunStream(channelizer.design, inputRate, fed)
      && TheMeter() == MeterRun(channelizer.design, inputRate, SettlingFigure(), fed) && GaugesRead()
    }

    constructor (t: Trig, sp: Special, plan: seq<StagePlan>, offset: real, inputRate: real, outputRate: real,
                 passband: real, stopbandDb: real, sink: Sink, instruments: Instruments)
      requires t.pi > 0.0 && LawfulSpecial(sp) && plan != [] && Dec.ValidPlan(plan) && outputRate != 0.0
      requires FactorProduct(plan) <= USIZE_MAX
      ensures Valid() && fed == [] && unframed == 0 && sent == []
      ensures this.sink == sink && before == old(sink.packets)
      ensures this.inputRate == inputRate && this.outputRate == outputRate
      ensures this.offset == offset && this.passband == passband && this.stopbandDb == stopbandDb
      ensures this.instruments == instruments && channelizer.plan == plan
      ensures channelizer.design == Dec.Design(t, Mixer.PhaseInc(t, offset, inputRate),
                                               Dec.PlanSpecs(t, sp, plan, stopbandDb))
    {
      hide Mixer.PhaseInc;
      hide Mixer.Tau;
      hide Dec.PlanSpecs;
      hide Dec.BuiltFor;
      hide Dec.Channelizer.Valid;
      hide Dec.Channelizer.Abstract;
      hide Gaps.GapTracker.Valid;
      hide Dec.FreshState;
      hide Dec.ValidDesign;
      hide Dec.Countable;
      hide Sending;
      hide Sealed;
      var chain := new Dec.Channelizer(t, sp, plan, offset, inputRate, stopbandDb);
      var tracker := new Gaps.GapTracker();
      channelizer := chain;
      gapTracker := tracker;
      this.sink := sink;
      this.inputRate := inputRate;
      this.outputRate := outputRate;
      this.offset := offset;
      this.passband := passband;
      this.stopbandDb := stopbandDb;
      this.instruments := instruments;
      measure, level, peak, blocks := [], None, None, [];
      DesignCounts(chain.design, plan);
      samplesInTotal, samplesOutTotal, malformed, discontinuities := 0, 0, 0, [];
      outPacket, outPacketFirst, sinkDroppedSeen, produced := [], 0, 0, [];
      packetsReceived, packetsDropped, seqGaps, gapSamples, metricSamplesIn, metricSamplesOut := 0, 0, 0, 0, 0, 0;
      stream := Begin(chain.design);
      sent, fed, unframed := [], [], 0;
      before := sink.packets;
      SendingStarts();
      new;
      assert before + RenderedAll([], outputRate) == before;
    }

    /** Count a record that could not even be framed. */
    method NoteMalformed()
      requires Valid()
      modifies this`malformed, this`unframed
      ensures Valid() && unframed == old(unframed) + 1
    {
      hide Running;
      hide RunStream;
      malformed := malformed + 1;
      unframed := unframed + 1;
    }

    /** Send what is in hand, if anything, and mirror the sink's losses. */
    method FlushOutputPacket()
      requires SinkAgrees()
      modifies this`outPacket, this`outPacketFirst, this`sent, this`sinkDroppedSeen, this`packetsDropped, sink
      ensures SinkAgrees() && outPacket == []
      ensures sent == old(sent) + Unsent(old(outPacket), old(outPacketFirst))
      ensures SentOne(old(sink.packets), sink.packets, old(outPacket), old(outPacketFirst), outputRate)
      ensures old(outPacket) != [] ==> sinkDroppedSeen == sink.dropped && outPacketFirst == samplesOutTotal
    {
      if outPacket == [] {
        assert sent + [] == sent;
        return;
      }
      var sc16 := IqToSc16(outPacket);
      var ts := outPacketFirst as real / outputRate;
      sink.Send(sc16, ts, outputRate);
      sent := sent + [OutPacket(outPacketFirst, outPacket)];
      RenderedSnoc(old(sent), sent[|old(sent)|], outputRate);
      assert before + RenderedAll(old(sent), outputRate) + [SentPacket(sc16, ts, outputRate)]
          == before + (RenderedAll(old(sent), outputRate) + [SentPacket(sc16, ts, outputRate)]);
      outPacket := [];
      outPacketFirst := samplesOutTotal;
      if sink.dropped > sinkDroppedSeen {
        packetsDropped := packetsDropped + (sink.dropped - sinkDroppedSeen);
        sinkDroppedSeen := sink.dropped;
      }
    }

    /** One narrowband sample onto the timeline and into the packet in hand. */
    method AppendSample(y: Iq)
      requires Running()
      modifies this`outPacket, this`outPacketFirst, this`sent, this`sinkDroppedSeen, this`packetsDropped,
               this`samplesOutTotal, this`stream, sink
      ensures Running()
      ensures stream == old(stream).(line := old(stream).line + [Sample(y)])
    {
      hide SentOne;
      hide Dec.Channelizer.Valid;
      hide Dec.Channelizer.Abstract;
      hide Gaps.GapTracker.Valid;
      hide Dec.ValidDesign;
      hide Dec.Countable;
      hide Sending;
      hide Sealed;
      hide SinkAgrees;
      ghost var line, was, inHand, firstWas := stream.line, sent, outPacket, outPacketFirst;
      if outPacket == [] {
        outPacketFirst := samplesOutTotal + |outPacket|;
      }
      outPacket := outPacket + [y];
      samplesOutTotal := samplesOutTotal + 1;
      if |outPacket| >= OUTPUT_PACKET_SAMPLES {
        FlushOutputPacket();
      }
      SendingSample(line, was, inHand, firstWas, y, outPacketFirst);
      stream := stream.(line := line + [Sample(y)]);
    }

    /** Read the window off as one block. */
    method PublishMeasurements()
      requires GaugesRead()
      modifies this`measure, this`blocks, this`level, this`peak
      ensures GaugesRead() && measure == [] && blocks == old(blocks) + [old(measure)]
    {
      var block := measure;
      measure := [];
      ReadingsSnoc(instruments, outputRate, passband, blocks, block);
      var reading := instruments.level(block);
      if reading.Some? {
        level := reading;
      }
      var offset := instruments.peak(block, outputRate, -passband, passband);
      if offset.Some? {
        peak := offset;
      }
      blocks := blocks + [block];
    }

    /** Measure what was just produced, but only once the filters have settled. */
    method MeasureProduced(pairs: nat)
      requires channelizer.Valid() && GaugesRead()
      modifies this`measure, this`blocks, this`level, this`peak
      ensures GaugesRead()
      ensures TheMeter() == Collected(old(TheMeter()), produced, samplesInTotal + pairs >= SettlingFigure())
    {
      var settling := channelizer.SettlingSamples();
      if samplesInTotal + pairs >= settling {
        measure := measure + produced;
        if |measure| >= MEASURE_BLOCK {
          PublishMeasurements();
        }
      }
    }

    /** Everything just produced onto the timeline. */
    method AppendProduced()
      requires Running()
      modifies this`outPacket, this`outPacketFirst, this`sent, this`sinkDroppedSeen, this`packetsDropped,
               this`samplesOutTotal, this`stream, sink
      ensures Running()
      ensures stream == old(stream).(line := old(stream).line + Slots(produced))
    {
      hide Running;
      assert stream.line + Slots(produced[..0]) == stream.line;
      for k := 0 to |produced|
        invariant Running()
        invariant stream == old(stream).(line := old(stream).line + Slots(produced[..k]))
      {
        AppendSample(produced[k]);
        SlotsSnoc(produced, k);
        assert (old(stream).line + Slots(produced[..k])) + [Sample(produced[k])]
            == old(stream).line + Slots(produced[..k + 1]);
      }
      assert produced[..|produced|] == produced;
    }

    /** Decoded samples through the chain, onto the timeline, into packets and, once
        settled, into the measurement window. */
    method ProcessInterleaved(interleaved: seq<I16>)
      requires Running() && GaugesRead()
      modifies this`measure, this`blocks, this`level, this`peak,
               this`outPacket, this`outPacketFirst, this`sent, this`sinkDroppedSeen, this`packetsDropped,
               this`samplesOutTotal, this`stream, this`produced, sink, channelizer.repr
      ensures Running() && GaugesRead()
      ensures TheMeter() == Collected(old(TheMeter()), produced, samplesInTotal + |interleaved| / 2 >= SettlingFigure())
      ensures stream == AfterSamples(channelizer.design, old(stream), interleaved)
      ensures produced == Dec.Run(channelizer.design, old(stream).chan, Sc16ToIq(interleaved)).1
    {
      hide Dec.Run;
      hide Dec.ValidDesign;
      hide Dec.Countable;
      hide Dec.Channelizer.Valid;
      hide Dec.Channelizer.Abstract;
      hide Dec.WordSettling;
      hide Gaps.GapTracker.Valid;
      hide Sending;
      hide Sealed;
      hide SinkAgrees;
      hide Sc16ToIq;
      hide Collected;
      hide Readings;
      ghost var was := stream;
      produced := channelizer.Process(interleaved, []);
      ghost var run := Dec.Run(channelizer.design, was.chan, Sc16ToIq(interleaved));
      assert [] + run.1 == run.1;
      stream := stream.(chan := run.0, input := was.input + Sc16ToIq(interleaved));
      AppendProduced();
      MeasureProduced(|interleaved| / 2);
    }

    /** Leave nothing in hand. */
    method FlushAll()
      requires SinkAgrees() && Sending(stream.line, sent, outPacket, outPacketFirst)
      modifies this`outPacket, this`outPacketFirst, this`sent, this`sinkDroppedSeen, this`packetsDropped, sink
      ensures SinkAgrees() && outPacket == [] && Sending(stream.line, sent, [], outPacketFirst)
    {
      hide SentOne;
      hide SinkAgrees;
      hide Sending;
      hide Unsent;
      ghost var was, inHand, firstWas := sent, outPacket, outPacketFirst;
      FlushOutputPacket();
      SendingEmptied(stream.line, was, inHand, firstWas, outPacketFirst);
    }

    /** Place a discontinuity on the output timeline: send what is in hand, skip
        the time that was lost, rounded up, and record it. */
    method SkipGap(marker: Gaps.GapMarker, ghost span: Gaps.Span) returns (record: GapRecord)
      requires Owned() && SinkAgrees() && marker.missing > 0
      requires channelizer.Abstract() == stream.chan && Dec.ValidDesign(channelizer.design)
      requires gapTracker.Valid()
      requires Gaps.Observed(stream.gap, span.counter, span.samples) == (gapTracker.Abstract(), Some(marker))
      requires samplesOutTotal == |stream.line| && discontinuities == stream.gaps
      requires Sending(stream.line, sent, outPacket, outPacketFirst)
      modifies this`outPacket, this`outPacketFirst, this`sent, this`sinkDroppedSeen, this`packetsDropped,
               this`samplesOutTotal, this`stream, this`discontinuities, this`seqGaps, this`gapSamples, sink
      ensures Running() && stream == AfterGap(channelizer.design, old(stream), span)
      ensures record == GapRecord(marker.atSample, marker.missing, samplesOutTotal)
      ensures LeastCover(channelizer.design, marker.missing, record.atOutput - old(samplesOutTotal))
      ensures seqGaps == old(seqGaps) + 1 && gapSamples == old(gapSamples) + marker.missing
    {
      hide SentOne;
      hide SkipFor;
      hide AfterGap;
      hide Gaps.Observed;
      hide CeilDiv;
      hide Dec.ValidDesign;
      hide Dec.Countable;
      hide Dec.Channelizer.Valid;
      hide Dec.Channelizer.Abstract;
      hide Gaps.GapTracker.Valid;
      hide Sending;
      hide Sealed;
      hide Unsent;
      hide SinkAgrees;
      hide LeastCover;
      FlushAll();
      var decimation := channelizer.Decimation();
      CountsExactly(channelizer.design);
      SkipIs(channelizer.design, marker.missing, decimation);
      var missingOut := CeilDiv(marker.missing, decimation);
      record := GapRecord(marker.atSample, marker.missing, samplesOutTotal + missingOut);
      samplesOutTotal := samplesOutTotal + missingOut;
      seqGaps := seqGaps + 1;
      gapSamples := gapSamples + marker.missing;
      discontinuities := discontinuities + [record];
      SkipPositive(channelizer.design, marker.missing);
      AfterLoss(channelizer.design, stream, span, marker);
      SendingHoles(stream.line, sent, outPacketFirst, missingOut);
      stream := AfterGap(channelizer.design, stream, span);
    }

    /** A packet that reveals nothing lost moves only the tracker. */
    method Continue(ghost span: Gaps.Span)
      requires Owned() && SinkAgrees()
      requires channelizer.Abstract() == stream.chan && Dec.ValidDesign(channelizer.design)
      requires gapTracker.Valid()
      requires Gaps.Observed(stream.gap, span.counter, span.samples) == (gapTracker.Abstract(), None)
      requires samplesOutTotal == |stream.line| && discontinuities == stream.gaps
      requires Sending(stream.line, sent, outPacket, outPacketFirst) && Sealed(stream.line, sent, outPacket)
      modifies this`stream
      ensures Running() && stream == AfterGap(channelizer.design, old(stream), span)
    {
      hide Dec.ValidDesign;
      hide Dec.Countable;
      hide Dec.Channelizer.Valid;
      hide Dec.Channelizer.Abstract;
      hide Gaps.GapTracker.Valid;
      hide Sending;
      hide Sealed;
      hide SinkAgrees;
      stream := AfterGap(channelizer.design, stream, span);
      assert old(stream).line + Holes(0) == old(stream).line && old(stream).gaps + [] == old(stream).gaps;
    }

    /** The tracker sees a packet; if it reveals a gap, the output skips it. */
    method TrackGap(counter: nat, samples: nat) returns (gap: Option<GapRecord>)
      requires Running()
      modifies this`outPacket, this`outPacketFirst, this`sent, this`sinkDroppedSeen, this`packetsDropped,
               this`samplesOutTotal, this`stream, this`discontinuities, this`seqGaps, this`gapSamples, sink, gapTracker
      ensures Running()
      ensures stream == AfterGap(channelizer.design, old(stream), Gaps.Span(counter, samples))
      ensures stream.gaps == old(stream).gaps + if gap.Some? then [gap.value] else []
      ensures seqGaps - old(seqGaps) == stream.gap.gaps - old(stream).gap.gaps
      ensures gapSamples - old(gapSamples) == stream.gap.gapSamples - old(stream).gap.gapSamples
    {
      hide Dec.ValidDesign;
      hide Dec.Countable;
      hide Dec.Channelizer.Valid;
      hide Dec.Channelizer.Abstract;
      hide Gaps.GapTracker.Valid;
      hide Sending;
      hide Sealed;
      hide SinkAgrees;
      hide SkipFor;
      ghost var span := Gaps.Span(counter, samples);
      var marker := gapTracker.Observe(counter, samples);
      if marker.Some? {
        var record := SkipGap(marker.value, span);
        gap := Some(record);
      } else {
        Continue(span);
        gap := None;
      }
    }

    /** The counts of an accepted packet. */
    method CountPacket(samplesIn: nat)
      modifies this`packetsReceived, this`metricSamplesIn, this`metricSamplesOut, this`samplesInTotal
      ensures packetsReceived == old(packetsReceived) + 1
      ensures metricSamplesIn == old(metricSamplesIn) + samplesIn
      ensures metricSamplesOut == old(metricSamplesOut) + |produced|
      ensures samplesInTotal == old(samplesInTotal) + samplesIn
    {
      packetsReceived := packetsReceived + 1;
      metricSamplesIn := metricSamplesIn + samplesIn;
      metricSamplesOut := metricSamplesOut + |produced|;
      samplesInTotal := samplesInTotal + samplesIn;
    }

    /** Loss first, then the samples. */
    method Absorb(counter: nat, samplesIn: nat, samples: seq<I16>) returns (gap: Option<GapRecord>)
      requires Running() && GaugesRead()
      modifies this`measure, this`blocks, this`level, this`peak,
               this`outPacket, this`outPacketFirst, this`sent, this`sinkDroppedSeen, this`packetsDropped,
               this`samplesOutTotal, this`stream, this`discontinuities, this`seqGaps, this`gapSamples, this`produced,
               sink, gapTracker, channelizer.repr
      ensures Running() && GaugesRead()
      ensures stream == AfterSamples(channelizer.design,
                                     AfterGap(channelizer.design, old(stream), Gaps.Span(counter, samplesIn)), samples)
      ensures produced == Dec.Run(channelizer.design, old(stream).chan, Sc16ToIq(samples)).1
      ensures TheMeter() == Collected(old(TheMeter()), produced, samplesInTotal + |samples| / 2 >= SettlingFigure())
      ensures stream.gaps == old(stream).gaps + if gap.Some? then [gap.value] else []
      ensures seqGaps - old(seqGaps) == stream.gap.gaps - old(stream).gap.gaps
      ensures gapSamples - old(gapSamples) == stream.gap.gapSamples - old(stream).gap.gapSamples
    {
      hide Running;
      hide Dec.Run;
      hide AfterGap;
      hide AfterSamples;
      hide Collected;
      hide Readings;
      hide Dec.WordSettling;
      RunningValid();
      GapKeepsChain(channelizer.design, stream, Gaps.Span(counter, samplesIn));
      gap := TrackGap(counter, samplesIn);
      SamplesKeepCounts(channelizer.design, stream, samples);
      ProcessInterleaved(samples);
    }

    lemma RunningValid()
      requires Running()
      ensures Dec.ValidDesign(channelizer.design) && Dec.ValidState(channelizer.design, stream.chan) && Separate()
    {
    }

    /** An accepted packet: loss first, then its samples, then the counts. */
    method ProcessPacket(p: Packet, ghost buf: seq<byte>) returns (outcome: PacketOutcome)
      requires Running() && GaugesRead() && Parse(buf) == Ok(p) && samplesInTotal == |stream.input|
      modifies this, gapTracker, sink, channelizer.repr
      ensures GaugesRead()
      ensures TheMeter() == MeterFed(channelizer.design, SettlingFigure(), old(stream), old(TheMeter()), buf)
      ensures Running() && stream == Fed(channelizer.design, inputRate, old(stream), buf)
      ensures fed == old(fed) && unframed == old(unframed) && malformed == old(malformed)
      ensures packetsReceived == old(packetsReceived) + 1
      ensures outcome.samplesIn == samplesInTotal - old(samplesInTotal) == metricSamplesIn - old(metricSamplesIn)
      ensures outcome.samplesIn == SpanOf(buf, inputRate).samples && !outcome.malformed
      ensures outcome.samplesOut == metricSamplesOut - old(metricSamplesOut)
      ensures outcome.samplesOut == |Dec.Run(channelizer.design, old(stream).chan, Sc16ToIq(SamplesOf(buf))).1|
      ensures stream.gaps == old(stream).gaps + if outcome.gap.Some? then [outcome.gap.value] else []
      ensures seqGaps - old(seqGaps) == stream.gap.gaps - old(stream).gap.gaps
      ensures gapSamples - old(gapSamples) == stream.gap.gapSamples - old(stream).gap.gapSamples
    {
      hide Running;
      hide Dec.Run;
      hide Parse;
      hide Fed;
      hide AfterGap;
      hide AfterSamples;
      hide Sc16ToIq;
      hide MeterFed;
      hide Collected;
      hide Readings;
      hide Dec.WordSettling;
      RunningValid();
      MeterFedIs(channelizer.design, SettlingFigure(), stream, TheMeter(), buf);
      FedIs(channelizer.design, inputRate, stream, buf);
      var samplesIn := PacketSamples(p);
      var counter := SampleCounter(p, inputRate);
      var gap := Absorb(counter, samplesIn, IqI16(p));
      CountPacket(samplesIn);
      return PacketOutcome(samplesIn, |produced|, gap, false);
    }

    /** A datagram that does not parse. */
    method CountMalformed(ghost buf: seq<byte>)
      requires Valid() && Parse(buf).Err?
      modifies this`malformed, this`stream, this`fed
      ensures Valid() && fed == old(fed) + [buf]
      ensures stream == old(stream).(malformed := old(stream).malformed + 1)
    {
      hide Dec.ValidDesign;
      hide Dec.Countable;
      hide Dec.Channelizer.Valid;
      hide Dec.Channelizer.Abstract;
      hide Gaps.GapTracker.Valid;
      hide Sending;
      hide Sealed;
      hide SinkAgrees;
      hide Parse;
      hide RunStream;
      hide Values;
      RunStreamSnoc(channelizer.design, inputRate, fed, buf);
      MeterRunSnoc(channelizer.design, inputRate, SettlingFigure(), fed, buf);
      malformed := malformed + 1;
      stream := stream.(malformed := stream.malformed + 1);
      fed := fed + [buf];
    }

    /** One raw datagram: parsed strictly, checked for loss, channelized. A
        malformed one is counted, not fatal. */
    method ProcessDatagram(buf: seq<byte>) returns (outcome: PacketOutcome)
      requires Valid()
      modifies this, gapTracker, sink, channelizer.repr
      ensures Valid() && fed == old(fed) + [buf] && unframed == old(unframed)
      ensures outcome.malformed <==> Parse(buf).Err?
      ensures outcome.samplesIn == |stream.input| - |old(stream).input|
      ensures outcome.samplesOut == |Values(stream.line)| - |Values(old(stream).line)|
      ensures stream.gaps == old(stream).gaps + if outcome.gap.Some? then [outcome.gap.value] else []
    {
      hide Running;
      hide Dec.Run;
      hide Dec.ValidDesign;
      hide Dec.Countable;
      hide Parse;
      hide Fed;
      hide RunStream;
      hide Values;
      var parsed := Parse(buf);
      if parsed.Err? {
        CountMalformed(buf);
        assert stream.gaps + [] == stream.gaps;
        return PacketOutcome(0, 0, None, true);
      }
      StepCounts(channelizer.design, stream, buf, inputRate);
      RunStreamSnoc(channelizer.design, inputRate, fed, buf);
      MeterRunSnoc(channelizer.design, inputRate, SettlingFigure(), fed, buf);
      outcome := ProcessPacket(parsed.value, buf);
      fed := fed + [buf];
    }

    /** Send the partial packet and mirror the sink's losses once more. */
    method SendLast()
      requires SinkAgrees() && Sending(stream.line, sent, outPacket, outPacketFirst)
      modifies this`outPacket, this`outPacketFirst, this`sent, this`sinkDroppedSeen, this`packetsDropped, sink
      ensures sink.packets == before + RenderedAll(Packetise(stream.line, 0), outputRate)
      ensures Packetise(stream.line, 0) != [] ==> sink.rate == outputRate
      ensures packetsDropped == sink.dropped
    {
      hide SentOne;
      hide Packetise;
      FlushAll();
      assert sent + [] == sent;
      if sink.dropped > sinkDroppedSeen {
        packetsDropped := packetsDropped + (sink.dropped - sinkDroppedSeen);
        sinkDroppedSeen := sink.dropped;
      }
    }

    /** End of the stream: send the partial packet and report. */
    method Finish() returns (report: Report)
      requires Valid()
      modifies this, sink
      ensures sink.packets == before + RenderedAll(Packetise(stream.line, 0), outputRate)
      ensures Packetise(stream.line, 0) != [] ==> sink.rate == outputRate
      ensures packetsDropped == sink.dropped
      ensures stream == old(stream) && fed == old(fed) && unframed == old(unframed)
      ensures stream == RunStream(channelizer.design, inputRate, fed)
      ensures report.ok <==> stream.malformed + unframed == 0 && sink.dropped == 0 && stream.gap.gaps == 0
      ensures report.packetsReceived == |stream.spans| && report.malformedPackets == stream.malformed + unframed
      ensures report.packetsDropped == sink.dropped
      ensures report.seqGaps == stream.gap.gaps && report.gapSamples == stream.gap.gapSamples
      ensures report.samplesIn == |stream.input| && report.samplesOut == |stream.line|
      ensures report.decimation == Factor(channelizer.design) && report.discontinuities == stream.gaps
      ensures var settling := Cascade.Settling(channelizer.design.stages);
        report.settlingSamples == SettlingFigure() && (report.settlingSamples == settling <==> settling <= USIZE_MAX)
      ensures Gauges(report.outputLevel, report.peakOffset) == Readings(instruments, outputRate, passband,
        MeterRun(channelizer.design, inputRate, SettlingFigure(), fed).blocks)
      ensures |stream.input| < SettlingFigure() ==> report.outputLevel == None && report.peakOffset == None
      ensures report.inputRate == inputRate && report.outputRate == outputRate && report.offset == offset
      ensures report.passband == passband && report.stopbandDb == stopbandDb
    {
      hide Dec.Channelizer.Valid;
      hide Dec.Channelizer.Abstract;
      hide Gaps.GapTracker.Valid;
      hide Dec.ValidDesign;
      hide Dec.Countable;
      hide Sending;
      hide Sealed;
      hide SinkAgrees;
      hide RunStream;
      hide MeterRun;
      hide Readings;
      hide Dec.WordSettling;
      hide Packetise;
      hide Values;
      if |stream.input| < SettlingFigure() {
        UnreadUntilSettled(channelizer.design, inputRate, SettlingFigure(), fed, instruments, outputRate, passband);
      }
      CountsExactly(channelizer.design);
      SendLast();
      var decimation := channelizer.Decimation();
      var settling := channelizer.SettlingSamples();
      report := Report(malformed == 0 && sink.dropped == 0 && seqGaps == 0, packetsReceived, malformed, sink.dropped,
                       seqGaps, gapSamples, samplesInTotal, samplesOutTotal, inputRate, outputRate, decimation,
                       settling, offset, passband, stopbandDb, level, peak, discontinuities);
    }

    /** A packet file from start to end: every slice the cursor yields is fed as
        a datagram, and a framing error, which ends the walk, is counted. */
    method Replay(bytes: seq<byte>)
      requires Valid()
      modifies this, gapTracker, sink, channelizer.repr
      ensures Valid() && fed == old(fed) + Walk(bytes).slices
      ensures unframed == old(unframed) + if Walk(bytes).error.Some? then 1 else 0
    {
      hide *;
      var cursor := new PacketCursor(bytes);
      RestAtStart(cursor);
      ghost var whole, got, failed := Walk(bytes), [], false;
      WalkingStarts(bytes);
      while true
        invariant Valid() && fresh(cursor)
        invariant fed == old(fed) + got && unframed == old(unframed) + if failed then 1 else 0
        invariant Walking(whole, got, failed, cursor.Rest()) && (failed ==> cursor.Rest() == [])
        decreases |cursor.Rest()|
      {
        ghost var rest := cursor.Rest();
        if rest == [] { WalkingEnds(whole, got, failed); } else { WalkingOn(whole, got, rest); }
        var next := cursor.NextSlice();
        match next {
          case None => break;
          case Some(Ok(slice)) =>
            got := got + [slice];
            var outcome := ProcessDatagram(slice);
          case Some(Err(e)) =>
            NoteMalformed();
            failed := true;
        }
      }
    }
  }

  /** The whole system on its own output: serialise any samples, 1 to 65531 a
      packet, replay the bytes into a new service and finish. The report is ok
      (if the transport lost nothing), and the sink holds the chain's output for
      exactly those samples cut into packets from index zero: how the input was
      framed, and where it started, leave no trace. */
  method StreamThrough(service: ChannelizerService, iq: seq<Iq>, r: nat, spp: nat, s0: nat) returns (report: Report)
    requires service.Valid() && service.fed == [] && service.unframed == 0 && service.before == []
    requires 1 <= spp <= MAX_SAMPLES && Fits(s0, |iq|, r) && service.inputRate == r as real
    modifies service, service.gapTracker, service.sink, service.channelizer.repr
    ensures var d := service.channelizer.design;
      var out := Dec.Run(d, Dec.FreshState(d), Sc16ToIq(IqToSc16(iq))).1;
      && service.sink.packets == RenderedAll(Packetise(Slots(out), 0), service.outputRate)
      && (out != [] ==> service.sink.rate == service.outputRate)
      && report.samplesOut == |out| && report.discontinuities == []
      && (report.ok <==> service.sink.dropped == 0)
  {
    hide *;
    FitsRate(s0, |iq|, r);
    var bytes, packets := Vita49Stream(iq, r as real, spp, s0 as real / r as real);
    DesignValid(service);
    StreamEndToEnd(iq, r, spp, s0);
    FramedStreamChannelizes(service.channelizer.design, iq, r, spp, s0);
    RunsAreKept(service.channelizer.design, r as real, Walk(bytes).slices);
    GapRecords(service.channelizer.design, RunStream(service.channelizer.design, r as real, Walk(bytes).slices));
    service.Replay(bytes);
    assert [] + Walk(bytes).slices == Walk(bytes).slices;
    PacketsOfSamples(Dec.Run(service.channelizer.design, Dec.FreshState(service.channelizer.design),
                             Sc16ToIq(IqToSc16(iq))).1);
    report := service.Finish();
    assert [] + service.sink.packets == service.sink.packets;
  }

  /** The chain of a plan whose factors multiply to a word. */
  lemma DesignCounts(d: Dec.Design, plan: seq<StagePlan>)
    requires Dec.ValidDesign(d) && Dec.Realises(d.stages, plan) && FactorProduct(plan) <= USIZE_MAX
    ensures Dec.Countable(d)
  {
    Dec.PlanFigures(d.stages, plan);
  }

  lemma PacketsOfSamples(ys: seq<Iq>)
    ensures ys != [] ==> Packetise(Slots(ys), 0) != []
  {
  }

  lemma SamplesKeepCounts(d: Dec.Design, s: Stream, interleaved: seq<I16>)
    requires Dec.ValidDesign(d) && Dec.ValidState(d, s.chan)
    ensures AfterSamples(d, s, interleaved).gap == s.gap && AfterSamples(d, s, interleaved).gaps == s.gaps
  {
  }

  lemma CountsExactly(d: Dec.Design)
    requires Dec.Countable(d)
    ensures Dec.ValidDesign(d) && Factor(d) <= USIZE_MAX
  {
  }

  lemma DesignValid(service: ChannelizerService)
    requires service.Valid()
    ensures Dec.ValidDesign(service.channelizer.design) && service.outputRate != 0.0
  {
  }

  lemma GapRecords(d: Dec.Design, s: Stream)
    requires Dec.ValidDesign(d) && Kept(d, s)
    ensures |s.gaps| == s.gap.gaps
  {
  }

  /** What an accepted datagram adds to each count. */
  lemma StepCounts(d: Dec.Design, s: Stream, buf: seq<byte>, rate: real)
    requires Dec.ValidDesign(d) && Dec.ValidState(d, s.chan)
    ensures Parse(buf).Ok? ==>
      var r := Fed(d, rate, s, buf);
      && r.malformed == s.malformed && |r.spans| == |s.spans| + 1
      && |r.input| == |s.input| + SpanOf(buf, rate).samples
      && |Values(r.line)| == |Values(s.line)| + |Dec.Run(d, s.chan, Sc16ToIq(SamplesOf(buf))).1|
  {
    hide Dec.Run;
    hide Dec.ValidDesign;
    hide Dec.Countable;
    hide Dec.ValidState;
    hide SkipFor;
    hide Parse;
    if Parse(buf).Ok? {
      var skipped := AfterGap(d, s, SpanOf(buf, rate));
      AfterGapChain(d, s, SpanOf(buf, rate));
      PacketPairs(buf, rate);
      var run := Dec.Run(d, s.chan, Sc16ToIq(SamplesOf(buf)));
      ValuesAppend(skipped.line, Slots(run.1));
      ValuesOfSlots(run.1);
    }
  }

  lemma SlotsSnoc(ys: seq<Iq>, k: nat)
    requires k < |ys|
    ensures Slots(ys[..k + 1]) == Slots(ys[..k]) + [Sample(ys[k])]
  {
  }

  /** Nothing in hand counts as having been sent. */
  lemma SendingEmptied(line: seq<Slot>, sent: seq<OutPacket>, filling: seq<Iq>, first: nat, next: nat)
    requires Sending(line, sent, filling, first)
    ensures Sending(line, sent + Unsent(filling, first), [], next)
  {
    if filling == [] {
      assert sent + [] == sent;
    } else {
      SendingFlush(line, sent, filling, first, next);
    }
  }

  lemma SkipIs(d: Dec.Design, missing: nat, decimation: nat)
    requires Dec.ValidDesign(d) && decimation == Factor(d)
    ensures SkipFor(d, missing) == CeilDiv(missing, decimation)
  {
  }

  lemma RenderedSnoc(ps: seq<OutPacket>, p: OutPacket, outputRate: real)
    requires outputRate != 0.0
    ensures RenderedAll(ps + [p], outputRate) == RenderedAll(ps, outputRate) + [Rendered(p, outputRate)]
  {
  }
}
