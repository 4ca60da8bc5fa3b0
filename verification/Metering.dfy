/** Level and offset measurement: which output samples reach the gauges. */
module Metering {
  import opened Numerics
  import opened Samples
  import opened Bytes
  import opened Vita49
  import opened Vectors
  import opened Pipeline
  import Dec = Decimator

  /** Output samples accumulated before they are measured. */
  const MEASURE_BLOCK: nat := 4096

  /** The window being filled, and the blocks measured so far. */
  datatype Meter = Meter(window: seq<Iq>, blocks: seq<seq<Iq>>)

  const IDLE: Meter := Meter([], [])

  /** One packet's output joins the window once the chain has settled; a window
      that is full is measured whole. */
  function Collected(m: Meter, produced: seq<Iq>, settled: bool): Meter {
    if !settled then m
    else
      var window := m.window + produced;
      if |window| >= MEASURE_BLOCK then Meter([], m.blocks + [window]) else Meter(window, m.blocks)
  }

  ghost function MeterFed(d: Dec.Design, settling: nat, s: Stream, m: Meter, datagram: seq<byte>): Meter
    requires Dec.ValidDesign(d) && Dec.ValidState(d, s.chan)
  {
    if Parse(datagram).Err? then m
    else
      var samples := SamplesOf(datagram);
      Collected(m, Dec.Run(d, s.chan, Sc16ToIq(samples)).1, |s.input| + |samples| / 2 >= settling)
  }

  ghost function MeterRun(d: Dec.Design, rate: real, settling: nat, datagrams: seq<seq<byte>>): Meter
    requires Dec.ValidDesign(d)
  {
    if datagrams == [] then IDLE
    else
      var n := |datagrams| - 1;
      MeterFed(d, settling, RunStream(d, rate, datagrams[..n]), MeterRun(d, rate, settling, datagrams[..n]), datagrams[n])
  }

  lemma MeterRunSnoc(d: Dec.Design, rate: real, settling: nat, datagrams: seq<seq<byte>>, last: seq<byte>)
    requires Dec.ValidDesign(d)
    ensures MeterRun(d, rate, settling, datagrams + [last])
         == MeterFed(d, settling, RunStream(d, rate, datagrams), MeterRun(d, rate, settling, datagrams), last)
  {
    hide MeterFed;
    hide RunStream;
    assert (datagrams + [last])[..|datagrams|] == datagrams;
  }

  // ---------- the gauges ----------

  /** What is read off a block: its level, unless it is silent, and its strongest
      component within a band, if there is one. */
  datatype Instruments = Instruments(level: seq<Iq> -> Option<real>,
                                     peak: (seq<Iq>, real, real, real) -> Option<real>)

  datatype Gauges = Gauges(level: Option<real>, peak: Option<real>)

  function Newer(reading: Option<real>, shown: Option<real>): Option<real> {
    if reading.Some? then reading else shown
  }

  /** Each gauge shows its last reading. */
  ghost function Readings(ins: Instruments, outputRate: real, band: real, blocks: seq<seq<Iq>>): Gauges {
    if blocks == [] then Gauges(None, None)
    else
      var n := |blocks| - 1;
      var before := Readings(ins, outputRate, band, blocks[..n]);
      Gauges(Newer(ins.level(blocks[n]), before.level),
             Newer(ins.peak(blocks[n], outputRate, -band, band), before.peak))
  }

  lemma ReadingsSnoc(ins: Instruments, outputRate: real, band: real, blocks: seq<seq<Iq>>, block: seq<Iq>)
    ensures var before := Readings(ins, outputRate, band, blocks);
      Readings(ins, outputRate, band, blocks + [block])
        == Gauges(Newer(ins.level(block), before.level), Newer(ins.peak(block, outputRate, -band, band), before.peak))
  {
    assert (blocks + [block])[..|blocks|] == blocks;
  }

  /** The reading shown is that of the latest block that has one. */
  ghost predicate LatestOf(shown: Option<real>, read: seq<Iq> -> Option<real>, blocks: seq<seq<Iq>>) {
    if shown.None? then forall k :: 0 <= k < |blocks| ==> read(blocks[k]).None?
    else exists k :: LatestAt(shown, read, blocks, k)
  }

  ghost predicate LatestAt(shown: Option<real>, read: seq<Iq> -> Option<real>, blocks: seq<seq<Iq>>, k: nat) {
    && k < |blocks| && read(blocks[k]) == shown
    && forall j :: k < j < |blocks| ==> read(blocks[j]).None?
  }

  ghost function PeakWithin(ins: Instruments, outputRate: real, band: real): seq<Iq> -> Option<real> {
    block => ins.peak(block, outputRate, -band, band)
  }

  lemma LatestGrows(shown: Option<real>, read: seq<Iq> -> Option<real>, blocks: seq<seq<Iq>>)
    requires blocks != [] && LatestOf(shown, read, blocks[..|blocks| - 1])
    ensures var block := blocks[|blocks| - 1];
      LatestOf(if read(block).Some? then read(block) else shown, read, blocks)
  {
    var n := |blocks| - 1;
    if read(blocks[n]).Some? {
      assert LatestAt(read(blocks[n]), read, blocks, n);
    } else if shown.Some? {
      var k: nat :| LatestAt(shown, read, blocks[..n], k);
      forall j | k < j < |blocks|
        ensures read(blocks[j]).None?
      {
        if j < n { assert read(blocks[..n][j]).None?; }
      }
      assert LatestAt(shown, read, blocks, k);
    } else {
      forall k | 0 <= k < |blocks|
        ensures read(blocks[k]).None?
      {
        if k < n { assert read(blocks[..n][k]).None?; }
      }
    }
  }

  /** Both gauges show the latest block that gave them a reading, the peak being
      looked for within the band on either side. */
  lemma {:induction false} GaugesShowLatest(ins: Instruments, outputRate: real, band: real, blocks: seq<seq<Iq>>)
    ensures var g := Readings(ins, outputRate, band, blocks);
      && LatestOf(g.level, ins.level, blocks)
      && LatestOf(g.peak, PeakWithin(ins, outputRate, band), blocks)
  {
    if blocks != [] {
      hide LatestOf;
      var n := |blocks| - 1;
      var before := Readings(ins, outputRate, band, blocks[..n]);
      GaugesShowLatest(ins, outputRate, band, blocks[..n]);
      LatestGrows(before.level, ins.level, blocks);
      LatestGrows(before.peak, PeakWithin(ins, outputRate, band), blocks);
    }
  }

  // ---------- only settled output is measured ----------

  ghost function Laid(blocks: seq<seq<Iq>>): seq<Iq> {
    if blocks == [] then [] else Laid(blocks[..|blocks| - 1]) + blocks[|blocks| - 1]
  }

  /** Where measuring starts: datagram k is the one with which the samples in reach
      the settling figure. A figure of zero is reached before any. */
  ghost predicate SettlesAt(d: Dec.Design, rate: real, settling: nat, datagrams: seq<seq<byte>>, k: nat)
    requires Dec.ValidDesign(d)
  {
    if settling == 0 then k == 0
    else
      && k < |datagrams|
      && |RunStream(d, rate, datagrams[..k]).input| < settling
      && settling <= |RunStream(d, rate, datagrams[..k + 1]).input|
  }

  /** The meter holds, uncut and in order, what the chain put out after the input
      `before`. */
  ghost predicate MeasuresAfter(d: Dec.Design, before: seq<Iq>, input: seq<Iq>, m: Meter)
    requires Dec.ValidDesign(d)
  {
    && before <= input && |Outputs(d, before)| <= |Outputs(d, input)|
    && Laid(m.blocks) + m.window == Outputs(d, input)[|Outputs(d, before)|..]
  }

  ghost predicate WholeBlocks(m: Meter) {
    |m.window| < 4096 && forall k :: 0 <= k < |m.blocks| ==> |m.blocks[k]| >= 4096
  }

  lemma CollectedLaid(m: Meter, produced: seq<Iq>)
    requires WholeBlocks(m)
    ensures var r := Collected(m, produced, true);
      WholeBlocks(r) && Laid(r.blocks) + r.window == (Laid(m.blocks) + m.window) + produced
  {
    var window := m.window + produced;
    if |window| >= MEASURE_BLOCK {
      assert (m.blocks + [window])[..|m.blocks|] == m.blocks;
      assert (Laid(m.blocks) + window) + [] == (Laid(m.blocks) + m.window) + produced;
    }
  }

  /** One packet more, after settling. */
  lemma MeasuresOn(d: Dec.Design, before: seq<Iq>, input: seq<Iq>, iq: seq<Iq>, m: Meter)
    requires Dec.ValidDesign(d) && MeasuresAfter(d, before, input, m) && WholeBlocks(m)
    ensures var r := Collected(m, Dec.Run(d, Dec.Run(d, Dec.FreshState(d), input).0, iq).1, true);
      MeasuresAfter(d, before, input + iq, r) && WholeBlocks(r)
  {
    hide Dec.Run;
    hide Dec.FreshState;
    hide Collected;
    var produced := Dec.Run(d, Dec.Run(d, Dec.FreshState(d), input).0, iq).1;
    Dec.RunAppend(d, Dec.FreshState(d), input, iq);
    CollectedLaid(m, produced);
    var out, skip := Outputs(d, input), |Outputs(d, before)|;
    assert (out + produced)[skip..] == out[skip..] + produced;
  }

  /** The packet with which the chain settles. */
  lemma MeasuresFirst(d: Dec.Design, input: seq<Iq>, iq: seq<Iq>)
    requires Dec.ValidDesign(d)
    ensures var r := Collected(IDLE, Dec.Run(d, Dec.Run(d, Dec.FreshState(d), input).0, iq).1, true);
      MeasuresAfter(d, input, input + iq, r) && WholeBlocks(r)
  {
    hide Outputs;
    NothingYet(d, input);
    MeasuresOn(d, input, input, iq, IDLE);
  }

  lemma NothingYet(d: Dec.Design, input: seq<Iq>)
    requires Dec.ValidDesign(d)
    ensures MeasuresAfter(d, input, input, IDLE) && WholeBlocks(IDLE)
  {
    hide Outputs;
    assert Laid(IDLE.blocks) + IDLE.window == [];
  }

  lemma NotCollected(m: Meter, produced: seq<Iq>)
    ensures Collected(m, produced, false) == m
  {
  }

  /** Over every run: while fewer samples are in than the settling figure, nothing
      is measured. From then on exactly what the chain puts out for the datagram
      that reached the figure, and for every later one, is measured, in order and
      in blocks of at least 4096. */
  lemma {:induction false} MeasuredOnceSettled(d: Dec.Design, rate: real, settling: nat, datagrams: seq<seq<byte>>)
    returns (k: nat)
    requires Dec.ValidDesign(d)
    ensures var input, m := RunStream(d, rate, datagrams).input, MeterRun(d, rate, settling, datagrams);
      && WholeBlocks(m)
      && if |input| < settling then m == IDLE
         else
           && k <= |datagrams| && SettlesAt(d, rate, settling, datagrams, k)
           && MeasuresAfter(d, RunStream(d, rate, datagrams[..k]).input, input, m)
  {
    hide *;
    k := 0;
    if datagrams == [] {
      NothingMeasured(d, rate, settling);
    } else {
      var n := |datagrams| - 1;
      var before := RunStream(d, rate, datagrams[..n]);
      var m := MeterRun(d, rate, settling, datagrams[..n]);
      var was := MeasuredOnceSettled(d, rate, settling, datagrams[..n]);
      RunsAreKept(d, rate, datagrams[..n]);
      KeptChain(d, before);
      assert datagrams[..n] + [datagrams[n]] == datagrams;
      RunStreamSnoc(d, rate, datagrams[..n], datagrams[n]);
      MeterRunSnoc(d, rate, settling, datagrams[..n], datagrams[n]);
      var iq := Sc16ToIq(SamplesOf(datagrams[n]));
      FedInput(d, rate, before, datagrams[n]);
      if Parse(datagrams[n]).Ok? {
        MeterFedIs(d, settling, before, m, datagrams[n]);
      } else {
        MalformedUnmeasured(d, rate, settling, before, m, datagrams[n]);
      }
      if |before.input| >= settling {
        k := was;
        SettlesEarlier(d, rate, settling, datagrams, k);
        if Parse(datagrams[n]).Ok? {
          MeasuresOn(d, RunStream(d, rate, datagrams[..k]).input, before.input, iq, m);
        }
      } else if |before.input| + |iq| >= settling {
        k := n;
        SettlesLast(d, rate, settling, datagrams);
        MeasuresFirst(d, before.input, iq);
      } else {
        NotCollected(m, Dec.Run(d, before.chan, iq).1);
        IdleIsWhole();
      }
    }
  }

  lemma IdleIsWhole()
    ensures WholeBlocks(IDLE)
  {
  }

  lemma SettlesEarlier(d: Dec.Design, rate: real, settling: nat, datagrams: seq<seq<byte>>, k: nat)
    requires Dec.ValidDesign(d) && datagrams != [] && k <= |datagrams| - 1
    requires SettlesAt(d, rate, settling, datagrams[..|datagrams| - 1], k)
    ensures SettlesAt(d, rate, settling, datagrams, k)
    ensures datagrams[..|datagrams| - 1][..k] == datagrams[..k]
  {
    hide RunStream;
    var pre := datagrams[..|datagrams| - 1];
    assert pre[..k] == datagrams[..k];
    if settling > 0 { assert pre[..k + 1] == datagrams[..k + 1]; }
  }

  lemma SettlesLast(d: Dec.Design, rate: real, settling: nat, datagrams: seq<seq<byte>>)
    requires Dec.ValidDesign(d) && datagrams != []
    requires |RunStream(d, rate, datagrams[..|datagrams| - 1]).input| < settling <= |RunStream(d, rate, datagrams).input|
    ensures SettlesAt(d, rate, settling, datagrams, |datagrams| - 1)
  {
    hide RunStream;
    assert datagrams[..|datagrams|] == datagrams;
  }

  /** So the gauges show nothing before that. */
  lemma UnreadUntilSettled(d: Dec.Design, rate: real, settling: nat, datagrams: seq<seq<byte>>,
                           ins: Instruments, outputRate: real, band: real)
    requires Dec.ValidDesign(d) && |RunStream(d, rate, datagrams).input| < settling
    ensures Readings(ins, outputRate, band, MeterRun(d, rate, settling, datagrams).blocks) == Gauges(None, None)
  {
    hide RunStream;
    hide MeterRun;
    var k := MeasuredOnceSettled(d, rate, settling, datagrams);
  }

  lemma KeptChain(d: Dec.Design, s: Stream)
    requires Dec.ValidDesign(d) && Kept(d, s)
    ensures s.chan == Dec.Run(d, Dec.FreshState(d), s.input).0
  {
    hide Dec.Run;
    hide Dec.FreshState;
  }

  lemma NothingMeasured(d: Dec.Design, rate: real, settling: nat)
    requires Dec.ValidDesign(d)
    ensures MeterRun(d, rate, settling, []) == IDLE && WholeBlocks(IDLE)
    ensures RunStream(d, rate, []).input == []
    ensures settling == 0 ==> SettlesAt(d, rate, settling, [], 0)
    ensures MeasuresAfter(d, RunStream(d, rate, [][..0]).input, [], IDLE)
  {
    hide Dec.FreshState;
    NothingYet(d, []);
  }

  lemma MeterFedIs(d: Dec.Design, settling: nat, s: Stream, m: Meter, datagram: seq<byte>)
    requires Dec.ValidDesign(d) && Dec.ValidState(d, s.chan) && Parse(datagram).Ok?
    ensures var iq := Sc16ToIq(SamplesOf(datagram));
      MeterFed(d, settling, s, m, datagram) == Collected(m, Dec.Run(d, s.chan, iq).1, |s.input| + |iq| >= settling)
  {
    hide Dec.Run;
    hide Dec.ValidState;
    hide Parse;
    hide SamplesOf;
    hide Collected;
  }

  lemma MalformedUnmeasured(d: Dec.Design, rate: real, settling: nat, s: Stream, m: Meter, datagram: seq<byte>)
    requires Dec.ValidDesign(d) && Dec.ValidState(d, s.chan) && Parse(datagram).Err?
    ensures MeterFed(d, settling, s, m, datagram) == m && Fed(d, rate, s, datagram).input == s.input
  {
    hide Dec.ValidState;
    hide Parse;
  }
}
