/** The output timeline of a run, and the packets it is cut into. */
module Timeline {
  import opened Numerics
  import opened Samples

  /** Output samples accumulated before a packet is sent. */
  const OUTPUT_PACKET_SAMPLES: nat := 1024

  /** One output instant: a sample, or time that input loss skipped. */
  datatype Slot = Hole | Sample(y: Iq)

  /** A packet by the output index of its first sample. */
  datatype OutPacket = OutPacket(first: nat, samples: seq<Iq>)

  function PacketEnd(p: OutPacket): nat { p.first + |p.samples| }

  ghost function Holes(n: nat): (line: seq<Slot>)
    ensures |line| == n && forall i :: 0 <= i < n ==> line[i].Hole?
  {
    seq(n, _ => Hole)
  }

  ghost function Slots(ys: seq<Iq>): (line: seq<Slot>)
    ensures |line| == |ys| && forall i :: 0 <= i < |ys| ==> line[i] == Sample(ys[i])
  {
    seq(|ys|, i requires 0 <= i < |ys| => Sample(ys[i]))
  }

  /** The samples on a stretch of the timeline. */
  ghost function Values(line: seq<Slot>): (ys: seq<Iq>)
    ensures |ys| <= |line|
  {
    if line == [] then []
    else Values(line[..|line| - 1]) + (if line[|line| - 1].Sample? then [line[|line| - 1].y] else [])
  }

  lemma {:induction false} ValuesAppend(a: seq<Slot>, b: seq<Slot>)
    ensures Values(a + b) == Values(a) + Values(b)
  {
    if b == [] {
      assert a + b == a;
    } else {
      hide Values;
      var n := |b| - 1;
      ValuesAppend(a, b[..n]);
      assert a + b == (a + b[..n]) + [b[n]] && b[..n] + [b[n]] == b;
      ValuesSnoc(a + b[..n], b[n]);
      ValuesSnoc(b[..n], b[n]);
    }
  }

  lemma ValuesSnoc(line: seq<Slot>, s: Slot)
    ensures Values(line + [s]) == Values(line) + (if s.Sample? then [s.y] else [])
  {
    assert (line + [s])[..|line|] == line;
  }

  lemma {:induction false} ValuesOfSlots(ys: seq<Iq>)
    ensures Values(Slots(ys)) == ys
  {
    if ys != [] {
      var n := |ys| - 1;
      ValuesOfSlots(ys[..n]);
      assert Slots(ys)[..n] == Slots(ys[..n]);
    }
  }

  lemma {:induction false} ValuesOfHoles(n: nat)
    ensures Values(Holes(n)) == []
  {
    if n > 0 {
      ValuesOfHoles(n - 1);
      assert Holes(n)[..n - 1] == Holes(n - 1);
    }
  }

  // ---------- cutting the timeline ----------

  /** The samples at the head of a stretch, at most max of them. */
  ghost function RunLength(line: seq<Slot>, max: nat): (n: nat)
    ensures n <= max && n <= |line|
    ensures forall i :: 0 <= i < n ==> line[i].Sample?
    ensures n < max && n < |line| ==> line[n].Hole?
  {
    if max == 0 || line == [] || line[0].Hole? then 0 else 1 + RunLength(line[1..], max - 1)
  }

  ghost function Contents(line: seq<Slot>): (ys: seq<Iq>)
    requires forall i :: 0 <= i < |line| ==> line[i].Sample?
    ensures |ys| == |line| && forall i :: 0 <= i < |line| ==> line[i] == Sample(ys[i])
  {
    seq(|line|, i requires 0 <= i < |line| => line[i].y)
  }

  /** Skip holes; cut each unbroken run of samples into full packets and at most
      one short one. */
  ghost function Packetise(line: seq<Slot>, at: nat): seq<OutPacket>
    decreases |line|
  {
    if line == [] then []
    else if line[0].Hole? then Packetise(line[1..], at + 1)
    else
      var n := RunLength(line, OUTPUT_PACKET_SAMPLES);
      [OutPacket(at, Contents(line[..n]))] + Packetise(line[n..], at + n)
  }

  // ---------- what the packets guarantee ----------

  /** Packet p shows exactly the timeline from its first index on. */
  ghost predicate Shows(line: seq<Slot>, at: nat, p: OutPacket) {
    && 1 <= |p.samples| <= 1024
    && at <= p.first && PacketEnd(p) <= at + |line|
    && (forall j :: 0 <= j < |p.samples| ==> line[p.first - at + j] == Sample(p.samples[j]))
    && (|p.samples| < 1024 ==>
          PacketEnd(p) == at + |line| || line[PacketEnd(p) - at].Hole?)
  }

  ghost predicate InOrder(ps: seq<OutPacket>) {
    forall k :: 0 < k < |ps| ==> PacketEnd(ps[k - 1]) <= ps[k].first
  }

  ghost predicate CoveredBy(p: OutPacket, i: int) {
    p.first <= i < PacketEnd(p)
  }

  ghost predicate Covered(ps: seq<OutPacket>, i: int) {
    exists k :: 0 <= k < |ps| && CoveredBy(ps[k], i)
  }

  ghost function Flattened(ps: seq<OutPacket>): seq<Iq> {
    if ps == [] then [] else ps[0].samples + Flattened(ps[1..])
  }

  /** The packets tile the samples of the timeline: each shows 1 to 1024
      consecutive instants, a short one stands before a hole or at the end, they
      come in order without overlap, an index is inside one exactly when it
      holds a sample, and their payloads joined are all the samples. */
  ghost predicate Tiles(line: seq<Slot>, at: nat, ps: seq<OutPacket>) {
    AllShow(line, at, ps) && InOrder(ps) && CoverExactly(line, at, ps) && Flattened(ps) == Values(line)
  }

  ghost predicate AllShow(line: seq<Slot>, at: nat, ps: seq<OutPacket>) {
    forall k :: 0 <= k < |ps| ==> Shows(line, at, ps[k])
  }

  ghost predicate CoverExactly(line: seq<Slot>, at: nat, ps: seq<OutPacket>) {
    forall i :: at <= i < at + |line| ==> (Covered(ps, i) <==> line[i - at].Sample?)
  }

  lemma {:induction false} PacketsTile(line: seq<Slot>, at: nat)
    ensures Tiles(line, at, Packetise(line, at))
    decreases |line|
  {
    hide Tiles;
    if line == [] {
      NothingTiles(at);
    } else if line[0].Hole? {
      PacketsTile(line[1..], at + 1);
      TileAfterHole(line, at, Packetise(line[1..], at + 1));
    } else {
      var n := RunLength(line, OUTPUT_PACKET_SAMPLES);
      assert n > 0;
      PacketsTile(line[n..], at + n);
      TileAfterRun(line, at, n, Packetise(line[n..], at + n));
    }
  }

  lemma NothingTiles(at: nat)
    ensures Tiles([], at, [])
  {
  }

  lemma ShowsLater(line: seq<Slot>, at: nat, n: nat, p: OutPacket)
    requires n <= |line| && Shows(line[n..], at + n, p)
    ensures Shows(line, at, p)
  {
    forall j | 0 <= j < |p.samples|
      ensures line[p.first - at + j] == Sample(p.samples[j])
    {
      assert line[n..][p.first - (at + n) + j] == line[p.first - at + j];
    }
    if PacketEnd(p) < at + |line| {
      assert line[n..][PacketEnd(p) - (at + n)] == line[PacketEnd(p) - at];
    }
  }

  lemma NotCoveredBefore(line: seq<Slot>, at: nat, ps: seq<OutPacket>, i: int)
    requires i < at && forall k :: 0 <= k < |ps| ==> Shows(line, at, ps[k])
    ensures !Covered(ps, i)
  {
  }

  lemma TileAfterHole(line: seq<Slot>, at: nat, ps: seq<OutPacket>)
    requires line != [] && line[0].Hole? && Tiles(line[1..], at + 1, ps)
    ensures Tiles(line, at, ps)
  {
    hide Shows;
    hide Covered;
    forall k | 0 <= k < |ps|
      ensures Shows(line, at, ps[k])
    {
      ShowsLater(line, at, 1, ps[k]);
    }
    forall i | at <= i < at + |line|
      ensures Covered(ps, i) <==> line[i - at].Sample?
    {
      if i > at {
        assert line[1..][i - at - 1] == line[i - at];
      } else {
        NotCoveredBefore(line[1..], at + 1, ps, i);
      }
    }
    ValuesAppend(line[..1], line[1..]);
    assert line == line[..1] + line[1..] && line[..1][..0] == [];
  }

  /** The packet cut from a run shows it. */
  lemma RunShows(line: seq<Slot>, at: nat, n: nat)
    requires 0 < n <= |line| && n == RunLength(line, OUTPUT_PACKET_SAMPLES)
    ensures Shows(line, at, OutPacket(at, Contents(line[..n])))
    ensures Values(line[..n]) == Contents(line[..n])
    ensures PacketEnd(OutPacket(at, Contents(line[..n]))) == at + n
  {
    assert Slots(Contents(line[..n])) == line[..n];
    ValuesOfSlots(Contents(line[..n]));
  }

  lemma TileAfterRun(line: seq<Slot>, at: nat, n: nat, rest: seq<OutPacket>)
    requires 0 < n <= |line| && n == RunLength(line, OUTPUT_PACKET_SAMPLES) && Tiles(line[n..], at + n, rest)
    ensures Tiles(line, at, [OutPacket(at, Contents(line[..n]))] + rest)
  {
    hide *;
    var head := OutPacket(at, Contents(line[..n]));
    TilesParts(line[n..], at + n, rest);
    RunShows(line, at, n);
    ShowAfterRun(line, at, n, head, rest);
    RunCovers(line, at, n, head, rest);
    FirstAfter(line[n..], at + n, rest);
    OrderedAfter(at + n, head, rest);
    FlattenedCons(head, rest);
    ValuesAppend(line[..n], line[n..]);
    assert line == line[..n] + line[n..];
    TilesWhole(line, at, [head] + rest);
  }

  lemma TilesParts(line: seq<Slot>, at: nat, ps: seq<OutPacket>)
    requires Tiles(line, at, ps)
    ensures AllShow(line, at, ps) && InOrder(ps) && CoverExactly(line, at, ps) && Flattened(ps) == Values(line)
  {
  }

  lemma TilesWhole(line: seq<Slot>, at: nat, ps: seq<OutPacket>)
    requires AllShow(line, at, ps) && InOrder(ps) && CoverExactly(line, at, ps) && Flattened(ps) == Values(line)
    ensures Tiles(line, at, ps)
  {
  }

  lemma ShowAfterRun(line: seq<Slot>, at: nat, n: nat, head: OutPacket, rest: seq<OutPacket>)
    requires n <= |line| && Shows(line, at, head) && AllShow(line[n..], at + n, rest)
    ensures AllShow(line, at, [head] + rest)
  {
    hide Shows;
    forall k | 0 <= k < |rest|
      ensures Shows(line, at, rest[k])
    {
      ShowsLater(line, at, n, rest[k]);
    }
  }

  lemma RunCovers(line: seq<Slot>, at: nat, n: nat, head: OutPacket, rest: seq<OutPacket>)
    requires n <= |line| && head.first == at && PacketEnd(head) == at + n
    requires forall i :: 0 <= i < n ==> line[i].Sample?
    requires CoverExactly(line[n..], at + n, rest)
    ensures CoverExactly(line, at, [head] + rest)
  {
    hide Covered;
    forall i | at <= i < at + |line|
      ensures Covered([head] + rest, i) <==> line[i - at].Sample?
    {
      if i < at + n {
        HeadCovers(head, rest, i);
      } else {
        assert line[n..][i - at - n] == line[i - at];
        LaterCover(head, rest, i);
      }
    }
  }

  lemma FlattenedCons(head: OutPacket, rest: seq<OutPacket>)
    ensures Flattened([head] + rest) == head.samples + Flattened(rest)
  {
    assert ([head] + rest)[1..] == rest;
  }

  lemma FirstAfter(line: seq<Slot>, at: nat, ps: seq<OutPacket>)
    requires AllShow(line, at, ps)
    ensures ps != [] ==> ps[0].first >= at
  {
  }

  lemma OrderedAfter(at: nat, head: OutPacket, rest: seq<OutPacket>)
    requires PacketEnd(head) == at && InOrder(rest)
    requires rest != [] ==> rest[0].first >= at
    ensures InOrder([head] + rest)
  {
  }

  lemma HeadCovers(head: OutPacket, rest: seq<OutPacket>, i: int)
    requires CoveredBy(head, i)
    ensures Covered([head] + rest, i)
  {
    assert ([head] + rest)[0] == head;
  }

  lemma LaterCover(head: OutPacket, rest: seq<OutPacket>, i: int)
    requires !CoveredBy(head, i)
    ensures Covered([head] + rest, i) <==> Covered(rest, i)
  {
    if Covered(rest, i) {
      var k :| 0 <= k < |rest| && CoveredBy(rest[k], i);
      assert ([head] + rest)[k + 1] == rest[k];
    }
    if Covered([head] + rest, i) {
      var k :| 0 <= k < |[head] + rest| && CoveredBy(([head] + rest)[k], i);
      assert k > 0 && rest[k - 1] == ([head] + rest)[k];
    }
  }

  // ---------- cutting as it goes ----------

  lemma {:induction false} RunLengthSnoc(line: seq<Slot>, s: Slot, max: nat)
    ensures var n := RunLength(line, max);
      RunLength(line + [s], max) == if n == |line| && n < max && s.Sample? then n + 1 else n
  {
    if max > 0 && line != [] && line[0].Sample? {
      assert (line + [s])[1..] == line[1..] + [s];
      RunLengthSnoc(line[1..], s, max - 1);
    }
  }

  lemma PacketiseNothing(at: nat)
    ensures Packetise([], at) == []
  {
  }

  lemma PacketiseHole(line: seq<Slot>, at: nat)
    requires line != [] && line[0].Hole?
    ensures Packetise(line, at) == Packetise(line[1..], at + 1)
  {
  }

  lemma PacketiseRun(line: seq<Slot>, at: nat, n: nat)
    requires line != [] && line[0].Sample? && n == RunLength(line, OUTPUT_PACKET_SAMPLES)
    ensures n > 0
    ensures Packetise(line, at) == [OutPacket(at, Contents(line[..n]))] + Packetise(line[n..], at + n)
  {
  }

  /** What follows a run that is over does not lengthen it. */
  lemma RunIsOver(line: seq<Slot>, s: Slot, n: nat)
    requires line != [] && line[0].Sample? && n == RunLength(line, OUTPUT_PACKET_SAMPLES)
    requires n < |line| || n == OUTPUT_PACKET_SAMPLES || s.Hole?
    ensures RunLength(line + [s], OUTPUT_PACKET_SAMPLES) == n
    ensures (line + [s])[n..] == line[n..] + [s] && (line + [s])[..n] == line[..n]
    ensures (line + [s])[0] == line[0]
  {
    hide RunLength;
    RunLengthSnoc(line, s, OUTPUT_PACKET_SAMPLES);
    SplitBefore(line, s, n);
  }

  lemma SplitBefore(line: seq<Slot>, s: Slot, n: nat)
    requires n <= |line|
    ensures (line + [s])[n..] == line[n..] + [s] && (line + [s])[..n] == line[..n]
  {
  }

  /** A hole at the end changes no packet. */
  lemma {:induction false} HoleEndsNothing(line: seq<Slot>, at: nat)
    ensures Packetise(line + [Hole], at) == Packetise(line, at)
    decreases |line|
  {
    hide Packetise;
    hide Contents;
    hide RunLength;
    var more := line + [Hole];
    if line == [] {
      PacketiseHole(more, at);
      PacketiseNothing(at);
      PacketiseNothing(at + 1);
      assert more[1..] == line;
    } else if line[0].Hole? {
      PacketiseHole(line, at);
      PacketiseHole(more, at);
      HoleEndsNothing(line[1..], at + 1);
      assert more[1..] == line[1..] + [Hole];
    } else {
      var n := RunLength(line, OUTPUT_PACKET_SAMPLES);
      RunIsOver(line, Hole, n);
      PacketiseRun(line, at, n);
      PacketiseRun(more, at, n);
      HoleEndsNothing(line[n..], at + n);
    }
  }

  /** The last packet can still take the next sample. */
  ghost predicate Open(ps: seq<OutPacket>, end: nat) {
    ps != [] && PacketEnd(ps[|ps| - 1]) == end && |ps[|ps| - 1].samples| < OUTPUT_PACKET_SAMPLES
  }

  ghost function Extended(ps: seq<OutPacket>, end: nat, y: Iq): seq<OutPacket> {
    if Open(ps, end) then
      var last := ps[|ps| - 1];
      ps[..|ps| - 1] + [OutPacket(last.first, last.samples + [y])]
    else ps + [OutPacket(end, [y])]
  }

  /** A sample at the end joins the last packet if that is still open, and
      otherwise starts one. */
  lemma {:induction false} SampleExtends(line: seq<Slot>, at: nat, y: Iq)
    ensures Packetise(line + [Sample(y)], at) == Extended(Packetise(line, at), at + |line|, y)
    decreases |line|
  {
    hide Packetise;
    hide Contents;
    hide RunLength;
    hide Extended;
    var more := line + [Sample(y)];
    if line == [] {
      LoneSample(at, y);
      assert more == [Sample(y)];
    } else if line[0].Hole? {
      PacketiseHole(line, at);
      PacketiseHole(more, at);
      SampleExtends(line[1..], at + 1, y);
      assert more[1..] == line[1..] + [Sample(y)];
    } else {
      var n := RunLength(line, OUTPUT_PACKET_SAMPLES);
      PacketiseRun(line, at, n);
      if n < |line| || n == OUTPUT_PACKET_SAMPLES {
        RunIsOver(line, Sample(y), n);
        PacketiseRun(more, at, n);
        SampleExtends(line[n..], at + n, y);
        ExtendBehind(line, at, n, y);
      } else {
        RunGrows(line, at, n, y);
      }
    }
  }

  lemma LoneSample(at: nat, y: Iq)
    ensures Packetise([Sample(y)], at) == Extended(Packetise([], at), at, y)
  {
    var one := [Sample(y)];
    assert RunLength(one, OUTPUT_PACKET_SAMPLES) == 1 by {
      assert RunLength(one[1..], OUTPUT_PACKET_SAMPLES - 1) == 0;
    }
    assert one[..1] == one && one[1..] == [] && Contents(one) == [y];
  }

  /** The timeline is one unfinished run: its only packet grows. */
  lemma RunGrows(line: seq<Slot>, at: nat, n: nat, y: Iq)
    requires line != [] && line[0].Sample? && n == RunLength(line, OUTPUT_PACKET_SAMPLES)
    requires n == |line| && n < OUTPUT_PACKET_SAMPLES
    ensures Packetise(line + [Sample(y)], at) == Extended(Packetise(line, at), at + |line|, y)
  {
    hide Packetise;
    hide RunLength;
    var more := line + [Sample(y)];
    RunLengthSnoc(line, Sample(y), OUTPUT_PACKET_SAMPLES);
    PacketiseRun(line, at, n);
    PacketiseRun(more, at, n + 1);
    PacketiseNothing(at + n);
    PacketiseNothing(at + n + 1);
    assert line[..n] == line && line[n..] == [];
    assert more[..n + 1] == more && more[n + 1..] == [];
    assert Contents(more) == Contents(line) + [y];
    var old1 := [OutPacket(at, Contents(line))];
    assert old1 + [] == old1 && old1[..0] == [];
  }

  /** Extending the packets behind a finished one. */
  lemma ExtendBehind(line: seq<Slot>, at: nat, n: nat, y: Iq)
    requires line != [] && line[0].Sample? && n == RunLength(line, OUTPUT_PACKET_SAMPLES)
    requires n < |line| || n == OUTPUT_PACKET_SAMPLES
    ensures var head := OutPacket(at, Contents(line[..n]));
      var rest := Packetise(line[n..], at + n);
      Extended([head] + rest, at + |line|, y) == [head] + Extended(rest, at + |line|, y)
  {
    hide Packetise;
    hide Contents;
    var head := OutPacket(at, Contents(line[..n]));
    var rest := Packetise(line[n..], at + n);
    if rest != [] {
      assert ([head] + rest)[|rest|] == rest[|rest| - 1];
      assert ([head] + rest)[..|rest|] == [head] + rest[..|rest| - 1];
    }
  }

  /** What the sender knows as it goes: the packets of the timeline so far are
      those sent and the one being filled. */
  ghost predicate Sending(line: seq<Slot>, sent: seq<OutPacket>, filling: seq<Iq>, first: nat) {
    && |filling| < OUTPUT_PACKET_SAMPLES
    && (filling != [] ==> first + |filling| == |line|)
    && Packetise(line, 0) == sent + Unsent(filling, first)
  }

  ghost function Unsent(filling: seq<Iq>, first: nat): seq<OutPacket> {
    if filling == [] then [] else [OutPacket(first, filling)]
  }

  /** With nothing in hand, the next sample must start a packet. */
  ghost predicate Sealed(line: seq<Slot>, sent: seq<OutPacket>, filling: seq<Iq>) {
    filling == [] ==> !Open(sent, |line|)
  }

  lemma SendingStarts()
    ensures Sending([], [], [], 0) && Sealed([], [], [])
  {
  }

  /** Sending what is in hand. */
  lemma SendingFlush(line: seq<Slot>, sent: seq<OutPacket>, filling: seq<Iq>, first: nat, next: nat)
    requires Sending(line, sent, filling, first) && filling != []
    ensures Sending(line, sent + [OutPacket(first, filling)], [], next)
  {
    var sent' := sent + [OutPacket(first, filling)];
    assert sent' + [] == sent';
  }

  /** One more sample: into the packet in hand, or a new one starting here; sent
      at once if that fills it. */
  lemma SendingSample(line: seq<Slot>, sent: seq<OutPacket>, filling: seq<Iq>, first: nat, y: Iq, next: nat)
    requires Sending(line, sent, filling, first) && Sealed(line, sent, filling)
    ensures var first' := if filling == [] then |line| else first;
      var filling' := filling + [y];
      var line' := line + [Sample(y)];
      if |filling'| < OUTPUT_PACKET_SAMPLES
      then Sending(line', sent, filling', first') && Sealed(line', sent, filling')
      else Sending(line', sent + [OutPacket(first', filling')], [], next)
           && Sealed(line', sent + [OutPacket(first', filling')], [])
  {
    SampleExtends(line, 0, y);
    var first' := if filling == [] then |line| else first;
    var filling' := filling + [y];
    var sent' := sent + [OutPacket(first', filling')];
    if filling == [] {
      assert sent + [] == sent;
      assert [] + [y] == [y];
    } else {
      var ps := sent + [OutPacket(first, filling)];
      assert ps[..|ps| - 1] == sent;
    }
    assert Packetise(line + [Sample(y)], 0) == sent';
    assert sent' + [] == sent';
  }

  /** A gap, once the packet in hand has been sent: the timeline skips ahead, and
      nothing may be appended across the hole. */
  lemma {:induction false} SendingHoles(line: seq<Slot>, sent: seq<OutPacket>, first: nat, n: nat)
    requires Sending(line, sent, [], first)
    ensures Sending(line + Holes(n), sent, [], first)
    ensures n > 0 ==> Sealed(line + Holes(n), sent, [])
  {
    if n == 0 {
      assert line + Holes(0) == line;
    } else {
      SendingHoles(line, sent, first, n - 1);
      assert line + Holes(n) == (line + Holes(n - 1)) + [Hole];
      HoleEndsNothing(line + Holes(n - 1), 0);
      assert sent + [] == sent;
      PacketsTile(line, 0);
      assert Packetise(line, 0) == sent;
      if sent != [] { assert Shows(line, 0, sent[|sent| - 1]); }
    }
  }
}
