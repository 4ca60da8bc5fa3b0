/** IF Data packets: framing, strict parsing, the sample-count timestamp, and
    the cursor that walks a buffer of packets. */
module Vita49 {
  import opened Numerics
  import opened Samples
  import opened Bytes

  const HEADER_WORDS: nat := 5
  const HEADER_BYTES: nat := 20
  const IF_DATA_PACKET: nat := 1

  /** Packet type, timestamp kinds and nothing else: the header word less its
      size field. */
  const HEADER_TEMPLATE: nat := 0x10D0_0000

  /** The most samples whose size field does not wrap. */
  const MAX_SAMPLES: nat := 65531

  datatype ParseError =
    | TooShort(got: nat)
    | LengthMismatch(declared: nat, actual: nat)
    | UnsupportedPacketType(packetType: nat)
    | Trailerized

  datatype Packet = Packet(packetType: nat, streamId: nat, tsInt: nat, tsFrac: nat, tsf: nat, payload: seq<byte>)

  // ---------- timestamps ----------

  /** A float-to-unsigned cast: saturating at zero and at the type's maximum. */
  function Saturate(x: int, max: nat): nat {
    if x < 0 then 0 else if x > max then max else x
  }

  /** Whole seconds and the sample count within the second, as build_packet
      stores them: rounded, with one carry. */
  function Stamp(ts: real, rate: real): (s: (nat, nat))
    ensures s.0 <= U32_MAX && s.1 <= U64_MAX
  {
    var whole := ts.Floor;
    var tsInt := Saturate(whole, U32_MAX);
    var tsFrac := Saturate(Round(Times(ts - whole as real, rate)), U64_MAX);
    var second := Saturate(rate.Floor, U64_MAX);
    if rate >= 1.0 && tsFrac >= second then ((tsInt + 1) % (U32_MAX + 1), tsFrac - second)
    else (tsInt, tsFrac)
  }

  /** Seconds scaled by the rate, plus the samples within the second. */
  function CounterOf(tsInt: nat, tsFrac: nat, rate: real): nat {
    Saturate((tsInt as real * rate).Floor, U64_MAX) + tsFrac
  }

  function SampleCounter(p: Packet, rate: real): nat {
    CounterOf(p.tsInt, p.tsFrac, rate)
  }

  ghost predicate WithinHalfSample(ts: real, n: nat, r: nat)
  {
    -0.5 < Times(ts, r as real) - n as real < 0.5
  }

  lemma ScaledBetween(ts: real, w: real, rr: real)
    requires w <= ts < w + 1.0 && rr > 0.0
    ensures Times(w, rr) <= Times(ts, rr) < Times(w, rr) + rr
    ensures Times(ts - w, rr) == Times(ts, rr) - Times(w, rr)
  {
    hide Times;
    MulNonnegative(ts - w, rr);
    TimesSub(ts, w, rr);
    MulPositive(1.0 - (ts - w), rr);
    TimesSub(1.0, ts - w, rr);
  }

  lemma FloorScaled(ts: real, w: int, r: nat)
    requires r >= 1 && w == ts.Floor
    ensures (w * r) as real <= Times(ts, r as real) < (w * r + r) as real
    ensures Times(ts - w as real, r as real) == Times(ts, r as real) - (w * r) as real
  {
    hide Times;
    ScaledBetween(ts, w as real, r as real);
    RealProduct(w, r);
  }

  lemma RoundNear(f: real, k: int)
    requires f >= 0.0 && k >= 0 && -0.5 < f - k as real < 0.5
    ensures Round(f) == k
  {
  }

  /** The stored pair for a time within half a sample of sample n: the carry
      branch puts the fraction back below the rate. */
  lemma StampOfSample(ts: real, n: nat, r: nat)
    requires 1 <= r <= U64_MAX && ts >= 0.0 && WithinHalfSample(ts, n, r) && n < (U32_MAX + 1) * r
    ensures Stamp(ts, r as real) == (Quotient(n, r), Remainder(n, r))
  {
    hide Times;
    hide Round;
    var w := ts.Floor;
    var wr := w * r;
    FloorScaled(ts, w, r);
    assert 0 <= n - wr <= r;
    SecondsFit(w, r, n);
    RoundNear(Times(ts - w as real, r as real), n - wr);
    assert (r as real).Floor == r;
    if n - wr == r {
      assert (w + 1) * r == wr + r;
      SecondsFit(w + 1, r, n);
      DivModUnique(n, r, w + 1, 0);
    } else {
      DivModUnique(n, r, w, n - wr);
    }
  }

  // ---------- any time, any rate ----------

  /** The nearest integer, halves away from zero. */
  ghost predicate Nearest(x: real, n: int) {
    || -0.5 < n as real - x < 0.5
    || (x > 0.0 && n as real - x == 0.5)
    || (x < 0.0 && n as real - x == -0.5)
  }

  ghost function Seconds(ts: real): nat {
    if ts < 0.0 then 0 else if ts >= 4294967296.0 then 0xFFFF_FFFF else ts.Floor
  }

  /** What a 64-bit word holds of a number: all of it, or as much as fits. */
  ghost function InWord(n: nat): nat {
    if n > 0xFFFF_FFFF_FFFF_FFFF then 0xFFFF_FFFF_FFFF_FFFF else n
  }

  /** At any rate from one sample a second up, with k its whole part and n the
      samples nearest to the part second: the stored pair counts the same as the
      seconds and n, and carries a second exactly when n reaches k. The seconds
      wrap at the end of their field. */
  lemma StampConserves(ts: real, rate: real, k: nat, n: nat)
    requires k >= 1 && k as real <= rate < k as real + 1.0
    requires Nearest(Times(ts - ts.Floor as real, rate), n)
    ensures var s, samples, second := Stamp(ts, rate), InWord(n), InWord(k);
      s == if samples < second then (Seconds(ts), samples)
           else ((Seconds(ts) + 1) % 0x1_0000_0000, samples - second)
  {
    hide Times;
    RoundExactly(Times(ts - ts.Floor as real, rate), n);
    assert rate.Floor == k;
  }

  /** Below one sample a second nothing carries: the stored fraction is one
      exactly when the part second is worth at least half a sample, and zero at a
      negative rate. */
  lemma StampSlow(ts: real, rate: real)
    requires rate < 1.0
    ensures var s := Stamp(ts, rate);
      s.0 == Seconds(ts) && s.1 == if Times(ts - ts.Floor as real, rate) >= 0.5 then 1 else 0
  {
    var part := ts - ts.Floor as real;
    MulNonnegative(part, 1.0 - rate);
    assert part * (1.0 - rate) == part - part * rate;
    assert 0.0 <= part < 1.0 && Times(part, rate) < 1.0;
    if rate >= 0.0 {
      MulNonnegative(part, rate);
      RoundExactly(Times(part, rate), if Times(part, rate) >= 0.5 then 1 else 0);
    } else {
      MulNonnegative(part, -rate);
      assert Times(part, rate) <= 0.0 && Round(Times(part, rate)) <= 0;
    }
  }

  /** A counter is the whole samples of its seconds, as far as a word holds them
      and none at a negative rate, and its fraction. */
  lemma CounterExactly(p: Packet, rate: real)
    ensures var whole := SampleCounter(p, rate) - p.tsFrac;
      if Times(p.tsInt as real, rate) < 0.0 then whole == 0
      else if Times(p.tsInt as real, rate) >= 18446744073709551616.0 then whole == 0xFFFF_FFFF_FFFF_FFFF
      else 0 <= whole && whole as real <= Times(p.tsInt as real, rate) < whole as real + 1.0
  {
    var x := p.tsInt as real * rate;
    assert Times(p.tsInt as real, rate) == x;
    if x < 0.0 { assert x.Floor < 0; }
  }

  lemma SecondsFit(w: nat, r: nat, n: nat)
    requires w * r <= n < (U32_MAX + 1) * r
    ensures w <= U32_MAX
  {
    if w > U32_MAX { MulMono(U32_MAX + 1, w, r); }
  }

  /** Reading the pair back gives n. */
  lemma CounterOfSample(n: nat, r: nat)
    requires 1 <= r && n <= U64_MAX
    ensures CounterOf(Quotient(n, r), Remainder(n, r), r as real) == n
  {
    var q := Quotient(n, r);
    assert q * r + Remainder(n, r) == n;
    assert q as real * r as real == (q * r) as real;
  }

  /** Timestamp rounding is exact within half a sample: any time that close to
      sample n reads back as n exactly when it is not negative. A time just
      below zero floors to the second before, whose number saturates, and reads
      back one whole second late. */
  lemma TimestampExact(ts: real, n: nat, r: nat)
    requires 1 <= r <= U64_MAX && n <= U64_MAX && n < (U32_MAX + 1) * r && WithinHalfSample(ts, n, r)
    ensures var s := Stamp(ts, r as real);
      && s.1 < r
      && (CounterOf(s.0, s.1, r as real) == n <==> ts >= 0.0)
  {
    if ts >= 0.0 {
      StampOfSample(ts, n, r);
      CounterOfSample(n, r);
    } else {
      JustBelowZero(ts, n, r);
    }
  }

  lemma JustBelowZero(ts: real, n: nat, r: nat)
    requires 1 <= r <= U64_MAX && ts < 0.0 && WithinHalfSample(ts, n, r)
    ensures n == 0 && Stamp(ts, r as real) == (1, 0) && CounterOf(1, 0, r as real) == r
  {
    var rr := r as real;
    MulPositive(-ts, rr);
    if ts < -0.5 {
      MulNonnegative(-ts - 0.5, rr);
    }
    assert ts.Floor == -1;
    FloorScaled(ts, -1, r);
    RoundNear(Times(ts + 1.0, rr), r);
    assert ts - (-1) as real == ts + 1.0;
  }

  // ---------- one packet ----------

  function SizeField(samples: nat): nat {
    (HEADER_WORDS + samples - 1) % 65536
  }

  /** The bytes of one packet: header word, stream id zero, the stamp, and the
      whole pairs of the payload. */
  function PacketBytes(samples: seq<I16>, ts: real, rate: real): (bs: seq<byte>)
    ensures |bs| == 4 * (HEADER_WORDS + |samples| / 2)
  {
    var pairs := |samples| / 2;
    var stamp := Stamp(ts, rate);
    ToBytes(HEADER_TEMPLATE + SizeField(pairs), 4) + ToBytes(0, 4) + ToBytes(stamp.0, 4) + ToBytes(stamp.1, 8)
      + Payload(samples[..2 * pairs])
  }

  /** Overwrite part of a buffer. */
  method CopyInto(buf: array<byte>, at: nat, bs: seq<byte>)
    requires at + |bs| <= buf.Length
    modifies buf
    ensures buf[..] == old(buf[..at]) + bs + old(buf[at + |bs|..])
  {
    for k := 0 to |bs|
      invariant forall j :: 0 <= j < k ==> buf[at + j] == bs[j]
      invariant forall j :: 0 <= j < at || at + k <= j < buf.Length ==> buf[j] == old(buf[j])
    {
      buf[at + k] := bs[k];
    }
    assert buf[..at] == old(buf[..at]);
    assert buf[at..at + |bs|] == bs;
    assert buf[at + |bs|..] == old(buf[at + |bs|..]);
    assert buf[..] == buf[..at] + buf[at..at + |bs|] + buf[at + |bs|..];
  }

  method BuildPacket(samples: seq<I16>, ts: real, rate: real) returns (bs: seq<byte>)
    ensures bs == PacketBytes(samples, ts, rate)
  {
    hide Stamp;
    hide ToBytes;
    hide SizeField;
    var pairs := |samples| / 2;
    var totalWords := HEADER_WORDS + pairs;
    var stamp := Stamp(ts, rate);
    var buf := new byte[totalWords * 4](_ => 0);
    CopyInto(buf, 0, ToBytes(HEADER_TEMPLATE + SizeField(pairs), 4));
    CopyInto(buf, 4, ToBytes(0, 4));
    CopyInto(buf, 8, ToBytes(stamp.0, 4));
    CopyInto(buf, 12, ToBytes(stamp.1, 8));
    ghost var header := buf[..HEADER_BYTES];
    assert header == ToBytes(HEADER_TEMPLATE + SizeField(pairs), 4) + ToBytes(0, 4) + ToBytes(stamp.0, 4) + ToBytes(stamp.1, 8);
    WritePayload(buf, samples[..2 * pairs]);
    bs := buf[..];
    assert bs == header + Payload(samples[..2 * pairs]);
  }

  method WritePayload(buf: array<byte>, samples: seq<I16>)
    requires buf.Length == HEADER_BYTES + 2 * |samples|
    modifies buf
    ensures buf[..] == old(buf[..HEADER_BYTES]) + Payload(samples)
  {
    hide I16ToBytes;
    ghost var payload := Payload(samples);
    for i := 0 to |samples|
      invariant buf[..HEADER_BYTES] == old(buf[..HEADER_BYTES])
      invariant forall k :: 0 <= k < 2 * i ==> buf[HEADER_BYTES + k] == payload[k]
    {
      var pair := I16ToBytes(samples[i]);
      var offset := HEADER_BYTES + i * 2;
      assert payload[2 * i] == pair[0] && payload[2 * i + 1] == pair[1];
      buf[offset] := pair[0];
      buf[offset + 1] := pair[1];
    }
    assert buf[..] == buf[..HEADER_BYTES] + payload;
  }

  function Declared(header: nat): nat {
    (header % 65536 + 1) * 4
  }

  function Parse(buf: seq<byte>): Result<Packet, ParseError> {
    if |buf| < HEADER_BYTES then Err(TooShort(|buf|))
    else
      var header := FromBytes(buf[0..4]);
      var packetType := header / 0x1000_0000;
      if packetType != IF_DATA_PACKET then Err(UnsupportedPacketType(packetType))
      else if (header / 0x100_0000) % 4 != 0 then Err(Trailerized)
      else if Declared(header) != |buf| then Err(LengthMismatch(Declared(header), |buf|))
      else Ok(Packet(packetType, FromBytes(buf[4..8]), FromBytes(buf[8..12]), FromBytes(buf[12..20]),
                     (header / 0x10_0000) % 4, buf[HEADER_BYTES..]))
  }

  function PacketSamples(p: Packet): nat {
    |p.payload| / 4
  }

  function IqI16(p: Packet): seq<I16> {
    Components(p.payload)
  }

  lemma HeaderFields(size: nat)
    requires size < 65536
    ensures var h := HEADER_TEMPLATE + size;
      h < Pow256(4) && h / 0x1000_0000 == IF_DATA_PACKET && (h / 0x100_0000) % 4 == 0
      && (h / 0x10_0000) % 4 == 1 && Declared(h) == 4 * (size + 1)
  {
    FourBytes();
  }

  lemma FourBytes()
    ensures Pow256(4) == U32_MAX + 1 && Pow256(8) == U64_MAX + 1
  {
    assert Pow256(2) == 65536;
    assert Pow256(4) == 256 * (256 * Pow256(2));
    assert Pow256(6) == 256 * (256 * Pow256(4));
    assert Pow256(8) == 256 * (256 * Pow256(6));
  }

  lemma PacketParts(samples: seq<I16>, ts: real, rate: real)
    ensures var bs := PacketBytes(samples, ts, rate);
      && FromBytes(bs[0..4]) == HEADER_TEMPLATE + SizeField(|samples| / 2)
      && FromBytes(bs[4..8]) == 0
      && FromBytes(bs[8..12]) == Stamp(ts, rate).0 && FromBytes(bs[12..20]) == Stamp(ts, rate).1
      && bs[HEADER_BYTES..] == Payload(samples[..2 * (|samples| / 2)])
  {
    hide Stamp;
    hide ToBytes;
    hide FromBytes;
    hide SizeField;
    hide Pow256;
    var stamp := Stamp(ts, rate);
    var size := SizeField(|samples| / 2);
    assert size < 65536 by { SizeFits(|samples| / 2); }
    HeaderFields(size);
    FourBytes();
    ToFromBytes(HEADER_TEMPLATE + size, 4);
    ToFromBytes(0, 4);
    ToFromBytes(stamp.0, 4);
    ToFromBytes(stamp.1, 8);
    var bs := PacketBytes(samples, ts, rate);
    assert bs[0..4] == ToBytes(HEADER_TEMPLATE + size, 4);
    assert bs[4..8] == ToBytes(0, 4);
    assert bs[8..12] == ToBytes(stamp.0, 4);
    assert bs[12..20] == ToBytes(stamp.1, 8);
  }

  lemma SizeFits(samples: nat)
    ensures SizeField(samples) < 65536
    ensures Declared(HEADER_TEMPLATE + SizeField(samples)) == 4 * (HEADER_WORDS + samples) <==> samples <= MAX_SAMPLES
  {
    HeaderFields(SizeField(samples));
  }

  /** The round trip, and exactly when it works: building then parsing gives back
      every whole pair, the stamp and a zero stream id if and only if the packet
      holds at most 65531 samples; beyond that the size field has wrapped and
      the parser reports a length mismatch. */
  lemma BuildParse(samples: seq<I16>, ts: real, rate: real)
    ensures var n := |samples| / 2;
      var stamp := Stamp(ts, rate);
      var r := Parse(PacketBytes(samples, ts, rate));
      if n <= MAX_SAMPLES then
        && r.Ok?
        && r.value.packetType == IF_DATA_PACKET && r.value.streamId == 0 && r.value.tsf == 1
        && r.value.tsInt == stamp.0 && r.value.tsFrac == stamp.1
        && PacketSamples(r.value) == n && IqI16(r.value) == samples[..2 * n]
      else r.Err? && r.error.LengthMismatch?
  {
    hide Stamp;
    hide FromBytes;
    hide PacketBytes;
    hide SizeField;
    hide Declared;
    hide Payload;
    hide Components;
    hide Pow256;
    var n := |samples| / 2;
    PacketParts(samples, ts, rate);
    SizeFits(n);
    HeaderFields(SizeField(n));
    PayloadRoundTrip(samples[..2 * n]);
  }

  // ---------- the layout, independently of the parser ----------

  /** The header bits the parser does not read: 27-26, the integer timestamp
      kind and the packet count. */
  datatype Unread = Unread(flags: nat, tsi: nat, count: nat)

  ghost predicate FieldsFit(p: Packet, u: Unread) {
    && u.flags < 4 && u.tsi < 4 && u.count < 16
    && p.packetType == IF_DATA_PACKET && p.tsf < 4
    && p.streamId <= U32_MAX && p.tsInt <= U32_MAX && p.tsFrac <= U64_MAX
    && |p.payload| % 4 == 0 && |p.payload| / 4 <= MAX_SAMPLES
  }

  ghost function HeaderWord(p: Packet, u: Unread, size: nat): nat {
    p.packetType * 0x1000_0000 + u.flags * 0x400_0000 + u.tsi * 0x40_0000 + p.tsf * 0x10_0000
    + u.count * 0x1_0000 + size
  }

  /** A packet's bytes, field by field; the size field holds words minus one. */
  ghost function Layout(p: Packet, u: Unread): seq<byte> {
    ToBytes(HeaderWord(p, u, HEADER_WORDS + |p.payload| / 4 - 1), 4) + ToBytes(p.streamId, 4)
    + ToBytes(p.tsInt, 4) + ToBytes(p.tsFrac, 8) + p.payload
  }

  ghost function UnreadOf(header: nat): Unread {
    Unread((header / 0x400_0000) % 4, (header / 0x40_0000) % 4, (header / 0x1_0000) % 16)
  }

  lemma HeaderReads(p: Packet, u: Unread, size: nat)
    requires FieldsFit(p, u) && size < 65536
    ensures var h := HeaderWord(p, u, size);
      && h <= U32_MAX && h / 0x1000_0000 == IF_DATA_PACKET && (h / 0x100_0000) % 4 == 0
      && (h / 0x10_0000) % 4 == p.tsf && Declared(h) == 4 * (size + 1)
  {
    var h := HeaderWord(p, u, size);
    var low := u.count * 0x1_0000 + size;
    assert low < 0x10_0000;
    var mid := u.tsi * 4 + p.tsf;
    var high := u.flags * 64 + mid;
    DivModUnique(h, 0x1000_0000, p.packetType, high * 0x10_0000 + low);
    DivModUnique(h, 0x100_0000, p.packetType * 16 + u.flags * 4, mid * 0x10_0000 + low);
    DivModUnique(h, 0x10_0000, p.packetType * 256 + high, low);
    DivModUnique(h, 0x1_0000, (p.packetType * 256 + high) * 16 + u.count, size);
    DivModUnique(p.packetType * 16 + u.flags * 4, 4, p.packetType * 4 + u.flags, 0);
    DivModUnique(p.packetType * 256 + high, 4, p.packetType * 64 + u.flags * 16 + u.tsi, p.tsf);
  }

  lemma HeaderSplits(h: nat)
    requires h / 0x1000_0000 == IF_DATA_PACKET && (h / 0x100_0000) % 4 == 0
    ensures h == IF_DATA_PACKET * 0x1000_0000 + UnreadOf(h).flags * 0x400_0000 + UnreadOf(h).tsi * 0x40_0000
      + ((h / 0x10_0000) % 4) * 0x10_0000 + UnreadOf(h).count * 0x1_0000 + h % 65536
  {
    var a := h / 0x1_0000;
    var b := h / 0x10_0000;
    var c := h / 0x40_0000;
    var d := h / 0x100_0000;
    var e := h / 0x400_0000;
    assert b == a / 16 && c == b / 4 && d == c / 4 && e == d / 4 && h / 0x1000_0000 == e / 4;
  }

  lemma LayoutParses(p: Packet, u: Unread)
    requires FieldsFit(p, u)
    ensures Parse(Layout(p, u)) == Ok(p)
  {
    hide ToBytes;
    hide FromBytes;
    hide Pow256;
    hide Declared;
    hide HeaderWord;
    var size := HEADER_WORDS + |p.payload| / 4 - 1;
    var word := HeaderWord(p, u, size);
    HeaderReads(p, u, size);
    FourBytes();
    ToFromBytes(word, 4);
    ToFromBytes(p.streamId, 4);
    ToFromBytes(p.tsInt, 4);
    ToFromBytes(p.tsFrac, 8);
    var buf := Layout(p, u);
    assert buf[0..4] == ToBytes(word, 4);
    assert buf[4..8] == ToBytes(p.streamId, 4);
    assert buf[8..12] == ToBytes(p.tsInt, 4);
    assert buf[12..20] == ToBytes(p.tsFrac, 8);
    assert buf[HEADER_BYTES..] == p.payload;
  }

  lemma ParsedIsLayout(buf: seq<byte>)
    requires Parse(buf).Ok?
    ensures var u := UnreadOf(FromBytes(buf[0..4]));
      FieldsFit(Parse(buf).value, u) && buf == Layout(Parse(buf).value, u)
  {
    hide ToBytes;
    hide FromBytes;
    hide Pow256;
    var h := FromBytes(buf[0..4]);
    var p := Parse(buf).value;
    HeaderSplits(h);
    FourBytes();
    FromToBytes(buf[0..4]);
    FromToBytes(buf[4..8]);
    FromToBytes(buf[8..12]);
    FromToBytes(buf[12..20]);
    assert HeaderWord(p, UnreadOf(h), h % 65536) == h;
    assert buf == buf[0..4] + buf[4..8] + buf[8..12] + buf[12..20] + buf[20..];
  }

  /** The parser is exactly the inverse of the layout: a buffer parses to p if
      and only if it is p laid out, with anything in the bits that are not read. */
  lemma ParseInvertsLayout(buf: seq<byte>, p: Packet)
    ensures Parse(buf) == Ok(p) <==> exists u :: FieldsFit(p, u) && buf == Layout(p, u)
  {
    hide Layout;
    hide Parse;
    hide FieldsFit;
    if Parse(buf) == Ok(p) {
      ParsedIsLayout(buf);
    }
    if u :| FieldsFit(p, u) && buf == Layout(p, u) {
      LayoutParses(p, u);
    }
  }

  // ---------- byte by byte ----------

  /** The wire form of a packet: 0x10 0xD0 - an IF Data packet, seconds of a kind
      of their own, sample-count fractions, nothing else set - then the words
      less one, no stream id, and the components, high byte first. */
  lemma PacketWire(samples: seq<I16>, ts: real, rate: real)
    ensures var bs, pairs := PacketBytes(samples, ts, rate), |samples| / 2;
      && bs[0] == 0x10 && bs[1] == 0xD0 && 256 * (bs[2] as int) + bs[3] as int == (pairs + 4) % 65536
      && UnreadOf(FromBytes(bs[0..4])) == Unread(0, 3, 0)
      && (forall k :: 4 <= k < 8 ==> bs[k] == 0)
      && (forall k :: 0 <= k < 2 * pairs ==> ComponentAt(bs, 20, k) == (samples[k] as int) % 65536)
  {
    hide Stamp;
    hide ToBytes;
    hide FromBytes;
    hide SizeField;
    hide UnreadOf;
    hide Payload;
    var bs, pairs := PacketBytes(samples, ts, rate), |samples| / 2;
    PacketParts(samples, ts, rate);
    SizeIs(pairs);
    HeaderBytes(bs[0..4], HEADER_TEMPLATE + SizeField(pairs));
    assert bs[4..8] == ToBytes(0, 4);
    ZeroBytes();
    ComponentsWire(bs[20..], samples[..2 * pairs]);
    forall k | 0 <= k < 2 * pairs
      ensures bs[20..][2 * k] == bs[20 + 2 * k] && bs[20..][2 * k + 1] == bs[21 + 2 * k]
      ensures ComponentAt(bs, 20, k) == (samples[k] as int) % 65536
    {
      assert ComponentAt(bs[20..], 0, k) == (samples[..2 * pairs][k] as int) % 65536;
    }
  }

  /** The two bytes of component k of a payload that starts at `at`. */
  ghost function ComponentAt(bs: seq<byte>, at: nat, k: nat): int
    requires at + 2 * k + 1 < |bs|
  {
    256 * (bs[at + 2 * k] as int) + bs[at + 2 * k + 1] as int
  }

  lemma ComponentsWire(bs: seq<byte>, samples: seq<I16>)
    requires bs == Payload(samples)
    ensures forall k :: 0 <= k < |samples| ==> ComponentAt(bs, 0, k) == (samples[k] as int) % 65536
  {
    hide I16ToBytes;
    forall k | 0 <= k < |samples|
      ensures ComponentAt(bs, 0, k) == (samples[k] as int) % 65536
    {
      ComponentBytes(samples[k]);
      PayloadAt(samples, k);
    }
  }

  lemma SizeIs(pairs: nat)
    ensures SizeField(pairs) == (pairs + 4) % 65536
  {
  }

  lemma ZeroBytes()
    ensures ToBytes(0, 4) == [0, 0, 0, 0]
  {
    assert ToBytes(0, 1) == [0] && ToBytes(0, 2) == [0, 0] && ToBytes(0, 3) == [0, 0, 0];
  }

  lemma PayloadAt(samples: seq<I16>, k: nat)
    requires k < |samples|
    ensures Payload(samples)[2 * k] == I16ToBytes(samples[k])[0]
    ensures Payload(samples)[2 * k + 1] == I16ToBytes(samples[k])[1]
  {
    assert (2 * k) / 2 == k && (2 * k + 1) / 2 == k && (2 * k) % 2 == 0 && (2 * k + 1) % 2 == 1;
  }

  lemma HeaderBytes(bs: seq<byte>, h: nat)
    requires |bs| == 4 && FromBytes(bs) == h && 0x10D0_0000 <= h < 0x10D1_0000
    ensures bs[0] == 0x10 && bs[1] == 0xD0 && 256 * (bs[2] as int) + bs[3] as int == h - 0x10D0_0000
    ensures UnreadOf(h) == Unread(0, 3, 0)
  {
    WordOfBytes(bs);
  }

  /** What the parser makes of a buffer, byte by byte: the first fault it has, in
      this order, or its fields. */
  lemma ParseExactly(buf: seq<byte>)
    ensures Parse(buf) ==
      if |buf| < 20 then Err(TooShort(|buf|))
      else if buf[0] / 16 != 1 then Err(UnsupportedPacketType(buf[0] / 16))
      else if buf[0] % 4 != 0 then Err(Trailerized)
      else if DeclaredBy(buf) != |buf| then Err(LengthMismatch(DeclaredBy(buf), |buf|))
      else Ok(Packet(1, FromBytes(buf[4..8]), FromBytes(buf[8..12]), FromBytes(buf[12..20]), (buf[1] / 16) % 4, buf[20..]))
  {
    if |buf| >= 20 {
      HeaderOfBytes(buf);
    }
  }

  /** The length a header declares: its low two bytes are words less one. */
  ghost function DeclaredBy(buf: seq<byte>): nat
    requires |buf| >= 4
  {
    4 * (256 * (buf[2] as int) + buf[3] as int + 1)
  }

  lemma HeaderOfBytes(buf: seq<byte>)
    requires |buf| >= 4
    ensures var h := FromBytes(buf[0..4]);
      && h / 0x1000_0000 == buf[0] / 16 && (h / 0x100_0000) % 4 == buf[0] % 4
      && (h / 0x10_0000) % 4 == (buf[1] / 16) % 4 && Declared(h) == DeclaredBy(buf)
  {
    hide FromBytes;
    hide Declared;
    WordOfBytes(buf[0..4]);
    var h := FromBytes(buf[0..4]);
    var a: int, b: int, c: int, d: int := buf[0] as int, buf[1] as int, buf[2] as int, buf[3] as int;
    HighByte(h, a, b, c, d);
    TopFields(h, a, b);
    LowBytes(h, a, b, c, d);
  }

  lemma HighByte(h: int, a: int, b: int, c: int, d: int)
    requires 0 <= a && 0 <= b < 256 && 0 <= c < 256 && 0 <= d < 256
    requires h == 0x100_0000 * a + 0x1_0000 * b + 0x100 * c + d
    ensures h >= 0 && h / 0x100_0000 == a && h / 0x1_0000 == 256 * a + b
  {
    DivModUnique(h, 0x100_0000, a, 0x1_0000 * b + 0x100 * c + d);
    DivModUnique(h, 0x1_0000, 256 * a + b, 0x100 * c + d);
  }

  lemma TopFields(h: int, a: int, b: int)
    requires h >= 0 && 0 <= b < 256 && h / 0x100_0000 == a && h / 0x1_0000 == 256 * a + b
    ensures h / 0x1000_0000 == a / 16 && (h / 0x10_0000) % 4 == (b / 16) % 4
  {
    DivDiv(h, 0x100_0000, 16);
    DivDiv(h, 0x1_0000, 16);
    DivAddMultiple(b, 16 * a, 16);
    DivAddMultiple(b / 16, 4 * a, 4);
  }

  lemma LowBytes(h: nat, a: int, b: int, c: int, d: int)
    requires 0 <= c < 256 && 0 <= d < 256 && h == 0x100_0000 * a + 0x1_0000 * b + 0x100 * c + d
    ensures Declared(h) == 4 * (256 * c + d + 1)
  {
    DivModUnique(h, 0x1_0000, 256 * a + b, 256 * c + d);
  }

  // ---------- the cursor ----------

  /** How many bytes the next packet of a non-empty rest declares, or why it
      cannot be framed. */
  function Frame(rest: seq<byte>): Result<nat, ParseError> {
    if |rest| < HEADER_BYTES then Err(TooShort(|rest|))
    else
      var declared := Declared(FromBytes(rest[0..4]));
      if declared > |rest| then Err(LengthMismatch(declared, |rest|)) else Ok(declared)
  }

  lemma FrameFits(rest: seq<byte>)
    ensures Frame(rest).Ok? ==> 4 <= Frame(rest).value <= |rest| && Frame(rest).value % 4 == 0
  {
  }

  class PacketCursor {
    const buf: seq<byte>
    var pos: nat

    constructor (buf: seq<byte>)
      ensures this.buf == buf && pos == 0
    {
      this.buf := buf;
      pos := 0;
    }

    predicate IsExhausted()
      reads this
    {
      pos >= |buf|
    }

    /** What is still to be walked. */
    ghost function Rest(): seq<byte>
      reads this
    {
      if pos >= |buf| then [] else buf[pos..]
    }

    /** The raw bytes of the next packet; a framing error ends the walk. */
    method NextSlice() returns (r: Option<Result<seq<byte>, ParseError>>)
      modifies this
      ensures old(Rest()) == [] ==> r == None && Rest() == []
      ensures old(Rest()) != [] ==>
        var framed := Frame(old(Rest()));
        if framed.Err? then r == Some(Err(framed.error)) && Rest() == [] && IsExhausted()
        else
          && framed.value <= |old(Rest())|
          && r == Some(Ok(old(Rest())[..framed.value])) && Rest() == old(Rest())[framed.value..]
    {
      if pos >= |buf| {
        return None;
      }
      var rest := buf[pos..];
      FrameFits(rest);
      if |rest| < HEADER_BYTES {
        pos := |buf|;
        return Some(Err(TooShort(|rest|)));
      }
      var declared := Declared(FromBytes(rest[0..4]));
      if declared > |rest| {
        pos := |buf|;
        return Some(Err(LengthMismatch(declared, |rest|)));
      }
      pos := pos + declared;
      return Some(Ok(rest[..declared]));
    }

    /** The next packet parsed: the next slice, then the parser. */
    method NextPacket() returns (r: Option<Result<Packet, ParseError>>)
      modifies this
      ensures old(Rest()) == [] ==> r == None && Rest() == []
      ensures old(Rest()) != [] ==>
        var framed := Frame(old(Rest()));
        if framed.Err? then r == Some(Err(framed.error)) && Rest() == [] && IsExhausted()
        else
          && framed.value <= |old(Rest())|
          && r == Some(Parse(old(Rest())[..framed.value])) && Rest() == old(Rest())[framed.value..]
    {
      if pos >= |buf| {
        return None;
      }
      var rest := buf[pos..];
      FrameFits(rest);
      if |rest| < HEADER_BYTES {
        pos := |buf|;
        return Some(Err(TooShort(|rest|)));
      }
      var declared := Declared(FromBytes(rest[0..4]));
      if declared > |rest| {
        pos := |buf|;
        return Some(Err(LengthMismatch(declared, |rest|)));
      }
      pos := pos + declared;
      return Some(Parse(rest[..declared]));
    }
  }

  // ---------- whole walks ----------

  /** A walk from start to finish: the slices in order, the framing error that
      ended it if any, and the bytes that error left unread. */
  datatype Walked = Walked(slices: seq<seq<byte>>, error: Option<ParseError>, tail: seq<byte>)

  ghost function Walk(buf: seq<byte>): Walked
    decreases |buf|
  {
    if buf == [] then Walked([], None, [])
    else
      FrameFits(buf);
      match Frame(buf)
      case Err(e) => Walked([], Some(e), buf)
      case Ok(n) =>
        var rest := Walk(buf[n..]);
        rest.(slices := [buf[..n]] + rest.slices)
  }

  ghost function Joined(slices: seq<seq<byte>>): seq<byte> {
    if slices == [] then [] else slices[0] + Joined(slices[1..])
  }

  /** A slice declares its own length. */
  ghost predicate WellFramed(slice: seq<byte>) {
    |slice| >= 4 && DeclaredBy(slice) == |slice|
  }

  lemma FramedSlice(buf: seq<byte>)
    requires Frame(buf).Ok?
    ensures var n := Frame(buf).value; n <= |buf| && WellFramed(buf[..n])
  {
    hide FromBytes;
    FrameFits(buf);
    var n := Frame(buf).value;
    assert buf[..n][0..4] == buf[0..4];
    HeaderOfBytes(buf);
  }

  /** The walk, one packet at a time. */
  lemma WalkUnfold(buf: seq<byte>)
    requires buf != []
    ensures Frame(buf).Err? ==> Walk(buf) == Walked([], Some(Frame(buf).error), buf)
    ensures Frame(buf).Ok? ==>
      var n := Frame(buf).value;
      && 4 <= n <= |buf| && WellFramed(buf[..n])
      && Walk(buf) == Walked([buf[..n]] + Walk(buf[n..]).slices, Walk(buf[n..]).error, Walk(buf[n..]).tail)
  {
    hide WellFramed;
    FrameFits(buf);
    if Frame(buf).Ok? { FramedSlice(buf); }
  }

  /** On arbitrary bytes the slices are consecutive: joined with the unread tail
      they are the buffer. There is a tail exactly when there was an error. */
  lemma {:induction false} WalkPartitions(buf: seq<byte>)
    ensures var w := Walk(buf);
      && Joined(w.slices) + w.tail == buf
      && (w.error.None? <==> w.tail == [])
      && forall k :: 0 <= k < |w.slices| ==> WellFramed(w.slices[k])
    decreases |buf|
  {
    hide Frame;
    hide WellFramed;
    if buf != [] {
      WalkUnfold(buf);
      if Frame(buf).Ok? {
        var n := Frame(buf).value;
        WalkPartitions(buf[n..]);
        JoinedCons(buf[..n], Walk(buf[n..]).slices, Walk(buf[n..]).tail);
        assert buf[..n] + buf[n..] == buf;
      }
    }
  }

  lemma JoinedCons(head: seq<byte>, slices: seq<seq<byte>>, tail: seq<byte>)
    ensures Joined([head] + slices) + tail == head + (Joined(slices) + tail)
  {
    assert ([head] + slices)[1..] == slices;
  }

  /** A yielded slice may be too short or of the wrong kind, but the parser never
      finds its length wrong. */
  lemma SliceNeverMismatches(slice: seq<byte>)
    requires WellFramed(slice)
    ensures Parse(slice).Err? ==> !Parse(slice).error.LengthMismatch?
  {
    hide FromBytes;
    HeaderOfBytes(slice);
  }

  /** Slices that declare their own lengths, with at least a header's bytes left
      to read at the start of each. */
  ghost predicate Walkable(slices: seq<seq<byte>>) {
    slices != [] ==>
      && WellFramed(slices[0]) && |Joined(slices)| >= 20
      && Walkable(slices[1..])
  }

  lemma {:induction false} WalkOfWalkable(slices: seq<seq<byte>>)
    requires Walkable(slices)
    ensures Walk(Joined(slices)) == Walked(slices, None, [])
  {
    if slices != [] {
      hide FromBytes;
      var buf := Joined(slices);
      var n := |slices[0]|;
      assert buf[0..4] == slices[0][0..4];
      HeaderOfBytes(slices[0]);
      assert Frame(buf) == Ok(n);
      assert buf[n..] == Joined(slices[1..]) && buf[..n] == slices[0];
      WalkOfWalkable(slices[1..]);
      assert [slices[0]] + slices[1..] == slices;
    }
  }

  lemma {:induction false} WalkIsWalkable(buf: seq<byte>)
    requires Walk(buf).error.None?
    ensures Walkable(Walk(buf).slices)
    decreases |buf|
  {
    hide Frame;
    hide WellFramed;
    if buf != [] {
      WalkUnfold(buf);
      var n := Frame(buf).value;
      var later := Walk(buf[n..]).slices;
      WalkIsWalkable(buf[n..]);
      WalkPartitions(buf);
      FrameNeedsHeader(buf);
      assert Joined([buf[..n]] + later) + [] == Joined([buf[..n]] + later);
      assert ([buf[..n]] + later)[1..] == later;
    }
  }

  /** What ends a walk early: fewer than twenty bytes left, or a packet that
      declares more than is left. */
  lemma {:induction false} WalkStopsExactly(buf: seq<byte>)
    ensures var w := Walk(buf);
      w.error.Some? ==>
        && w.tail != []
        && if |w.tail| < 20 then w.error == Some(TooShort(|w.tail|))
           else DeclaredBy(w.tail) > |w.tail| && w.error == Some(LengthMismatch(DeclaredBy(w.tail), |w.tail|))
    decreases |buf|
  {
    hide FromBytes;
    hide WellFramed;
    if buf != [] {
      WalkUnfold(buf);
      if Frame(buf).Ok? {
        WalkStopsExactly(buf[Frame(buf).value..]);
      } else if |buf| >= 20 {
        HeaderOfBytes(buf);
      }
    }
  }

  lemma FrameNeedsHeader(buf: seq<byte>)
    ensures Frame(buf).Ok? ==> |buf| >= HEADER_BYTES
  {
  }

  /** A walk meets no error exactly when the buffer is such slices joined; they
      are then the ones it yields. */
  lemma ErrorFreeExactly(buf: seq<byte>)
    ensures Walk(buf).error.None? <==> exists slices :: Walkable(slices) && Joined(slices) == buf
    ensures forall slices :: Walkable(slices) && Joined(slices) == buf ==> Walk(buf) == Walked(slices, None, [])
  {
    hide Walk;
    hide Walkable;
    if Walk(buf).error.None? {
      WalkIsWalkable(buf);
      WalkPartitions(buf);
      var slices := Walk(buf).slices;
      assert Joined(slices) + [] == Joined(slices);
    }
    forall slices | Walkable(slices) && Joined(slices) == buf
      ensures Walk(buf) == Walked(slices, None, [])
    {
      WalkOfWalkable(slices);
    }
  }

  /** Packets that declare their own length survive concatenation: the walk
      yields each of them and nothing else. */
  lemma WalkOfPackets(ps: seq<seq<byte>>)
    requires forall k :: 0 <= k < |ps| ==> |ps[k]| >= HEADER_BYTES && WellFramed(ps[k])
    ensures Walk(Joined(ps)) == Walked(ps, None, [])
  {
    PacketsWalkable(ps);
    WalkOfWalkable(ps);
  }

  lemma {:induction false} PacketsWalkable(ps: seq<seq<byte>>)
    requires forall k :: 0 <= k < |ps| ==> |ps[k]| >= HEADER_BYTES && WellFramed(ps[k])
    ensures Walkable(ps)
  {
    hide WellFramed;
    if ps != [] { PacketsWalkable(ps[1..]); }
  }

  /** A walk of which `got` has been handed out and `rest` is still to come,
      unless a framing error has ended it. */
  ghost predicate Walking(whole: Walked, got: seq<seq<byte>>, failed: bool, rest: seq<byte>) {
    if failed then whole.slices == got && whole.error.Some? && rest == []
    else whole.slices == got + Walk(rest).slices && whole.error == Walk(rest).error
  }

  lemma WalkingStarts(buf: seq<byte>)
    ensures Walking(Walk(buf), [], false, buf)
  {
  }

  lemma WalkingOn(whole: Walked, got: seq<seq<byte>>, rest: seq<byte>)
    requires Walking(whole, got, false, rest) && rest != []
    ensures Frame(rest).Ok? ==>
      var n := Frame(rest).value;
      4 <= n <= |rest| && Walking(whole, got + [rest[..n]], false, rest[n..])
    ensures Frame(rest).Err? ==> whole.error == Some(Frame(rest).error) && Walking(whole, got, true, [])
  {
    hide Frame;
    hide WellFramed;
    WalkUnfold(rest);
    if Frame(rest).Ok? {
      var n := Frame(rest).value;
      var later := Walk(rest[n..]).slices;
      assert got + ([rest[..n]] + later) == (got + [rest[..n]]) + later;
    } else {
      assert got + [] == got;
    }
  }

  lemma WalkingEnds(whole: Walked, got: seq<seq<byte>>, failed: bool)
    requires Walking(whole, got, failed, [])
    ensures whole.slices == got && (whole.error.Some? <==> failed)
  {
    assert got + [] == got;
  }

  /** Drive a cursor until it has nothing more to give: it yields the walk, at
      most one error, and ends exhausted. */
  method WalkBuffer(buf: seq<byte>) returns (slices: seq<seq<byte>>, errors: seq<ParseError>)
    ensures slices == Walk(buf).slices
    ensures errors == if Walk(buf).error.Some? then [Walk(buf).error.value] else []
  {
    hide *;
    slices, errors := [], [];
    var cursor := new PacketCursor(buf);
    RestAtStart(cursor);
    ghost var whole := Walk(buf);
    WalkingStarts(buf);
    while true
      invariant Walking(whole, slices, errors != [], cursor.Rest())
      invariant errors == [] || (whole.error.Some? && errors == [whole.error.value] && cursor.Rest() == [])
      decreases |cursor.Rest()|
    {
      ghost var rest := cursor.Rest();
      if rest == [] { WalkingEnds(whole, slices, errors != []); } else { WalkingOn(whole, slices, rest); }
      var next := cursor.NextSlice();
      match next {
        case None => break;
        case Some(Ok(slice)) => slices := slices + [slice];
        case Some(Err(e)) => errors := errors + [e];
      }
    }
  }

  lemma RestAtStart(cursor: PacketCursor)
    requires cursor.pos == 0
    ensures cursor.Rest() == cursor.buf
  {
  }
}
