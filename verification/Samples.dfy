/** Complex samples and their sixteen-bit wire form. */
module Samples {
  import opened Numerics

  /** One complex baseband sample, full scale being one. */
  datatype Iq = Iq(i: real, q: real)

  type I16 = x: int | -32768 <= x < 32768

  const SC16_FULL_SCALE: real := 32768.0

  function Component(x: I16): real {
    x as real / SC16_FULL_SCALE
  }

  /** Interleaved [I0, Q0, I1, Q1, ...] as samples; an unpaired last element is
      not a sample. */
  function Sc16ToIq(interleaved: seq<I16>): (iq: seq<Iq>)
    ensures |iq| == |interleaved| / 2
  {
    seq(|interleaved| / 2, n requires 0 <= n < |interleaved| / 2 =>
      Iq(Component(interleaved[2 * n]), Component(interleaved[2 * n + 1])))
  }

  /** Round to the nearest step, saturating at both ends. */
  function Quantise(v: real): I16 {
    var scaled := Round(v * SC16_FULL_SCALE);
    if scaled < -32768 then -32768 else if scaled > 32767 then 32767 else scaled
  }

  /** The nearest step inside the range, halves away from zero; the nearest end
      outside it. */
  lemma QuantiseNearest(v: real)
    ensures var scaled := v * 32768.0;
      && (-32768.0 <= scaled <= 32767.0 ==>
            var over := Quantise(v) as real - scaled;
            -0.5 < over < 0.5 || (scaled > 0.0 && over == 0.5) || (scaled < 0.0 && over == -0.5))
      && (scaled > 32767.0 ==> Quantise(v) == 32767)
      && (scaled < -32768.0 ==> Quantise(v) == -32768)
  {
  }

  function IqToSc16(iq: seq<Iq>): (interleaved: seq<I16>)
    ensures |interleaved| == 2 * |iq|
  {
    seq(2 * |iq|, k requires 0 <= k < 2 * |iq| =>
      if k % 2 == 0 then Quantise(iq[k / 2].i) else Quantise(iq[k / 2].q))
  }

  /** The wire form, one sample at a time: in-phase first, both components in
      steps of a 32768th, so that minus one is the lowest value. */
  lemma WireForm(interleaved: seq<I16>, iq: seq<Iq>, n: nat)
    ensures n < |interleaved| / 2 ==>
      && Sc16ToIq(interleaved)[n].i * 32768.0 == interleaved[2 * n] as real
      && Sc16ToIq(interleaved)[n].q * 32768.0 == interleaved[2 * n + 1] as real
    ensures n < |iq| ==>
      && IqToSc16(iq)[2 * n] == Quantise(iq[n].i) && IqToSc16(iq)[2 * n + 1] == Quantise(iq[n].q)
  {
    assert (2 * n) / 2 == n && (2 * n + 1) / 2 == n;
  }

  lemma QuantiseComponent(x: I16)
    ensures Quantise(Component(x)) == x
  {
    assert Component(x) * SC16_FULL_SCALE == x as real;
  }

  /** Whole pairs survive the trip through normalised samples unchanged. */
  lemma Sc16RoundTrip(interleaved: seq<I16>)
    requires |interleaved| % 2 == 0
    ensures IqToSc16(Sc16ToIq(interleaved)) == interleaved
  {
    hide Quantise;
    hide Component;
    var back := IqToSc16(Sc16ToIq(interleaved));
    forall k | 0 <= k < |interleaved|
      ensures back[k] == interleaved[k]
    {
      QuantiseComponent(interleaved[k]);
      assert k % 2 == 0 ==> 2 * (k / 2) == k;
      assert k % 2 == 1 ==> 2 * (k / 2) + 1 == k;
    }
  }

  /** Splitting the wire form at a pair boundary splits the samples there. */
  lemma Sc16ToIqAppend(a: seq<I16>, b: seq<I16>)
    requires |a| % 2 == 0
    ensures Sc16ToIq(a + b) == Sc16ToIq(a) + Sc16ToIq(b)
  {
    hide Component;
    var n := |a| / 2;
    assert |a| == 2 * n;
    forall k | 0 <= k < |Sc16ToIq(a + b)|
      ensures Sc16ToIq(a + b)[k] == (Sc16ToIq(a) + Sc16ToIq(b))[k]
    {
      if k >= n { assert 2 * k - |a| == 2 * (k - n); }
    }
  }
}
