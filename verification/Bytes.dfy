/** Big-endian words. */
module Bytes {
  import opened Numerics
  import opened Samples

  type byte = b: int | 0 <= b < 256

  function Pow256(width: nat): (p: nat)
    ensures p >= 1
  {
    if width == 0 then 1 else 256 * Pow256(width - 1)
  }

  /** The low `width` bytes of n, most significant first. */
  function ToBytes(n: nat, width: nat): (bs: seq<byte>)
    ensures |bs| == width
  {
    if width == 0 then [] else ToBytes(n / 256, width - 1) + [n % 256]
  }

  function FromBytes(bs: seq<byte>): (n: nat)
    ensures n < Pow256(|bs|)
  {
    if bs == [] then 0 else FromBytes(bs[..|bs| - 1]) * 256 + bs[|bs| - 1]
  }

  lemma {:induction false} ToFromBytes(n: nat, width: nat)
    requires n < Pow256(width)
    ensures FromBytes(ToBytes(n, width)) == n
  {
    if width > 0 {
      ToFromBytes(n / 256, width - 1);
      assert ToBytes(n, width)[..width - 1] == ToBytes(n / 256, width - 1);
    }
  }

  lemma {:induction false} FromToBytes(bs: seq<byte>)
    ensures ToBytes(FromBytes(bs), |bs|) == bs
  {
    if bs != [] {
      FromToBytes(bs[..|bs| - 1]);
    }
  }

  /** The bytes of a word, most significant first. */
  lemma WordOfBytes(bs: seq<byte>)
    requires |bs| == 4
    ensures FromBytes(bs) == 0x100_0000 * (bs[0] as int) + 0x1_0000 * (bs[1] as int) + 0x100 * (bs[2] as int) + bs[3] as int
  {
    assert bs[..3][..2] == bs[..2] && bs[..2][..1] == bs[..1] && bs[..1][..0] == [];
    assert FromBytes(bs[..1]) == bs[0];
    assert FromBytes(bs[..2]) == FromBytes(bs[..1]) * 256 + bs[1];
    assert FromBytes(bs[..3]) == FromBytes(bs[..2]) * 256 + bs[2];
  }

  /** Byte k of a number written in `width` bytes. */
  lemma {:induction false} ByteAt(n: nat, width: nat, k: nat)
    requires k < width
    ensures ToBytes(n, width)[k] == (n / Pow256(width - 1 - k)) % 256
    decreases width
  {
    if k < width - 1 {
      ByteAt(n / 256, width - 1, k);
      DivDiv(n, 256, Pow256(width - 2 - k));
    }
  }

  /** A component's two bytes are its value modulo 2^16, the high one first. */
  lemma ComponentBytes(x: I16)
    ensures 256 * (I16ToBytes(x)[0] as int) + I16ToBytes(x)[1] as int == x % 65536
  {
  }

  /** Two's complement, big-endian. */
  function I16ToBytes(x: I16): (bs: seq<byte>)
    ensures |bs| == 2
  {
    var u := if x < 0 then x + 65536 else x;
    [u / 256, u % 256]
  }

  function I16FromBytes(hi: byte, lo: byte): I16 {
    var u := hi * 256 + lo;
    if u >= 32768 then u - 65536 else u
  }

  lemma I16RoundTrip(x: I16)
    ensures var bs := I16ToBytes(x); I16FromBytes(bs[0], bs[1]) == x
  {
  }

  /** Components as consecutive byte pairs. */
  function Payload(samples: seq<I16>): (bs: seq<byte>)
    ensures |bs| == 2 * |samples|
  {
    seq(2 * |samples|, k requires 0 <= k < 2 * |samples| => I16ToBytes(samples[k / 2])[k % 2])
  }

  function Components(payload: seq<byte>): (samples: seq<I16>)
    ensures |samples| == |payload| / 2
  {
    seq(|payload| / 2, k requires 0 <= k < |payload| / 2 => I16FromBytes(payload[2 * k], payload[2 * k + 1]))
  }

  lemma PayloadRoundTrip(samples: seq<I16>)
    ensures Components(Payload(samples)) == samples
  {
    hide I16ToBytes;
    hide I16FromBytes;
    forall k | 0 <= k < |samples|
      ensures Components(Payload(samples))[k] == samples[k]
    {
      I16RoundTrip(samples[k]);
      assert (2 * k) / 2 == k && (2 * k) % 2 == 0 && (2 * k + 1) / 2 == k && (2 * k + 1) % 2 == 1;
    }
  }
}
