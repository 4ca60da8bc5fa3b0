/** The bit-reversed index order and the counter that walks it. */
module BitReversal {
  import opened Numerics

  /** The weight of the lowest bit of i once it has become bit p - 1. */
  function TopWeight(p: nat, i: nat): nat
    requires p > 0
  {
    if i % 2 == 1 then Pow2(p - 1) else 0
  }

  /** The p-bit reversal of i: its lowest bit becomes the highest. */
  function Rev(p: nat, i: nat): (r: nat)
    ensures r < Pow2(p)
  {
    if p == 0 then 0 else TopWeight(p, i) + Rev(p - 1, i / 2)
  }

  /** The same reversal, read from the highest bit of i down. */
  lemma {:induction false} RevFromTop(p: nat, i: nat)
    requires p > 0 && i < Pow2(p)
    ensures Rev(p, i) == 2 * Rev(p - 1, Remainder(i, Pow2(p - 1))) + Quotient(i, Pow2(p - 1))
  {
    if p > 1 {
      var h := Pow2(p - 2);
      RevFromTop(p - 1, i / 2);
      HalfOfRemainder(i, h);
    }
  }

  lemma HalfOfRemainder(i: nat, h: nat)
    requires h > 0
    ensures Remainder(i, 2 * h) % 2 == i % 2
    ensures Remainder(i, 2 * h) / 2 == Remainder(i / 2, h)
    ensures Quotient(i, 2 * h) == Quotient(i / 2, h)
  {
    var q, r := (i / 2) / h, (i / 2) % h;
    assert i / 2 == q * h + r;
    assert i == q * (2 * h) + (2 * r + i % 2);
    DivModUnique(i, 2 * h, q, 2 * r + i % 2);
  }

  /** Reversing twice restores every index of a table of 2^p entries. */
  lemma {:induction false} RevInvolution(p: nat, i: nat)
    requires i < Pow2(p)
    ensures Rev(p, Rev(p, i)) == i
  {
    if p > 0 {
      RevFromTop(p, Rev(p, i));
      RevTopBit(p, i);
      RevInvolution(p - 1, i / 2);
    }
  }

  /** The highest bit of a reversal, and what is below it. */
  lemma RevTopBit(p: nat, i: nat)
    requires p > 0
    ensures Quotient(Rev(p, i), Pow2(p - 1)) == i % 2
    ensures Remainder(Rev(p, i), Pow2(p - 1)) == Rev(p - 1, i / 2)
  {
    TopQuotient(i % 2, Pow2(p - 1), Rev(p - 1, i / 2));
  }

  lemma TopQuotient(c: nat, h: nat, low: nat)
    requires c < 2 && low < h
    ensures var x := (if c == 1 then h else 0) + low; Quotient(x, h) == c && Remainder(x, h) == low
  {
    DivModUnique((if c == 1 then h else 0) + low, h, c, low);
  }

  function Bit(i: nat, k: nat): nat { Quotient(i, Pow2(k)) % 2 }

  /** Adding a higher power of two leaves bit k alone. */
  lemma BitBelow(i: nat, p: nat, k: nat)
    requires k < p
    ensures Bit(Pow2(p) + i, k) == Bit(i, k)
  {
    hide Pow2;
    var d := Pow2(p - 1 - k);
    Pow2Add(k, p - k);
    Pow2Twice(p - k);
    AddEvenMultiple(i, d, Pow2(k));
  }

  lemma AddEvenMultiple(i: nat, d: nat, g: nat)
    requires g > 0
    ensures Quotient(g * (2 * d) + i, g) % 2 == Quotient(i, g) % 2
  {
    hide Quotient;
    QuotientAdd(i, 2 * d, g);
    EvenShift(Quotient(i, g), d);
  }

  lemma QuotientAdd(i: nat, k: nat, g: nat)
    requires g > 0
    ensures Quotient(g * k + i, g) == Quotient(i, g) + k
  {
    DivAddMultiple(i, k, g);
  }

  lemma EvenShift(q: nat, d: nat)
    ensures (q + 2 * d) % 2 == q % 2
  {
  }

  lemma BitHalf(i: nat, k: nat)
    ensures Bit(i / 2, k) == Bit(i, k + 1)
  {
    HalfOfRemainder(i, Pow2(k));
  }

  /** What the recursion means: bit k of the reversal is bit p-1-k of i. */
  lemma {:induction false} RevBits(p: nat, i: nat, k: nat)
    requires k < p
    ensures Bit(Rev(p, i), k) == Bit(i, p - 1 - k)
  {
    hide Rev;
    hide Bit;
    if k == p - 1 {
      HighestBit(p, i);
      LowestBit(i);
    } else {
      LowerBit(p, i, k);
      RevBits(p - 1, i / 2, k);
      BitHalf(i, p - 2 - k);
    }
  }

  lemma HighestBit(p: nat, i: nat)
    requires p > 0
    ensures Bit(Rev(p, i), p - 1) == i % 2
  {
    hide Rev;
    RevTopBit(p, i);
  }

  lemma LowestBit(i: nat)
    ensures Bit(i, 0) == i % 2
  {
    assert Pow2(0) == 1;
  }

  /** Below its highest bit a reversal is the reversal of the other bits. */
  lemma LowerBit(p: nat, i: nat, k: nat)
    requires k < p - 1
    ensures Bit(Rev(p, i), k) == Bit(Rev(p - 1, i / 2), k)
  {
    hide Bit;
    BitBelow(Rev(p - 1, i / 2), p - 1, k);
  }

  // ---------- the reversed counter ----------

  /** `j & bit != 0` for a single-bit mask. */
  predicate HasBit(j: nat, bit: nat) {
    bit > 0 && Quotient(j, bit) % 2 == 1
  }

  lemma SetBitFits(j: nat, bit: nat)
    requires HasBit(j, bit)
    ensures bit <= j
  {
  }

  /** `j ^ bit` for a single-bit mask. */
  function FlipBit(j: nat, bit: nat): nat {
    if HasBit(j, bit) then SetBitFits(j, bit); j - bit else j + bit
  }

  /** `j | bit` for a single-bit mask. */
  function SetBit(j: nat, bit: nat): nat {
    if HasBit(j, bit) then j else j + bit
  }

  /** One tick of the reversed counter: from the reversal of i to that of i + 1,
      carrying from the top bit downwards. */
  method AdvanceReversed(j: nat, n: nat, ghost p: nat, ghost i: nat) returns (r: nat)
    requires n == Pow2(p) && i + 1 < n && j == Rev(p, i)
    ensures r == Rev(p, i + 1)
  {
    var bit := n / 2;
    r := j;
    ghost var q: nat, c: nat := p, i;
    while HasBit(r, bit)
      invariant 1 <= q <= p && bit == Pow2(q - 1) && c + 1 < Pow2(q)
      invariant r == Rev(q, c) && Rev(q, c + 1) == Rev(p, i + 1)
      decreases q
    {
      TopBit(q, c);
      r := FlipBit(r, bit);
      bit := bit / 2;
      q, c := q - 1, c / 2;
    }
    TopBit(q, c);
    r := SetBit(r, bit);
  }

  lemma TopBit(q: nat, c: nat)
    requires q > 0
    ensures HasBit(Rev(q, c), Pow2(q - 1)) <==> c % 2 == 1
    ensures c % 2 == 0 ==> Rev(q, c + 1) == Rev(q, c) + Pow2(q - 1)
    ensures c % 2 == 1 ==> Rev(q, c + 1) == Rev(q - 1, c / 2 + 1)
    ensures c % 2 == 1 ==> Rev(q, c) == Rev(q - 1, c / 2) + Pow2(q - 1)
  {
    hide Quotient;
    hide Remainder;
    RevTopBit(q, c);
    if c % 2 == 0 { assert (c + 1) / 2 == c / 2; } else { assert (c + 1) / 2 == c / 2 + 1; }
  }

  // ---------- the permutation ----------

  /** Where the swap loop has got to: slots whose pair has come up already hold
      the element from the reversed index, the others are untouched. */
  ghost predicate SwappedUpTo(a: seq<real>, x: seq<real>, p: nat, i: nat) {
    && |a| == |x| == Pow2(p)
    && forall t :: 0 <= t < |a| ==>
         a[t] == if t <= i || Rev(p, t) <= i then x[Rev(p, t)] else x[t]
  }

  lemma SwapStep(a: seq<real>, x: seq<real>, p: nat, i: nat, a': seq<real>)
    requires 0 < i < Pow2(p) && SwappedUpTo(a, x, p, i - 1)
    requires var j := Rev(p, i); a' == if i < j then a[i := a[j]][j := a[i]] else a
    ensures SwappedUpTo(a', x, p, i)
  {
    var j := Rev(p, i);
    RevInvolution(p, i);
    forall t | 0 <= t < |a|
      ensures a'[t] == if t <= i || Rev(p, t) <= i then x[Rev(p, t)] else x[t]
    {
      RevInvolution(p, t);
      assert a[t] == if t <= i - 1 || Rev(p, t) <= i - 1 then x[Rev(p, t)] else x[t];
    }
  }

  /** Permute both halves of the signal into bit-reversed order in place. */
  method PermuteBitReversed(re: array<real>, im: array<real>, ghost p: nat)
    requires re != im && re.Length == im.Length == Pow2(p)
    modifies re, im
    ensures forall t :: 0 <= t < re.Length ==> re[t] == old(re[Rev(p, t)])
    ensures forall t :: 0 <= t < im.Length ==> im[t] == old(im[Rev(p, t)])
  {
    var n := re.Length;
    ghost var xr, xi := re[..], im[..];
    var j := 0;
    RevZero(p);
    assert SwappedUpTo(re[..], xr, p, 0) by { OnlyZeroSwapped(xr, p); }
    assert SwappedUpTo(im[..], xi, p, 0) by { OnlyZeroSwapped(xi, p); }
    for i := 1 to n
      invariant j == Rev(p, i - 1)
      invariant SwappedUpTo(re[..], xr, p, i - 1)
      invariant SwappedUpTo(im[..], xi, p, i - 1)
    {
      ghost var ar, ai := re[..], im[..];
      j := AdvanceReversed(j, n, p, i - 1);
      if i < j {
        re[i], re[j] := re[j], re[i];
        im[i], im[j] := im[j], im[i];
      }
      assert re[..] == if i < j then ar[i := ar[j]][j := ar[i]] else ar;
      assert im[..] == if i < j then ai[i := ai[j]][j := ai[i]] else ai;
      SwapStep(ar, xr, p, i, re[..]);
      SwapStep(ai, xi, p, i, im[..]);
    }
    forall t | 0 <= t < n
      ensures re[t] == xr[Rev(p, t)] && im[t] == xi[Rev(p, t)]
    {
      assert re[..][t] == xr[Rev(p, t)] && im[..][t] == xi[Rev(p, t)];
    }
  }

  lemma {:induction false} RevZero(p: nat)
    ensures Rev(p, 0) == 0
  {
    if p > 0 { RevZero(p - 1); }
  }

  lemma OnlyZeroSwapped(x: seq<real>, p: nat)
    requires |x| == Pow2(p)
    ensures SwappedUpTo(x, x, p, 0)
  {
    RevZero(p);
    forall t | 0 <= t < |x| && Rev(p, t) == 0
      ensures t == 0
    {
      RevInvolution(p, t);
    }
  }
}
