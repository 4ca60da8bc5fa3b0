/** The radix-2 in-place transform, proved equal to the transform sum. */
module Fft {
  import opened Numerics
  import opened Complex
  import opened BitReversal

  // ---------- polynomials at powers of a root ----------

  /** The first n terms of s[0] + s[1] z + s[2] z^2 + ... */
  ghost function Eval(s: seq<C>, z: C, n: nat): C
    requires n <= |s|
  {
    if n == 0 then ZERO else Add(Eval(s, z, n - 1), Mul(s[n - 1], Pow(z, n - 1)))
  }

  ghost function Evens(s: seq<C>): (e: seq<C>)
    ensures |e| == (|s| + 1) / 2
  {
    seq((|s| + 1) / 2, i requires 0 <= i < (|s| + 1) / 2 => s[2 * i])
  }

  ghost function Odds(s: seq<C>): (o: seq<C>)
    ensures |o| == |s| / 2
  {
    seq(|s| / 2, i requires 0 <= i < |s| / 2 => s[2 * i + 1])
  }

  lemma {:induction false} EvalSplit(s: seq<C>, z: C, m: nat)
    requires 2 * m <= |s|
    ensures var zz := Mul(z, z);
      Eval(s, z, 2 * m) == Add(Eval(Evens(s), zz, m), Mul(z, Eval(Odds(s), zz, m)))
  {
    hide Mul;
    hide Add;
    var zz := Mul(z, z);
    if m == 0 {
      MulZero(z);
      MulZero(ZERO);
    } else {
      var n := m - 1;
      EvalSplit(s, z, n);
      var e, o := Eval(Evens(s), zz, n), Eval(Odds(s), zz, n);
      SquarePower(z, n);
      SplitStep(e, o, z, Pow(zz, n), s[2 * n], s[2 * n + 1]);
      assert Eval(s, z, 2 * n + 1) == Add(Eval(s, z, 2 * n), Mul(s[2 * n], Pow(zz, n)));
      assert Eval(s, z, 2 * m) == Add(Eval(s, z, 2 * n + 1), Mul(s[2 * n + 1], Mul(Pow(zz, n), z)));
    }
  }

  lemma SquarePower(z: C, n: nat)
    ensures Pow(z, 2 * n) == Pow(Mul(z, z), n)
    ensures Pow(z, 2 * n + 1) == Mul(Pow(Mul(z, z), n), z)
  {
    PowPow(z, 2, n);
    assert Pow(z, 1) == z;
    assert Pow(z, 2) == Mul(z, z);
  }

  lemma SplitStep(e: C, o: C, z: C, w: C, a: C, b: C)
    ensures Add(Add(Add(e, Mul(z, o)), Mul(a, w)), Mul(b, Mul(w, z)))
         == Add(Add(e, Mul(a, w)), Mul(z, Add(o, Mul(b, w))))
  {
    MulAdd(z, o, Mul(b, w));
    MulAssoc(b, w, z);
    MulComm(z, Mul(b, w));
  }

  // ---------- the recursive splitting of the input ----------

  /** Block b of the 2^q blocks obtained by splitting x q times into its even
      and odd elements. */
  ghost function Block(x: seq<C>, q: nat, b: nat): seq<C> {
    if q == 0 then x
    else if b % 2 == 0 then Evens(Block(x, q - 1, b / 2))
    else Odds(Block(x, q - 1, b / 2))
  }

  /** The index in x of element i of block b. */
  ghost function Source(q: nat, b: nat, i: nat): nat {
    i * Pow2(q) + Rev(q, b)
  }

  lemma SourceSplit(q: nat, b: nat, i: nat)
    requires q > 0
    ensures Source(q, b, i) == Source(q - 1, b / 2, 2 * i + b % 2)
  {
    hide Pow2;
    var h := Pow2(q - 1);
    Pow2Twice(q);
    if b % 2 == 1 {
      assert (2 * i + 1) * h == i * (2 * h) + h;
    } else {
      assert (2 * i) * h == i * (2 * h);
    }
  }

  /** A block takes every other element of the block it was split from. */
  lemma BlockSplit(x: seq<C>, q: nat, b: nat, h: nat)
    requires q > 0 && |Block(x, q - 1, b / 2)| == 2 * h
    ensures |Block(x, q, b)| == h
    ensures forall i :: 0 <= i < h ==>
      0 <= 2 * i + b % 2 < 2 * h && Block(x, q, b)[i] == Block(x, q - 1, b / 2)[2 * i + b % 2]
  {
    hide Block;
    hide Evens;
    hide Odds;
    BlockIs(x, q, b);
    HalvesAt(Block(x, q - 1, b / 2), h);
    if b % 2 != 0 { assert b % 2 == 1; }
  }

  lemma BlockIs(x: seq<C>, q: nat, b: nat)
    requires q > 0
    ensures Block(x, q, b) == if b % 2 == 0 then Evens(Block(x, q - 1, b / 2)) else Odds(Block(x, q - 1, b / 2))
  {
  }

  lemma HalvesAt(s: seq<C>, h: nat)
    requires |s| == 2 * h
    ensures |Evens(s)| == h && |Odds(s)| == h
    ensures forall i :: 0 <= i < h ==> Evens(s)[i] == s[2 * i] && Odds(s)[i] == s[2 * i + 1]
  {
  }

  lemma BlockWhole(x: seq<C>, b: nat, i: nat)
    ensures Block(x, 0, b) == x && Source(0, b, i) == i
  {
  }

  lemma {:induction false} BlockElements(x: seq<C>, p: nat, q: nat, b: nat)
    requires |x| == Pow2(p) && q <= p
    ensures |Block(x, q, b)| == Pow2(p - q)
    ensures forall i :: 0 <= i < Pow2(p - q) ==>
      Source(q, b, i) < |x| && Block(x, q, b)[i] == x[Source(q, b, i)]
  {
    hide *;
    if q == 0 {
      BlockWhole(x, b, 0);
    } else {
      var half := b / 2;
      BlockElements(x, p, q - 1, half);
      Pow2Twice(p - q + 1);
      BlockSplit(x, q, b, Pow2(p - q));
    }
    forall i | 0 <= i < Pow2(p - q)
      ensures Source(q, b, i) < |x| && Block(x, q, b)[i] == x[Source(q, b, i)]
    {
      if q == 0 { BlockWhole(x, b, i); } else { SourceSplit(q, b, i); }
    }
  }

  lemma BlockLength(x: seq<C>, p: nat, q: nat, b: nat)
    requires |x| == Pow2(p) && q <= p
    ensures |Block(x, q, b)| == Pow2(p - q)
  {
    BlockElements(x, p, q, b);
  }

  // ---------- twiddles ----------

  /** The rotation a pass of sub-transform length len advances by. */
  function Root(t: Trig, len: nat): C
    requires len > 0
  {
    Cis(t, -2.0 * t.pi / len as real)
  }

  lemma HalfAngle(pi: real, half: nat, a: real)
    requires half > 0 && a == -2.0 * pi / (2 * half) as real
    ensures a + a == -2.0 * pi / half as real
    ensures half as real * a == -pi
  {
    var h := half as real;
    assert (2 * half) as real == 2.0 * h;
    assert a * (2.0 * h) == -2.0 * pi;
    assert h * a == -pi;
    assert (a + a) * h == -2.0 * pi;
  }

  lemma RootLaws(t: Trig, half: nat)
    requires Lawful(t) && half > 0
    ensures Mul(Root(t, 2 * half), Root(t, 2 * half)) == Root(t, half)
    ensures Pow(Root(t, 2 * half), half) == Neg(ONE)
  {
    hide Mul;
    var a := -2.0 * t.pi / (2 * half) as real;
    HalfAngle(t.pi, half, a);
    CisAdd(t, a, a);
    CisPow(t, a, half);
  }

  /** The two outputs of one butterfly are the longer transform at k and at
      k + half. */
  lemma ButterflyMeaning(t: Trig, s: seq<C>, half: nat, k: nat)
    requires Lawful(t) && k < half && |s| == 2 * half
    ensures var w := Root(t, 2 * half);
      var v := Pow(Root(t, half), k);
      var e, o := Eval(Evens(s), v, half), Eval(Odds(s), v, half);
      && Eval(s, Pow(w, k), 2 * half) == Add(e, Mul(o, Pow(w, k)))
      && Eval(s, Pow(w, k + half), 2 * half) == Sub(e, Mul(o, Pow(w, k)))
  {
    hide Mul;
    hide Add;
    hide Neg;
    var w := Root(t, 2 * half);
    var c, d := Pow(w, k), Pow(w, k + half);
    RootLaws(t, half);
    SquarePower(w, k);
    PowAdd(w, k, k);
    PowAdd(w, k, half);
    MulNeg(c, ONE);
    MulOne(c);
    assert d == Neg(c);
    MulNeg(c, Neg(c));
    MulNeg(c, c);
    EvalSplit(s, c, half);
    EvalSplit(s, d, half);
    var v := Pow(Root(t, half), k);
    var e, o := Eval(Evens(s), v, half), Eval(Odds(s), v, half);
    MulComm(o, c);
    MulNeg(c, o);
    MulNeg(e, Mul(o, c));
  }

  // ---------- passes ----------

  ghost function Bin(re: array<real>, im: array<real>, i: int): C
    requires 0 <= i < re.Length == im.Length
    reads re, im
  {
    C(re[i], im[i])
  }

  /** What slot i holds once sub-transforms of length 2^s are complete. */
  ghost function Done(t: Trig, x: seq<C>, p: nat, s: nat, i: nat): C
    requires s <= p
  {
    var block := Block(x, p - s, Quotient(i, Pow2(s)));
    Eval(block, Pow(Root(t, Pow2(s)), Remainder(i, Pow2(s))), |block|)
  }

  lemma DoneAt(t: Trig, x: seq<C>, p: nat, s: nat, i: nat, b: nat, k: nat)
    requires |x| == Pow2(p) && s <= p && k < Pow2(s) && i == b * Pow2(s) + k
    ensures |Block(x, p - s, b)| == Pow2(s)
    ensures Done(t, x, p, s, i) == Eval(Block(x, p - s, b), Pow(Root(t, Pow2(s)), k), Pow2(s))
  {
    hide Eval;
    hide Pow;
    hide Root;
    BlockLength(x, p, p - s, b);
    DivModUnique(i, Pow2(s), b, k);
  }

  lemma DoneAtStart(t: Trig, x: seq<C>, p: nat, i: nat)
    requires |x| == Pow2(p) && i < |x|
    ensures Done(t, x, p, 0, i) == x[Rev(p, i)]
  {
    hide Mul;
    PowZero(Root(t, 1));
    BlockElements(x, p, p, i);
    var s := Block(x, p, i);
    assert s[0] == x[Source(p, i, 0)];
    MulOne(s[0]);
    MulZero(s[0]);
    assert Eval(s, Pow(Root(t, 1), 0), 1) == Add(ZERO, Mul(s[0], ONE));
  }

  lemma ButterflySlots(p: nat, s: nat, b: nat, k: nat, i: nat, m: nat)
    requires 0 < s <= p && b < Pow2(p - s) && k < Pow2(s - 1)
    requires i == b * Pow2(s) + k && m == i + Pow2(s - 1)
    ensures m < Pow2(p)
    ensures i == (2 * b) * Pow2(s - 1) + k && m == (2 * b + 1) * Pow2(s - 1) + k
  {
    hide Pow2;
    var half := Pow2(s - 1);
    Pow2Twice(s);
    Pow2Add(p - s, s);
    MulMono(b + 1, Pow2(p - s), Pow2(s));
    assert (b + 1) * Pow2(s) == b * Pow2(s) + Pow2(s);
    assert b * (2 * half) == (2 * b) * half;
    assert (2 * b + 1) * half == (2 * b) * half + half;
  }

  /** One butterfly takes a pair of slots from the shorter to the longer
      sub-transforms. */
  lemma ButterflyStep(t: Trig, x: seq<C>, p: nat, s: nat, b: nat, k: nat, i: nat, m: nat)
    requires Lawful(t) && |x| == Pow2(p) && 0 < s <= p && b < Pow2(p - s) && k < Pow2(s - 1)
    requires i == BlockStart(s, b) + k && m == i + Pow2(s - 1)
    ensures var turn := Mul(Done(t, x, p, s - 1, m), Pow(Root(t, Pow2(s)), k));
      && Done(t, x, p, s, i) == Add(Done(t, x, p, s - 1, i), turn)
      && Done(t, x, p, s, m) == Sub(Done(t, x, p, s - 1, i), turn)
  {
    hide *;
    var half := Pow2(s - 1);
    assert Pow2(s) == 2 * half by { Pow2Twice(s); }
    assert BlockStart(s, b) == b * Pow2(s) by { BlockStartIs(s, b); }
    ButterflySlots(p, s, b, k, i, m);
    DoneAt(t, x, p, s, i, b, k);
    DoneAt(t, x, p, s, m, b, k + half);
    DoneAt(t, x, p, s - 1, i, 2 * b, k);
    DoneAt(t, x, p, s - 1, m, 2 * b + 1, k);
    BlockHalves(x, p - s, b);
    ButterflyMeaning(t, Block(x, p - s, b), half, k);
  }

  /** Where block b of a pass over blocks of 2^s slots begins. */
  ghost function BlockStart(s: nat, b: nat): nat {
    b * Pow2(s)
  }

  lemma BlockStartIs(s: nat, b: nat)
    ensures BlockStart(s, b) == b * Pow2(s)
    ensures BlockStart(s, b + 1) == BlockStart(s, b) + Pow2(s)
  {
    hide Pow2;
    DistributeOne(b, Pow2(s));
  }

  lemma DistributeOne(b: nat, p: nat)
    ensures (b + 1) * p == b * p + p
  {
  }

  lemma PowNext(z: C, k: nat, c: C)
    requires c == Pow(z, k)
    ensures Mul(c, z) == Pow(z, k + 1)
  {
  }

  lemma BlockHalves(x: seq<C>, q: nat, b: nat)
    ensures Block(x, q + 1, 2 * b) == Evens(Block(x, q, b))
    ensures Block(x, q + 1, 2 * b + 1) == Odds(Block(x, q, b))
  {
    hide Evens;
    hide Odds;
    assert (2 * b) % 2 == 0 && (2 * b) / 2 == b;
    assert (2 * b + 1) % 2 == 1 && (2 * b + 1) / 2 == b;
  }

  /** A complex product on separate parts: what turns a sample by the twiddle,
      and what advances the twiddle by one step. */
  method MulParts(ar: real, ai: real, br: real, bi: real) returns (r: real, i: real)
    ensures C(r, i) == Mul(C(ar, ai), C(br, bi))
  {
    r := ar * br - ai * bi;
    i := ar * bi + ai * br;
  }

  /** Twiddled sum and difference of two slots, in place. */
  method Butterfly(re: array<real>, im: array<real>, i: nat, m: nat, curR: real, curI: real)
    requires re != im && i < m < re.Length == im.Length
    modifies re, im
    ensures var turn := Mul(old(Bin(re, im, m)), C(curR, curI));
      && Bin(re, im, i) == Add(old(Bin(re, im, i)), turn)
      && Bin(re, im, m) == Sub(old(Bin(re, im, i)), turn)
    ensures forall j :: 0 <= j < re.Length && j != i && j != m ==>
      re[j] == old(re[j]) && im[j] == old(im[j])
  {
    hide Mul;
    var tr, ti := MulParts(re[m], im[m], curR, curI);
    re[m] := re[i] - tr;
    im[m] := im[i] - ti;
    re[i] := re[i] + tr;
    im[i] := im[i] + ti;
  }

  /** One block of one pass: merge two half-length sub-transforms. */
  method MergeBlock(re: array<real>, im: array<real>, start: nat, half: nat, wr: real, wi: real,
                    ghost t: Trig, ghost x: seq<C>, ghost p: nat, ghost s: nat, ghost b: nat)
    requires re != im && re.Length == im.Length == |x| == Pow2(p)
    requires Lawful(t) && 0 < s <= p && half == Pow2(s - 1) && b < Pow2(p - s)
    requires start == BlockStart(s, b) && start + 2 * half <= re.Length
    requires C(wr, wi) == Root(t, Pow2(s))
    requires forall i :: start <= i < start + 2 * half ==> Bin(re, im, i) == Done(t, x, p, s - 1, i)
    modifies re, im
    ensures forall i :: start <= i < start + 2 * half ==> Bin(re, im, i) == Done(t, x, p, s, i)
    ensures forall i :: 0 <= i < re.Length && !(start <= i < start + 2 * half) ==>
      Bin(re, im, i) == old(Bin(re, im, i))
  {
    hide Mul;
    hide Add;
    hide Sub;
    hide Pow;
    hide Root;
    hide Done;
    hide Lawful;
    hide BlockStart;
    ghost var w := Root(t, Pow2(s));
    var curR, curI := 1.0, 0.0;
    assert C(curR, curI) == Pow(w, 0) by { PowZero(w); }
    for k := 0 to half
      invariant C(curR, curI) == Pow(w, k)
      invariant forall i :: start <= i < start + 2 * half ==>
        Bin(re, im, i) == Done(t, x, p, if Merged(i, start, half, k) then s else s - 1, i)
      invariant forall i :: 0 <= i < re.Length && !(start <= i < start + 2 * half) ==>
        Bin(re, im, i) == old(Bin(re, im, i))
    {
      var i, m := start + k, start + k + half;
      ButterflyStep(t, x, p, s, b, k, i, m);
      assert !Merged(i, start, half, k) && !Merged(m, start, half, k);
      assert Bin(re, im, i) == Done(t, x, p, s - 1, i);
      assert Bin(re, im, m) == Done(t, x, p, s - 1, m);
      label Before:
      Butterfly(re, im, i, m, curR, curI);
      forall j | start <= j < start + 2 * half
        ensures Bin(re, im, j) == Done(t, x, p, if Merged(j, start, half, k + 1) then s else s - 1, j)
      {
        if j != i && j != m {
          assert Bin(re, im, j) == old@Before(Bin(re, im, j));
        }
      }
      PowNext(w, k, C(curR, curI));
      curR, curI := MulParts(curR, curI, wr, wi);
    }
  }

  lemma PowZero(z: C)
    ensures Pow(z, 0) == C(1.0, 0.0)
  {
  }

  /** The slots the first k butterflies of a block have written. */
  ghost predicate Merged(i: int, start: int, half: int, k: int) {
    start <= i < start + k || start + half <= i < start + half + k
  }

  /** One pass: every block of the signal goes from length len / 2 to len. */
  method Pass(re: array<real>, im: array<real>, len: nat, wr: real, wi: real,
              ghost t: Trig, ghost x: seq<C>, ghost p: nat, ghost s: nat)
    requires re != im && re.Length == im.Length == |x| == Pow2(p)
    requires Lawful(t) && 0 < s <= p && len == Pow2(s) && C(wr, wi) == Root(t, len)
    requires forall i :: 0 <= i < |x| ==> Bin(re, im, i) == Done(t, x, p, s - 1, i)
    modifies re, im
    ensures forall i :: 0 <= i < |x| ==> Bin(re, im, i) == Done(t, x, p, s, i)
  {
    var n := re.Length;
    var half := len / 2;
    var start := 0;
    ghost var b: nat := 0;
    while start < n
      invariant start == BlockStart(s, b)
      invariant forall i :: 0 <= i < |x| ==>
        Bin(re, im, i) == Done(t, x, p, if i < start then s else s - 1, i)
    {
      WholeBlock(p, s, b);
      MergeBlock(re, im, start, half, wr, wi, t, x, p, s, b);
      start := start + len;
      b := b + 1;
    }
  }

  lemma WholeBlock(p: nat, s: nat, b: nat)
    requires s <= p && BlockStart(s, b) < Pow2(p)
    ensures b < Pow2(p - s) && BlockStart(s, b) + Pow2(s) <= Pow2(p)
    ensures BlockStart(s, b + 1) == BlockStart(s, b) + Pow2(s)
  {
    Pow2Add(p - s, s);
    BlockStartIs(s, b);
    if b >= Pow2(p - s) {
      MulMono(Pow2(p - s), b, Pow2(s));
    } else {
      MulMono(b + 1, Pow2(p - s), Pow2(s));
    }
  }

  // ---------- the whole transform ----------

  ghost function Angle(t: Trig, k: int, n: int, size: nat): real
    requires size > 0
  {
    -2.0 * t.pi * (k * n) as real / size as real
  }

  /** Term n of the real part of X[k] = sum of x[n] e^(-j 2 pi k n / N). */
  ghost function DftRe(t: Trig, xr: seq<real>, xi: seq<real>, k: int): int -> real
    requires |xr| > 0
  {
    n => At(xr, n) * t.cos(Angle(t, k, n, |xr|)) - At(xi, n) * t.sin(Angle(t, k, n, |xr|))
  }

  ghost function DftIm(t: Trig, xr: seq<real>, xi: seq<real>, k: int): int -> real
    requires |xr| > 0
  {
    n => At(xr, n) * t.sin(Angle(t, k, n, |xr|)) + At(xi, n) * t.cos(Angle(t, k, n, |xr|))
  }

  ghost function Pairs(xr: seq<real>, xi: seq<real>): (x: seq<C>)
    requires |xr| == |xi|
    ensures |x| == |xr|
  {
    seq(|xr|, i requires 0 <= i < |xr| => C(xr[i], xi[i]))
  }

  lemma {:induction false} EvalIsDft(t: Trig, xr: seq<real>, xi: seq<real>, k: nat, n: nat)
    requires Lawful(t) && |xr| == |xi| && 0 < |xr| && n <= |xr|
    ensures Eval(Pairs(xr, xi), Pow(Root(t, |xr|), k), n)
         == C(Sum(DftRe(t, xr, xi, k), n), Sum(DftIm(t, xr, xi, k), n))
  {
    hide Root;
    hide Pow;
    hide Mul;
    hide Angle;
    hide DftRe;
    hide DftIm;
    hide Lawful;
    if n > 0 {
      EvalIsDft(t, xr, xi, k, n - 1);
      TwiddlePower(t, |xr|, k, n - 1);
      DftTerm(t, xr, xi, k, n - 1);
    }
  }

  lemma DftTerm(t: Trig, xr: seq<real>, xi: seq<real>, k: nat, n: nat)
    requires |xr| == |xi| && n < |xr|
    ensures Mul(C(xr[n], xi[n]), Cis(t, Angle(t, k, n, |xr|)))
         == C(DftRe(t, xr, xi, k)(n), DftIm(t, xr, xi, k)(n))
  {
  }

  lemma TwiddlePower(t: Trig, size: nat, k: nat, n: nat)
    requires Lawful(t) && size > 0
    ensures Pow(Pow(Root(t, size), k), n) == Cis(t, Angle(t, k, n, size))
  {
    var a := -2.0 * t.pi / size as real;
    var m: nat := k * n;
    var angle := Angle(t, k, n, size);
    assert angle == m as real * a by {
      ScaleQuotient(-2.0 * t.pi, m as real, size as real);
    }
    PowPow(Root(t, size), k, n);
    CisPowTo(t, a, m, angle);
  }

  lemma CisPowTo(t: Trig, a: real, n: nat, angle: real)
    requires Lawful(t) && angle == n as real * a
    ensures Pow(Cis(t, a), n) == Cis(t, angle)
  {
    hide Mul;
    CisPow(t, a, n);
  }

  lemma ScaleQuotient(c: real, m: real, d: real)
    requires d != 0.0
    ensures m * (c / d) == c * m / d
  {
    assert (m * (c / d)) * d == c * m;
  }

  lemma DoneIsDft(t: Trig, xr: seq<real>, xi: seq<real>, p: nat, k: nat)
    requires Lawful(t) && |xr| == |xi| == Pow2(p) && k < |xr|
    ensures Done(t, Pairs(xr, xi), p, p, k)
         == C(Sum(DftRe(t, xr, xi, k), |xr|), Sum(DftIm(t, xr, xi, k), |xr|))
  {
    hide Pow;
    hide Root;
    DoneAt(t, Pairs(xr, xi), p, p, k, 0, k);
    EvalIsDft(t, xr, xi, k, |xr|);
  }

  /** Forward transform in place: slot k ends up holding the sum over n of
      x[n] e^(-j 2 pi k n / N), for every power-of-two length (and lengths 0
      and 1, which are left alone). */
  method FftInPlace(t: Trig, re: array<real>, im: array<real>, ghost p: nat)
    requires Lawful(t) && re != im && re.Length == im.Length
    requires re.Length > 1 ==> re.Length == Pow2(p)
    modifies re, im
    ensures forall k :: 0 <= k < re.Length ==>
      && re[k] == Sum(DftRe(t, old(re[..]), old(im[..]), k), re.Length)
      && im[k] == Sum(DftIm(t, old(re[..]), old(im[..]), k), re.Length)
  {
    hide Lawful;
    hide Done;
    hide Sum;
    hide Rev;
    hide DftRe;
    hide DftIm;
    ghost var xr, xi := re[..], im[..];
    var n := re.Length;
    if n <= 1 {
      if n == 1 { SingleBin(t, xr, xi); }
      return;
    }
    ghost var x := Pairs(xr, xi);
    PermuteBitReversed(re, im, p);
    forall i | 0 <= i < n
      ensures Bin(re, im, i) == Done(t, x, p, 0, i)
    {
      DoneAtStart(t, x, p, i);
    }
    var len := 2;
    ghost var s := 1;
    while len <= n
      invariant 1 <= s <= p + 1 && len == Pow2(s)
      invariant forall i :: 0 <= i < n ==> Bin(re, im, i) == Done(t, x, p, s - 1, i)
      decreases p + 1 - s
    {
      if s == p + 1 { assert false; }
      var angle := -2.0 * t.pi / len as real;
      var wr, wi := t.cos(angle), t.sin(angle);
      Pass(re, im, len, wr, wi, t, x, p, s);
      len := 2 * len;
      s := s + 1;
    }
    if s <= p { Pow2Mono(s, p); }
    forall k | 0 <= k < n
      ensures re[k] == Sum(DftRe(t, xr, xi, k), n) && im[k] == Sum(DftIm(t, xr, xi, k), n)
    {
      assert Bin(re, im, k) == Done(t, x, p, p, k);
      DoneIsDft(t, xr, xi, p, k);
    }
  }

  lemma {:induction false} Pow2Mono(a: nat, b: nat)
    requires a <= b
    ensures Pow2(a) <= Pow2(b)
    decreases b
  {
    if a < b { Pow2Mono(a, b - 1); }
  }

  lemma SingleBin(t: Trig, xr: seq<real>, xi: seq<real>)
    requires Lawful(t) && |xr| == |xi| == 1
    ensures Sum(DftRe(t, xr, xi, 0), 1) == xr[0]
    ensures Sum(DftIm(t, xr, xi, 0), 1) == xi[0]
  {
    var f, g := DftRe(t, xr, xi, 0), DftIm(t, xr, xi, 0);
    assert Angle(t, 0, 0, 1) == 0.0;
    assert Sum(f, 1) == Sum(f, 0) + f(0);
    assert Sum(g, 1) == Sum(g, 0) + g(0);
  }
}
