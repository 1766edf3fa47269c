/**
 * The bitmask enumeration of subsets used by the OR and AND cases of the
 * configuration enumerator: mask `m` selects element `j` of a list when
 * bit `j` of `m` is set, read by repeated `% 2` and `/ 2`.
 */
module Masks {
  import opened Sequences

  function Pow2(n: nat): (r: nat)
    ensures r >= 1
  {
    if n == 0 then 1 else 2 * Pow2(n - 1)
  }

  /** Integer.MAX_VALUE */
  const IntMax: int := 0x7fff_ffff

  /**
   * `(int) Math.pow(2, n)`: the double 2^n narrowed to a Java int, which
   * saturates at Integer.MAX_VALUE from n = 31 on.
   */
  function BranchBound(n: nat): (r: nat)
    ensures n <= 30 ==> r == Pow2(n)
    ensures n >= 31 ==> r == IntMax
  {
    PowLimits();
    assert n >= 31 ==> Pow2(n) > IntMax by {
      if n >= 31 {
        PowMonotone(31, n);
      }
    }
    assert n <= 30 ==> Pow2(n) <= IntMax by {
      if n <= 30 {
        PowMonotone(n, 30);
      }
    }
    if Pow2(n) > IntMax then IntMax else Pow2(n)
  }

  lemma {:induction false} PowMonotone(a: nat, b: nat)
    requires a <= b
    ensures Pow2(a) <= Pow2(b)
    decreases b
  {
    if a < b {
      PowMonotone(a, b - 1);
    }
  }

  /** 2^30 still fits in a Java int; 2^31 is one more than the largest one. */
  lemma PowLimits()
    ensures Pow2(30) == 0x4000_0000 && Pow2(31) == IntMax + 1
  {
    assert Pow2(10) == 1024;
    assert Pow2(20) == 1024 * 1024 by { PowAdd(10, 10); }
    PowAdd(20, 10);
    assert Pow2(31) == 2 * Pow2(30);
  }

  lemma {:induction false} PowAdd(a: nat, b: nat)
    ensures Pow2(a + b) == Pow2(a) * Pow2(b)
    decreases b
  {
    if b > 0 {
      PowAdd(a, b - 1);
      assert Pow2(a + b) == 2 * Pow2(a + b - 1);
    }
  }

  /** The elements of `xs` whose bit is set in `mask`, in list order. */
  function Subset<T>(xs: seq<T>, mask: nat): seq<T>
  {
    if xs == [] then []
    else (if mask % 2 != 0 then [xs[0]] else []) + Subset(xs[1..], mask / 2)
  }

  /** The first `n` bits of `mask`, least significant first. */
  function Bits(mask: nat, n: nat): (r: seq<bool>)
    ensures |r| == n
  {
    if n == 0 then [] else [mask % 2 != 0] + Bits(mask / 2, n - 1)
  }

  /** The number whose bits, least significant first, are `bs`. */
  function FromBits(bs: seq<bool>): nat
  {
    if bs == [] then 0 else (if bs[0] then 1 else 0) + 2 * FromBits(bs[1..])
  }

  /** The elements of `xs` whose flag in `bs` is set. */
  function Pick<T>(xs: seq<T>, bs: seq<bool>): seq<T>
    requires |xs| == |bs|
  {
    if xs == [] then [] else (if bs[0] then [xs[0]] else []) + Pick(xs[1..], bs[1..])
  }

  lemma {:induction false} FromBitsBound(bs: seq<bool>)
    ensures FromBits(bs) < Pow2(|bs|)
  {
    if bs != [] {
      FromBitsBound(bs[1..]);
    }
  }

  /** Reading `n` bits of a mask below 2^n and putting them back gives the mask. */
  lemma {:induction false} BitsRoundTrip(mask: nat, n: nat)
    requires mask < Pow2(n)
    ensures FromBits(Bits(mask, n)) == mask
  {
    if n > 0 {
      BitsRoundTrip(mask / 2, n - 1);
      assert Bits(mask, n)[1..] == Bits(mask / 2, n - 1);
    }
  }

  /** Every choice of elements is the bit pattern of exactly one mask below 2^n. */
  lemma {:induction false} FromBitsRoundTrip(bs: seq<bool>)
    ensures Bits(FromBits(bs), |bs|) == bs
  {
    if bs != [] {
      FromBitsRoundTrip(bs[1..]);
      var r := FromBits(bs[1..]);
      var b := if bs[0] then 1 else 0;
      var m := FromBits(bs);
      assert m == b + 2 * r;
      HalveOdd(b, r);
      assert Bits(m, |bs|) == [m % 2 != 0] + Bits(m / 2, |bs| - 1);
      assert bs == [bs[0]] + bs[1..];
    }
  }

  lemma HalveOdd(b: nat, r: nat)
    requires b < 2
    ensures (b + 2 * r) % 2 == b && (b + 2 * r) / 2 == r
  {
  }

  /**
   * The masks 0 .. 2^n - 1 enumerate the 2^n choices of elements of an
   * n-element list, each exactly once.
   */
  lemma MasksEnumerateChoices(n: nat)
    ensures forall m :: 0 <= m < Pow2(n) ==> FromBits(Bits(m, n)) == m
    ensures forall bs: seq<bool> :: |bs| == n ==> FromBits(bs) < Pow2(n) && Bits(FromBits(bs), n) == bs
  {
    forall m | 0 <= m < Pow2(n) ensures FromBits(Bits(m, n)) == m {
      BitsRoundTrip(m, n);
    }
    forall bs: seq<bool> | |bs| == n ensures FromBits(bs) < Pow2(n) && Bits(FromBits(bs), n) == bs {
      FromBitsBound(bs);
      FromBitsRoundTrip(bs);
    }
  }

  /** Mask selection picks exactly the elements whose bit is set. */
  lemma {:induction false} SubsetIsPick<T>(xs: seq<T>, mask: nat)
    ensures Subset(xs, mask) == Pick(xs, Bits(mask, |xs|))
  {
    if xs != [] {
      SubsetIsPick(xs[1..], mask / 2);
      assert Bits(mask, |xs|)[1..] == Bits(mask / 2, |xs| - 1);
    }
  }

  /** A mask selection keeps the list order of the elements it selects. */
  lemma {:induction false} SubsetIsSubsequence<T>(xs: seq<T>, mask: nat)
    ensures IsSubsequence(Subset(xs, mask), xs)
  {
    if xs != [] {
      SubsetIsSubsequence(xs[1..], mask / 2);
      assert xs == [xs[0]] + xs[1..];
      var tail := Subset(xs[1..], mask / 2);
      SubsequenceCons(xs[0], tail, xs[1..]);
      if mask % 2 != 0 {
        assert Subset(xs, mask) == [xs[0]] + tail;
      } else {
        assert Subset(xs, mask) == tail;
      }
    }
  }

  /** Mask 0 selects nothing; every mask with a bit set below 2^n selects something. */
  lemma {:induction false} SubsetEmptyIff<T>(xs: seq<T>, mask: nat)
    requires mask < Pow2(|xs|)
    ensures Subset(xs, mask) == [] <==> mask == 0
  {
    if xs != [] {
      SubsetEmptyIff(xs[1..], mask / 2);
    }
  }
}
