/**
  The bit-vector benchmark helpers of hackdel.py: population count, number of
  leading zeros, the power-of-two test, the operator-frequency defaulting of
  `sol`, and the specifications of the first eight Hacker's Delight programs
  (p01-p08), each with the bit-level identity its description states.

  The width w of the benchmark is the width of the bit vectors (|x|).
 */
module HackersDelight {
  import opened BitVectors

  // ---------------------------------------------------------------------------
  // popcount

  /** ZeroExt(w - 1, Extract(i, i, x)): bit i of x as a vector of width w. */
  function BitAsVector(x: Bits, i: nat): (r: Bits)
    requires i < |x|
    ensures |r| == |x| && ToNat(r) == B2N(x[i])
  {
    ZeroValue(|x| - 1);
    [x[i]] + Zero(|x| - 1)
  }

  /**
    popcount: res starts at the w-bit zero; for every bit position i,
    res := ZeroExt(w - 1, x[i]) + res in w-bit arithmetic.  The w-bit sum never
    wraps, so its value is the number of 1-bits of x.
   */
  method Popcount(x: Bits) returns (res: Bits)
    ensures |res| == |x|
    ensures ToNat(res) == CountOnes(x)
    ensures ToNat(res) <= |x|
  {
    var w := |x|;
    res := Zero(w);
    ZeroValue(w);
    WidthBelowPow2(w);
    for i := 0 to w
      invariant |res| == w
      invariant ToNat(res) == CountOnes(x[..i])
    {
      var bit := BitAsVector(x, i);
      assert x[..i + 1] == x[..i] + [x[i]];
      CountOnesAppend(x[..i], [x[i]]);
      assert CountOnes([x[i]]) == B2N(x[i]) by {
        assert [x[i]][1..] == [];
      }
      AddCExact(bit, res, false);
      // the exact sum is at most i + 1 <= w < 2^w, so no carry is lost
      res := Add(bit, res);
    }
    assert x[..w] == x;
  }

  lemma PopcountOfZero(w: nat)
    ensures CountOnes(Zero(w)) == 0
  {
    CountOnesZero(w);
  }

  // ---------------------------------------------------------------------------
  // nlz

  /** The number of 0-bits above the most significant 1-bit (w when x is 0). */
  function LeadingZeros(x: Bits): (r: nat)
    ensures r <= |x|
    ensures forall j :: |x| - r <= j < |x| ==> !x[j]
    ensures r < |x| ==> x[|x| - 1 - r]
  {
    if x == [] then 0 else if x[|x| - 1] then 0 else 1 + LeadingZeros(x[..|x| - 1])
  }

  /**
    The loop guard of nlz for position i: bit i is 1 and Extract(w - 1, i + 1, x)
    is zero.
   */
  predicate NlzGuard(x: Bits, i: nat)
    requires i < |x|
  {
    x[i] && forall j :: i < j < |x| ==> !x[j]
  }

  /** The guard holds at exactly one position, the most significant 1-bit. */
  lemma NlzGuardAtHighestBit(x: Bits, i: nat)
    requires i < |x|
    ensures NlzGuard(x, i) <==> (LeadingZeros(x) < |x| && i == |x| - 1 - LeadingZeros(x))
  {
    var lz := LeadingZeros(x);
  }

  /** At most one guard of the nlz loop matches, so the order of the loop is irrelevant. */
  lemma NlzGuardsExclusive(x: Bits, i: nat, j: nat)
    requires i < |x| && j < |x|
    requires NlzGuard(x, i) && NlzGuard(x, j)
    ensures i == j
  {
    NlzGuardAtHighestBit(x, i);
    NlzGuardAtHighestBit(x, j);
  }

  /**
    nlz: res starts at w; for i in 0 .. w - 2 it becomes w - 1 - i when the
    guard of position i holds; finally a set top bit gives 0.  The value is the
    numeric value of the w-bit result (it is below 2^w, see NlzFitsWidth).
   */
  method Nlz(x: Bits) returns (res: nat)
    requires |x| >= 1
    ensures res == LeadingZeros(x)
  {
    var w := |x|;
    var lz := LeadingZeros(x);
    res := w;
    for i := 0 to w - 1
      invariant res == if lz < w && w - 1 - lz < i then lz else w
    {
      NlzGuardAtHighestBit(x, i);
      if x[i] && forall j :: i + 1 <= j < w ==> !x[j] {
        res := w - 1 - i;
      }
    }
    if x[w - 1] {
      res := 0;
    }
  }

  lemma NlzOfZero(w: nat)
    ensures LeadingZeros(Zero(w)) == w
  {
    var lz := LeadingZeros(Zero(w));
  }

  lemma NlzTopBitSet(x: Bits)
    requires |x| >= 1 && x[|x| - 1]
    ensures LeadingZeros(x) == 0
  {
  }

  /** For non-zero x without the top bit, nlz is w - 1 - h for the highest set bit h. */
  lemma NlzOfHighestBit(x: Bits, h: nat)
    requires h < |x| && x[h] && forall j :: h < j < |x| ==> !x[j]
    ensures LeadingZeros(x) == |x| - 1 - h
  {
    NlzGuardAtHighestBit(x, h);
  }

  /** The result BitVecVal(w, w) or w - 1 - i is representable in w bits. */
  lemma NlzFitsWidth(x: Bits)
    ensures LeadingZeros(x) < Pow2(|x|)
  {
    WidthBelowPow2(|x|);
  }

  // ---------------------------------------------------------------------------
  // is_power_of_two

  /** is_power_of_two(x): x & -x == x. */
  predicate IsPowerOfTwo(x: Bits)
  {
    And(x, Neg(x)) == x
  }

  /** p03: x & -x isolates the rightmost 1-bit (0 when x is 0). */
  lemma IsolateRightmostOne(x: Bits)
    ensures |And(x, Neg(x))| == |x|
    ensures forall i :: 0 <= i < |x| ==> (And(x, Neg(x))[i] <==> i == LowestSet(x))
  {
    NegBits(x);
  }

  lemma ShlOneBits(w: nat, i: nat)
    requires i < w
    ensures forall j :: 0 <= j < w ==> (Shl(One(w), i)[j] <==> j == i)
  {
  }

  /** No 1-bit of x other than position k. */
  predicate OnlyBitAt(x: Bits, k: nat)
  {
    forall i :: 0 <= i < |x| && x[i] ==> i == k
  }

  /** x & -x == x exactly when x has no 1-bit besides its rightmost one. */
  lemma PowerOfTwoOnlyLowestBit(x: Bits)
    ensures IsPowerOfTwo(x) <==> OnlyBitAt(x, LowestSet(x))
  {
    IsolateRightmostOne(x);
    var k := LowestSet(x);
    if OnlyBitAt(x, k) {
      forall i | 0 <= i < |x|
        ensures And(x, Neg(x))[i] == x[i]
      {
      }
      assert And(x, Neg(x)) == x;
    }
    if IsPowerOfTwo(x) {
      forall i | 0 <= i < |x| && x[i]
        ensures i == k
      {
        assert And(x, Neg(x))[i];
      }
    }
  }

  /**
    is_power_of_two holds exactly for 0 and for 1 << i with i < w: the
    vectors whose only 1-bit, if any, is their rightmost one.
   */
  lemma PowerOfTwoIff(x: Bits)
    ensures IsPowerOfTwo(x) <==> (x == Zero(|x|) || exists i :: 0 <= i < |x| && x == Shl(One(|x|), i))
  {
    var w := |x|;
    PowerOfTwoOnlyLowestBit(x);
    var k := LowestSet(x);
    if IsPowerOfTwo(x) {
      if k == w {
        assert x == Zero(w);
      } else {
        ShlOneBits(w, k);
        assert x == Shl(One(w), k);
      }
    }
    if x == Zero(w) {
      assert OnlyBitAt(x, k);
    }
    if i :| 0 <= i < w && x == Shl(One(w), i) {
      ShlOneBits(w, i);
      assert OnlyBitAt(x, i);
      assert x[i];
      assert k == i;
    }
  }

  lemma PowerOfTwoOfShiftedOne(w: nat, i: nat)
    requires i < w
    ensures IsPowerOfTwo(Shl(One(w), i))
  {
    PowerOfTwoIff(Shl(One(w), i));
  }

  lemma ZeroIsPowerOfTwo(w: nat)
    ensures IsPowerOfTwo(Zero(w))
  {
    PowerOfTwoIff(Zero(w));
  }

  // ---------------------------------------------------------------------------
  // p01 - p08

  /** p01: x & (x - 1) turns off the rightmost 1-bit. */
  lemma TurnOffRightmostOne(x: Bits)
    ensures |And(x, Dec(x))| == |x|
    ensures forall i :: 0 <= i < |x| ==> (And(x, Dec(x))[i] <==> x[i] && i != LowestSet(x))
  {
    DecBits(x);
  }

  /** p02: o == 0 exactly when x is a power of two (0 included). */
  predicate PowerOfTwoTest(x: Bits, o: Bits)
    requires |o| == |x|
  {
    if IsPowerOfTwo(x) then o == Zero(|x|) else o != Zero(|x|)
  }

  /** x & (x - 1) is zero exactly when x has no 1-bit besides its rightmost one. */
  lemma RightmostOneOffIsZero(x: Bits)
    ensures And(x, Dec(x)) == Zero(|x|) <==> OnlyBitAt(x, LowestSet(x))
  {
    TurnOffRightmostOne(x);
    var o := And(x, Dec(x));
    var k := LowestSet(x);
    if OnlyBitAt(x, k) {
      forall i | 0 <= i < |x|
        ensures o[i] == Zero(|x|)[i]
      {
      }
      assert o == Zero(|x|);
    }
    if o == Zero(|x|) {
      forall i | 0 <= i < |x| && x[i]
        ensures i == k
      {
        assert !o[i];
      }
    }
  }

  /** The p01 program x & (x - 1) meets the p02 specification. */
  lemma RightmostOneOffTestsPowerOfTwo(x: Bits)
    ensures |And(x, Dec(x))| == |x|
    ensures PowerOfTwoTest(x, And(x, Dec(x)))
  {
    TurnOffRightmostOne(x);
    RightmostOneOffIsZero(x);
    PowerOfTwoOnlyLowestBit(x);
  }

  /** p04: x ^ (x - 1) is the mask of the rightmost 1-bit and the zeros below it. */
  lemma MaskRightmostOne(x: Bits)
    ensures |Xor(x, Dec(x))| == |x|
    ensures forall i :: 0 <= i < |x| ==> (Xor(x, Dec(x))[i] <==> i <= LowestSet(x))
  {
    DecBits(x);
  }

  /** p05: x | (x - 1) right-propagates the rightmost 1-bit. */
  lemma RightPropagateRightmostOne(x: Bits)
    ensures |Or(x, Dec(x))| == |x|
    ensures forall i :: 0 <= i < |x| ==> (Or(x, Dec(x))[i] <==> x[i] || i < LowestSet(x))
  {
    DecBits(x);
  }

  /** p06: x | (x + 1) turns on the rightmost 0-bit. */
  lemma TurnOnRightmostZero(x: Bits)
    ensures |Or(x, Inc(x))| == |x|
    ensures forall i :: 0 <= i < |x| ==> (Or(x, Inc(x))[i] <==> x[i] || i == LowestClear(x))
  {
    IncBits(x);
  }

  /** p07: ~x & (x + 1) isolates the rightmost 0-bit. */
  lemma IsolateRightmostZero(x: Bits)
    ensures |And(Not(x), Inc(x))| == |x|
    ensures forall i :: 0 <= i < |x| ==> (And(Not(x), Inc(x))[i] <==> i == LowestClear(x))
  {
    IncBits(x);
  }

  /** p08: ~x & (x - 1) is the mask of the trailing zeros. */
  lemma TrailingZerosMask(x: Bits)
    ensures |And(Not(x), Dec(x))| == |x|
    ensures forall i :: 0 <= i < |x| ==> (And(Not(x), Dec(x))[i] <==> i < LowestSet(x))
  {
    DecBits(x);
  }

  // ---------------------------------------------------------------------------
  // sol

  /** The operators of the bit-vector library that the benchmark refers to. */
  datatype BvOp =
    | OpAdd | OpSub | OpAnd | OpOr | OpXor | OpNeg | OpNot | OpAshr | OpLshr | OpShl
    | OpUlt | OpUge | OpSlt | OpSge | OpMul | OpUdiv
    | Named(name: string)

  /**
    sol: in exact mode the given frequencies are used as they are; otherwise
    every operator of the library is allowed with frequency 0 and the given
    entries override that.
   */
  method Sol(exact: bool, ops: seq<BvOp>, opFreq: map<BvOp, nat>) returns (res: map<BvOp, nat>)
    ensures exact ==> res == opFreq
    ensures !exact ==> res.Keys == (set k | k in ops) + opFreq.Keys
    ensures !exact ==> forall k :: k in opFreq ==> res[k] == opFreq[k]
    ensures !exact ==> forall k :: k in ops && k !in opFreq ==> res[k] == 0
  {
    if exact {
      return opFreq;
    }
    res := map k | k in ops :: 0;
    res := res + opFreq;
  }
}
