/**
  Fixed-width bit vectors, as the solver's BitVec sort of width w.

  A bit vector is a little-endian sequence of bits: bit i of x is x[i] and the
  width is |x|.  Bitwise operators work position by position; addition,
  subtraction and negation are a ripple-carry adder, and the lemmas at the end
  of the module show that the adder computes unsigned addition modulo 2^w.
 */
module BitVectors {

  type Bits = seq<bool>

  function B2N(b: bool): nat { if b then 1 else 0 }

  function Pow2(n: nat): (r: nat)
    ensures r >= 1
  {
    if n == 0 then 1 else 2 * Pow2(n - 1)
  }

  /** The unsigned value of x. */
  function ToNat(x: Bits): (r: nat)
    ensures r < Pow2(|x|)
  {
    if x == [] then 0 else B2N(x[0]) + 2 * ToNat(x[1..])
  }

  /** The all-zero vector of width w. */
  function Zero(w: nat): Bits { seq(w, _ => false) }

  /** The all-ones vector of width w (the value -1). */
  function Ones(w: nat): Bits { seq(w, _ => true) }

  /** The constant 1 of width w. */
  function One(w: nat): (r: Bits)
    ensures |r| == w && forall i :: 0 <= i < w ==> r[i] == (i == 0)
  {
    if w == 0 then [] else [true] + Zero(w - 1)
  }

  /** Bitwise complement (~x). */
  function Not(x: Bits): (r: Bits)
    ensures |r| == |x| && forall i :: 0 <= i < |x| ==> r[i] == !x[i]
  {
    if x == [] then [] else [!x[0]] + Not(x[1..])
  }

  /** Bitwise and (x & y). */
  function And(x: Bits, y: Bits): (r: Bits)
    requires |x| == |y|
    ensures |r| == |x| && forall i :: 0 <= i < |x| ==> r[i] == (x[i] && y[i])
  {
    if x == [] then [] else [x[0] && y[0]] + And(x[1..], y[1..])
  }

  /** Bitwise or (x | y). */
  function Or(x: Bits, y: Bits): (r: Bits)
    requires |x| == |y|
    ensures |r| == |x| && forall i :: 0 <= i < |x| ==> r[i] == (x[i] || y[i])
  {
    if x == [] then [] else [x[0] || y[0]] + Or(x[1..], y[1..])
  }

  /** Bitwise exclusive or (x ^ y). */
  function Xor(x: Bits, y: Bits): (r: Bits)
    requires |x| == |y|
    ensures |r| == |x| && forall i :: 0 <= i < |x| ==> r[i] == (x[i] != y[i])
  {
    if x == [] then [] else [x[0] != y[0]] + Xor(x[1..], y[1..])
  }

  /** Shift left by a constant amount (x << n); amounts of w or more give 0. */
  function Shl(x: Bits, n: nat): (r: Bits)
    ensures |r| == |x|
    ensures forall j :: 0 <= j < |x| ==> r[j] == (j >= n && x[j - n])
  {
    if n >= |x| then Zero(|x|) else Zero(n) + x[..|x| - n]
  }

  /** The carry out of the full adder for bits a, b and carry-in c. */
  function Carry(a: bool, b: bool, c: bool): bool
  {
    (a && b) || (c && (a != b))
  }

  /** Ripple-carry addition of x, y and a carry-in bit, truncated to the width. */
  function AddC(x: Bits, y: Bits, c: bool): (r: Bits)
    requires |x| == |y|
    ensures |r| == |x|
  {
    if x == [] then [] else [x[0] != (y[0] != c)] + AddC(x[1..], y[1..], Carry(x[0], y[0], c))
  }

  /** The carry out of the most significant position of AddC. */
  function CarryOut(x: Bits, y: Bits, c: bool): bool
    requires |x| == |y|
  {
    if x == [] then c else CarryOut(x[1..], y[1..], Carry(x[0], y[0], c))
  }

  /** x + y, modulo 2^w. */
  function Add(x: Bits, y: Bits): Bits
    requires |x| == |y|
  {
    AddC(x, y, false)
  }

  /** x - y, modulo 2^w: x + ~y + 1. */
  function Sub(x: Bits, y: Bits): Bits
    requires |x| == |y|
  {
    AddC(x, Not(y), true)
  }

  /** Two's-complement negation (-x), that is 0 - x. */
  function Neg(x: Bits): Bits
  {
    Sub(Zero(|x|), x)
  }

  /** x - 1 */
  function Dec(x: Bits): Bits
  {
    Sub(x, One(|x|))
  }

  /** x + 1 */
  function Inc(x: Bits): Bits
  {
    Add(x, One(|x|))
  }

  /** Index of the rightmost 1-bit of x, or |x| when x is zero. */
  function LowestSet(x: Bits): (k: nat)
    ensures k <= |x|
    ensures forall i :: 0 <= i < k ==> !x[i]
    ensures k < |x| ==> x[k]
  {
    if x == [] then 0 else if x[0] then 0 else 1 + LowestSet(x[1..])
  }

  /** Index of the rightmost 0-bit of x, or |x| when all bits are 1. */
  function LowestClear(x: Bits): (k: nat)
    ensures k <= |x|
    ensures forall i :: 0 <= i < k ==> x[i]
    ensures k < |x| ==> !x[k]
  {
    if x == [] then 0 else if !x[0] then 0 else 1 + LowestClear(x[1..])
  }

  /** The number of 1-bits of x (the sum of its bits). */
  function CountOnes(x: Bits): (r: nat)
    ensures r <= |x|
  {
    if x == [] then 0 else B2N(x[0]) + CountOnes(x[1..])
  }

  // ---------------------------------------------------------------------------
  // The adder computes unsigned arithmetic modulo 2^w.

  /** The value of the sum plus the weight of the lost carry is the exact sum. */
  lemma {:induction false} AddCExact(x: Bits, y: Bits, c: bool)
    requires |x| == |y|
    ensures ToNat(AddC(x, y, c)) + (if CarryOut(x, y, c) then Pow2(|x|) else 0)
            == ToNat(x) + ToNat(y) + B2N(c)
  {
    if x != [] {
      AddCExact(x[1..], y[1..], Carry(x[0], y[0], c));
    }
  }

  lemma ModOfShifted(n: int, p: int, r: int)
    requires p > 0 && 0 <= r < p && (n == r || n == r + p || n == r - p)
    ensures n % p == r
  {
    var q := n / p;
    assert n == q * p + n % p && 0 <= n % p < p;
    if n == r + p {
      assert (q - 1) * p == r - n % p;
      MultipleBelowIsZero(q - 1, p, r - n % p);
    } else if n == r - p {
      assert (q + 1) * p == r - n % p;
      MultipleBelowIsZero(q + 1, p, r - n % p);
    } else {
      assert q * p == r - n % p;
      MultipleBelowIsZero(q, p, r - n % p);
    }
  }

  /** The only multiple of p strictly between -p and p is 0. */
  lemma MultipleBelowIsZero(k: int, p: int, d: int)
    requires p > 0 && k * p == d && -p < d < p
    ensures d == 0
  {
  }

  /** Addition is addition modulo 2^w. */
  lemma AddIsModular(x: Bits, y: Bits)
    requires |x| == |y|
    ensures ToNat(Add(x, y)) == (ToNat(x) + ToNat(y)) % Pow2(|x|)
  {
    AddCExact(x, y, false);
    ModOfShifted(ToNat(x) + ToNat(y), Pow2(|x|), ToNat(Add(x, y)));
  }

  lemma {:induction false} NotValue(x: Bits)
    ensures ToNat(Not(x)) == Pow2(|x|) - 1 - ToNat(x)
  {
    if x != [] {
      NotValue(x[1..]);
    }
  }

  /** Subtraction is subtraction modulo 2^w (Euclidean remainder, never negative). */
  lemma SubIsModular(x: Bits, y: Bits)
    requires |x| == |y|
    ensures ToNat(Sub(x, y)) == (ToNat(x) - ToNat(y)) % Pow2(|x|)
  {
    var p := Pow2(|x|);
    AddCExact(x, Not(y), true);
    NotValue(y);
    var r := ToNat(Sub(x, y));
    // x + (p - 1 - y) + 1 is r or r + p, so x - y is r - p or r
    ModOfShifted(ToNat(x) - ToNat(y), p, r);
  }

  /** Negation is 0 - x modulo 2^w. */
  lemma NegIsModular(x: Bits)
    ensures ToNat(Neg(x)) == (0 - ToNat(x)) % Pow2(|x|)
  {
    var z, nx := Zero(|x|), Not(x);
    assert Neg(x) == AddC(z, nx, true);
    ZeroValue(|x|);
    NotValue(x);
    AddCExact(z, nx, true);
    NegCases(Pow2(|x|), ToNat(x), ToNat(Neg(x)), CarryOut(z, nx, true));
  }

  lemma NegCases(p: int, v: int, r: int, c: bool)
    requires 0 <= v < p && 0 <= r < p
    requires r + (if c then p else 0) == 0 + (p - 1 - v) + 1
    ensures (0 - v) % p == r
  {
    ModOfShifted(0 - v, p, r);
  }

  lemma {:induction false} ZeroValue(w: nat)
    ensures ToNat(Zero(w)) == 0
  {
    if w > 0 {
      assert Zero(w)[1..] == Zero(w - 1);
      ZeroValue(w - 1);
    }
  }

  lemma {:induction false} WidthBelowPow2(w: nat)
    ensures w < Pow2(w)
  {
    if w > 0 {
      WidthBelowPow2(w - 1);
    }
  }

  // ---------------------------------------------------------------------------
  // Bit-level behaviour of x - 1, x + 1 and -x.

  lemma {:induction false} AddOnesCarry(y: Bits)
    ensures AddC(y, Ones(|y|), true) == y
  {
    if y != [] {
      assert Ones(|y|)[1..] == Ones(|y| - 1);
      AddOnesCarry(y[1..]);
    }
  }

  lemma {:induction false} AddZeroNoCarry(y: Bits)
    ensures AddC(y, Zero(|y|), false) == y
  {
    if y != [] {
      assert Zero(|y|)[1..] == Zero(|y| - 1);
      AddZeroNoCarry(y[1..]);
    }
  }

  /** y + (2^w - 1): the bits below the rightmost 1 become 1, that bit becomes 0. */
  lemma {:induction false} AddOnesBits(y: Bits)
    ensures |AddC(y, Ones(|y|), false)| == |y|
    ensures forall i :: 0 <= i < |y| ==>
      (AddC(y, Ones(|y|), false)[i] == if i < LowestSet(y) then true else if i == LowestSet(y) then false else y[i])
  {
    if y != [] {
      var t := y[1..];
      assert Ones(|y|)[1..] == Ones(|t|);
      if y[0] {
        AddOnesCarry(t);
      } else {
        AddOnesBits(t);
      }
    }
  }

  /** y + 1 with the carry-in: the bits below the rightmost 0 become 0, that bit becomes 1. */
  lemma {:induction false} AddZeroCarryBits(y: Bits)
    ensures |AddC(y, Zero(|y|), true)| == |y|
    ensures forall i :: 0 <= i < |y| ==>
      (AddC(y, Zero(|y|), true)[i] == if i < LowestClear(y) then false else if i == LowestClear(y) then true else y[i])
  {
    if y != [] {
      var t := y[1..];
      assert Zero(|y|)[1..] == Zero(|t|);
      if y[0] {
        AddZeroCarryBits(t);
      } else {
        AddZeroNoCarry(t);
      }
    }
  }

  /** x - 1: the trailing zeros become ones and the rightmost 1-bit becomes 0. */
  lemma DecBits(x: Bits)
    ensures |Dec(x)| == |x|
    ensures forall i :: 0 <= i < |x| ==>
      (Dec(x)[i] == if i < LowestSet(x) then true else if i == LowestSet(x) then false else x[i])
  {
    if x != [] {
      var t := x[1..];
      assert Not(One(|x|))[1..] == Ones(|t|);
      assert Dec(x) == AddC(x, Ones(|x|), false) by {
        assert Ones(|x|)[1..] == Ones(|t|);
      }
      AddOnesBits(x);
    }
  }

  /** x + 1: the trailing ones become zeros and the rightmost 0-bit becomes 1. */
  lemma IncBits(x: Bits)
    ensures |Inc(x)| == |x|
    ensures forall i :: 0 <= i < |x| ==>
      (Inc(x)[i] == if i < LowestClear(x) then false else if i == LowestClear(x) then true else x[i])
  {
    if x != [] {
      var t := x[1..];
      assert One(|x|)[1..] == Zero(|t|);
      assert Inc(x) == AddC(x, Zero(|x|), true) by {
        assert Zero(|x|)[1..] == Zero(|t|);
      }
      AddZeroCarryBits(x);
    }
  }

  lemma {:induction false} AddCCommutes(x: Bits, y: Bits, c: bool)
    requires |x| == |y|
    ensures AddC(x, y, c) == AddC(y, x, c)
  {
    if x != [] {
      AddCCommutes(x[1..], y[1..], Carry(x[0], y[0], c));
    }
  }

  lemma {:induction false} LowestClearOfNot(x: Bits)
    ensures LowestClear(Not(x)) == LowestSet(x)
  {
    if x != [] {
      assert Not(x)[1..] == Not(x[1..]);
      LowestClearOfNot(x[1..]);
    }
  }

  /** -x keeps the bits up to and including the rightmost 1-bit and flips the others. */
  lemma NegBits(x: Bits)
    ensures |Neg(x)| == |x|
    ensures forall i :: 0 <= i < |x| ==> Neg(x)[i] == (if i <= LowestSet(x) then x[i] else !x[i])
  {
    var n := Not(x);
    AddCCommutes(Zero(|x|), n, true);
    AddZeroCarryBits(n);
    LowestClearOfNot(x);
  }

  lemma {:induction false} CountOnesAppend(a: Bits, b: Bits)
    ensures CountOnes(a + b) == CountOnes(a) + CountOnes(b)
  {
    if a != [] {
      var ab := a + b;
      assert ab != [] && ab[0] == a[0];
      assert ab[1..] == a[1..] + b;
      CountOnesAppend(a[1..], b);
      assert CountOnes(ab) == B2N(a[0]) + CountOnes(a[1..] + b);
    } else {
      assert a + b == b;
    }
  }

  lemma {:induction false} CountOnesZero(w: nat)
    ensures CountOnes(Zero(w)) == 0
  {
    if w > 0 {
      assert Zero(w)[1..] == Zero(w - 1);
      CountOnesZero(w - 1);
    }
  }

  lemma {:induction false} Pow2Monotone(a: nat, b: nat)
    requires a <= b
    ensures Pow2(a) <= Pow2(b)
  {
    if a < b {
      Pow2Monotone(a, b - 1);
    }
  }

  /** Powers of two are ordered like their exponents. */
  lemma Pow2Ordered(a: nat, b: nat)
    requires Pow2(a) < Pow2(b)
    ensures a < b
  {
    if b <= a {
      Pow2Monotone(b, a);
    }
  }

  /** A set bit j contributes 2^j to the value. */
  lemma {:induction false} ToNatAtLeastBit(x: Bits, j: nat)
    requires j < |x| && x[j]
    ensures ToNat(x) >= Pow2(j)
  {
    if j > 0 {
      ToNatAtLeastBit(x[1..], j - 1);
    }
  }

  /** With every bit from j upwards clear, the value is below 2^j. */
  lemma {:induction false} ToNatBelowBit(x: Bits, j: nat)
    requires j <= |x|
    requires forall i :: j <= i < |x| ==> !x[i]
    ensures ToNat(x) < Pow2(j)
  {
    if x != [] {
      if j == 0 {
        ToNatBelowBit(x[1..], 0);
      } else {
        ToNatBelowBit(x[1..], j - 1);
      }
    }
  }
}
