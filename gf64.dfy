/**
 * The field GF(64) = GF(2)[x]/(x^6 + x^4 + x^3 + x + 1) in which BUNNY24
 * computes: `Field.Mul` with the polynomial 0x5B and n = 6
 * (src/lib/bunny24.c:27-28).  The lemmas show that this product is
 * commutative and associative, distributes over xor, and that
 * v^64 = v, from which the exponent laws behind the S-box inverses follow.
 */
module Gf64 {
  import opened Field

  /** An element of the field: a byte below 64. */
  predicate Elem(a: bv8) {
    a < 64
  }

  /** The product of the field. */
  function Times(a: bv8, b: bv8): bv8 {
    Mul(0x5B, 6, a, b)
  }

  /** Multiplication by x: a left shift, reduced by x^6 = x^4 + x^3 + x + 1
      when bit 5 is set (the mask `0 - bit` is all ones or zero). */
  function X(a: bv8): bv8 {
    ((a << 1) & 0x3F) ^ (0x1B & (0 - ((a >> 5) & 1)))
  }

  /** `a` when the low bit of `b` is set, zero otherwise, without a branch. */
  function Pick(b: bv8, a: bv8): bv8 {
    a & (0 - (b & 1))
  }

  // ---------------------------------------------------------------------
  // Small facts about bytes, each kept in a lemma of its own so that the
  // solver sees few bit-vector terms at once.
  // ---------------------------------------------------------------------

  lemma ReduceElem(a: bv8)
    requires Elem(a)
    ensures Reduce(0x5B, 6, a) == a
  {
  }

  lemma ReduceShifted(a: bv8)
    requires Elem(a)
    ensures Reduce(0x5B, 6, a << 1) == X(a)
  {
  }

  lemma XElem(a: bv8)
    ensures Elem(X(a))
  {
  }

  lemma PickBranch(b: bv8, a: bv8)
    ensures (if b & 1 == 1 then a else 0) == Pick(b, a)
  {
  }

  lemma XLinear(a: bv8, a': bv8)
    ensures X(a ^ a') == X(a) ^ X(a')
  {
  }

  lemma PickLinear(b: bv8, a: bv8, a': bv8)
    ensures Pick(b, a ^ a') == Pick(b, a) ^ Pick(b, a')
  {
  }

  lemma XPick(b: bv8, a: bv8)
    ensures X(Pick(b, a)) == Pick(b, X(a))
  {
  }

  lemma PickElem(b: bv8, a: bv8)
    requires Elem(a)
    ensures Elem(Pick(b, a))
  {
  }

  /** An element is a value that passes the `f2sum` check for n = 6. */
  lemma ElemFits(a: bv8)
    ensures Elem(a) <==> Fits(6, a)
  {
  }

  lemma XorElem(a: bv8, a': bv8)
    requires Elem(a) && Elem(a')
    ensures Elem(a ^ a')
  {
  }

  // ---------------------------------------------------------------------
  // The shift-and-add loop seen from the field
  // ---------------------------------------------------------------------

  /** A reduced operand shifted left is reduced by the next pass, so the
      shift-and-add recursion can go from element to element. */
  lemma ShiftedOperand(a: bv8, c: bv8)
    requires Elem(a)
    ensures Mul(0x5B, 6, a << 1, c) == Times(X(a), c)
  {
    if c != 0 {
      MulStep(0x5B, 6, a << 1, c);
      MulStep(0x5B, 6, X(a), c);
      ReduceShifted(a);
      XElem(a);
      ReduceElem(X(a));
    }
  }

  /** One pass of the product on field elements. */
  lemma Step(a: bv8, b: bv8)
    requires Elem(a)
    ensures Times(a, b) == Pick(b, a) ^ Times(X(a), b >> 1)
  {
    if b != 0 {
      MulStep(0x5B, 6, a, b);
      ReduceElem(a);
      PickBranch(b, a);
      ShiftedOperand(a, b >> 1);
    } else {
      MulZeroOne(0x5B, 6, X(a), 0);
    }
  }

  /** Products of elements are elements. */
  lemma TimesElem(a: bv8, b: bv8)
    requires Elem(a)
    ensures Elem(Times(a, b))
  {
    MulFits(0x5B, 6, a, b);
  }

  /** Zero and one. */
  lemma TimesZero(a: bv8)
    ensures Times(a, 0) == 0 && Times(0, a) == 0
  {
    MulZeroOne(0x5B, 6, a, 0);
    MulZeroOne(0x5B, 6, 0, a);
  }

  lemma SplitLowBit(b: bv8)
    requires Elem(b)
    ensures b == (b & 1) ^ X(b >> 1)
    ensures Elem(b >> 1) && Elem(b & 1)
  {
  }

  /** Multiplying by x commutes with the product. */
  lemma {:induction false} XTimes(a: bv8, b: bv8)
    requires Elem(a)
    ensures Times(X(a), b) == X(Times(a, b))
    decreases b
  {
    XElem(a);
    if b == 0 {
      TimesZero(X(a));
      TimesZero(a);
    } else {
      Step(X(a), b);
      XElem(X(a));
      XTimes(X(a), b >> 1);
      Step(a, b);
      XLinear(Pick(b, a), Times(X(a), b >> 1));
      XPick(b, a);
    }
  }

  /** 1 is neutral on the left (`MulZeroOne` gives the right). */
  lemma {:induction false} TimesOne(b: bv8)
    requires Elem(b)
    ensures Times(1, b) == b
    decreases b
  {
    if b == 0 {
      TimesZero(1);
    } else {
      Step(1, b);
      SplitLowBit(b);
      XTimes(1, b >> 1);
      TimesOne(b >> 1);
      assert X(1) == 2;
      assert Pick(b, 1) == b & 1;
    }
  }

  // ---------------------------------------------------------------------
  // Powers of x.  x generates the multiplicative group, so every nonzero
  // element is x^i, and products become sums of exponents.
  // ---------------------------------------------------------------------

  /** x^i, computed by repeated multiplication by x. */
  function Pow(i: nat): bv8 {
    if i == 0 then 1 else X(Pow(i - 1))
  }

  lemma {:induction false} PowElem(i: nat)
    ensures Elem(Pow(i)) && Pow(i) != 0
  {
    if i > 0 {
      PowElem(i - 1);
      XNonzero(Pow(i - 1));
    }
  }

  lemma XNonzero(a: bv8)
    requires Elem(a) && a != 0
    ensures X(a) != 0
  {
  }

  /** x^63 = 1: the polynomial is primitive. */
  lemma PowCycle()
    ensures Pow(63) == 1
  {
    PowTable();
  }

  /** The powers of x repeat with period 63. */
  lemma {:induction false} PowPeriod(i: nat, m: nat)
    ensures Pow(i + 63 * m) == Pow(i)
    decreases m, i
  {
    if m > 0 {
      PowPeriod(i + 63, m - 1);
      assert i + 63 + 63 * (m - 1) == i + 63 * m;
      PowShift(i);
    }
  }

  lemma {:induction false} PowShift(i: nat)
    ensures Pow(i + 63) == Pow(i)
  {
    if i == 0 {
      PowCycle();
    } else {
      PowShift(i - 1);
    }
  }

  /** x^i * x^j = x^(i+j). */
  lemma {:induction false} PowTimes(i: nat, j: nat)
    ensures Times(Pow(i), Pow(j)) == Pow(i + j)
  {
    PowElem(j);
    if i == 0 {
      TimesOne(Pow(j));
    } else {
      PowElem(i - 1);
      XTimes(Pow(i - 1), Pow(j));
      PowTimes(i - 1, j);
    }
  }

  /** The table of x^0 .. x^62. */
  lemma PowTable()
    ensures
      Pow(0) == 0x01 &&
      Pow(1) == 0x02 &&
      Pow(2) == 0x04 &&
      Pow(3) == 0x08 &&
      Pow(4) == 0x10 &&
      Pow(5) == 0x20 &&
      Pow(6) == 0x1B &&
      Pow(7) == 0x36 &&
      Pow(8) == 0x37 &&
      Pow(9) == 0x35 &&
      Pow(10) == 0x31 &&
      Pow(11) == 0x39 &&
      Pow(12) == 0x29 &&
      Pow(13) == 0x09 &&
      Pow(14) == 0x12 &&
      Pow(15) == 0x24 &&
      Pow(16) == 0x13 &&
      Pow(17) == 0x26 &&
      Pow(18) == 0x17 &&
      Pow(19) == 0x2E &&
      Pow(20) == 0x07 &&
      Pow(21) == 0x0E &&
      Pow(22) == 0x1C &&
      Pow(23) == 0x38 &&
      Pow(24) == 0x2B &&
      Pow(25) == 0x0D &&
      Pow(26) == 0x1A &&
      Pow(27) == 0x34 &&
      Pow(28) == 0x33 &&
      Pow(29) == 0x3D &&
      Pow(30) == 0x21 &&
      Pow(31) == 0x19 &&
      Pow(32) == 0x32 &&
      Pow(33) == 0x3F &&
      Pow(34) == 0x25 &&
      Pow(35) == 0x11 &&
      Pow(36) == 0x22 &&
      Pow(37) == 0x1F &&
      Pow(38) == 0x3E &&
      Pow(39) == 0x27 &&
      Pow(40) == 0x15 &&
      Pow(41) == 0x2A &&
      Pow(42) == 0x0F &&
      Pow(43) == 0x1E &&
      Pow(44) == 0x3C &&
      Pow(45) == 0x23 &&
      Pow(46) == 0x1D &&
      Pow(47) == 0x3A &&
      Pow(48) == 0x2F &&
      Pow(49) == 0x05 &&
      Pow(50) == 0x0A &&
      Pow(51) == 0x14 &&
      Pow(52) == 0x28 &&
      Pow(53) == 0x0B &&
      Pow(54) == 0x16 &&
      Pow(55) == 0x2C &&
      Pow(56) == 0x03 &&
      Pow(57) == 0x06 &&
      Pow(58) == 0x0C &&
      Pow(59) == 0x18 &&
      Pow(60) == 0x30 &&
      Pow(61) == 0x3B &&
      Pow(62) == 0x2D
  {
    assert Pow(1) == 0x02;
    assert Pow(2) == 0x04;
    assert Pow(3) == 0x08;
    assert Pow(4) == 0x10;
    assert Pow(5) == 0x20;
    assert Pow(6) == 0x1B;
    assert Pow(7) == 0x36;
    assert Pow(8) == 0x37;
    assert Pow(9) == 0x35;
    assert Pow(10) == 0x31;
    assert Pow(11) == 0x39;
    assert Pow(12) == 0x29;
    assert Pow(13) == 0x09;
    assert Pow(14) == 0x12;
    assert Pow(15) == 0x24;
    assert Pow(16) == 0x13;
    assert Pow(17) == 0x26;
    assert Pow(18) == 0x17;
    assert Pow(19) == 0x2E;
    assert Pow(20) == 0x07;
    assert Pow(21) == 0x0E;
    assert Pow(22) == 0x1C;
    assert Pow(23) == 0x38;
    assert Pow(24) == 0x2B;
    assert Pow(25) == 0x0D;
    assert Pow(26) == 0x1A;
    assert Pow(27) == 0x34;
    assert Pow(28) == 0x33;
    assert Pow(29) == 0x3D;
    assert Pow(30) == 0x21;
    assert Pow(31) == 0x19;
    assert Pow(32) == 0x32;
    assert Pow(33) == 0x3F;
    assert Pow(34) == 0x25;
    assert Pow(35) == 0x11;
    assert Pow(36) == 0x22;
    assert Pow(37) == 0x1F;
    assert Pow(38) == 0x3E;
    assert Pow(39) == 0x27;
    assert Pow(40) == 0x15;
    assert Pow(41) == 0x2A;
    assert Pow(42) == 0x0F;
    assert Pow(43) == 0x1E;
    assert Pow(44) == 0x3C;
    assert Pow(45) == 0x23;
    assert Pow(46) == 0x1D;
    assert Pow(47) == 0x3A;
    assert Pow(48) == 0x2F;
    assert Pow(49) == 0x05;
    assert Pow(50) == 0x0A;
    assert Pow(51) == 0x14;
    assert Pow(52) == 0x28;
    assert Pow(53) == 0x0B;
    assert Pow(54) == 0x16;
    assert Pow(55) == 0x2C;
    assert Pow(56) == 0x03;
    assert Pow(57) == 0x06;
    assert Pow(58) == 0x0C;
    assert Pow(59) == 0x18;
    assert Pow(60) == 0x30;
    assert Pow(61) == 0x3B;
  }

  /** The discrete logarithm to base x of a nonzero element: every
      nonzero element is a power of x. */
  lemma Log(a: bv8) returns (l: nat)
    requires a != 0 && Elem(a)
    ensures l < 63 && Pow(l) == a
  {
    PowTable();
    if a == 0x01 {
      l := 0;
    } else if a == 0x02 {
      l := 1;
    } else if a == 0x03 {
      l := 56;
    } else if a == 0x04 {
      l := 2;
    } else if a == 0x05 {
      l := 49;
    } else if a == 0x06 {
      l := 57;
    } else if a == 0x07 {
      l := 20;
    } else if a == 0x08 {
      l := 3;
    } else if a == 0x09 {
      l := 13;
    } else if a == 0x0A {
      l := 50;
    } else if a == 0x0B {
      l := 53;
    } else if a == 0x0C {
      l := 58;
    } else if a == 0x0D {
      l := 25;
    } else if a == 0x0E {
      l := 21;
    } else if a == 0x0F {
      l := 42;
    } else if a == 0x10 {
      l := 4;
    } else if a == 0x11 {
      l := 35;
    } else if a == 0x12 {
      l := 14;
    } else if a == 0x13 {
      l := 16;
    } else if a == 0x14 {
      l := 51;
    } else if a == 0x15 {
      l := 40;
    } else if a == 0x16 {
      l := 54;
    } else if a == 0x17 {
      l := 18;
    } else if a == 0x18 {
      l := 59;
    } else if a == 0x19 {
      l := 31;
    } else if a == 0x1A {
      l := 26;
    } else if a == 0x1B {
      l := 6;
    } else if a == 0x1C {
      l := 22;
    } else if a == 0x1D {
      l := 46;
    } else if a == 0x1E {
      l := 43;
    } else if a == 0x1F {
      l := 37;
    } else if a == 0x20 {
      l := 5;
    } else if a == 0x21 {
      l := 30;
    } else if a == 0x22 {
      l := 36;
    } else if a == 0x23 {
      l := 45;
    } else if a == 0x24 {
      l := 15;
    } else if a == 0x25 {
      l := 34;
    } else if a == 0x26 {
      l := 17;
    } else if a == 0x27 {
      l := 39;
    } else if a == 0x28 {
      l := 52;
    } else if a == 0x29 {
      l := 12;
    } else if a == 0x2A {
      l := 41;
    } else if a == 0x2B {
      l := 24;
    } else if a == 0x2C {
      l := 55;
    } else if a == 0x2D {
      l := 62;
    } else if a == 0x2E {
      l := 19;
    } else if a == 0x2F {
      l := 48;
    } else if a == 0x30 {
      l := 60;
    } else if a == 0x31 {
      l := 10;
    } else if a == 0x32 {
      l := 32;
    } else if a == 0x33 {
      l := 28;
    } else if a == 0x34 {
      l := 27;
    } else if a == 0x35 {
      l := 9;
    } else if a == 0x36 {
      l := 7;
    } else if a == 0x37 {
      l := 8;
    } else if a == 0x38 {
      l := 23;
    } else if a == 0x39 {
      l := 11;
    } else if a == 0x3A {
      l := 47;
    } else if a == 0x3B {
      l := 61;
    } else if a == 0x3C {
      l := 44;
    } else if a == 0x3D {
      l := 29;
    } else if a == 0x3E {
      l := 38;
    } else {
      l := 33;
    }
  }

  // ---------------------------------------------------------------------
  // Field laws, through the logarithm
  // ---------------------------------------------------------------------

  /** The product is commutative. */
  lemma Commutative(a: bv8, b: bv8)
    requires Elem(a) && Elem(b)
    ensures Times(a, b) == Times(b, a)
  {
    if a == 0 || b == 0 {
      TimesZero(a);
      TimesZero(b);
    } else {
      var la := Log(a);
      var lb := Log(b);
      PowTimes(la, lb);
      PowTimes(lb, la);
    }
  }

  /** The product is associative. */
  lemma Associative(a: bv8, b: bv8, c: bv8)
    requires Elem(a) && Elem(b) && Elem(c)
    ensures Times(Times(a, b), c) == Times(a, Times(b, c))
  {
    if a == 0 || b == 0 || c == 0 {
      TimesZero(a);
      TimesZero(b);
      TimesZero(c);
      TimesZero(Times(a, b));
      TimesZero(Times(b, c));
    } else {
      var la := Log(a);
      var lb := Log(b);
      var lc := Log(c);
      PowTimes(la, lb);
      PowTimes(la + lb, lc);
      PowTimes(lb, lc);
      PowTimes(la, lb + lc);
    }
  }

  /** Products of nonzero elements are nonzero. */
  lemma NoZeroDivisors(a: bv8, b: bv8)
    requires Elem(a) && Elem(b) && a != 0 && b != 0
    ensures Times(a, b) != 0
  {
    var la := Log(a);
    var lb := Log(b);
    PowTimes(la, lb);
    PowElem(la + lb);
  }

  lemma {:induction false} DistPow(i: nat, y: bv8, z: bv8)
    requires Elem(y) && Elem(z)
    ensures Times(Pow(i), y ^ z) == Times(Pow(i), y) ^ Times(Pow(i), z)
  {
    XorElem(y, z);
    if i == 0 {
      TimesOne(y);
      TimesOne(z);
      TimesOne(y ^ z);
    } else {
      var c := Pow(i - 1);
      PowElem(i - 1);
      DistPow(i - 1, y, z);
      XTimes(c, y ^ z);
      XTimes(c, y);
      XTimes(c, z);
      XLinear(Times(c, y), Times(c, z));
    }
  }

  /** The product distributes over the sum (xor) on the right. */
  lemma DistRight(c: bv8, y: bv8, z: bv8)
    requires Elem(c) && Elem(y) && Elem(z)
    ensures Times(c, y ^ z) == Times(c, y) ^ Times(c, z)
  {
    if c == 0 {
      TimesZero(y);
      TimesZero(z);
      TimesZero(y ^ z);
    } else {
      var lc := Log(c);
      DistPow(lc, y, z);
    }
  }

  /** The product distributes over the sum (xor) on the left. */
  lemma DistLeft(y: bv8, z: bv8, c: bv8)
    requires Elem(y) && Elem(z) && Elem(c)
    ensures Times(y ^ z, c) == Times(y, c) ^ Times(z, c)
  {
    XorElem(y, z);
    DistRight(c, y, z);
    Commutative(c, y ^ z);
    Commutative(c, y);
    Commutative(c, z);
  }

  // ---------------------------------------------------------------------
  // Powers as computed by f2exp
  // ---------------------------------------------------------------------

  /** The source's power of an element: f2exp with the BUNNY24 polynomial. */
  function Power(a: bv8, k: nat): bv8
    requires k >= 1
  {
    Exp(0x5B, 6, a, k)
  }

  lemma {:induction false} PowerOfPow(l: nat, k: nat)
    requires k >= 1
    ensures Power(Pow(l), k) == Pow(k * l)
  {
    if k > 1 {
      PowerOfPow(l, k - 1);
      PowTimes((k - 1) * l, l);
      assert (k - 1) * l + l == k * l;
    }
  }

  lemma {:induction false} PowerOfZero(k: nat)
    requires k >= 1
    ensures Power(0, k) == 0
  {
    if k > 1 {
      PowerOfZero(k - 1);
      TimesZero(0);
    }
  }

  /** Raising to e and then to f is the identity on the field when
      e * f = 1 modulo 63, the order of the multiplicative group. */
  lemma PowerInverse(a: bv8, e: nat, f: nat, t: nat)
    requires Elem(a) && e >= 1 && f >= 1 && e * f == 63 * t + 1
    ensures Power(Power(a, e), f) == a
  {
    if a == 0 {
      PowerOfZero(e);
      PowerOfZero(f);
    } else {
      var l := Log(a);
      PowerOfPow(l, e);
      PowerOfPow(e * l, f);
      calc {
        f * (e * l);
        (e * f) * l;
        (63 * t + 1) * l;
        l + 63 * (t * l);
      }
      PowPeriod(l, t * l);
    }
  }
}
