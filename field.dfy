/**
 * Arithmetic in GF(2^n), n <= 8, on elements held in the low n bits of a
 * byte (src/lib/field.c).  Bit i of a byte is the coefficient of x^i.
 *
 * Every byte is a `bv8`, so the C shifts on `uint8_t` (which drop the bits
 * pushed out on the left) are the `bv8` shifts.  The degree `n` is a byte
 * too, as in the C signatures.
 */
module Field {

  /** `a` has no bit at position `n` or above: the test `a >> n == 0`. */
  predicate Fits(n: bv8, a: bv8) {
    n >= 8 || a >> n == 0
  }

  /** Bit `i` of `a`. */
  predicate Bit(a: bv8, i: bv8)
    requires i < 8
  {
    (a >> i) & 1 == 1
  }

  // ---------------------------------------------------------------------
  // f2sum
  // ---------------------------------------------------------------------

  /** Field addition; both operands must fit in n bits (the C assert). */
  function Sum(n: bv8, a: bv8, b: bv8): (r: bv8)
    requires Fits(n, a) && Fits(n, b)
    ensures Fits(n, r)
  {
    a ^ b
  }

  /** Addition is commutative, every element is its own negative, and adding
      `b` twice gives back `a`. */
  lemma SumGroup(n: bv8, a: bv8, b: bv8)
    requires Fits(n, a) && Fits(n, b)
    ensures Sum(n, a, b) == Sum(n, b, a)
    ensures Sum(n, a, a) == 0
    ensures Sum(n, Sum(n, a, b), b) == a
  {
  }

  /** 7 + 3 = 4 on eight bits and 4 + 3 = 7 on five. */
  lemma SumVectors()
    ensures Fits(8, 7) && Fits(8, 3) && Sum(8, 7, 3) == 4
    ensures Fits(5, 4) && Fits(5, 3) && Sum(5, 4, 3) == 7
  {
  }

  // ---------------------------------------------------------------------
  // f2mul
  // ---------------------------------------------------------------------

  /** The reduction step of one pass: when bit n of `a` is set, subtract
      (xor) the field polynomial.  For n >= 8 the test `a & (1 << n)` is
      zero on a byte. */
  function Reduce(p: bv8, n: bv8, a: bv8): bv8 {
    if n < 8 && a & (1 << n) != 0 then a ^ p else a
  }

  /** Shift-and-add product of `a` and `b` modulo `p`, pass by pass: each
      pass reduces `a`, adds it when the low bit of `b` is set, then shifts
      `b` right and `a` left. */
  function Mul(p: bv8, n: bv8, a: bv8, b: bv8): bv8
    decreases b
  {
    if b == 0 then 0
    else
      var a' := Reduce(p, n, a);
      (if b & 1 == 1 then a' else 0) ^ Mul(p, n, a' << 1, b >> 1)
  }

  /** One pass of the loop. */
  lemma MulStep(p: bv8, n: bv8, a: bv8, b: bv8)
    requires b != 0
    ensures Mul(p, n, a, b) == (if b & 1 == 1 then Reduce(p, n, a) else 0) ^ Mul(p, n, Reduce(p, n, a) << 1, b >> 1)
  {
  }

  /** The loop invariant of f2mul: the partial result plus the product still
      to be formed is the whole product. */
  predicate MulInv(p: bv8, n: bv8, a: bv8, b: bv8, x: bv8, y: bv8, r: bv8) {
    r ^ Mul(p, n, x, y) == Mul(p, n, a, b)
  }

  lemma MulPass(p: bv8, n: bv8, a: bv8, b: bv8, x: bv8, y: bv8, r: bv8)
    requires y != 0 && MulInv(p, n, a, b, x, y, r)
    ensures MulInv(p, n, a, b, Reduce(p, n, x) << 1, y >> 1,
                   r ^ (if y & 1 == 1 then Reduce(p, n, x) else 0))
  {
  }

  /** f2mul: the loop runs once per bit of `b`, since `b` shifts right on
      every pass. */
  method F2Mul(p: bv8, n: bv8, a: bv8, b: bv8) returns (r: bv8)
    ensures r == Mul(p, n, a, b)
  {
    var x, y := a, b;
    r := 0;
    while y != 0
      invariant MulInv(p, n, a, b, x, y, r)
      decreases y
    {
      MulPass(p, n, a, b, x, y, r);
      if n < 8 && x & (1 << n) != 0 {
        x := x ^ p;
      }
      if y & 1 == 1 {
        r := r ^ x;
      }
      y, x := y >> 1, x << 1;
    }
  }

  /** The field polynomial has degree exactly n: bit n set, nothing above. */
  predicate FieldPoly(p: bv8, n: bv8) {
    1 <= n <= 7 && p >> n == 1
  }

  /** A product stays below 2^n.  The loop keeps the shifted `a` below
      2^(n+1), so that is all the lemma asks of `a`. */
  lemma {:induction false} MulFits(p: bv8, n: bv8, a: bv8, b: bv8)
    requires FieldPoly(p, n)
    requires (a >> n) >> 1 == 0
    ensures Fits(n, Mul(p, n, a, b))
    decreases b
  {
    if b != 0 {
      var a' := Reduce(p, n, a);
      assert a' >> n == 0;
      MulFits(p, n, a' << 1, b >> 1);
    }
  }

  /** Zero is absorbing on both sides, and 1 is neutral on reduced
      operands. */
  lemma {:induction false} MulZeroOne(p: bv8, n: bv8, a: bv8, b: bv8)
    ensures Mul(p, n, a, 0) == 0
    ensures Mul(p, n, 0, b) == 0
    ensures Fits(n, a) ==> Mul(p, n, a, 1) == a
    decreases b
  {
    if b != 0 {
      MulZeroOne(p, n, a, b >> 1);
    }
    assert Mul(p, n, a, 1) == Reduce(p, n, a) ^ Mul(p, n, Reduce(p, n, a) << 1, 0);
  }

  /** In GF(8) = GF(2)[x]/(x^3 + 1) the product of x^2 + 1 and x is x + 1. */
  lemma MulVector()
    ensures Mul(0x9, 3, 0x5, 0x2) == 0x3
  {
  }

  // ---------------------------------------------------------------------
  // f2exp
  // ---------------------------------------------------------------------

  /** a^k by k - 1 multiplications, starting from a. */
  function Exp(p: bv8, n: bv8, a: bv8, k: nat): bv8
    requires k >= 1
  {
    if k == 1 then a else Mul(p, n, Exp(p, n, a, k - 1), a)
  }

  /** f2exp: the exponent must be nonzero (the C assert); the loop multiplies
      by `a` while the counter is above 1. */
  method F2Exp(p: bv8, n: bv8, a: bv8, b: bv8) returns (r: bv8)
    requires b != 0
    ensures r == Exp(p, n, a, b as nat)
  {
    var k := b;
    r := a;
    ghost var e: nat := 1;
    while k > 1
      invariant 1 <= k <= b && e + k as nat == b as nat + 1
      invariant r == Exp(p, n, a, e)
      decreases k
    {
      r := F2Mul(p, n, r, a);
      k, e := k - 1, e + 1;
    }
  }

  /** Modulo x^5 + 1 the cube of x^2 + x is x^4 + x^3 + x + 1. */
  lemma ExpVector()
    ensures Exp(0x21, 5, 0x6, 3) == 0x1B
  {
    assert Mul(0x21, 5, 0x18, 1) == 0x18;
    assert Mul(0x21, 5, 0xC, 3) == 0x14;
    assert Exp(0x21, 5, 0x6, 2) == 0x14;
  }

  /** Modulo x^6 + x^4 + x^3 + x + 1 the 16th power of x is x^4 + x + 1. */
  lemma ExpVectorSixteen()
    ensures Exp(0x5B, 6, 0x2, 16) == 0x13
  {
    assert Exp(0x5B, 6, 0x2, 2) == 0x04;
    assert Exp(0x5B, 6, 0x2, 3) == 0x08;
    assert Exp(0x5B, 6, 0x2, 4) == 0x10;
    assert Exp(0x5B, 6, 0x2, 5) == 0x20;
    assert Exp(0x5B, 6, 0x2, 6) == 0x1B;
    assert Exp(0x5B, 6, 0x2, 7) == 0x36;
    assert Exp(0x5B, 6, 0x2, 8) == 0x37;
    assert Exp(0x5B, 6, 0x2, 9) == 0x35;
    assert Exp(0x5B, 6, 0x2, 10) == 0x31;
    assert Exp(0x5B, 6, 0x2, 11) == 0x39;
    assert Exp(0x5B, 6, 0x2, 12) == 0x29;
    assert Exp(0x5B, 6, 0x2, 13) == 0x09;
    assert Exp(0x5B, 6, 0x2, 14) == 0x12;
    assert Exp(0x5B, 6, 0x2, 15) == 0x24;
  }

  /** The 30th power of x, on the way to the 45th. */
  lemma ExpThirty()
    ensures Exp(0x5B, 6, 0x2, 30) == 0x21
  {
    ExpVectorSixteen();
    assert Exp(0x5B, 6, 0x2, 17) == 0x26;
    assert Exp(0x5B, 6, 0x2, 18) == 0x17;
    assert Exp(0x5B, 6, 0x2, 19) == 0x2E;
    assert Exp(0x5B, 6, 0x2, 20) == 0x07;
    assert Exp(0x5B, 6, 0x2, 21) == 0x0E;
    assert Exp(0x5B, 6, 0x2, 22) == 0x1C;
    assert Exp(0x5B, 6, 0x2, 23) == 0x38;
    assert Exp(0x5B, 6, 0x2, 24) == 0x2B;
    assert Exp(0x5B, 6, 0x2, 25) == 0x0D;
    assert Exp(0x5B, 6, 0x2, 26) == 0x1A;
    assert Exp(0x5B, 6, 0x2, 27) == 0x34;
    assert Exp(0x5B, 6, 0x2, 28) == 0x33;
    assert Exp(0x5B, 6, 0x2, 29) == 0x3D;
  }

  /** Modulo x^6 + x^4 + x^3 + x + 1 the 45th power of x is x^5 + x + 1. */
  lemma ExpVectorFortyFive()
    ensures Exp(0x5B, 6, 0x2, 45) == 0x23
  {
    ExpThirty();
    assert Exp(0x5B, 6, 0x2, 31) == 0x19;
    assert Exp(0x5B, 6, 0x2, 32) == 0x32;
    assert Exp(0x5B, 6, 0x2, 33) == 0x3F;
    assert Exp(0x5B, 6, 0x2, 34) == 0x25;
    assert Exp(0x5B, 6, 0x2, 35) == 0x11;
    assert Exp(0x5B, 6, 0x2, 36) == 0x22;
    assert Exp(0x5B, 6, 0x2, 37) == 0x1F;
    assert Exp(0x5B, 6, 0x2, 38) == 0x3E;
    assert Exp(0x5B, 6, 0x2, 39) == 0x27;
    assert Exp(0x5B, 6, 0x2, 40) == 0x15;
    assert Exp(0x5B, 6, 0x2, 41) == 0x2A;
    assert Exp(0x5B, 6, 0x2, 42) == 0x0F;
    assert Exp(0x5B, 6, 0x2, 43) == 0x1E;
    assert Exp(0x5B, 6, 0x2, 44) == 0x3C;
  }

  /** The powers of an element of the field stay in the field. */
  lemma {:induction false} ExpFits(p: bv8, n: bv8, a: bv8, k: nat)
    requires FieldPoly(p, n) && Fits(n, a) && k >= 1
    ensures Fits(n, Exp(p, n, a, k))
  {
    if k > 1 {
      ExpFits(p, n, a, k - 1);
      MulFits(p, n, Exp(p, n, a, k - 1), a);
    }
  }

  // ---------------------------------------------------------------------
  // f2rot
  // ---------------------------------------------------------------------

  /** The branch of f2rot for a negative count: rotation of the low n bits
      by m places towards the high end. */
  function RotLeft(p: bv8, n: bv8, m: bv8): bv8
    requires n <= 8 && m <= n
  {
    (((0xFF >> (8 - n + m)) & p) << m) | (p >> (n - m))
  }

  /** The branch of f2rot for a count of zero or more: rotation of the low
      n bits by m places towards the low end. */
  function RotRight(p: bv8, n: bv8, m: bv8): bv8
    requires n <= 8 && m <= n
  {
    (((0xFF >> (8 - m)) & p) << (n - m)) | (p >> m)
  }

  /** f2rot: |r| places, to the left when r is negative, to the right
      otherwise.  Every shift count of the C expression is in range exactly
      when |r| <= n <= 8. */
  function Rot(p: bv8, n: bv8, r: int): (q: bv8)
    requires n <= 8 && -(n as int) <= r <= n as int
    ensures 1 <= n && Fits(n, p) && r < 0 ==> RotatedLeft(p, q, n, (-r) as bv8)
    ensures 1 <= n && Fits(n, p) && r >= 0 ==> RotatedRight(p, q, n, r as bv8)
  {
    if r < 0 then
      RotLeftAll(p, n, (-r) as bv8);
      RotLeft(p, n, (-r) as bv8)
    else
      RotRightAll(p, n, r as bv8);
      RotRight(p, n, r as bv8)
  }

  /** Every bit i of q below n is bit i - m of p, counted modulo n. */
  ghost predicate RotatedLeft(p: bv8, q: bv8, n: bv8, m: bv8)
    requires n <= 8 && m <= n
  {
    forall i: bv8 :: i < n ==> Bit(q, i) == Bit(p, LeftSource(n, m, i))
  }

  /** Every bit i of q below n is bit i + m of p, counted modulo n. */
  ghost predicate RotatedRight(p: bv8, q: bv8, n: bv8, m: bv8)
    requires n <= 8 && m <= n
  {
    forall i: bv8 :: i < n ==> Bit(q, i) == Bit(p, RightSource(n, m, i))
  }

  /** The bit that a left rotation by m moves to position i: i - m,
      counted modulo n. */
  function LeftSource(n: bv8, m: bv8, i: bv8): bv8
    requires n <= 8 && m <= n && i < n
  {
    if i >= m then i - m else i + n - m
  }

  /** The bit that a right rotation by m moves to position i: i + m,
      counted modulo n. */
  function RightSource(n: bv8, m: bv8, i: bv8): bv8
    requires n <= 8 && m <= n && i < n
  {
    if i + m < n then i + m else i + m - n
  }

  lemma RotLeftAll(p: bv8, n: bv8, m: bv8)
    requires n <= 8 && m <= n
    ensures 1 <= n && Fits(n, p) ==> RotatedLeft(p, RotLeft(p, n, m), n, m)
  {
    if 1 <= n && Fits(n, p) {
      forall i: bv8 | i < n
        ensures Bit(RotLeft(p, n, m), i) == Bit(p, LeftSource(n, m, i))
      {
        RotLeftBits(p, n, m, i);
      }
    }
  }

  lemma RotRightAll(p: bv8, n: bv8, m: bv8)
    requires n <= 8 && m <= n
    ensures 1 <= n && Fits(n, p) ==> RotatedRight(p, RotRight(p, n, m), n, m)
  {
    if 1 <= n && Fits(n, p) {
      forall i: bv8 | i < n
        ensures Bit(RotRight(p, n, m), i) == Bit(p, RightSource(n, m, i))
      {
        RotRightBits(p, n, m, i);
      }
    }
  }

  /** Bit i of a right rotation by m is bit i + m, counted modulo n. */
  lemma RotRightBits(p: bv8, n: bv8, m: bv8, i: bv8)
    requires 1 <= n <= 8 && m <= n && Fits(n, p) && i < n
    ensures RightSource(n, m, i) < n
    ensures Bit(RotRight(p, n, m), i) == Bit(p, RightSource(n, m, i))
  {
  }

  /** Bit i of a left rotation by m is bit i - m, counted modulo n. */
  lemma RotLeftBits(p: bv8, n: bv8, m: bv8, i: bv8)
    requires 1 <= n <= 8 && m <= n && Fits(n, p) && i < n
    ensures LeftSource(n, m, i) < n
    ensures Bit(RotLeft(p, n, m), i) == Bit(p, LeftSource(n, m, i))
  {
  }

  /** Both rotations keep the value within n bits. */
  lemma RotFits(p: bv8, n: bv8, r: int)
    requires 1 <= n <= 8 && -(n as int) <= r <= n as int && Fits(n, p)
    ensures Fits(n, Rot(p, n, r))
  {
    if r < 0 {
      RotLeftFits(p, n, (-r) as bv8);
    } else {
      RotRightFits(p, n, r as bv8);
    }
  }

  lemma RotLeftFits(p: bv8, n: bv8, m: bv8)
    requires 1 <= n <= 8 && m <= n && Fits(n, p)
    ensures Fits(n, RotLeft(p, n, m))
  {
  }

  lemma RotRightFits(p: bv8, n: bv8, m: bv8)
    requires 1 <= n <= 8 && m <= n && Fits(n, p)
    ensures Fits(n, RotRight(p, n, m))
  {
  }

  lemma LeftThenRight(p: bv8, n: bv8, m: bv8)
    requires 1 <= n <= 8 && m <= n && Fits(n, p)
    ensures RotRight(RotLeft(p, n, m), n, m) == p
  {
  }

  lemma RightThenLeft(p: bv8, n: bv8, m: bv8)
    requires 1 <= n <= 8 && m <= n && Fits(n, p)
    ensures RotLeft(RotRight(p, n, m), n, m) == p
  {
  }

  /** Rotating back by the opposite count restores the value. */
  lemma RotInverse(p: bv8, n: bv8, r: int)
    requires 1 <= n <= 8 && -(n as int) <= r <= n as int && Fits(n, p)
    ensures Rot(Rot(p, n, r), n, -r) == p
  {
    if r < 0 {
      var m := (-r) as bv8;
      LeftThenRight(p, n, m);
    } else if r == 0 {
      RotZero(p, n);
    } else {
      var m := r as bv8;
      RightThenLeft(p, n, m);
    }
  }

  /** A rotation by no places, in either branch, is the identity. */
  lemma RotZero(p: bv8, n: bv8)
    requires 1 <= n <= 8 && Fits(n, p)
    ensures RotLeft(p, n, 0) == p && RotRight(p, n, 0) == p
  {
  }

  /** The two rotations of 0x59 on a byte. */
  lemma RotVectors()
    ensures Rot(0x59, 8, 1) == 0xAC
    ensures Rot(0x59, 8, -1) == 0xB2
  {
  }
}

/** Binary text forms of a byte (btoi and ptos in src/lib/field.c). */
module FieldText {

  predicate IsBinary(s: string) {
    forall i :: 0 <= i < |s| ==> s[i] == '0' || s[i] == '1'
  }

  /** Value of a binary string, most significant digit first, kept to a byte
      the way the shift `n <<= 1` on a `uint8_t` keeps it. */
  function BinValue(s: string): bv8
    requires IsBinary(s)
  {
    if s == [] then 0
    else (BinValue(s[..|s| - 1]) << 1) + (if s[|s| - 1] == '1' then 1 else 0)
  }

  /** btoi: every character must be '0' or '1' (the C assert). */
  method Btoi(s: string) returns (n: bv8)
    requires IsBinary(s)
    ensures n == BinValue(s)
  {
    n := 0;
    var i := 0;
    while i < |s|
      invariant 0 <= i <= |s|
      invariant n == BinValue(s[..i])
    {
      n := n << 1;
      if s[i] == '1' {
        n := n + 1;
      }
      assert s[..i + 1][..i] == s[..i];
      i := i + 1;
    }
    assert s[..|s|] == s;
  }

  /** The masks ptos walks through, from the high bit down. */
  const Masks: seq<bv8> := [0x80, 0x40, 0x20, 0x10, 0x08, 0x04, 0x02, 0x01]

  /** The eight binary digits of a byte, most significant first. */
  function BitString(x: bv8): string {
    seq(8, i requires 0 <= i < 8 => if x & Masks[i] != 0 then '1' else '0')
  }

  /** ptos: one character per mask, the mask shifting right until it is
      zero. */
  method Ptos(x: bv8) returns (s: string)
    ensures s == BitString(x)
  {
    var buf := new char[8];
    var mask: bv8 := 0x80;
    var e := 0;
    while mask != 0
      invariant 0 <= e <= 8
      invariant mask == if e == 8 then 0 else Masks[e]
      invariant forall j :: 0 <= j < e ==> buf[j] == BitString(x)[j]
      decreases 8 - e
    {
      MaskStep(e);
      CharAt(x, e, mask);
      buf[e] := if x & mask != 0 then '1' else '0';
      e := e + 1;
      mask := mask >> 1;
    }
    s := buf[..];
  }

  /** Character e of the text is the digit ptos prints for mask e. */
  lemma CharAt(x: bv8, e: nat, mask: bv8)
    requires e < 8 && mask == Masks[e]
    ensures BitString(x)[e] == if x & mask != 0 then '1' else '0'
  {
  }

  lemma MaskStep(e: nat)
    requires e < 8
    ensures Masks[e] >> 1 == if e == 7 then 0 else Masks[e + 1]
  {
  }

  lemma BinStep(s: string, k: nat)
    requires IsBinary(s) && 0 < k <= |s|
    ensures BinValue(s[..k]) == (BinValue(s[..k - 1]) << 1) + (if s[k - 1] == '1' then 1 else 0)
  {
    assert s[..k][..k - 1] == s[..k - 1];
  }

  /** Printing a byte and parsing the text gives the byte back. */
  lemma BtoiPtos(x: bv8)
    ensures IsBinary(BitString(x)) && |BitString(x)| == 8
    ensures BinValue(BitString(x)) == x
  {
    var s := BitString(x);
    assert BinValue(s[..0]) == 0;
    BinStep(s, 1);
    BinStep(s, 2);
    BinStep(s, 3);
    BinStep(s, 4);
    BinStep(s, 5);
    BinStep(s, 6);
    BinStep(s, 7);
    BinStep(s, 8);
    assert s[..8] == s;
  }
}
