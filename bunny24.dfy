/**
 * The BUNNY24 block cipher of src/lib/bunny24.c: 24-bit blocks seen as four
 * elements of GF(64), four power-map S-boxes, a 4x4 mixing matrix, a key
 * schedule of 88 words and 15 rounds, plus the reduced 2-round variant.
 *
 * Every routine of the source writes into a caller-supplied array; each is
 * modelled by a method doing the same, proved equal to a function on values
 * (`BlockOf`, `SubBlock`, `Mix`, `Round`, `RoundKeys`, `Encrypt`, ...), and
 * the lemmas about those functions give the inverse pairs.
 */
module Bunny24 {
  import opened Field
  import opened Gf64

  /** A block: four field elements. */
  predicate IsBlock(v: seq<bv8>) {
    |v| == 4 && Elem(v[0]) && Elem(v[1]) && Elem(v[2]) && Elem(v[3])
  }

  /** A four-element sequence is the display of its elements; comparing
      blocks element by element through this keeps proofs small. */
  lemma Four(s: seq<bv8>)
    requires |s| == 4
    ensures s == [s[0], s[1], s[2], s[3]]
  {
  }

  // ---------------------------------------------------------------------
  // xor and cxor
  // ---------------------------------------------------------------------

  /** Addition in GF(64): xor.  Naming it gives the laws of the mixing
      layer below a term to be triggered on. */
  function Add(a: bv8, b: bv8): bv8 {
    a ^ b
  }

  /** Block sum, element by element. */
  function XorBlock(v: seq<bv8>, k: seq<bv8>): (r: seq<bv8>)
    requires |v| == 4 && |k| == 4
    ensures |r| == 4
    ensures IsBlock(v) && IsBlock(k) ==> IsBlock(r)
  {
    [Add(v[0], k[0]), Add(v[1], k[1]), Add(v[2], k[2]), Add(v[3], k[3])]
  }

  /** Adding the same key twice gives the block back. */
  lemma XorBlockTwice(v: seq<bv8>, k: seq<bv8>)
    requires |v| == 4 && |k| == 4
    ensures XorBlock(XorBlock(v, k), k) == v
  {
  }

  lemma XorBlockAt(v: seq<bv8>, w: seq<bv8>, k: nat)
    requires |v| == 4 && |w| == 4 && k < 4
    ensures XorBlock(v, w)[k] == Add(v[k], w[k])
  {
    var r := XorBlock(v, w);
    if k == 0 {
      assert r[0] == Add(v[0], w[0]);
    } else if k == 1 {
      assert r[1] == Add(v[1], w[1]);
    } else if k == 2 {
      assert r[2] == Add(v[2], w[2]);
    } else {
      assert r[3] == Add(v[3], w[3]);
    }
  }

  /** Byte-string sum of three bytes. */
  function XorBytes(a: seq<bv8>, b: seq<bv8>): (r: seq<bv8>)
    requires |a| == 3 && |b| == 3
    ensures |r| == 3
  {
    [XorByte(a[0], b[0]), XorByte(a[1], b[1]), XorByte(a[2], b[2])]
  }

  function XorByte(x: bv8, y: bv8): bv8 {
    x ^ y
  }

  lemma XorBytesTwice(a: seq<bv8>, b: seq<bv8>)
    requires |a| == 3 && |b| == 3
    ensures XorBytes(XorBytes(a, b), b) == a
    ensures XorBytes(a, b) == XorBytes(b, a)
  {
    assert a == [a[0], a[1], a[2]];
  }

  /** xor: `dest` may be `v` itself, as in the cipher's round loop. */
  method Xor(dest: array<bv8>, v: array<bv8>, key: seq<bv8>)
    requires dest.Length == 4 && v.Length == 4 && |key| == 4
    modifies dest
    ensures dest[..] == XorBlock(old(v[..]), key)
  {
    ghost var v0 := v[..];
    var i := 0;
    while i != 4
      invariant 0 <= i <= 4
      invariant forall j :: 0 <= j < i ==> dest[j] == v0[j] ^ key[j]
      invariant forall j :: i <= j < 4 ==> v[j] == v0[j]
    {
      dest[i] := v[i] ^ key[i];
      i := i + 1;
    }
  }

  /** cxor on three bytes; `dest` may be `a` or `b`. */
  method Cxor(dest: array<bv8>, a: array<bv8>, b: array<bv8>)
    requires dest.Length == 3 && a.Length == 3 && b.Length == 3
    modifies dest
    ensures dest[..] == XorBytes(old(a[..]), old(b[..]))
  {
    ghost var a0, b0 := a[..], b[..];
    var i := 0;
    while i != 3
      invariant 0 <= i <= 3
      invariant forall j :: 0 <= j < i ==> dest[j] == a0[j] ^ b0[j]
      invariant forall j :: i <= j < 3 ==> a[j] == a0[j] && b[j] == b0[j]
    {
      dest[i] := a[i] ^ b[i];
      i := i + 1;
    }
  }

  // ---------------------------------------------------------------------
  // Packing: three bytes are four 6-bit elements
  // ---------------------------------------------------------------------

  /** bytes_to_block: the 24 bits, most significant first, cut in four. */
  function BlockOf(b: seq<bv8>): (v: seq<bv8>)
    requires |b| == 3
    ensures IsBlock(v)
  {
    [b[0] >> 2,
     (b[1] >> 4) | ((b[0] & 0x3) << 4),
     ((b[1] & 0xF) << 2) | ((b[2] & 0xC0) >> 6),
     b[2] & 0x3F]
  }

  /** block_to_bytes: the four 6-bit elements glued back into 24 bits. */
  function BytesOf(v: seq<bv8>): (b: seq<bv8>)
    requires |v| == 4
    ensures |b| == 3
  {
    [(v[0] << 2) | (v[1] >> 4),
     (v[1] << 4) | (v[2] >> 2),
     (v[2] << 6) | v[3]]
  }

  lemma BytesBlockBytes(b: seq<bv8>)
    requires |b| == 3
    ensures BytesOf(BlockOf(b)) == b
  {
  }

  lemma BlockBytesBlock(v: seq<bv8>)
    requires IsBlock(v)
    ensures BlockOf(BytesOf(v)) == v
  {
  }

  method BytesToBlock(dest: array<bv8>, bytes: seq<bv8>)
    requires dest.Length == 4 && |bytes| == 3
    modifies dest
    ensures dest[..] == BlockOf(bytes)
  {
    dest[0] := bytes[0] >> 2;
    dest[1] := (bytes[1] >> 4) | ((bytes[0] & 0x3) << 4);
    dest[2] := ((bytes[1] & 0xF) << 2) | ((bytes[2] & 0xC0) >> 6);
    dest[3] := bytes[2] & 0x3F;
  }

  method BlockToBytes(dest: array<bv8>, v: seq<bv8>)
    requires dest.Length == 3 && |v| == 4
    modifies dest
    ensures dest[..] == BytesOf(v)
  {
    dest[0] := (v[0] << 2) | (v[1] >> 4);
    dest[1] := (v[1] << 4) | (v[2] >> 2);
    dest[2] := (v[2] << 6) | v[3];
  }

  // ---------------------------------------------------------------------
  // S-boxes
  // ---------------------------------------------------------------------

  /** The constant e = x of the cipher. */
  const E: bv8 := 0x2

  /** e^2, which the fourth S-box adds. */
  const E2: bv8 := 0x4

  lemma ESquared()
    ensures Power(E, 2) == E2
  {
    PowTimes(1, 1);
  }

  lemma PowerElem(a: bv8, k: nat)
    requires Elem(a) && k >= 1
    ensures Elem(Power(a, k))
  {
    ElemFits(a);
    ExpFits(0x5B, 6, a, k);
    ElemFits(Power(a, k));
  }

  lemma PowerElemIf(a: bv8, k: nat)
    requires k >= 1
    ensures Elem(a) ==> Elem(Power(a, k))
  {
    if Elem(a) {
      PowerElem(a, k);
    }
  }

  function Sbox1(v: bv8): (r: bv8)
    ensures Elem(v) ==> Elem(r)
  {
    PowerElemIf(v, 62);
    Power(v, 62)
  }

  function Sbox2(v: bv8): (r: bv8)
    ensures Elem(v) ==> Elem(r)
  {
    PowerElemIf(v, 5);
    Power(v, 5)
  }

  function Sbox3(v: bv8): (r: bv8)
    ensures Elem(v) ==> Elem(r)
  {
    PowerElemIf(v, 17);
    Power(v, 17)
  }

  /** v^62 + e^2: f2sum's check holds, both terms being elements. */
  function Sbox4(v: bv8): (r: bv8)
    requires Elem(v)
    ensures Elem(r)
  {
    PowerElem(v, 62);
    ElemFits(Power(v, 62));
    ElemFits(E2);
    var r := Sum(6, Power(v, 62), E2);
    ElemFits(r);
    r
  }

  function InvSbox1(v: bv8): (r: bv8)
    ensures Elem(v) ==> Elem(r)
  {
    PowerElemIf(v, 62);
    Power(v, 62)
  }

  function InvSbox2(v: bv8): (r: bv8)
    ensures Elem(v) ==> Elem(r)
  {
    PowerElemIf(v, 38);
    Power(v, 38)
  }

  function InvSbox3(v: bv8): (r: bv8)
    ensures Elem(v) ==> Elem(r)
  {
    PowerElemIf(v, 26);
    Power(v, 26)
  }

  /** (v + e^2)^62. */
  function InvSbox4(v: bv8): (r: bv8)
    requires Elem(v)
    ensures Elem(r)
  {
    ElemFits(v);
    ElemFits(E2);
    var s := Sum(6, v, E2);
    ElemFits(s);
    PowerElem(s, 62);
    Power(s, 62)
  }

  /** The four exponent pairs multiply to 1 modulo 63 (62 * 62 = 61 * 63 + 1,
      5 * 38 = 3 * 63 + 1, 17 * 26 = 7 * 63 + 1), so each inverse S-box undoes
      its S-box, in both orders. */
  lemma Sbox1Inverse(v: bv8)
    requires Elem(v)
    ensures InvSbox1(Sbox1(v)) == v && Sbox1(InvSbox1(v)) == v
  {
    PowerInverse(v, 62, 62, 61);
  }

  lemma Sbox2Inverse(v: bv8)
    requires Elem(v)
    ensures InvSbox2(Sbox2(v)) == v && Sbox2(InvSbox2(v)) == v
  {
    PowerInverse(v, 5, 38, 3);
    PowerInverse(v, 38, 5, 3);
  }

  lemma Sbox3Inverse(v: bv8)
    requires Elem(v)
    ensures InvSbox3(Sbox3(v)) == v && Sbox3(InvSbox3(v)) == v
  {
    PowerInverse(v, 17, 26, 7);
    PowerInverse(v, 26, 17, 7);
  }

  lemma Sbox4Inverse(v: bv8)
    requires Elem(v)
    ensures InvSbox4(Sbox4(v)) == v && Sbox4(InvSbox4(v)) == v
  {
    PowerElem(v, 62);
    XorElem(Power(v, 62), 4);
    assert (Power(v, 62) ^ 4) ^ 4 == Power(v, 62);
    PowerInverse(v, 62, 62, 61);
    XorElem(v, 4);
    PowerElem(v ^ 4, 62);
    PowerInverse(v ^ 4, 62, 62, 61);
    assert (v ^ 4) ^ 4 == v;
  }

  /** The i-th S-box, i in 0..3. */
  function SboxAt(i: int, v: bv8): bv8
    requires 0 <= i < 4 && Elem(v)
  {
    if i == 0 then Sbox1(v)
    else if i == 1 then Sbox2(v)
    else if i == 2 then Sbox3(v)
    else Sbox4(v)
  }

  /** insbox: the i-th inverse S-box; an index outside 0..3 gives 0.  The
      result is the element the i-th S-box maps to `v`. */
  function Insbox(i: int, v: bv8): (r: bv8)
    requires i == 3 ==> Elem(v)
    ensures (i < 0 || 3 < i) ==> r == 0
    ensures 0 <= i < 4 && Elem(v) ==> Elem(r) && SboxAt(i, r) == v
  {
    if i == 0 then
      if Elem(v) then Sbox1Inverse(v); PowerElem(v, 62); InvSbox1(v) else InvSbox1(v)
    else if i == 1 then
      if Elem(v) then Sbox2Inverse(v); PowerElem(v, 38); InvSbox2(v) else InvSbox2(v)
    else if i == 2 then
      if Elem(v) then Sbox3Inverse(v); PowerElem(v, 26); InvSbox3(v) else InvSbox3(v)
    else if i == 3 then
      Sbox4Inverse(v); InvSbox4(v)
    else 0
  }

  /** The S-box layer: S-box i on element i. */
  function SubBlock(v: seq<bv8>): (r: seq<bv8>)
    requires IsBlock(v)
    ensures IsBlock(r)
  {
    PowerElem(v[0], 62);
    PowerElem(v[1], 5);
    PowerElem(v[2], 17);
    [Sbox1(v[0]), Sbox2(v[1]), Sbox3(v[2]), Sbox4(v[3])]
  }

  function InvSubBlock(v: seq<bv8>): (r: seq<bv8>)
    requires IsBlock(v)
    ensures IsBlock(r)
  {
    PowerElem(v[0], 62);
    PowerElem(v[1], 38);
    PowerElem(v[2], 26);
    [InvSbox1(v[0]), InvSbox2(v[1]), InvSbox3(v[2]), InvSbox4(v[3])]
  }

  /** The two S-box layers undo each other, in both orders. */
  lemma SubBlockInverse(v: seq<bv8>)
    requires IsBlock(v)
    ensures InvSubBlock(SubBlock(v)) == v
    ensures SubBlock(InvSubBlock(v)) == v
  {
    Sbox1Inverse(v[0]);
    Sbox2Inverse(v[1]);
    Sbox3Inverse(v[2]);
    Sbox4Inverse(v[3]);
    var w := InvSubBlock(SubBlock(v));
    assert w[0] == v[0] && w[1] == v[1] && w[2] == v[2] && w[3] == v[3];
    Four(w);
    var w' := SubBlock(InvSubBlock(v));
    assert w'[0] == v[0] && w'[1] == v[1] && w'[2] == v[2] && w'[3] == v[3];
    Four(w');
    Four(v);
  }

  /** sbox: `dest` may be `v` itself; each element is read before it is
      written. */
  method Sbox(dest: array<bv8>, v: array<bv8>)
    requires dest.Length == 4 && v.Length == 4 && IsBlock(v[..])
    modifies dest
    ensures dest[..] == SubBlock(old(v[..]))
  {
    var x0, x1, x2, x3 := Sbox1(v[0]), Sbox2(v[1]), Sbox3(v[2]), Sbox4(v[3]);
    assert SubBlock(v[..]) == [x0, x1, x2, x3];
    dest[0] := x0;
    dest[1] := x1;
    dest[2] := x2;
    dest[3] := x3;
    Four(dest[..]);
  }

  method InverseSbox(dest: array<bv8>, v: array<bv8>)
    requires dest.Length == 4 && v.Length == 4 && IsBlock(v[..])
    modifies dest
    ensures dest[..] == InvSubBlock(old(v[..]))
  {
    var x0, x1, x2, x3 := InvSbox1(v[0]), InvSbox2(v[1]), InvSbox3(v[2]), InvSbox4(v[3]);
    assert InvSubBlock(v[..]) == [x0, x1, x2, x3];
    dest[0] := x0;
    dest[1] := x1;
    dest[2] := x2;
    dest[3] := x3;
    Four(dest[..]);
  }

  // ---------------------------------------------------------------------
  // Mixing layer: the block, as a row vector, times a 4x4 matrix
  // ---------------------------------------------------------------------

  /** A 4x4 matrix of field elements, row by row. */
  predicate IsMatrix(m: seq<seq<bv8>>) {
    |m| == 4 && IsBlock(m[0]) && IsBlock(m[1]) && IsBlock(m[2]) && IsBlock(m[3])
  }

  const MixMatrix: seq<seq<bv8>> := [
    [0x23, 0x3b, 0x38, 0x3d],
    [0x0d, 0x3c, 0x16, 0x18],
    [0x03, 0x20, 0x17, 0x37],
    [0x2c, 0x26, 0x38, 0x13]]

  const InvMixMatrix: seq<seq<bv8>> := [
    [0x1d, 0x03, 0x0b, 0x19],
    [0x11, 0x2f, 0x3e, 0x3d],
    [0x07, 0x17, 0x39, 0x0c],
    [0x0a, 0x3a, 0x0d, 0x29]]

  lemma MatricesWellFormed()
    ensures IsMatrix(MixMatrix) && IsMatrix(InvMixMatrix)
  {
  }

  lemma BlockElem(v: seq<bv8>, k: nat)
    requires IsBlock(v) && k < 4
    ensures Elem(v[k])
  {
  }

  lemma MatrixElem(m: seq<seq<bv8>>, k: nat, i: nat)
    requires IsMatrix(m) && k < 4 && i < 4
    ensures IsBlock(m[k]) && Elem(m[k][i])
  {
    BlockElem(m[k], i);
  }


  // The mixing layer is linear.  Its algebra is proved once for any product
  // that keeps a handful of field laws, then used with Times: the abstract
  // product keeps the bit-level definition of Times out of these proofs.

  type Product = (bv8, bv8) -> bv8

  ghost predicate Closed(mul: Product) {
    forall a, b :: Elem(a) && Elem(b) ==> Elem(mul(a, b))
  }

  ghost predicate DistributesLeft(mul: Product) {
    forall a, b, c {:trigger mul(Add(a, b), c)} ::
      Elem(a) && Elem(b) && Elem(c) ==> mul(Add(a, b), c) == Add(mul(a, c), mul(b, c))
  }

  ghost predicate DistributesRight(mul: Product) {
    forall a, b, c {:trigger mul(c, Add(a, b))} ::
      Elem(a) && Elem(b) && Elem(c) ==> mul(c, Add(a, b)) == Add(mul(c, a), mul(c, b))
  }

  ghost predicate Associates(mul: Product) {
    forall a, b, c {:trigger mul(mul(a, b), c)} ::
      Elem(a) && Elem(b) && Elem(c) ==> mul(mul(a, b), c) == mul(a, mul(b, c))
  }

  ghost predicate Annihilates(mul: Product) {
    forall a {:trigger mul(a, 0)} :: Elem(a) ==> mul(a, 0) == 0
  }

  ghost predicate Unital(mul: Product) {
    forall a {:trigger mul(a, 1)} :: Elem(a) ==> mul(a, 1) == a
  }

  ghost predicate FieldLaws(mul: Product) {
    Closed(mul) && DistributesLeft(mul) && DistributesRight(mul)
    && Associates(mul) && Annihilates(mul) && Unital(mul)
  }

  /** Entry `i` of `v * m`, summed over the first `n` rows of `m`. */
  function Column(mul: Product, m: seq<seq<bv8>>, v: seq<bv8>, i: nat, n: nat): bv8
    requires IsMatrix(m) && |v| == 4 && i < 4 && n <= 4
  {
    if n == 0 then 0 else Add(Column(mul, m, v, i, n - 1), mul(v[n - 1], m[n - 1][i]))
  }

  lemma ColumnStep(mul: Product, m: seq<seq<bv8>>, v: seq<bv8>, i: nat, n: nat)
    requires IsMatrix(m) && |v| == 4 && i < 4 && 0 < n <= 4
    ensures Column(mul, m, v, i, n) == Add(Column(mul, m, v, i, n - 1), mul(v[n - 1], m[n - 1][i]))
  {
  }

  lemma {:induction false} ColumnElem(mul: Product, m: seq<seq<bv8>>, v: seq<bv8>, i: nat, n: nat)
    requires Closed(mul) && IsMatrix(m) && IsBlock(v) && i < 4 && n <= 4
    ensures Elem(Column(mul, m, v, i, n))
  {
    if n > 0 {
      ColumnElem(mul, m, v, i, n - 1);
      MatrixElem(m, n - 1, i);
      BlockElem(v, n - 1);
      ColumnStep(mul, m, v, i, n);
    }
  }

  /** The row vector `v` times the matrix `m`. */
  function Mix(mul: Product, m: seq<seq<bv8>>, v: seq<bv8>): (r: seq<bv8>)
    requires IsMatrix(m) && |v| == 4
    ensures |r| == 4
  {
    [Column(mul, m, v, 0, 4), Column(mul, m, v, 1, 4), Column(mul, m, v, 2, 4), Column(mul, m, v, 3, 4)]
  }

  lemma MixAt(mul: Product, m: seq<seq<bv8>>, v: seq<bv8>, k: nat)
    requires IsMatrix(m) && |v| == 4 && k < 4
    ensures Mix(mul, m, v)[k] == Column(mul, m, v, k, 4)
  {
    var r := Mix(mul, m, v);
    if k == 0 {
      assert r[0] == Column(mul, m, v, 0, 4);
    } else if k == 1 {
      assert r[1] == Column(mul, m, v, 1, 4);
    } else if k == 2 {
      assert r[2] == Column(mul, m, v, 2, 4);
    } else {
      assert r[3] == Column(mul, m, v, 3, 4);
    }
  }

  lemma MixBlock(mul: Product, m: seq<seq<bv8>>, v: seq<bv8>)
    requires Closed(mul) && IsMatrix(m) && IsBlock(v)
    ensures IsBlock(Mix(mul, m, v))
  {
    ColumnElem(mul, m, v, 0, 4);
    ColumnElem(mul, m, v, 1, 4);
    ColumnElem(mul, m, v, 2, 4);
    ColumnElem(mul, m, v, 3, 4);
  }

  /** Rearranging a sum of four terms. */
  lemma AddStep(cu: bv8, cv: bv8, cw: bv8, tu: bv8, tv: bv8, tw: bv8)
    requires cu == Add(cv, cw) && tu == Add(tv, tw)
    ensures Add(cu, tu) == Add(Add(cv, tv), Add(cw, tw))
  {
  }

  /** Each entry of `v * m` is additive in `v`. */
  lemma {:induction false} ColumnXor(mul: Product, m: seq<seq<bv8>>, v: seq<bv8>, w: seq<bv8>, i: nat, n: nat)
    requires DistributesLeft(mul) && IsMatrix(m) && IsBlock(v) && IsBlock(w) && i < 4 && n <= 4
    ensures Column(mul, m, XorBlock(v, w), i, n) == Add(Column(mul, m, v, i, n), Column(mul, m, w, i, n))
  {
    if n > 0 {
      var k := n - 1;
      ColumnXor(mul, m, v, w, i, k);
      MatrixElem(m, k, i);
      BlockElem(v, k);
      BlockElem(w, k);
      XorBlockAt(v, w, k);
      var u := XorBlock(v, w);
      ColumnStep(mul, m, u, i, n);
      ColumnStep(mul, m, v, i, n);
      ColumnStep(mul, m, w, i, n);
      AddStep(Column(mul, m, u, i, k), Column(mul, m, v, i, k), Column(mul, m, w, i, k),
              mul(Add(v[k], w[k]), m[k][i]), mul(v[k], m[k][i]), mul(w[k], m[k][i]));
    }
  }

  /** `v * m` is additive in `v`. */
  lemma MixXor(mul: Product, m: seq<seq<bv8>>, v: seq<bv8>, w: seq<bv8>)
    requires DistributesLeft(mul) && IsMatrix(m) && IsBlock(v) && IsBlock(w)
    ensures Mix(mul, m, XorBlock(v, w)) == XorBlock(Mix(mul, m, v), Mix(mul, m, w))
  {
    ColumnXor(mul, m, v, w, 0, 4);
    ColumnXor(mul, m, v, w, 1, 4);
    ColumnXor(mul, m, v, w, 2, 4);
    ColumnXor(mul, m, v, w, 3, 4);
    var r := Mix(mul, m, XorBlock(v, w));
    var r' := XorBlock(Mix(mul, m, v), Mix(mul, m, w));
    assert r[0] == r'[0] && r[1] == r'[1] && r[2] == r'[2] && r[3] == r'[3];
    Four(r);
    Four(r');
  }

  /** The block `v` scaled by `c`. */
  function Scale(mul: Product, c: bv8, v: seq<bv8>): (r: seq<bv8>)
    requires |v| == 4
    ensures |r| == 4
  {
    [mul(c, v[0]), mul(c, v[1]), mul(c, v[2]), mul(c, v[3])]
  }

  lemma ScaleAt(mul: Product, c: bv8, v: seq<bv8>, k: nat)
    requires |v| == 4 && k < 4
    ensures Scale(mul, c, v)[k] == mul(c, v[k])
  {
    var r := Scale(mul, c, v);
    if k == 0 {
      assert r[0] == mul(c, v[0]);
    } else if k == 1 {
      assert r[1] == mul(c, v[1]);
    } else if k == 2 {
      assert r[2] == mul(c, v[2]);
    } else {
      assert r[3] == mul(c, v[3]);
    }
  }

  lemma ScaleBlock(mul: Product, c: bv8, v: seq<bv8>)
    requires Closed(mul) && Elem(c) && IsBlock(v)
    ensures IsBlock(Scale(mul, c, v))
  {
  }

  /** One row's worth of homogeneity: c * (a + b * d) == c * a + (c * b) * d. */
  lemma ScaleStep(mul: Product, c: bv8, a: bv8, b: bv8, d: bv8)
    requires Closed(mul) && Associates(mul) && DistributesRight(mul)
    requires Elem(c) && Elem(a) && Elem(b) && Elem(d)
    ensures mul(c, Add(a, mul(b, d))) == Add(mul(c, a), mul(mul(c, b), d))
  {
    assert mul(mul(c, b), d) == mul(c, mul(b, d));
  }

  /** Each entry of `v * m` is homogeneous in `v`. */
  lemma {:induction false} ColumnScale(mul: Product, m: seq<seq<bv8>>, c: bv8, v: seq<bv8>, i: nat, n: nat)
    requires Closed(mul) && Associates(mul) && DistributesRight(mul) && Annihilates(mul)
    requires IsMatrix(m) && Elem(c) && IsBlock(v) && i < 4 && n <= 4
    ensures Column(mul, m, Scale(mul, c, v), i, n) == mul(c, Column(mul, m, v, i, n))
  {
    if n == 0 {
      assert mul(c, 0) == 0;
    } else {
      var k := n - 1;
      ColumnScale(mul, m, c, v, i, k);
      MatrixElem(m, k, i);
      BlockElem(v, k);
      ScaleAt(mul, c, v, k);
      ColumnElem(mul, m, v, i, k);
      var s := Scale(mul, c, v);
      ColumnStep(mul, m, s, i, n);
      ColumnStep(mul, m, v, i, n);
      ScaleStep(mul, c, Column(mul, m, v, i, k), v[k], m[k][i]);
    }
  }

  lemma MixScaleAt(mul: Product, m: seq<seq<bv8>>, c: bv8, v: seq<bv8>, k: nat)
    requires Closed(mul) && Associates(mul) && DistributesRight(mul) && Annihilates(mul)
    requires IsMatrix(m) && Elem(c) && IsBlock(v) && k < 4
    ensures Mix(mul, m, Scale(mul, c, v))[k] == Scale(mul, c, Mix(mul, m, v))[k]
  {
    ColumnScale(mul, m, c, v, k, 4);
    MixAt(mul, m, Scale(mul, c, v), k);
    MixAt(mul, m, v, k);
    ScaleAt(mul, c, Mix(mul, m, v), k);
  }

  lemma MixScale(mul: Product, m: seq<seq<bv8>>, c: bv8, v: seq<bv8>)
    requires Closed(mul) && Associates(mul) && DistributesRight(mul) && Annihilates(mul)
    requires IsMatrix(m) && Elem(c) && IsBlock(v)
    ensures Mix(mul, m, Scale(mul, c, v)) == Scale(mul, c, Mix(mul, m, v))
  {
    MixScaleAt(mul, m, c, v, 0);
    MixScaleAt(mul, m, c, v, 1);
    MixScaleAt(mul, m, c, v, 2);
    MixScaleAt(mul, m, c, v, 3);
    var r := Mix(mul, m, Scale(mul, c, v));
    var r' := Scale(mul, c, Mix(mul, m, v));
    Four(r);
    Four(r');
  }

  /** The unit row vector with 1 at `j`. */
  function Unit(j: nat): (r: seq<bv8>)
    requires j < 4
    ensures IsBlock(r)
  {
    [if j == 0 then 1 else 0, if j == 1 then 1 else 0, if j == 2 then 1 else 0, if j == 3 then 1 else 0]
  }

  /** The sum of four blocks. */
  function Combine(s0: seq<bv8>, s1: seq<bv8>, s2: seq<bv8>, s3: seq<bv8>): (r: seq<bv8>)
    requires |s0| == 4 && |s1| == 4 && |s2| == 4 && |s3| == 4
    ensures |r| == 4
  {
    XorBlock(XorBlock(XorBlock(s0, s1), s2), s3)
  }

  lemma CombineAt(s0: seq<bv8>, s1: seq<bv8>, s2: seq<bv8>, s3: seq<bv8>, k: nat)
    requires |s0| == 4 && |s1| == 4 && |s2| == 4 && |s3| == 4 && k < 4
    ensures Combine(s0, s1, s2, s3)[k] == Add(Add(Add(s0[k], s1[k]), s2[k]), s3[k])
  {
    XorBlockAt(s0, s1, k);
    XorBlockAt(XorBlock(s0, s1), s2, k);
    XorBlockAt(XorBlock(XorBlock(s0, s1), s2), s3, k);
  }

  lemma MixRowsAt(mul: Product, m: seq<seq<bv8>>, v: seq<bv8>, k: nat)
    requires IsMatrix(m) && |v| == 4 && k < 4
    ensures Mix(mul, m, v)[k]
         == Combine(Scale(mul, v[0], m[0]), Scale(mul, v[1], m[1]), Scale(mul, v[2], m[2]), Scale(mul, v[3], m[3]))[k]
  {
    MixAt(mul, m, v, k);
    ColumnStep(mul, m, v, k, 4);
    ColumnStep(mul, m, v, k, 3);
    ColumnStep(mul, m, v, k, 2);
    ColumnStep(mul, m, v, k, 1);
    CombineAt(Scale(mul, v[0], m[0]), Scale(mul, v[1], m[1]), Scale(mul, v[2], m[2]), Scale(mul, v[3], m[3]), k);
    ScaleAt(mul, v[0], m[0], k);
    ScaleAt(mul, v[1], m[1], k);
    ScaleAt(mul, v[2], m[2], k);
    ScaleAt(mul, v[3], m[3], k);
  }

  /** `v * m` is the sum of the rows of `m`, each scaled by its entry of `v`. */
  lemma MixRows(mul: Product, m: seq<seq<bv8>>, v: seq<bv8>)
    requires IsMatrix(m) && |v| == 4
    ensures Mix(mul, m, v)
         == Combine(Scale(mul, v[0], m[0]), Scale(mul, v[1], m[1]), Scale(mul, v[2], m[2]), Scale(mul, v[3], m[3]))
  {
    MixRowsAt(mul, m, v, 0);
    MixRowsAt(mul, m, v, 1);
    MixRowsAt(mul, m, v, 2);
    MixRowsAt(mul, m, v, 3);
    Four(Mix(mul, m, v));
    Four(Combine(Scale(mul, v[0], m[0]), Scale(mul, v[1], m[1]), Scale(mul, v[2], m[2]), Scale(mul, v[3], m[3])));
  }

  /** Every block is the sum of the unit vectors scaled by its entries. */
  lemma Decompose(mul: Product, v: seq<bv8>)
    requires Annihilates(mul) && Unital(mul) && IsBlock(v)
    ensures v == Combine(Scale(mul, v[0], Unit(0)), Scale(mul, v[1], Unit(1)), Scale(mul, v[2], Unit(2)), Scale(mul, v[3], Unit(3)))
  {
    var s0, s1, s2, s3 := Scale(mul, v[0], Unit(0)), Scale(mul, v[1], Unit(1)), Scale(mul, v[2], Unit(2)), Scale(mul, v[3], Unit(3));
    assert s0 == [v[0], 0, 0, 0];
    assert s1 == [0, v[1], 0, 0];
    assert s2 == [0, 0, v[2], 0];
    assert s3 == [0, 0, 0, v[3]];
    var r := Combine(s0, s1, s2, s3);
    assert r[0] == v[0] && r[1] == v[1] && r[2] == v[2] && r[3] == v[3];
    Four(r);
    Four(v);
  }

  /** When `m * n` is the identity, multiplying by `n` undoes
      multiplying by `m`. */
  lemma MixInverse(mul: Product, m: seq<seq<bv8>>, n: seq<seq<bv8>>, v: seq<bv8>)
    requires FieldLaws(mul) && IsMatrix(m) && IsMatrix(n) && IsBlock(v)
    requires Mix(mul, n, m[0]) == Unit(0) && Mix(mul, n, m[1]) == Unit(1)
    requires Mix(mul, n, m[2]) == Unit(2) && Mix(mul, n, m[3]) == Unit(3)
    ensures Mix(mul, n, Mix(mul, m, v)) == v
  {
    var s0, s1, s2, s3 := Scale(mul, v[0], m[0]), Scale(mul, v[1], m[1]), Scale(mul, v[2], m[2]), Scale(mul, v[3], m[3]);
    ScaleBlock(mul, v[0], m[0]);
    ScaleBlock(mul, v[1], m[1]);
    ScaleBlock(mul, v[2], m[2]);
    ScaleBlock(mul, v[3], m[3]);
    MixRows(mul, m, v);
    MixXor(mul, n, s0, s1);
    MixXor(mul, n, XorBlock(s0, s1), s2);
    MixXor(mul, n, XorBlock(XorBlock(s0, s1), s2), s3);
    MixScale(mul, n, v[0], m[0]);
    MixScale(mul, n, v[1], m[1]);
    MixScale(mul, n, v[2], m[2]);
    MixScale(mul, n, v[3], m[3]);
    Decompose(mul, v);
  }

  lemma TimesClosed()
    ensures Closed(Times)
  {
    forall a, b | Elem(a) && Elem(b)
      ensures Elem(Times(a, b))
    {
      TimesElem(a, b);
    }
  }

  /** The product of GF(64) keeps the laws the mixing algebra needs. */
  lemma TimesLaws()
    ensures FieldLaws(Times)
  {
    TimesClosed();
    TimesDistributes();
    TimesAssociates();
    TimesUnital();
  }

  lemma TimesDistributes()
    ensures DistributesLeft(Times) && DistributesRight(Times)
  {
    forall a, b, c | Elem(a) && Elem(b) && Elem(c)
      ensures Times(Add(a, b), c) == Add(Times(a, c), Times(b, c))
    {
      DistLeft(a, b, c);
    }
    forall a, b, c | Elem(a) && Elem(b) && Elem(c)
      ensures Times(c, Add(a, b)) == Add(Times(c, a), Times(c, b))
    {
      DistRight(c, a, b);
    }
  }

  lemma TimesAssociates()
    ensures Associates(Times)
  {
    forall a, b, c | Elem(a) && Elem(b) && Elem(c)
      ensures Times(Times(a, b), c) == Times(a, Times(b, c))
    {
      Associative(a, b, c);
    }
  }

  lemma TimesUnital()
    ensures Annihilates(Times) && Unital(Times)
  {
    forall a | Elem(a)
      ensures Times(a, 0) == 0 && Times(a, 1) == a
    {
      TimesZero(a);
      Commutative(a, 1);
      TimesOne(a);
    }
  }

  // The two constant matrices are inverse to each other.  The sixteen
  // products of each row are evaluated through Passes, which the solver
  // unfolds on constants.

  /** The first `k` passes of the product. */
  function Passes(a: bv8, b: bv8, k: nat): bv8
    decreases k
  {
    if k == 0 then 0 else Pick(b, a) ^ Passes(X(a), b >> 1, k - 1)
  }

  /** 2^k, for the passes that suffice for a multiplier below it. */
  function Limit(k: nat): bv8
    requires k <= 6
  {
    if k == 0 then 1 else if k == 1 then 2 else if k == 2 then 4 else if k == 3 then 8
    else if k == 4 then 16 else if k == 5 then 32 else 64
  }

  lemma LimitHalf(b: bv8, k: nat)
    requires 0 < k <= 6 && b < Limit(k)
    ensures b >> 1 < Limit(k - 1)
  {
  }

  /** Below 2^k, k passes compute the whole product. */
  lemma {:induction false} PassesTimes(a: bv8, b: bv8, k: nat)
    requires Elem(a) && k <= 6 && b < Limit(k)
    ensures Times(a, b) == Passes(a, b, k)
    decreases k
  {
    if k == 0 {
      assert b == 0;
      TimesZero(a);
    } else {
      LimitHalf(b, k);
      XElem(a);
      PassesTimes(X(a), b >> 1, k - 1);
      Step(a, b);
    }
  }

  /** Row by row, MixMatrix times InvMixMatrix is the identity. */
  lemma MixThenInverseRow0()
    ensures Mix(Times, InvMixMatrix, MixMatrix[0]) == Unit(0)
  {
    var v := MixMatrix[0];
    PassesTimes(0x23, 0x1D, 6);
    PassesTimes(0x3B, 0x11, 6);
    PassesTimes(0x38, 0x07, 6);
    PassesTimes(0x3D, 0x0A, 6);
    PassesTimes(0x23, 0x03, 6);
    PassesTimes(0x3B, 0x2F, 6);
    PassesTimes(0x38, 0x17, 6);
    PassesTimes(0x3D, 0x3A, 6);
    PassesTimes(0x23, 0x0B, 6);
    PassesTimes(0x3B, 0x3E, 6);
    PassesTimes(0x38, 0x39, 6);
    PassesTimes(0x3D, 0x0D, 6);
    PassesTimes(0x23, 0x19, 6);
    PassesTimes(0x3B, 0x3D, 6);
    PassesTimes(0x38, 0x0C, 6);
    PassesTimes(0x3D, 0x29, 6);
    ColumnStep(Times, InvMixMatrix, v, 0, 4);
    ColumnStep(Times, InvMixMatrix, v, 0, 3);
    ColumnStep(Times, InvMixMatrix, v, 0, 2);
    ColumnStep(Times, InvMixMatrix, v, 0, 1);
    ColumnStep(Times, InvMixMatrix, v, 1, 4);
    ColumnStep(Times, InvMixMatrix, v, 1, 3);
    ColumnStep(Times, InvMixMatrix, v, 1, 2);
    ColumnStep(Times, InvMixMatrix, v, 1, 1);
    ColumnStep(Times, InvMixMatrix, v, 2, 4);
    ColumnStep(Times, InvMixMatrix, v, 2, 3);
    ColumnStep(Times, InvMixMatrix, v, 2, 2);
    ColumnStep(Times, InvMixMatrix, v, 2, 1);
    ColumnStep(Times, InvMixMatrix, v, 3, 4);
    ColumnStep(Times, InvMixMatrix, v, 3, 3);
    ColumnStep(Times, InvMixMatrix, v, 3, 2);
    ColumnStep(Times, InvMixMatrix, v, 3, 1);
    var r := Mix(Times, InvMixMatrix, v);
    assert r[0] == 1 && r[1] == 0 && r[2] == 0 && r[3] == 0;
    Four(r);
  }

  lemma MixThenInverseRow1()
    ensures Mix(Times, InvMixMatrix, MixMatrix[1]) == Unit(1)
  {
    var v := MixMatrix[1];
    PassesTimes(0x0D, 0x1D, 6);
    PassesTimes(0x3C, 0x11, 6);
    PassesTimes(0x16, 0x07, 6);
    PassesTimes(0x18, 0x0A, 6);
    PassesTimes(0x0D, 0x03, 6);
    PassesTimes(0x3C, 0x2F, 6);
    PassesTimes(0x16, 0x17, 6);
    PassesTimes(0x18, 0x3A, 6);
    PassesTimes(0x0D, 0x0B, 6);
    PassesTimes(0x3C, 0x3E, 6);
    PassesTimes(0x16, 0x39, 6);
    PassesTimes(0x18, 0x0D, 6);
    PassesTimes(0x0D, 0x19, 6);
    PassesTimes(0x3C, 0x3D, 6);
    PassesTimes(0x16, 0x0C, 6);
    PassesTimes(0x18, 0x29, 6);
    ColumnStep(Times, InvMixMatrix, v, 0, 4);
    ColumnStep(Times, InvMixMatrix, v, 0, 3);
    ColumnStep(Times, InvMixMatrix, v, 0, 2);
    ColumnStep(Times, InvMixMatrix, v, 0, 1);
    ColumnStep(Times, InvMixMatrix, v, 1, 4);
    ColumnStep(Times, InvMixMatrix, v, 1, 3);
    ColumnStep(Times, InvMixMatrix, v, 1, 2);
    ColumnStep(Times, InvMixMatrix, v, 1, 1);
    ColumnStep(Times, InvMixMatrix, v, 2, 4);
    ColumnStep(Times, InvMixMatrix, v, 2, 3);
    ColumnStep(Times, InvMixMatrix, v, 2, 2);
    ColumnStep(Times, InvMixMatrix, v, 2, 1);
    ColumnStep(Times, InvMixMatrix, v, 3, 4);
    ColumnStep(Times, InvMixMatrix, v, 3, 3);
    ColumnStep(Times, InvMixMatrix, v, 3, 2);
    ColumnStep(Times, InvMixMatrix, v, 3, 1);
    var r := Mix(Times, InvMixMatrix, v);
    assert r[0] == 0 && r[1] == 1 && r[2] == 0 && r[3] == 0;
    Four(r);
  }

  lemma MixThenInverseRow2()
    ensures Mix(Times, InvMixMatrix, MixMatrix[2]) == Unit(2)
  {
    var v := MixMatrix[2];
    PassesTimes(0x03, 0x1D, 6);
    PassesTimes(0x20, 0x11, 6);
    PassesTimes(0x17, 0x07, 6);
    PassesTimes(0x37, 0x0A, 6);
    PassesTimes(0x03, 0x03, 6);
    PassesTimes(0x20, 0x2F, 6);
    PassesTimes(0x17, 0x17, 6);
    PassesTimes(0x37, 0x3A, 6);
    PassesTimes(0x03, 0x0B, 6);
    PassesTimes(0x20, 0x3E, 6);
    PassesTimes(0x17, 0x39, 6);
    PassesTimes(0x37, 0x0D, 6);
    PassesTimes(0x03, 0x19, 6);
    PassesTimes(0x20, 0x3D, 6);
    PassesTimes(0x17, 0x0C, 6);
    PassesTimes(0x37, 0x29, 6);
    ColumnStep(Times, InvMixMatrix, v, 0, 4);
    ColumnStep(Times, InvMixMatrix, v, 0, 3);
    ColumnStep(Times, InvMixMatrix, v, 0, 2);
    ColumnStep(Times, InvMixMatrix, v, 0, 1);
    ColumnStep(Times, InvMixMatrix, v, 1, 4);
    ColumnStep(Times, InvMixMatrix, v, 1, 3);
    ColumnStep(Times, InvMixMatrix, v, 1, 2);
    ColumnStep(Times, InvMixMatrix, v, 1, 1);
    ColumnStep(Times, InvMixMatrix, v, 2, 4);
    ColumnStep(Times, InvMixMatrix, v, 2, 3);
    ColumnStep(Times, InvMixMatrix, v, 2, 2);
    ColumnStep(Times, InvMixMatrix, v, 2, 1);
    ColumnStep(Times, InvMixMatrix, v, 3, 4);
    ColumnStep(Times, InvMixMatrix, v, 3, 3);
    ColumnStep(Times, InvMixMatrix, v, 3, 2);
    ColumnStep(Times, InvMixMatrix, v, 3, 1);
    var r := Mix(Times, InvMixMatrix, v);
    assert r[0] == 0 && r[1] == 0 && r[2] == 1 && r[3] == 0;
    Four(r);
  }

  lemma MixThenInverseRow3()
    ensures Mix(Times, InvMixMatrix, MixMatrix[3]) == Unit(3)
  {
    var v := MixMatrix[3];
    PassesTimes(0x2C, 0x1D, 6);
    PassesTimes(0x26, 0x11, 6);
    PassesTimes(0x38, 0x07, 6);
    PassesTimes(0x13, 0x0A, 6);
    PassesTimes(0x2C, 0x03, 6);
    PassesTimes(0x26, 0x2F, 6);
    PassesTimes(0x38, 0x17, 6);
    PassesTimes(0x13, 0x3A, 6);
    PassesTimes(0x2C, 0x0B, 6);
    PassesTimes(0x26, 0x3E, 6);
    PassesTimes(0x38, 0x39, 6);
    PassesTimes(0x13, 0x0D, 6);
    PassesTimes(0x2C, 0x19, 6);
    PassesTimes(0x26, 0x3D, 6);
    PassesTimes(0x38, 0x0C, 6);
    PassesTimes(0x13, 0x29, 6);
    ColumnStep(Times, InvMixMatrix, v, 0, 4);
    ColumnStep(Times, InvMixMatrix, v, 0, 3);
    ColumnStep(Times, InvMixMatrix, v, 0, 2);
    ColumnStep(Times, InvMixMatrix, v, 0, 1);
    ColumnStep(Times, InvMixMatrix, v, 1, 4);
    ColumnStep(Times, InvMixMatrix, v, 1, 3);
    ColumnStep(Times, InvMixMatrix, v, 1, 2);
    ColumnStep(Times, InvMixMatrix, v, 1, 1);
    ColumnStep(Times, InvMixMatrix, v, 2, 4);
    ColumnStep(Times, InvMixMatrix, v, 2, 3);
    ColumnStep(Times, InvMixMatrix, v, 2, 2);
    ColumnStep(Times, InvMixMatrix, v, 2, 1);
    ColumnStep(Times, InvMixMatrix, v, 3, 4);
    ColumnStep(Times, InvMixMatrix, v, 3, 3);
    ColumnStep(Times, InvMixMatrix, v, 3, 2);
    ColumnStep(Times, InvMixMatrix, v, 3, 1);
    var r := Mix(Times, InvMixMatrix, v);
    assert r[0] == 0 && r[1] == 0 && r[2] == 0 && r[3] == 1;
    Four(r);
  }

  /** Row by row, InvMixMatrix times MixMatrix is the identity. */
  lemma InverseThenMixRow0()
    ensures Mix(Times, MixMatrix, InvMixMatrix[0]) == Unit(0)
  {
    var v := InvMixMatrix[0];
    PassesTimes(0x1D, 0x23, 6);
    PassesTimes(0x03, 0x0D, 6);
    PassesTimes(0x0B, 0x03, 6);
    PassesTimes(0x19, 0x2C, 6);
    PassesTimes(0x1D, 0x3B, 6);
    PassesTimes(0x03, 0x3C, 6);
    PassesTimes(0x0B, 0x20, 6);
    PassesTimes(0x19, 0x26, 6);
    PassesTimes(0x1D, 0x38, 6);
    PassesTimes(0x03, 0x16, 6);
    PassesTimes(0x0B, 0x17, 6);
    PassesTimes(0x19, 0x38, 6);
    PassesTimes(0x1D, 0x3D, 6);
    PassesTimes(0x03, 0x18, 6);
    PassesTimes(0x0B, 0x37, 6);
    PassesTimes(0x19, 0x13, 6);
    ColumnStep(Times, MixMatrix, v, 0, 4);
    ColumnStep(Times, MixMatrix, v, 0, 3);
    ColumnStep(Times, MixMatrix, v, 0, 2);
    ColumnStep(Times, MixMatrix, v, 0, 1);
    ColumnStep(Times, MixMatrix, v, 1, 4);
    ColumnStep(Times, MixMatrix, v, 1, 3);
    ColumnStep(Times, MixMatrix, v, 1, 2);
    ColumnStep(Times, MixMatrix, v, 1, 1);
    ColumnStep(Times, MixMatrix, v, 2, 4);
    ColumnStep(Times, MixMatrix, v, 2, 3);
    ColumnStep(Times, MixMatrix, v, 2, 2);
    ColumnStep(Times, MixMatrix, v, 2, 1);
    ColumnStep(Times, MixMatrix, v, 3, 4);
    ColumnStep(Times, MixMatrix, v, 3, 3);
    ColumnStep(Times, MixMatrix, v, 3, 2);
    ColumnStep(Times, MixMatrix, v, 3, 1);
    var r := Mix(Times, MixMatrix, v);
    assert r[0] == 1 && r[1] == 0 && r[2] == 0 && r[3] == 0;
    Four(r);
  }

  lemma InverseThenMixRow1()
    ensures Mix(Times, MixMatrix, InvMixMatrix[1]) == Unit(1)
  {
    var v := InvMixMatrix[1];
    PassesTimes(0x11, 0x23, 6);
    PassesTimes(0x2F, 0x0D, 6);
    PassesTimes(0x3E, 0x03, 6);
    PassesTimes(0x3D, 0x2C, 6);
    PassesTimes(0x11, 0x3B, 6);
    PassesTimes(0x2F, 0x3C, 6);
    PassesTimes(0x3E, 0x20, 6);
    PassesTimes(0x3D, 0x26, 6);
    PassesTimes(0x11, 0x38, 6);
    PassesTimes(0x2F, 0x16, 6);
    PassesTimes(0x3E, 0x17, 6);
    PassesTimes(0x3D, 0x38, 6);
    PassesTimes(0x11, 0x3D, 6);
    PassesTimes(0x2F, 0x18, 6);
    PassesTimes(0x3E, 0x37, 6);
    PassesTimes(0x3D, 0x13, 6);
    ColumnStep(Times, MixMatrix, v, 0, 4);
    ColumnStep(Times, MixMatrix, v, 0, 3);
    ColumnStep(Times, MixMatrix, v, 0, 2);
    ColumnStep(Times, MixMatrix, v, 0, 1);
    ColumnStep(Times, MixMatrix, v, 1, 4);
    ColumnStep(Times, MixMatrix, v, 1, 3);
    ColumnStep(Times, MixMatrix, v, 1, 2);
    ColumnStep(Times, MixMatrix, v, 1, 1);
    ColumnStep(Times, MixMatrix, v, 2, 4);
    ColumnStep(Times, MixMatrix, v, 2, 3);
    ColumnStep(Times, MixMatrix, v, 2, 2);
    ColumnStep(Times, MixMatrix, v, 2, 1);
    ColumnStep(Times, MixMatrix, v, 3, 4);
    ColumnStep(Times, MixMatrix, v, 3, 3);
    ColumnStep(Times, MixMatrix, v, 3, 2);
    ColumnStep(Times, MixMatrix, v, 3, 1);
    var r := Mix(Times, MixMatrix, v);
    assert r[0] == 0 && r[1] == 1 && r[2] == 0 && r[3] == 0;
    Four(r);
  }

  lemma InverseThenMixRow2()
    ensures Mix(Times, MixMatrix, InvMixMatrix[2]) == Unit(2)
  {
    var v := InvMixMatrix[2];
    PassesTimes(0x07, 0x23, 6);
    PassesTimes(0x17, 0x0D, 6);
    PassesTimes(0x39, 0x03, 6);
    PassesTimes(0x0C, 0x2C, 6);
    PassesTimes(0x07, 0x3B, 6);
    PassesTimes(0x17, 0x3C, 6);
    PassesTimes(0x39, 0x20, 6);
    PassesTimes(0x0C, 0x26, 6);
    PassesTimes(0x07, 0x38, 6);
    PassesTimes(0x17, 0x16, 6);
    PassesTimes(0x39, 0x17, 6);
    PassesTimes(0x0C, 0x38, 6);
    PassesTimes(0x07, 0x3D, 6);
    PassesTimes(0x17, 0x18, 6);
    PassesTimes(0x39, 0x37, 6);
    PassesTimes(0x0C, 0x13, 6);
    ColumnStep(Times, MixMatrix, v, 0, 4);
    ColumnStep(Times, MixMatrix, v, 0, 3);
    ColumnStep(Times, MixMatrix, v, 0, 2);
    ColumnStep(Times, MixMatrix, v, 0, 1);
    ColumnStep(Times, MixMatrix, v, 1, 4);
    ColumnStep(Times, MixMatrix, v, 1, 3);
    ColumnStep(Times, MixMatrix, v, 1, 2);
    ColumnStep(Times, MixMatrix, v, 1, 1);
    ColumnStep(Times, MixMatrix, v, 2, 4);
    ColumnStep(Times, MixMatrix, v, 2, 3);
    ColumnStep(Times, MixMatrix, v, 2, 2);
    ColumnStep(Times, MixMatrix, v, 2, 1);
    ColumnStep(Times, MixMatrix, v, 3, 4);
    ColumnStep(Times, MixMatrix, v, 3, 3);
    ColumnStep(Times, MixMatrix, v, 3, 2);
    ColumnStep(Times, MixMatrix, v, 3, 1);
    var r := Mix(Times, MixMatrix, v);
    assert r[0] == 0 && r[1] == 0 && r[2] == 1 && r[3] == 0;
    Four(r);
  }

  lemma InverseThenMixRow3()
    ensures Mix(Times, MixMatrix, InvMixMatrix[3]) == Unit(3)
  {
    var v := InvMixMatrix[3];
    PassesTimes(0x0A, 0x23, 6);
    PassesTimes(0x3A, 0x0D, 6);
    PassesTimes(0x0D, 0x03, 6);
    PassesTimes(0x29, 0x2C, 6);
    PassesTimes(0x0A, 0x3B, 6);
    PassesTimes(0x3A, 0x3C, 6);
    PassesTimes(0x0D, 0x20, 6);
    PassesTimes(0x29, 0x26, 6);
    PassesTimes(0x0A, 0x38, 6);
    PassesTimes(0x3A, 0x16, 6);
    PassesTimes(0x0D, 0x17, 6);
    PassesTimes(0x29, 0x38, 6);
    PassesTimes(0x0A, 0x3D, 6);
    PassesTimes(0x3A, 0x18, 6);
    PassesTimes(0x0D, 0x37, 6);
    PassesTimes(0x29, 0x13, 6);
    ColumnStep(Times, MixMatrix, v, 0, 4);
    ColumnStep(Times, MixMatrix, v, 0, 3);
    ColumnStep(Times, MixMatrix, v, 0, 2);
    ColumnStep(Times, MixMatrix, v, 0, 1);
    ColumnStep(Times, MixMatrix, v, 1, 4);
    ColumnStep(Times, MixMatrix, v, 1, 3);
    ColumnStep(Times, MixMatrix, v, 1, 2);
    ColumnStep(Times, MixMatrix, v, 1, 1);
    ColumnStep(Times, MixMatrix, v, 2, 4);
    ColumnStep(Times, MixMatrix, v, 2, 3);
    ColumnStep(Times, MixMatrix, v, 2, 2);
    ColumnStep(Times, MixMatrix, v, 2, 1);
    ColumnStep(Times, MixMatrix, v, 3, 4);
    ColumnStep(Times, MixMatrix, v, 3, 3);
    ColumnStep(Times, MixMatrix, v, 3, 2);
    ColumnStep(Times, MixMatrix, v, 3, 1);
    var r := Mix(Times, MixMatrix, v);
    assert r[0] == 0 && r[1] == 0 && r[2] == 0 && r[3] == 1;
    Four(r);
  }

  /** mixing_layer: the block, as a row vector, times the mixing matrix. */
  function MixLayer(v: seq<bv8>): (r: seq<bv8>)
    requires |v| == 4
    ensures |r| == 4
  {
    Mix(Times, MixMatrix, v)
  }

  /** inverse_mixing_layer: the block times the inverse matrix. */
  function InvMixLayer(v: seq<bv8>): (r: seq<bv8>)
    requires |v| == 4
    ensures |r| == 4
  {
    Mix(Times, InvMixMatrix, v)
  }

  /** Both layers map blocks to blocks. */
  lemma MixLayerBlock(v: seq<bv8>)
    requires IsBlock(v)
    ensures IsBlock(MixLayer(v)) && IsBlock(InvMixLayer(v))
  {
    TimesClosed();
    MatricesWellFormed();
    MixBlock(Times, MixMatrix, v);
    MixBlock(Times, InvMixMatrix, v);
  }

  /** The two mixing layers undo each other, in both orders. */
  lemma MixThenInverse(v: seq<bv8>)
    requires IsBlock(v)
    ensures InvMixLayer(MixLayer(v)) == v
  {
    TimesLaws();
    MatricesWellFormed();
    MixThenInverseRow0();
    MixThenInverseRow1();
    MixThenInverseRow2();
    MixThenInverseRow3();
    MixInverse(Times, MixMatrix, InvMixMatrix, v);
  }

  lemma InverseThenMix(v: seq<bv8>)
    requires IsBlock(v)
    ensures MixLayer(InvMixLayer(v)) == v
  {
    TimesLaws();
    MatricesWellFormed();
    InverseThenMixRow0();
    InverseThenMixRow1();
    InverseThenMixRow2();
    InverseThenMixRow3();
    MixInverse(Times, InvMixMatrix, MixMatrix, v);
  }

  /** The loop shared by mixing_layer and inverse_mixing_layer: entry `i`
      of `dest` is zeroed and then accumulates f2mul(v[j], m[j][i]) with
      f2sum.  `dest` must not be `v`, whose entries are read after the first
      entry of `dest` is written. */
  method MultiplyByMatrix(dest: array<bv8>, v: array<bv8>, m: seq<seq<bv8>>)
    requires dest.Length == 4 && v.Length == 4 && dest != v
    requires IsMatrix(m) && IsBlock(v[..])
    modifies dest
    ensures dest[..] == Mix(Times, m, v[..])
  {
    TimesClosed();
    var i := 0;
    while i != 4
      invariant 0 <= i <= 4
      invariant forall k :: 0 <= k < i ==> dest[k] == Column(Times, m, v[..], k, 4)
    {
      dest[i] := 0;
      var j := 0;
      while j != 4
        invariant 0 <= j <= 4
        invariant dest[i] == Column(Times, m, v[..], i, j)
        invariant forall k :: 0 <= k < i ==> dest[k] == Column(Times, m, v[..], k, 4)
      {
        BlockElem(v[..], j);
        MatrixElem(m, j, i);
        var p := F2Mul(0x5B, 6, v[j], m[j][i]);
        TimesElem(v[j], m[j][i]);
        ColumnElem(Times, m, v[..], i, j);
        ElemFits(p);
        ElemFits(dest[i]);
        ColumnStep(Times, m, v[..], i, j + 1);
        dest[i] := Sum(6, dest[i], p);
        j := j + 1;
      }
      i := i + 1;
    }
    MixAt(Times, m, v[..], 0);
    MixAt(Times, m, v[..], 1);
    MixAt(Times, m, v[..], 2);
    MixAt(Times, m, v[..], 3);
    Four(dest[..]);
    Four(Mix(Times, m, v[..]));
  }

  method MixingLayer(dest: array<bv8>, v: array<bv8>)
    requires dest.Length == 4 && v.Length == 4 && dest != v && IsBlock(v[..])
    modifies dest
    ensures dest[..] == MixLayer(v[..])
  {
    MatricesWellFormed();
    MultiplyByMatrix(dest, v, MixMatrix);
  }

  method InverseMixingLayer(dest: array<bv8>, v: array<bv8>)
    requires dest.Length == 4 && v.Length == 4 && dest != v && IsBlock(v[..])
    modifies dest
    ensures dest[..] == InvMixLayer(v[..])
  {
    MatricesWellFormed();
    MultiplyByMatrix(dest, v, InvMixMatrix);
  }

  // ---------------------------------------------------------------------
  // Round functions
  // ---------------------------------------------------------------------

  /** round_function: S-boxes, then the mixing layer, then the round key. */
  function Round(v: seq<bv8>, key: seq<bv8>): (r: seq<bv8>)
    requires IsBlock(v) && IsBlock(key)
    ensures IsBlock(r)
  {
    MixLayerBlock(SubBlock(v));
    XorBlock(MixLayer(SubBlock(v)), key)
  }

  /** inverse_round_function: the three steps undone in reverse order. */
  function InvRound(c: seq<bv8>, key: seq<bv8>): (r: seq<bv8>)
    requires IsBlock(c) && IsBlock(key)
    ensures IsBlock(r)
  {
    MixLayerBlock(XorBlock(c, key));
    InvSubBlock(InvMixLayer(XorBlock(c, key)))
  }

  /** The two round functions undo each other under the same key, in both
      orders. */
  lemma RoundInverse(v: seq<bv8>, key: seq<bv8>)
    requires IsBlock(v) && IsBlock(key)
    ensures InvRound(Round(v, key), key) == v
    ensures Round(InvRound(v, key), key) == v
  {
    var s := SubBlock(v);
    MixLayerBlock(s);
    XorBlockTwice(MixLayer(s), key);
    MixThenInverse(s);
    SubBlockInverse(v);
    var u := InvMixLayer(XorBlock(v, key));
    MixLayerBlock(XorBlock(v, key));
    SubBlockInverse(u);
    InverseThenMix(XorBlock(v, key));
    XorBlockTwice(v, key);
  }

  /** round_function: `dest` may be `v` itself, as in the cipher's round
      loop. */
  method RoundFunction(dest: array<bv8>, v: array<bv8>, key: seq<bv8>)
    requires dest.Length == 4 && v.Length == 4 && IsBlock(v[..]) && IsBlock(key)
    modifies dest
    ensures dest[..] == Round(old(v[..]), key)
  {
    Sbox(dest, v);
    var safe := new bv8[4];
    MixLayerBlock(dest[..]);
    MixingLayer(safe, dest);
    Xor(dest, safe, key);
  }

  /** inverse_round_function: `dest` may be `c` itself. */
  method InverseRoundFunction(dest: array<bv8>, c: array<bv8>, key: seq<bv8>)
    requires dest.Length == 4 && c.Length == 4 && IsBlock(c[..]) && IsBlock(key)
    modifies dest
    ensures dest[..] == InvRound(old(c[..]), key)
  {
    Xor(dest, c, key);
    var safe := new bv8[4];
    MixLayerBlock(dest[..]);
    InverseMixingLayer(safe, dest);
    InverseSbox(dest, safe);
  }

  // ---------------------------------------------------------------------
  // Key schedule: 88 words, 16 round keys
  // ---------------------------------------------------------------------

  /** Every entry is a field element. */
  predicate AllElems(w: seq<bv8>) {
    forall k :: 0 <= k < |w| ==> Elem(w[k])
  }

  /** RB: rotation of the six bits one place towards the high end. */
  function RB(a: bv8): (r: bv8)
    requires Elem(a)
    ensures Elem(r)
  {
    ElemFits(a);
    RotFits(a, 6, -1);
    ElemFits(Rot(a, 6, -1));
    Rot(a, 6, -1)
  }

  lemma Eight(s: seq<bv8>)
    requires |s| == 8
    ensures s == [s[0], s[1], s[2], s[3], s[4], s[5], s[6], s[7]]
  {
  }

  lemma EightElems(w: seq<bv8>)
    requires |w| == 8
    requires Elem(w[0]) && Elem(w[1]) && Elem(w[2]) && Elem(w[3])
    requires Elem(w[4]) && Elem(w[5]) && Elem(w[6]) && Elem(w[7])
    ensures AllElems(w)
  {
    forall k | 0 <= k < 8
      ensures Elem(w[k])
    {
      if k < 4 {
        assert k == 0 || k == 1 || k == 2 || k == 3;
      } else {
        assert k == 4 || k == 5 || k == 6 || k == 7;
      }
    }
  }

  /** Step 1: the key block, then one S-box of each key element plus the
      next one. */
  function FirstWords(key: seq<bv8>): (w: seq<bv8>)
    requires IsBlock(key)
    ensures |w| == 8 && AllElems(w)
    ensures w[..4] == key
  {
    var k0, k1, k2, k3 := key[0], key[1], key[2], key[3];
    PowerElem(k0, 62);
    PowerElem(k1, 5);
    PowerElem(k2, 17);
    var s0, s1, s2, s3 := Sbox1(k0), Sbox2(k1), Sbox3(k2), Sbox4(k3);
    XorElem(s0, k1);
    XorElem(s1, k2);
    XorElem(s2, k3);
    XorElem(s3, k0);
    var w := [k0, k1, k2, k3, Add(s0, k1), Add(s1, k2), Add(s2, k3), Add(s3, k0)];
    EightElems(w);
    Four(key);
    assert w[..4] == [k0, k1, k2, k3];
    w
  }

  /** Step 2: word i = |w| from words i - 8 and i - 1. */
  function NextWord(w: seq<bv8>): (r: bv8)
    requires |w| >= 8 && AllElems(w)
    ensures Elem(r)
  {
    var i := |w|;
    assert Elem(w[i - 8]) && Elem(w[i - 1]);
    if i % 8 == 0 then
      PowerElem(RB(w[i - 1]), 5);
      Add(w[i - 8], Add(Sbox2(RB(w[i - 1])), 0x2A))
    else if i % 8 == 4 then
      PowerElem(w[i - 1], 17);
      Add(w[i - 8], Sbox3(w[i - 1]))
    else
      Add(w[i - 8], w[i - 1])
  }

  /** The first n words of the schedule. */
  function Words(key: seq<bv8>, n: nat): (w: seq<bv8>)
    requires IsBlock(key) && 8 <= n
    ensures |w| == n && AllElems(w)
    ensures w[..4] == key
  {
    if n == 8 then FirstWords(key)
    else
      var u := Words(key, n - 1);
      u + [NextWord(u)]
  }

  /** Step 3: the word that becomes entry j of round key i. */
  function KeyIndex(i: nat, j: nat): (k: nat)
    requires i < 16 && j < 4
    ensures 8 <= k <= 83
  {
    8 + i / 5 * 20 + i % 5 + 5 * j
  }

  /** Round key i. */
  function RoundKey(w: seq<bv8>, i: nat): (rk: seq<bv8>)
    requires |w| == 88 && AllElems(w) && i < 16
    ensures IsBlock(rk)
  {
    [w[KeyIndex(i, 0)], w[KeyIndex(i, 1)], w[KeyIndex(i, 2)], w[KeyIndex(i, 3)]]
  }

  /** key_schedule: the sixteen round keys of a 3-byte key. */
  function RoundKeys(key: seq<bv8>): (rks: seq<seq<bv8>>)
    requires |key| == 3
    ensures |rks| == 16 && forall i :: 0 <= i < 16 ==> IsBlock(rks[i])
  {
    var w := Words(BlockOf(key), 88);
    seq(16, i requires 0 <= i < 16 => RoundKey(w, i))
  }

  /** f2sum's check holds for two field elements. */
  lemma SumFits(a: bv8, b: bv8)
    requires Elem(a) && Elem(b)
    ensures Fits(6, a) && Fits(6, b) && Elem(Sum(6, a, b))
  {
    ElemFits(a);
    ElemFits(b);
    XorElem(a, b);
  }

  /** The first eight words, element by element. */
  lemma FirstWordsAre(key: seq<bv8>, w: seq<bv8>)
    requires IsBlock(key) && |w| == 8
    requires w[0] == key[0] && w[1] == key[1] && w[2] == key[2] && w[3] == key[3]
    requires w[4] == Add(Sbox1(key[0]), key[1]) && w[5] == Add(Sbox2(key[1]), key[2])
    requires w[6] == Add(Sbox3(key[2]), key[3]) && w[7] == Add(Sbox4(key[3]), key[0])
    ensures w == FirstWords(key)
  {
    Eight(w);
    Four(key);
  }

  /** Step 1 of key_schedule on the array of words. */
  method FirstStep(w: array<bv8>, key: array<bv8>)
    requires w.Length == 88 && key.Length == 4 && w != key && IsBlock(key[..])
    modifies w
    ensures w[..8] == FirstWords(key[..])
  {
    var k0, k1, k2, k3 := key[0], key[1], key[2], key[3];
    PowerElem(k0, 62);
    PowerElem(k1, 5);
    PowerElem(k2, 17);
    SumFits(Sbox1(k0), k1);
    SumFits(Sbox2(k1), k2);
    SumFits(Sbox3(k2), k3);
    SumFits(Sbox4(k3), k0);
    var s0 := Sum(6, Sbox1(k0), k1);
    var s1 := Sum(6, Sbox2(k1), k2);
    var s2 := Sum(6, Sbox3(k2), k3);
    var s3 := Sum(6, Sbox4(k3), k0);
    w[0], w[1], w[2], w[3], w[4], w[5], w[6], w[7] := k0, k1, k2, k3, s0, s1, s2, s3;
    FirstWordsAre(key[..], w[..8]);
  }

  /** The tests of step 2 on i + 1 select the cases of NextWord on i. */
  lemma StepCases(i: nat)
    ensures (i + 1) % 4 != 1 <==> i % 4 != 0
    ensures (i + 1) % 8 == 1 <==> i % 8 == 0
    ensures (i + 1) % 8 == 5 <==> i % 8 == 4
    ensures i % 4 == 0 <==> i % 8 == 0 || i % 8 == 4
  {
    ModNext8(i);
    ModNext4(i);
    ModOfMod(i);
  }

  lemma ModNext8(i: nat)
    ensures (i + 1) % 8 == if i % 8 == 7 then 0 else i % 8 + 1
  {
    var q, r := i / 8, i % 8;
    assert i == 8 * q + r;
    if r == 7 {
      assert i + 1 == 8 * (q + 1);
    } else {
      assert i + 1 == 8 * q + (r + 1);
    }
  }

  lemma ModNext4(i: nat)
    ensures (i + 1) % 4 == if i % 4 == 3 then 0 else i % 4 + 1
  {
    var q, r := i / 4, i % 4;
    assert i == 4 * q + r;
    if r == 3 {
      assert i + 1 == 4 * (q + 1);
    } else {
      assert i + 1 == 4 * q + (r + 1);
    }
  }

  lemma ModOfMod(i: nat)
    ensures i % 4 == (i % 8) % 4
  {
    var q, r := i / 8, i % 8;
    assert i == 4 * (2 * q) + r;
  }

  /** One pass of step 2: the three tests of key_schedule set word i. */
  method NextStep(w: array<bv8>, i: nat)
    requires 8 <= i < w.Length && AllElems(w[..i])
    modifies w
    ensures w[..i + 1] == old(w[..i]) + [NextWord(old(w[..i]))]
  {
    ghost var u := w[..i];
    assert Elem(u[i - 8]) && Elem(u[i - 1]);
    StepCases(i);
    if (i + 1) % 4 != 1 {
      SumFits(w[i - 8], w[i - 1]);
      w[i] := Sum(6, w[i - 8], w[i - 1]);
    }
    if (i + 1) % 8 == 1 {
      PowerElem(RB(w[i - 1]), 5);
      SumFits(Sbox2(RB(w[i - 1])), 0x2A);
      SumFits(w[i - 8], Sum(6, Sbox2(RB(w[i - 1])), 0x2A));
      w[i] := Sum(6, w[i - 8], Sum(6, Sbox2(RB(w[i - 1])), 0x2A));
    }
    if (i + 1) % 8 == 5 {
      PowerElem(w[i - 1], 17);
      SumFits(w[i - 8], Sbox3(w[i - 1]));
      w[i] := Sum(6, w[i - 8], Sbox3(w[i - 1]));
    }
    assert w[..i + 1] == u + [w[i]];
  }

  /** Step 3: row i of `rk` is round key i of the words. */
  method ExtractKeys(rk: array2<bv8>, w: array<bv8>)
    requires rk.Length0 == 16 && rk.Length1 == 4 && w.Length == 88 && AllElems(w[..])
    modifies rk
    ensures forall i, j :: 0 <= i < 16 && 0 <= j < 4 ==> rk[i, j] == RoundKey(w[..], i)[j]
  {
    for i := 0 to 16
      invariant forall i', j :: 0 <= i' < i && 0 <= j < 4 ==> rk[i', j] == RoundKey(w[..], i')[j]
    {
      for j := 0 to 4
        invariant forall i', j' :: 0 <= i' < i && 0 <= j' < 4 ==> rk[i', j'] == RoundKey(w[..], i')[j']
        invariant forall j' :: 0 <= j' < j ==> rk[i, j'] == RoundKey(w[..], i)[j']
      {
        rk[i, j] := w[8 + i / 5 * 20 + i % 5 + 5 * j];
      }
    }
  }

  /** Steps 1 and 2: the 88 words of the schedule. */
  method ExpandKey(w: array<bv8>, key: array<bv8>)
    requires w.Length == 88 && key.Length == 4 && w != key && IsBlock(key[..])
    modifies w
    ensures w[..] == Words(key[..], 88)
  {
    FirstStep(w, key);
    for i := 8 to 88
      invariant w[..i] == Words(key[..], i)
    {
      NextStep(w, i);
    }
    assert w[..] == w[..88];
  }

  /** key_schedule: the words of the 24-bit key, then the sixteen round
      keys, row by row, into `rk`. */
  method KeySchedule(rk: array2<bv8>, k: seq<bv8>)
    requires rk.Length0 == 16 && rk.Length1 == 4 && |k| == 3
    modifies rk
    ensures forall i, j :: 0 <= i < 16 && 0 <= j < 4 ==> rk[i, j] == RoundKeys(k)[i][j]
  {
    var key := new bv8[4];
    BytesToBlock(key, k);
    var w := new bv8[88];
    ExpandKey(w, key);
    ExtractKeys(rk, w);
  }

  // ---------------------------------------------------------------------
  // bunny24_encrypt, bunny24_decrypt and the reduced cipher
  // ---------------------------------------------------------------------

  /** A sequence of round keys, each a block. */
  predicate Blocks(rks: seq<seq<bv8>>) {
    forall i :: 0 <= i < |rks| ==> IsBlock(rks[i])
  }

  /** A keyed map on blocks: defined on every block and key, giving a block.
      The round function and its inverse are the two the cipher uses. */
  type Keyed = (seq<bv8>, seq<bv8>) --> seq<bv8>

  ghost predicate OnBlocks(f: Keyed) {
    forall v, k :: IsBlock(v) && IsBlock(k) ==> f.requires(v, k) && IsBlock(f(v, k))
  }

  /** g undoes f under the same key. */
  ghost predicate Undoes(g: Keyed, f: Keyed)
    requires OnBlocks(f) && OnBlocks(g)
  {
    forall v, k :: IsBlock(v) && IsBlock(k) ==> g(f(v, k), k) == v
  }

  lemma RoundsOnBlocks()
    ensures OnBlocks(Round) && OnBlocks(InvRound)
    ensures Undoes(InvRound, Round) && Undoes(Round, InvRound)
  {
    forall v, k | IsBlock(v) && IsBlock(k)
      ensures InvRound(Round(v, k), k) == v && Round(InvRound(v, k), k) == v
    {
      RoundInverse(v, k);
    }
  }

  /** Rounds 1..n, round i under key rks[i]. */
  function Rounds(f: Keyed, v: seq<bv8>, rks: seq<seq<bv8>>, n: nat): (r: seq<bv8>)
    requires OnBlocks(f) && IsBlock(v) && Blocks(rks) && n < |rks|
    ensures IsBlock(r)
  {
    if n == 0 then v else f(Rounds(f, v, rks, n - 1), rks[n])
  }

  /** The inverse rounds under keys n down to j + 1. */
  function Unrounds(g: Keyed, c: seq<bv8>, rks: seq<seq<bv8>>, n: nat, j: nat): (r: seq<bv8>)
    requires OnBlocks(g) && IsBlock(c) && Blocks(rks) && j <= n < |rks|
    ensures IsBlock(r)
    decreases n - j
  {
    if j == n then c else g(Unrounds(g, c, rks, n, j + 1), rks[j + 1])
  }

  /** Undoing rounds n..j+1 of the first n rounds leaves the first j. */
  lemma {:induction false} RoundsInverseTo(f: Keyed, g: Keyed, v: seq<bv8>, rks: seq<seq<bv8>>, n: nat, j: nat)
    requires OnBlocks(f) && OnBlocks(g) && Undoes(g, f)
    requires IsBlock(v) && Blocks(rks) && j <= n < |rks|
    ensures Unrounds(g, Rounds(f, v, rks, n), rks, n, j) == Rounds(f, v, rks, j)
    decreases n - j
  {
    if j < n {
      RoundsInverseTo(f, g, v, rks, n, j + 1);
      var w := Rounds(f, v, rks, j);
      assert Rounds(f, v, rks, j + 1) == f(w, rks[j + 1]);
      assert g(f(w, rks[j + 1]), rks[j + 1]) == w;
    }
  }

  /** Redoing rounds 1..j after undoing n..1 gives the block with only
      n..j+1 undone. */
  lemma {:induction false} UnroundsInverseTo(f: Keyed, g: Keyed, c: seq<bv8>, rks: seq<seq<bv8>>, n: nat, j: nat)
    requires OnBlocks(f) && OnBlocks(g) && Undoes(f, g)
    requires IsBlock(c) && Blocks(rks) && j <= n < |rks|
    ensures Rounds(f, Unrounds(g, c, rks, n, 0), rks, j) == Unrounds(g, c, rks, n, j)
  {
    if j > 0 {
      UnroundsInverseTo(f, g, c, rks, n, j - 1);
    }
  }

  lemma RoundsInverse(f: Keyed, g: Keyed, v: seq<bv8>, rks: seq<seq<bv8>>, n: nat)
    requires OnBlocks(f) && OnBlocks(g) && Undoes(g, f) && Undoes(f, g)
    requires IsBlock(v) && Blocks(rks) && n < |rks|
    ensures Unrounds(g, Rounds(f, v, rks, n), rks, n, 0) == v
    ensures Rounds(f, Unrounds(g, v, rks, n, 0), rks, n) == v
  {
    RoundsInverseTo(f, g, v, rks, n, 0);
    UnroundsInverseTo(f, g, v, rks, n, n);
  }

  /** On 3-byte blocks: whitening with rks[0], then one round under each
      further key in order. */
  function Cipher(f: Keyed, rks: seq<seq<bv8>>, m: seq<bv8>): (c: seq<bv8>)
    requires OnBlocks(f) && Blocks(rks) && |rks| >= 1 && |m| == 3
    ensures |c| == 3
  {
    BytesOf(Rounds(f, XorBlock(BlockOf(m), rks[0]), rks, |rks| - 1))
  }

  /** The inverse rounds under the keys from last to rks[1], then
      whitening with rks[0]. */
  function Decipher(g: Keyed, rks: seq<seq<bv8>>, c: seq<bv8>): (m: seq<bv8>)
    requires OnBlocks(g) && Blocks(rks) && |rks| >= 1 && |c| == 3
    ensures |m| == 3
  {
    BytesOf(XorBlock(Unrounds(g, BlockOf(c), rks, |rks| - 1, 0), rks[0]))
  }

  lemma CipherInverse(f: Keyed, g: Keyed, rks: seq<seq<bv8>>, m: seq<bv8>)
    requires OnBlocks(f) && OnBlocks(g) && Undoes(g, f) && Undoes(f, g)
    requires Blocks(rks) && |rks| >= 1 && |m| == 3
    ensures Decipher(g, rks, Cipher(f, rks, m)) == m
    ensures Cipher(f, rks, Decipher(g, rks, m)) == m
  {
    var n := |rks| - 1;
    var v := XorBlock(BlockOf(m), rks[0]);
    BlockBytesBlock(Rounds(f, v, rks, n));
    RoundsInverse(f, g, v, rks, n);
    XorBlockTwice(BlockOf(m), rks[0]);
    BytesBlockBytes(m);
    var u := Unrounds(g, BlockOf(m), rks, n, 0);
    var d := XorBlock(u, rks[0]);
    BlockBytesBlock(d);
    XorBlockTwice(u, rks[0]);
    RoundsInverse(f, g, BlockOf(m), rks, n);
  }

  /** bunny24_encrypt: whitening with round key 0 and fifteen rounds under
      the round keys 1..15 of the schedule (the sixteen keys of RoundKeys). */
  function Encrypt(key: seq<bv8>, m: seq<bv8>): (c: seq<bv8>)
    requires |key| == 3 && |m| == 3
    ensures |c| == 3
  {
    RoundsOnBlocks();
    Cipher(Round, RoundKeys(key), m)
  }

  /** bunny24_decrypt: the inverse rounds under round keys 15..1, then the
      whitening.  What it returns is the message that encrypts to c. */
  function Decrypt(key: seq<bv8>, c: seq<bv8>): (m: seq<bv8>)
    requires |key| == 3 && |c| == 3
    ensures |m| == 3 && Encrypt(key, m) == c
  {
    RoundsOnBlocks();
    CipherInverse(Round, InvRound, RoundKeys(key), c);
    Decipher(InvRound, RoundKeys(key), c)
  }

  lemma EncryptInverse(key: seq<bv8>, m: seq<bv8>)
    requires |key| == 3 && |m| == 3
    ensures Decrypt(key, Encrypt(key, m)) == m
    ensures Encrypt(key, Decrypt(key, m)) == m
  {
    RoundsOnBlocks();
    CipherInverse(Round, InvRound, RoundKeys(key), m);
  }

  /** The reduced cipher's keys: the unexpanded key block for the whitening
      and for both rounds. */
  function ReducedKeys(key: seq<bv8>): (rks: seq<seq<bv8>>)
    requires |key| == 3
    ensures |rks| == 3 && Blocks(rks)
  {
    [BlockOf(key), BlockOf(key), BlockOf(key)]
  }

  /** reduced_bunny24_encrypt: REDUCED_ROUNDS is 3, so the loop from 1 runs
      two rounds. */
  function ReducedEncrypt(key: seq<bv8>, m: seq<bv8>): (c: seq<bv8>)
    requires |key| == 3 && |m| == 3
    ensures |c| == 3
  {
    RoundsOnBlocks();
    Cipher(Round, ReducedKeys(key), m)
  }

  /** reduced_bunny24_decrypt: the message that the reduced cipher
      encrypts to c. */
  function ReducedDecrypt(key: seq<bv8>, c: seq<bv8>): (m: seq<bv8>)
    requires |key| == 3 && |c| == 3
    ensures |m| == 3 && ReducedEncrypt(key, m) == c
  {
    RoundsOnBlocks();
    CipherInverse(Round, InvRound, ReducedKeys(key), c);
    Decipher(InvRound, ReducedKeys(key), c)
  }

  lemma ReducedInverse(key: seq<bv8>, m: seq<bv8>)
    requires |key| == 3 && |m| == 3
    ensures ReducedDecrypt(key, ReducedEncrypt(key, m)) == m
    ensures ReducedEncrypt(key, ReducedDecrypt(key, m)) == m
  {
    RoundsOnBlocks();
    CipherInverse(Round, InvRound, ReducedKeys(key), m);
  }

  /** Row i of the round-key table, as the C reads it through round_keys[i]. */
  function Row(rk: array2<bv8>, i: nat): (r: seq<bv8>)
    reads rk
    requires i < rk.Length0 && rk.Length1 == 4
    ensures |r| == 4
  {
    [rk[i, 0], rk[i, 1], rk[i, 2], rk[i, 3]]
  }

  /** The round keys held in `rk` are the blocks of `rks`. */
  ghost predicate Holds(rk: array2<bv8>, rks: seq<seq<bv8>>)
    reads rk
  {
    rk.Length0 == |rks| && rk.Length1 == 4 && Blocks(rks)
    && forall a, b :: 0 <= a < |rks| && 0 <= b < 4 ==> rk[a, b] == rks[a][b]
  }

  lemma RowIs(rk: array2<bv8>, rks: seq<seq<bv8>>, i: nat)
    requires Holds(rk, rks) && i < |rks|
    ensures Row(rk, i) == rks[i]
  {
    Four(rks[i]);
  }

  /** Round i of bunny24_encrypt, in place, under the round key held in
      row i of `rk`. */
  method ForwardRound(block: array<bv8>, rk: array2<bv8>, ghost rks: seq<seq<bv8>>, ghost v: seq<bv8>, i: nat)
    requires block.Length == 4 && Holds(rk, rks) && 1 <= i < |rks|
    requires OnBlocks(Round) && IsBlock(v) && block[..] == Rounds(Round, v, rks, i - 1)
    modifies block
    ensures block[..] == Rounds(Round, v, rks, i)
  {
    RowIs(rk, rks, i);
    ForwardStep(block, Row(rk, i), rks, v, i);
  }

  /** Round i under `key`, the round key i of `rks`, in place. */
  method ForwardStep(block: array<bv8>, key: seq<bv8>, ghost rks: seq<seq<bv8>>, ghost v: seq<bv8>, i: nat)
    requires block.Length == 4 && Blocks(rks) && 1 <= i < |rks| && key == rks[i]
    requires OnBlocks(Round) && IsBlock(v) && block[..] == Rounds(Round, v, rks, i - 1)
    modifies block
    ensures block[..] == Rounds(Round, v, rks, i)
  {
    RoundFunction(block, block, key);
  }

  /** The round loop of bunny24_encrypt: round_function under round keys
      1..15, in place. */
  method ForwardRounds(block: array<bv8>, rk: array2<bv8>, ghost rks: seq<seq<bv8>>)
    requires block.Length == 4 && IsBlock(block[..]) && Holds(rk, rks) && |rks| == 16
    requires OnBlocks(Round)
    modifies block
    ensures block[..] == Rounds(Round, old(block[..]), rks, |rks| - 1)
  {
    ghost var v := block[..];
    var i := 1;
    while i != 16
      invariant 1 <= i <= 16
      invariant block[..] == Rounds(Round, v, rks, i - 1)
    {
      ForwardRound(block, rk, rks, v, i);
      i := i + 1;
    }
  }

  /** Round i of bunny24_decrypt, in place, under the round key held in
      row i of `rk`. */
  method BackwardRound(block: array<bv8>, rk: array2<bv8>, ghost rks: seq<seq<bv8>>, ghost c: seq<bv8>, i: nat)
    requires block.Length == 4 && Holds(rk, rks) && 1 <= i < |rks|
    requires OnBlocks(InvRound) && IsBlock(c) && block[..] == Unrounds(InvRound, c, rks, |rks| - 1, i)
    modifies block
    ensures block[..] == Unrounds(InvRound, c, rks, |rks| - 1, i - 1)
  {
    RowIs(rk, rks, i);
    BackwardStep(block, Row(rk, i), rks, c, i);
  }

  /** Inverse round i under `key`, the round key i of `rks`, in place. */
  method BackwardStep(block: array<bv8>, key: seq<bv8>, ghost rks: seq<seq<bv8>>, ghost c: seq<bv8>, i: nat)
    requires block.Length == 4 && Blocks(rks) && 1 <= i < |rks| && key == rks[i]
    requires OnBlocks(InvRound) && IsBlock(c) && block[..] == Unrounds(InvRound, c, rks, |rks| - 1, i)
    modifies block
    ensures block[..] == Unrounds(InvRound, c, rks, |rks| - 1, i - 1)
  {
    InverseRoundFunction(block, block, key);
  }

  /** The round loop of bunny24_decrypt: inverse_round_function under round
      keys 15 down to 1, in place. */
  method BackwardRounds(block: array<bv8>, rk: array2<bv8>, ghost rks: seq<seq<bv8>>)
    requires block.Length == 4 && IsBlock(block[..]) && Holds(rk, rks) && |rks| == 16
    requires OnBlocks(InvRound)
    modifies block
    ensures block[..] == Unrounds(InvRound, old(block[..]), rks, 15, 0)
  {
    ghost var c := block[..];
    var i := 15;
    while i > 0
      invariant 0 <= i <= 15
      invariant block[..] == Unrounds(InvRound, c, rks, 15, i)
    {
      BackwardRound(block, rk, rks, c, i);
      i := i - 1;
    }
  }

  method Bunny24Encrypt(dest: array<bv8>, key: seq<bv8>, message: seq<bv8>)
    requires dest.Length == 3 && |key| == 3 && |message| == 3
    modifies dest
    ensures dest[..] == Encrypt(key, message)
  {
    var rk := new bv8[16, 4];
    var plaintext := new bv8[4];
    BytesToBlock(plaintext, message);
    KeySchedule(rk, key);
    ghost var rks := RoundKeys(key);
    RoundsOnBlocks();
    RowIs(rk, rks, 0);
    Xor(plaintext, plaintext, Row(rk, 0));
    ForwardRounds(plaintext, rk, rks);
    BlockToBytes(dest, plaintext[..]);
  }

  method Bunny24Decrypt(dest: array<bv8>, key: seq<bv8>, ciphertext: seq<bv8>)
    requires dest.Length == 3 && |key| == 3 && |ciphertext| == 3
    modifies dest
    ensures dest[..] == Decrypt(key, ciphertext)
  {
    var rk := new bv8[16, 4];
    var cipher := new bv8[4];
    BytesToBlock(cipher, ciphertext);
    KeySchedule(rk, key);
    ghost var rks := RoundKeys(key);
    RoundsOnBlocks();
    BackwardRounds(cipher, rk, rks);
    RowIs(rk, rks, 0);
    Xor(cipher, cipher, Row(rk, 0));
    BlockToBytes(dest, cipher[..]);
  }

  /** The round loop of reduced_bunny24_encrypt: REDUCED_ROUNDS is 3, so
      round_function runs for i = 1 and 2, both times under the key block. */
  method ReducedForwardRounds(block: array<bv8>, key: seq<bv8>, ghost rks: seq<seq<bv8>>)
    requires block.Length == 4 && IsBlock(block[..]) && OnBlocks(Round)
    requires |rks| == 3 && Blocks(rks) && rks[1] == key && rks[2] == key
    modifies block
    ensures block[..] == Rounds(Round, old(block[..]), rks, |rks| - 1)
  {
    ghost var v := block[..];
    var i := 1;
    while i != 3
      invariant 1 <= i <= 3
      invariant block[..] == Rounds(Round, v, rks, i - 1)
    {
      ForwardStep(block, key, rks, v, i);
      i := i + 1;
    }
  }

  /** The round loop of reduced_bunny24_decrypt: two inverse rounds under
      the key block. */
  method ReducedBackwardRounds(block: array<bv8>, key: seq<bv8>, ghost rks: seq<seq<bv8>>)
    requires block.Length == 4 && IsBlock(block[..]) && OnBlocks(InvRound)
    requires |rks| == 3 && Blocks(rks) && rks[1] == key && rks[2] == key
    modifies block
    ensures block[..] == Unrounds(InvRound, old(block[..]), rks, |rks| - 1, 0)
  {
    ghost var c := block[..];
    var i := 1;
    while i != 3
      invariant 1 <= i <= 3
      invariant block[..] == Unrounds(InvRound, c, rks, 2, 3 - i)
    {
      BackwardStep(block, key, rks, c, 3 - i);
      i := i + 1;
    }
  }

  method ReducedBunny24Encrypt(dest: array<bv8>, ckey: seq<bv8>, message: seq<bv8>)
    requires dest.Length == 3 && |ckey| == 3 && |message| == 3
    modifies dest
    ensures dest[..] == ReducedEncrypt(ckey, message)
  {
    var plaintext := new bv8[4];
    var key := new bv8[4];
    BytesToBlock(key, ckey);
    BytesToBlock(plaintext, message);
    RoundsOnBlocks();
    Xor(plaintext, plaintext, key[..]);
    ReducedForwardRounds(plaintext, key[..], ReducedKeys(ckey));
    BlockToBytes(dest, plaintext[..]);
  }

  method ReducedBunny24Decrypt(dest: array<bv8>, ckey: seq<bv8>, ciphertext: seq<bv8>)
    requires dest.Length == 3 && |ckey| == 3 && |ciphertext| == 3
    modifies dest
    ensures dest[..] == ReducedDecrypt(ckey, ciphertext)
  {
    var cipher := new bv8[4];
    var key := new bv8[4];
    BytesToBlock(key, ckey);
    BytesToBlock(cipher, ciphertext);
    RoundsOnBlocks();
    ReducedBackwardRounds(cipher, key[..], ReducedKeys(ckey));
    Xor(cipher, cipher, key[..]);
    BlockToBytes(dest, cipher[..]);
  }

  // ---------------------------------------------------------------------
  // Vectors of test_bunny24.c

  /** Every power of 1 is 1. */
  lemma {:induction false} PowerOne(k: nat)
    requires k >= 1
    ensures Power(1, k) == 1
  {
    if k > 1 {
      PowerOne(k - 1);
      assert Times(1, 1) == 1;
    }
  }

  /** The S-box layer takes 1 1 1 1 to 1 1 1 5 (1 + e^2 in the last box). */
  lemma SboxVector()
    ensures SubBlock([1, 1, 1, 1]) == [1, 1, 1, 5]
  {
    PowerOne(5);
    PowerOne(17);
    PowerOne(62);
  }

  /** Entry i of the block times the mixing matrix, products spelled out. */
  function Dot(v: seq<bv8>, i: nat): bv8
    requires |v| == 4 && i < 4
  {
    Times(v[0], MixMatrix[0][i]) ^ Times(v[1], MixMatrix[1][i]) ^ Times(v[2], MixMatrix[2][i]) ^ Times(v[3], MixMatrix[3][i])
  }

  /** Column i of the mixing layer is Dot(v, i). */
  lemma ColumnDot(v: seq<bv8>, i: nat)
    requires |v| == 4 && i < 4
    ensures Column(Times, MixMatrix, v, i, 4) == Dot(v, i)
  {
    MatricesWellFormed();
    ColumnStep(Times, MixMatrix, v, i, 4);
    ColumnStep(Times, MixMatrix, v, i, 3);
    ColumnStep(Times, MixMatrix, v, i, 2);
    ColumnStep(Times, MixMatrix, v, i, 1);
  }

  /** The mixing layer entry by entry. */
  lemma ColumnsOf(v: seq<bv8>)
    requires |v| == 4
    ensures MixLayer(v) == [Dot(v, 0), Dot(v, 1), Dot(v, 2), Dot(v, 3)]
  {
    ColumnDot(v, 0);
    ColumnDot(v, 1);
    ColumnDot(v, 2);
    ColumnDot(v, 3);
  }

  /** The mixing layer on the three blocks of test_mixing_layer. */
  lemma MixVectorOne()
    ensures MixLayer([0x33, 0x24, 0x05, 0x20]) == [0x1b, 0x08, 0x2c, 0x37]
  {
    assert Mul(0x5B, 6, 0x64, 0x01) == 0x3f;
    assert Mul(0x5B, 6, 0x32, 0x02) == 0x3f;
    assert Mul(0x5B, 6, 0x42, 0x04) == 0x3f;
    assert Mul(0x5B, 6, 0x7a, 0x08) == 0x3f;
    assert Mul(0x5B, 6, 0x66, 0x11) == 0x02;
    assert Mul(0x5B, 6, 0x33, 0x23) == 0x31;
    assert Mul(0x5B, 6, 0x4c, 0x01) == 0x17;
    assert Mul(0x5B, 6, 0x26, 0x03) == 0x31;
    assert Mul(0x5B, 6, 0x48, 0x06) == 0x31;
    assert Mul(0x5B, 6, 0x24, 0x0d) == 0x15;
    assert Mul(0x5B, 6, 0x0a, 0x01) == 0x0a;
    assert Mul(0x5B, 6, 0x05, 0x03) == 0x0f;
    assert Mul(0x5B, 6, 0x6a, 0x01) == 0x31;
    assert Mul(0x5B, 6, 0x6e, 0x02) == 0x31;
    assert Mul(0x5B, 6, 0x6c, 0x05) == 0x06;
    assert Mul(0x5B, 6, 0x36, 0x0b) == 0x30;
    assert Mul(0x5B, 6, 0x40, 0x16) == 0x30;
    assert Mul(0x5B, 6, 0x20, 0x2c) == 0x30;
    assert Mul(0x5B, 6, 0x32, 0x03) == 0x0d;
    assert Mul(0x5B, 6, 0x42, 0x07) == 0x14;
    assert Mul(0x5B, 6, 0x7a, 0x0e) == 0x14;
    assert Mul(0x5B, 6, 0x66, 0x1d) == 0x29;
    assert Mul(0x5B, 6, 0x33, 0x3b) == 0x1a;
    assert Mul(0x5B, 6, 0x5c, 0x01) == 0x07;
    assert Mul(0x5B, 6, 0x2e, 0x03) == 0x29;
    assert Mul(0x5B, 6, 0x4c, 0x07) == 0x3e;
    assert Mul(0x5B, 6, 0x26, 0x0f) == 0x18;
    assert Mul(0x5B, 6, 0x48, 0x1e) == 0x18;
    assert Mul(0x5B, 6, 0x24, 0x3c) == 0x18;
    assert Mul(0x5B, 6, 0x16, 0x01) == 0x16;
    assert Mul(0x5B, 6, 0x50, 0x02) == 0x16;
    assert Mul(0x5B, 6, 0x28, 0x04) == 0x16;
    assert Mul(0x5B, 6, 0x14, 0x08) == 0x16;
    assert Mul(0x5B, 6, 0x0a, 0x10) == 0x16;
    assert Mul(0x5B, 6, 0x05, 0x20) == 0x16;
    assert Mul(0x5B, 6, 0x6c, 0x04) == 0x31;
    assert Mul(0x5B, 6, 0x36, 0x09) == 0x07;
    assert Mul(0x5B, 6, 0x40, 0x13) == 0x1c;
    assert Mul(0x5B, 6, 0x20, 0x26) == 0x1c;
    assert Mul(0x5B, 6, 0x66, 0x1c) == 0x14;
    assert Mul(0x5B, 6, 0x33, 0x38) == 0x14;
    assert Mul(0x5B, 6, 0x2e, 0x01) == 0x2e;
    assert Mul(0x5B, 6, 0x4c, 0x02) == 0x2e;
    assert Mul(0x5B, 6, 0x26, 0x05) == 0x08;
    assert Mul(0x5B, 6, 0x48, 0x0b) == 0x1b;
    assert Mul(0x5B, 6, 0x24, 0x16) == 0x1b;
    assert Mul(0x5B, 6, 0x50, 0x01) == 0x0b;
    assert Mul(0x5B, 6, 0x28, 0x02) == 0x0b;
    assert Mul(0x5B, 6, 0x14, 0x05) == 0x1f;
    assert Mul(0x5B, 6, 0x0a, 0x0b) == 0x15;
    assert Mul(0x5B, 6, 0x05, 0x17) == 0x10;
    assert Mul(0x5B, 6, 0x6e, 0x03) == 0x04;
    assert Mul(0x5B, 6, 0x6c, 0x07) == 0x33;
    assert Mul(0x5B, 6, 0x36, 0x0e) == 0x33;
    assert Mul(0x5B, 6, 0x40, 0x1c) == 0x33;
    assert Mul(0x5B, 6, 0x20, 0x38) == 0x33;
    assert Mul(0x5B, 6, 0x7a, 0x0f) == 0x35;
    assert Mul(0x5B, 6, 0x66, 0x1e) == 0x35;
    assert Mul(0x5B, 6, 0x33, 0x3d) == 0x06;
    assert Mul(0x5B, 6, 0x4c, 0x03) == 0x39;
    assert Mul(0x5B, 6, 0x26, 0x06) == 0x39;
    assert Mul(0x5B, 6, 0x48, 0x0c) == 0x39;
    assert Mul(0x5B, 6, 0x24, 0x18) == 0x39;
    assert Mul(0x5B, 6, 0x50, 0x03) == 0x1d;
    assert Mul(0x5B, 6, 0x28, 0x06) == 0x1d;
    assert Mul(0x5B, 6, 0x14, 0x0d) == 0x09;
    assert Mul(0x5B, 6, 0x0a, 0x1b) == 0x03;
    assert Mul(0x5B, 6, 0x05, 0x37) == 0x06;
    assert Mul(0x5B, 6, 0x6e, 0x01) == 0x35;
    assert Mul(0x5B, 6, 0x6c, 0x02) == 0x35;
    assert Mul(0x5B, 6, 0x36, 0x04) == 0x35;
    assert Mul(0x5B, 6, 0x40, 0x09) == 0x2e;
    assert Mul(0x5B, 6, 0x20, 0x13) == 0x0e;
    ColumnsOf([0x33, 0x24, 0x05, 0x20]);
  }

  lemma MixVectorTwo()
    ensures MixLayer([0x12, 0x38, 0x3c, 0x18]) == [0x3c, 0x35, 0x0e, 0x31]
  {
    assert Mul(0x5B, 6, 0x2e, 0x01) == 0x2e;
    assert Mul(0x5B, 6, 0x4c, 0x02) == 0x2e;
    assert Mul(0x5B, 6, 0x26, 0x04) == 0x2e;
    assert Mul(0x5B, 6, 0x48, 0x08) == 0x2e;
    assert Mul(0x5B, 6, 0x24, 0x11) == 0x0a;
    assert Mul(0x5B, 6, 0x12, 0x23) == 0x18;
    assert Mul(0x5B, 6, 0x1a, 0x01) == 0x1a;
    assert Mul(0x5B, 6, 0x56, 0x03) == 0x17;
    assert Mul(0x5B, 6, 0x70, 0x06) == 0x17;
    assert Mul(0x5B, 6, 0x38, 0x0d) == 0x2f;
    assert Mul(0x5B, 6, 0x78, 0x01) == 0x23;
    assert Mul(0x5B, 6, 0x3c, 0x03) == 0x1f;
    assert Mul(0x5B, 6, 0x02, 0x01) == 0x02;
    assert Mul(0x5B, 6, 0x5a, 0x02) == 0x02;
    assert Mul(0x5B, 6, 0x76, 0x05) == 0x2f;
    assert Mul(0x5B, 6, 0x60, 0x0b) == 0x14;
    assert Mul(0x5B, 6, 0x30, 0x16) == 0x14;
    assert Mul(0x5B, 6, 0x18, 0x2c) == 0x14;
    assert Mul(0x5B, 6, 0x4c, 0x03) == 0x39;
    assert Mul(0x5B, 6, 0x26, 0x07) == 0x1f;
    assert Mul(0x5B, 6, 0x48, 0x0e) == 0x1f;
    assert Mul(0x5B, 6, 0x24, 0x1d) == 0x3b;
    assert Mul(0x5B, 6, 0x12, 0x3b) == 0x29;
    assert Mul(0x5B, 6, 0x68, 0x01) == 0x33;
    assert Mul(0x5B, 6, 0x34, 0x03) == 0x07;
    assert Mul(0x5B, 6, 0x1a, 0x07) == 0x1d;
    assert Mul(0x5B, 6, 0x56, 0x0f) == 0x10;
    assert Mul(0x5B, 6, 0x70, 0x1e) == 0x10;
    assert Mul(0x5B, 6, 0x38, 0x3c) == 0x10;
    assert Mul(0x5B, 6, 0x5e, 0x01) == 0x05;
    assert Mul(0x5B, 6, 0x74, 0x02) == 0x05;
    assert Mul(0x5B, 6, 0x3a, 0x04) == 0x05;
    assert Mul(0x5B, 6, 0x46, 0x08) == 0x05;
    assert Mul(0x5B, 6, 0x78, 0x10) == 0x05;
    assert Mul(0x5B, 6, 0x3c, 0x20) == 0x05;
    assert Mul(0x5B, 6, 0x76, 0x04) == 0x02;
    assert Mul(0x5B, 6, 0x60, 0x09) == 0x39;
    assert Mul(0x5B, 6, 0x30, 0x13) == 0x09;
    assert Mul(0x5B, 6, 0x18, 0x26) == 0x09;
    assert Mul(0x5B, 6, 0x24, 0x1c) == 0x1f;
    assert Mul(0x5B, 6, 0x12, 0x38) == 0x1f;
    assert Mul(0x5B, 6, 0x34, 0x01) == 0x34;
    assert Mul(0x5B, 6, 0x1a, 0x02) == 0x34;
    assert Mul(0x5B, 6, 0x56, 0x05) == 0x39;
    assert Mul(0x5B, 6, 0x70, 0x0b) == 0x12;
    assert Mul(0x5B, 6, 0x38, 0x16) == 0x12;
    assert Mul(0x5B, 6, 0x74, 0x01) == 0x2f;
    assert Mul(0x5B, 6, 0x3a, 0x02) == 0x2f;
    assert Mul(0x5B, 6, 0x46, 0x05) == 0x32;
    assert Mul(0x5B, 6, 0x78, 0x0b) == 0x11;
    assert Mul(0x5B, 6, 0x3c, 0x17) == 0x2d;
    assert Mul(0x5B, 6, 0x5a, 0x03) == 0x03;
    assert Mul(0x5B, 6, 0x76, 0x07) == 0x2e;
    assert Mul(0x5B, 6, 0x60, 0x0e) == 0x2e;
    assert Mul(0x5B, 6, 0x30, 0x1c) == 0x2e;
    assert Mul(0x5B, 6, 0x18, 0x38) == 0x2e;
    assert Mul(0x5B, 6, 0x48, 0x0f) == 0x0c;
    assert Mul(0x5B, 6, 0x24, 0x1e) == 0x0c;
    assert Mul(0x5B, 6, 0x12, 0x3d) == 0x1e;
    assert Mul(0x5B, 6, 0x1a, 0x03) == 0x2e;
    assert Mul(0x5B, 6, 0x56, 0x06) == 0x2e;
    assert Mul(0x5B, 6, 0x70, 0x0c) == 0x2e;
    assert Mul(0x5B, 6, 0x38, 0x18) == 0x2e;
    assert Mul(0x5B, 6, 0x74, 0x03) == 0x2a;
    assert Mul(0x5B, 6, 0x3a, 0x06) == 0x2a;
    assert Mul(0x5B, 6, 0x46, 0x0d) == 0x37;
    assert Mul(0x5B, 6, 0x78, 0x1b) == 0x14;
    assert Mul(0x5B, 6, 0x3c, 0x37) == 0x28;
    assert Mul(0x5B, 6, 0x5a, 0x01) == 0x01;
    assert Mul(0x5B, 6, 0x76, 0x02) == 0x01;
    assert Mul(0x5B, 6, 0x60, 0x04) == 0x01;
    assert Mul(0x5B, 6, 0x30, 0x09) == 0x31;
    assert Mul(0x5B, 6, 0x18, 0x13) == 0x29;
    ColumnsOf([0x12, 0x38, 0x3c, 0x18]);
  }

  lemma MixVectorThree()
    ensures MixLayer([0x24, 0x25, 0x1d, 0x35]) == [0x0d, 0x23, 0x03, 0x06]
  {
    assert Mul(0x5B, 6, 0x5c, 0x01) == 0x07;
    assert Mul(0x5B, 6, 0x2e, 0x02) == 0x07;
    assert Mul(0x5B, 6, 0x4c, 0x04) == 0x07;
    assert Mul(0x5B, 6, 0x26, 0x08) == 0x07;
    assert Mul(0x5B, 6, 0x48, 0x11) == 0x14;
    assert Mul(0x5B, 6, 0x24, 0x23) == 0x30;
    assert Mul(0x5B, 6, 0x44, 0x01) == 0x1f;
    assert Mul(0x5B, 6, 0x22, 0x03) == 0x3d;
    assert Mul(0x5B, 6, 0x4a, 0x06) == 0x3d;
    assert Mul(0x5B, 6, 0x25, 0x0d) == 0x18;
    assert Mul(0x5B, 6, 0x3a, 0x01) == 0x3a;
    assert Mul(0x5B, 6, 0x1d, 0x03) == 0x27;
    assert Mul(0x5B, 6, 0x12, 0x01) == 0x12;
    assert Mul(0x5B, 6, 0x52, 0x02) == 0x12;
    assert Mul(0x5B, 6, 0x72, 0x05) == 0x3b;
    assert Mul(0x5B, 6, 0x62, 0x0b) == 0x02;
    assert Mul(0x5B, 6, 0x6a, 0x16) == 0x02;
    assert Mul(0x5B, 6, 0x35, 0x2c) == 0x02;
    assert Mul(0x5B, 6, 0x2e, 0x03) == 0x29;
    assert Mul(0x5B, 6, 0x4c, 0x07) == 0x3e;
    assert Mul(0x5B, 6, 0x26, 0x0e) == 0x3e;
    assert Mul(0x5B, 6, 0x48, 0x1d) == 0x2d;
    assert Mul(0x5B, 6, 0x24, 0x3b) == 0x09;
    assert Mul(0x5B, 6, 0x7c, 0x01) == 0x27;
    assert Mul(0x5B, 6, 0x3e, 0x03) == 0x19;
    assert Mul(0x5B, 6, 0x44, 0x07) == 0x06;
    assert Mul(0x5B, 6, 0x22, 0x0f) == 0x24;
    assert Mul(0x5B, 6, 0x4a, 0x1e) == 0x24;
    assert Mul(0x5B, 6, 0x25, 0x3c) == 0x24;
    assert Mul(0x5B, 6, 0x14, 0x01) == 0x14;
    assert Mul(0x5B, 6, 0x0a, 0x02) == 0x14;
    assert Mul(0x5B, 6, 0x5e, 0x04) == 0x14;
    assert Mul(0x5B, 6, 0x74, 0x08) == 0x14;
    assert Mul(0x5B, 6, 0x3a, 0x10) == 0x14;
    assert Mul(0x5B, 6, 0x1d, 0x20) == 0x14;
    assert Mul(0x5B, 6, 0x72, 0x04) == 0x12;
    assert Mul(0x5B, 6, 0x62, 0x09) == 0x2b;
    assert Mul(0x5B, 6, 0x6a, 0x13) == 0x1a;
    assert Mul(0x5B, 6, 0x35, 0x26) == 0x1a;
    assert Mul(0x5B, 6, 0x48, 0x1c) == 0x3e;
    assert Mul(0x5B, 6, 0x24, 0x38) == 0x3e;
    assert Mul(0x5B, 6, 0x3e, 0x01) == 0x3e;
    assert Mul(0x5B, 6, 0x44, 0x02) == 0x3e;
    assert Mul(0x5B, 6, 0x22, 0x05) == 0x1c;
    assert Mul(0x5B, 6, 0x4a, 0x0b) == 0x0d;
    assert Mul(0x5B, 6, 0x25, 0x16) == 0x0d;
    assert Mul(0x5B, 6, 0x0a, 0x01) == 0x0a;
    assert Mul(0x5B, 6, 0x5e, 0x02) == 0x0a;
    assert Mul(0x5B, 6, 0x74, 0x05) == 0x25;
    assert Mul(0x5B, 6, 0x3a, 0x0b) == 0x1f;
    assert Mul(0x5B, 6, 0x1d, 0x17) == 0x02;
    assert Mul(0x5B, 6, 0x52, 0x03) == 0x1b;
    assert Mul(0x5B, 6, 0x72, 0x07) == 0x32;
    assert Mul(0x5B, 6, 0x62, 0x0e) == 0x32;
    assert Mul(0x5B, 6, 0x6a, 0x1c) == 0x32;
    assert Mul(0x5B, 6, 0x35, 0x38) == 0x32;
    assert Mul(0x5B, 6, 0x26, 0x0f) == 0x18;
    assert Mul(0x5B, 6, 0x48, 0x1e) == 0x18;
    assert Mul(0x5B, 6, 0x24, 0x3d) == 0x3c;
    assert Mul(0x5B, 6, 0x44, 0x03) == 0x21;
    assert Mul(0x5B, 6, 0x22, 0x06) == 0x21;
    assert Mul(0x5B, 6, 0x4a, 0x0c) == 0x21;
    assert Mul(0x5B, 6, 0x25, 0x18) == 0x21;
    assert Mul(0x5B, 6, 0x0a, 0x03) == 0x1e;
    assert Mul(0x5B, 6, 0x5e, 0x06) == 0x1e;
    assert Mul(0x5B, 6, 0x74, 0x0d) == 0x31;
    assert Mul(0x5B, 6, 0x3a, 0x1b) == 0x0b;
    assert Mul(0x5B, 6, 0x1d, 0x37) == 0x16;
    assert Mul(0x5B, 6, 0x52, 0x01) == 0x09;
    assert Mul(0x5B, 6, 0x72, 0x02) == 0x09;
    assert Mul(0x5B, 6, 0x62, 0x04) == 0x09;
    assert Mul(0x5B, 6, 0x6a, 0x09) == 0x38;
    assert Mul(0x5B, 6, 0x35, 0x13) == 0x0d;
    ColumnsOf([0x24, 0x25, 0x1d, 0x35]);
  }
}
