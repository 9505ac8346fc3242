/** The sponge hash of sponge.c. The state is one 24-bit Bunny24 block; the
    top 20 bits of it are the rate, the low nibble of its last byte is the
    4-bit capacity, and the permutation is Bunny24 under the all-ones key.
    Bytes are read as strings of 4-bit nibbles, high half first: the message
    is absorbed, and the digest squeezed out, in runs of five nibbles. */
module Sponge {
  import opened Bunny24
  import Cbc

  /** The block size, capacity and rate in bits, and the digest length in bytes. */
  const StateBits: nat := 24
  const Capacity: nat := 4
  const Rate: nat := 20
  const HashLen: nat := 20

  /** The fixed key under which Bunny24 serves as the sponge's permutation. */
  const SpongeKey: seq<bv8> := [0xff, 0xff, 0xff]

  /** A permutation of 24-bit states. The construction is stated for any f
      defined on three-byte states and returning three bytes; spongebunny's
      own is Permute below. */
  type Permutation = seq<bv8> --> seq<bv8>

  ghost predicate OnStates(f: Permutation)
  {
    (forall s {:trigger f.requires(s)} :: |s| == 3 ==> f.requires(s)) &&
    (forall s {:trigger f(s)} :: |s| == 3 ==> |f(s)| == 3)
  }

  /** bunny24_encrypt under the sponge key. */
  function Permute(s: seq<bv8>): (r: seq<bv8>)
    requires |s| == 3
    ensures |r| == 3
  {
    Encrypt(SpongeKey, s)
  }

  lemma PermuteOnStates()
    ensures OnStates(Permute)
  {
  }

  // ---------------------------------------------------------------------
  // Nibble strings

  /** Nibble t of m: the high half of byte t / 2 for even t, its low half for odd t. */
  function Nibble(m: seq<bv8>, t: nat): (h: bv8)
    requires t < 2 * |m|
    ensures h < 16
  {
    if t % 2 == 0 then m[t / 2] >> 4 else m[t / 2] & 0x0f
  }

  function Nibbles(m: seq<bv8>): (ns: seq<bv8>)
    ensures |ns| == 2 * |m|
  {
    seq(2 * |m|, t requires 0 <= t < 2 * |m| => Nibble(m, t))
  }

  function Join(hi: bv8, lo: bv8): bv8
  {
    (hi << 4) | lo
  }

  /** Packs pairs of nibbles into bytes, the first of each pair as the high
      half (a trailing odd nibble is dropped). */
  function FromNibbles(ns: seq<bv8>): (m: seq<bv8>)
    ensures |m| == |ns| / 2
  {
    seq(|ns| / 2, i requires 0 <= i < |ns| / 2 => Join(ns[2 * i], ns[2 * i + 1]))
  }

  ghost predicate AllNibbles(ns: seq<bv8>)
  {
    forall t :: 0 <= t < |ns| ==> ns[t] < 16
  }

  lemma NibbleAt(m: seq<bv8>, i: nat)
    requires i < |m|
    ensures Nibbles(m)[2 * i] == m[i] >> 4 && Nibbles(m)[2 * i + 1] == m[i] & 0x0f
  {
  }

  lemma JoinSplit(b: bv8)
    ensures Join(b >> 4, b & 0x0f) == b
  {
  }

  lemma SplitJoin(hi: bv8, lo: bv8)
    requires hi < 16 && lo < 16
    ensures Join(hi, lo) >> 4 == hi && Join(hi, lo) & 0x0f == lo
  {
  }

  /** Splitting bytes into nibbles and packing them again is the identity, both ways. */
  lemma NibblesRoundTrip(m: seq<bv8>, ns: seq<bv8>)
    requires |ns| % 2 == 0 && AllNibbles(ns)
    ensures FromNibbles(Nibbles(m)) == m
    ensures AllNibbles(Nibbles(m))
    ensures Nibbles(FromNibbles(ns)) == ns
  {
    forall i | 0 <= i < |m|
      ensures FromNibbles(Nibbles(m))[i] == m[i]
    {
      NibbleAt(m, i);
      JoinSplit(m[i]);
    }
    var m' := FromNibbles(ns);
    forall t | 0 <= t < |ns|
      ensures Nibbles(m')[t] == ns[t]
    {
      var i := t / 2;
      NibbleAt(m', i);
      SplitJoin(ns[2 * i], ns[2 * i + 1]);
    }
  }

  /** Packing distributes over concatenation when the first string holds h
      whole bytes' worth of nibbles. */
  lemma FromNibblesAppend(xs: seq<bv8>, ys: seq<bv8>, h: nat)
    requires |xs| == 2 * h && |ys| % 2 == 0
    ensures FromNibbles(xs + ys) == FromNibbles(xs) + FromNibbles(ys)
  {
    var l := FromNibbles(xs + ys);
    var r := FromNibbles(xs) + FromNibbles(ys);
    assert |xs| / 2 == h;
    forall i | 0 <= i < |l|
      ensures l[i] == r[i]
    {
      if i >= h {
        var i' := i - h;
        assert (xs + ys)[2 * i] == ys[2 * i'];
        assert (xs + ys)[2 * i + 1] == ys[2 * i' + 1];
      }
    }
  }

  // ---------------------------------------------------------------------
  // Absorbing

  /** oxor's second operand: the 20 message bits of the three bytes a taken
      from bit 0 (offset false) or from bit 4 (offset true), placed in the top
      20 bits of a block whose capacity nibble is zero. */
  function Window(a: seq<bv8>, offset: bool): (w: seq<bv8>)
    requires |a| == 3
    ensures |w| == 3
  {
    if !offset then [a[0], a[1], a[2] & 0xf0]
    else [((a[0] & 0x0f) << 4) | ((a[1] & 0xf0) >> 4),
          ((a[1] & 0x0f) << 4) | ((a[2] & 0xf0) >> 4),
          (a[2] & 0x0f) << 4]
  }

  /** The byte at which absorbing (and squeezing) step k starts: the cursor
      moves by two bytes after an offset-0 step and by three after an offset-1
      step, so two steps cover five bytes. */
  function Pos(k: nat): nat
  {
    5 * (k / 2) + 2 * (k % 2)
  }

  function Offset(k: nat): bool
  {
    k % 2 == 1
  }

  lemma PosNext(k: nat)
    ensures Pos(k + 1) == Pos(k) + (if Offset(k) then 3 else 2)
    ensures Offset(k + 1) == !Offset(k)
  {
  }

  lemma NibblesSlice(p: seq<bv8>, i: nat, n: nat)
    requires i + n <= |p|
    ensures Nibbles(p)[2 * i..2 * i + 2 * n] == Nibbles(p[i..i + n])
  {
    var q := Nibbles(p)[2 * i..2 * i + 2 * n];
    forall t | 0 <= t < 2 * n
      ensures q[t] == Nibbles(p[i..i + n])[t]
    {
      HalfShift(i, t);
      assert q[t] == Nibble(p, 2 * i + t);
      assert Nibble(p, 2 * i + t) == Nibble(p[i..i + n], t);
    }
  }

  lemma HalfShift(i: nat, t: nat)
    ensures (2 * i + t) / 2 == i + t / 2 && (2 * i + t) % 2 == t % 2
  {
    var q, r := t / 2, t % 2;
    assert t == 2 * q + r;
    assert 2 * i + t == 2 * (i + q) + r;
  }

  lemma NibblesOfThree(a: seq<bv8>)
    requires |a| == 3
    ensures Nibbles(a) == [a[0] >> 4, a[0] & 0x0f, a[1] >> 4, a[1] & 0x0f, a[2] >> 4, a[2] & 0x0f]
  {
    NibbleAt(a, 0);
    NibbleAt(a, 1);
    NibbleAt(a, 2);
    SixEqual(Nibbles(a), [a[0] >> 4, a[0] & 0x0f, a[1] >> 4, a[1] & 0x0f, a[2] >> 4, a[2] & 0x0f]);
  }

  lemma SixEqual(xs: seq<bv8>, ys: seq<bv8>)
    requires |xs| == 6 && |ys| == 6
    requires xs[0] == ys[0] && xs[1] == ys[1] && xs[2] == ys[2]
    requires xs[3] == ys[3] && xs[4] == ys[4] && xs[5] == ys[5]
    ensures xs == ys
  {
    assert forall t | 0 <= t < 6 :: xs[t] == ys[t];
  }

  lemma FromSixNibbles(c: seq<bv8>)
    requires |c| == 6
    ensures FromNibbles(c) == [Join(c[0], c[1]), Join(c[2], c[3]), Join(c[4], c[5])]
  {
  }

  lemma JoinHigh(x: bv8)
    ensures Join(x >> 4, 0) == x & 0xf0
  {
  }

  lemma JoinAcross(x: bv8, y: bv8)
    ensures Join(x & 0x0f, y >> 4) == ((x & 0x0f) << 4) | ((y & 0xf0) >> 4)
    ensures Join(x & 0x0f, 0) == (x & 0x0f) << 4
  {
  }

  lemma WindowEven(a: seq<bv8>)
    requires |a| == 3
    ensures Window(a, false) == FromNibbles(Nibbles(a)[..5] + [0])
  {
    NibblesOfThree(a);
    var c := Nibbles(a)[..5] + [0];
    assert c == [a[0] >> 4, a[0] & 0x0f, a[1] >> 4, a[1] & 0x0f, a[2] >> 4, 0];
    FromSixNibbles(c);
    JoinSplit(a[0]);
    JoinSplit(a[1]);
    JoinHigh(a[2]);
  }

  lemma WindowOdd(a: seq<bv8>)
    requires |a| == 3
    ensures Window(a, true) == FromNibbles(Nibbles(a)[1..6] + [0])
  {
    NibblesOfThree(a);
    var c := Nibbles(a)[1..6] + [0];
    assert c == [a[0] & 0x0f, a[1] >> 4, a[1] & 0x0f, a[2] >> 4, a[2] & 0x0f, 0];
    FromSixNibbles(c);
    JoinAcross(a[0], a[1]);
    JoinAcross(a[1], a[2]);
    JoinAcross(a[2], 0);
  }

  /** The window XORed in at step k is message nibbles 5k .. 5k+4 followed by
      a zero capacity nibble: consecutive steps take consecutive 20-bit chunks. */
  lemma WindowIsChunk(p: seq<bv8>, k: nat)
    requires Pos(k) + 3 <= |p|
    ensures 5 * k + 5 <= 2 * |p|
    ensures Window(p[Pos(k)..Pos(k) + 3], Offset(k)) == FromNibbles(Nibbles(p)[5 * k..5 * k + 5] + [0])
  {
    var i := Pos(k);
    var a := p[i..i + 3];
    var ns := Nibbles(p);
    PosParity(k);
    NibblesSlice(p, i, 3);
    assert ns[2 * i..2 * i + 6] == Nibbles(a);
    if k % 2 == 0 {
      WindowEven(a);
      SliceOfSlice(ns, 2 * i, 2 * i + 6, 0, 5);
      assert ns[5 * k..5 * k + 5] == Nibbles(a)[..5];
    } else {
      WindowOdd(a);
      SliceOfSlice(ns, 2 * i, 2 * i + 6, 1, 6);
      assert ns[5 * k..5 * k + 5] == Nibbles(a)[1..6];
    }
  }

  /** Step k starts at nibble 5k: on the byte boundary for even k, half a
      byte in for odd k. */
  lemma PosParity(k: nat)
    ensures k % 2 == 0 ==> 5 * k == 2 * Pos(k)
    ensures k % 2 == 1 ==> 5 * k == 2 * Pos(k) + 1
  {
    assert k == 2 * (k / 2) + k % 2;
  }

  lemma SliceOfSlice(s: seq<bv8>, lo: nat, hi: nat, i: nat, j: nat)
    requires lo <= hi <= |s| && i <= j <= hi - lo
    ensures s[lo..hi][i..j] == s[lo + i..lo + j]
  {
    var t := s[lo..hi];
    assert |t[i..j]| == |s[lo + i..lo + j]|;
    forall m | 0 <= m < j - i
      ensures t[i..j][m] == s[lo + i..lo + j][m]
    {
      assert t[i + m] == s[lo + i + m];
    }
  }

  /** Absorbing never touches the capacity: the low nibble of the last state
      byte survives oxor, whatever the message bits. */
  lemma CapacityKept(s: seq<bv8>, a: seq<bv8>, offset: bool)
    requires |s| == 3 && |a| == 3
    ensures Nibbles(XorBytes(s, Window(a, offset)))[5] == Nibbles(s)[5]
  {
    NibbleAt(s, 2);
    NibbleAt(XorBytes(s, Window(a, offset)), 2);
  }

  lemma {:induction false} PosIncreasing(k: nat, l: nat)
    requires k < l
    ensures Pos(k) < Pos(l)
    decreases l
  {
    if k + 1 < l {
      PosIncreasing(k, l - 1);
    }
  }

  lemma PosBefore(k: nat)
    ensures k == 0 || Pos(k - 1) < Pos(k)
  {
  }

  /** The state after the first n absorbing steps over the padded buffer p. */
  function Absorbed(f: Permutation, p: seq<bv8>, n: nat): (s: seq<bv8>)
    requires OnStates(f)
    requires n == 0 || Pos(n - 1) + 3 <= |p|
    ensures |s| == 3
  {
    if n == 0 then [0, 0, 0]
    else
      var k := n - 1;
      PosBefore(k);
      f(XorBytes(Absorbed(f, p, k), Window(p[Pos(k)..Pos(k) + 3], Offset(k))))
  }

  // ---------------------------------------------------------------------
  // Padding and the number of absorbing steps

  /** The length padding brings len to: the next multiple of five bytes, so
      that the buffer holds a whole number of 40-bit (two-step) groups. */
  function PadLen(len: nat): (n: nat)
    ensures n % 5 == 0 && len <= n < len + 5
  {
    len + (5 - len % 5) % 5
  }

  /** padding's loop test: len bytes are not yet a whole number of 20-bit
      chunks exactly when len is not a multiple of five. */
  lemma RateAligned(n: nat)
    ensures ((n * 8) % 20 == 0) == (n % 5 == 0)
  {
    var q, r := n / 5, n % 5;
    assert n * 8 == 20 * (2 * q) + 8 * r;
    ModOfMultiple(2 * q, 8 * r);
  }

  /** Adding whole multiples of 20 does not change the remainder. */
  lemma {:induction false} ModOfMultiple(k: nat, a: nat)
    ensures (20 * k + a) % 20 == a % 20
  {
    if k > 0 {
      ModOfMultiple(k - 1, a);
      assert 20 * k + a == 20 * (k - 1) + a + 20;
    }
  }

  /** The message m as padding leaves it in the buffer. */
  function PadMessage(m: seq<bv8>): (p: seq<bv8>)
    ensures |p| == PadLen(|m|)
  {
    m + Cbc.Zeros(PadLen(|m|) - |m|)
  }

  /** The number of absorbing steps for a message of len bytes: the loop runs
      while the cursor is below len (not below the padded length). */
  function Steps(len: nat): nat
  {
    2 * (len / 5) + (if len % 5 == 0 then 0 else if len % 5 <= 2 then 1 else 2)
  }

  /** Step k is taken exactly when its window starts inside the message. */
  lemma StepsCount(len: nat, k: nat)
    ensures Pos(k) < len <==> k < Steps(len)
  {
    var q, r := len / 5, len % 5;
    var j, o := k / 2, k % 2;
    assert len == 5 * q + r && k == 2 * j + o;
    if j < q {
      assert Pos(k) < len && k < Steps(len);
    } else if j > q {
      assert Pos(k) >= len && k >= Steps(len);
    }
  }

  /** Every window absorbed from a message of len bytes lies inside the
      padded buffer: the three bytes read at step k are among the first
      PadLen(len). */
  lemma ReadsInPadding(len: nat, k: nat)
    requires k < Steps(len)
    ensures Pos(k) + 3 <= PadLen(len)
  {
    StepsCount(len, k);
    var q, r := len / 5, len % 5;
    var j := k / 2;
    assert len == 5 * q + r;
    assert PadLen(len) == (if r == 0 then 5 * q else 5 * q + 5);
  }

  /** The state after absorbing the message m. */
  function AbsorbedState(f: Permutation, m: seq<bv8>): (s: seq<bv8>)
    requires OnStates(f)
    ensures |s| == 3
  {
    var n := Steps(|m|);
    if n > 0 then ReadsInPadding(|m|, n - 1); Absorbed(f, PadMessage(m), n) else Absorbed(f, PadMessage(m), 0)
  }

  lemma AbsorbedNext(f: Permutation, p: seq<bv8>, k: nat)
    requires OnStates(f) && Pos(k) + 3 <= |p|
    ensures Absorbed(f, p, k + 1) == f(XorBytes(Absorbed(f, p, k), Window(p[Pos(k)..Pos(k) + 3], Offset(k))))
  {
  }

  lemma AbsorbedStateIs(f: Permutation, m: seq<bv8>)
    requires OnStates(f)
    ensures Steps(|m|) == 0 || Pos(Steps(|m|) - 1) + 3 <= |PadMessage(m)|
    ensures AbsorbedState(f, m) == Absorbed(f, PadMessage(m), Steps(|m|))
  {
    if Steps(|m|) > 0 {
      ReadsInPadding(|m|, Steps(|m|) - 1);
    }
  }

  /** Padding with zeros loses the length: appending one zero byte to a
      message whose length is 1, 3 or 4 modulo 5 leaves its absorbed state,
      and so its digest, unchanged. */
  lemma ZeroExtension(f: Permutation, m: seq<bv8>)
    requires OnStates(f)
    requires |m| % 5 in {1, 3, 4}
    ensures AbsorbedState(f, m + [0]) == AbsorbedState(f, m)
  {
    assert Steps(|m| + 1) == Steps(|m|);
    assert PadLen(|m| + 1) == PadLen(|m|);
    assert PadMessage(m + [0]) == PadMessage(m);
  }

  // ---------------------------------------------------------------------
  // Squeezing

  /** The state after n further applications of the permutation. */
  function Iter(f: Permutation, s: seq<bv8>, n: nat): (r: seq<bv8>)
    requires OnStates(f) && |s| == 3
    ensures |r| == 3
  {
    if n == 0 then s else f(Iter(f, s, n - 1))
  }

  /** The rate part of a state: its first five nibbles. */
  function RateNibbles(s: seq<bv8>): (ns: seq<bv8>)
    requires |s| == 3
    ensures |ns| == 5
  {
    Nibbles(s)[..5]
  }

  /** The rate parts of n successive states from s, one after the other. */
  function SqueezeNibbles(f: Permutation, s: seq<bv8>, n: nat): (ns: seq<bv8>)
    requires OnStates(f) && |s| == 3
    ensures |ns| == 5 * n
  {
    if n == 0 then [] else SqueezeNibbles(f, s, n - 1) + RateNibbles(Iter(f, s, n - 1))
  }

  /** The digest of m: the rate parts of the eight states that follow
      absorption, 160 bits packed into 20 bytes. */
  function Digest(f: Permutation, m: seq<bv8>): (h: seq<bv8>)
    requires OnStates(f)
    ensures |h| == HashLen
  {
    FromNibbles(SqueezeNibbles(f, AbsorbedState(f, m), 8))
  }

  /** sqeeze's effect on the three digest bytes d it writes: offset false
      overwrites the first two and ORs the rate nibble of from[2] into the
      third; offset true ORs into the low half of the first and overwrites
      the other two. */
  function SqueezeInto(d: seq<bv8>, from: seq<bv8>, offset: bool): (r: seq<bv8>)
    requires |d| == 3 && |from| == 3
    ensures |r| == 3
  {
    if !offset then [from[0], from[1], d[2] | (from[2] & 0xf0)]
    else [d[0] | ((from[0] & 0xf0) >> 4),
          ((from[0] & 0x0f) << 4) | ((from[1] & 0xf0) >> 4),
          ((from[1] & 0x0f) << 4) | ((from[2] & 0xf0) >> 4)]
  }

  /** Five digest bytes: the rate parts of the states a and b, packed. */
  function DigestPair(a: seq<bv8>, b: seq<bv8>): (g: seq<bv8>)
    requires |a| == 3 && |b| == 3
    ensures |g| == 5
  {
    FromNibbles(RateNibbles(a) + RateNibbles(b))
  }

  /** Two successive sqeeze calls, at offset 0 and then two bytes on at
      offset 1, into five zero bytes, write the rate parts of the two states. */
  lemma SqueezePair(a: seq<bv8>, b: seq<bv8>)
    requires |a| == 3 && |b| == 3
    ensures var w := SqueezeInto([0, 0, 0], a, false);
            w[..2] + SqueezeInto([w[2], 0, 0], b, true) == DigestPair(a, b)
  {
    NibblesOfThree(a);
    NibblesOfThree(b);
    var c := RateNibbles(a) + RateNibbles(b);
    assert c == [a[0] >> 4, a[0] & 0x0f, a[1] >> 4, a[1] & 0x0f, a[2] >> 4,
                 b[0] >> 4, b[0] & 0x0f, b[1] >> 4, b[1] & 0x0f, b[2] >> 4];
    PairBytes(a, b);
  }

  lemma PairBytes(a: seq<bv8>, b: seq<bv8>)
    requires |a| == 3 && |b| == 3
    ensures var c := [a[0] >> 4, a[0] & 0x0f, a[1] >> 4, a[1] & 0x0f, a[2] >> 4,
                      b[0] >> 4, b[0] & 0x0f, b[1] >> 4, b[1] & 0x0f, b[2] >> 4];
            var w := SqueezeInto([0, 0, 0], a, false);
            w[..2] + SqueezeInto([w[2], 0, 0], b, true) == FromNibbles(c)
  {
    SqueezedBytes(a, b);
    PackedBytes(a, b);
  }

  lemma SqueezedBytes(a: seq<bv8>, b: seq<bv8>)
    requires |a| == 3 && |b| == 3
    ensures var w := SqueezeInto([0, 0, 0], a, false);
            w[..2] + SqueezeInto([w[2], 0, 0], b, true) ==
            [a[0], a[1], (0 | (a[2] & 0xf0)) | ((b[0] & 0xf0) >> 4),
             ((b[0] & 0x0f) << 4) | ((b[1] & 0xf0) >> 4),
             ((b[1] & 0x0f) << 4) | ((b[2] & 0xf0) >> 4)]
  {
  }

  lemma PackedBytes(a: seq<bv8>, b: seq<bv8>)
    requires |a| == 3 && |b| == 3
    ensures FromNibbles([a[0] >> 4, a[0] & 0x0f, a[1] >> 4, a[1] & 0x0f, a[2] >> 4,
                         b[0] >> 4, b[0] & 0x0f, b[1] >> 4, b[1] & 0x0f, b[2] >> 4]) ==
            [a[0], a[1], (0 | (a[2] & 0xf0)) | ((b[0] & 0xf0) >> 4),
             ((b[0] & 0x0f) << 4) | ((b[1] & 0xf0) >> 4),
             ((b[1] & 0x0f) << 4) | ((b[2] & 0xf0) >> 4)]
  {
    FromTenNibbles([a[0] >> 4, a[0] & 0x0f, a[1] >> 4, a[1] & 0x0f, a[2] >> 4,
                    b[0] >> 4, b[0] & 0x0f, b[1] >> 4, b[1] & 0x0f, b[2] >> 4]);
    JoinSplit(a[0]);
    JoinSplit(a[1]);
    JoinOr(a[2], b[0]);
    JoinAcross(b[0], b[1]);
    JoinAcross(b[1], b[2]);
  }

  lemma FromTenNibbles(c: seq<bv8>)
    requires |c| == 10
    ensures FromNibbles(c) == [Join(c[0], c[1]), Join(c[2], c[3]), Join(c[4], c[5]), Join(c[6], c[7]), Join(c[8], c[9])]
  {
  }

  lemma JoinOr(x: bv8, y: bv8)
    ensures Join(x >> 4, y >> 4) == (0 | (x & 0xf0)) | ((y & 0xf0) >> 4)
  {
  }

  /** The first 5j digest bytes, as the squeezing loop leaves them after 2j steps. */
  function Pairs(f: Permutation, s: seq<bv8>, j: nat): (d: seq<bv8>)
    requires OnStates(f) && |s| == 3
    ensures |d| == 5 * j
  {
    if j == 0 then [] else Pairs(f, s, j - 1) + DigestPair(Iter(f, s, 2 * j - 2), Iter(f, s, 2 * j - 1))
  }

  lemma {:induction false} PairsArePacked(f: Permutation, s: seq<bv8>, j: nat)
    requires OnStates(f) && |s| == 3
    ensures Pairs(f, s, j) == FromNibbles(SqueezeNibbles(f, s, 2 * j))
  {
    if j > 0 {
      PairsArePacked(f, s, j - 1);
      PackedNext(f, s, j);
      PairsNext(f, s, j - 1, j);
    }
  }

  /** Packing 2j rate nibble strings extends packing 2j - 2 of them by the
      byte pair of states 2j - 2 and 2j - 1. */
  lemma PackedNext(f: Permutation, s: seq<bv8>, j: nat)
    requires OnStates(f) && |s| == 3 && 0 < j
    ensures FromNibbles(SqueezeNibbles(f, s, 2 * j)) ==
            FromNibbles(SqueezeNibbles(f, s, 2 * (j - 1))) + DigestPair(Iter(f, s, 2 * (j - 1)), Iter(f, s, 2 * (j - 1) + 1))
  {
    var k := j - 1;
    var x := SqueezeNibbles(f, s, 2 * k);
    var y := RateNibbles(Iter(f, s, 2 * k)) + RateNibbles(Iter(f, s, 2 * k + 1));
    SqueezeNibblesNext(f, s, 2 * k, 2 * k + 1);
    SqueezeNibblesNext(f, s, 2 * k + 1, 2 * j);
    Associate(SqueezeNibbles(f, s, 2 * k + 1), SqueezeNibbles(f, s, 2 * j), x,
              RateNibbles(Iter(f, s, 2 * k)), RateNibbles(Iter(f, s, 2 * k + 1)));
    FromNibblesAppend(x, y, 5 * k);
  }

  lemma Associate<T>(s1: seq<T>, s2: seq<T>, x: seq<T>, a: seq<T>, b: seq<T>)
    requires s1 == x + a && s2 == s1 + b
    ensures s2 == x + (a + b)
  {
  }

  lemma SqueezeNibblesNext(f: Permutation, s: seq<bv8>, n: nat, m: nat)
    requires OnStates(f) && |s| == 3 && m == n + 1
    ensures SqueezeNibbles(f, s, m) == SqueezeNibbles(f, s, n) + RateNibbles(Iter(f, s, n))
  {
  }

  /** The digest read back as nibbles is the run of rate parts: nibbles
      5i .. 5i+4 of the digest are the rate of the i-th state after absorption. */
  lemma DigestNibbles(f: Permutation, m: seq<bv8>, i: nat)
    requires OnStates(f) && i < 8
    ensures Nibbles(Digest(f, m))[5 * i..5 * i + 5] == RateNibbles(Iter(f, AbsorbedState(f, m), i))
  {
    var s := AbsorbedState(f, m);
    var ns := SqueezeNibbles(f, s, 8);
    AllRate(f, s, 8);
    NibblesRoundTrip([], ns);
    SqueezePrefix(f, s, i + 1, 8);
  }

  lemma NibblesAreNibbles(m: seq<bv8>)
    ensures AllNibbles(Nibbles(m))
  {
  }

  lemma {:induction false} AllRate(f: Permutation, s: seq<bv8>, n: nat)
    requires OnStates(f) && |s| == 3
    ensures AllNibbles(SqueezeNibbles(f, s, n))
  {
    if n > 0 {
      AllRate(f, s, n - 1);
      var x := SqueezeNibbles(f, s, n - 1);
      var y := RateNibbles(Iter(f, s, n - 1));
      NibblesAreNibbles(Iter(f, s, n - 1));
      assert SqueezeNibbles(f, s, n) == x + y;
      forall t | 0 <= t < |x + y|
        ensures (x + y)[t] < 16
      {
        if t >= |x| {
          assert (x + y)[t] == y[t - |x|];
        }
      }
    }
  }

  lemma {:induction false} SqueezePrefix(f: Permutation, s: seq<bv8>, n: nat, total: nat)
    requires OnStates(f) && |s| == 3 && 0 < n <= total
    ensures SqueezeNibbles(f, s, total)[5 * n - 5..5 * n] == RateNibbles(Iter(f, s, n - 1))
  {
    if n < total {
      SqueezePrefix(f, s, n, total - 1);
      assert SqueezeNibbles(f, s, total)[..5 * total - 5] == SqueezeNibbles(f, s, total - 1);
    }
  }

  // ---------------------------------------------------------------------
  // The procedures of sponge.c

  lemma PrefixSlice(s: seq<bv8>, n: nat, i: nat, j: nat)
    requires i <= j <= n <= |s|
    ensures s[..n][i..j] == s[i..j]
  {
  }

  /** oxor(dest, a, b, offset): dest receives b XOR the window of a. dest may
      be the array b was read from. */
  method Oxor(dest: array<bv8>, a: seq<bv8>, b: seq<bv8>, offset: bool)
    requires dest.Length == 3 && |a| == 3 && |b| == 3
    modifies dest
    ensures dest[..] == XorBytes(b, Window(a, offset))
  {
    if !offset {
      dest[0] := b[0] ^ a[0];
      dest[1] := b[1] ^ a[1];
      dest[2] := b[2] ^ (a[2] & 0xf0);
    } else {
      dest[0] := b[0] ^ (((a[0] & 0x0f) << 4) | ((a[1] & 0xf0) >> 4));
      dest[1] := b[1] ^ (((a[1] & 0x0f) << 4) | ((a[2] & 0xf0) >> 4));
      dest[2] := b[2] ^ ((a[2] & 0x0f) << 4);
    }
    assert dest[..] == [dest[0], dest[1], dest[2]];
  }

  /** sqeeze(dest + i, from, offset): the three bytes at i become
      SqueezeInto of their old value; nothing else changes. */
  method Sqeeze(dest: array<bv8>, i: nat, from: seq<bv8>, offset: bool)
    requires i + 3 <= dest.Length && |from| == 3
    modifies dest
    ensures dest[..] == old(dest[..i]) + SqueezeInto(old(dest[i..i + 3]), from, offset) + old(dest[i + 3..])
  {
    ghost var d := dest[..];
    ghost var w := SqueezeInto(d[i..i + 3], from, offset);
    var b0, b1, b2;
    if !offset {
      b0 := from[0];
      b1 := from[1];
      b2 := dest[i + 2] | (from[2] & 0xf0);
      assert [b0, b1, b2] == w;
    } else {
      b0 := dest[i] | ((from[0] & 0xf0) >> 4);
      b1 := ((from[0] & 0x0f) << 4) | ((from[1] & 0xf0) >> 4);
      b2 := ((from[1] & 0x0f) << 4) | ((from[2] & 0xf0) >> 4);
      assert [b0, b1, b2] == w;
    }
    dest[i], dest[i + 1], dest[i + 2] := b0, b1, b2;
    SpliceThree(d, dest[..], i, w);
  }

  /** Three cells written at i, all others kept: the old contents with w
      spliced in at i. */
  lemma SpliceThree(d: seq<bv8>, e: seq<bv8>, i: nat, w: seq<bv8>)
    requires i + 3 <= |d| == |e| && |w| == 3
    requires e[i] == w[0] && e[i + 1] == w[1] && e[i + 2] == w[2]
    requires forall j :: 0 <= j < |d| && !(i <= j < i + 3) ==> e[j] == d[j]
    ensures e == d[..i] + w + d[i + 3..]
  {
  }

  /** padding(message, len): zero bytes are stored from len up to the next
      multiple of five, at most four of them. */
  method Padding(message: array<bv8>, len: nat)
    requires PadLen(len) <= message.Length
    modifies message
    ensures message[..PadLen(len)] == PadMessage(old(message[..len]))
    ensures message[PadLen(len)..] == old(message[PadLen(len)..])
  {
    var n := len;
    RateAligned(n);
    while (n * 8) % 20 != 0
      invariant len <= n <= PadLen(len)
      invariant ((n * 8) % 20 == 0) == (n % 5 == 0)
      invariant message[..n] == old(message[..len]) + Cbc.Zeros(n - len)
      invariant message[n..] == old(message[n..])
      decreases PadLen(len) - n
    {
      PadLenLeast(len, n);
      message[n] := 0;
      assert message[..n + 1] == message[..n] + [0];
      n := n + 1;
      RateAligned(n);
    }
    PadLenLeast(len, n);
  }

  /** Between len and PadLen(len) the only multiple of five is PadLen(len). */
  lemma {:induction false} PadLenLeast(len: nat, n: nat)
    requires len <= n <= PadLen(len)
    ensures n % 5 == 0 <==> n == PadLen(len)
  {
  }

  /** bunny24_encrypt(state, key, state): the state is replaced in place
      by its image under the permutation f, which SpongeBunny instantiates
      with Permute. */
  method EncryptState(state: array<bv8>, f: Permutation)
    requires state.Length == 3 && OnStates(f)
    modifies state
    ensures state[..] == f(old(state[..]))
  {
    var r := f(state[..]);
    state[0], state[1], state[2] := r[0], r[1], r[2];
  }

  /** The absorbing loop's state before step k of a message of len bytes
      padded to p: the state is Absorbed(f, p, k). */
  ghost predicate Absorbing(st: seq<bv8>, f: Permutation, p: seq<bv8>, len: nat, k: nat)
    requires OnStates(f)
  {
    |p| == PadLen(len) && k <= Steps(len) && (k == 0 || Pos(k - 1) + 3 <= |p|) && st == Absorbed(f, p, k)
  }

  /** One pass of the absorbing loop: oxor the window at Pos(k) into the
      state, permute it, and advance the read position by 2 or 3 bytes. */
  method AbsorbStep(state: array<bv8>, p: seq<bv8>, i: nat, offset: bool, f: Permutation, ghost len: nat, ghost k: nat)
    returns (i': nat, offset': bool)
    requires state.Length == 3 && OnStates(f)
    requires i == Pos(k) && i < len && offset == Offset(k)
    requires Absorbing(state[..], f, p, len, k)
    modifies state
    ensures i' == Pos(k + 1) && offset' == Offset(k + 1) && i < i'
    ensures Absorbing(state[..], f, p, len, k + 1)
  {
    StepsCount(len, k);
    ReadsInPadding(len, k);
    Oxor(state, p[i..i + 3], state[..], offset);
    AbsorbedNext(f, p, k);
    EncryptState(state, f);
    PosNext(k);
    if !offset {
      i' := i + 2;
    } else {
      i' := i + 3;
    }
    offset' := !offset;
  }

  /** Before the first step the state is the zero state. */
  lemma AbsorbStart(st: seq<bv8>, f: Permutation, p: seq<bv8>, len: nat)
    requires OnStates(f) && st == [0, 0, 0] && |p| == PadLen(len)
    ensures Pos(0) == 0 && !Offset(0) && Absorbing(st, f, p, len, 0)
  {
  }

  /** The absorbing loop stops after exactly Steps(len) steps, the last of
      which reads inside the padded buffer. */
  lemma AbsorbEnd(st: seq<bv8>, f: Permutation, p: seq<bv8>, len: nat, k: nat)
    requires OnStates(f) && Absorbing(st, f, p, len, k) && len <= Pos(k)
    ensures Steps(len) == 0 || Pos(Steps(len) - 1) + 3 <= |p|
    ensures st == Absorbed(f, p, Steps(len))
  {
    StepsCount(len, k);
    if k > 0 {
      ReadsInPadding(len, k - 1);
    }
  }

  /** The absorbing loop of spongebunny, reading the padded buffer p: it
      runs Steps(len) times, and the state ends as Absorbed says. */
  method AbsorbLoop(state: array<bv8>, p: seq<bv8>, len: nat, f: Permutation)
    requires state.Length == 3 && state[..] == [0, 0, 0]
    requires |p| == PadLen(len) && OnStates(f)
    modifies state
    ensures Steps(len) == 0 || Pos(Steps(len) - 1) + 3 <= |p|
    ensures state[..] == Absorbed(f, p, Steps(len))
  {
    AbsorbStart(state[..], f, p, len);
    var i := 0;
    var offset := false;
    ghost var k := 0;
    while i < len
      invariant i == Pos(k) && offset == Offset(k)
      invariant Absorbing(state[..], f, p, len, k)
      decreases len - i
    {
      i, offset := AbsorbStep(state, p, i, offset, f, len, k);
      k := k + 1;
    }
    AbsorbEnd(state[..], f, p, len, k);
  }

  /** spongebunny's absorbing phase over the padded buffer p, from the zero
      state: the state ends as the absorbed state of the message p[..len]. */
  method Absorb(state: array<bv8>, p: seq<bv8>, len: nat, f: Permutation)
    requires state.Length == 3 && state[..] == [0, 0, 0]
    requires len <= |p| && p == PadMessage(p[..len]) && OnStates(f)
    modifies state
    ensures state[..] == AbsorbedState(f, p[..len])
  {
    AbsorbLoop(state, p, len, f);
    AbsorbedStateIs(f, p[..len]);
  }

  lemma IterNext(f: Permutation, s: seq<bv8>, n: nat, m: nat)
    requires OnStates(f) && |s| == 3 && m == n + 1
    ensures Iter(f, s, m) == f(Iter(f, s, n))
  {
  }

  /** One pass of the squeezing loop's body: step n squeezes the state into
      the three digest bytes at i and applies the permutation. */
  method SqueezeStep(dest: array<bv8>, state: array<bv8>, i: nat, offset: bool, f: Permutation, ghost s0: seq<bv8>, ghost n: nat, ghost m: nat)
    requires i + 3 <= dest.Length && state.Length == 3 && dest != state
    requires OnStates(f) && |s0| == 3 && state[..] == Iter(f, s0, n) && m == n + 1
    modifies dest, state
    ensures dest[..] == old(dest[..i]) + SqueezeInto(old(dest[i..i + 3]), Iter(f, s0, n), offset) + old(dest[i + 3..])
    ensures state[..] == Iter(f, s0, m)
  {
    Sqeeze(dest, i, state[..], offset);
    IterNext(f, s0, n, m);
    EncryptState(state, f);
  }

  /** The digest buffer after 2j squeezing steps: the first j byte pairs,
      zeros up to HashLen, and the untouched rest. */
  lemma EvenSplice(p: seq<bv8>, rest: seq<bv8>, d: seq<bv8>, o: nat)
    requires |p| == o && o + 3 <= HashLen && d == p + Cbc.Zeros(HashLen - o) + rest
    ensures d[..o] == p && d[o..o + 3] == [0, 0, 0]
    ensures d[o + 3..] == Cbc.Zeros(HashLen - o - 3) + rest
  {
    var z := Cbc.Zeros(HashLen - o);
    assert d[o..o + 3] == z[..3];
    assert d[o + 3..] == z[3..] + rest;
    assert z[3..] == Cbc.Zeros(HashLen - o - 3);
  }

  /** The buffer shape after an offset-1 squeeze: with the half pair w at
      o and the pair completed to dp by q, the buffer holds pn = p + dp. */
  lemma OddSplice(p: seq<bv8>, w: seq<bv8>, q: seq<bv8>, dp: seq<bv8>, pn: seq<bv8>, rest: seq<bv8>, d: seq<bv8>, o: nat)
    requires |p| == o && o + 5 <= HashLen && |w| == 3
    requires d == p + w + Cbc.Zeros(HashLen - o - 3) + rest
    requires w[..2] + q == dp && pn == p + dp
    ensures d[o + 2..o + 5] == [w[2], 0, 0]
    ensures d[..o + 2] + q + d[o + 5..] == pn + Cbc.Zeros(HashLen - o - 5) + rest
  {
    var z := Cbc.Zeros(HashLen - o - 3);
    assert d[o + 2..o + 5] == [w[2], z[0], z[1]];
    assert d[o + 5..] == z[2..] + rest;
    assert z[2..] == Cbc.Zeros(HashLen - o - 5);
    assert d[..o + 2] == p + w[..2];
  }

  /** An offset-0 squeeze of the state a at o, into zero bytes, writes its
      rate bytes after the o bytes p already written. */
  lemma EvenStep(d: seq<bv8>, rest: seq<bv8>, p: seq<bv8>, a: seq<bv8>, o: nat)
    requires |a| == 3 && |p| == o && o + 3 <= HashLen
    requires d == p + Cbc.Zeros(HashLen - o) + rest
    ensures d[..o] + SqueezeInto(d[o..o + 3], a, false) + d[o + 3..] ==
            p + SqueezeInto([0, 0, 0], a, false) + Cbc.Zeros(HashLen - o - 3) + rest
  {
    EvenSplice(p, rest, d, o);
  }

  lemma PairsNext(f: Permutation, s0: seq<bv8>, j: nat, m: nat)
    requires OnStates(f) && |s0| == 3 && m == j + 1
    ensures Pairs(f, s0, m) == Pairs(f, s0, j) + DigestPair(Iter(f, s0, 2 * j), Iter(f, s0, 2 * j + 1))
  {
    assert 2 * (j + 1) - 2 == 2 * j && 2 * (j + 1) - 1 == 2 * j + 1;
  }

  /** An offset-1 squeeze of the state b two bytes after the half pair of
      the state a completes the byte pair of a and b: the o bytes p become
      pn = p + DigestPair(a, b). */
  lemma OddStep(d: seq<bv8>, rest: seq<bv8>, p: seq<bv8>, pn: seq<bv8>, a: seq<bv8>, b: seq<bv8>, o: nat, on: nat)
    requires |a| == 3 && |b| == 3 && |p| == o && on == o + 5 && on <= HashLen
    requires d == p + SqueezeInto([0, 0, 0], a, false) + Cbc.Zeros(HashLen - o - 3) + rest
    requires pn == p + DigestPair(a, b)
    ensures d[..o + 2] + SqueezeInto(d[o + 2..o + 5], b, true) + d[o + 5..] == pn + Cbc.Zeros(HashLen - on) + rest
  {
    var w := SqueezeInto([0, 0, 0], a, false);
    var q := SqueezeInto([w[2], 0, 0], b, true);
    SqueezePair(a, b);
    OddSplice(p, w, q, DigestPair(a, b), pn, rest, d, o);
  }

  /** The squeezing loop's state before step 2j (offset false) or 2j + 1
      (offset true): the permutation applied that many times, the first j
      byte pairs written, the half pair of step 2j when offset, zeros up to
      HashLen and the untouched rest. */
  ghost predicate Squeezed(d: seq<bv8>, st: seq<bv8>, f: Permutation, s0: seq<bv8>, rest: seq<bv8>, j: nat, offset: bool)
    requires OnStates(f) && |s0| == 3
  {
    if offset then
      5 * j + 3 <= HashLen && st == Iter(f, s0, 2 * j + 1) &&
      d == Pairs(f, s0, j) + SqueezeInto([0, 0, 0], Iter(f, s0, 2 * j), false) + Cbc.Zeros(HashLen - 5 * j - 3) + rest
    else
      5 * j <= HashLen && st == Iter(f, s0, 2 * j) &&
      d == Pairs(f, s0, j) + Cbc.Zeros(HashLen - 5 * j) + rest
  }

  /** Squeezing step 2j keeps Squeezed: the offset-0 squeeze of state 2j
      at 5j, followed by the permutation. */
  lemma EvenSqueezed(f: Permutation, s0: seq<bv8>, rest: seq<bv8>, j: nat, d: seq<bv8>, d2: seq<bv8>, st2: seq<bv8>)
    requires OnStates(f) && |s0| == 3 && j < 4 && 5 * j + 3 <= |d|
    requires Squeezed(d, Iter(f, s0, 2 * j), f, s0, rest, j, false)
    requires d2 == d[..5 * j] + SqueezeInto(d[5 * j..5 * j + 3], Iter(f, s0, 2 * j), false) + d[5 * j + 3..]
    requires st2 == Iter(f, s0, 2 * j + 1)
    ensures Squeezed(d2, st2, f, s0, rest, j, true)
  {
    EvenStep(d, rest, Pairs(f, s0, j), Iter(f, s0, 2 * j), 5 * j);
  }

  /** Squeezing step 2j + 1 keeps Squeezed: the offset-1 squeeze of state
      2j + 1 at 5j + 2 completes the pair j, and the permutation follows. */
  lemma OddSqueezed(f: Permutation, s0: seq<bv8>, rest: seq<bv8>, j: nat, d: seq<bv8>, d2: seq<bv8>, st2: seq<bv8>)
    requires OnStates(f) && |s0| == 3 && j < 4 && 5 * j + 5 <= |d|
    requires Squeezed(d, Iter(f, s0, 2 * j + 1), f, s0, rest, j, true)
    requires d2 == d[..5 * j + 2] + SqueezeInto(d[5 * j + 2..5 * j + 5], Iter(f, s0, 2 * j + 1), true) + d[5 * j + 5..]
    requires st2 == Iter(f, s0, 2 * (j + 1))
    ensures Squeezed(d2, st2, f, s0, rest, j + 1, false)
  {
    PairsNext(f, s0, j, j + 1);
    OddBuffer(f, s0, rest, j, d, d2, Pairs(f, s0, j), Pairs(f, s0, j + 1));
  }

  lemma OddBuffer(f: Permutation, s0: seq<bv8>, rest: seq<bv8>, j: nat, d: seq<bv8>, d2: seq<bv8>, p: seq<bv8>, pn: seq<bv8>)
    requires OnStates(f) && |s0| == 3 && j < 4 && 5 * j + 5 <= |d| && |p| == 5 * j
    requires d == p + SqueezeInto([0, 0, 0], Iter(f, s0, 2 * j), false) + Cbc.Zeros(HashLen - 5 * j - 3) + rest
    requires d2 == d[..5 * j + 2] + SqueezeInto(d[5 * j + 2..5 * j + 5], Iter(f, s0, 2 * j + 1), true) + d[5 * j + 5..]
    requires pn == p + DigestPair(Iter(f, s0, 2 * j), Iter(f, s0, 2 * j + 1))
    ensures d2 == pn + Cbc.Zeros(HashLen - 5 * (j + 1)) + rest
  {
    OddStep(d, rest, p, pn, Iter(f, s0, 2 * j), Iter(f, s0, 2 * j + 1), 5 * j, 5 * (j + 1));
  }

  /** Squeezing step 2j: an offset-0 squeeze at 5j. */
  method SqueezeEven(dest: array<bv8>, state: array<bv8>, i: nat, f: Permutation, ghost s0: seq<bv8>, ghost rest: seq<bv8>, ghost j: nat)
    requires HashLen <= dest.Length && state.Length == 3 && dest != state && OnStates(f) && |s0| == 3 && j < 4 && i == 5 * j
    requires Squeezed(dest[..], state[..], f, s0, rest, j, false)
    modifies dest, state
    ensures Squeezed(dest[..], state[..], f, s0, rest, j, true)
  {
    ghost var d := dest[..];
    SqueezeStep(dest, state, i, false, f, s0, 2 * j, 2 * j + 1);
    EvenSqueezed(f, s0, rest, j, d, dest[..], state[..]);
  }

  /** Squeezing step 2j + 1: an offset-1 squeeze at 5j + 2. */
  method SqueezeOdd(dest: array<bv8>, state: array<bv8>, i: nat, f: Permutation, ghost s0: seq<bv8>, ghost rest: seq<bv8>, ghost j: nat)
    requires HashLen <= dest.Length && state.Length == 3 && dest != state && OnStates(f) && |s0| == 3 && j < 4 && i == 5 * j + 2
    requires Squeezed(dest[..], state[..], f, s0, rest, j, true)
    modifies dest, state
    ensures Squeezed(dest[..], state[..], f, s0, rest, j + 1, false)
  {
    ghost var d := dest[..];
    SqueezeStep(dest, state, i, true, f, s0, 2 * j + 1, 2 * (j + 1));
    OddSqueezed(f, s0, rest, j, d, dest[..], state[..]);
  }

  /** bzero: the first n bytes of dest become zero. */
  method Bzero(dest: array<bv8>, n: nat)
    requires n <= dest.Length
    modifies dest
    ensures dest[..] == Cbc.Zeros(n) + old(dest[n..])
  {
    forall t | 0 <= t < n {
      dest[t] := 0;
    }
    assert dest[..] == dest[..n] + dest[n..];
  }

  lemma SqueezedStart(d: seq<bv8>, s0: seq<bv8>, f: Permutation, rest: seq<bv8>)
    requires OnStates(f) && |s0| == 3 && d == Cbc.Zeros(HashLen) + rest
    ensures Squeezed(d, s0, f, s0, rest, 0, false)
  {
  }

  lemma SqueezedEnd(d: seq<bv8>, st: seq<bv8>, f: Permutation, s0: seq<bv8>, rest: seq<bv8>)
    requires OnStates(f) && |s0| == 3 && Squeezed(d, st, f, s0, rest, 4, false)
    ensures d[..HashLen] == Pairs(f, s0, 4) && d[HashLen..] == rest && st == Iter(f, s0, 8)
  {
    var p := Pairs(f, s0, 4);
    assert Cbc.Zeros(0) == [];
    Split(d, p, rest);
  }

  /** A sequence made of p then rest splits back at |p|. */
  lemma Split(d: seq<bv8>, p: seq<bv8>, rest: seq<bv8>)
    requires d == p + [] + rest
    ensures d[..|p|] == p && d[|p|..] == rest
  {
  }

  /** The squeezing phase of spongebunny: the first HashLen bytes are zeroed,
      then eight steps write the digest bytes of the state and its successors.
      It returns the cursor and offset the loop stops at. */
  method Squeeze(dest: array<bv8>, state: array<bv8>, f: Permutation) returns (i: nat, offset: bool)
    requires HashLen <= dest.Length && state.Length == 3 && dest != state && OnStates(f)
    modifies dest, state
    ensures i == HashLen && !offset
    ensures dest[..HashLen] == Pairs(f, old(state[..]), 4)
    ensures dest[HashLen..] == old(dest[HashLen..])
    ensures state[..] == Iter(f, old(state[..]), 8)
  {
    ghost var s0 := state[..];
    ghost var rest := dest[HashLen..];
    Bzero(dest, HashLen);
    SqueezedStart(dest[..], state[..], f, rest);
    i, offset := 0, false;
    ghost var j := 0;
    while i < HashLen
      invariant j <= 4 && (j == 4 ==> !offset) && i == 5 * j + (if offset then 2 else 0)
      invariant Squeezed(dest[..], state[..], f, s0, rest, j, offset)
      decreases HashLen - i
    {
      if !offset {
        SqueezeEven(dest, state, i, f, s0, rest, j);
        i := i + 2;
      } else {
        SqueezeOdd(dest, state, i, f, s0, rest, j);
        i := i + 3;
        j := j + 1;
      }
      offset := !offset;
    }
    SqueezedEnd(dest[..], state[..], f, s0, rest);
  }

  lemma PadPrefix(m: seq<bv8>)
    ensures PadMessage(m)[..|m|] == m
  {
  }

  /** The squeezing loop's byte pairs are the digest of the message. */
  lemma DigestIsPairs(f: Permutation, m: seq<bv8>)
    requires OnStates(f)
    ensures Digest(f, m) == Pairs(f, AbsorbedState(f, m), 4)
  {
    PairsArePacked(f, AbsorbedState(f, m), 4);
  }

  lemma SpliceParts(d: seq<bv8>, a: seq<bv8>, w: seq<bv8>, b: seq<bv8>)
    requires d == a + w + b
    ensures d[..|a|] == a && d[|a|..|a| + |w|] == w && d[|a| + |w|..] == b
  {
  }

  /** spongebunny up to its final squeeze: pad the message in its buffer,
      absorb it from the zero state and squeeze HashLen bytes into dest.
      The state is left after its eighth squeezing permutation. */
  method AbsorbSqueeze(dest: array<bv8>, message: array<bv8>, len: nat, f: Permutation)
    returns (state: array<bv8>, i: nat, offset: bool)
    requires dest != message && OnStates(f)
    requires PadLen(len) <= message.Length && HashLen <= dest.Length
    modifies dest, message
    ensures fresh(state) && state.Length == 3 && i == HashLen && !offset
    ensures message[..PadLen(len)] == PadMessage(old(message[..len]))
    ensures message[PadLen(len)..] == old(message[PadLen(len)..])
    ensures dest[..HashLen] == Digest(f, old(message[..len]))
    ensures dest[HashLen..] == old(dest[HashLen..])
    ensures state[..] == Iter(f, AbsorbedState(f, old(message[..len])), 8)
  {
    state := new bv8[3](_ => 0);
    assert state[..] == [0, 0, 0];
    ghost var m := message[..len];
    Padding(message, len);
    var p := message[..PadLen(len)];
    assert p[..len] == m by {
      PadPrefix(m);
    }
    Absorb(state, p, len, f);
    ghost var s := state[..];
    i, offset := Squeeze(dest, state, f);
    assert Digest(f, m) == Pairs(f, s, 4) by {
      DigestIsPairs(f, m);
    }
  }

  /** spongebunny as written, over the permutation f: after the HashLen
      digest bytes it squeezes once more at dest + HashLen, which writes
      three bytes past the digest (so dest must hold HashLen + 3). */
  method SpongeWith(dest: array<bv8>, message: array<bv8>, len: nat, f: Permutation)
    requires dest != message && OnStates(f)
    requires PadLen(len) <= message.Length && HashLen + 3 <= dest.Length
    modifies dest, message
    ensures message[..PadLen(len)] == PadMessage(old(message[..len]))
    ensures message[PadLen(len)..] == old(message[PadLen(len)..])
    ensures dest[..HashLen] == Digest(f, old(message[..len]))
    ensures dest[HashLen..HashLen + 3] ==
            SqueezeInto(old(dest[HashLen..HashLen + 3]), Iter(f, AbsorbedState(f, old(message[..len])), 8), false)
    ensures dest[HashLen + 3..] == old(dest[HashLen + 3..])
  {
    var state, i, offset := AbsorbSqueeze(dest, message, len, f);
    ghost var d := dest[..];
    Sqeeze(dest, i, state[..], offset);
    SpliceParts(dest[..], d[..HashLen], SqueezeInto(d[HashLen..HashLen + 3], state[..], false), d[HashLen + 3..]);
  }

  /** The final sqeeze of spongebunny puts the first two state bytes into the
      two bytes after the digest: whenever those held anything else, memory
      past the 20-byte hash changes. */
  lemma SqueezePastHash(d: seq<bv8>, s: seq<bv8>)
    requires |d| == 3 && |s| == 3
    ensures SqueezeInto(d, s, false)[..2] == s[..2]
    ensures d[..2] != s[..2] ==> SqueezeInto(d, s, false) != d
  {
  }

  /** spongebunny: SpongeWith under bunny24_encrypt with the sponge key. */
  method SpongeBunny(dest: array<bv8>, message: array<bv8>, len: nat)
    requires dest != message
    requires PadLen(len) <= message.Length && HashLen + 3 <= dest.Length
    modifies dest, message
    ensures message[..PadLen(len)] == PadMessage(old(message[..len]))
    ensures message[PadLen(len)..] == old(message[PadLen(len)..])
    ensures dest[..HashLen] == Digest(Permute, old(message[..len]))
    ensures dest[HashLen..HashLen + 3] ==
            SqueezeInto(old(dest[HashLen..HashLen + 3]), Iter(Permute, AbsorbedState(Permute, old(message[..len])), 8), false)
    ensures dest[HashLen + 3..] == old(dest[HashLen + 3..])
  {
    PermuteOnStates();
    SpongeWith(dest, message, len, Permute);
  }

  /** The digest as evidently intended: spongebunny without the final squeeze,
      writing exactly HashLen bytes. */
  method SpongeHash(dest: array<bv8>, message: array<bv8>, len: nat)
    requires dest != message
    requires PadLen(len) <= message.Length && HashLen <= dest.Length
    modifies dest, message
    ensures message[..PadLen(len)] == PadMessage(old(message[..len]))
    ensures message[PadLen(len)..] == old(message[PadLen(len)..])
    ensures dest[..HashLen] == Digest(Permute, old(message[..len]))
    ensures dest[HashLen..] == old(dest[HashLen..])
  {
    PermuteOnStates();
    var state, i, offset := AbsorbSqueeze(dest, message, len, Permute);
  }
}
