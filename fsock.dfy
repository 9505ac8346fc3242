/**
 * The cryptographic slice of the client/server socket layer (src/fsock.c):
 * the ciphersuite table, the stream-cipher wrapper scipher built on the
 * MAJ5 and ALL5 key streams, and the sencrypt/sdecrypt dispatch between
 * that wrapper and BUNNY24 in CBC mode.
 */
module Fsock {
  import Bunny24
  import Cbc
  import Lfsr

  datatype Option<T> = None | Some(value: T)

  // ---------------------------------------------------------------------
  // ciphersuite_encode

  /** The algorithms of a ciphersuite: symmetric cipher 1 is BUNNY24-CBC,
      2 is ALL5 and 3 is MAJ5; hash 4 is the sponge; asymmetric cipher 5
      or 6. */
  datatype Suite = Suite(symm: int, hash: int, asymm: int)

  /** ciphersuite_encode: the suites 'A' to 'F'; any other id aborts the
      process, None here. */
  function CiphersuiteEncode(id: char): (r: Option<Suite>)
    ensures r.Some? <==> 'A' <= id <= 'F'
    ensures r.Some? ==> r.value.hash == 4
    ensures r.Some? ==> r.value.symm == (id as int - 'A' as int) / 2 + 1
    ensures r.Some? ==> r.value.asymm == (id as int - 'A' as int) % 2 + 5
  {
    match id
    case 'A' => Some(Suite(1, 4, 5))
    case 'B' => Some(Suite(1, 4, 6))
    case 'C' => Some(Suite(2, 4, 5))
    case 'D' => Some(Suite(2, 4, 6))
    case 'E' => Some(Suite(3, 4, 5))
    case 'F' => Some(Suite(3, 4, 6))
    case _ => None
  }

  /** The six suites are six different combinations: the suite id can be
      read back from the triple. */
  lemma {:induction false} SuitesDistinct(a: char, b: char)
    requires CiphersuiteEncode(a).Some? && CiphersuiteEncode(a) == CiphersuiteEncode(b)
    ensures a == b
  {
    var sa, sb := CiphersuiteEncode(a).value, CiphersuiteEncode(b).value;
    assert (a as int - 'A' as int) == 2 * (sa.symm - 1) + (sa.asymm - 5);
    assert (b as int - 'A' as int) == 2 * (sb.symm - 1) + (sb.asymm - 5);
  }

  // ---------------------------------------------------------------------
  // scipher: the key expansion

  /** skey[i] for i < 24: bit i % 8 of key byte i / 8, as 0 or 1. */
  function KeyBit(b: bv8, k: nat): (r: bv8)
    requires k < 8
    ensures r <= 1
  {
    if b & (1 << k) == 0 then 0 else 1
  }

  /** The 64-bit stream-cipher key built from the first three bytes of the
      session key, least significant bit first, the top 40 bits zero. */
  function KeyBits(key: seq<bv8>): (skey: seq<bv8>)
    requires 3 <= |key|
    ensures |skey| == 64 && skey[24..] == Cbc.Zeros(40)
  {
    seq(64, i requires 0 <= i < 64 => if i < 24 then KeyBitAt(key, i) else 0)
  }

  /** Bit i of the expansion, for i below 24: bit i % 8 of byte i / 8. */
  function KeyBitAt(key: seq<bv8>, i: nat): bv8
    requires i < 24 && 3 <= |key|
  {
    KeyBit(key[i / 8], i % 8)
  }

  /** A byte is determined by its eight bits. */
  lemma ByteOfBits(x: bv8, y: bv8)
    requires KeyBit(x, 0) == KeyBit(y, 0) && KeyBit(x, 1) == KeyBit(y, 1)
    requires KeyBit(x, 2) == KeyBit(y, 2) && KeyBit(x, 3) == KeyBit(y, 3)
    requires KeyBit(x, 4) == KeyBit(y, 4) && KeyBit(x, 5) == KeyBit(y, 5)
    requires KeyBit(x, 6) == KeyBit(y, 6) && KeyBit(x, 7) == KeyBit(y, 7)
    ensures x == y
  {
  }

  /** Bit k of key byte t sits at 8t + k of the expansion. */
  lemma KeyBitsAt(key: seq<bv8>, t: nat, k: nat)
    requires 3 <= |key| && t < 3 && k < 8
    ensures KeyBits(key)[8 * t + k] == KeyBit(key[t], k)
  {
    var i := 8 * t + k;
    assert i / 8 == t && i % 8 == k;
  }

  /** Two session keys expand alike exactly when their first three bytes
      agree: the expansion loses nothing of them and reads nothing past
      them. */
  lemma {:induction false} KeyBitsExact(a: seq<bv8>, b: seq<bv8>)
    requires 3 <= |a| && 3 <= |b|
    ensures KeyBits(a) == KeyBits(b) <==> a[..3] == b[..3]
  {
    var ka, kb := KeyBits(a), KeyBits(b);
    if ka == kb {
      forall t | 0 <= t < 3
        ensures a[t] == b[t]
      {
        forall k | 0 <= k < 8
          ensures KeyBit(a[t], k) == KeyBit(b[t], k)
        {
          KeyBitsAt(a, t, k);
          KeyBitsAt(b, t, k);
        }
        ByteOfBits(a[t], b[t]);
      }
    }
    if a[..3] == b[..3] {
      forall i | 0 <= i < 24
        ensures ka[i] == kb[i]
      {
        assert a[i / 8] == a[..3][i / 8];
      }
    }
  }

  /** The expanded key is 0/1. */
  lemma KeyBitsBits(key: seq<bv8>)
    requires 3 <= |key|
    ensures Lfsr.Bits(KeyBits(key)[..64])
  {
    assert KeyBits(key)[..64] == KeyBits(key);
  }

  /** The skey loop and the bzero of its top 40 bytes. */
  method ExpandKey(key: seq<bv8>) returns (skey: array<bv8>)
    requires 3 <= |key|
    ensures fresh(skey) && skey[..] == KeyBits(key)
  {
    skey := new bv8[64];
    var i := 0;
    while i != 24
      invariant i <= 24 && forall t :: 0 <= t < i ==> skey[t] == KeyBitAt(key, t)
    {
      var c := key[i / 8] & (1 << (i % 8));
      skey[i] := if c == 0 then 0 else 1;
      assert skey[i] == KeyBitAt(key, i);
      i := i + 1;
    }
    while i != 64
      invariant 24 <= i <= 64 && forall t :: 0 <= t < 24 ==> skey[t] == KeyBitAt(key, t)
      invariant forall t :: 24 <= t < i ==> skey[t] == 0
    {
      skey[i] := 0;
      i := i + 1;
    }
  }

  // ---------------------------------------------------------------------
  // scipher: packing key-stream bits into bytes

  /** c = c << 1 | bit over the bits in order: the first bit ends up most
      significant. */
  function Pack(bits: seq<bv8>): bv8
  {
    if |bits| == 0 then 0 else Shift(Pack(bits[..|bits| - 1]), bits[|bits| - 1])
  }

  /** One step of the packing loop.  Dafny's | binds tighter than <<, so
      the shift is parenthesised. */
  function Shift(c: bv8, bit: bv8): bv8
  {
    (c << 1) | bit
  }

  /** Bit k of b. */
  function Bit(b: bv8, k: bv8): (r: bv8)
    requires k < 8
    ensures r <= 1
  {
    (b >> k) & 1
  }

  /** The eight bits of a byte, most significant first. */
  function Unpack(b: bv8): (bits: seq<bv8>)
    ensures |bits| == 8
  {
    [Bit(b, 7), Bit(b, 6), Bit(b, 5), Bit(b, 4), Bit(b, 3), Bit(b, 2), Bit(b, 1), Bit(b, 0)]
  }

  lemma PackNext(bits: seq<bv8>, k: nat)
    requires k < |bits|
    ensures Pack(bits[..k + 1]) == Shift(Pack(bits[..k]), bits[k])
  {
    assert bits[..k + 1][..k] == bits[..k];
  }

  /** Eight packing steps from zero. */
  function Eight(b0: bv8, b1: bv8, b2: bv8, b3: bv8, b4: bv8, b5: bv8, b6: bv8, b7: bv8): bv8
  {
    Shift(Shift(Shift(Shift(Shift(Shift(Shift(Shift(0, b0), b1), b2), b3), b4), b5), b6), b7)
  }

  lemma {:induction false} PackEight(bits: seq<bv8>)
    requires |bits| == 8
    ensures Pack(bits) == Eight(bits[0], bits[1], bits[2], bits[3], bits[4], bits[5], bits[6], bits[7])
  {
    PackNext(bits, 0); PackNext(bits, 1); PackNext(bits, 2); PackNext(bits, 3);
    PackNext(bits, 4); PackNext(bits, 5); PackNext(bits, 6); PackNext(bits, 7);
    assert bits[..8] == bits;
  }

  lemma EightBits(b0: bv8, b1: bv8, b2: bv8, b3: bv8, b4: bv8, b5: bv8, b6: bv8, b7: bv8)
    requires b0 <= 1 && b1 <= 1 && b2 <= 1 && b3 <= 1 && b4 <= 1 && b5 <= 1 && b6 <= 1 && b7 <= 1
    ensures var x := Eight(b0, b1, b2, b3, b4, b5, b6, b7);
      Bit(x, 7) == b0 && Bit(x, 6) == b1 && Bit(x, 5) == b2 && Bit(x, 4) == b3 &&
      Bit(x, 3) == b4 && Bit(x, 2) == b5 && Bit(x, 1) == b6 && Bit(x, 0) == b7
  {
  }

  lemma EightOf(b: bv8)
    ensures Eight(Bit(b, 7), Bit(b, 6), Bit(b, 5), Bit(b, 4), Bit(b, 3), Bit(b, 2), Bit(b, 1), Bit(b, 0)) == b
  {
  }

  /** Packing eight 0/1 bits puts them in the byte most significant first. */
  lemma {:induction false} UnpackPack(bits: seq<bv8>)
    requires |bits| == 8 && Lfsr.Bits(bits)
    ensures Unpack(Pack(bits)) == bits
  {
    PackEight(bits);
    assert bits[0] <= 1 && bits[1] <= 1 && bits[2] <= 1 && bits[3] <= 1;
    assert bits[4] <= 1 && bits[5] <= 1 && bits[6] <= 1 && bits[7] <= 1;
    EightBits(bits[0], bits[1], bits[2], bits[3], bits[4], bits[5], bits[6], bits[7]);
    assert Unpack(Pack(bits)) == [bits[0], bits[1], bits[2], bits[3], bits[4], bits[5], bits[6], bits[7]];
    assert bits == [bits[0], bits[1], bits[2], bits[3], bits[4], bits[5], bits[6], bits[7]];
  }

  /** Every byte is the packing of its own bits. */
  lemma {:induction false} PackUnpack(b: bv8)
    ensures Pack(Unpack(b)) == b
  {
    PackEight(Unpack(b));
    EightOf(b);
  }

  /** The inner loop of scipher: bits 8i .. 8i + 7 of buf into one byte. */
  method PackByte(buf: array<bv8>, i: nat) returns (c: bv8)
    requires 8 * i + 8 <= buf.Length
    ensures c == Pack(buf[8 * i..8 * i + 8])
  {
    ghost var bits := buf[8 * i..8 * i + 8];
    c := 0;
    var j := 8 * i;
    while j != 8 * i + 8
      invariant 8 * i <= j <= 8 * i + 8
      invariant c == Pack(bits[..j - 8 * i])
    {
      PackNext(bits, j - 8 * i);
      c := (c << 1) | buf[j];
      j := j + 1;
    }
    assert bits[..8] == bits;
  }

  // ---------------------------------------------------------------------
  // scipher

  /** Cipher id 2 is ALL5; every other id reaching scipher is MAJ5. */
  function StreamCipher(cipherId: int): (c: Lfsr.Cipher)
    ensures c == Lfsr.All5 <==> cipherId == 2
    ensures c != Lfsr.A51
  {
    if cipherId == 2 then Lfsr.All5 else Lfsr.Maj5
  }

  /** The len * 8 key-stream bits of the cipher under the expanded key. */
  function Keystream(cipherId: int, key: seq<bv8>, len: nat): (ks: seq<bv8>)
    requires 3 <= |key|
    ensures |ks| == 8 * len
  {
    Lfsr.ConstantsFit(StreamCipher(cipherId));
    Lfsr.KeyStream(StreamCipher(cipherId), Lfsr.Polys, KeyBits(key), 8 * len)
  }

  /** Byte i of s plus bits 8i .. 8i + 7 of the stream packed most
      significant first. */
  function Masked(s: seq<bv8>, ks: seq<bv8>): (d: seq<bv8>)
    requires |ks| == 8 * |s|
    ensures |d| == |s|
  {
    seq(|s|, i requires 0 <= i < |s| => Bunny24.XorByte(s[i], Pack(ks[8 * i..8 * i + 8])))
  }

  /** The bytes scipher writes for message s. */
  function ScipherBytes(cipherId: int, s: seq<bv8>, key: seq<bv8>): (d: seq<bv8>)
    requires 3 <= |key|
    ensures |d| == |s|
  {
    Masked(s, Keystream(cipherId, key, |s|))
  }

  /** Applying scipher twice with the same key restores the message. */
  lemma {:induction false} ScipherInvolution(cipherId: int, s: seq<bv8>, key: seq<bv8>)
    requires 3 <= |key|
    ensures ScipherBytes(cipherId, ScipherBytes(cipherId, s, key), key) == s
  {
    var d := ScipherBytes(cipherId, s, key);
    var ks := Keystream(cipherId, key, |s|);
    forall i | 0 <= i < |s|
      ensures ScipherBytes(cipherId, d, key)[i] == s[i]
    {
      var k := Pack(ks[8 * i..8 * i + 8]);
      assert (s[i] ^ k) ^ k == s[i];
    }
  }

  /** Over a 0/1 stream, byte i of the masked message differs from byte i
      of the message by stream bits 8i .. 8i + 7, the first in the top bit. */
  lemma {:induction false} MaskedBits(s: seq<bv8>, ks: seq<bv8>, i: nat)
    requires |ks| == 8 * |s| && Lfsr.Bits(ks) && i < |s|
    ensures Unpack(Masked(s, ks)[i] ^ s[i]) == ks[8 * i..8 * i + 8]
  {
    var bits := ks[8 * i..8 * i + 8];
    assert forall k | 0 <= k < 8 :: bits[k] == ks[8 * i + k];
    UnpackPack(bits);
    assert Bunny24.XorByte(s[i], Pack(bits)) ^ s[i] == Pack(bits);
  }

  /** Byte i of the output differs from byte i of the message by the
      key-stream bits 8i .. 8i + 7, the first of them in the top bit. */
  lemma {:induction false} ScipherStream(cipherId: int, s: seq<bv8>, key: seq<bv8>, i: nat)
    requires 3 <= |key| && i < |s|
    ensures Unpack(ScipherBytes(cipherId, s, key)[i] ^ s[i]) == Keystream(cipherId, key, |s|)[8 * i..8 * i + 8]
  {
    var c := StreamCipher(cipherId);
    Lfsr.ConstantsFit(c);
    KeyBitsBits(key);
    Lfsr.KeyStreamBits(c, Lfsr.Polys, KeyBits(key), 8 * |s|);
    MaskedBits(s, Keystream(cipherId, key, |s|), i);
  }

  /** Only the first three key bytes matter. */
  lemma {:induction false} ScipherKey(cipherId: int, s: seq<bv8>, key: seq<bv8>)
    requires 3 <= |key|
    ensures ScipherBytes(cipherId, s, key) == ScipherBytes(cipherId, s, key[..3])
  {
    assert key[..3][..3] == key[..3];
    KeyBitsExact(key, key[..3]);
  }

  /** The key expansion and the len * 8 key-stream bits scipher asks of
      all5 or maj5, in a fresh zeroed buffer. */
  method StreamBuffer(cipherId: int, key: seq<bv8>, len: nat) returns (buf: array<bv8>)
    requires 3 <= |key|
    ensures fresh(buf) && buf[..] == Keystream(cipherId, key, len)
  {
    var skey := ExpandKey(key);
    var bits := 8 * len;
    buf := new bv8[bits];
    if cipherId == 2 {
      Lfsr.All5Cipher(buf, skey[..], bits);
    } else {
      Lfsr.Maj5Cipher(buf, skey[..], bits);
    }
    assert buf[..] == buf[..bits];
  }

  /** The output loop of scipher: dest[i] = s[i] ^ c, c the packed bits
      8i .. 8i + 7 of buf.  dest may be s itself. */
  method MaskBytes(dest: array<bv8>, s: array<bv8>, buf: array<bv8>, len: nat)
    requires len <= s.Length && len <= dest.Length && buf.Length == 8 * len && buf != dest
    modifies dest
    ensures dest[..len] == Masked(old(s[..len]), buf[..])
    ensures forall j :: len <= j < dest.Length ==> dest[j] == old(dest[j])
  {
    ghost var want := Masked(s[..len], buf[..]);
    var i := 0;
    while i < len
      invariant i <= len
      invariant forall t :: i <= t < len ==> s[t] == old(s[t])
      invariant forall t :: 0 <= t < i ==> dest[t] == want[t]
      invariant forall t :: len <= t < dest.Length ==> dest[t] == old(dest[t])
    {
      var c := PackByte(buf, i);
      dest[i] := s[i] ^ c;
      assert dest[i] == want[i];
      i := i + 1;
    }
  }

  /** scipher(dest, cipher_id, s, len, key). */
  method Scipher(dest: array<bv8>, cipherId: int, s: array<bv8>, len: nat, key: seq<bv8>)
    requires 3 <= |key| && len <= s.Length && len <= dest.Length
    modifies dest
    ensures dest[..len] == ScipherBytes(cipherId, old(s[..len]), key)
    ensures forall j :: len <= j < dest.Length ==> dest[j] == old(dest[j])
  {
    var buf := StreamBuffer(cipherId, key, len);
    MaskBytes(dest, s, buf, len);
  }

  // ---------------------------------------------------------------------
  // sencrypt and sdecrypt

  /** The constant "abcd" named iv in fsock.c.  The CBC routines read three
      bytes of it, and the macro's argument order puts it in the key slot
      of BUNNY24, the session key in the IV slot. */
  const Abc: seq<bv8> := [0x61, 0x62, 0x63]

  /** The length sencrypt writes: CBC pads to whole blocks. */
  function SealedLength(cipherId: int, len: nat): (n: nat)
    ensures n % 3 == 0 || cipherId != 1
    ensures len <= n < len + 3
  {
    if cipherId == 1 then Cbc.Padded(len) else len
  }

  /** What sencrypt writes for message s. */
  function Sealed(cipherId: int, key: seq<bv8>, s: seq<bv8>): (c: seq<bv8>)
    requires 3 <= |key| && (cipherId == 1 ==> 3 <= |s|)
    ensures |c| == SealedLength(cipherId, |s|)
  {
    if cipherId == 1 then Cbc.Bunny24CbcEncrypt(key[..3], Abc, s) else ScipherBytes(cipherId, s, key)
  }

  /** What sdecrypt writes for ciphertext c. */
  function Opened(cipherId: int, key: seq<bv8>, c: seq<bv8>): (p: seq<bv8>)
    requires 3 <= |key| && (cipherId == 1 ==> 0 < |c| && |c| % 3 == 0)
    ensures |p| == |c|
  {
    if cipherId == 1 then Cbc.Bunny24CbcDecrypt(key[..3], Abc, c) else ScipherBytes(cipherId, c, key)
  }

  /** sdecrypt undoes sencrypt under the same suite and key: exactly for
      the stream ciphers, up to the zero padding for BUNNY24-CBC; and
      sencrypt undoes sdecrypt on whole blocks.  For the stream ciphers the
      two are one function. */
  lemma {:induction false} SealOpen(cipherId: int, key: seq<bv8>, s: seq<bv8>)
    requires 3 <= |key| && (cipherId == 1 ==> 3 <= |s|)
    ensures cipherId == 1 ==> Opened(cipherId, key, Sealed(cipherId, key, s)) == Cbc.Pad(s)
    ensures cipherId == 1 && |s| % 3 == 0 ==> Sealed(cipherId, key, Opened(cipherId, key, s)) == s
    ensures cipherId != 1 ==> Opened(cipherId, key, Sealed(cipherId, key, s)) == s
    ensures cipherId != 1 ==> Sealed(cipherId, key, s) == Opened(cipherId, key, s)
  {
    if cipherId == 1 {
      Cbc.Bunny24CbcInverse(key[..3], Abc, s, if |s| % 3 == 0 then s else Cbc.Pad(s));
      if |s| % 3 == 0 {
        Cbc.Bunny24CbcInverse(key[..3], Abc, s, s);
      }
    } else {
      ScipherInvolution(cipherId, s, key);
    }
  }

  /** sencrypt(dest, cipher_id, s, len, key). */
  method Sencrypt(dest: array<bv8>, cipherId: int, s: array<bv8>, len: nat, key: seq<bv8>)
    requires 3 <= |key| && len <= s.Length && SealedLength(cipherId, len) <= dest.Length
    requires cipherId == 1 ==> 3 <= len
    modifies dest
    ensures dest[..SealedLength(cipherId, len)] == Sealed(cipherId, key, old(s[..len]))
    ensures forall j :: SealedLength(cipherId, len) <= j < dest.Length ==> dest[j] == old(dest[j])
  {
    if cipherId == 1 {
      Cbc.BlockCiphers();
      Cbc.ChainEncrypt(Bunny24.Encrypt, dest, key[..3], Abc, s, len);
    } else {
      Scipher(dest, cipherId, s, len, key);
    }
  }

  /** sdecrypt(dest, cipher_id, s, len, key), BUNNY24-CBC with the block
      loop bound rounded up to whole blocks (Cbc.ChainDecrypt). */
  method Sdecrypt(dest: array<bv8>, cipherId: int, s: array<bv8>, len: nat, key: seq<bv8>)
    requires 3 <= |key| && SealedLength(cipherId, len) <= s.Length && SealedLength(cipherId, len) <= dest.Length
    requires cipherId == 1 ==> 0 < len && dest != s
    modifies dest
    ensures dest[..SealedLength(cipherId, len)] == Opened(cipherId, key, old(s[..SealedLength(cipherId, len)]))
    ensures forall j :: SealedLength(cipherId, len) <= j < dest.Length ==> dest[j] == old(dest[j])
  {
    if cipherId == 1 {
      Cbc.BlockCiphers();
      Cbc.ChainDecrypt(Bunny24.Decrypt, dest, key[..3], Abc, s, len);
    } else {
      Scipher(dest, cipherId, s, len, key);
    }
  }
}
