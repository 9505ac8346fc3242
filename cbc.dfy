/*
 * Cipher block chaining over a 3-byte block function, as in
 * src/lib/bunny24.c (_bunny24_cbc_encrypt, _bunny24_cbc_decrypt) and the
 * bindings of src/lib/include/bunny24.h.
 */
module Cbc {
  import opened Bunny24

  /** The block function the CBC routines receive: a 3-byte key and a 3-byte
      block give a 3-byte block. */
  ghost predicate OnBytes(e: Keyed) {
    && (forall k, b {:trigger e.requires(k, b)} :: |k| == 3 && |b| == 3 ==> e.requires(k, b))
    && (forall k, b {:trigger e(k, b)} :: |k| == 3 && |b| == 3 ==> |e(k, b)| == 3)
  }

  /** d undoes e under the same key. */
  ghost predicate Inverts(d: Keyed, e: Keyed)
    requires OnBytes(e) && OnBytes(d)
  {
    forall k, b {:trigger e(k, b)} :: |k| == 3 && |b| == 3 ==> d(k, e(k, b)) == b
  }

  function Zeros(n: nat): (z: seq<bv8>)
    ensures |z| == n && forall i :: 0 <= i < n ==> z[i] == 0
  {
    seq(n, _ => 0)
  }

  /** The message completed on the right with zero bytes up to a whole
      number of 3-byte blocks. */
  function Pad(p: seq<bv8>): (q: seq<bv8>)
    ensures |q| % 3 == 0 && |p| <= |q| < |p| + 3
    ensures q[..|p|] == p && forall i :: |p| <= i < |q| ==> q[i] == 0
  {
    p + Zeros((3 - |p| % 3) % 3)
  }

  lemma {:induction false} PadWhole(p: seq<bv8>)
    requires |p| % 3 == 0
    ensures Pad(p) == p
  {
    assert Zeros((3 - |p| % 3) % 3) == [];
  }

  lemma {:induction false} TakeAll(s: seq<bv8>)
    ensures s[..|s|] == s
  {
  }

  lemma {:induction false} TakeAppend(a: seq<bv8>, b: seq<bv8>, k: nat)
    requires k <= |a|
    ensures (a + b)[..k] == a[..k]
  {
  }

  lemma {:induction false} TakeSplit(s: seq<bv8>, i: nat, j: nat)
    requires i <= j <= |s|
    ensures s[..j] == s[..i] + s[i..j]
  {
  }

  lemma {:induction false} SliceOfTake(s: seq<bv8>, i: nat, j: nat)
    requires i <= j <= |s|
    ensures s[i..j] == s[..j][i..]
  {
  }

  /** A slice within a prefix of s is the same slice of s. */
  lemma {:induction false} SliceOfPrefix(s: seq<bv8>, t: seq<bv8>, i: nat, j: nat)
    requires i <= j <= |t| <= |s| && t == s[..|t|]
    ensures s[i..j] == t[i..j]
  {
  }

  lemma {:induction false} DropAppend(a: seq<bv8>, b: seq<bv8>)
    ensures (a + b)[|a|..] == b
  {
  }

  /** The input of the block function for block n (counting from 1): the
      IV added to the first message block, or message block n added to the
      previous ciphertext block. */
  function ChainInput(iv: seq<bv8>, q: seq<bv8>, c: seq<bv8>, n: nat): (x: seq<bv8>)
    requires |iv| == 3 && 1 <= n && 3 * n <= |q| && |c| == 3 * (n - 1)
    ensures |x| == 3
  {
    if n == 1 then XorBytes(iv, q[..3]) else XorBytes(q[3 * (n - 1)..3 * n], c[3 * (n - 2)..])
  }

  /** The first n ciphertext blocks of the padded message q. */
  function EncryptedBlocks(e: Keyed, iv: seq<bv8>, key: seq<bv8>, q: seq<bv8>, n: nat): (c: seq<bv8>)
    requires OnBytes(e) && |iv| == 3 && |key| == 3 && 3 * n <= |q|
    ensures |c| == 3 * n
  {
    if n == 0 then []
    else
      var c := EncryptedBlocks(e, iv, key, q, n - 1);
      c + e(key, ChainInput(iv, q, c, n))
  }

  /** Plaintext block n (counting from 1) of the ciphertext c: the block
      function's output added to the IV or to the previous ciphertext block. */
  function ChainOutput(d: Keyed, iv: seq<bv8>, key: seq<bv8>, c: seq<bv8>, n: nat): (p: seq<bv8>)
    requires OnBytes(d) && |iv| == 3 && |key| == 3 && 1 <= n && 3 * n <= |c|
    ensures |p| == 3
  {
    var b := d(key, c[3 * (n - 1)..3 * n]);
    if n == 1 then XorBytes(iv, b) else XorBytes(b, c[3 * (n - 2)..3 * (n - 1)])
  }

  /** The first n plaintext blocks of the ciphertext c. */
  function DecryptedBlocks(d: Keyed, iv: seq<bv8>, key: seq<bv8>, c: seq<bv8>, n: nat): (p: seq<bv8>)
    requires OnBytes(d) && |iv| == 3 && |key| == 3 && 3 * n <= |c|
    ensures |p| == 3 * n
  {
    if n == 0 then [] else DecryptedBlocks(d, iv, key, c, n - 1) + ChainOutput(d, iv, key, c, n)
  }

  /** _bunny24_cbc_encrypt: c0 = E(iv + p0), ci = E(pi + c(i-1)) over the
      zero-padded message.  The first block is read whole, so the message
      has at least three bytes. */
  function CbcEncrypt(e: Keyed, iv: seq<bv8>, key: seq<bv8>, p: seq<bv8>): (c: seq<bv8>)
    requires OnBytes(e) && |iv| == 3 && |key| == 3 && |p| >= 3
    ensures |c| == |Pad(p)|
  {
    EncryptedBlocks(e, iv, key, Pad(p), |Pad(p)| / 3)
  }

  /** _bunny24_cbc_decrypt: p0 = iv + D(c0), pi = D(ci) + c(i-1).  Its loop
      stops only at a positive multiple of three. */
  function CbcDecrypt(d: Keyed, iv: seq<bv8>, key: seq<bv8>, c: seq<bv8>): (p: seq<bv8>)
    requires OnBytes(d) && |iv| == 3 && |key| == 3 && |c| > 0 && |c| % 3 == 0
    ensures |p| == |c|
  {
    DecryptedBlocks(d, iv, key, c, |c| / 3)
  }

  /** Ciphertext blocks do not depend on later message blocks. */
  lemma {:induction false} EncryptedPrefix(e: Keyed, iv: seq<bv8>, key: seq<bv8>, q: seq<bv8>, n: nat, m: nat)
    requires OnBytes(e) && |iv| == 3 && |key| == 3 && m <= n && 3 * n <= |q|
    ensures EncryptedBlocks(e, iv, key, q, n)[..3 * m] == EncryptedBlocks(e, iv, key, q, m)
  {
    var c := EncryptedBlocks(e, iv, key, q, n);
    if m == n {
      TakeAll(c);
    } else {
      EncryptedPrefix(e, iv, key, q, n - 1, m);
      var c' := EncryptedBlocks(e, iv, key, q, n - 1);
      TakeAppend(c', e(key, ChainInput(iv, q, c', n)), 3 * m);
    }
  }

  lemma {:induction false} DecryptedPrefix(d: Keyed, iv: seq<bv8>, key: seq<bv8>, c: seq<bv8>, n: nat, m: nat)
    requires OnBytes(d) && |iv| == 3 && |key| == 3 && m <= n && 3 * n <= |c|
    ensures DecryptedBlocks(d, iv, key, c, n)[..3 * m] == DecryptedBlocks(d, iv, key, c, m)
  {
    var p := DecryptedBlocks(d, iv, key, c, n);
    if m == n {
      TakeAll(p);
    } else {
      DecryptedPrefix(d, iv, key, c, n - 1, m);
      var p' := DecryptedBlocks(d, iv, key, c, n - 1);
      assert p == p' + ChainOutput(d, iv, key, c, n);
      TakeAppend(p', ChainOutput(d, iv, key, c, n), 3 * m);
      assert p[..3 * m] == DecryptedBlocks(d, iv, key, c, m);
    }
  }

  /** Ciphertext block n, and the block before it, read from a longer
      encryption. */
  lemma {:induction false} EncryptedBlockAt(e: Keyed, iv: seq<bv8>, key: seq<bv8>, q: seq<bv8>, total: nat, n: nat)
    requires OnBytes(e) && |iv| == 3 && |key| == 3 && 1 <= n <= total && 3 * total <= |q|
    ensures var c := EncryptedBlocks(e, iv, key, q, total);
      var prev := EncryptedBlocks(e, iv, key, q, n - 1);
      c[3 * (n - 1)..3 * n] == e(key, ChainInput(iv, q, prev, n)) &&
      (n > 1 ==> c[3 * (n - 2)..3 * (n - 1)] == prev[3 * (n - 2)..])
  {
    var c := EncryptedBlocks(e, iv, key, q, total);
    EncryptedPrefix(e, iv, key, q, total, n);
    EncryptedPrefix(e, iv, key, q, total, n - 1);
    var prev := EncryptedBlocks(e, iv, key, q, n - 1);
    SliceOfTake(c, 3 * (n - 1), 3 * n);
    DropAppend(prev, e(key, ChainInput(iv, q, prev, n)));
    if n > 1 {
      SliceOfTake(c, 3 * (n - 2), 3 * (n - 1));
    }
  }

  /** Block n of the decryption of an encryption is message block n. */
  lemma {:induction false} DecryptBlock(e: Keyed, d: Keyed, iv: seq<bv8>, key: seq<bv8>, q: seq<bv8>, total: nat, n: nat)
    requires OnBytes(e) && OnBytes(d) && Inverts(d, e)
    requires |iv| == 3 && |key| == 3 && 1 <= n <= total && 3 * total <= |q|
    ensures ChainOutput(d, iv, key, EncryptedBlocks(e, iv, key, q, total), n) == q[3 * (n - 1)..3 * n]
  {
    EncryptedBlockAt(e, iv, key, q, total, n);
    var prev := EncryptedBlocks(e, iv, key, q, n - 1);
    if n == 1 {
      XorBytesTwice(q[..3], iv);
      XorBytesTwice(iv, q[..3]);
    } else {
      XorBytesTwice(q[3 * (n - 1)..3 * n], prev[3 * (n - 2)..]);
    }
  }

  /** The decryption is determined block by block. */
  lemma {:induction false} DecryptedBlocksAre(d: Keyed, iv: seq<bv8>, key: seq<bv8>, c: seq<bv8>, q: seq<bv8>, n: nat)
    requires OnBytes(d) && |iv| == 3 && |key| == 3 && 3 * n <= |c| && 3 * n <= |q|
    requires forall m :: 1 <= m <= n ==> ChainOutput(d, iv, key, c, m) == q[3 * (m - 1)..3 * m]
    ensures DecryptedBlocks(d, iv, key, c, n) == q[..3 * n]
  {
    if n > 0 {
      DecryptedBlocksAre(d, iv, key, c, q, n - 1);
      assert ChainOutput(d, iv, key, c, n) == q[3 * (n - 1)..3 * n];
      TakeSplit(q, 3 * (n - 1), 3 * n);
    }
  }

  /** Decrypting an encryption gives the message blocks back. */
  lemma {:induction false} DecryptEncrypted(e: Keyed, d: Keyed, iv: seq<bv8>, key: seq<bv8>, q: seq<bv8>, n: nat)
    requires OnBytes(e) && OnBytes(d) && Inverts(d, e)
    requires |iv| == 3 && |key| == 3 && 3 * n <= |q|
    ensures DecryptedBlocks(d, iv, key, EncryptedBlocks(e, iv, key, q, n), n) == q[..3 * n]
  {
    forall m | 1 <= m <= n
      ensures ChainOutput(d, iv, key, EncryptedBlocks(e, iv, key, q, n), m) == q[3 * (m - 1)..3 * m]
    {
      DecryptBlock(e, d, iv, key, q, n, m);
    }
    DecryptedBlocksAre(d, iv, key, EncryptedBlocks(e, iv, key, q, n), q, n);
  }

  /** Plaintext block n read from a longer decryption. */
  lemma {:induction false} DecryptedBlockAt(d: Keyed, iv: seq<bv8>, key: seq<bv8>, c: seq<bv8>, total: nat, n: nat)
    requires OnBytes(d) && |iv| == 3 && |key| == 3 && 1 <= n <= total && 3 * total <= |c|
    ensures DecryptedBlocks(d, iv, key, c, total)[3 * (n - 1)..3 * n] == ChainOutput(d, iv, key, c, n)
  {
    var p := DecryptedBlocks(d, iv, key, c, total);
    DecryptedPrefix(d, iv, key, c, total, n);
    SliceOfTake(p, 3 * (n - 1), 3 * n);
    DropAppend(DecryptedBlocks(d, iv, key, c, n - 1), ChainOutput(d, iv, key, c, n));
  }

  /** Block n of the encryption of a decryption is ciphertext block n, once
      the blocks before it are. */
  lemma {:induction false} EncryptBlock(e: Keyed, d: Keyed, iv: seq<bv8>, key: seq<bv8>, c: seq<bv8>, total: nat, n: nat)
    requires OnBytes(e) && OnBytes(d) && Inverts(e, d)
    requires |iv| == 3 && |key| == 3 && 1 <= n <= total && 3 * total <= |c|
    ensures e(key, ChainInput(iv, DecryptedBlocks(d, iv, key, c, total), c[..3 * (n - 1)], n)) == c[3 * (n - 1)..3 * n]
  {
    DecryptedBlockAt(d, iv, key, c, total, n);
    var b := d(key, c[3 * (n - 1)..3 * n]);
    if n == 1 {
      XorBytesTwice(b, iv);
      XorBytesTwice(iv, b);
    } else {
      SliceOfTake(c, 3 * (n - 2), 3 * (n - 1));
      XorBytesTwice(b, c[3 * (n - 2)..3 * (n - 1)]);
    }
  }

  /** Ciphertext block m (from 1) of c is the block function applied to
      the chained input that c's earlier blocks give. */
  ghost predicate EncryptsBlock(e: Keyed, iv: seq<bv8>, key: seq<bv8>, q: seq<bv8>, c: seq<bv8>, m: nat)
    requires OnBytes(e) && |iv| == 3 && |key| == 3 && 1 <= m && 3 * m <= |c| && 3 * m <= |q|
  {
    e(key, ChainInput(iv, q, c[..3 * (m - 1)], m)) == c[3 * (m - 1)..3 * m]
  }

  /** The encryption is determined block by block. */
  lemma {:induction false} EncryptedBlocksAre(e: Keyed, iv: seq<bv8>, key: seq<bv8>, q: seq<bv8>, c: seq<bv8>, n: nat)
    requires OnBytes(e) && |iv| == 3 && |key| == 3 && 3 * n <= |c| && 3 * n <= |q|
    requires forall m :: 1 <= m <= n ==> EncryptsBlock(e, iv, key, q, c, m)
    ensures EncryptedBlocks(e, iv, key, q, n) == c[..3 * n]
  {
    if n > 0 {
      EncryptedBlocksAre(e, iv, key, q, c, n - 1);
      assert EncryptsBlock(e, iv, key, q, c, n);
      TakeSplit(c, 3 * (n - 1), 3 * n);
    }
  }

  /** Encrypting a decryption gives the ciphertext blocks back. */
  lemma {:induction false} EncryptDecrypted(e: Keyed, d: Keyed, iv: seq<bv8>, key: seq<bv8>, c: seq<bv8>, n: nat)
    requires OnBytes(e) && OnBytes(d) && Inverts(e, d)
    requires |iv| == 3 && |key| == 3 && 3 * n <= |c|
    ensures EncryptedBlocks(e, iv, key, DecryptedBlocks(d, iv, key, c, n), n) == c[..3 * n]
  {
    var p := DecryptedBlocks(d, iv, key, c, n);
    forall m | 1 <= m <= n
      ensures EncryptsBlock(e, iv, key, p, c, m)
    {
      EncryptBlock(e, d, iv, key, c, n, m);
    }
    EncryptedBlocksAre(e, iv, key, p, c, n);
  }

  /** CBC decryption undoes CBC encryption up to the zero padding, and the
      converse on whole blocks, when the block functions are inverses. */
  lemma {:induction false} CbcInverse(e: Keyed, d: Keyed, iv: seq<bv8>, key: seq<bv8>, p: seq<bv8>, c: seq<bv8>)
    requires OnBytes(e) && OnBytes(d) && Inverts(d, e) && Inverts(e, d)
    requires |iv| == 3 && |key| == 3 && |p| >= 3 && |c| > 0 && |c| % 3 == 0
    ensures CbcDecrypt(d, iv, key, CbcEncrypt(e, iv, key, p)) == Pad(p)
    ensures CbcEncrypt(e, iv, key, CbcDecrypt(d, iv, key, c)) == c
  {
    var q := Pad(p);
    DecryptEncrypted(e, d, iv, key, q, |q| / 3);
    assert q[..|q|] == q;
    var r := CbcDecrypt(d, iv, key, c);
    EncryptDecrypted(e, d, iv, key, c, |c| / 3);
    PadWhole(r);
    assert c[..|c|] == c;
  }

  /** One block under the zero IV is the block function itself. */
  lemma {:induction false} CbcOneBlock(e: Keyed, key: seq<bv8>, m: seq<bv8>)
    requires OnBytes(e) && |key| == 3 && |m| == 3
    ensures CbcEncrypt(e, [0, 0, 0], key, m) == e(key, m)
  {
    PadWhole(m);
    assert XorBytes([0, 0, 0], m) == m;
    assert m[..3] == m;
  }

  /** The padded length: len rounded up to a whole number of blocks. */
  function Padded(len: nat): (m: nat)
    ensures m % 3 == 0 && len <= m < len + 3
  {
    len + (3 - len % 3) % 3
  }

  lemma {:induction false} PadLength(p: seq<bv8>)
    ensures |Pad(p)| == Padded(|p|)
  {
  }

  /** Below a multiple of three, the next multiple of three still fits. */
  lemma {:induction false} NextMultiple(i: nat, m: nat)
    requires i % 3 == 0 && m % 3 == 0 && i < m
    ensures i + 3 <= m
  {
    assert i == 3 * (i / 3) && m == 3 * (m / 3);
  }

  /** Block i of the padded message: message bytes, then zeros. */
  lemma {:induction false} PadBlock(p: seq<bv8>, i: nat)
    requires i % 3 == 0 && i < |p|
    ensures i + 3 <= |Pad(p)|
    ensures i + 3 <= |p| ==> Pad(p)[i..i + 3] == p[i..i + 3]
    ensures i + 3 > |p| ==> Pad(p)[i..i + 3] == p[i..] + Zeros(i + 3 - |p|)
  {
    var q := Pad(p);
    NextMultiple(i, |q|);
    assert q[i..i + 3] == [q[i], q[i + 1], q[i + 2]];
    if i + 3 > |p| {
      assert p[i..] + Zeros(i + 3 - |p|) == [q[i], q[i + 1], q[i + 2]];
    } else {
      assert p[i..i + 3] == [q[i], q[i + 1], q[i + 2]];
    }
  }

  /** (*encrypt)(dest+i, key, buf) or (*decrypt)(dest+i, ...): three bytes
      stored at dest+i. */
  method Store(dest: array<bv8>, i: nat, b: seq<bv8>)
    requires |b| == 3 && i + 3 <= dest.Length
    modifies dest
    ensures dest[..i + 3] == old(dest[..i]) + b
    ensures forall j :: 0 <= j < dest.Length && !(i <= j < i + 3) ==> dest[j] == old(dest[j])
  {
    dest[i], dest[i + 1], dest[i + 2] := b[0], b[1], b[2];
    assert dest[..i + 3] == dest[..i] + [b[0], b[1], b[2]];
  }

  /** One step of _bunny24_cbc_encrypt: the block function applied to the
      chained input x, stored as ciphertext block n (from 0). */
  method EncryptStep(e: Keyed, dest: array<bv8>, iv: seq<bv8>, key: seq<bv8>, ghost q: seq<bv8>, n: nat, x: seq<bv8>)
    requires OnBytes(e) && |iv| == 3 && |key| == 3 && 3 * n + 3 <= |q| && 3 * n + 3 <= dest.Length
    requires dest[..3 * n] == EncryptedBlocks(e, iv, key, q, n)
    requires x == ChainInput(iv, q, dest[..3 * n], n + 1)
    modifies dest
    ensures dest[..3 * n + 3] == EncryptedBlocks(e, iv, key, q, n + 1)
    ensures forall j :: 0 <= j < dest.Length && !(3 * n <= j < 3 * n + 3) ==> dest[j] == old(dest[j])
  {
    Store(dest, 3 * n, e(key, x));
  }

  lemma {:induction false} PaddedLast(i: nat, len: nat)
    requires i % 3 == 0 && i < len <= i + 3
    ensures Padded(len) == i + 3
  {
    assert len % 3 == (len - i) % 3;
  }

  lemma {:induction false} PaddedWhole(n: nat)
    ensures Padded(3 * n) == 3 * n
  {
    assert (3 * n) % 3 == 0;
  }

  /** A whole encryption is the first |Pad(p)| / 3 ciphertext blocks. */
  lemma {:induction false} CbcEncryptBlocks(e: Keyed, iv: seq<bv8>, key: seq<bv8>, p: seq<bv8>, n: nat, c: seq<bv8>)
    requires OnBytes(e) && |iv| == 3 && |key| == 3 && |p| >= 3 && |Pad(p)| == 3 * n
    requires c == EncryptedBlocks(e, iv, key, Pad(p), n)
    ensures c == CbcEncrypt(e, iv, key, p)
  {
    assert |Pad(p)| / 3 == n;
  }

  /** Ciphertext block n (from 1) from message block m of the padded
      message q, chained with the previous ciphertext block. */
  method EncryptNext(e: Keyed, dest: array<bv8>, iv: seq<bv8>, key: seq<bv8>, ghost q: seq<bv8>, n: nat, m: seq<bv8>)
    requires OnBytes(e) && |iv| == 3 && |key| == 3 && 1 <= n && 3 * n + 3 <= |q| && 3 * n + 3 <= dest.Length
    requires dest[..3 * n] == EncryptedBlocks(e, iv, key, q, n)
    requires m == q[3 * n..3 * n + 3]
    modifies dest
    ensures dest[..3 * n + 3] == EncryptedBlocks(e, iv, key, q, n + 1)
    ensures forall j :: 0 <= j < dest.Length && !(3 * n <= j < 3 * n + 3) ==> dest[j] == old(dest[j])
  {
    var buf := XorBytes(m, dest[3 * n - 3..3 * n]);
    assert dest[3 * n - 3..3 * n] == dest[..3 * n][3 * (n - 1)..];
    EncryptStep(e, dest, iv, key, q, n, buf);
  }

  /** The loop body of _bunny24_cbc_encrypt: a full message block read at
      plaintext+i, i = 3n.  When dest is plaintext, the bytes after the
      block are still the message's. */
  method EncryptFull(e: Keyed, dest: array<bv8>, iv: seq<bv8>, key: seq<bv8>, plaintext: array<bv8>, ghost p: seq<bv8>, n: nat)
    requires OnBytes(e) && |iv| == 3 && |key| == 3 && 1 <= n && 3 * n + 3 <= |p| <= plaintext.Length
    requires |Pad(p)| <= dest.Length
    requires dest[..3 * n] == EncryptedBlocks(e, iv, key, Pad(p), n)
    requires forall j :: 3 * n <= j < |p| ==> plaintext[j] == p[j]
    modifies dest
    ensures dest[..3 * n + 3] == EncryptedBlocks(e, iv, key, Pad(p), n + 1)
    ensures forall j :: 3 * n + 3 <= j < |p| ==> plaintext[j] == p[j]
    ensures forall j :: 0 <= j < dest.Length && !(3 * n <= j < 3 * n + 3) ==> dest[j] == old(dest[j])
  {
    PadBlock(p, 3 * n);
    assert plaintext[3 * n..3 * n + 3] == p[3 * n..3 * n + 3];
    EncryptNext(e, dest, iv, key, Pad(p), n, plaintext[3 * n..3 * n + 3]);
  }

  /** The `if (i < len)` branch of _bunny24_cbc_encrypt: the last one or two
      message bytes, completed with zeros, as block n. */
  method EncryptLast(e: Keyed, dest: array<bv8>, iv: seq<bv8>, key: seq<bv8>, plaintext: array<bv8>, len: nat, ghost p: seq<bv8>, n: nat)
    requires OnBytes(e) && |iv| == 3 && |key| == 3 && 1 <= n && 3 * n < len <= 3 * n + 3 && len <= plaintext.Length && |p| == len
    requires |Pad(p)| <= dest.Length
    requires dest[..3 * n] == EncryptedBlocks(e, iv, key, Pad(p), n)
    requires forall j :: 3 * n <= j < |p| ==> plaintext[j] == p[j]
    modifies dest
    ensures dest[..3 * n + 3] == EncryptedBlocks(e, iv, key, Pad(p), n + 1)
    ensures forall j :: 0 <= j < dest.Length && !(3 * n <= j < 3 * n + 3) ==> dest[j] == old(dest[j])
    ensures Padded(len) == 3 * n + 3
  {
    PadBlock(p, 3 * n);
    PaddedLast(3 * n, len);
    assert plaintext[3 * n..len] == p[3 * n..];
    var padding := plaintext[3 * n..len] + Zeros(3 * n + 3 - len);
    EncryptNext(e, dest, iv, key, Pad(p), n, padding);
  }

  /** The first block of _bunny24_cbc_encrypt, E(iv + p0), then its loop:
      full blocks while i + 3 < len.  On exit i = 3n is the offset of the
      remainder. */
  method EncryptFullBlocks(e: Keyed, dest: array<bv8>, iv: seq<bv8>, key: seq<bv8>, plaintext: array<bv8>, len: nat)
      returns (i: nat, n: nat)
    requires OnBytes(e) && |iv| == 3 && |key| == 3
    requires 3 <= len <= plaintext.Length && Padded(len) <= dest.Length
    modifies dest
    ensures i == 3 * n && 3 <= i <= len < i + 4
    ensures dest[..i] == EncryptedBlocks(e, iv, key, Pad(old(plaintext[..len])), n)
    ensures forall j :: i <= j < len ==> plaintext[j] == old(plaintext[j])
    ensures forall j :: Padded(len) <= j < dest.Length ==> dest[j] == old(dest[j])
  {
    ghost var p := plaintext[..len];
    PadLength(p);
    PadBlock(p, 0);
    var buf := XorBytes(iv, plaintext[..3]);
    EncryptStep(e, dest, iv, key, Pad(p), 0, buf);
    i, n := 3, 1;
    while i + 3 < len
      invariant i == 3 * n && 3 <= i <= len
      invariant dest[..i] == EncryptedBlocks(e, iv, key, Pad(p), n)
      invariant forall j :: i <= j < len ==> plaintext[j] == p[j]
      invariant forall j :: Padded(len) <= j < dest.Length ==> dest[j] == old(dest[j])
    {
      EncryptFull(e, dest, iv, key, plaintext, p, n);
      i, n := i + 3, n + 1;
    }
  }

  /** The end of _bunny24_cbc_encrypt: the padded remainder, if any, and
      with it the whole padded message is encrypted. */
  method EncryptRest(e: Keyed, dest: array<bv8>, iv: seq<bv8>, key: seq<bv8>, plaintext: array<bv8>, len: nat,
                     ghost p: seq<bv8>, i: nat, n: nat)
    requires OnBytes(e) && |iv| == 3 && |key| == 3
    requires 3 <= len <= plaintext.Length && |p| == len && Padded(len) <= dest.Length
    requires i == 3 * n && 3 <= i <= len < i + 4
    requires dest[..i] == EncryptedBlocks(e, iv, key, Pad(p), n)
    requires forall j :: i <= j < len ==> plaintext[j] == p[j]
    modifies dest
    ensures dest[..Padded(len)] == CbcEncrypt(e, iv, key, p)
    ensures forall j :: Padded(len) <= j < dest.Length ==> dest[j] == old(dest[j])
  {
    PadLength(p);
    if i < len {
      EncryptLast(e, dest, iv, key, plaintext, len, p, n);
      CbcEncryptBlocks(e, iv, key, p, n + 1, dest[..i + 3]);
    } else {
      PaddedWhole(n);
      CbcEncryptBlocks(e, iv, key, p, n, dest[..i]);
    }
  }

  /** _bunny24_cbc_encrypt: the first block, the full blocks while
      i + 3 < len, then the zero-padded remainder.  dest may be plaintext
      itself (srng encrypts in place). */
  method ChainEncrypt(e: Keyed, dest: array<bv8>, iv: seq<bv8>, key: seq<bv8>, plaintext: array<bv8>, len: nat)
    requires OnBytes(e) && |iv| == 3 && |key| == 3
    requires 3 <= len <= plaintext.Length && Padded(len) <= dest.Length
    modifies dest
    ensures dest[..Padded(len)] == CbcEncrypt(e, iv, key, old(plaintext[..len]))
    ensures forall j :: Padded(len) <= j < dest.Length ==> dest[j] == old(dest[j])
  {
    ghost var p := plaintext[..len];
    var i, n := EncryptFullBlocks(e, dest, iv, key, plaintext, len);
    EncryptRest(e, dest, iv, key, plaintext, len, p, i, n);
  }

  /** The loop bound of _bunny24_cbc_decrypt as written: len+3*(len%3!=0). */
  function DecryptEnd(len: nat): (end: nat)
    ensures len % 3 == 0 ==> end == len
  {
    len + 3 * (if len % 3 != 0 then 1 else 0)
  }

  /** The loop counter of _bunny24_cbc_decrypt takes the values 3, 6, 9, ...
      When len is not a multiple of three, or is zero, none of them is the
      bound, and the loop does not stop. */
  lemma {:induction false} DecryptEndMissed(len: nat)
    requires len % 3 != 0 || len == 0
    ensures DecryptEnd(len) % 3 != 0 || DecryptEnd(len) < 3
  {
    if len % 3 != 0 {
      assert DecryptEnd(len) == len + 3;
      assert (len + 3) % 3 == len % 3;
    }
  }

  /** The bound evidently intended: the length rounded up to whole blocks,
      which agrees with the code on lengths that are multiples of three. */
  lemma {:induction false} DecryptEndIntended(len: nat)
    ensures Padded(len) % 3 == 0 && len <= Padded(len) < len + 3
    ensures len % 3 == 0 ==> DecryptEnd(len) == Padded(len)
    ensures 0 < len ==> 3 <= Padded(len)
  {
  }

  /** Plaintext block n (from 1) of _bunny24_cbc_decrypt's loop: D(ci) + c(i-1). */
  method DecryptNext(d: Keyed, dest: array<bv8>, iv: seq<bv8>, key: seq<bv8>, cipher: array<bv8>, ghost c: seq<bv8>, n: nat)
    requires OnBytes(d) && |iv| == 3 && |key| == 3 && dest != cipher
    requires 1 <= n && 3 * n + 3 <= |c| <= cipher.Length && c == cipher[..|c|] && 3 * n + 3 <= dest.Length
    requires dest[..3 * n] == DecryptedBlocks(d, iv, key, c, n)
    modifies dest
    ensures dest[..3 * n + 3] == DecryptedBlocks(d, iv, key, c, n + 1)
    ensures forall j :: 0 <= j < dest.Length && !(3 * n <= j < 3 * n + 3) ==> dest[j] == old(dest[j])
  {
    ghost var lo := 3 * (n - 1);
    assert lo == 3 * n - 3;
    SliceOfPrefix(cipher[..], c, 3 * n, 3 * n + 3);
    SliceOfPrefix(cipher[..], c, lo, 3 * n);
    var buf := d(key, cipher[3 * n..3 * n + 3]);
    Store(dest, 3 * n, XorBytes(buf, cipher[3 * n - 3..3 * n]));
  }

  /** A whole decryption is the first |c| / 3 plaintext blocks. */
  lemma {:induction false} CbcDecryptBlocks(d: Keyed, iv: seq<bv8>, key: seq<bv8>, c: seq<bv8>, n: nat, p: seq<bv8>)
    requires OnBytes(d) && |iv| == 3 && |key| == 3 && 0 < n && |c| == 3 * n
    requires p == DecryptedBlocks(d, iv, key, c, n)
    ensures p == CbcDecrypt(d, iv, key, c)
  {
    assert |c| / 3 == n;
  }

  /** _bunny24_cbc_decrypt with the loop bound rounded up to whole blocks
      (DecryptEnd is the bound as written).  dest must not be cipher: each
      step reads the previous ciphertext block. */
  method ChainDecrypt(d: Keyed, dest: array<bv8>, iv: seq<bv8>, key: seq<bv8>, cipher: array<bv8>, len: nat)
    requires OnBytes(d) && |iv| == 3 && |key| == 3 && dest != cipher
    requires 0 < len && Padded(len) <= cipher.Length && Padded(len) <= dest.Length
    modifies dest
    ensures dest[..Padded(len)] == CbcDecrypt(d, iv, key, cipher[..Padded(len)])
    ensures forall j :: Padded(len) <= j < dest.Length ==> dest[j] == old(dest[j])
  {
    ghost var c := cipher[..Padded(len)];
    var end := len + (3 - len % 3) % 3;
    assert c[..3] == cipher[..3];
    var buf := d(key, cipher[..3]);
    Store(dest, 0, XorBytes(iv, buf));
    var i, n := 3, 1;
    while i != end
      invariant i == 3 * n && 3 <= i <= end == Padded(len)
      invariant dest[..i] == DecryptedBlocks(d, iv, key, c, n)
      invariant forall j :: Padded(len) <= j < dest.Length ==> dest[j] == old(dest[j])
    {
      DecryptNext(d, dest, iv, key, cipher, c, n);
      i, n := i + 3, n + 1;
    }
    CbcDecryptBlocks(d, iv, key, c, n, dest[..i]);
  }

  // Bindings of src/lib/include/bunny24.h: the block functions passed to
  // the CBC routines, and the all-zero IV of the reduced variants.

  lemma {:induction false} BlockCiphers()
    ensures OnBytes(Encrypt) && OnBytes(Decrypt) && Inverts(Decrypt, Encrypt) && Inverts(Encrypt, Decrypt)
    ensures OnBytes(ReducedEncrypt) && OnBytes(ReducedDecrypt)
    ensures Inverts(ReducedDecrypt, ReducedEncrypt) && Inverts(ReducedEncrypt, ReducedDecrypt)
  {
    forall k, b | |k| == 3 && |b| == 3
      ensures Decrypt(k, Encrypt(k, b)) == b && Encrypt(k, Decrypt(k, b)) == b
      ensures ReducedDecrypt(k, ReducedEncrypt(k, b)) == b && ReducedEncrypt(k, ReducedDecrypt(k, b)) == b
    {
      EncryptInverse(k, b);
      ReducedInverse(k, b);
    }
  }

  /** bunny24_cbc_encrypt(dest, iv, key, plaintext, len). */
  function Bunny24CbcEncrypt(iv: seq<bv8>, key: seq<bv8>, p: seq<bv8>): (c: seq<bv8>)
    requires |iv| == 3 && |key| == 3 && |p| >= 3
    ensures |c| == Padded(|p|)
  {
    BlockCiphers();
    PadLength(p);
    CbcEncrypt(Encrypt, iv, key, p)
  }

  /** bunny24_cbc_decrypt(dest, iv, key, ciphertext, len). */
  function Bunny24CbcDecrypt(iv: seq<bv8>, key: seq<bv8>, c: seq<bv8>): (p: seq<bv8>)
    requires |iv| == 3 && |key| == 3 && |c| > 0 && |c| % 3 == 0
    ensures |p| == |c|
  {
    BlockCiphers();
    CbcDecrypt(Decrypt, iv, key, c)
  }

  /** The IV "\0\0\0\0" of the reduced bindings; the routines read three
      bytes of it. */
  const ZeroIv: seq<bv8> := [0, 0, 0]

  /** reduced_bunny24_cbc_encrypt(dest, key, plaintext, len). */
  function ReducedCbcEncrypt(key: seq<bv8>, p: seq<bv8>): (c: seq<bv8>)
    requires |key| == 3 && |p| >= 3
    ensures |c| == Padded(|p|)
  {
    BlockCiphers();
    PadLength(p);
    CbcEncrypt(ReducedEncrypt, ZeroIv, key, p)
  }

  /** reduced_bunny24_cbc_decrypt(dest, key, ciphertext, len). */
  function ReducedCbcDecrypt(key: seq<bv8>, c: seq<bv8>): (p: seq<bv8>)
    requires |key| == 3 && |c| > 0 && |c| % 3 == 0
    ensures |p| == |c|
  {
    BlockCiphers();
    CbcDecrypt(ReducedDecrypt, ZeroIv, key, c)
  }

  /** Decryption under the same IV and key gives the zero-padded message
      back; encryption of a decryption gives the ciphertext back. */
  lemma {:induction false} Bunny24CbcInverse(iv: seq<bv8>, key: seq<bv8>, p: seq<bv8>, c: seq<bv8>)
    requires |iv| == 3 && |key| == 3 && |p| >= 3 && |c| > 0 && |c| % 3 == 0
    ensures Bunny24CbcDecrypt(iv, key, Bunny24CbcEncrypt(iv, key, p)) == Pad(p)
    ensures Bunny24CbcEncrypt(iv, key, Bunny24CbcDecrypt(iv, key, c)) == c
  {
    BlockCiphers();
    CbcInverse(Encrypt, Decrypt, iv, key, p, c);
  }

  lemma {:induction false} ReducedCbcInverse(key: seq<bv8>, p: seq<bv8>, c: seq<bv8>)
    requires |key| == 3 && |p| >= 3 && |c| > 0 && |c| % 3 == 0
    ensures ReducedCbcDecrypt(key, ReducedCbcEncrypt(key, p)) == Pad(p)
    ensures ReducedCbcEncrypt(key, ReducedCbcDecrypt(key, c)) == c
  {
    BlockCiphers();
    CbcInverse(ReducedEncrypt, ReducedDecrypt, ZeroIv, key, p, c);
  }

  /** On a single block the reduced CBC binding is the reduced cipher. */
  lemma {:induction false} ReducedCbcOneBlock(key: seq<bv8>, m: seq<bv8>)
    requires |key| == 3 && |m| == 3
    ensures ReducedCbcEncrypt(key, m) == ReducedEncrypt(key, m)
  {
    BlockCiphers();
    CbcOneBlock(ReducedEncrypt, key, m);
  }

  /** Writing byte i of out into a buffer that agrees with out below i
      extends the agreement and leaves the buffer past out alone. */
  lemma Written(before: seq<bv8>, after: seq<bv8>, out: seq<bv8>, i: nat)
    requires i < |out| <= |before| && after == before[i := out[i]] && before[..i] == out[..i]
    ensures after[..i + 1] == out[..i + 1] && after[|out|..] == before[|out|..]
  {
    assert forall t | 0 <= t < i + 1 :: after[t] == out[t];
  }
}
