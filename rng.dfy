/*
 * The random number generators of src/lib/rng.c: the Mersenne-Twister-like
 * fast generator (init_generator, generate_untampered, extract_number,
 * frng) and the Bunny24-based secure generator srng.
 *
 * The table MT and its index are `int` globals.  A word is a bv32 holding
 * the two's-complement bits of the int; +, * and << wrap, and >> on an int
 * is the arithmetic shift (Sar).
 */
module Rng {
  import Bunny24
  import Cbc

  /** The table size and the middle offset. */
  const N: nat := 624
  const Middle: nat := 397

  /** `x >> k` on an int: the shift that copies the sign bit. */
  function Sar(x: bv32, k: bv5): bv32 {
    if x < 0x8000_0000 then x >> k else !(!x >> k)
  }

  /* ---------------- init_generator ---------------- */

  /** Entry i of the seeded table from entry i - 1: only the low 16 bits of
      the product are kept. */
  function InitNext(prev: bv32, i: nat): (w: bv32)
    requires i < N
    ensures w <= 0xffff
  {
    Scramble(prev ^ (Sar(prev, 30) + Counter(i)))
  }

  /** The loop counter i added to a word. */
  function Counter(i: nat): bv32
    requires i < N
  {
    i as bv32
  }

  /** The low 16 bits of the product with 0x6c078965. */
  function Scramble(v: bv32): bv32 {
    0xffff & (0x6c07_8965 * v)
  }

  /** The first n entries init_generator writes. */
  function InitPrefix(seed: bv32, n: nat): (t: seq<bv32>)
    requires 1 <= n <= N
    ensures |t| == n && t[0] == seed
    ensures forall j :: 1 <= j < n ==> t[j] <= 0xffff
  {
    if n == 1 then [seed]
    else
      var t := InitPrefix(seed, n - 1);
      t + [InitNext(t[n - 2], n - 1)]
  }

  function InitTable(seed: bv32): (t: seq<bv32>)
    ensures |t| == N
  {
    InitPrefix(seed, N)
  }

  /** Entry i of a longer prefix is computed from entry i - 1. */
  lemma {:induction false} InitPrefixAt(seed: bv32, n: nat, i: nat)
    requires 1 <= i < n <= N
    ensures InitPrefix(seed, n)[i] == InitNext(InitPrefix(seed, n)[i - 1], i)
    decreases n
  {
    var t := InitPrefix(seed, n - 1);
    assert InitPrefix(seed, n) == t + [InitNext(t[n - 2], n - 1)];
    if i < n - 1 {
      InitPrefixAt(seed, n - 1, i);
    }
  }

  /* ---------------- generate_untampered ---------------- */

  /** The new value of an entry from the entry itself (x), its successor
      (next) and the entry 397 places on (far).  The source adds the
      entry xor 0x80000000, not its top bit; `y % 2` on an int is nonzero
      exactly when y is odd, negative or not. */
  function Mix(x: bv32, next: bv32, far: bv32): bv32 {
    Fold(far, Join(x, next))
  }

  /** y of generate_untampered. */
  function Join(x: bv32, next: bv32): bv32 {
    (x ^ 0x8000_0000) + (next & 0x7fff_ffff)
  }

  /** The far entry, y shifted in, and the constant when y is odd. */
  function Fold(far: bv32, y: bv32): bv32 {
    if y & 1 != 0 then (far ^ Sar(y, 1)) ^ 0x9908_b0df else far ^ Sar(y, 1)
  }

  /** Entry i rewritten from the table as it stands at that point. */
  function Twist(s: seq<bv32>, i: nat): bv32
    requires |s| == N && i < N
  {
    Mix(s[i], s[(i + 1) % N], s[(i + Middle) % N])
  }

  /** The table after generate_untampered has rewritten entries 0 .. k-1 in
      place, in index order. */
  function Twisted(s: seq<bv32>, k: nat): (r: seq<bv32>)
    requires |s| == N && k <= N
    ensures |r| == N
  {
    if k == 0 then s
    else
      var t := Twisted(s, k - 1);
      t[k - 1 := Twist(t, k - 1)]
  }

  function Regenerate(s: seq<bv32>): (r: seq<bv32>)
    requires |s| == N
    ensures |r| == N
  {
    Twisted(s, N)
  }

  /** Once the rewrite has passed entry j it keeps its value; before that it
      still holds the old one. */
  lemma {:induction false} TwistedAt(s: seq<bv32>, k: nat, j: nat)
    requires |s| == N && k <= N && j < N
    ensures Twisted(s, k)[j] == if j < k then Twist(Twisted(s, j), j) else s[j]
  {
    if k > 0 {
      TwistedAt(s, k - 1, j);
    }
  }

  /** What generate_untampered reads: every entry from its old value and,
      for the successor and the entry 397 on, the old value when that entry
      has not been rewritten yet and the new one when it has (the successor
      of entry 623 is the new entry 0; from entry 227 on the far entry is a
      new one). */
  lemma {:induction false} RegenerateReads(s: seq<bv32>, i: nat)
    requires |s| == N && i < N
    ensures var r := Regenerate(s);
      r[i] == Mix(s[i], if i == N - 1 then r[0] else s[i + 1], if i < N - Middle then s[i + Middle] else r[i - (N - Middle)])
  {
    var r := Regenerate(s);
    var t := Twisted(s, i);
    assert (i + 1) % N == if i == N - 1 then 0 else i + 1;
    assert (i + Middle) % N == if i < N - Middle then i + Middle else i - (N - Middle);
    TwistedAt(s, N, i);
    TwistedAt(s, i, i);
    if i == N - 1 {
      TwistedAt(s, i, 0);
      TwistedAt(s, N, 0);
    } else {
      TwistedAt(s, i, i + 1);
    }
    if i < N - Middle {
      TwistedAt(s, i, i + Middle);
    } else {
      TwistedAt(s, i, i - (N - Middle));
      TwistedAt(s, N, i - (N - Middle));
    }
  }

  /* ---------------- extract_number ---------------- */

  /** The output transformation of extract_number, with its two arithmetic
      right shifts.  The last step xors the sign into every bit it shifts
      in, so the sign bit of the result is always clear: extract_number
      never returns a negative int, and half of the 32-bit words never
      come out. */
  function Temper(y: bv32): (t: bv32)
    ensures t & 0x8000_0000 == 0
  {
    Shift18(Mask15(Mask7(Shift11(y))))
  }

  function Shift11(y: bv32): bv32 {
    y ^ Sar(y, 11)
  }

  function Mask7(y: bv32): bv32 {
    y ^ ((y << 7) & 0x9d2c_5680)
  }

  function Mask15(y: bv32): bv32 {
    y ^ ((y << 15) & 0xefc6_0000)
  }

  function Shift18(y: bv32): (t: bv32)
    ensures t & 0x8000_0000 == 0
  {
    y ^ Sar(y, 18)
  }

  /** The generator's state: the table and the index of the next entry. */
  datatype State = State(mt: seq<bv32>, index: nat)

  predicate Good(s: State) {
    |s.mt| == N && s.index < N
  }

  /** One call of extract_number: the new state and the returned word. */
  function Next(s: State): (r: (State, bv32))
    requires Good(s)
    ensures Good(r.0)
  {
    var mt := if s.index == 0 then Regenerate(s.mt) else s.mt;
    (State(mt, (s.index + 1) % N), Temper(mt[s.index]))
  }

  /** The states of n successive calls, from s. */
  function States(s: State, n: nat): (t: seq<State>)
    requires Good(s)
    ensures |t| == n + 1 && t[0] == s
    ensures forall k :: 0 <= k <= n ==> Good(t[k])
    ensures forall k :: 0 <= k < n ==> t[k + 1] == Next(t[k]).0
    decreases n
  {
    if n == 0 then [s] else [s] + States(Next(s).0, n - 1)
  }

  /** r successive regenerations of the table. */
  function Regenerated(mt: seq<bv32>, r: nat): (t: seq<bv32>)
    requires |mt| == N
    ensures |t| == N
  {
    if r == 0 then mt else Regenerate(Regenerated(mt, r - 1))
  }

  /** After k calls from a freshly seeded state (index 0) the index is
      k mod 624 and the table has been regenerated once per started round
      of 624 calls: a regeneration happens exactly at the calls made with
      index 0. */
  lemma {:induction false} StatesAt(mt: seq<bv32>, n: nat, k: nat)
    requires |mt| == N && k <= n
    ensures States(State(mt, 0), n)[k] == State(Regenerated(mt, (k + N - 1) / N), k % N)
  {
    if k > 0 {
      StatesAt(mt, n, k - 1);
      Rounds(k);
    }
  }

  /** The call count k against the round count and the index. */
  lemma Rounds(k: nat)
    requires k > 0
    ensures (k - 1) % N == 0 ==> (k + N - 1) / N == (k - 1 + N - 1) / N + 1
    ensures (k - 1) % N != 0 ==> (k + N - 1) / N == (k - 1 + N - 1) / N
    ensures k % N == ((k - 1) % N + 1) % N
  {
    var q, r := (k - 1) / N, (k - 1) % N;
    assert k - 1 == N * q + r;
    if r == 0 {
      assert (k - 1 + N - 1) / N == q;
      assert (k + N - 1) / N == q + 1;
    } else {
      assert (k - 1 + N - 1) / N == q + 1;
      assert (k + N - 1) / N == q + 1;
    }
  }

  /** Word k (from 0) of the stream of a freshly seeded state is entry
      k mod 624 of the table regenerated k / 624 + 1 times, tempered. */
  lemma {:induction false} WordAt(mt: seq<bv32>, n: nat, k: nat)
    requires |mt| == N && k < n
    ensures Next(States(State(mt, 0), n)[k]).1 == Temper(Regenerated(mt, k / N + 1)[k % N])
  {
    StatesAt(mt, n, k);
    var q, r := k / N, k % N;
    assert k == N * q + r;
    if r == 0 {
      assert (k + N - 1) / N == q;
    } else {
      assert (k + N - 1) / N == q + 1;
    }
  }

  /* ---------------- frng ---------------- */

  /** `*(int *) seed`: the first four seed bytes, least significant first
      (a little-endian host). */
  function SeedWord(seed: seq<bv8>): (w: bv32)
    requires |seed| >= 4
    ensures LowByte(w) == seed[0]
  {
    seed[0] as bv32 | (seed[1] as bv32 << 8) | (seed[2] as bv32 << 16) | (seed[3] as bv32 << 24)
  }

  /** The `char` a word is stored into: its low byte. */
  function LowByte(w: bv32): bv8 {
    (w & 0xff) as bv8
  }

  /** The bytes frng writes: the low byte of each of len successive words
      after seeding. */
  function FrngBytes(seed: seq<bv8>, len: nat): (out: seq<bv8>)
    requires |seed| >= 4
    ensures |out| == len
  {
    var t := States(State(InitTable(SeedWord(seed)), 0), len);
    seq(len, k requires 0 <= k < len => LowByte(Next(t[k]).1))
  }

  /** Byte k of frng's output is the low byte of the tempered entry
      k mod 624 of the seeded table, regenerated k / 624 + 1 times. */
  lemma {:induction false} FrngByteAt(seed: seq<bv8>, len: nat, k: nat)
    requires |seed| >= 4 && k < len
    ensures FrngBytes(seed, len)[k] == LowByte(Temper(Regenerated(InitTable(SeedWord(seed)), k / N + 1)[k % N]))
  {
    WordAt(InitTable(SeedWord(seed)), len, k);
  }

  /** A shorter call gives a prefix of a longer one. */
  lemma {:induction false} FrngPrefix(seed: seq<bv8>, m: nat, n: nat)
    requires |seed| >= 4 && m <= n
    ensures FrngBytes(seed, n)[..m] == FrngBytes(seed, m)
  {
    forall k | 0 <= k < m
      ensures FrngBytes(seed, n)[k] == FrngBytes(seed, m)[k]
    {
      FrngByteAt(seed, n, k);
      FrngByteAt(seed, m, k);
    }
  }

  /** The globals MT and frng_index, zero before the first call. */
  class Twister {
    const mt: array<bv32>
    var index: nat

    ghost predicate Valid()
      reads this
    {
      mt.Length == N && index < N
    }

    function Current(): (s: State)
      reads this, mt
      requires Valid()
      ensures Good(s)
    {
      State(mt[..], index)
    }

    constructor ()
      ensures Valid() && fresh(mt) && index == 0
      ensures forall j :: 0 <= j < N ==> mt[j] == 0
    {
      mt := new bv32[N](_ => 0);
      index := 0;
    }

    /** init_generator: index 0, the seed in entry 0, then each entry from
        the one before. */
    method InitGenerator(seed: bv32)
      requires Valid()
      modifies this, mt
      ensures Valid() && Current() == State(InitTable(seed), 0)
      ensures mt[0] == seed && forall j :: 1 <= j < N ==> mt[j] <= 0xffff
    {
      index := 0;
      mt[0] := seed;
      var i := 1;
      while i != N
        invariant 1 <= i <= N && index == 0
        invariant mt[..i] == InitPrefix(seed, i)
      {
        mt[i] := InitNext(mt[i - 1], i);
        i := i + 1;
      }
      assert mt[..] == mt[..N];
    }

    /** generate_untampered: entries 0 to 623 rewritten in place, in order. */
    method GenerateUntampered()
      requires Valid()
      modifies mt
      ensures mt[..] == Regenerate(old(mt[..]))
    {
      var i := 0;
      while i != N
        invariant i <= N && mt[..] == Twisted(old(mt[..]), i)
      {
        var y := Join(mt[i], mt[(i + 1) % N]);
        mt[i] := Fold(mt[(i + Middle) % N], y);
        i := i + 1;
      }
    }

    /** extract_number: regenerate when the index is 0, temper the entry at
        the index, advance the index modulo 624. */
    method ExtractNumber() returns (y: bv32)
      requires Valid()
      modifies this, mt
      ensures Valid() && (Current(), y) == Next(old(Current()))
    {
      if index == 0 {
        GenerateUntampered();
      }
      y := mt[index];
      y := Shift11(y);
      y := Mask7(y);
      y := Mask15(y);
      y := Shift18(y);
      index := (index + 1) % N;
    }

    /** frng: reseed from the first four seed bytes, then store the low byte
        of len successive words.  Whatever the state before, the output is
        a function of the seed and the length. */
    method Frng(dest: array<bv8>, seed: seq<bv8>, len: nat)
      requires Valid() && |seed| >= 4 && len <= dest.Length
      modifies this, mt, dest
      ensures Valid() && Current() == States(State(InitTable(SeedWord(seed)), 0), len)[len]
      ensures dest[..len] == FrngBytes(seed, len) && dest[len..] == old(dest[len..])
    {
      InitGenerator(SeedWord(seed));
      ghost var t := States(Current(), len);
      ghost var out := FrngBytes(seed, len);
      var i := 0;
      while i != len
        invariant i <= len && Valid() && Current() == t[i]
        invariant dest[..i] == out[..i] && dest[len..] == old(dest[len..])
      {
        ghost var before := dest[..];
        var w := ExtractNumber();
        dest[i] := LowByte(w);
        Cbc.Written(before, dest[..], out, i);
        i := i + 1;
      }
    }
  }

  /* ---------------- srng ---------------- */

  /** The bytes srng writes: the zero message of len bytes encrypted with
      Bunny24 in CBC mode, the first three seed bytes as key and
      (seed[3], 0, 0) as IV. */
  function SrngBytes(seed: seq<bv8>, len: nat): (out: seq<bv8>)
    requires |seed| >= 4 && len >= 3
    ensures |out| == Cbc.Padded(len)
  {
    Cbc.Bunny24CbcEncrypt([seed[3], 0, 0], seed[..3], Cbc.Zeros(len))
  }

  /** srng: clear len bytes of dest, then encrypt them in place. */
  method Srng(dest: array<bv8>, seed: seq<bv8>, len: nat)
    requires |seed| >= 4 && 3 <= len && Cbc.Padded(len) <= dest.Length
    modifies dest
    ensures dest[..Cbc.Padded(len)] == SrngBytes(seed, len)
    ensures dest[Cbc.Padded(len)..] == old(dest[Cbc.Padded(len)..])
  {
    var iv: seq<bv8> := [seed[3], 0, 0];
    Cbc.BlockCiphers();
    ClearAndEncrypt(Bunny24.Encrypt, dest, iv, seed[..3], len);
  }

  /** The body of srng for any block function: bzero, then CBC in place. */
  method ClearAndEncrypt(e: Bunny24.Keyed, dest: array<bv8>, iv: seq<bv8>, key: seq<bv8>, len: nat)
    requires Cbc.OnBytes(e) && |iv| == 3 && |key| == 3
    requires 3 <= len && Cbc.Padded(len) <= dest.Length
    modifies dest
    ensures dest[..Cbc.Padded(len)] == Cbc.CbcEncrypt(e, iv, key, Cbc.Zeros(len))
    ensures dest[Cbc.Padded(len)..] == old(dest[Cbc.Padded(len)..])
  {
    forall j | 0 <= j < len {
      dest[j] := 0;
    }
    assert dest[..len] == Cbc.Zeros(len);
    ghost var rest := dest[Cbc.Padded(len)..];
    Cbc.ChainEncrypt(e, dest, iv, key, dest, len);
    assert dest[Cbc.Padded(len)..] == rest;
  }

  /** The zero message makes srng's output a pure chain of the block
      cipher: block 1 is E(iv) and block n is E(block n - 1). */
  lemma {:induction false} SrngChain(seed: seq<bv8>, len: nat, n: nat)
    requires |seed| >= 4 && len >= 3 && 1 <= n && 3 * n <= Cbc.Padded(len)
    ensures var out := SrngBytes(seed, len);
      out[3 * (n - 1)..3 * n]
        == Bunny24.Encrypt(seed[..3], if n == 1 then [seed[3], 0, 0] else out[3 * (n - 2)..3 * (n - 1)])
  {
    Cbc.BlockCiphers();
    ZeroChain(Bunny24.Encrypt, [seed[3], 0, 0], seed[..3], len, n);
  }

  /** CBC over a zero message, for any block function. */
  lemma {:induction false} ZeroChain(e: Bunny24.Keyed, iv: seq<bv8>, key: seq<bv8>, len: nat, n: nat)
    requires Cbc.OnBytes(e) && |iv| == 3 && |key| == 3
    requires len >= 3 && 1 <= n && 3 * n <= Cbc.Padded(len)
    ensures var out := Cbc.CbcEncrypt(e, iv, key, Cbc.Zeros(len));
      out[3 * (n - 1)..3 * n] == e(key, if n == 1 then iv else out[3 * (n - 2)..3 * (n - 1)])
  {
    var p := Cbc.Zeros(len);
    var q := Cbc.Pad(p);
    Cbc.PadLength(p);
    var total := |q| / 3;
    assert 3 * total == |q|;
    Cbc.EncryptedBlockAt(e, iv, key, q, total, n);
    var prev := Cbc.EncryptedBlocks(e, iv, key, q, n - 1);
    PadZeros(p);
    ZeroBlock(q, 3 * (n - 1));
    if n == 1 {
      XorZero(iv);
    } else {
      XorZero(prev[3 * (n - 2)..]);
    }
  }

  /** The zero message padded is all zeros. */
  lemma PadZeros(p: seq<bv8>)
    requires forall j :: 0 <= j < |p| ==> p[j] == 0
    ensures forall j :: 0 <= j < |Cbc.Pad(p)| ==> Cbc.Pad(p)[j] == 0
  {
    var q := Cbc.Pad(p);
    forall j | 0 <= j < |p|
      ensures q[j] == 0
    {
      assert q[j] == q[..|p|][j];
    }
  }

  lemma ZeroBlock(q: seq<bv8>, i: nat)
    requires i + 3 <= |q| && forall j :: 0 <= j < |q| ==> q[j] == 0
    ensures q[i..i + 3] == [0, 0, 0]
  {
  }

  /** Adding the zero block changes nothing, on either side. */
  lemma XorZero(a: seq<bv8>)
    requires |a| == 3
    ensures Bunny24.XorBytes(a, [0, 0, 0]) == a && Bunny24.XorBytes([0, 0, 0], a) == a
  {
    assert a == [a[0], a[1], a[2]];
  }
}
