/** The linear feedback shift registers of lfsr.c and the three stream
    ciphers built on them: A5/1 (three majority-clocked registers), MAJ5
    (five majority-clocked registers) and ALL5 (five registers clocked
    together, combined by a semi-bent Boolean function).

    A register is an array of cells, one char per bit in the source and one
    byte here. A polynomial vector p of a register of degree d has d + 1
    entries, p[0] being the constant term; the feedback bit is the sum of the
    cells i for which p[i + 1] is set. The bank of registers the ciphers
    allocate (char ** in the source) is a sequence of distinct arrays: the
    array of register addresses itself never changes after allocation. */
module Lfsr {
  import Cbc

  /** Every cell is 0 or 1. */
  ghost predicate Bits(s: seq<bv8>)
  {
    forall i :: 0 <= i < |s| ==> s[i] <= 1
  }

  // ---------------------------------------------------------------------
  // One register

  /** The feedback bit of update over the first n cells of st. */
  function Feedback(p: seq<bv8>, st: seq<bv8>, n: nat): (b: bv8)
    requires n <= |st| && n < |p|
  {
    if n == 0 then 0 else Feedback(p, st, n - 1) ^ (if p[n] != 0 then st[n - 1] else 0)
  }

  /** The register after one clock: the feedback bit enters at cell 0 and
      every other cell moves up one place, the last one dropping out. */
  function Step(p: seq<bv8>, st: seq<bv8>): (s: seq<bv8>)
    requires 0 < |st| < |p|
    ensures |s| == |st|
  {
    [Feedback(p, st, |st|)] + st[..|st| - 1]
  }

  /** The register after n clocks. */
  function Clock(p: seq<bv8>, st: seq<bv8>, n: nat): (s: seq<bv8>)
    requires 0 < |st| < |p|
    ensures |s| == |st|
  {
    if n == 0 then st else Step(p, Clock(p, st, n - 1))
  }

  /** The first n bits update returns from st. */
  function Stream(p: seq<bv8>, st: seq<bv8>, n: nat): (bs: seq<bv8>)
    requires 0 < |st| < |p|
    ensures |bs| == n
  {
    if n == 0 then [] else Stream(p, st, n - 1) + [Feedback(p, Clock(p, st, n - 1), |st|)]
  }

  /** The last cell, which output reads: on a 0/1 register, a bit. */
  function Output(st: seq<bv8>): (b: bv8)
    requires 0 < |st|
    ensures Bits(st) ==> b <= 1
  {
    st[|st| - 1]
  }

  lemma ClockNext(p: seq<bv8>, st: seq<bv8>, n: nat, m: nat)
    requires 0 < |st| < |p| && m == n + 1
    ensures Clock(p, st, m) == Step(p, Clock(p, st, n))
  {
  }

  lemma StreamNext(p: seq<bv8>, st: seq<bv8>, n: nat, m: nat)
    requires 0 < |st| < |p| && m == n + 1
    ensures Stream(p, st, m) == Stream(p, st, n) + [Feedback(p, Clock(p, st, n), |st|)]
  {
  }

  lemma StepCells(p: seq<bv8>, st: seq<bv8>, k: nat)
    requires 0 < |st| < |p| && k < |st|
    ensures Step(p, st)[k] == if k == 0 then Feedback(p, st, |st|) else st[k - 1]
  {
  }

  /** A register is a delay line of its own feedback bits: after n clocks,
      cell k holds the bit produced k clocks ago, or, when fewer than k + 1
      clocks have run, the initial cell k - n. In particular output, the last
      cell, returns the bit produced degree clocks earlier. */
  lemma {:induction false} ClockHistory(p: seq<bv8>, st: seq<bv8>, n: nat, k: nat)
    requires 0 < |st| < |p| && k < |st|
    ensures Clock(p, st, n)[k] == if k < n then Stream(p, st, n)[n - 1 - k] else st[k - n]
  {
    if n > 0 {
      ClockNext(p, st, n - 1, n);
      StreamNext(p, st, n - 1, n);
      StepCells(p, Clock(p, st, n - 1), k);
      if k > 0 {
        ClockHistory(p, st, n - 1, k - 1);
      }
    }
  }

  /** Once the register has been clocked at least its length, output
      returns the bit fed back |st| clocks earlier. */
  lemma {:induction false} OutputHistory(p: seq<bv8>, st: seq<bv8>, n: nat)
    requires 0 < |st| < |p| && |st| <= n
    ensures Output(Clock(p, st, n)) == Stream(p, st, n)[n - |st|]
  {
    ClockHistory(p, st, n, |st| - 1);
  }

  /** Cellwise sum of two registers. */
  function Sum(a: seq<bv8>, b: seq<bv8>): (s: seq<bv8>)
    requires |a| == |b|
    ensures |s| == |a|
  {
    seq(|a|, i requires 0 <= i < |a| => a[i] ^ b[i])
  }

  lemma {:induction false} FeedbackLinear(p: seq<bv8>, a: seq<bv8>, b: seq<bv8>, n: nat)
    requires n <= |a| == |b| && n < |p|
    ensures Feedback(p, Sum(a, b), n) == Feedback(p, a, n) ^ Feedback(p, b, n)
  {
    if n > 0 {
      FeedbackLinear(p, a, b, n - 1);
    }
  }

  /** update is linear: clocking the sum of two registers gives the sum of
      the clocked registers. */
  lemma StepLinear(p: seq<bv8>, a: seq<bv8>, b: seq<bv8>)
    requires 0 < |a| == |b| < |p|
    ensures Step(p, Sum(a, b)) == Sum(Step(p, a), Step(p, b))
  {
    FeedbackLinear(p, a, b, |a|);
    var l, r := Step(p, Sum(a, b)), Sum(Step(p, a), Step(p, b));
    assert forall t | 0 < t < |a| :: l[t] == a[t - 1] ^ b[t - 1] == r[t];
  }

  /** The all-zero register never leaves the all-zero state. */
  lemma {:induction false} ZeroStays(p: seq<bv8>, len: nat, n: nat)
    requires 0 < len < |p|
    ensures Clock(p, Cbc.Zeros(len), n) == Cbc.Zeros(len)
  {
    if n > 0 {
      ZeroStays(p, len, n - 1);
      ZeroFeedback(p, Cbc.Zeros(len), len);
    }
  }

  lemma {:induction false} ZeroFeedback(p: seq<bv8>, st: seq<bv8>, n: nat)
    requires n <= |st| && n < |p| && st == Cbc.Zeros(|st|)
    ensures Feedback(p, st, n) == 0
  {
    if n > 0 {
      ZeroFeedback(p, st, n - 1);
    }
  }

  /** update: the feedback bit is summed over the taps, the cells are moved
      up one place (memmove) and the new bit is stored in cell 0 and
      returned. The degree is the register's length. */
  method Update(p: seq<bv8>, state: array<bv8>) returns (b: bv8)
    requires 0 < state.Length < |p|
    modifies state
    ensures b == Feedback(p, old(state[..]), state.Length)
    ensures state[..] == Step(p, old(state[..]))
  {
    b := 0;
    var i := 0;
    while i != state.Length
      invariant i <= state.Length && b == Feedback(p, state[..], i)
    {
      if p[i + 1] != 0 {
        b := b ^ state[i];
      }
      i := i + 1;
    }
    forall t | 1 <= t < state.Length {
      state[t] := state[t - 1];
    }
    state[0] := b;
  }

  /** LFSR: n clocks of reg, each returned bit stored in dest. */
  method Lfsr(dest: array<bv8>, p: seq<bv8>, reg: array<bv8>, n: nat)
    requires dest != reg && 0 < reg.Length < |p| && n <= dest.Length
    modifies dest, reg
    ensures dest[..n] == Stream(p, old(reg[..]), n) && dest[n..] == old(dest[n..])
    ensures reg[..] == Clock(p, old(reg[..]), n)
  {
    ghost var s0 := reg[..];
    var i := 0;
    while i != n
      invariant i <= n && reg[..] == Clock(p, s0, i)
      invariant dest[..i] == Stream(p, s0, i) && dest[n..] == old(dest[n..])
    {
      var b := Update(p, reg);
      dest[i] := b;
      ClockNext(p, s0, i, i + 1);
      StreamNext(p, s0, i, i + 1);
      assert dest[..i + 1] == dest[..i] + [b];
      i := i + 1;
    }
  }

  // ---------------------------------------------------------------------
  // The period counter

  /** The starting register of lfsr_period: 0...01. */
  function Start(len: nat): (s: seq<bv8>)
    requires 0 < len
    ensures |s| == len
  {
    Cbc.Zeros(len - 1) + [1]
  }

  /** The stopping test of lfsr_period: memchr finds no cell holding 1
      before the last one. */
  predicate Stops(st: seq<bv8>)
  {
    forall i :: 0 <= i < |st| - 1 ==> st[i] != 1
  }

  /** On 0/1 registers the stopping test holds exactly at 0...01 and at the
      all-zero register. */
  lemma StopsAt(st: seq<bv8>)
    requires 0 < |st| && Bits(st)
    ensures Stops(st) <==> st == Start(|st|) || st == Cbc.Zeros(|st|)
  {
    if Stops(st) {
      assert st[..|st| - 1] == Cbc.Zeros(|st| - 1);
      if st[|st| - 1] == 1 {
        assert st == st[..|st| - 1] + [1];
      } else {
        assert st == Cbc.Zeros(|st|);
      }
    }
  }

  /** The calloc'ed register 0...01 of lfsr_period. */
  method NewStart(len: nat) returns (start: array<bv8>)
    requires 0 < len
    ensures fresh(start) && start[..] == Start(len)
  {
    start := new bv8[len](_ => 0);
    start[len - 1] := 1;
    assert start[..] == Cbc.Zeros(len - 1) + [1];
  }

  /** The registers of n clocks from st: st, then st clocked once, and so
      on. */
  function Clocks(p: seq<bv8>, st: seq<bv8>, n: nat): (rs: seq<seq<bv8>>)
    requires 0 < |st| < |p|
    ensures |rs| == n + 1 && rs[0] == st
    ensures forall t :: 0 <= t < n ==> |rs[t]| == |st| && rs[t + 1] == Step(p, rs[t])
    decreases n
  {
    if n == 0 then [st] else [st] + Clocks(p, Step(p, st), n - 1)
  }

  lemma {:induction false} ClocksAt(p: seq<bv8>, st: seq<bv8>, n: nat, t: nat)
    requires 0 < |st| < |p| && t <= n
    ensures Clocks(p, st, n)[t] == Clock(p, st, t)
  {
    if t > 0 {
      ClocksAt(p, st, n, t - 1);
      ClockNext(p, st, t - 1, t);
    }
  }

  /** lfsr_period: clock 0...01 until the stopping test holds and count the
      clocks. The source loops for ever when no such clock exists; bound is a
      clock count at which the test holds, for termination. The result is
      the least positive such count. */
  method Period(p: seq<bv8>, len: nat, ghost bound: nat) returns (period: nat)
    requires 0 < len < |p| && 0 < bound && Stops(Clock(p, Start(len), bound))
    ensures 0 < period <= bound && Stops(Clock(p, Start(len), period))
    ensures forall t :: 0 < t < period ==> !Stops(Clock(p, Start(len), t))
  {
    var start := NewStart(len);
    ghost var rs := Clocks(p, start[..], bound);
    ClocksAt(p, start[..], bound, bound);
    period := Count(p, start, rs);
    ClocksAt(p, Start(len), bound, period);
    forall t | 0 < t < period
      ensures !Stops(Clock(p, Start(len), t))
    {
      ClocksAt(p, Start(len), bound, t);
    }
  }

  /** The loop of lfsr_period over the register start, whose states are rs. */
  method Count(p: seq<bv8>, start: array<bv8>, ghost rs: seq<seq<bv8>>) returns (period: nat)
    requires 0 < start.Length < |p| && 1 < |rs| && rs[0] == start[..] && Stops(rs[|rs| - 1])
    requires forall t :: 0 <= t < |rs| - 1 ==> |rs[t]| == start.Length && rs[t + 1] == Step(p, rs[t])
    modifies start
    ensures 0 < period < |rs| && Stops(rs[period])
    ensures forall t :: 0 < t < period ==> !Stops(rs[t])
  {
    var out := new bv8[1];
    period := 0;
    Lfsr(out, p, start, 1);
    period := period + 1;
    while !Stops(start[..])
      invariant 0 < period < |rs| && start[..] == rs[period]
      invariant forall t :: 0 < t < period ==> !Stops(rs[t])
      decreases |rs| - period
    {
      Lfsr(out, p, start, 1);
      period := period + 1;
    }
  }

  // ---------------------------------------------------------------------
  // Key loading

  /** One key-loading round of a register: clock it, then add the bit to
      cell 0. */
  function Load(p: seq<bv8>, st: seq<bv8>, bit: bv8): (s: seq<bv8>)
    requires 0 < |st| < |p|
    ensures |s| == |st|
  {
    var c := Step(p, st);
    c[0 := c[0] ^ bit]
  }

  /** The register after one loading round per bit of bits. */
  function LoadAll(p: seq<bv8>, st: seq<bv8>, bits: seq<bv8>): (s: seq<bv8>)
    requires 0 < |st| < |p|
    ensures |s| == |st|
  {
    if |bits| == 0 then st else Load(p, LoadAll(p, st, bits[..|bits| - 1]), bits[|bits| - 1])
  }

  lemma LoadAllNext(p: seq<bv8>, st: seq<bv8>, bits: seq<bv8>, b: bv8)
    requires 0 < |st| < |p|
    ensures LoadAll(p, st, bits + [b]) == Load(p, LoadAll(p, st, bits), b)
  {
    assert (bits + [b])[..|bits|] == bits;
  }

  /** The bank as a value: the cells of each register. */
  ghost function Bank(regs: seq<array<bv8>>): (b: seq<seq<bv8>>)
    reads regs
    ensures |b| == |regs| && forall j :: 0 <= j < |regs| ==> b[j] == regs[j][..]
  {
    seq(|regs|, j requires 0 <= j < |regs| reads if 0 <= j < |regs| then {regs[j]} else {} => regs[j][..])
  }

  /** The registers of a bank are distinct arrays, and register j has a
      polynomial vector of degree at least its length. */
  ghost predicate Fits(polys: seq<seq<bv8>>, regs: seq<array<bv8>>)
  {
    && |regs| <= |polys|
    && (forall j :: 0 <= j < |regs| ==> 0 < regs[j].Length < |polys[j]|)
    && (forall i, j :: 0 <= i < j < |regs| ==> regs[i] != regs[j])
  }

  /** One round of key_loading's inner loop over the registers. */
  method LoadRound(polys: seq<seq<bv8>>, regs: seq<array<bv8>>, bit: bv8)
    requires Fits(polys, regs)
    modifies regs
    ensures forall j :: 0 <= j < |regs| ==> regs[j][..] == Load(polys[j], old(regs[j][..]), bit)
  {
    var j := 0;
    while j != |regs|
      invariant j <= |regs|
      invariant forall t :: 0 <= t < j ==> regs[t][..] == Load(polys[t], old(regs[t][..]), bit)
      invariant forall t :: j <= t < |regs| ==> regs[t][..] == old(regs[t][..])
    {
      var _ := Update(polys[j], regs[j]);
      regs[j][0] := regs[j][0] ^ bit;
      j := j + 1;
    }
  }

  lemma {:induction false} LoadAllAppend(p: seq<bv8>, st: seq<bv8>, a: seq<bv8>, b: seq<bv8>)
    requires 0 < |st| < |p|
    ensures LoadAll(p, st, a + b) == LoadAll(p, LoadAll(p, st, a), b)
  {
    if |b| > 0 {
      var b' := b[..|b| - 1];
      assert a + b == (a + b') + [b[|b| - 1]];
      assert b == b' + [b[|b| - 1]];
      LoadAllAppend(p, st, a, b');
      LoadAllNext(p, st, a + b', b[|b| - 1]);
      LoadAllNext(p, LoadAll(p, st, a), b', b[|b| - 1]);
    } else {
      assert a + b == a;
    }
  }

  /** The loading rounds of key_loading over the bits of bits, each
      register passing through LoadAll. */
  method LoadRounds(polys: seq<seq<bv8>>, regs: seq<array<bv8>>, bits: seq<bv8>)
    requires Fits(polys, regs)
    modifies regs
    ensures forall j :: 0 <= j < |regs| ==> regs[j][..] == LoadAll(polys[j], old(regs[j][..]), bits)
  {
    var i := 0;
    while i != |bits|
      invariant i <= |bits|
      invariant forall j :: 0 <= j < |regs| ==> regs[j][..] == LoadAll(polys[j], old(regs[j][..]), bits[..i])
    {
      LoadRound(polys, regs, bits[i]);
      forall j | 0 <= j < |regs|
        ensures regs[j][..] == LoadAll(polys[j], old(regs[j][..]), bits[..i + 1])
      {
        assert bits[..i + 1] == bits[..i] + [bits[i]];
        LoadAllNext(polys[j], old(regs[j][..]), bits[..i], bits[i]);
      }
      i := i + 1;
    }
    assert bits[..i] == bits;
  }

  /** key_loading: n zeroed registers of the given degrees, then 64 rounds
      with the key bits and 22 rounds with the frame bits. */
  method KeyLoading(key: seq<bv8>, frame: seq<bv8>, polys: seq<seq<bv8>>, degrees: seq<nat>, n: nat)
    returns (regs: seq<array<bv8>>)
    requires 64 <= |key| && 22 <= |frame| && n <= |polys| && n <= |degrees|
    requires forall j :: 0 <= j < n ==> 0 < degrees[j] < |polys[j]|
    ensures |regs| == n && Fits(polys, regs)
    ensures forall j :: 0 <= j < n ==> fresh(regs[j]) && regs[j].Length == degrees[j]
    ensures forall j :: 0 <= j < n ==> regs[j][..] == LoadAll(polys[j], Cbc.Zeros(degrees[j]), key[..64] + frame[..22])
  {
    regs := [];
    while |regs| != n
      invariant |regs| <= n && Fits(polys, regs)
      invariant forall j :: 0 <= j < |regs| ==> fresh(regs[j]) && regs[j].Length == degrees[j]
      invariant forall j :: 0 <= j < |regs| ==> regs[j][..] == Cbc.Zeros(degrees[j])
    {
      var r := new bv8[degrees[|regs|]](_ => 0);
      regs := regs + [r];
    }
    LoadRounds(polys, regs, key[..64]);
    LoadRounds(polys, regs, frame[..22]);
    forall j | 0 <= j < n
      ensures regs[j][..] == LoadAll(polys[j], Cbc.Zeros(degrees[j]), key[..64] + frame[..22])
    {
      LoadAllAppend(polys[j], Cbc.Zeros(degrees[j]), key[..64], frame[..22]);
    }
  }

  // ---------------------------------------------------------------------
  // 0/1 registers stay 0/1

  lemma {:induction false} FeedbackBit(p: seq<bv8>, st: seq<bv8>, n: nat)
    requires n <= |st| && n < |p| && Bits(st)
    ensures Feedback(p, st, n) <= 1
  {
    if n > 0 {
      FeedbackBit(p, st, n - 1);
    }
  }

  lemma StepBits(p: seq<bv8>, st: seq<bv8>)
    requires 0 < |st| < |p| && Bits(st)
    ensures Bits(Step(p, st))
  {
    FeedbackBit(p, st, |st|);
  }

  lemma LoadBits(p: seq<bv8>, st: seq<bv8>, bit: bv8)
    requires 0 < |st| < |p| && Bits(st) && bit <= 1
    ensures Bits(Load(p, st, bit))
  {
    StepBits(p, st);
  }

  /** Loading 0/1 bits into a 0/1 register leaves it 0/1. */
  lemma {:induction false} LoadAllBits(p: seq<bv8>, st: seq<bv8>, bits: seq<bv8>)
    requires 0 < |st| < |p| && Bits(st) && Bits(bits)
    ensures Bits(LoadAll(p, st, bits))
  {
    if |bits| > 0 {
      LoadAllBits(p, st, bits[..|bits| - 1]);
      LoadBits(p, LoadAll(p, st, bits[..|bits| - 1]), bits[|bits| - 1]);
    }
  }

  // ---------------------------------------------------------------------
  // Majority clocking

  /** The number of nonzero cells: the votes a5_1_update and maj5_update
      count. */
  function Votes(cells: seq<bv8>): (v: nat)
    ensures v <= |cells|
  {
    if |cells| == 0 then 0 else Votes(cells[..|cells| - 1]) + (if cells[|cells| - 1] != 0 then 1 else 0)
  }

  /** The number of cells equal to m: the registers the majority rule clocks. */
  function Agree(cells: seq<bv8>, m: bv8): (a: nat)
    ensures a <= |cells|
  {
    if |cells| == 0 then 0 else Agree(cells[..|cells| - 1], m) + (if cells[|cells| - 1] == m then 1 else 0)
  }

  /** The majority bit: 1 when more than threshold cells are set. */
  function Majority(cells: seq<bv8>, threshold: nat): bv8
  {
    if Votes(cells) > threshold then 1 else 0
  }

  lemma {:induction false} VotesOfBits(cells: seq<bv8>)
    requires Bits(cells)
    ensures Agree(cells, 1) == Votes(cells) && Agree(cells, 0) == |cells| - Votes(cells)
  {
    if |cells| > 0 {
      VotesOfBits(cells[..|cells| - 1]);
    }
  }

  /** Over 2t + 1 cells of 0/1, majority clocking moves more than t
      registers: at least two of the three of A5/1 and three of the five of
      MAJ5. */
  lemma MajorityMoves(cells: seq<bv8>, threshold: nat)
    requires Bits(cells) && |cells| == 2 * threshold + 1
    ensures Agree(cells, Majority(cells, threshold)) > threshold
  {
    VotesOfBits(cells);
  }

  /** The shape of a bank: register j has a polynomial vector of degree at
      least its length. */
  ghost predicate Shaped(polys: seq<seq<bv8>>, bank: seq<seq<bv8>>)
  {
    |bank| <= |polys| && forall j :: 0 <= j < |bank| ==> 0 < |bank[j]| < |polys[j]|
  }

  /** The clock cells: cell clocks[j] of register j. */
  ghost predicate Clocked(bank: seq<seq<bv8>>, clocks: seq<nat>)
  {
    |clocks| == |bank| && forall j :: 0 <= j < |bank| ==> clocks[j] < |bank[j]|
  }

  /** The cells the majority rule reads. */
  function Taps(bank: seq<seq<bv8>>, clocks: seq<nat>): (cells: seq<bv8>)
    requires Clocked(bank, clocks)
    ensures |cells| == |bank|
  {
    seq(|bank|, j requires 0 <= j < |bank| => bank[j][clocks[j]])
  }

  /** a5_1_update and maj5_update: the registers whose clock cell equals
      the majority bit are clocked, the others keep their cells. */
  function MajorityStep(polys: seq<seq<bv8>>, bank: seq<seq<bv8>>, clocks: seq<nat>, threshold: nat): (b: seq<seq<bv8>>)
    requires Shaped(polys, bank) && Clocked(bank, clocks)
    ensures |b| == |bank| && forall j :: 0 <= j < |b| ==> |b[j]| == |bank[j]|
  {
    var m := Majority(Taps(bank, clocks), threshold);
    seq(|bank|, j requires 0 <= j < |bank| => if bank[j][clocks[j]] == m then Step(polys[j], bank[j]) else bank[j])
  }

  /** all5_update: every register is clocked. */
  function AllStep(polys: seq<seq<bv8>>, bank: seq<seq<bv8>>): (b: seq<seq<bv8>>)
    requires Shaped(polys, bank)
    ensures |b| == |bank| && forall j :: 0 <= j < |b| ==> |b[j]| == |bank[j]|
  {
    seq(|bank|, j requires 0 <= j < |bank| => Step(polys[j], bank[j]))
  }

  /** The counting loop of a5_1_update and maj5_update. */
  method CountVotes(regs: seq<array<bv8>>, clocks: seq<nat>) returns (votes: nat)
    requires Clocked(Bank(regs), clocks)
    ensures votes == Votes(Taps(Bank(regs), clocks))
  {
    ghost var cells := Taps(Bank(regs), clocks);
    votes := 0;
    var j := 0;
    while j != |regs|
      invariant j <= |regs| && votes == Votes(cells[..j])
    {
      assert cells[..j + 1][..j] == cells[..j];
      if regs[j][clocks[j]] != 0 {
        votes := votes + 1;
      }
      j := j + 1;
    }
    assert cells[..j] == cells;
  }

  /** a5_1_update and maj5_update over a bank of arrays; returns the
      majority bit, which maj5_update passes on. */
  method MajorityUpdate(polys: seq<seq<bv8>>, regs: seq<array<bv8>>, clocks: seq<nat>, threshold: nat) returns (m: bv8)
    requires Fits(polys, regs) && Clocked(Bank(regs), clocks)
    modifies regs
    ensures m == Majority(Taps(old(Bank(regs)), clocks), threshold)
    ensures Bank(regs) == MajorityStep(polys, old(Bank(regs)), clocks, threshold)
  {
    var votes := CountVotes(regs, clocks);
    m := if votes > threshold then 1 else 0;
    ClockAgreeing(polys, regs, clocks, threshold, m);
  }

  /** The clocking loop of a5_1_update and maj5_update, given the majority
      bit m. */
  method ClockAgreeing(polys: seq<seq<bv8>>, regs: seq<array<bv8>>, clocks: seq<nat>, threshold: nat, m: bv8)
    requires Fits(polys, regs) && Clocked(Bank(regs), clocks)
    requires m == Majority(Taps(Bank(regs), clocks), threshold)
    modifies regs
    ensures Bank(regs) == MajorityStep(polys, old(Bank(regs)), clocks, threshold)
  {
    ghost var bank := Bank(regs);
    ghost var next := MajorityStep(polys, bank, clocks, threshold);
    var j := 0;
    while j != |regs|
      invariant j <= |regs|
      invariant forall t :: 0 <= t < j ==> regs[t][..] == next[t]
      invariant forall t :: j <= t < |regs| ==> regs[t][..] == bank[t]
    {
      if regs[j][clocks[j]] == m {
        var _ := Update(polys[j], regs[j]);
      }
      j := j + 1;
    }
  }

  /** all5_update over a bank of arrays. */
  method AllUpdate(polys: seq<seq<bv8>>, regs: seq<array<bv8>>)
    requires Fits(polys, regs)
    modifies regs
    ensures Bank(regs) == AllStep(polys, old(Bank(regs)))
  {
    ghost var bank := Bank(regs);
    var j := 0;
    while j != |regs|
      invariant j <= |regs|
      invariant forall t :: 0 <= t < j ==> regs[t][..] == Step(polys[t], bank[t])
      invariant forall t :: j <= t < |regs| ==> regs[t][..] == bank[t]
    {
      var _ := Update(polys[j], regs[j]);
      j := j + 1;
    }
  }

  // ---------------------------------------------------------------------
  // The ciphers

  /** The register degrees, and the polynomial vectors of
      x^19 + x^18 + x^17 + x^14 + 1, x^22 + x^21 + 1,
      x^23 + x^22 + x^21 + x^8 + 1, x^11 + x^2 + 1 and
      x^13 + x^4 + x^3 + x + 1. A5/1 uses the first three. */
  const Degrees: seq<nat> := [19, 22, 23, 11, 13]
  const Polys: seq<seq<bv8>> := [
    [1, 0, 0, 0, 0, 0, 0, 0, 0, 0, 0, 0, 0, 0, 1, 0, 0, 1, 1, 1],
    [1, 0, 0, 0, 0, 0, 0, 0, 0, 0, 0, 0, 0, 0, 0, 0, 0, 0, 0, 0, 0, 1, 1],
    [1, 0, 0, 0, 0, 0, 0, 0, 1, 0, 0, 0, 0, 0, 0, 0, 0, 0, 0, 0, 0, 1, 1, 1],
    [1, 0, 1, 0, 0, 0, 0, 0, 0, 0, 0, 1],
    [1, 1, 0, 1, 1, 0, 0, 0, 0, 0, 0, 0, 0, 1]
  ]

  /** The 22 frame bits loaded after the key. */
  const Frame: seq<bv8> := [0, 0, 1, 0, 1, 1, 0, 0, 1, 0, 0, 0, 0, 0, 0, 0, 0, 0, 0, 0, 0, 0]

  /** The clock cells of A5/1 and MAJ5. */
  const A51Clocks: seq<nat> := [8, 10, 10]
  const Maj5Clocks: seq<nat> := [8, 10, 10, 4, 6]

  /** The clocks run after key loading before the first output bit. */
  const WarmUp: nat := 100

  datatype Cipher = A51 | Maj5 | All5

  /** The number of registers. */
  function Width(c: Cipher): nat
  {
    if c == A51 then 3 else 5
  }

  /** Polynomial vectors for the cipher's registers, each of degree above
      10 so that every clock cell exists. The cipher definitions below are
      stated for any such vectors; the ciphers of lfsr.c use Polys. */
  ghost predicate Config(c: Cipher, polys: seq<seq<bv8>>)
  {
    Width(c) <= |polys| && forall j :: 0 <= j < Width(c) ==> 11 < |polys[j]|
  }

  lemma {:induction false} ConstantsFit(c: Cipher)
    ensures Config(c, Polys) && |Frame| == 22 && Width(c) <= |Degrees|
    ensures forall j :: 0 <= j < Width(c) ==> Degrees[j] == |Polys[j]| - 1
  {
  }

  /** A bank of the cipher's registers, of the degrees of polys. */
  ghost predicate Good(c: Cipher, polys: seq<seq<bv8>>, bank: seq<seq<bv8>>)
  {
    |bank| == Width(c) <= |polys| && forall j :: 0 <= j < |bank| ==> 10 < |bank[j]| == |polys[j]| - 1
  }

  lemma GoodShaped(c: Cipher, polys: seq<seq<bv8>>, bank: seq<seq<bv8>>)
    requires Good(c, polys, bank)
    ensures Shaped(polys, bank)
    ensures c == A51 ==> Clocked(bank, A51Clocks)
    ensures c == Maj5 ==> Clocked(bank, Maj5Clocks)
  {
  }

  /** One clock of the cipher's bank. */
  function Advance(c: Cipher, polys: seq<seq<bv8>>, bank: seq<seq<bv8>>): (b: seq<seq<bv8>>)
    requires Good(c, polys, bank)
    ensures Good(c, polys, b)
  {
    GoodShaped(c, polys, bank);
    match c
    case A51 => MajorityStep(polys, bank, A51Clocks, 1)
    case Maj5 => MajorityStep(polys, bank, Maj5Clocks, 2)
    case All5 => AllStep(polys, bank)
  }

  /** The bank after n clocks. */
  function Run(c: Cipher, polys: seq<seq<bv8>>, bank: seq<seq<bv8>>, n: nat): (b: seq<seq<bv8>>)
    requires Good(c, polys, bank)
    ensures Good(c, polys, b)
    decreases n
  {
    if n == 0 then bank else Run(c, polys, Advance(c, polys, bank), n - 1)
  }

  /** The last cell of every register. */
  function Outputs(bank: seq<seq<bv8>>): (o: seq<bv8>)
    requires forall j :: 0 <= j < |bank| ==> 0 < |bank[j]|
    ensures |o| == |bank|
  {
    seq(|bank|, j requires 0 <= j < |bank| => Output(bank[j]))
  }

  /** The sum of the bits, in index order. */
  function XorAll(xs: seq<bv8>): bv8
  {
    if |xs| == 0 then 0 else XorAll(xs[..|xs| - 1]) ^ xs[|xs| - 1]
  }

  /** ALL5's combiner x0 x3 + x1 x2 + x1 x4 + x2 x3, with char products
      truncated to a byte.  Dafny's ^ binds tighter than *, so every
      product is parenthesised as C's precedence has it. */
  function Semibent(x: seq<bv8>): (b: bv8)
    requires |x| == 5
    ensures Bits(x) ==> b <= 1
  {
    assert Bits(x) ==> x[0] <= 1 && x[1] <= 1 && x[2] <= 1 && x[3] <= 1 && x[4] <= 1;
    (x[0] * x[3]) ^ (x[1] * x[2]) ^ (x[1] * x[4]) ^ (x[2] * x[3])
  }

  /** The output bit of a bank: the sum of the last cells for A5/1 and MAJ5,
      the semi-bent combiner of them for ALL5. */
  function Combine(c: Cipher, polys: seq<seq<bv8>>, bank: seq<seq<bv8>>): bv8
    requires Good(c, polys, bank)
  {
    if c == All5 then Semibent(Outputs(bank)) else XorAll(Outputs(bank))
  }

  /** The bank after key_loading with the first 64 key bits and the frame. */
  function Loaded(c: Cipher, polys: seq<seq<bv8>>, key: seq<bv8>): (bank: seq<seq<bv8>>)
    requires Config(c, polys) && 64 <= |key|
    ensures Good(c, polys, bank)
  {
    seq(Width(c), j requires 0 <= j < Width(c) => LoadAll(polys[j], Cbc.Zeros(|polys[j]| - 1), key[..64] + Frame))
  }

  /** The banks of n clocks: the bank, then the bank clocked once, and so
      on. */
  function Trace(c: Cipher, polys: seq<seq<bv8>>, bank: seq<seq<bv8>>, n: nat): (t: seq<seq<seq<bv8>>>)
    requires Good(c, polys, bank)
    ensures |t| == n + 1 && t[0] == bank
    ensures forall k :: 0 <= k <= n ==> Good(c, polys, t[k])
    ensures forall k :: 0 <= k < n ==> t[k + 1] == Advance(c, polys, t[k])
    decreases n
  {
    if n == 0 then [bank] else [bank] + Trace(c, polys, Advance(c, polys, bank), n - 1)
  }

  /** The output bits of a bank over n clocks: bit k is the output of the
      bank after k clocks. */
  function BankStream(c: Cipher, polys: seq<seq<bv8>>, bank: seq<seq<bv8>>, n: nat): (bs: seq<bv8>)
    requires Good(c, polys, bank)
    ensures |bs| == n
  {
    var t := Trace(c, polys, bank, n);
    seq(n, k requires 0 <= k < n => Combine(c, polys, t[k]))
  }

  /** The first n output bits of the cipher under key: the stream of the
      bank WarmUp clocks after key loading. */
  function KeyStream(c: Cipher, polys: seq<seq<bv8>>, key: seq<bv8>, n: nat): (bs: seq<bv8>)
    requires Config(c, polys) && 64 <= |key|
    ensures |bs| == n
  {
    BankStream(c, polys, Run(c, polys, Loaded(c, polys, key), WarmUp), n)
  }

  /** a5_1_update over the bank of a5_1. */
  method A51Update(polys: seq<seq<bv8>>, regs: seq<array<bv8>>)
    requires Fits(polys, regs) && Clocked(Bank(regs), A51Clocks)
    modifies regs
    ensures Bank(regs) == MajorityStep(polys, old(Bank(regs)), A51Clocks, 1)
  {
    var _ := MajorityUpdate(polys, regs, A51Clocks, 1);
  }

  /** maj5_update over the bank of maj5; returns the majority bit. */
  method Maj5Update(polys: seq<seq<bv8>>, regs: seq<array<bv8>>) returns (m: bv8)
    requires Fits(polys, regs) && Clocked(Bank(regs), Maj5Clocks)
    modifies regs
    ensures m == Majority(Taps(old(Bank(regs)), Maj5Clocks), 2)
    ensures Bank(regs) == MajorityStep(polys, old(Bank(regs)), Maj5Clocks, 2)
  {
    m := MajorityUpdate(polys, regs, Maj5Clocks, 2);
  }

  /** The update each cipher calls after every output bit and during the
      warm-up. */
  method Tick(c: Cipher, polys: seq<seq<bv8>>, regs: seq<array<bv8>>)
    requires Fits(polys, regs) && Good(c, polys, Bank(regs))
    modifies regs
    ensures Bank(regs) == Advance(c, polys, old(Bank(regs)))
  {
    GoodShaped(c, polys, Bank(regs));
    match c
    case A51 => A51Update(polys, regs);
    case Maj5 => var _ := Maj5Update(polys, regs);
    case All5 => AllUpdate(polys, regs);
  }

  /** The inner output loop of a5_1 and maj5: the sum of output() over
      the registers. */
  method XorOutputs(regs: seq<array<bv8>>) returns (b: bv8)
    requires forall j :: 0 <= j < |regs| ==> 0 < regs[j].Length
    ensures b == XorAll(Outputs(Bank(regs)))
  {
    ghost var outs := Outputs(Bank(regs));
    b := 0;
    var j := 0;
    while j != |regs|
      invariant j <= |regs| && b == XorAll(outs[..j])
    {
      assert outs[..j + 1][..j] == outs[..j];
      b := b ^ regs[j][regs[j].Length - 1];
      j := j + 1;
    }
    assert outs[..j] == outs;
  }

  /** The outputs array of all5: the last cell of each register. */
  method ReadOutputs(regs: seq<array<bv8>>) returns (outputs: array<bv8>)
    requires forall j :: 0 <= j < |regs| ==> 0 < regs[j].Length
    ensures fresh(outputs) && outputs[..] == Outputs(Bank(regs))
  {
    outputs := new bv8[|regs|];
    var j := 0;
    while j != |regs|
      invariant j <= |regs| && forall t :: 0 <= t < j ==> outputs[t] == Output(regs[t][..])
    {
      outputs[j] := regs[j][regs[j].Length - 1];
      j := j + 1;
    }
  }

  /** The output of all5: outputs[] filled from output(), then the
      combiner. */
  method SemibentOutputs(regs: seq<array<bv8>>) returns (b: bv8)
    requires |regs| == 5 && forall j :: 0 <= j < 5 ==> 0 < regs[j].Length
    ensures b == Semibent(Outputs(Bank(regs)))
  {
    var outputs := ReadOutputs(regs);
    b := Semibent(outputs[..]);
  }

  method Emit(c: Cipher, polys: seq<seq<bv8>>, regs: seq<array<bv8>>) returns (b: bv8)
    requires Good(c, polys, Bank(regs))
    ensures b == Combine(c, polys, Bank(regs))
  {
    if c == All5 {
      b := SemibentOutputs(regs);
    } else {
      b := XorOutputs(regs);
    }
  }

  /** The bank key_loading returns for the cipher is Loaded. */
  lemma LoadedBank(c: Cipher, polys: seq<seq<bv8>>, key: seq<bv8>, frame: seq<bv8>, bank: seq<seq<bv8>>)
    requires Config(c, polys) && 64 <= |key| && |bank| == Width(c) && frame == Frame[..22]
    requires forall j :: 0 <= j < Width(c) ==> bank[j] == LoadAll(polys[j], Cbc.Zeros(|polys[j]| - 1), key[..64] + frame)
    ensures bank == Loaded(c, polys, key)
  {
    assert Frame[..22] == Frame;
  }

  /** n clocks of the bank. */
  method Ticks(c: Cipher, polys: seq<seq<bv8>>, regs: seq<array<bv8>>, n: nat)
    requires Fits(polys, regs) && Good(c, polys, Bank(regs))
    modifies regs
    ensures Bank(regs) == Run(c, polys, old(Bank(regs)), n)
  {
    ghost var end := Run(c, polys, Bank(regs), n);
    var i := 0;
    while i != n
      invariant i <= n && Good(c, polys, Bank(regs)) && Run(c, polys, Bank(regs), n - i) == end
    {
      Tick(c, polys, regs);
      i := i + 1;
    }
  }

  /** One round of the output loop: the output bit goes to dest[i], then
      the bank is clocked. */
  method EmitStep(c: Cipher, polys: seq<seq<bv8>>, dest: array<bv8>, regs: seq<array<bv8>>, i: nat)
    requires i < dest.Length && Fits(polys, regs) && Good(c, polys, Bank(regs))
    requires forall j :: 0 <= j < |regs| ==> regs[j] != dest
    modifies dest, regs
    ensures dest[..] == old(dest[..])[i := Combine(c, polys, old(Bank(regs)))]
    ensures Bank(regs) == Advance(c, polys, old(Bank(regs)))
  {
    var b := Emit(c, polys, regs);
    dest[i] := b;
    Tick(c, polys, regs);
  }


  /** The output loop of the ciphers: n times, emit a bit into dest, then
      clock. */
  method EmitLoop(c: Cipher, polys: seq<seq<bv8>>, dest: array<bv8>, regs: seq<array<bv8>>, n: nat)
    requires n <= dest.Length && Fits(polys, regs) && Good(c, polys, Bank(regs))
    requires forall j :: 0 <= j < |regs| ==> regs[j] != dest
    modifies dest, regs
    ensures dest[..n] == BankStream(c, polys, old(Bank(regs)), n) && dest[n..] == old(dest[n..])
  {
    ghost var banks := Trace(c, polys, Bank(regs), n);
    ghost var all := BankStream(c, polys, Bank(regs), n);
    var i := 0;
    while i != n
      invariant i <= n && Bank(regs) == banks[i] && dest[..i] == all[..i] && dest[n..] == old(dest[n..])
    {
      ghost var before := dest[..];
      assert all[i] == Combine(c, polys, banks[i]);
      EmitStep(c, polys, dest, regs, i);
      Cbc.Written(before, dest[..], all, i);
      i := i + 1;
    }
  }

  /** The body shared by a5_1, maj5 and all5: key loading, WarmUp clocks,
      then per output bit: emit, then clock. */
  method Generate(c: Cipher, dest: array<bv8>, key: seq<bv8>, n: nat)
    requires 64 <= |key| && n <= dest.Length
    modifies dest
    ensures dest[..n] == KeyStream(c, Polys, key, n) && dest[n..] == old(dest[n..])
  {
    ConstantsFit(c);
    GenerateWith(c, Polys, Degrees, dest, key, n);
  }

  /** Generate over polynomial vectors polys of the given degrees. */
  method GenerateWith(c: Cipher, polys: seq<seq<bv8>>, degrees: seq<nat>, dest: array<bv8>, key: seq<bv8>, n: nat)
    requires Config(c, polys) && Width(c) <= |degrees| && 64 <= |key| && n <= dest.Length
    requires forall j :: 0 <= j < Width(c) ==> degrees[j] == |polys[j]| - 1
    modifies dest
    ensures dest[..n] == KeyStream(c, polys, key, n) && dest[n..] == old(dest[n..])
  {
    var regs := KeyLoading(key, Frame, polys, degrees, Width(c));
    LoadedBank(c, polys, key, Frame[..22], Bank(regs));
    Ticks(c, polys, regs, WarmUp);
    EmitLoop(c, polys, dest, regs, n);
  }

  /** a5_1(dest, key, n). */
  method A51Cipher(dest: array<bv8>, key: seq<bv8>, n: nat)
    requires 64 <= |key| && n <= dest.Length
    modifies dest
    ensures dest[..n] == KeyStream(A51, Polys, key, n) && dest[n..] == old(dest[n..])
  {
    Generate(A51, dest, key, n);
  }

  /** maj5(dest, key, n). */
  method Maj5Cipher(dest: array<bv8>, key: seq<bv8>, n: nat)
    requires 64 <= |key| && n <= dest.Length
    modifies dest
    ensures dest[..n] == KeyStream(Maj5, Polys, key, n) && dest[n..] == old(dest[n..])
  {
    Generate(Maj5, dest, key, n);
  }

  /** all5(dest, key, n). */
  method All5Cipher(dest: array<bv8>, key: seq<bv8>, n: nat)
    requires 64 <= |key| && n <= dest.Length
    modifies dest
    ensures dest[..n] == KeyStream(All5, Polys, key, n) && dest[n..] == old(dest[n..])
  {
    Generate(All5, dest, key, n);
  }

  // ---------------------------------------------------------------------
  // Properties of the ciphers

  /** Every register of the bank is 0/1. */
  ghost predicate BankBits(bank: seq<seq<bv8>>)
  {
    forall j :: 0 <= j < |bank| ==> Bits(bank[j])
  }

  /** Over a 0/1 bank of 2t + 1 registers, majority clocking moves more than
      t of them: the registers MajorityStep clocks are those whose clock
      cell agrees with the majority bit. */
  lemma MajorityClocksMost(polys: seq<seq<bv8>>, bank: seq<seq<bv8>>, clocks: seq<nat>, threshold: nat)
    requires Shaped(polys, bank) && Clocked(bank, clocks) && BankBits(bank) && |bank| == 2 * threshold + 1
    ensures Agree(Taps(bank, clocks), Majority(Taps(bank, clocks), threshold)) > threshold
  {
    var cells := Taps(bank, clocks);
    forall j | 0 <= j < |cells|
      ensures cells[j] <= 1
    {
      assert Bits(bank[j]);
    }
    MajorityMoves(cells, threshold);
  }

  lemma AdvanceBits(c: Cipher, polys: seq<seq<bv8>>, bank: seq<seq<bv8>>)
    requires Good(c, polys, bank) && BankBits(bank)
    ensures BankBits(Advance(c, polys, bank))
  {
    GoodShaped(c, polys, bank);
    var next := Advance(c, polys, bank);
    forall j | 0 <= j < |next|
      ensures Bits(next[j])
    {
      StepBits(polys[j], bank[j]);
    }
  }

  lemma {:induction false} RunBits(c: Cipher, polys: seq<seq<bv8>>, bank: seq<seq<bv8>>, n: nat)
    requires Good(c, polys, bank) && BankBits(bank)
    ensures BankBits(Run(c, polys, bank, n))
    decreases n
  {
    if n > 0 {
      var next := Advance(c, polys, bank);
      AdvanceBits(c, polys, bank);
      RunBits(c, polys, next, n - 1);
      assert Run(c, polys, bank, n) == Run(c, polys, next, n - 1);
    }
  }

  /** The banks of a trace are the bank clocked 0, 1, ... times. */
  lemma {:induction false} TraceRun(c: Cipher, polys: seq<seq<bv8>>, bank: seq<seq<bv8>>, n: nat, k: nat)
    requires Good(c, polys, bank) && k <= n
    ensures Trace(c, polys, bank, n)[k] == Run(c, polys, bank, k)
    decreases k
  {
    if k > 0 {
      var next := Advance(c, polys, bank);
      TraceRun(c, polys, next, n - 1, k - 1);
      assert Trace(c, polys, bank, n) == [bank] + Trace(c, polys, next, n - 1);
    }
  }

  lemma {:induction false} XorAllBit(xs: seq<bv8>)
    requires Bits(xs)
    ensures XorAll(xs) <= 1
  {
    if |xs| > 0 {
      XorAllBit(xs[..|xs| - 1]);
    }
  }

  /** On 0/1 inputs the combiner is x1 (x2 + x4) + x3 (x0 + x2): it is 1
      exactly when one, and only one, of those two products is 1. */
  lemma SemibentForm(x: seq<bv8>)
    requires |x| == 5 && Bits(x)
    ensures Semibent(x) == 1 <==> (x[1] == 1 && x[2] != x[4]) != (x[3] == 1 && x[0] != x[2])
  {
    assert x[0] <= 1 && x[1] <= 1 && x[2] <= 1 && x[3] <= 1 && x[4] <= 1;
  }

  /** The number of 0/1 inputs extending p on which the combiner is 1. */
  function Ones(p: seq<bv8>): nat
    requires |p| <= 5
    decreases 5 - |p|
  {
    if |p| == 5 then (if Semibent(p) == 1 then 1 else 0) else Ones(p + [0]) + Ones(p + [1])
  }

  /** Over the four choices of x3 and x4, the combiner is 1 twice when x1
      is set or x0 and x2 differ, and never otherwise. */
  lemma {:induction false} OnesThree(x0: bv8, x1: bv8, x2: bv8)
    requires x0 <= 1 && x1 <= 1 && x2 <= 1
    ensures Ones([x0, x1, x2]) == if x1 == 1 || x0 != x2 then 2 else 0
  {
    assert [x0, x1, x2] + [0] == [x0, x1, x2, 0];
    assert [x0, x1, x2] + [1] == [x0, x1, x2, 1];
    assert [x0, x1, x2, 0] + [0] == [x0, x1, x2, 0, 0];
    assert [x0, x1, x2, 0] + [1] == [x0, x1, x2, 0, 1];
    assert [x0, x1, x2, 1] + [0] == [x0, x1, x2, 1, 0];
    assert [x0, x1, x2, 1] + [1] == [x0, x1, x2, 1, 1];
    assert Ones([x0, x1, x2, 0]) == Ones([x0, x1, x2, 0, 0]) + Ones([x0, x1, x2, 0, 1]);
    assert Ones([x0, x1, x2, 1]) == Ones([x0, x1, x2, 1, 0]) + Ones([x0, x1, x2, 1, 1]);
  }

  /** The combiner is 1 on 12 of the 32 inputs in {0,1}^5: it is not
      balanced, which would take 16. */
  lemma {:induction false} SemibentWeight()
    ensures Ones([]) == 12
  {
    OnesOne(0);
    OnesOne(1);
    assert [] + [0 as bv8] == [0];
    assert [] + [1 as bv8] == [1];
  }

  /** Whatever x0, six of the sixteen completions give 1. */
  lemma {:induction false} OnesOne(x0: bv8)
    requires x0 <= 1
    ensures Ones([x0]) == 6
  {
    OnesTwo(x0, 0);
    OnesTwo(x0, 1);
    assert [x0] + [0] == [x0, 0];
    assert [x0] + [1] == [x0, 1];
  }

  /** Four of the eight completions give 1 when x1 is set, two otherwise. */
  lemma {:induction false} OnesTwo(x0: bv8, x1: bv8)
    requires x0 <= 1 && x1 <= 1
    ensures Ones([x0, x1]) == if x1 == 1 then 4 else 2
  {
    OnesThree(x0, x1, 0);
    OnesThree(x0, x1, 1);
    assert [x0, x1] + [0] == [x0, x1, 0];
    assert [x0, x1] + [1] == [x0, x1, 1];
  }

  /** A 0/1 bank outputs a 0/1 bit. */
  lemma CombineBit(c: Cipher, polys: seq<seq<bv8>>, bank: seq<seq<bv8>>)
    requires Good(c, polys, bank) && BankBits(bank)
    ensures Combine(c, polys, bank) <= 1
  {
    var outs := Outputs(bank);
    forall j | 0 <= j < |outs|
      ensures outs[j] <= 1
    {
      assert Bits(bank[j]);
    }
    if c != All5 {
      XorAllBit(outs);
    }
  }

  /** A 0/1 key loads a 0/1 bank. */
  lemma LoadedBits(c: Cipher, polys: seq<seq<bv8>>, key: seq<bv8>)
    requires Config(c, polys) && 64 <= |key| && Bits(key[..64])
    ensures BankBits(Loaded(c, polys, key))
  {
    var bank := Loaded(c, polys, key);
    var bits := key[..64] + Frame;
    assert Bits(bits) by {
      forall i | 0 <= i < |bits|
        ensures bits[i] <= 1
      {
        if i >= 64 {
          assert bits[i] == Frame[i - 64];
        }
      }
    }
    forall j | 0 <= j < |bank|
      ensures Bits(bank[j])
    {
      LoadAllBits(polys[j], Cbc.Zeros(|polys[j]| - 1), bits);
    }
  }

  /** Bit k of the key stream is the output of the bank loaded with the key,
      clocked WarmUp times and then k more times. */
  lemma KeyStreamAt(c: Cipher, polys: seq<seq<bv8>>, key: seq<bv8>, n: nat, k: nat)
    requires Config(c, polys) && 64 <= |key| && k < n
    ensures KeyStream(c, polys, key, n)[k] == Combine(c, polys, Run(c, polys, Run(c, polys, Loaded(c, polys, key), WarmUp), k))
  {
    TraceRun(c, polys, Run(c, polys, Loaded(c, polys, key), WarmUp), n, k);
  }

  /** A 0/1 key gives a 0/1 key stream. */
  lemma KeyStreamBits(c: Cipher, polys: seq<seq<bv8>>, key: seq<bv8>, n: nat)
    requires Config(c, polys) && 64 <= |key| && Bits(key[..64])
    ensures Bits(KeyStream(c, polys, key, n))
  {
    var warm := Run(c, polys, Loaded(c, polys, key), WarmUp);
    LoadedBits(c, polys, key);
    RunBits(c, polys, Loaded(c, polys, key), WarmUp);
    forall k | 0 <= k < n
      ensures KeyStream(c, polys, key, n)[k] <= 1
    {
      KeyStreamAt(c, polys, key, n, k);
      RunBits(c, polys, warm, k);
      CombineBit(c, polys, Run(c, polys, warm, k));
    }
  }

  /** Asking for fewer bits gives a prefix of the same stream. */
  lemma KeyStreamPrefix(c: Cipher, polys: seq<seq<bv8>>, key: seq<bv8>, m: nat, n: nat)
    requires Config(c, polys) && 64 <= |key| && m <= n
    ensures KeyStream(c, polys, key, n)[..m] == KeyStream(c, polys, key, m)
  {
    var long, short := KeyStream(c, polys, key, n), KeyStream(c, polys, key, m);
    forall k | 0 <= k < m
      ensures long[k] == short[k]
    {
      KeyStreamAt(c, polys, key, n, k);
      KeyStreamAt(c, polys, key, m, k);
    }
  }

  // ---------------------------------------------------------------------
  // The register of x^3 + x^2 + 1 from test_lfsr.c

  lemma Feedback1011(a: bv8, b: bv8, c: bv8)
    ensures Feedback([1, 0, 1, 1], [a, b, c], 3) == b ^ c
  {
    assert Feedback([1, 0, 1, 1], [a, b, c], 1) == 0;
  }

  lemma Step1011(a: bv8, b: bv8, c: bv8)
    ensures Step([1, 0, 1, 1], [a, b, c]) == [b ^ c, a, b]
  {
    Feedback1011(a, b, c);
    assert [a, b, c][..2] == [a, b];
  }

  /** Ten clocks of x^3 + x^2 + 1 from 1 0 1 give 1 1 0 0 1 0 1 1 1 0. */
  lemma {:induction false} LfsrVector()
    ensures Stream([1, 0, 1, 1], [1, 0, 1], 10) == [1, 1, 0, 0, 1, 0, 1, 1, 1, 0]
  {
    ClockNext([1, 0, 1, 1], [1, 0, 1], 0, 1);
    StreamNext([1, 0, 1, 1], [1, 0, 1], 0, 1);
    Step1011(1, 0, 1);
    ClockNext([1, 0, 1, 1], [1, 0, 1], 1, 2);
    StreamNext([1, 0, 1, 1], [1, 0, 1], 1, 2);
    Step1011(1, 1, 0);
    ClockNext([1, 0, 1, 1], [1, 0, 1], 2, 3);
    StreamNext([1, 0, 1, 1], [1, 0, 1], 2, 3);
    Step1011(1, 1, 1);
    ClockNext([1, 0, 1, 1], [1, 0, 1], 3, 4);
    StreamNext([1, 0, 1, 1], [1, 0, 1], 3, 4);
    Step1011(0, 1, 1);
    ClockNext([1, 0, 1, 1], [1, 0, 1], 4, 5);
    StreamNext([1, 0, 1, 1], [1, 0, 1], 4, 5);
    Step1011(0, 0, 1);
    ClockNext([1, 0, 1, 1], [1, 0, 1], 5, 6);
    StreamNext([1, 0, 1, 1], [1, 0, 1], 5, 6);
    Step1011(1, 0, 0);
    ClockNext([1, 0, 1, 1], [1, 0, 1], 6, 7);
    StreamNext([1, 0, 1, 1], [1, 0, 1], 6, 7);
    Step1011(0, 1, 0);
    ClockNext([1, 0, 1, 1], [1, 0, 1], 7, 8);
    StreamNext([1, 0, 1, 1], [1, 0, 1], 7, 8);
    Step1011(1, 0, 1);
    ClockNext([1, 0, 1, 1], [1, 0, 1], 8, 9);
    StreamNext([1, 0, 1, 1], [1, 0, 1], 8, 9);
    Step1011(1, 1, 0);
    ClockNext([1, 0, 1, 1], [1, 0, 1], 9, 10);
    StreamNext([1, 0, 1, 1], [1, 0, 1], 9, 10);
    Step1011(1, 1, 1);
  }

  /** x^3 + x^2 + 1 is primitive: from 0 0 1 the stopping test of
      lfsr_period first holds after 7 clocks, so Period returns 7. */
  lemma PeriodVector()
    ensures Start(3) == [0, 0, 1]
    ensures Stops(Clock([1, 0, 1, 1], Start(3), 7))
    ensures forall t :: 0 < t < 7 ==> !Stops(Clock([1, 0, 1, 1], Start(3), t))
  {
    assert Start(3) == [0, 0, 1];
  }

  /** Ten clocks of x^3 + x^2 + 1 from 1 1 0 give 1 0 0 1 0 1 1 1 0 0. */
  lemma {:induction false} LfsrVectorTwo()
    ensures Stream([1, 0, 1, 1], [1, 1, 0], 10) == [1, 0, 0, 1, 0, 1, 1, 1, 0, 0]
  {
    ClockNext([1, 0, 1, 1], [1, 1, 0], 0, 1);
    StreamNext([1, 0, 1, 1], [1, 1, 0], 0, 1);
    Step1011(1, 1, 0);
    ClockNext([1, 0, 1, 1], [1, 1, 0], 1, 2);
    StreamNext([1, 0, 1, 1], [1, 1, 0], 1, 2);
    Step1011(1, 1, 1);
    ClockNext([1, 0, 1, 1], [1, 1, 0], 2, 3);
    StreamNext([1, 0, 1, 1], [1, 1, 0], 2, 3);
    Step1011(0, 1, 1);
    ClockNext([1, 0, 1, 1], [1, 1, 0], 3, 4);
    StreamNext([1, 0, 1, 1], [1, 1, 0], 3, 4);
    Step1011(0, 0, 1);
    ClockNext([1, 0, 1, 1], [1, 1, 0], 4, 5);
    StreamNext([1, 0, 1, 1], [1, 1, 0], 4, 5);
    Step1011(1, 0, 0);
    ClockNext([1, 0, 1, 1], [1, 1, 0], 5, 6);
    StreamNext([1, 0, 1, 1], [1, 1, 0], 5, 6);
    Step1011(0, 1, 0);
    ClockNext([1, 0, 1, 1], [1, 1, 0], 6, 7);
    StreamNext([1, 0, 1, 1], [1, 1, 0], 6, 7);
    Step1011(1, 0, 1);
    ClockNext([1, 0, 1, 1], [1, 1, 0], 7, 8);
    StreamNext([1, 0, 1, 1], [1, 1, 0], 7, 8);
    Step1011(1, 1, 0);
    ClockNext([1, 0, 1, 1], [1, 1, 0], 8, 9);
    StreamNext([1, 0, 1, 1], [1, 1, 0], 8, 9);
    Step1011(1, 1, 1);
    ClockNext([1, 0, 1, 1], [1, 1, 0], 9, 10);
    StreamNext([1, 0, 1, 1], [1, 1, 0], 9, 10);
    Step1011(0, 1, 1);
  }
}
