/** The SplitMix64 generator over 64-bit words, as natural numbers below 2^64: `>>` divides by a
    power of two, `wrapping_add` and `wrapping_mul` reduce modulo 2^64. */
module SplitMix {
  import opened Common
  import opened Powers

  const M: nat := 0x1_0000_0000_0000_0000
  const GAMMA: nat := 0x9e3779b97f4a7c15
  const MUL1: nat := 0xbf58476d1ce4e5b9
  const MUL2: nat := 0x94d049bb133111eb

  // Inverses modulo 2^64 of the three odd constants.
  const GAMMA_INV: nat := 0xf1de83e19937733d
  const MUL1_INV: nat := 0x96de1b173f119089
  const MUL2_INV: nat := 0x319642b2d24d8ec3

  /** Bitwise exclusive or. */
  function Xor(a: nat, b: nat): nat
    decreases a + b
  {
    if a == 0 && b == 0 then 0
    else 2 * Xor(a / 2, b / 2) + (if a % 2 == b % 2 then 0 else 1)
  }

  /** `z ^ (z >> k)` with `p` = 2^k. */
  function XorShift(z: nat, p: nat): nat
    requires p > 0
  {
    Xor(z, z / p)
  }

  function Mix(z0: nat): nat {
    var z1 := XorShift(z0, 0x4000_0000) * MUL1 % M;    // >> 30
    var z2 := XorShift(z1, 0x800_0000) * MUL2 % M;     // >> 27
    XorShift(z2, 0x8000_0000)                          // >> 31
  }

  // ---- Xorshift is a bijection ----

  /** The word whose xorshift is `y`, top bit first. */
  function UnXorShift(y: nat, p: nat): nat
    requires p >= 2
  {
    if y == 0 then 0
    else
      var h := UnXorShift(y / 2, p);
      2 * h + (if y % 2 == (h / (p / 2)) % 2 then 0 else 1)
  }

  lemma HalfThenShift(z: nat, p: nat)
    requires p >= 2 && p % 2 == 0
    ensures z / p == z / 2 / (p / 2)
    ensures z / p / 2 == z / 2 / p
  {
    DivDiv(z, 2, p / 2);
    DivDiv(z, 2, p);
    DivDiv(z, p, 2);
  }

  lemma DivDiv(x: nat, a: nat, b: nat)
    requires a > 0 && b > 0
    ensures a * b > 0 && x / a / b == x / (a * b)
  {
    var q := x / a / b;
    var r := x / a % b;
    assert x / a == b * q + r;
    assert x == a * (b * q + r) + x % a;
    assert a * (b * q + r) == (a * b) * q + a * r;
    MulBound(a, r, b);
    assert x == (a * b) * q + (a * r + x % a) && 0 <= a * r + x % a < a * b;
    DivUnique(x, a * b, q, a * r + x % a);
  }

  lemma MulBound(a: nat, r: nat, b: nat)
    requires r < b
    ensures a * r + a <= a * b
  {
    assert a * (r + 1) <= a * b;
  }

  lemma XorShiftHalves(z: nat, p: nat)
    requires p >= 2 && p % 2 == 0
    ensures XorShift(z, p) / 2 == XorShift(z / 2, p)
    ensures XorShift(z, p) % 2 == if z % 2 == (z / p) % 2 then 0 else 1
  {
    HalfThenShift(z, p);
    XorHalves(z, z / p);
  }

  lemma XorHalves(a: nat, b: nat)
    ensures Xor(a, b) / 2 == Xor(a / 2, b / 2)
    ensures Xor(a, b) % 2 == if a % 2 == b % 2 then 0 else 1
  {
  }

  lemma {:induction false} UnshiftShift(z: nat, p: nat)
    requires p >= 2 && p % 2 == 0
    ensures UnXorShift(XorShift(z, p), p) == z
  {
    if z == 0 {
      assert 0 / p == 0;
    } else {
      UnshiftShift(z / 2, p);
      XorShiftHalves(z, p);
      HalfThenShift(z, p);
    }
  }

  lemma {:induction false} ShiftUnshift(y: nat, p: nat)
    requires p >= 2 && p % 2 == 0
    ensures XorShift(UnXorShift(y, p), p) == y
  {
    var z := UnXorShift(y, p);
    if y == 0 {
      assert 0 / p == 0;
    } else {
      ShiftUnshift(y / 2, p);
      assert z / 2 == UnXorShift(y / 2, p);
      XorShiftHalves(z, p);
      HalfThenShift(z, p);
    }
  }

  lemma {:induction false} XorFits(a: nat, b: nat, k: nat)
    requires a < Pow2(k) && b < Pow2(k)
    ensures Xor(a, b) < Pow2(k)
  {
    if k > 0 {
      XorFits(a / 2, b / 2, k - 1);
    }
  }

  lemma {:induction false} UnshiftFits(y: nat, p: nat, k: nat)
    requires p >= 2 && y < Pow2(k)
    ensures UnXorShift(y, p) < Pow2(k)
  {
    if k > 0 {
      UnshiftFits(y / 2, p, k - 1);
    }
  }

  lemma MIsPow2()
    ensures Pow2(64) == M
  {
    assert Pow2(8) == 0x100;
    Pow2Adds(8, 8);
    Pow2Adds(16, 16);
    Pow2Adds(32, 32);
  }

  lemma DivShrinks(z: nat, p: nat)
    requires p > 0
    ensures 0 <= z / p <= z
  {
    var q := z / p;
    assert z == q * p + z % p;
    MulMono(q, 1, p);
  }

  lemma XorShiftFits(z: nat, p: nat)
    requires z < M && p > 0
    ensures XorShift(z, p) < M
  {
    MIsPow2();
    DivShrinks(z, p);
    XorFits(z, z / p, 64);
  }

  // ---- Multiplication by an odd constant is a bijection ----

  lemma ModDrops(x: int, q: int)
    ensures (x + q * M) % M == x % M
  {
  }

  /** Multiplying by a constant and then by its inverse gives the word back. */
  lemma MulUndone(z: nat, c: nat, inv: nat, k: nat)
    requires z < M && c * inv == 1 + k * M
    ensures z * c % M * inv % M == z
  {
    var q := z * c / M;
    assert z * c % M == z * c - q * M;
    ProductOfDifference(z * c, q, inv);
    ProductWithInverse(z, c, inv, k);
    Factored(z * k, q * inv);
    ModDrops(z, z * k - q * inv);
  }

  lemma ProductOfDifference(x: int, q: int, inv: int)
    ensures (x - q * M) * inv == x * inv - (q * inv) * M
  {
  }

  lemma ProductWithInverse(z: int, c: int, inv: int, k: int)
    requires c * inv == 1 + k * M
    ensures z * c * inv == z + (z * k) * M
  {
    assert z * c * inv == z * (c * inv);
    assert z * (1 + k * M) == z + z * (k * M);
  }

  lemma Factored(a: int, b: int)
    ensures a * M - b * M == (a - b) * M
  {
  }

  const K0: nat := GAMMA * GAMMA_INV / M
  const K1: nat := MUL1 * MUL1_INV / M
  const K2: nat := MUL2 * MUL2_INV / M

  lemma Inverses()
    ensures GAMMA * GAMMA_INV == 1 + K0 * M
    ensures MUL1 * MUL1_INV == 1 + K1 * M
    ensures MUL2 * MUL2_INV == 1 + K2 * M
  {
  }

  // ---- Mix is a permutation of the 64-bit words ----

  function Unmix(w: nat): nat {
    var z2 := UnXorShift(w, 0x8000_0000);
    var z1 := UnXorShift(z2 * MUL2_INV % M, 0x800_0000);
    UnXorShift(z1 * MUL1_INV % M, 0x4000_0000)
  }

  lemma UnmixMix(z: nat)
    requires z < M
    ensures Mix(z) < M && Unmix(Mix(z)) == z
  {
    Inverses();
    var y1 := XorShift(z, 0x4000_0000);
    XorShiftFits(z, 0x4000_0000);
    MulUndone(y1, MUL1, MUL1_INV, K1);
    UnshiftShift(z, 0x4000_0000);
    var z1 := y1 * MUL1 % M;
    var y2 := XorShift(z1, 0x800_0000);
    XorShiftFits(z1, 0x800_0000);
    MulUndone(y2, MUL2, MUL2_INV, K2);
    UnshiftShift(z1, 0x800_0000);
    var z2 := y2 * MUL2 % M;
    XorShiftFits(z2, 0x8000_0000);
    UnshiftShift(z2, 0x8000_0000);
  }

  lemma UnshiftFitsWord(y: nat, p: nat)
    requires p >= 2 && y < M
    ensures UnXorShift(y, p) < M
  {
    MIsPow2();
    UnshiftFits(y, p, 64);
  }

  lemma MixUnmix(w: nat)
    requires w < M
    ensures Unmix(w) < M && Mix(Unmix(w)) == w
  {
    Inverses();
    var z2 := UnXorShift(w, 0x8000_0000);
    UnshiftFitsWord(w, 0x8000_0000);
    ShiftUnshift(w, 0x8000_0000);
    var y2 := z2 * MUL2_INV % M;
    MulUndone(z2, MUL2_INV, MUL2, K2);
    var z1 := UnXorShift(y2, 0x800_0000);
    UnshiftFitsWord(y2, 0x800_0000);
    ShiftUnshift(y2, 0x800_0000);
    var y1 := z1 * MUL1_INV % M;
    MulUndone(z1, MUL1_INV, MUL1, K1);
    UnshiftFitsWord(y1, 0x4000_0000);
    ShiftUnshift(y1, 0x4000_0000);
  }

  // ---- Mix by bits ----

  /** Bit `i` of a word. */
  function Bit(w: nat, i: nat): nat {
    w / Pow2(i) % 2
  }

  lemma BitZero(w: nat)
    ensures Bit(w, 0) == w % 2
  {
  }

  lemma BitOfHalf(w: nat, i: nat)
    ensures Bit(w, i + 1) == Bit(w / 2, i)
  {
    DivDiv(w, 2, Pow2(i));
  }

  lemma BitOfShifted(w: nat, k: nat, shifted: nat, i: nat)
    requires shifted == w / Pow2(k)
    ensures Bit(shifted, i) == Bit(w, i + k)
  {
    DivDiv(w, Pow2(k), Pow2(i));
    Pow2Adds(k, i);
  }

  lemma LowBitOfXor(a: nat, b: nat)
    ensures Bit(Xor(a, b), 0) == (Bit(a, 0) + Bit(b, 0)) % 2
  {
    XorHalves(a, b);
    BitZero(a);
    BitZero(b);
    BitZero(Xor(a, b));
  }

  lemma {:induction false} BitOfXor(a: nat, b: nat, i: nat)
    ensures Bit(Xor(a, b), i) == (Bit(a, i) + Bit(b, i)) % 2
    decreases i
  {
    if i == 0 {
      LowBitOfXor(a, b);
    } else {
      XorHalves(a, b);
      BitOfHalf(a, i - 1);
      BitOfHalf(b, i - 1);
      BitOfHalf(Xor(a, b), i - 1);
      BitOfXor(a / 2, b / 2, i - 1);
    }
  }

  /** A word is determined by its bits. */
  lemma {:induction false} BitsDetermine(a: nat, b: nat)
    requires forall i: nat :: Bit(a, i) == Bit(b, i)
    ensures a == b
    decreases a + b
  {
    if a + b > 0 {
      BitZero(a);
      BitZero(b);
      assert Bit(a, 0) == Bit(b, 0);
      forall i: nat
        ensures Bit(a / 2, i) == Bit(b / 2, i)
      {
        BitOfHalf(a, i);
        BitOfHalf(b, i);
        assert Bit(a, i + 1) == Bit(b, i + 1);
      }
      BitsDetermine(a / 2, b / 2);
    }
  }

  /** The shifts of the source as divisors. */
  lemma ShiftDivisors()
    ensures Pow2(30) == 0x4000_0000 && Pow2(27) == 0x800_0000 && Pow2(31) == 0x8000_0000
  {
    assert Pow2(8) == 0x100 && Pow2(7) == 0x80 && Pow2(3) == 8 && Pow2(6) == 0x40;
    Pow2Adds(8, 8);
    Pow2Adds(16, 8);
    Pow2Adds(24, 3);
    Pow2Adds(24, 6);
    Pow2Adds(24, 7);
  }

  /** `y` is `z ^ (z >> k)`, bit by bit. */
  ghost predicate IsXorShift(y: nat, z: nat, k: nat) {
    forall i: nat :: Bit(y, i) == (Bit(z, i) + Bit(z, i + k)) % 2
  }

  lemma XorShiftIs(z: nat, k: nat)
    ensures IsXorShift(XorShift(z, Pow2(k)), z, k)
  {
    DivShrinks(z, Pow2(k));
    var shifted: nat := z / Pow2(k);
    forall i: nat
      ensures Bit(XorShift(z, Pow2(k)), i) == (Bit(z, i) + Bit(z, i + k)) % 2
    {
      BitOfXor(z, shifted, i);
      BitOfShifted(z, k, shifted, i);
    }
  }

  lemma XorShiftUnique(x: nat, y: nat, z: nat, k: nat)
    requires IsXorShift(x, z, k) && IsXorShift(y, z, k)
    ensures x == y
  {
    forall i: nat
      ensures Bit(x, i) == Bit(y, i)
    {
      assert Bit(x, i) == (Bit(z, i) + Bit(z, i + k)) % 2;
    }
    BitsDetermine(x, y);
  }

  /** Which permutation the mixing is: shift by 30 and multiply, shift by 27 and multiply, shift by
      31, with the two multipliers of SplitMix64, each xorshift read bit by bit. */
  lemma MixByBits(z: nat, y1: nat, z1: nat, y2: nat, z2: nat, w: nat)
    requires IsXorShift(y1, z, 30) && z1 == y1 * 0xbf58476d1ce4e5b9 % 0x1_0000_0000_0000_0000
    requires IsXorShift(y2, z1, 27) && z2 == y2 * 0x94d049bb133111eb % 0x1_0000_0000_0000_0000
    ensures w == Mix(z) <==> IsXorShift(w, z2, 31)
  {
    ShiftDivisors();
    XorShiftIs(z, 30);
    XorShiftUnique(y1, XorShift(z, 0x4000_0000), z, 30);
    XorShiftIs(z1, 27);
    XorShiftUnique(y2, XorShift(z1, 0x800_0000), z1, 27);
    XorShiftIs(z2, 31);
    assert Mix(z) == XorShift(z2, 0x8000_0000);
    if IsXorShift(w, z2, 31) {
      XorShiftUnique(w, Mix(z), z2, 31);
    }
  }

  // ---- The stream of outputs ----

  /** The state the i-th `fetch_add` after seeding reads. */
  function StateAt(seed: nat, i: nat): nat {
    (seed + i * GAMMA) % M
  }

  /** What the call that made the i-th `fetch_add` returns. */
  function Output(seed: nat, i: nat): nat {
    Mix((StateAt(seed, i) + GAMMA) % M)
  }

  lemma OutputIs(seed: nat, i: nat)
    ensures Output(seed, i) == Mix(StateAt(seed, i + 1)) && Output(seed, i) < M
  {
    NextState(seed, i);
    UnmixMix(StateAt(seed, i + 1));
  }

  lemma NextState(seed: nat, i: nat)
    ensures (StateAt(seed, i) + GAMMA) % M == StateAt(seed, i + 1)
  {
    var x := seed + i * GAMMA;
    assert x == x / M * M + x % M;
    ModDrops(x % M + GAMMA, x / M);
    assert seed + (i + 1) * GAMMA == x + GAMMA;
  }

  /** The word call `i` returns, from the seed, with every number of the algorithm spelt out. */
  lemma OutputByBits(seed: nat, i: nat, y1: nat, z1: nat, y2: nat, z2: nat, w: nat)
    requires IsXorShift(y1, (seed + (i + 1) * 0x9e3779b97f4a7c15) % 0x1_0000_0000_0000_0000, 30)
    requires z1 == y1 * 0xbf58476d1ce4e5b9 % 0x1_0000_0000_0000_0000
    requires IsXorShift(y2, z1, 27) && z2 == y2 * 0x94d049bb133111eb % 0x1_0000_0000_0000_0000
    ensures w == Output(seed, i) <==> IsXorShift(w, z2, 31)
  {
    OutputIs(seed, i);
    MixByBits(StateAt(seed, i + 1), y1, z1, y2, z2, w);
  }

  /** Two calls return the same word exactly when their numbers agree modulo 2^64: any 2^64
      consecutive calls return pairwise different words, and the period is exactly 2^64. */
  lemma NeverRepeats(seed: nat, i: nat, j: nat)
    ensures Output(seed, i) == Output(seed, j) <==> i % M == j % M
  {
    OutputIs(seed, i);
    OutputIs(seed, j);
    UnmixMix(StateAt(seed, i + 1));
    UnmixMix(StateAt(seed, j + 1));
    StatesAgree(seed, i + 1, j + 1);
    assert (i + 1) % M == (j + 1) % M <==> i % M == j % M by {
      SameResidue(i, j);
      SameResidue(i + 1, j + 1);
    }
  }

  lemma SameResidue(a: int, b: int)
    ensures a % M == b % M <==> (a - b) % M == 0
  {
  }

  lemma StatesAgree(seed: nat, i: nat, j: nat)
    ensures StateAt(seed, i) == StateAt(seed, j) <==> i % M == j % M
  {
    SameResidue(i, j);
    SameResidue(seed + i * GAMMA, seed + j * GAMMA);
    var d := i - j;
    assert (seed + i * GAMMA) - (seed + j * GAMMA) == d * GAMMA;
    if d % M == 0 {
      var q := d / M;
      assert d == q * M;
      assert d * GAMMA == (q * GAMMA) * M;
      ModDrops(0, q * GAMMA);
    }
    if d * GAMMA % M == 0 {
      var q := d * GAMMA / M;
      Inverses();
      assert d * GAMMA == q * M;
      assert d * (GAMMA * GAMMA_INV) == (q * GAMMA_INV) * M by {
        assert d * (GAMMA * GAMMA_INV) == (d * GAMMA) * GAMMA_INV;
        assert (q * M) * GAMMA_INV == (q * GAMMA_INV) * M;
      }
      assert d * (1 + K0 * M) == d + (d * K0) * M;
      assert d == (q * GAMMA_INV - d * K0) * M;
      ModDrops(0, q * GAMMA_INV - d * K0);
    }
  }

  /** Some call before the 2^64-th reads the state before `t`. */
  lemma EveryStateOccurs(seed: nat, t: nat) returns (i: nat)
    requires t < M
    ensures i < M && StateAt(seed, i + 1) == t
  {
    var d := (t - seed) % M;
    var e := d * GAMMA_INV % M;
    i := (e - 1) % M;
    Inverses();
    MulUndone(d, GAMMA_INV, GAMMA, K0);
    ResidueSum(seed, e * GAMMA, d);
    ResidueSum(seed, t - seed, d);
    OneBefore(e, i);
    StatesAgree(seed, i + 1, e);
  }

  lemma OneBefore(e: nat, i: nat)
    requires e < M && i == (e - 1) % M
    ensures (i + 1) % M == e % M
  {
  }

  /** Every 64-bit word is returned by some call among the first 2^64. */
  lemma EveryWordOccurs(seed: nat, w: nat) returns (i: nat)
    requires w < M
    ensures i < M && Output(seed, i) == w
  {
    MixUnmix(w);
    i := EveryStateOccurs(seed, Unmix(w));
    OutputIs(seed, i);
  }

  lemma ResidueSum(a: int, b: int, d: int)
    requires b % M == d % M
    ensures (a + b) % M == (a + d) % M
  {
    SameResidue(b, d);
    SameResidue(a + b, a + d);
  }

  // ---- Interleaved calls ----

  datatype Pending = Pending(call: nat, s: nat)

  /** Calls are numbered by their `fetch_add`; `returned` holds the words already handed out. */
  datatype State = State(prng: nat, calls: nat, pending: map<nat, Pending>, returned: map<nat, nat>)

  datatype Step = Fetch(cpu: nat) | Return(cpu: nat)

  predicate Enabled(st: State, step: Step) {
    step.Fetch? <==> step.cpu !in st.pending
  }

  function Next(st: State, step: Step): State
    requires Enabled(st, step)
  {
    match step
    case Fetch(c) =>
      st.(prng := (st.prng + GAMMA) % M, calls := st.calls + 1, pending := st.pending[c := Pending(st.calls, st.prng)])
    case Return(c) =>
      st.(returned := st.returned[st.pending[c].call := Mix((st.pending[c].s + GAMMA) % M)],
          pending := st.pending - {c})
  }

  ghost predicate IsRun(run: seq<State>, steps: seq<Step>) {
    && |run| == |steps| + 1
    && forall i :: 0 <= i < |steps| ==> Enabled(run[i], steps[i]) && run[i + 1] == Next(run[i], steps[i])
  }

  ghost predicate Inv(seed: nat, st: State) {
    && st.prng == StateAt(seed, st.calls)
    && (forall c <- st.pending :: st.pending[c].call < st.calls && st.pending[c].s == StateAt(seed, st.pending[c].call))
    && (forall i <- st.returned :: i < st.calls && st.returned[i] == Output(seed, i))
  }

  lemma StepKeepsInv(seed: nat, st: State, step: Step)
    requires Inv(seed, st) && Enabled(st, step)
    ensures Inv(seed, Next(st, step))
  {
    NextState(seed, st.calls);
  }

  lemma {:induction false} EveryRunKeepsInv(seed: nat, run: seq<State>, steps: seq<Step>)
    requires seed < M && IsRun(run, steps) && run[0] == State(seed, 0, map[], map[])
    ensures Inv(seed, run[|steps|])
  {
    if steps != [] {
      var k := |steps| - 1;
      EveryRunKeepsInv(seed, run[..k + 1], steps[..k]);
      StepKeepsInv(seed, run[k], steps[k]);
    }
  }

  /** However the calls interleave over the CPUs, two of them return the same word only if at
      least 2^64 calls lie between them. */
  lemma InterleavedCallsDiffer(seed: nat, run: seq<State>, steps: seq<Step>, i: nat, j: nat)
    requires seed < M && IsRun(run, steps) && run[0] == State(seed, 0, map[], map[])
    requires i in run[|steps|].returned && j in run[|steps|].returned && i < j
    ensures run[|steps|].returned[i] == run[|steps|].returned[j] ==> j - i >= M
  {
    EveryRunKeepsInv(seed, run, steps);
    NeverRepeats(seed, i, j);
    CloseResidues(i, j);
  }

  lemma CloseResidues(i: nat, j: nat)
    requires i < j
    ensures i % M == j % M ==> j - i >= M
  {
  }

  // ---- Filling a buffer ----

  /** `to_le_bytes` of a word of `n` bytes. */
  function LeBytes(w: nat, n: nat): (b: seq<nat>)
    ensures |b| == n && forall k :: 0 <= k < n ==> b[k] < 256
  {
    if n == 0 then [] else [w % 256] + LeBytes(w / 256, n - 1)
  }

  function FromLe(b: seq<nat>): nat {
    if b == [] then 0 else b[0] + 256 * FromLe(b[1..])
  }

  /** Byte `k` is the `k`-th from the low end. */
  lemma {:induction false} LeByteAt(w: nat, n: nat, k: nat)
    requires k < n
    ensures LeBytes(w, n)[k] == w / Pow2(8 * k) % 256
  {
    if k > 0 {
      LeByteAt(w / 256, n - 1, k - 1);
      assert Pow2(8) == 256;
      Pow2Adds(8, 8 * (k - 1));
      DivDiv(w, 256, Pow2(8 * (k - 1)));
    }
  }

  lemma {:induction false} LeRoundTrip(w: nat, n: nat)
    requires w < Pow2(8 * n)
    ensures FromLe(LeBytes(w, n)) == w
  {
    if n > 0 {
      Pow2Adds(8, 8 * (n - 1));
      assert Pow2(8) == 256;
      LeRoundTrip(w / 256, n - 1);
      assert LeBytes(w, n)[1..] == LeBytes(w / 256, n - 1);
    }
  }

  /** The words of the first `n` calls from a given state. */
  function Outputs(start: nat, n: nat): (ws: seq<nat>)
    ensures |ws| == n
  {
    if n == 0 then [] else Outputs(start, n - 1) + [Output(start, n - 1)]
  }

  function LeStream(words: seq<nat>): (b: seq<nat>)
    ensures |b| == 8 * |words|
  {
    if words == [] then [] else LeStream(words[..|words| - 1]) + LeBytes(words[|words| - 1], 8)
  }

  /** What a buffer of `n` bytes filled from a given state holds. */
  function BytesOf(start: nat, n: nat): (b: seq<nat>)
    ensures |b| == n
  {
    LeStream(Outputs(start, (n + 7) / 8))[..n]
  }

  lemma {:induction false} OutputsAt(start: nat, n: nat, i: nat)
    requires i < n
    ensures Outputs(start, n)[i] == Output(start, i)
  {
    if i < n - 1 {
      OutputsAt(start, n - 1, i);
    }
  }

  lemma {:induction false} ChunkOf(words: seq<nat>, i: nat)
    requires i < |words|
    ensures LeStream(words)[8 * i..8 * i + 8] == LeBytes(words[i], 8)
  {
    var top := |words| - 1;
    if i < top {
      ChunkOf(words[..top], i);
      assert LeStream(words)[8 * i..8 * i + 8] == LeStream(words[..top])[8 * i..8 * i + 8];
    }
  }

  lemma WordsDifferInAByte(v: nat, w: nat)
    requires v < M && w < M && v != w
    ensures LeBytes(v, 8) != LeBytes(w, 8)
  {
    MIsPow2();
    LeRoundTrip(v, 8);
    LeRoundTrip(w, 8);
  }

  lemma WordsDiffer(start: nat, i: nat, j: nat)
    requires i < j < i + M
    ensures Output(start, i) < M && Output(start, j) < M && Output(start, i) != Output(start, j)
  {
    NeverRepeats(start, i, j);
    CloseResidues(i, j);
    OutputIs(start, i);
    OutputIs(start, j);
  }

  /** No aligned eight-byte chunk of a filled buffer repeats within 2^64 chunks. */
  lemma ChunksDiffer(start: nat, n: nat, i: nat, j: nat)
    requires i < j < i + M && 8 * j + 8 <= n
    ensures BytesOf(start, n)[8 * i..8 * i + 8] != BytesOf(start, n)[8 * j..8 * j + 8]
  {
    var words := Outputs(start, (n + 7) / 8);
    OutputsAt(start, (n + 7) / 8, i);
    OutputsAt(start, (n + 7) / 8, j);
    WordsDiffer(start, i, j);
    WordsDifferInAByte(words[i], words[j]);
    ChunkOf(words, i);
    ChunkOf(words, j);
    PrefixChunk(LeStream(words), n, 8 * i);
    PrefixChunk(LeStream(words), n, 8 * j);
  }

  lemma PrefixChunk(b: seq<nat>, n: nat, i: nat)
    requires i + 8 <= n <= |b|
    ensures b[..n][i..i + 8] == b[i..i + 8]
  {
  }

  lemma StreamSnoc(words: seq<nat>, w: nat)
    ensures LeStream(words + [w]) == LeStream(words) + LeBytes(w, 8)
  {
    assert (words + [w])[..|words|] == words;
  }

  lemma PrefixJoin(a: seq<nat>, b: seq<nat>, n: nat)
    requires n <= |b|
    ensures (a + b)[..|a| + n] == a + b[..n]
  {
  }

  lemma StreamStarts(start: nat)
    requires start < M
    ensures StateAt(start, 0) == start
  {
  }

  lemma WordsFor(n: nat, k: nat)
    requires 8 * k < n + 8 && n <= 8 * k
    ensures (n + 7) / 8 == k
  {
  }

  class Generator {
    var prng: nat
    var seeded: bool

    method EnsureSeeded(hardware: nat)
      requires hardware < M
      modifies this
      ensures seeded
      ensures prng == old(Start(hardware))
      ensures old(seeded) ==> prng == old(prng)
      ensures !old(seeded) ==> prng != 0 && prng == if hardware != 0 then hardware else 0xdeadbeef12345678
    {
      if seeded {
        return;
      }
      prng := if hardware == 0 then 0xdeadbeef12345678 else hardware;
      seeded := true;
    }

    /** The `i`-th call since the state was `start`. */
    method NextWord(ghost start: nat, ghost i: nat) returns (w: nat)
      requires prng == StateAt(start, i)
      modifies this`prng
      ensures w == Output(start, i) && w < M
      ensures prng == StateAt(start, i + 1)
    {
      var s := prng;
      prng := (prng + GAMMA) % M;
      w := Mix((s + GAMMA) % M);
      NextState(start, i);
      OutputIs(start, i);
    }

    /** The state after seeding. */
    ghost function Start(hardware: nat): nat
      reads this
    {
      if seeded then prng else if hardware == 0 then 0xdeadbeef12345678 else hardware
    }

    /** Every byte of the buffer comes from the stream, in order, and the state moves on by one
        step for each started eight bytes. */
    method Fill(slice: array<nat>, hardware: nat)
      requires hardware < M && prng < M
      modifies this, slice
      ensures seeded
      ensures slice[..] == BytesOf(old(Start(hardware)), slice.Length)
      ensures prng == StateAt(old(Start(hardware)), (slice.Length + 7) / 8)
    {
      EnsureSeeded(hardware);
      ghost var words := FillWords(slice, prng);
    }

    method FillWords(slice: array<nat>, ghost start: nat) returns (ghost words: seq<nat>)
      requires prng == start < M
      modifies this`prng, slice
      ensures words == Outputs(start, (slice.Length + 7) / 8)
      ensures slice[..] == LeStream(words)[..slice.Length]
      ensures prng == StateAt(start, (slice.Length + 7) / 8)
    {
      var i := 0;
      words := [];
      StreamStarts(start);
      while i + 8 <= slice.Length
        invariant 0 <= i == 8 * |words| <= slice.Length
        invariant prng == StateAt(start, |words|) && words == Outputs(start, |words|)
        invariant slice[..i] == LeStream(words)
      {
        words := Draw(slice, i, 8, start, words);
        i := i + 8;
      }
      if i < slice.Length {
        words := Draw(slice, i, slice.Length - i, start, words);
      }
      assert slice[..] == slice[..slice.Length];
      WordsFor(slice.Length, |words|);
    }

    /** Draw a word and put its first `n` bytes behind the `i` bytes already filled. */
    method Draw(slice: array<nat>, i: nat, n: nat, ghost start: nat, ghost words: seq<nat>)
      returns (ghost more: seq<nat>)
      requires n <= 8 && i == 8 * |words| && i + n <= slice.Length
      requires prng == StateAt(start, |words|) && words == Outputs(start, |words|) && slice[..i] == LeStream(words)
      modifies this`prng, slice
      ensures |more| == |words| + 1 && more == Outputs(start, |more|) && prng == StateAt(start, |more|)
      ensures slice[..i + n] == LeStream(more)[..i + n]
    {
      var bytes := NextBytes(start, |words|);
      CopyBytes(slice, i, n, bytes);
      ghost var w := Output(start, |words|);
      more := words + [w];
      StreamSnoc(words, w);
      PrefixJoin(LeStream(words), bytes, n);
    }

    /** `splitmix64_next().to_le_bytes()`. */
    method NextBytes(ghost start: nat, ghost i: nat) returns (bytes: seq<nat>)
      requires prng == StateAt(start, i)
      modifies this`prng
      ensures |bytes| == 8 && bytes == LeBytes(Output(start, i), 8)
      ensures prng == StateAt(start, i + 1)
    {
      var w := NextWord(start, i);
      bytes := LeBytes(w, 8);
    }

    /** Copy the first `n` bytes to offset `i`. */
    method CopyBytes(slice: array<nat>, i: nat, n: nat, bytes: seq<nat>)
      requires n <= |bytes| && i + n <= slice.Length
      modifies slice
      ensures slice[..i + n] == old(slice[..i]) + bytes[..n]
      ensures slice[i + n..] == old(slice[i + n..])
    {
      for j := 0 to n
        invariant slice[..i] == old(slice[..i]) && slice[i + n..] == old(slice[i + n..])
        invariant slice[i..i + j] == bytes[..j]
      {
        slice[i + j] := bytes[j];
      }
    }
  }
}
