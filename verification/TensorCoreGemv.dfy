/** The tensor-core GEMV for up to eight rows: weights as the 16-row operand of the
    m16n8k16 matrix instruction, rows as its 8-column operand, K permuted alike for both.
    Fragment layout: PTX ISA, "Matrix Fragments for mma.m16n8k16 with floating point
    type". */
module TensorCoreGemv {
  import opened IntMath
  import opened RealSums

  const WARPS: nat := 8
  const LANES: nat := 32

  type Matrix2 = (nat, nat) -> real

  // ---- The matrix instruction ----

  /** Registers of a warp: lane, register, half. */
  type Fragment = (nat, nat, nat) -> real

  /** Element `(i, k)` of the 16 x 16 operand, as the lanes hold it. */
  function OperandA(a: Fragment, i: nat, k: nat): real {
    a(4 * (i % 8) + k % 8 / 2, i / 8 + 2 * (k / 8), k % 2)
  }

  /** Element `(k, j)` of the 16 x 8 operand. */
  function OperandB(b: Fragment, k: nat, j: nat): real {
    b(4 * j + k % 8 / 2, k / 8, k % 2)
  }

  /** Row and column of accumulator `e` of a lane. */
  function AccRow(lane: nat, e: nat): nat {
    lane / 4 + 8 * (e / 2)
  }

  function AccColumn(lane: nat, e: nat): nat {
    lane % 4 * 2 + e % 2
  }

  /** What one instruction adds to a lane's accumulator. */
  function Product(a: Fragment, b: Fragment, lane: nat, e: nat): real {
    Sum((k: nat) => OperandA(a, AccRow(lane, e), k) * OperandB(b, k, AccColumn(lane, e)), 16)
  }

  // ---- What the lanes load ----

  /** Word `j`, half `h` of the 32 bytes a lane reads in a chunk. */
  function Column(chunk: nat, lane: nat, word: nat, half: nat): nat {
    chunk * 64 + lane % 4 * 16 + 2 * word + half
  }

  /** Weight registers for fragment `s`: rows clamped to the last feature. */
  function WeightRegs(w: Matrix2, n: nat, first: nat, chunk: nat, s: nat): Fragment
    requires n > 0
  {
    (lane: nat, reg: nat, half: nat) =>
      w(Clamp(first + lane / 4 + (if reg % 2 == 0 then 0 else 8), n), Column(chunk, lane, 2 * s + reg / 2, half))
  }

  function RowRegs(x: Matrix2, rows: nat, chunk: nat, s: nat): Fragment
    requires rows > 0
  {
    (lane: nat, reg: nat, half: nat) => x(Clamp(lane / 4, rows), Column(chunk, lane, 2 * s + reg, half))
  }

  function Clamp(i: nat, n: nat): (c: nat)
    requires n > 0
    ensures c < n && (i < n ==> c == i)
  {
    Min(i, n - 1)
  }

  // ---- The K permutation ----

  /** The K index behind slot `k` of fragment `s` of a chunk. */
  function KIndex(chunk: nat, s: nat, k: nat): nat {
    chunk * 64 + k % 8 / 2 * 16 + 4 * s + 2 * (k / 8) + k % 2
  }

  /** Fragment and slot of a K index within its chunk. */
  function SlotOf(i: nat): (nat, nat) {
    (i % 16 / 4, 8 * (i % 4 / 2) + 2 * (i % 64 / 16) + i % 2)
  }

  lemma DivMod(n: nat, m: nat, a: nat, r: nat)
    requires r < m && n == m * a + r
    ensures n / m == a && n % m == r
  {
    assert (a + 1) * m == m * a + m && a * m == m * a;
    DivUnique(n, m, a);
    assert n == m * (n / m) + n % m;
  }

  /** A slot in its three digits. */
  lemma SlotDigits(h: nat, q: nat, b: nat)
    requires h < 2 && q < 4 && b < 2
    ensures var k := 8 * h + 2 * q + b; k / 8 == h && k % 8 / 2 == q && k % 2 == b
  {
    DivMod(8 * h + 2 * q + b, 8, h, 2 * q + b);
    DivMod(2 * q + b, 2, q, b);
    DivMod(8 * h + 2 * q + b, 2, 4 * h + q, b);
  }

  /** A K index in its five digits. */
  lemma IndexDigits(c: nat, q: nat, s: nat, h: nat, b: nat)
    requires q < 4 && s < 4 && h < 2 && b < 2
    ensures var i := c * 64 + q * 16 + 4 * s + 2 * h + b;
            i / 64 == c && i % 64 / 16 == q && i % 16 / 4 == s && i % 4 / 2 == h && i % 2 == b
  {
    var i := c * 64 + q * 16 + 4 * s + 2 * h + b;
    DivMod(i, 64, c, 16 * q + 4 * s + 2 * h + b);
    DivMod(16 * q + 4 * s + 2 * h + b, 16, q, 4 * s + 2 * h + b);
    DivMod(i, 16, 4 * c + q, 4 * s + 2 * h + b);
    DivMod(4 * s + 2 * h + b, 4, s, 2 * h + b);
    DivMod(i, 4, 16 * c + 4 * q + s, 2 * h + b);
    DivMod(2 * h + b, 2, h, b);
    DivMod(i, 2, 32 * c + 8 * q + 2 * s + h, b);
  }

  lemma SlotOfDigits(c: nat, q: nat, s: nat, h: nat, b: nat)
    requires q < 4 && s < 4 && h < 2 && b < 2
    ensures var i := c * 64 + q * 16 + 4 * s + 2 * h + b; i / 64 == c && SlotOf(i) == (s, 8 * h + 2 * q + b)
  {
    IndexDigits(c, q, s, h, b);
  }

  /** The map from chunk, fragment and slot to K has an inverse. */
  lemma SlotRoundTrip(chunk: nat, s: nat, k: nat)
    requires s < 4 && k < 16
    ensures KIndex(chunk, s, k) / 64 == chunk && SlotOf(KIndex(chunk, s, k)) == (s, k)
  {
    hide SlotOf;
    DigitsOfSlot(k);
    SlotOfDigits(chunk, k % 8 / 2, s, k / 8, k % 2);
  }

  lemma DigitsOfSlot(k: nat)
    requires k < 16
    ensures k / 8 < 2 && k % 8 / 2 < 4 && k == 8 * (k / 8) + 2 * (k % 8 / 2) + k % 2
  {
    assert k == 8 * (k / 8) + k % 8;
    assert k % 8 == 2 * (k % 8 / 2) + k % 8 % 2;
    DivMod(k, 2, 4 * (k / 8) + k % 8 / 2, k % 8 % 2);
  }

  /** So is the way back: every K index has its slot. */
  lemma IndexRoundTrip(i: nat)
    ensures SlotOf(i).0 < 4 && SlotOf(i).1 < 16 && KIndex(i / 64, SlotOf(i).0, SlotOf(i).1) == i
  {
    var c, q, s, h, b := i / 64, i % 64 / 16, i % 64 % 16 / 4, i % 64 % 16 % 4 / 2, i % 64 % 16 % 4 % 2;
    assert i == 64 * c + i % 64;
    assert i % 64 == 16 * q + i % 64 % 16;
    assert i % 64 % 16 == 4 * s + i % 64 % 16 % 4;
    assert i % 64 % 16 % 4 == 2 * h + b;
    IndexDigits(c, q, s, h, b);
    SlotDigits(h, q, b);
  }

  /** Lane and register that hold a slot of the 16-row operand, read back. */
  lemma HolderA(i: nat, k: nat)
    requires i < 16 && k < 16
    ensures var lane, reg := 4 * (i % 8) + k % 8 / 2, i / 8 + 2 * (k / 8);
            && lane / 4 == i % 8 && lane % 4 == k % 8 / 2 && reg / 2 == k / 8
            && lane / 4 + (if reg % 2 == 0 then 0 else 8) == i
  {
    DigitsOfSlot(k);
    DivMod(4 * (i % 8) + k % 8 / 2, 4, i % 8, k % 8 / 2);
    assert i == 8 * (i / 8) + i % 8 && i / 8 < 2;
    DivMod(i / 8 + 2 * (k / 8), 2, k / 8, i / 8);
  }

  /** Both operands of an instruction see the same K index in the same slot. */
  lemma SlotsMeet(w: Matrix2, x: Matrix2, n: nat, rows: nat, first: nat, chunk: nat, s: nat, i: nat, j: nat, k: nat)
    requires n > 0 && rows > 0 && i < 16 && j < 8 && k < 16
    ensures OperandA(WeightRegs(w, n, first, chunk, s), i, k) == w(Clamp(first + i, n), KIndex(chunk, s, k))
    ensures OperandB(RowRegs(x, rows, chunk, s), k, j) == x(Clamp(j, rows), KIndex(chunk, s, k))
  {
    WeightsMeet(w, n, first, chunk, s, i, k);
    RowsMeet(x, rows, chunk, s, j, k);
  }

  lemma WeightsMeet(w: Matrix2, n: nat, first: nat, chunk: nat, s: nat, i: nat, k: nat)
    requires n > 0 && i < 16 && k < 16
    ensures OperandA(WeightRegs(w, n, first, chunk, s), i, k) == w(Clamp(first + i, n), KIndex(chunk, s, k))
  {
    hide KIndex, Column, Clamp;
    HolderA(i, k);
    ColumnMeets(chunk, s, k, i % 8);
  }

  lemma RowsMeet(x: Matrix2, rows: nat, chunk: nat, s: nat, j: nat, k: nat)
    requires rows > 0 && j < 8 && k < 16
    ensures OperandB(RowRegs(x, rows, chunk, s), k, j) == x(Clamp(j, rows), KIndex(chunk, s, k))
  {
    hide KIndex, Column, Clamp;
    HolderB(j, k);
    ColumnMeets(chunk, s, k, j);
  }

  /** A lane reads slot `k`'s column whatever row it holds. */
  lemma ColumnMeets(chunk: nat, s: nat, k: nat, row: nat)
    requires row < 8 && k < 16
    ensures Column(chunk, 4 * row + k % 8 / 2, 2 * s + k / 8, k % 2) == KIndex(chunk, s, k)
  {
    HolderB(row, k);
  }

  lemma HolderB(j: nat, k: nat)
    requires j < 8 && k < 16
    ensures (4 * j + k % 8 / 2) / 4 == j && (4 * j + k % 8 / 2) % 4 == k % 8 / 2
  {
    DigitsOfSlot(k);
    DivMod(4 * j + k % 8 / 2, 4, j, k % 8 / 2);
  }

  // ---- Sums over the permuted K ----

  function Sum4(g: nat -> real, at: nat): real {
    g(at) + g(at + 1) + g(at + 2) + g(at + 3)
  }

  lemma SumOf4(f: nat -> real)
    ensures Sum(f, 4) == f(0) + f(1) + f(2) + f(3)
  {
    assert Sum(f, 3) == Sum(f, 2) + f(2) && Sum(f, 2) == Sum(f, 1) + f(1) && Sum(f, 1) == Sum(f, 0) + f(0);
  }

  lemma SumOf16(g: nat -> real, at: nat)
    ensures Sum(g, at + 16) == Sum(g, at) + Sum4(g, at) + Sum4(g, at + 4) + Sum4(g, at + 8) + Sum4(g, at + 12)
  {
    Next4(g, at);
    Next4(g, at + 4);
    Next4(g, at + 8);
    Next4(g, at + 12);
  }

  lemma Next4(g: nat -> real, at: nat)
    ensures Sum(g, at + 4) == Sum(g, at) + Sum4(g, at)
  {
    assert Sum(g, at + 4) == Sum(g, at + 3) + g(at + 3);
    assert Sum(g, at + 3) == Sum(g, at + 2) + g(at + 2);
    assert Sum(g, at + 2) == Sum(g, at + 1) + g(at + 1);
    assert Sum(g, at + 1) == Sum(g, at) + g(at);
  }

  lemma SumOf64(g: nat -> real)
    ensures Sum(g, 64) == Sum4(g, 0) + Sum4(g, 4) + Sum4(g, 8) + Sum4(g, 12)
                        + Sum4(g, 16) + Sum4(g, 20) + Sum4(g, 24) + Sum4(g, 28)
                        + Sum4(g, 32) + Sum4(g, 36) + Sum4(g, 40) + Sum4(g, 44)
                        + Sum4(g, 48) + Sum4(g, 52) + Sum4(g, 56) + Sum4(g, 60)
  {
    hide Sum, Sum4;
    EmptySums();
    SumOf16(g, 0);
    SumOf16(g, 16);
    SumOf16(g, 32);
    SumOf16(g, 48);
  }

  /** Two neighbouring slots take two neighbouring terms. */
  lemma SlotPair(p: nat -> real, chunk: nat, s: nat, h: nat, q: nat)
    requires s < 4 && h < 2 && q < 4
    ensures var f, g := Slots(p, chunk, s), Terms(p, chunk);
            f(8 * h + 2 * q) == g(16 * q + 4 * s + 2 * h) && f(8 * h + 2 * q + 1) == g(16 * q + 4 * s + 2 * h + 1)
  {
    SlotDigits(h, q, 0);
    SlotDigits(h, q, 1);
    assert KIndex(chunk, s, 8 * h + 2 * q) == chunk * 64 + (16 * q + 4 * s + 2 * h);
    assert KIndex(chunk, s, 8 * h + 2 * q + 1) == chunk * 64 + (16 * q + 4 * s + 2 * h + 1);
  }

  function Slots(p: nat -> real, chunk: nat, s: nat): nat -> real {
    (k: nat) => p(KIndex(chunk, s, k))
  }

  function Terms(p: nat -> real, chunk: nat): nat -> real {
    (i: nat) => p(chunk * 64 + i)
  }

  /** One fragment's slots take four terms from each quarter of the chunk. */
  lemma FragmentSum(p: nat -> real, chunk: nat, s: nat)
    requires s < 4
    ensures var g := Terms(p, chunk);
            Sum(Slots(p, chunk, s), 16)
              == Sum4(g, 4 * s) + Sum4(g, 16 + 4 * s) + Sum4(g, 32 + 4 * s) + Sum4(g, 48 + 4 * s)
  {
    hide Sum, Sum4, Slots, Terms, KIndex;
    EmptySums();
    SumOf16(Slots(p, chunk, s), 0);
    QuarterPair(p, chunk, s, 0);
    QuarterPair(p, chunk, s, 2);
  }

  /** Quarters `q` and `q + 1` of the chunk are in eight of the slots. */
  lemma QuarterPair(p: nat -> real, chunk: nat, s: nat, q: nat)
    requires s < 4 && (q == 0 || q == 2)
    ensures var f, g := Slots(p, chunk, s), Terms(p, chunk);
            Sum4(f, 2 * q) + Sum4(f, 8 + 2 * q) == Sum4(g, 16 * q + 4 * s) + Sum4(g, 16 * (q + 1) + 4 * s)
  {
    hide Slots, Terms, KIndex;
    SlotPair(p, chunk, s, 0, q);
    SlotPair(p, chunk, s, 1, q);
    SlotPair(p, chunk, s, 0, q + 1);
    SlotPair(p, chunk, s, 1, q + 1);
  }

  function Fragments(p: nat -> real, chunk: nat): nat -> real {
    (s: nat) => Sum(Slots(p, chunk, s), 16)
  }

  /** One chunk's fragments and slots cover its 64 terms, each once. */
  lemma ChunkSum(p: nat -> real, chunk: nat)
    ensures Sum(Fragments(p, chunk), 4) == Sum(Terms(p, chunk), 64)
  {
    hide Slots, Terms, Sum4, KIndex;
    SumOf4(Fragments(p, chunk));
    FragmentSum(p, chunk, 0);
    FragmentSum(p, chunk, 1);
    FragmentSum(p, chunk, 2);
    FragmentSum(p, chunk, 3);
    SumOf64(Terms(p, chunk));
  }

  // ---- One warp ----

  /** The products a lane's accumulator `e` must add up, clamped loads included. */
  function Terms2(w: Matrix2, x: Matrix2, n: nat, rows: nat, first: nat, lane: nat, e: nat): nat -> real
    requires n > 0 && rows > 0
  {
    (k: nat) => w(Clamp(first + AccRow(lane, e), n), k) * x(Clamp(AccColumn(lane, e), rows), k)
  }

  function ChunkProduct(w: Matrix2, x: Matrix2, n: nat, rows: nat, first: nat, chunk: nat, s: nat, lane: nat,
                        e: nat): real
    requires n > 0 && rows > 0
  {
    Product(WeightRegs(w, n, first, chunk, s), RowRegs(x, rows, chunk, s), lane, e)
  }

  lemma AccInRange(lane: nat, e: nat)
    requires lane < LANES && e < 4
    ensures AccRow(lane, e) < 16 && AccColumn(lane, e) < 8
  {
  }

  /** One instruction adds sixteen of the wanted products. */
  lemma InstructionSum(w: Matrix2, x: Matrix2, n: nat, rows: nat, first: nat, chunk: nat, s: nat, lane: nat, e: nat)
    requires n > 0 && rows > 0 && lane < LANES && e < 4
    ensures ChunkProduct(w, x, n, rows, first, chunk, s, lane, e)
         == Sum(Slots(Terms2(w, x, n, rows, first, lane, e), chunk, s), 16)
  {
    hide OperandA, OperandB, WeightRegs, RowRegs, KIndex, AccRow, AccColumn;
    AccInRange(lane, e);
    var a, b := WeightRegs(w, n, first, chunk, s), RowRegs(x, rows, chunk, s);
    var i, j := AccRow(lane, e), AccColumn(lane, e);
    forall k: nat | k < 16
      ensures OperandA(a, i, k) * OperandB(b, k, j) == Slots(Terms2(w, x, n, rows, first, lane, e), chunk, s)(k)
    {
      SlotsMeet(w, x, n, rows, first, chunk, s, i, j, k);
    }
    SumSame((k: nat) => OperandA(a, i, k) * OperandB(b, k, j),
            Slots(Terms2(w, x, n, rows, first, lane, e), chunk, s), 16);
  }

  /** The instructions of one chunk, as seen by one accumulator. */
  function Instructions(w: Matrix2, x: Matrix2, n: nat, rows: nat, first: nat, chunk: nat, lane: nat,
                        e: nat): nat -> real
    requires n > 0 && rows > 0
  {
    (s: nat) => ChunkProduct(w, x, n, rows, first, chunk, s, lane, e)
  }

  /** Everything a lane accumulates over its warp's first `n` chunks. */
  function Accumulated(w: Matrix2, x: Matrix2, n: nat, rows: nat, first: nat, firstChunk: nat, steps: nat, lane: nat,
                       e: nat): real
    requires n > 0 && rows > 0
  {
    if steps == 0 then 0.0
    else Accumulated(w, x, n, rows, first, firstChunk, steps - 1, lane, e)
         + Sum(Instructions(w, x, n, rows, first, firstChunk + (steps - 1), lane, e), 4)
  }

  lemma ChunkTotal(w: Matrix2, x: Matrix2, n: nat, rows: nat, first: nat, chunk: nat, lane: nat, e: nat)
    requires n > 0 && rows > 0 && lane < LANES && e < 4
    ensures Sum(Instructions(w, x, n, rows, first, chunk, lane, e), 4)
         == Sum(Terms(Terms2(w, x, n, rows, first, lane, e), chunk), 64)
  {
    hide ChunkProduct, Slots, Terms, Terms2;
    var p := Terms2(w, x, n, rows, first, lane, e);
    forall s: nat | s < 4
      ensures ChunkProduct(w, x, n, rows, first, chunk, s, lane, e) == Fragments(p, chunk)(s)
    {
      InstructionSum(w, x, n, rows, first, chunk, s, lane, e);
    }
    SumSame(Instructions(w, x, n, rows, first, chunk, lane, e), Fragments(p, chunk), 4);
    ChunkSum(p, chunk);
  }

  lemma NextChunk(p: nat -> real, firstChunk: nat, steps: nat)
    requires steps > 0
    ensures Sum(From(p, firstChunk * 64), steps * 64)
         == Sum(From(p, firstChunk * 64), (steps - 1) * 64) + Sum(Terms(p, firstChunk + (steps - 1)), 64)
  {
    hide Sum;
    var f := From(p, firstChunk * 64);
    SumSplit(f, (steps - 1) * 64, 64);
    SumSame(From(f, (steps - 1) * 64), Terms(p, firstChunk + (steps - 1)), 64);
  }

  /** A warp's part of the dot product: `steps` chunks from `firstChunk` on. */
  lemma {:induction false} AccumulatedIs(w: Matrix2, x: Matrix2, n: nat, rows: nat, first: nat, firstChunk: nat,
                                         steps: nat, lane: nat, e: nat)
    requires n > 0 && rows > 0 && lane < LANES && e < 4
    ensures var p := Terms2(w, x, n, rows, first, lane, e);
            Accumulated(w, x, n, rows, first, firstChunk, steps, lane, e) == Sum(From(p, firstChunk * 64), steps * 64)
  {
    hide ChunkProduct, Terms2, Instructions, Terms, From;
    if steps > 0 {
      var p := Terms2(w, x, n, rows, first, lane, e);
      AccumulatedIs(w, x, n, rows, first, firstChunk, steps - 1, lane, e);
      ChunkTotal(w, x, n, rows, first, firstChunk + (steps - 1), lane, e);
      NextChunk(p, firstChunk, steps);
    }
  }

  /** One warp: its chunks in turn, four instructions each. */
  method WarpLoop(w: Matrix2, x: Matrix2, n: nat, rows: nat, first: nat, firstChunk: nat, steps: nat)
    returns (acc: array2<real>)
    requires n > 0 && rows > 0
    ensures fresh(acc) && acc.Length0 == LANES && acc.Length1 == 4
    ensures forall l: nat, e: nat | l < LANES && e < 4 ::
      acc[l, e] == Accumulated(w, x, n, rows, first, firstChunk, steps, l, e)
  {
    hide ChunkProduct;
    acc := new real[LANES, 4]((_, _) => 0.0);
    for step := 0 to steps
      invariant forall l: nat, e: nat | l < LANES && e < 4 ::
        acc[l, e] == Accumulated(w, x, n, rows, first, firstChunk, step, l, e)
    {
      for s := 0 to 4
        invariant forall l: nat, e: nat | l < LANES && e < 4 ::
                    acc[l, e] == Accumulated(w, x, n, rows, first, firstChunk, step, l, e)
                                 + Sum(Instructions(w, x, n, rows, first, firstChunk + step, l, e), s)
      {
        forall l, e | 0 <= l < LANES && 0 <= e < 4 {
          acc[l, e] := acc[l, e] + ChunkProduct(w, x, n, rows, first, firstChunk + step, s, l, e);
        }
      }
    }
  }

  // ---- One block ----

  /** What slot `i` of the shared buffer must hold: warp, lane and accumulator are its digits. */
  function SlotTotal(w: Matrix2, x: Matrix2, n: nat, rows: nat, first: nat, steps: nat, i: nat): real
    requires n > 0 && rows > 0
  {
    Accumulated(w, x, n, rows, first, i / 128 * steps, steps, i % 128 / 4, i % 4)
  }

  lemma BufferDigits(wp: nat, l: nat, e: nat)
    requires l < LANES && e < 4
    ensures var i := (wp * LANES + l) * 4 + e;
            i / 128 == wp && i % 128 / 4 == l && i % 4 == e && i == wp * (LANES * 4) + l * 4 + e
  {
    var i := (wp * LANES + l) * 4 + e;
    DivMod(i, 128, wp, 4 * l + e);
    DivMod(4 * l + e, 4, l, e);
    DivMod(i, 4, wp * 32 + l, e);
  }

  /** Each lane of each warp leaves its four accumulators in shared memory. */
  method AccumulateBlock(w: Matrix2, x: Matrix2, n: nat, rows: nat, first: nat, steps: nat)
    returns (partials: array<real>)
    requires n > 0 && rows > 0
    ensures fresh(partials) && partials.Length == WARPS * LANES * 4
    ensures forall i: nat | i < WARPS * LANES * 4 :: partials[i] == SlotTotal(w, x, n, rows, first, steps, i)
  {
    hide Accumulated;
    partials := new real[WARPS * LANES * 4](_ => 0.0);
    for wp := 0 to WARPS
      invariant forall i: nat | i < wp * (LANES * 4) :: partials[i] == SlotTotal(w, x, n, rows, first, steps, i)
    {
      var acc := WarpLoop(w, x, n, rows, first, wp * steps, steps);
      for l := 0 to LANES
        modifies partials
        invariant forall i: nat | i < (wp * LANES + l) * 4 :: partials[i] == SlotTotal(w, x, n, rows, first, steps, i)
      {
        var base := (wp * LANES + l) * 4;
        for e := 0 to 4
          modifies partials
          invariant forall i: nat | i < base + e :: partials[i] == SlotTotal(w, x, n, rows, first, steps, i)
        {
          BufferDigits(wp, l, e);
          partials[base + e] := acc[l, e];
        }
      }
    }
  }

  /** The first `k` warps' contributions to one accumulator, in warp order. */
  method ReduceWarps(partials: array<real>, l: nat, e: nat, ghost w: Matrix2, ghost x: Matrix2, ghost n: nat,
                     ghost rows: nat, ghost first: nat, ghost steps: nat) returns (total: real)
    requires n > 0 && rows > 0 && l < LANES && e < 4 && partials.Length == WARPS * LANES * 4
    requires forall i: nat | i < WARPS * LANES * 4 :: partials[i] == SlotTotal(w, x, n, rows, first, steps, i)
    ensures total == Sum(Terms2(w, x, n, rows, first, l, e), WARPS * (steps * 64))
  {
    hide Accumulated, Terms2;
    ghost var p := Terms2(w, x, n, rows, first, l, e);
    total := 0.0;
    for wp := 0 to WARPS
      invariant total == Sum(p, wp * (steps * 64))
    {
      BufferDigits(wp, l, e);
      AccumulatedIs(w, x, n, rows, first, wp * steps, steps, l, e);
      WarpStart(wp, steps);
      SumSplit(p, wp * (steps * 64), steps * 64);
      total := total + partials[wp * (LANES * 4) + l * 4 + e];
    }
  }

  lemma WarpStart(wp: nat, steps: nat)
    ensures wp * steps * 64 == wp * (steps * 64) && (wp + 1) * (steps * 64) == wp * (steps * 64) + steps * 64
  {
  }

  // ---- Stores ----

  /** Lane and accumulator that hold feature `i` of the tile, row `r`. */
  function HolderLane(i: nat, r: nat): nat {
    4 * (i % 8) + r / 2
  }

  function HolderAcc(i: nat, r: nat): nat {
    2 * (i / 8) + r % 2
  }

  /** The accumulators of a warp and the sixteen features by eight rows of a tile match one
      to one, so every output element has exactly one store. */
  lemma OutputRoundTrip(i: nat, r: nat)
    requires i < 16 && r < 8
    ensures HolderLane(i, r) < LANES && HolderAcc(i, r) < 4
    ensures AccRow(HolderLane(i, r), HolderAcc(i, r)) == i && AccColumn(HolderLane(i, r), HolderAcc(i, r)) == r
  {
    assert i == 8 * (i / 8) + i % 8 && r == 2 * (r / 2) + r % 2;
    DivMod(4 * (i % 8) + r / 2, 4, i % 8, r / 2);
    DivMod(2 * (i / 8) + r % 2, 2, i / 8, r % 2);
  }

  lemma AccRoundTrip(l: nat, e: nat)
    requires l < LANES && e < 4
    ensures AccRow(l, e) < 16 && AccColumn(l, e) < 8
    ensures HolderLane(AccRow(l, e), AccColumn(l, e)) == l && HolderAcc(AccRow(l, e), AccColumn(l, e)) == e
  {
    assert l == 4 * (l / 4) + l % 4 && e == 2 * (e / 2) + e % 2;
    DivMod(AccRow(l, e), 8, e / 2, l / 4);
    DivMod(AccColumn(l, e), 2, l % 4, e % 2);
  }

  /** Address `a` holds a live row and a feature of the tile from `first`. */
  predicate InTile(a: nat, first: nat, n: nat, rows: nat, stride: nat)
    requires stride > 0
  {
    a / stride < rows && first <= a % stride < first + 16 && a % stride < n
  }

  /** When the tile's stores reach address `a`. */
  function StoreTurn(a: nat, first: nat, stride: nat): nat
    requires stride > 0 && first <= a % stride
  {
    4 * HolderLane(a % stride - first, a / stride) + HolderAcc(a % stride - first, a / stride)
  }

  function Answer(w: Matrix2, x: Matrix2, stride: nat, k: nat, a: nat): real
    requires stride > 0
  {
    Dot(x, w, a / stride, a % stride, k)
  }

  /** The first `turns` stores of the tile have happened. */
  ghost predicate StoredUpTo(before: seq<real>, now: seq<real>, w: Matrix2, x: Matrix2, n: nat, rows: nat, first: nat,
                             stride: nat, k: nat, turns: nat)
    requires stride > 0
  {
    && |now| == |before|
    && forall a: nat {:trigger now[a]} | a < |now| ::
         now[a] == if InTile(a, first, n, rows, stride) && StoreTurn(a, first, stride) < turns
             then Answer(w, x, stride, k, a) else before[a]
  }

  lemma Commute(a: real, b: real)
    ensures a * b == b * a
  {
  }

  /** The totals of unclamped lanes are the wanted dot products. */
  lemma TotalIsDot(w: Matrix2, x: Matrix2, n: nat, rows: nat, first: nat, l: nat, e: nat, k: nat)
    requires first + AccRow(l, e) < n && AccColumn(l, e) < rows
    ensures Sum(Terms2(w, x, n, rows, first, l, e), k) == Dot(x, w, AccColumn(l, e), first + AccRow(l, e), k)
  {
    hide AccRow, AccColumn;
    var row, feature := AccColumn(l, e), first + AccRow(l, e);
    forall i: nat | i < k
      ensures Terms2(w, x, n, rows, first, l, e)(i) == x(row, i) * w(feature, i)
    {
      assert Clamp(feature, n) == feature && Clamp(row, rows) == row;
      Commute(w(feature, i), x(row, i));
    }
    SumSame(Terms2(w, x, n, rows, first, l, e), (i: nat) => x(row, i) * w(feature, i), k);
  }

  lemma StoreStep(before: seq<real>, now: seq<real>, w: Matrix2, x: Matrix2, n: nat, rows: nat, first: nat,
                  stride: nat, k: nat, l: nat, e: nat, feature: nat, row: nat, at: nat, after: seq<real>)
    requires 0 < n <= stride && rows <= 8 && l < LANES && e < 4
    requires feature == first + AccRow(l, e) && row == AccColumn(l, e) && at == row * stride + feature
    requires StoredUpTo(before, now, w, x, n, rows, first, stride, k, 4 * l + e)
    requires if feature < n && row < rows then at < |now| && after == now[at := Dot(x, w, row, feature, k)]
             else after == now
    ensures StoredUpTo(before, after, w, x, n, rows, first, stride, k, 4 * l + e + 1)
  {
    hide AccRow, AccColumn, HolderLane, HolderAcc, Dot;
    AccRoundTrip(l, e);
    if feature < n { DivMod(at, stride, row, feature); }
    forall a: nat {:trigger after[a]}
      | a < |after| && InTile(a, first, n, rows, stride) && StoreTurn(a, first, stride) == 4 * l + e
      ensures a / stride == row && a % stride == feature && a == at
    {
      TurnIsUnique(a, first, n, rows, stride, l, e);
    }
  }

  lemma TurnIsUnique(a: nat, first: nat, n: nat, rows: nat, stride: nat, l: nat, e: nat)
    requires stride > 0 && rows <= 8 && l < LANES && e < 4
    requires InTile(a, first, n, rows, stride) && StoreTurn(a, first, stride) == 4 * l + e
    ensures a / stride == AccColumn(l, e) && a % stride == first + AccRow(l, e)
    ensures a == AccColumn(l, e) * stride + (first + AccRow(l, e))
  {
    hide AccRow, AccColumn, HolderLane, HolderAcc;
    OutputRoundTrip(a % stride - first, a / stride);
    assert a == stride * (a / stride) + a % stride;
  }

  lemma NothingStored(before: seq<real>, w: Matrix2, x: Matrix2, n: nat, rows: nat, first: nat, stride: nat, k: nat)
    requires stride > 0
    ensures StoredUpTo(before, before, w, x, n, rows, first, stride, k, 0)
  {
  }

  lemma EverythingStored(before: seq<real>, now: seq<real>, w: Matrix2, x: Matrix2, n: nat, rows: nat, first: nat,
                         stride: nat, k: nat)
    requires stride > 0 && rows <= 8 && StoredUpTo(before, now, w, x, n, rows, first, stride, k, 4 * LANES)
    ensures |now| == |before|
    ensures forall a: nat {:trigger now[a]} | a < |now| ::
              now[a] == if InTile(a, first, n, rows, stride) then Answer(w, x, stride, k, a) else before[a]
  {
    hide Answer, StoreTurn;
    forall a: nat {:trigger now[a]} | a < |now| && InTile(a, first, n, rows, stride)
      ensures StoreTurn(a, first, stride) < 4 * LANES
    {
      AllTurns(a, first, n, rows, stride);
    }
  }

  lemma AllTurns(a: nat, first: nat, n: nat, rows: nat, stride: nat)
    requires stride > 0 && rows <= 8 && InTile(a, first, n, rows, stride)
    ensures StoreTurn(a, first, stride) < 4 * LANES
  {
    OutputRoundTrip(a % stride - first, a / stride);
  }

  /** One lane's masked store of one total. */
  method StoreTotal(out: array<real>, stride: nat, total: real, l: nat, e: nat, n: nat, rows: nat, first: nat,
                    ghost before: seq<real>, ghost w: Matrix2, ghost x: Matrix2, ghost k: nat)
    requires 0 < n <= stride && 0 < rows <= 8 && (rows - 1) * stride + n <= out.Length && l < LANES && e < 4
    requires total == Sum(Terms2(w, x, n, rows, first, l, e), k)
    requires StoredUpTo(before, out[..], w, x, n, rows, first, stride, k, 4 * l + e)
    modifies out
    ensures StoredUpTo(before, out[..], w, x, n, rows, first, stride, k, 4 * l + e + 1)
  {
    hide StoredUpTo, Terms2, AccRow, AccColumn, Dot;
    ghost var now := out[..];
    var feature, row := first + AccRow(l, e), AccColumn(l, e);
    if feature < n && row < rows {
      TotalIsDot(w, x, n, rows, first, l, e, k);
      RowFits(row, rows, stride);
      out[row * stride + feature] := total;
    }
    StoreStep(before, now, w, x, n, rows, first, stride, k, l, e, feature, row, row * stride + feature, out[..]);
  }

  /** One thread block: accumulate, reduce, store what is in range. */
  method RunBlock(out: array<real>, stride: nat, w: Matrix2, x: Matrix2, n: nat, rows: nat, first: nat, steps: nat)
    requires 0 < n <= stride && 0 < rows <= 8 && (rows - 1) * stride + n <= out.Length
    modifies out
    ensures forall a: nat {:trigger out[a]} | a < out.Length ::
              out[a] == if InTile(a, first, n, rows, stride) then Answer(w, x, stride, WARPS * (steps * 64), a)
                  else old(out[a])
  {
    hide Answer, InTile, StoredUpTo, Terms2, SlotTotal;
    ghost var before, k := out[..], WARPS * (steps * 64);
    var partials := AccumulateBlock(w, x, n, rows, first, steps);
    NothingStored(before, w, x, n, rows, first, stride, k);
    for l := 0 to LANES
      modifies out
      invariant StoredUpTo(before, out[..], w, x, n, rows, first, stride, k, 4 * l)
    {
      for e := 0 to 4
        modifies out
        invariant StoredUpTo(before, out[..], w, x, n, rows, first, stride, k, 4 * l + e)
      {
        var total := ReduceWarps(partials, l, e, w, x, n, rows, first, steps);
        StoreTotal(out, stride, total, l, e, n, rows, first, before, w, x, k);
      }
    }
    EverythingStored(before, out[..], w, x, n, rows, first, stride, k);
  }

  lemma RowFits(row: nat, rows: nat, stride: nat)
    requires row < rows
    ensures row * stride <= (rows - 1) * stride
  {
    MulMono(row, rows - 1, stride);
  }

  /** The whole launch: every live row and every feature gets its dot product; nothing else
      in the output changes. */
  method Gemv(out: array<real>, stride: nat, w: Matrix2, x: Matrix2, n: nat, rows: nat, k: nat)
    requires 0 < n <= stride && 0 < rows <= 8 && (rows - 1) * stride + n <= out.Length
    requires k % 512 == 0
    modifies out
    ensures forall a: nat {:trigger out[a]} | a < out.Length ::
              out[a] == if a / stride < rows && a % stride < n then Answer(w, x, stride, k, a) else old(out[a])
  {
    hide Answer;
    var steps := k / 64 / WARPS;
    assert WARPS * (steps * 64) == k;
    for block := 0 to CeilDiv(n, 16)
      invariant forall a: nat {:trigger out[a]} | a < out.Length ::
                  out[a] == if a / stride < rows && a % stride < n && a % stride < block * 16
                      then Answer(w, x, stride, k, a) else old(out[a])
    {
      RunBlock(out, stride, w, x, n, rows, block * 16, steps);
    }
    CeilDivBounds(n, 16);
  }
}
