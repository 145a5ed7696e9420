/** The SIMT projection: 128 threads stride over K, eight columns at a time when loads can
    be vectorized, and their partial sums are reduced per row. */
module SimtGemv {
  import opened IntMath
  import opened RealSums
  import opened Projection

  const THREADS: nat := 128

  /** A thread's `j`-th term. */
  function Turn(p: nat -> real, n: nat, tid: nat): nat -> real {
    (j: nat) => Cut(p, n)(j * THREADS + tid)
  }

  /** What thread `tid` adds up out of `n` terms. */
  function ThreadSum(p: nat -> real, n: nat, tid: nat): real {
    Sum(Turn(p, n, tid), CeilDiv(n, THREADS))
  }

  function PerThread(p: nat -> real, n: nat): nat -> real {
    (tid: nat) => ThreadSum(p, n, tid)
  }

  /** The threads together add up every term once. */
  lemma ThreadsCover(p: nat -> real, n: nat)
    ensures Sum(PerThread(p, n), THREADS) == Sum(p, n)
  {
    hide Sum, Cut;
    var c := CeilDiv(n, THREADS);
    CeilDivBounds(n, THREADS);
    CutSum(p, n, c * THREADS);
    SumBlocks(Cut(p, n), c, THREADS);
    SumSwap(Grid(Cut(p, n), THREADS), c, THREADS);
    forall tid: nat | tid < THREADS
      ensures ThreadSum(p, n, tid) == Columns(Grid(Cut(p, n), THREADS), c)(tid)
    {
      SumSame(Turn(p, n, tid), (j: nat) => Grid(Cut(p, n), THREADS)(j, tid), c);
    }
    SumSame(PerThread(p, n), Columns(Grid(Cut(p, n), THREADS), c), THREADS);
  }

  lemma TurnStep(p: nat -> real, n: nat, tid: nat, j: nat)
    requires j * THREADS + tid < n
    ensures Sum(Turn(p, n, tid), j + 1) == Sum(Turn(p, n, tid), j) + p(j * THREADS + tid)
  {
  }

  /** A thread that has run past the end has all its terms. */
  lemma {:induction false} TurnsDone(p: nat -> real, n: nat, tid: nat, j: nat)
    requires tid < THREADS && j * THREADS + tid >= n && j <= CeilDiv(n, THREADS)
    ensures Sum(Turn(p, n, tid), j) == ThreadSum(p, n, tid)
    decreases CeilDiv(n, THREADS) - j
  {
    if j < CeilDiv(n, THREADS) {
      TurnsDone(p, n, tid, j + 1);
    }
  }

  // ---- One thread ----

  /** Eight neighbouring products, as one vector step adds them. */
  function Eight(p: nat -> real): nat -> real {
    (g: nat) => Sum(From(p, g * 8), 8)
  }

  /** One 16-byte load of each operand, unpacked pair by pair. */
  method DotEight(x: Operand, w: Operand, row: nat, feature: nat, g: nat, accumulator: real) returns (result: real)
    requires x.columnStride == 1 && w.columnStride == 1
    ensures result == accumulator + Eight(Products(x, w, row, feature))(g)
  {
    hide Sum, Times, From;
    EmptySums();
    ghost var p := Products(x, w, row, feature);
    result := accumulator;
    for t := 0 to 8
      invariant result == accumulator + Sum(From(p, g * 8), t)
    {
      UnitColumns(x, row, g * 8 + t);
      UnitColumns(w, feature, g * 8 + t);
      NextTerm(p, g * 8, t);
      result := result + Times(x.mem(row * x.rowStride + (g * 8 + t)), w.mem(feature * w.rowStride + (g * 8 + t)));
    }
  }

  /** The vector loop: groups of eight, `THREADS` apart, each weight load serving every row. */
  method VectorDot(x: Operand, w: Operand, acc: array<real>, firstRow: nat, feature: nat, rows: nat, k: nat, tid: nat)
    requires tid < THREADS && x.columnStride == 1 && w.columnStride == 1
    requires forall r | 0 <= r < acc.Length :: acc[r] == 0.0
    modifies acc
    ensures forall r: nat {:trigger acc[r]} | r < acc.Length ::
              acc[r] == if firstRow + r < rows then ThreadSum(Eight(Products(x, w, firstRow + r, feature)), k / 8, tid)
                  else 0.0
  {
    hide ThreadSum, Eight, Sum, Turn, Products;
    var index := tid;
    ghost var j := 0;
    EmptySums();
    while index < k / 8
      invariant index == j * THREADS + tid && j <= CeilDiv(k / 8, THREADS)
      invariant forall r: nat {:trigger acc[r]} | r < acc.Length ::
                  acc[r] == if firstRow + r < rows
                      then Sum(Turn(Eight(Products(x, w, firstRow + r, feature)), k / 8, tid), j) else 0.0
    {
      for r := 0 to acc.Length
        invariant forall q: nat {:trigger acc[q]} | q < acc.Length ::
                    acc[q] == if firstRow + q < rows
                              then Sum(Turn(Eight(Products(x, w, firstRow + q, feature)), k / 8, tid),
                                       if q < r then j + 1 else j)
                              else 0.0
      {
        if firstRow + r < rows {
          TurnStep(Eight(Products(x, w, firstRow + r, feature)), k / 8, tid, j);
          acc[r] := DotEight(x, w, firstRow + r, feature, index, acc[r]);
        }
      }
      index := index + THREADS;
      j := j + 1;
    }
    forall r: nat | r < acc.Length && firstRow + r < rows
      ensures acc[r] == ThreadSum(Eight(Products(x, w, firstRow + r, feature)), k / 8, tid)
    {
      TurnsDone(Eight(Products(x, w, firstRow + r, feature)), k / 8, tid, j);
    }
  }

  /** The scalar loop, for any strides. */
  method ScalarDot(x: Operand, w: Operand, acc: array<real>, firstRow: nat, feature: nat, rows: nat, k: nat, tid: nat)
    requires tid < THREADS
    requires forall r | 0 <= r < acc.Length :: acc[r] == 0.0
    modifies acc
    ensures forall r: nat {:trigger acc[r]} | r < acc.Length ::
              acc[r] == if firstRow + r < rows then ThreadSum(Products(x, w, firstRow + r, feature), k, tid) else 0.0
  {
    hide ThreadSum, Sum, Turn;
    var index := tid;
    ghost var j := 0;
    EmptySums();
    while index < k
      invariant index == j * THREADS + tid && j <= CeilDiv(k, THREADS)
      invariant forall r: nat {:trigger acc[r]} | r < acc.Length ::
                  acc[r] == if firstRow + r < rows then Sum(Turn(Products(x, w, firstRow + r, feature), k, tid), j)
                      else 0.0
    {
      var value := w.At(feature, index);
      for r := 0 to acc.Length
        invariant forall q: nat {:trigger acc[q]} | q < acc.Length ::
                    acc[q] == if firstRow + q < rows
                              then Sum(Turn(Products(x, w, firstRow + q, feature), k, tid), if q < r then j + 1 else j)
                              else 0.0
      {
        if firstRow + r < rows {
          TurnStep(Products(x, w, firstRow + r, feature), k, tid, j);
          acc[r] := acc[r] + Times(x.At(firstRow + r, index), value);
        }
      }
      index := index + THREADS;
      j := j + 1;
    }
    forall r: nat | r < acc.Length && firstRow + r < rows
      ensures acc[r] == ThreadSum(Products(x, w, firstRow + r, feature), k, tid)
    {
      TurnsDone(Products(x, w, firstRow + r, feature), k, tid, j);
    }
  }

  // ---- One block: a column and a tile of rows ----

  /** Groups of eight cover K when eight divides it. */
  lemma GroupsCover(p: nat -> real, k: nat)
    requires k % 8 == 0
    ensures Sum(Eight(p), k / 8) == Sum(p, k)
  {
    hide Sum;
    assert k == k / 8 * 8;
    SumBlocks(p, k / 8, 8);
    forall g: nat | g < k / 8
      ensures Eight(p)(g) == Rows(Grid(p, 8), 8)(g)
    {
      SumSame(From(p, g * 8), (j: nat) => Grid(p, 8)(g, j), 8);
    }
    SumSame(Eight(p), Rows(Grid(p, 8), 8), k / 8);
  }

  /** What each thread contributes to a row, on either path. */
  function Contribution(x: Operand, w: Operand, row: nat, feature: nat, k: nat, vector: bool): nat -> real {
    var p := Products(x, w, row, feature);
    if vector then PerThread(Eight(p), k / 8) else PerThread(p, k)
  }

  lemma ContributionsCover(x: Operand, w: Operand, row: nat, feature: nat, k: nat, vector: bool)
    requires vector ==> k % 8 == 0
    ensures Sum(Contribution(x, w, row, feature, k, vector), THREADS) == Sum(Products(x, w, row, feature), k)
  {
    hide Sum, Eight, PerThread, Products;
    var p := Products(x, w, row, feature);
    if vector {
      ThreadsCover(Eight(p), k / 8);
      GroupsCover(p, k);
    } else {
      ThreadsCover(p, k);
    }
  }

  /** All threads of a block, their accumulators added up row by row. */
  method AccumulateRows(x: Operand, w: Operand, firstRow: nat, feature: nat, rows: nat, k: nat, tile: nat, vector: bool)
    returns (sums: array<real>)
    requires vector ==> k % 8 == 0 && x.columnStride == 1 && w.columnStride == 1
    ensures fresh(sums) && sums.Length == tile
    ensures forall r: nat {:trigger sums[r]} | r < tile && firstRow + r < rows ::
              sums[r] == Sum(Products(x, w, firstRow + r, feature), k)
  {
    hide Sum, Eight, ThreadSum, Products;
    sums := new real[tile](_ => 0.0);
    EmptySums();
    for tid := 0 to THREADS
      invariant forall r: nat {:trigger sums[r]} | r < tile && firstRow + r < rows ::
                  sums[r] == Sum(Contribution(x, w, firstRow + r, feature, k, vector), tid)
    {
      var acc := new real[tile](_ => 0.0);
      if vector {
        VectorDot(x, w, acc, firstRow, feature, rows, k, tid);
      } else {
        ScalarDot(x, w, acc, firstRow, feature, rows, k, tid);
      }
      for r := 0 to tile
        modifies sums
        invariant forall q: nat {:trigger sums[q]} | q < tile && firstRow + q < rows ::
                    sums[q] == Sum(Contribution(x, w, firstRow + q, feature, k, vector), if q < r then tid + 1 else tid)
      {
        OneMoreThread(x, w, firstRow + r, feature, k, vector, tid);
        sums[r] := sums[r] + acc[r];
      }
    }
    forall r: nat | r < tile && firstRow + r < rows
      ensures sums[r] == Sum(Products(x, w, firstRow + r, feature), k)
    {
      ContributionsCover(x, w, firstRow + r, feature, k, vector);
    }
  }

  lemma OneMoreThread(x: Operand, w: Operand, row: nat, feature: nat, k: nat, vector: bool, tid: nat)
    ensures Sum(Contribution(x, w, row, feature, k, vector), tid + 1)
         == Sum(Contribution(x, w, row, feature, k, vector), tid)
            + (if vector then ThreadSum(Eight(Products(x, w, row, feature)), k / 8, tid)
               else ThreadSum(Products(x, w, row, feature), k, tid))
  {
    hide ThreadSum, Eight, Products;
  }

  // ---- Stores ----

  /** Address `a` belongs to the first `done` live rows of the block. */
  predicate InBlock(a: nat, stride: nat, feature: nat, firstRow: nat, done: nat, rows: nat)
    requires stride > 0
  {
    a % stride == feature && firstRow <= a / stride < firstRow + done && a / stride < rows
  }

  method RunBlock(out: array<real>, stride: nat, x: Operand, w: Operand, bias: Option<seq<real>>, n: nat, rows: nat,
                  k: nat, firstRow: nat, feature: nat, tile: nat, vector: bool)
    requires feature < n <= stride && 0 < rows && (rows - 1) * stride + n <= out.Length && BiasFits(bias, n)
    requires vector ==> k % 8 == 0 && x.columnStride == 1 && w.columnStride == 1
    modifies out
    ensures forall a: nat {:trigger out[a]} | a < out.Length ::
              out[a] == if InBlock(a, stride, feature, firstRow, tile, rows) then Answer(x, w, bias, stride, k, a)
                  else old(out[a])
  {
    hide Sum, Products;
    var sums := AccumulateRows(x, w, firstRow, feature, rows, k, tile, vector);
    for r := 0 to tile
      modifies out
      invariant forall a: nat {:trigger out[a]} | a < out.Length ::
                  out[a] == if InBlock(a, stride, feature, firstRow, r, rows) then Answer(x, w, bias, stride, k, a)
                      else old(out[a])
    {
      var row := firstRow + r;
      if row < rows {
        StoreAt(out, stride, rows, n, row, feature, Biased(sums[r], bias, feature));
      }
    }
  }

  /** The launch: a block for every column and every tile of rows. */
  method Project(out: array<real>, stride: nat, x: Operand, w: Operand, bias: Option<seq<real>>, n: nat, rows: nat,
                 k: nat, tile: nat, vector: bool)
    requires 0 < n <= stride && 0 < rows && 0 < tile && (rows - 1) * stride + n <= out.Length && BiasFits(bias, n)
    requires vector ==> k % 8 == 0 && x.columnStride == 1 && w.columnStride == 1
    modifies out
    ensures forall a: nat {:trigger out[a]} | a < out.Length && a / stride < rows && a % stride < n ::
              out[a] == Dot(Element(x), Element(w), a / stride, a % stride, k)
                        + (if bias.Some? then bias.value[a % stride] else 0.0)
    ensures forall a: nat {:trigger out[a]} | a < out.Length && !(a / stride < rows && a % stride < n) ::
              out[a] == old(out[a])
  {
    hide Answer, Dot, Element;
    for rowTile := 0 to CeilDiv(rows, tile)
      invariant forall a: nat {:trigger out[a]} | a < out.Length ::
                  out[a] == if a / stride < rows && a / stride < rowTile * tile && a % stride < n
                      then Answer(x, w, bias, stride, k, a) else old(out[a])
    {
      assert (rowTile + 1) * tile == rowTile * tile + tile;
      for column := 0 to n
        invariant forall a: nat {:trigger out[a]} | a < out.Length ::
                    out[a] == if a / stride < rows && a % stride < n
                                 && (a / stride < rowTile * tile
                                     || (a / stride < (rowTile + 1) * tile && a % stride < column))
                              then Answer(x, w, bias, stride, k, a) else old(out[a])
      {
        RunBlock(out, stride, x, w, bias, n, rows, k, rowTile * tile, column, tile, vector);
      }
    }
    CeilDivBounds(rows, tile);
    forall a: nat | a < out.Length && a % stride < n { AnswerIsDot(x, w, bias, stride, k, a); }
  }
}
