/** The tiled projection: zero-filled shared tiles, four matrix steps a tile, and a flush
    of the accumulators every sixteen tiles when K is long. */
module TiledGemm {
  import opened IntMath
  import opened RealSums
  import opened Projection

  const THREADS: nat := 128
  const TILE_M: nat := 32
  const TILE_N: nat := 64
  const TILE_K: nat := 64

  // ---- Staging a tile ----

  /** What a tile slot must hold: the operand's element, or zero past its edges. */
  function Staged(source: Operand, firstRow: nat, rowCount: nat, kBase: nat, k: nat, r: nat, c: nat): real {
    if firstRow + r < rowCount && kBase + c < k then source.At(firstRow + r, kBase + c) else 0.0
  }

  /** Row and column of a vector's first element; the vector stays in that row. */
  function Place(index: nat): (p: (nat, nat))
    requires index % 8 == 0
    ensures index == p.0 * TILE_K + p.1 && p.1 % 8 == 0 && p.1 + 8 <= TILE_K
  {
    var p := (index / TILE_K, index % TILE_K);
    assert index == p.0 * TILE_K + p.1;
    assert p.1 == 8 * (p.1 / 8);
    p
  }

  /** One thread's vector step: eight neighbouring slots of a row. */
  method StoreEight(source: Operand, shared: array2<real>, firstRow: nat, rowCount: nat, kBase: nat, k: nat, index: nat)
    requires shared.Length1 == TILE_K && index % 8 == 0 && index + 8 <= shared.Length0 * TILE_K
    requires source.columnStride == 1 && k % 8 == 0 && kBase % 8 == 0
    modifies shared
    ensures forall r: nat, c: nat | r < shared.Length0 && c < TILE_K ::
              shared[r, c] == if index <= r * TILE_K + c < index + 8
                  then Staged(source, firstRow, rowCount, kBase, k, r, c)
                  else old(shared[r, c])
  {
    hide Staged, Place;
    var (row, column) := Place(index);
    WholeVector(index, kBase + column, k);
    var live := firstRow + row < rowCount && kBase + column < k;
    StoreVector(source, shared, firstRow, rowCount, kBase, k, row, column, live);
  }

  /** A vector lies in one row, and is inside K as a whole or not at all. */
  lemma WholeVector(index: nat, at: nat, k: nat)
    requires index % 8 == 0 && k % 8 == 0 && at % 8 == 0
    ensures index == index / TILE_K * TILE_K + index % TILE_K && index % TILE_K + 8 <= TILE_K
    ensures at < k ==> at + 8 <= k
  {
  }

  method StoreVector(source: Operand, shared: array2<real>, firstRow: nat, rowCount: nat, kBase: nat, k: nat, row: nat,
                     column: nat, live: bool)
    requires shared.Length1 == TILE_K && row < shared.Length0 && column + 8 <= TILE_K && source.columnStride == 1
    requires live == (firstRow + row < rowCount && kBase + column < k)
    requires kBase + column < k ==> kBase + column + 8 <= k
    modifies shared
    ensures forall r: nat, c: nat | r < shared.Length0 && c < TILE_K ::
              shared[r, c] == if r == row && column <= c < column + 8
                  then Staged(source, firstRow, rowCount, kBase, k, r, c)
                  else old(shared[r, c])
  {
    for t := 0 to 8
      invariant forall r: nat, c: nat | r < shared.Length0 && c < TILE_K ::
                  shared[r, c] == if r == row && column <= c < column + t
                      then Staged(source, firstRow, rowCount, kBase, k, r, c)
                      else old(shared[r, c])
    {
      shared[row, column + t] := if live then source.mem((firstRow + row) * source.rowStride + (kBase + column + t))
          else 0.0;
    }
  }

  method StoreScalar(source: Operand, shared: array2<real>, firstRow: nat, rowCount: nat, kBase: nat, k: nat,
                     index: nat)
    requires shared.Length1 == TILE_K && index < shared.Length0 * TILE_K
    modifies shared
    ensures forall r: nat, c: nat | r < shared.Length0 && c < TILE_K ::
              shared[r, c] == if index == r * TILE_K + c then Staged(source, firstRow, rowCount, kBase, k, r, c)
                  else old(shared[r, c])
  {
    var row, column := index / TILE_K, index % TILE_K;
    shared[row, column] := if firstRow + row < rowCount && kBase + column < k
        then source.At(firstRow + row, kBase + column) else 0.0;
  }

  /** Slots filled so far, in row order. */
  ghost predicate FilledUpTo(source: Operand, shared: array2<real>, firstRow: nat, rowCount: nat, kBase: nat, k: nat,
                             done: nat)
    requires shared.Length1 == TILE_K
    reads shared
  {
    forall r: nat, c: nat | r < shared.Length0 && c < TILE_K && r * TILE_K + c < done ::
      shared[r, c] == Staged(source, firstRow, rowCount, kBase, k, r, c)
  }

  /** How often all threads step, each over `each` elements of the tile, none left over. */
  function Steps(rows: nat, each: nat): (steps: nat)
    requires rows % 16 == 0 && (each == 1 || each == 8)
    ensures steps * (each * THREADS) == rows * TILE_K
  {
    StepsExact(rows / 16);
    rows * TILE_K / (each * THREADS)
  }

  lemma StepsExact(sixteens: nat)
    ensures 16 * sixteens * TILE_K / THREADS == 8 * sixteens
    ensures 16 * sixteens * TILE_K / (8 * THREADS) == sixteens
  {
    DivUnique(16 * sixteens * TILE_K, THREADS, 8 * sixteens);
    DivUnique(16 * sixteens * TILE_K, 8 * THREADS, sixteens);
  }

  /** All threads' vector steps fill the whole tile. */
  method LoadVector(source: Operand, shared: array2<real>, firstRow: nat, rowCount: nat, kBase: nat, k: nat)
    requires shared.Length1 == TILE_K && shared.Length0 % 16 == 0
    requires source.columnStride == 1 && k % 8 == 0 && kBase % 8 == 0
    modifies shared
    ensures FilledUpTo(source, shared, firstRow, rowCount, kBase, k, shared.Length0 * TILE_K)
  {
    hide Staged, Steps;
    for step := 0 to Steps(shared.Length0, 8)
      invariant FilledUpTo(source, shared, firstRow, rowCount, kBase, k, step * (8 * THREADS))
    {
      for tid := 0 to THREADS
        invariant FilledUpTo(source, shared, firstRow, rowCount, kBase, k, step * (8 * THREADS) + tid * 8)
      {
        StoreEight(source, shared, firstRow, rowCount, kBase, k, (tid + step * THREADS) * 8);
      }
    }
  }

  /** All threads' scalar steps fill the whole tile. */
  method LoadScalar(source: Operand, shared: array2<real>, firstRow: nat, rowCount: nat, kBase: nat, k: nat)
    requires shared.Length1 == TILE_K && shared.Length0 % 16 == 0
    modifies shared
    ensures FilledUpTo(source, shared, firstRow, rowCount, kBase, k, shared.Length0 * TILE_K)
  {
    hide Staged, Steps;
    for step := 0 to Steps(shared.Length0, 1)
      invariant FilledUpTo(source, shared, firstRow, rowCount, kBase, k, step * THREADS)
    {
      for tid := 0 to THREADS
        invariant FilledUpTo(source, shared, firstRow, rowCount, kBase, k, step * THREADS + tid)
      {
        StoreScalar(source, shared, firstRow, rowCount, kBase, k, tid + step * THREADS);
      }
    }
  }

  method LoadTile(source: Operand, shared: array2<real>, firstRow: nat, rowCount: nat, kBase: nat, k: nat, vector: bool)
    requires shared.Length1 == TILE_K && shared.Length0 % 16 == 0
    requires vector ==> source.columnStride == 1 && k % 8 == 0 && kBase % 8 == 0
    modifies shared
    ensures FilledUpTo(source, shared, firstRow, rowCount, kBase, k, shared.Length0 * TILE_K)
  {
    hide Staged;
    if vector {
      LoadVector(source, shared, firstRow, rowCount, kBase, k);
    } else {
      LoadScalar(source, shared, firstRow, rowCount, kBase, k);
    }
  }

  // ---- Multiplying a tile ----

  /** Products of one row and one feature of the staged tiles. */
  function StagedProducts(x: Operand, w: Operand, firstRow: nat, rows: nat, firstFeature: nat, n: nat, kBase: nat,
                          k: nat, i: nat, j: nat): nat -> real {
    (c: nat) => Times(Staged(x, firstRow, rows, kBase, k, i, c), Staged(w, firstFeature, n, kBase, k, j, c))
  }

  /** The products row by row and feature by feature, column by column. */
  type Table = (nat, nat) -> (nat -> real)

  ghost predicate Multiplies(a: array2<real>, b: array2<real>, p: Table)
    requires a.Length1 == b.Length1 == TILE_K
    reads a, b
  {
    forall i: nat, j: nat, c: nat | i < a.Length0 && j < b.Length0 && c < TILE_K ::
      p(i, j)(c) == Times(a[i, c], b[j, c])
  }

  /** One matrix step: sixteen columns of both tiles. */
  method Multiply(a: array2<real>, b: array2<real>, acc: array2<real>, step: nat, ghost p: Table)
    requires a.Length0 == acc.Length0 && b.Length0 == acc.Length1 && a.Length1 == b.Length1 == TILE_K && step < 4
    requires a != acc && b != acc && Multiplies(a, b, p)
    modifies acc
    ensures forall i: nat, j: nat | i < acc.Length0 && j < acc.Length1 ::
              acc[i, j] == old(acc[i, j]) + Sum(From(p(i, j), step * 16), 16)
  {
    hide Sum, From, Times;
    EmptySums();
    for t := 0 to 16
      invariant forall i: nat, j: nat | i < acc.Length0 && j < acc.Length1 ::
                  acc[i, j] == old(acc[i, j]) + Sum(From(p(i, j), step * 16), t)
    {
      forall i: nat, j: nat | i < acc.Length0 && j < acc.Length1
        ensures Sum(From(p(i, j), step * 16), t + 1)
             == Sum(From(p(i, j), step * 16), t) + Times(a[i, step * 16 + t], b[j, step * 16 + t])
      {
        NextTerm(p(i, j), step * 16, t);
      }
      forall i, j | 0 <= i < acc.Length0 && 0 <= j < acc.Length1 {
        acc[i, j] := acc[i, j] + Times(a[i, step * 16 + t], b[j, step * 16 + t]);
      }
    }
  }

  /** Four matrix steps take in the whole tile. */
  method MultiplyTile(a: array2<real>, b: array2<real>, acc: array2<real>, ghost p: Table)
    requires a.Length0 == acc.Length0 && b.Length0 == acc.Length1 && a.Length1 == b.Length1 == TILE_K
    requires a != acc && b != acc && Multiplies(a, b, p)
    modifies acc
    ensures forall i: nat, j: nat | i < acc.Length0 && j < acc.Length1 ::
      acc[i, j] == old(acc[i, j]) + Sum(p(i, j), TILE_K)
  {
    hide Sum, From, Multiplies;
    EmptySums();
    for step := 0 to 4
      invariant forall i: nat, j: nat | i < acc.Length0 && j < acc.Length1 ::
        acc[i, j] == old(acc[i, j]) + Sum(p(i, j), step * 16)
    {
      Multiply(a, b, acc, step, p);
      forall i: nat, j: nat | i < acc.Length0 && j < acc.Length1
        ensures acc[i, j] == old(acc[i, j]) + Sum(p(i, j), step * 16 + 16)
      {
        SumSplit(p(i, j), step * 16, 16);
      }
    }
  }

  /** A tile's contribution to one accumulator: all its columns. */
  function TileSums(x: Operand, w: Operand, firstRow: nat, rows: nat, firstFeature: nat, n: nat, k: nat, i: nat,
                    j: nat): nat -> real {
    (t: nat) => Sum(StagedProducts(x, w, firstRow, rows, firstFeature, n, t * TILE_K, k, i, j), TILE_K)
  }

  /** The products of two staged tiles. */
  function StagedTable(x: Operand, w: Operand, firstRow: nat, rows: nat, firstFeature: nat, n: nat, kBase: nat,
                       k: nat): Table {
    (i: nat, j: nat) => StagedProducts(x, w, firstRow, rows, firstFeature, n, kBase, k, i, j)
  }

  lemma StagedMultiply(a: array2<real>, b: array2<real>, x: Operand, w: Operand, firstRow: nat, rows: nat,
                       firstFeature: nat, n: nat, kBase: nat, k: nat)
    requires a.Length1 == b.Length1 == TILE_K
    requires FilledUpTo(x, a, firstRow, rows, kBase, k, a.Length0 * TILE_K)
    requires FilledUpTo(w, b, firstFeature, n, kBase, k, b.Length0 * TILE_K)
    ensures Multiplies(a, b, StagedTable(x, w, firstRow, rows, firstFeature, n, kBase, k))
  {
    hide Times, Staged;
  }

  lemma TileSumsAt(x: Operand, w: Operand, firstRow: nat, rows: nat, firstFeature: nat, n: nat, t: nat, k: nat)
    ensures forall i: nat, j: nat ::
              TileSums(x, w, firstRow, rows, firstFeature, n, k, i, j)(t)
              == Sum(StagedTable(x, w, firstRow, rows, firstFeature, n, t * TILE_K, k)(i, j), TILE_K)
  {
    hide Sum, StagedProducts;
  }

  /** The four matrix steps over two staged tiles. */
  method MultiplyStaged(a: array2<real>, b: array2<real>, acc: array2<real>, ghost x: Operand, ghost w: Operand,
                        ghost firstRow: nat, ghost rows: nat, ghost firstFeature: nat, ghost n: nat, ghost t: nat,
                        ghost k: nat)
    requires acc.Length0 == a.Length0 == TILE_M && acc.Length1 == b.Length0 == TILE_N
             && a.Length1 == b.Length1 == TILE_K
    requires a != acc && b != acc
    requires FilledUpTo(x, a, firstRow, rows, t * TILE_K, k, TILE_M * TILE_K)
    requires FilledUpTo(w, b, firstFeature, n, t * TILE_K, k, TILE_N * TILE_K)
    modifies acc
    ensures forall i: nat, j: nat | i < TILE_M && j < TILE_N ::
              acc[i, j] == old(acc[i, j]) + TileSums(x, w, firstRow, rows, firstFeature, n, k, i, j)(t)
  {
    hide Sum, FilledUpTo, Multiplies, StagedTable, TileSums;
    TileSumsAt(x, w, firstRow, rows, firstFeature, n, t, k);
    StagedMultiply(a, b, x, w, firstRow, rows, firstFeature, n, t * TILE_K, k);
    MultiplyTile(a, b, acc, StagedTable(x, w, firstRow, rows, firstFeature, n, t * TILE_K, k));
  }

  /** One tile of K: stage both operands, four matrix steps. */
  method AddTile(x: Operand, w: Operand, acc: array2<real>, firstRow: nat, rows: nat, firstFeature: nat, n: nat, t: nat,
                 k: nat, vector: bool)
    requires acc.Length0 == TILE_M && acc.Length1 == TILE_N
    requires vector ==> x.columnStride == 1 && w.columnStride == 1 && k % 8 == 0
    modifies acc
    ensures forall i: nat, j: nat | i < TILE_M && j < TILE_N ::
              acc[i, j] == old(acc[i, j]) + TileSums(x, w, firstRow, rows, firstFeature, n, k, i, j)(t)
  {
    hide Sum, FilledUpTo, TileSums;
    var a := new real[TILE_M, TILE_K]((_, _) => 0.0);
    var b := new real[TILE_N, TILE_K]((_, _) => 0.0);
    var kBase := t * TILE_K;
    assert kBase % 8 == 0 by { MulDiv(8 * t, 8); }
    LoadTile(x, a, firstRow, rows, kBase, k, vector);
    LoadTile(w, b, firstFeature, n, kBase, k, vector);
    MultiplyStaged(a, b, acc, x, w, firstRow, rows, firstFeature, n, t, k);
  }

  /** Long K: partial sums are moved aside every sixteen tiles and after the last. */
  predicate Flushes(k: nat, t: nat) {
    k > 4096 && ((t + 1) % 16 == 0 || t + 1 == CeilDiv(k, TILE_K))
  }

  /** From any tile the next flush comes at the end of its group of sixteen, or at the last
      tile: no partial sum runs longer, and none is left over. */
  lemma FlushIsNear(k: nat, t: nat) returns (f: nat)
    requires t < CeilDiv(k, TILE_K)
    ensures k <= 4096 ==> !Flushes(k, t)
    ensures t <= f < CeilDiv(k, TILE_K) && f / 16 == t / 16
    ensures k > 4096 ==> Flushes(k, f) && forall u | t <= u < f :: !Flushes(k, u)
  {
    f := Min(t / 16 * 16 + 15, CeilDiv(k, TILE_K) - 1);
  }

  /** The K loop. The flush drops and repeats no tile. */
  method AccumulateTile(x: Operand, w: Operand, firstRow: nat, rows: nat, firstFeature: nat, n: nat, k: nat,
                        vector: bool)
    returns (result: array2<real>)
    requires k > 0 && (vector ==> x.columnStride == 1 && w.columnStride == 1 && k % 8 == 0)
    ensures fresh(result) && result.Length0 == TILE_M && result.Length1 == TILE_N
    ensures forall i: nat, j: nat | i < TILE_M && j < TILE_N ::
              result[i, j] == Sum(TileSums(x, w, firstRow, rows, firstFeature, n, k, i, j), CeilDiv(k, TILE_K))
  {
    hide Sum, TileSums, CeilDiv;
    EmptySums();
    var acc := new real[TILE_M, TILE_N]((_, _) => 0.0);
    var accumulated := new real[TILE_M, TILE_N]((_, _) => 0.0);
    SomeTiles(k);
    for t := 0 to CeilDiv(k, TILE_K)
      modifies acc, accumulated
      invariant forall i: nat, j: nat | i < TILE_M && j < TILE_N ::
                  accumulated[i, j] + acc[i, j] == Sum(TileSums(x, w, firstRow, rows, firstFeature, n, k, i, j), t)
      invariant k <= 4096 ==> forall i: nat, j: nat | i < TILE_M && j < TILE_N :: accumulated[i, j] == 0.0
      invariant k > 4096 && t == CeilDiv(k, TILE_K) ==>
                  forall i: nat, j: nat | i < TILE_M && j < TILE_N :: acc[i, j] == 0.0
    {
      AddTile(x, w, acc, firstRow, rows, firstFeature, n, t, k, vector);
      forall i: nat, j: nat | i < TILE_M && j < TILE_N
        ensures accumulated[i, j] + acc[i, j] == Sum(TileSums(x, w, firstRow, rows, firstFeature, n, k, i, j), t + 1)
      {
        OneMore(TileSums(x, w, firstRow, rows, firstFeature, n, k, i, j), t);
      }
      if Flushes(k, t) {
        forall i, j | 0 <= i < TILE_M && 0 <= j < TILE_N {
          accumulated[i, j] := accumulated[i, j] + acc[i, j];
        }
        forall i, j | 0 <= i < TILE_M && 0 <= j < TILE_N {
          acc[i, j] := 0.0;
        }
      }
    }
    result := if k > 4096 then accumulated else acc;
  }

  lemma SomeTiles(k: nat)
    requires k > 0
    ensures CeilDiv(k, TILE_K) > 0 && k <= CeilDiv(k, TILE_K) * TILE_K
  {
    CeilDivBounds(k, TILE_K);
  }

  lemma OneMore(f: nat -> real, t: nat)
    ensures Sum(f, t + 1) == Sum(f, t) + f(t)
  {
  }

  /** For a live row and feature the tiles add up the whole dot product, zero fill and all. */
  lemma TilesAreDot(x: Operand, w: Operand, firstRow: nat, rows: nat, firstFeature: nat, n: nat, k: nat, i: nat, j: nat)
    requires k > 0 && firstRow + i < rows && firstFeature + j < n
    ensures Sum(TileSums(x, w, firstRow, rows, firstFeature, n, k, i, j), CeilDiv(k, TILE_K))
         == Sum(Products(x, w, firstRow + i, firstFeature + j), k)
  {
    hide Sum;
    var tiles := CeilDiv(k, TILE_K);
    var p := Products(x, w, firstRow + i, firstFeature + j);
    SomeTiles(k);
    CutSum(p, k, tiles * TILE_K);
    SumBlocks(Cut(p, k), tiles, TILE_K);
    forall t: nat | t < tiles
      ensures TileSums(x, w, firstRow, rows, firstFeature, n, k, i, j)(t) == Rows(Grid(Cut(p, k), TILE_K), TILE_K)(t)
    {
      SumSame(StagedProducts(x, w, firstRow, rows, firstFeature, n, t * TILE_K, k, i, j),
              (c: nat) => Grid(Cut(p, k), TILE_K)(t, c), TILE_K);
    }
    SumSame(TileSums(x, w, firstRow, rows, firstFeature, n, k, i, j), Rows(Grid(Cut(p, k), TILE_K), TILE_K), tiles);
  }

  // ---- Stores ----

  /** Address `a` is a live element among the first `done` elements of the tile. */
  predicate InTile(a: nat, stride: nat, firstRow: nat, rows: nat, firstFeature: nat, n: nat, done: nat)
    requires stride > 0
    ensures InTile(a, stride, firstRow, rows, firstFeature, n, done) ==> a / stride < rows && a % stride < n
  {
    && firstRow <= a / stride < firstRow + TILE_M && a / stride < rows
    && firstFeature <= a % stride < firstFeature + TILE_N && a % stride < n
    && (a / stride - firstRow) * TILE_N + (a % stride - firstFeature) < done
  }

  lemma TileStarts(a: nat, stride: nat, firstRow: nat, rows: nat, firstFeature: nat, n: nat)
    requires stride > 0
    ensures !InTile(a, stride, firstRow, rows, firstFeature, n, 0)
  {
  }

  /** Position `(i, j)` of the tile adds its own element, if the output has it. */
  lemma TileGrows(a: nat, stride: nat, firstRow: nat, rows: nat, firstFeature: nat, n: nat, i: nat, j: nat)
    requires stride > 0 && i < TILE_M && j < TILE_N
    ensures InTile(a, stride, firstRow, rows, firstFeature, n, i * TILE_N + (j + 1))
            <==> InTile(a, stride, firstRow, rows, firstFeature, n, i * TILE_N + j)
                 || (a / stride == firstRow + i < rows && a % stride == firstFeature + j < n)
  {
  }

  method RunTile(out: array<real>, stride: nat, x: Operand, w: Operand, bias: Option<seq<real>>, n: nat, rows: nat,
                 k: nat, firstRow: nat, firstFeature: nat, vector: bool)
    requires 0 < n <= stride && 0 < rows && k > 0 && (rows - 1) * stride + n <= out.Length && BiasFits(bias, n)
    requires vector ==> x.columnStride == 1 && w.columnStride == 1 && k % 8 == 0
    modifies out
    ensures forall a: nat {:trigger out[a]} | a < out.Length ::
              out[a] == if InTile(a, stride, firstRow, rows, firstFeature, n, TILE_M * TILE_N)
                  then Answer(x, w, bias, stride, k, a) else old(out[a])
  {
    hide Sum, Products, TileSums, InTile;
    forall a: nat | a < out.Length { TileStarts(a, stride, firstRow, rows, firstFeature, n); }
    var result := AccumulateTile(x, w, firstRow, rows, firstFeature, n, k, vector);
    for i := 0 to TILE_M
      modifies out
      invariant forall a: nat {:trigger out[a]} | a < out.Length ::
                  out[a] == if InTile(a, stride, firstRow, rows, firstFeature, n, i * TILE_N)
                      then Answer(x, w, bias, stride, k, a) else old(out[a])
    {
      for j := 0 to TILE_N
        modifies out
        invariant forall a: nat {:trigger out[a]} | a < out.Length ::
                    out[a] == if InTile(a, stride, firstRow, rows, firstFeature, n, i * TILE_N + j)
                        then Answer(x, w, bias, stride, k, a) else old(out[a])
      {
        forall a: nat | a < out.Length { TileGrows(a, stride, firstRow, rows, firstFeature, n, i, j); }
        var row, feature := firstRow + i, firstFeature + j;
        if row < rows && feature < n {
          TilesAreDot(x, w, firstRow, rows, firstFeature, n, k, i, j);
          StoreAt(out, stride, rows, n, row, feature, Biased(result[i, j], bias, feature));
        }
      }
    }
  }

  /** Element `a` is stored once the tiles of earlier rows, and `nTile` tiles of row tile
      `mTile`, have run. */
  predicate StoredBy(a: nat, stride: nat, rows: nat, n: nat, mTile: nat, nTile: nat)
    requires stride > 0
    ensures StoredBy(a, stride, rows, n, mTile, nTile) ==> a / stride < rows && a % stride < n
  {
    RowStored(a / stride, a % stride, rows, n, mTile, nTile)
  }

  predicate RowStored(row: nat, column: nat, rows: nat, n: nat, mTile: nat, nTile: nat) {
    && row < rows && column < n
    && (row < mTile * TILE_M || (row < (mTile + 1) * TILE_M && column < nTile * TILE_N))
  }

  lemma TileStores(a: nat, stride: nat, rows: nat, n: nat, mTile: nat, nTile: nat)
    requires stride > 0
    ensures StoredBy(a, stride, rows, n, mTile, nTile + 1)
            <==> StoredBy(a, stride, rows, n, mTile, nTile)
                 || InTile(a, stride, mTile * TILE_M, rows, nTile * TILE_N, n, TILE_M * TILE_N)
  {
  }

  /** Nothing is stored at first; the last tile of a row finishes it, the last row all. */
  lemma TilesStoreAll(a: nat, stride: nat, rows: nat, n: nat, mTile: nat)
    requires stride > 0
    ensures !StoredBy(a, stride, rows, n, 0, 0)
    ensures StoredBy(a, stride, rows, n, mTile, CeilDiv(n, TILE_N)) <==> StoredBy(a, stride, rows, n, mTile + 1, 0)
    ensures StoredBy(a, stride, rows, n, CeilDiv(rows, TILE_M), 0) <==> a / stride < rows && a % stride < n
  {
    CeilDivBounds(n, TILE_N);
    CeilDivBounds(rows, TILE_M);
    hide CeilDiv;
  }

  /** The launch: every tile of rows and features. */
  method Project(out: array<real>, stride: nat, x: Operand, w: Operand, bias: Option<seq<real>>, n: nat, rows: nat,
                 k: nat, vector: bool)
    requires 0 < n <= stride && 0 < rows && k > 0 && (rows - 1) * stride + n <= out.Length && BiasFits(bias, n)
    requires vector ==> x.columnStride == 1 && w.columnStride == 1 && k % 8 == 0
    modifies out
    ensures forall a: nat {:trigger out[a]} | a < out.Length && a / stride < rows && a % stride < n ::
              out[a] == Dot(Element(x), Element(w), a / stride, a % stride, k)
                        + (if bias.Some? then bias.value[a % stride] else 0.0)
    ensures forall a: nat {:trigger out[a]} | a < out.Length && !(a / stride < rows && a % stride < n) ::
              out[a] == old(out[a])
  {
    hide Answer, StoredBy, InTile, Dot, Element;
    forall a: nat | a < out.Length { TilesStoreAll(a, stride, rows, n, 0); }
    for mTile := 0 to CeilDiv(rows, TILE_M)
      invariant forall a: nat {:trigger out[a]} | a < out.Length ::
                  out[a] == if StoredBy(a, stride, rows, n, mTile, 0) then Answer(x, w, bias, stride, k, a)
                            else old(out[a])
    {
      for nTile := 0 to CeilDiv(n, TILE_N)
        invariant forall a: nat {:trigger out[a]} | a < out.Length ::
                    out[a] == if StoredBy(a, stride, rows, n, mTile, nTile) then Answer(x, w, bias, stride, k, a)
                              else old(out[a])
      {
        RunTile(out, stride, x, w, bias, n, rows, k, mTile * TILE_M, nTile * TILE_N, vector);
        forall a: nat | a < out.Length { TileStores(a, stride, rows, n, mTile, nTile); }
      }
      forall a: nat | a < out.Length { TilesStoreAll(a, stride, rows, n, mTile); }
    }
    forall a: nat | a < out.Length && a % stride < n { AnswerIsDot(x, w, bias, stride, k, a); }
  }
}
