/** What every projection kernel computes: `out[m, n] = sum_k x[m, k] * w[n, k] + bias[n]`
    over strided operands, and the check that the output overlaps no input. */
module Projection {
  import opened IntMath
  import opened RealSums

  /** A strided operand in memory. */
  datatype Operand = Operand(mem: nat -> real, rowStride: nat, columnStride: nat) {
    function At(row: nat, column: nat): real {
      mem(row * rowStride + column * columnStride)
    }
  }

  lemma UnitColumns(x: Operand, row: nat, column: nat)
    requires x.columnStride == 1
    ensures x.mem(row * x.rowStride + column) == x.At(row, column)
  {
  }

  /** The products a row and a feature have to add up. */
  function Products(x: Operand, w: Operand, row: nat, feature: nat): nat -> real {
    (k: nat) => Times(x.At(row, k), w.At(feature, k))
  }

  /** Terms past the end count as zero. */
  function Cut(p: nat -> real, n: nat): nat -> real {
    (i: nat) => if i < n then p(i) else 0.0
  }

  lemma {:induction false} CutSum(p: nat -> real, n: nat, m: nat)
    requires n <= m
    ensures Sum(Cut(p, n), m) == Sum(p, n)
  {
    if m > n {
      CutSum(p, n, m - 1);
    } else {
      SumSame(Cut(p, n), p, n);
    }
  }

  /** A bias is added once, if there is one. */
  function Biased(total: real, bias: Option<seq<real>>, feature: nat): real
    requires bias.Some? ==> feature < |bias.value|
  {
    if bias.Some? then total + bias.value[feature] else total
  }

  /** What address `a` of the output must hold. */
  function Answer(x: Operand, w: Operand, bias: Option<seq<real>>, stride: nat, k: nat, a: nat): real
    requires stride > 0 && (bias.Some? ==> a % stride < |bias.value|)
  {
    Biased(Sum(Products(x, w, a / stride, a % stride), k), bias, a % stride)
  }

  /** The element at a row and column, written out in memory. */
  function Element(x: Operand): (nat, nat) -> real {
    (r: nat, c: nat) => x.mem(r * x.rowStride + c * x.columnStride)
  }

  /** It is the dot product of the two strided rows, and the bias of the feature if there
      is one. */
  lemma AnswerIsDot(x: Operand, w: Operand, bias: Option<seq<real>>, stride: nat, k: nat, a: nat)
    requires stride > 0 && (bias.Some? ==> a % stride < |bias.value|)
    ensures Answer(x, w, bias, stride, k, a)
            == Dot(Element(x), Element(w), a / stride, a % stride, k)
               + (if bias.Some? then bias.value[a % stride] else 0.0)
  {
    var row, feature := a / stride, a % stride;
    forall i: nat | i < k
      ensures Products(x, w, row, feature)(i) == Element(x)(row, i) * Element(w)(feature, i)
    {
    }
    SumSame(Products(x, w, row, feature), (i: nat) => Element(x)(row, i) * Element(w)(feature, i), k);
  }

  predicate BiasFits(bias: Option<seq<real>>, n: nat) {
    bias.Some? ==> |bias.value| == n
  }

  lemma Address(row: nat, feature: nat, stride: nat, rows: nat, n: nat, length: nat)
    requires feature < n <= stride && row < rows && (rows - 1) * stride + n <= length
    ensures row * stride + feature < length
    ensures (row * stride + feature) / stride == row && (row * stride + feature) % stride == feature
  {
    MulMono(row, rows - 1, stride);
    assert (row + 1) * stride == row * stride + stride;
    DivUnique(row * stride + feature, stride, row);
    assert row * stride + feature == stride * ((row * stride + feature) / stride) + (row * stride + feature) % stride;
  }

  lemma AddressUnique(a: nat, row: nat, feature: nat, stride: nat)
    requires stride > 0 && a / stride == row && a % stride == feature
    ensures a == row * stride + feature
  {
    assert a == stride * (a / stride) + a % stride;
  }

  /** Store one element of the output. */
  method StoreAt(out: array<real>, stride: nat, rows: nat, n: nat, row: nat, feature: nat, value: real)
    requires feature < n <= stride && row < rows && (rows - 1) * stride + n <= out.Length
    modifies out
    ensures forall a: nat {:trigger out[a]} | a < out.Length ::
              out[a] == if a / stride == row && a % stride == feature then value else old(out[a])
  {
    Address(row, feature, stride, rows, n, out.Length);
    forall a: nat {:trigger out[a]} | a < out.Length && a / stride == row && a % stride == feature
      ensures a == row * stride + feature
    {
      AddressUnique(a, row, feature, stride);
    }
    out[row * stride + feature] := value;
  }

  // ---- Validation ----

  /** Elements from the first to one past the last of a strided matrix. */
  function SpanOf(rows: nat, columns: nat, rowStride: nat, columnStride: nat): int {
    1 + (rows - 1) * rowStride + (columns - 1) * columnStride
  }

  function OutputEnd(start: nat, rows: nat, columns: nat, stride: nat, bytes: nat): int {
    start + ((rows - 1) * stride + columns) * bytes
  }

  /** The test `_validate` makes for one input. */
  predicate Overlaps(outStart: nat, outEnd: int, start: nat, rows: nat, columns: nat, rowStride: nat, columnStride: nat,
                     bytes: nat) {
    outStart < start + SpanOf(rows, columns, rowStride, columnStride) * bytes && start < outEnd
  }

  lemma ElementInside(row: nat, column: nat, rows: nat, columns: nat, rowStride: nat, columnStride: nat)
    requires row < rows && column < columns
    ensures 0 <= row * rowStride + column * columnStride <= SpanOf(rows, columns, rowStride, columnStride) - 1
  {
    MulMono(row, rows - 1, rowStride);
    MulMono(column, columns - 1, columnStride);
  }

  /** If the test passes, no byte of any output element is a byte of any input element. */
  lemma NoOverlap(outStart: nat, m: nat, n: nat, stride: nat, outBytes: nat, row: nat, feature: nat, x: nat,
                  start: nat, rows: nat, columns: nat, rowStride: nat, columnStride: nat, bytes: nat, i: nat, j: nat,
                  y: nat)
    requires row < m && feature < n && n <= stride && x < outBytes && i < rows && j < columns && y < bytes
    requires !Overlaps(outStart, OutputEnd(outStart, m, n, stride, outBytes), start, rows, columns, rowStride,
                       columnStride, bytes)
    ensures outStart + (row * stride + feature) * outBytes + x != start + (i * rowStride + j * columnStride) * bytes + y
  {
    ElementInside(i, j, rows, columns, rowStride, columnStride);
    MulMono(row, m - 1, stride);
    var o, e := row * stride + feature, i * rowStride + j * columnStride;
    LastByte(o, (m - 1) * stride + n, outBytes, x);
    LastByte(e, SpanOf(rows, columns, rowStride, columnStride), bytes, y);
  }

  predicate Among(a: nat, first: int, last: int) {
    first <= a <= last
  }

  lemma CommonAddress(first: nat, last: nat, start: nat, end: nat)
    requires first <= last && start <= end
    ensures first <= end && start <= last
            <==> exists a: nat {:trigger Among(a, first, last)} :: Among(a, first, last) && Among(a, start, end)
  {
    if first <= end && start <= last {
      var a := if first <= start then start else first;
      assert Among(a, first, last) && Among(a, start, end);
    }
  }

  lemma EndIsPastLast(span: int, e: nat, bytes: nat)
    requires bytes > 0 && span == e + 1
    ensures span * bytes == e * bytes + (bytes - 1) + 1 && 0 <= e * bytes
  {
  }

  /** The test refuses exactly if the stretch of memory from the first to the last byte of
      the input and that of the output have a byte in common. */
  lemma RefusesCommonBytes(outStart: nat, m: nat, n: nat, stride: nat, outBytes: nat, o: nat, start: nat, rows: nat,
                           columns: nat, rowStride: nat, columnStride: nat, bytes: nat, e: nat)
    requires 0 < m && 0 < n <= stride && 0 < outBytes && 0 < rows && 0 < columns && 0 < bytes
    requires o == (m - 1) * stride + (n - 1) && e == (rows - 1) * rowStride + (columns - 1) * columnStride
    ensures Overlaps(outStart, OutputEnd(outStart, m, n, stride, outBytes), start, rows, columns, rowStride,
                     columnStride, bytes)
            <==> exists a: nat {:trigger Among(a, start, start + e * bytes + (bytes - 1))} ::
                   && Among(a, outStart, outStart + o * outBytes + (outBytes - 1))
                   && Among(a, start, start + e * bytes + (bytes - 1))
  {
    hide Among;
    EndIsPastLast((m - 1) * stride + n, o, outBytes);
    SpanIs(rows, columns, rowStride, columnStride, e);
    EndIsPastLast(SpanOf(rows, columns, rowStride, columnStride), e, bytes);
    hide SpanOf;
    CommonAddress(start, start + e * bytes + (bytes - 1), outStart, outStart + o * outBytes + (outBytes - 1));
  }

  lemma SpanIs(rows: nat, columns: nat, rowStride: nat, columnStride: nat, e: nat)
    requires e == (rows - 1) * rowStride + (columns - 1) * columnStride
    ensures SpanOf(rows, columns, rowStride, columnStride) == e + 1
  {
  }

  lemma LastByte(e: nat, span: nat, bytes: nat, y: nat)
    requires e < span && y < bytes
    ensures e * bytes + y < span * bytes
  {
    MulMono(e + 1, span, bytes);
    assert (e + 1) * bytes == e * bytes + bytes;
  }
}
