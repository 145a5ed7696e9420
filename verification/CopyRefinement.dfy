/** The byte copy of a state block refines the protocol's block copy: if memory holds the
    pool's states before, it holds the copied pool's states afterwards, however samples and
    histories are encoded in bytes. */
module CopyRefinement {
  import opened Bytes
  import opened IntMath
  import opened AlignState
  import opened StateBlockCopy
  import opened LaneOrder

  // ---- Tokens of a window ----

  /** The block at `addr` lies in memory, and its rows hold their tokens. */
  predicate BlockFits(length: nat, m: StateMeta, dimFirst: bool, addr: nat) {
    addr + DataBytes(m, dimFirst) <= length && (m.width > 0 && dimFirst ==> m.width * m.elemSize <= m.rowStride)
  }

  /** The bytes of token `t` of the window at `addr`: one run, or one in every row. */
  function Runs(mem: seq<Byte>, m: StateMeta, dimFirst: bool, addr: nat, t: nat): seq<seq<Byte>>
    requires BlockFits(|mem|, m, dimFirst, addr) && t < m.width
  {
    if dimFirst then
      seq(m.rows, row requires 0 <= row < m.rows =>
          (RowTokenInside(addr, m.rows, m.rowStride, m.elemSize, m.width, row, t);
           RowTokenAt(mem, addr, m.rowStride, m.elemSize, row, t)))
    else
      RowInside(m.width, m.innerSize * m.elemSize, t);
      [TokenAt(mem, addr, m.innerSize * m.elemSize, t)]
  }

  /** The copy moves whole tokens: those from `bias` on to the front, the others stay. */
  lemma RunsCopied(before: seq<Byte>, after: seq<Byte>, m: StateMeta, dimFirst: bool, src: nat, dst: nat, bias: nat,
                   t: nat)
    requires t < m.width && bias <= m.width && |after| == |before|
    requires BlockFits(|before|, m, dimFirst, src) && BlockFits(|before|, m, dimFirst, dst)
    requires DataCopied(before, after, m, dimFirst, src, dst, bias)
    ensures Runs(after, m, dimFirst, dst, t) == if t < m.width - bias
            then Runs(before, m, dimFirst, src, t + bias) else Runs(before, m, dimFirst, dst, t)
  {
    if dimFirst {
      hide RowsShifted, RowTokenAt, At;
      forall row: nat | row < m.rows
        ensures Runs(after, m, dimFirst, dst, t)[row] == if t < m.width - bias
                then Runs(before, m, dimFirst, src, t + bias)[row] else Runs(before, m, dimFirst, dst, t)[row]
      {
        ShiftMovesRowTokens(before, after, src, dst, m.rows, m.rowStride, m.elemSize, m.width, bias, row, t);
      }
    } else {
      hide Shifted, TokenAt;
      var tokenBytes := m.innerSize * m.elemSize;
      ShiftMovesTokens(before, after, src, dst, m.width, tokenBytes, bias, bias * tokenBytes,
                       (m.width - bias) * tokenBytes, t);
    }
  }

  /** The bytes of a block are as they were. */
  ghost predicate SameBlock(before: seq<Byte>, after: seq<Byte>, m: StateMeta, dimFirst: bool, addr: nat) {
    |after| == |before| && addr + DataBytes(m, dimFirst) <= |before|
    && forall a: nat {:trigger after[a]} | addr <= a < addr + DataBytes(m, dimFirst) :: after[a] == before[a]
  }

  lemma SlicesSame(before: seq<Byte>, after: seq<Byte>, m: StateMeta, dimFirst: bool, addr: nat, from: nat, n: nat)
    requires SameBlock(before, after, m, dimFirst, addr)
    requires addr <= from && from + n <= addr + DataBytes(m, dimFirst)
    ensures from + n <= |before| == |after| && after[from..from + n] == before[from..from + n]
  {
  }

  lemma RowTokenSame(before: seq<Byte>, after: seq<Byte>, m: StateMeta, addr: nat, row: nat, t: nat)
    requires m.width > 0 && SameBlock(before, after, m, true, addr)
    requires At(addr, row, m.rowStride, t * m.elemSize) + m.elemSize <= addr + m.rows * m.rowStride
    ensures addr + m.rows * m.rowStride <= |before| == |after|
    ensures RowTokenAt(after, addr, m.rowStride, m.elemSize, row, t)
         == RowTokenAt(before, addr, m.rowStride, m.elemSize, row, t)
  {
    AtStarts(addr, row, m.rowStride, t * m.elemSize);
    hide At;
    SlicesSame(before, after, m, true, addr, At(addr, row, m.rowStride, t * m.elemSize), m.elemSize);
  }

  lemma AtStarts(base: nat, row: nat, rowStride: nat, x: nat)
    ensures base <= At(base, row, rowStride, x)
  {
  }

  lemma RunsSame(before: seq<Byte>, after: seq<Byte>, m: StateMeta, dimFirst: bool, addr: nat, t: nat)
    requires t < m.width && |after| == |before| && BlockFits(|before|, m, dimFirst, addr)
    requires SameBlock(before, after, m, dimFirst, addr)
    ensures Runs(after, m, dimFirst, addr, t) == Runs(before, m, dimFirst, addr, t)
  {
    hide SameBlock;
    if dimFirst {
      hide RowTokenAt, At;
      forall row: nat | row < m.rows
        ensures Runs(after, m, dimFirst, addr, t)[row] == Runs(before, m, dimFirst, addr, t)[row]
      {
        RowTokenInside(addr, m.rows, m.rowStride, m.elemSize, m.width, row, t);
        RowTokenSame(before, after, m, addr, row, t);
      }
    } else {
      var tokenBytes := m.innerSize * m.elemSize;
      RowInside(m.width, tokenBytes, t);
      SlicesSame(before, after, m, dimFirst, addr, addr + t * tokenBytes, tokenBytes);
    }
  }

  // ---- What the copy leaves alone ----

  /** The copy writes only the data bytes of the destination block. */
  lemma CopyKeepsRest(before: seq<Byte>, after: seq<Byte>, m: StateMeta, dimFirst: bool, src: nat, dst: nat, bias: nat)
    requires DataCopied(before, after, m, dimFirst, src, dst, bias)
    ensures |after| == |before|
    ensures forall a: nat {:trigger after[a]} | a < |before| && !(dst <= a < dst + DataBytes(m, dimFirst)) ::
              after[a] == before[a]
  {
    if m.width > 0 && !dimFirst { MulMono(m.width - bias, m.width, m.innerSize * m.elemSize); }
  }

  lemma OtherBlocksSame(before: seq<Byte>, after: seq<Byte>, m: StateMeta, dimFirst: bool, src: nat, dstBlock: nat,
                        bias: nat, b: nat)
    requires DataCopied(before, after, m, dimFirst, src, BlockAddr(m, dstBlock), bias)
    requires b != dstBlock && DataBytes(m, dimFirst) <= m.blockStride
    requires BlockAddr(m, b) + DataBytes(m, dimFirst) <= |before|
    ensures SameBlock(before, after, m, dimFirst, BlockAddr(m, b))
  {
    hide DataCopied, DataBytes, BlockAddr;
    CopyKeepsRest(before, after, m, dimFirst, src, BlockAddr(m, dstBlock), bias);
    BlocksApart(m, b, dstBlock, DataBytes(m, dimFirst));
  }

  // ---- Convolution windows ----

  /** Memory holds a window in block `b`; `read` decodes the bytes of a token. */
  ghost predicate HoldsWindow(mem: seq<Byte>, m: StateMeta, dimFirst: bool, read: seq<seq<Byte>> -> Sample, b: nat,
                              window: seq<Sample>)
  {
    && BlockFits(|mem|, m, dimFirst, BlockAddr(m, b)) && |window| == m.width
    && forall t: nat | t < m.width :: window[t] == read(Runs(mem, m, dimFirst, BlockAddr(m, b), t))
  }

  ghost predicate HoldsWindows(mem: seq<Byte>, m: StateMeta, dimFirst: bool, read: seq<seq<Byte>> -> Sample,
                               conv: seq<seq<Sample>>)
  {
    forall b | 0 <= b < |conv| :: HoldsWindow(mem, m, dimFirst, read, b, conv[b])
  }

  lemma WindowCopied(before: seq<Byte>, after: seq<Byte>, m: StateMeta, dimFirst: bool,
                     read: seq<seq<Byte>> -> Sample, srcBlock: nat, dstBlock: nat, bias: nat, from: seq<Sample>,
                     to: seq<Sample>)
    requires bias <= m.width && |after| == |before|
    requires HoldsWindow(before, m, dimFirst, read, srcBlock, from)
    requires HoldsWindow(before, m, dimFirst, read, dstBlock, to)
    requires DataCopied(before, after, m, dimFirst, BlockAddr(m, srcBlock), BlockAddr(m, dstBlock), bias)
    ensures HoldsWindow(after, m, dimFirst, read, dstBlock, from[bias..] + to[m.width - bias..])
  {
    hide DataCopied, DataBytes, BlockAddr, Runs;
    forall t: nat | t < m.width
      ensures (from[bias..] + to[m.width - bias..])[t] == read(Runs(after, m, dimFirst, BlockAddr(m, dstBlock), t))
    {
      RunsCopied(before, after, m, dimFirst, BlockAddr(m, srcBlock), BlockAddr(m, dstBlock), bias, t);
    }
  }

  lemma WindowSame(before: seq<Byte>, after: seq<Byte>, m: StateMeta, dimFirst: bool,
                   read: seq<seq<Byte>> -> Sample, b: nat, window: seq<Sample>)
    requires |after| == |before| && HoldsWindow(before, m, dimFirst, read, b, window)
    requires SameBlock(before, after, m, dimFirst, BlockAddr(m, b))
    ensures HoldsWindow(after, m, dimFirst, read, b, window)
  {
    hide DataBytes, BlockAddr, Runs, SameBlock;
    forall t: nat | t < m.width
      ensures window[t] == read(Runs(after, m, dimFirst, BlockAddr(m, b), t))
    {
      RunsSame(before, after, m, dimFirst, BlockAddr(m, b), t);
    }
  }

  /** The byte copy of a convolution tensor, in either layout, is the protocol's copy. */
  lemma CopyRefinesWindows(l: Layout, p: Pool, table: seq<nat>, srcCol: nat, dstCol: nat, bias: nat,
                           before: seq<Byte>, after: seq<Byte>, m: StateMeta, dimFirst: bool,
                           read: seq<seq<Byte>> -> Sample, biasedBlock: nat)
    requires CopyFits(l, p, table, srcCol, dstCol, bias)
    requires m.width == l.width > 0 && DataBytes(m, dimFirst) <= m.blockStride
    requires HoldsWindows(before, m, dimFirst, read, p.conv)
    requires BlockCopied(before, after, m, dimFirst, table[srcCol], biasedBlock, table[dstCol], bias)
    ensures HoldsWindows(after, m, dimFirst, read, CopyBlock(l, p, table, srcCol, dstCol, bias).conv)
  {
    hide DataCopied, DataBytes, HoldsWindow, SameBlock;
    var src, dst := table[srcCol], table[dstCol];
    var conv := CopyBlock(l, p, table, srcCol, dstCol, bias).conv;
    CopyKeepsRest(before, after, m, dimFirst, BlockAddr(m, src), BlockAddr(m, dst), bias);
    forall b: nat | b < |conv|
      ensures HoldsWindow(after, m, dimFirst, read, b, conv[b])
    {
      if b == dst {
        WindowCopied(before, after, m, dimFirst, read, src, dst, bias, p.conv[src], p.conv[dst]);
      } else {
        WindowFits(before, m, dimFirst, read, b, p.conv[b]);
        OtherBlocksSame(before, after, m, dimFirst, BlockAddr(m, src), dst, bias, b);
        WindowSame(before, after, m, dimFirst, read, b, p.conv[b]);
      }
    }
  }

  lemma WindowFits(mem: seq<Byte>, m: StateMeta, dimFirst: bool, read: seq<seq<Byte>> -> Sample, b: nat,
                   window: seq<Sample>)
    requires HoldsWindow(mem, m, dimFirst, read, b, window)
    ensures BlockAddr(m, b) + DataBytes(m, dimFirst) <= |mem|
  {
  }

  // ---- Temporal states ----

  /** Memory holds a temporal state in block `b`; `read` decodes its bytes. */
  ghost predicate HoldsState(mem: seq<Byte>, m: StateMeta, read: seq<Byte> -> History, b: nat, h: History) {
    var addr, size := BlockAddr(m, b), m.innerSize * m.elemSize;
    addr + size <= |mem| && read(mem[addr..addr + size]) == h
  }

  ghost predicate HoldsStates(mem: seq<Byte>, m: StateMeta, read: seq<Byte> -> History, temporal: seq<History>) {
    forall b | 0 <= b < |temporal| :: HoldsState(mem, m, read, b, temporal[b])
  }

  lemma StateCopied(before: seq<Byte>, after: seq<Byte>, m: StateMeta, dimFirst: bool, read: seq<Byte> -> History,
                    srcBlock: nat, dstBlock: nat, bias: nat, h: History)
    requires m.width == 0 && HoldsState(before, m, read, srcBlock, h)
    requires BlockAddr(m, dstBlock) + m.innerSize * m.elemSize <= |before|
    requires DataCopied(before, after, m, dimFirst, BlockAddr(m, srcBlock), BlockAddr(m, dstBlock), bias)
    ensures HoldsState(after, m, read, dstBlock, h)
  {
    SliceMoved(before, after, BlockAddr(m, srcBlock), BlockAddr(m, dstBlock), m.innerSize * m.elemSize, 0,
               m.innerSize * m.elemSize);
  }

  /** The byte copy of a temporal tensor is the protocol's copy. */
  lemma CopyRefinesStates(l: Layout, p: Pool, table: seq<nat>, srcCol: nat, dstCol: nat, bias: nat,
                          before: seq<Byte>, after: seq<Byte>, m: StateMeta, dimFirst: bool,
                          read: seq<Byte> -> History, srcBlock: nat)
    requires CopyFits(l, p, table, srcCol, dstCol, bias)
    requires m.width == 0 && DataBytes(m, dimFirst) <= m.blockStride
    requires HoldsStates(before, m, read, p.temporal)
    requires BlockCopied(before, after, m, dimFirst, srcBlock, table[srcCol + bias], table[dstCol], bias)
    ensures HoldsStates(after, m, read, CopyBlock(l, p, table, srcCol, dstCol, bias).temporal)
  {
    hide DataCopied, SameBlock;
    var src, dst, size := table[srcCol + bias], table[dstCol], m.innerSize * m.elemSize;
    var temporal := CopyBlock(l, p, table, srcCol, dstCol, bias).temporal;
    CopyKeepsRest(before, after, m, dimFirst, BlockAddr(m, src), BlockAddr(m, dst), bias);
    forall b: nat | b < |temporal|
      ensures HoldsState(after, m, read, b, temporal[b])
    {
      assert HoldsState(before, m, read, b, p.temporal[b]);
      if b == dst {
        StateCopied(before, after, m, dimFirst, read, src, dst, bias, p.temporal[src]);
      } else {
        OtherBlocksSame(before, after, m, dimFirst, BlockAddr(m, src), dst, bias, b);
        SlicesSame(before, after, m, dimFirst, BlockAddr(m, b), BlockAddr(m, b), size);
      }
    }
  }
}
