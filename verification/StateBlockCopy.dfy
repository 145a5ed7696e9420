/** The byte copies behind one state block: convolution windows in token-major (SD) and
    row-major (DS) layout, temporal states, and the pointer-batch copy. All act as
    memmove: the bytes read are the ones present before the copy started. */
module StateBlockCopy {
  import opened Bytes
  import opened IntMath
  import opened RaceFree
  import opened TiledMemcpy

  /** One state tensor: where its blocks are, and the shape of one block. `width` is 0
      for a temporal state; `rows` and `rowStride` describe the row-major window. */
  datatype StateMeta = StateMeta(base: nat, blockStride: nat, elemSize: nat, innerSize: nat, width: nat,
                                 rows: nat, rowStride: nat)

  function BlockAddr(m: StateMeta, block: nat): nat {
    m.base + block * m.blockStride
  }

  lemma BlocksApart(m: StateMeta, a: nat, b: nat, size: nat)
    requires a != b && size <= m.blockStride
    ensures Disjoint(BlockAddr(m, a), BlockAddr(m, b), size)
  {
    if a < b { MulMono(a + 1, b, m.blockStride); } else { MulMono(b + 1, a, m.blockStride); }
    assert (a + 1) * m.blockStride == a * m.blockStride + m.blockStride;
    assert (b + 1) * m.blockStride == b * m.blockStride + m.blockStride;
  }

  // ---- Token-major window ----

  /** The window of `dst` becomes the window of `src` from token `bias` on. */
  ghost predicate Shifted(before: seq<Byte>, after: seq<Byte>, src: nat, dst: nat, size: nat)
    requires src + size <= |before|
  {
    && |after| == |before|
    && forall a: nat {:trigger after[a]} | a < |before| ::
         after[a] == if dst <= a < dst + size then before[src + (a - dst)] else before[a]
  }

  /** A single tile owns the whole copy. */
  lemma OneTileOwnsAll(src: nat, dst: nat, size: nat, vec: nat)
    requires vec > 0
    ensures forall o: nat | o < size :: Owns(src, dst, size, 1, vec, 0, o)
  {
    forall o: nat | o < size
      ensures Owns(src, dst, size, 1, vec, 0, o)
    {
      var t := ByteHasOneTile(src, dst, size, 1, vec, o);
    }
  }

  /** One program without a tile axis. */
  method CopyWhole(mem: array<Byte>, src: nat, dst: nat, size: nat, vec: nat)
    requires vec > 0 && Regions(mem.Length, src, dst, size)
    modifies mem
    ensures Shifted(old(mem[..]), mem[..], src, dst, size)
  {
    hide Owns, Fast;
    CopyTile(mem, src, dst, size, 0, 1, vec);
    OneTileOwnsAll(src, dst, size, vec);
  }

  lemma NothingShifted(mem: seq<Byte>, src: nat, dst: nat)
    requires src <= |mem|
    ensures Shifted(mem, mem, src, dst, 0)
  {
  }

  /** All bytes loaded, then all stored. */
  method CopyLoaded(mem: array<Byte>, src: nat, dst: nat, n: nat)
    requires src + n <= mem.Length && dst + n <= mem.Length
    modifies mem
    ensures Shifted(old(mem[..]), mem[..], src, dst, n)
  {
    CopyVector(mem, src, dst, n);
  }

  /** Copying the next `n` bytes, loaded first, extends a copy whose regions may overlap
      to the left. */
  lemma SpanExtends(first: seq<Byte>, before: seq<Byte>, after: seq<Byte>, src: nat, dst: nat, size: nat, n: nat)
    requires src + size + n <= |first| && dst + size + n <= |first| && (dst <= src || src + size + n <= dst)
    requires Shifted(first, before, src, dst, size) && Shifted(before, after, src + size, dst + size, n)
    ensures Shifted(first, after, src, dst, size + n)
  {
  }

  /** The same-block branch: token by token, low to high, each token a disjoint copy. */
  method ShiftTokens(mem: array<Byte>, block: nat, shift: nat, kept: nat, tokenBytes: nat, vec: nat)
    requires vec > 0 && tokenBytes <= shift
    requires block + shift + kept * tokenBytes <= mem.Length
    modifies mem
    ensures Shifted(old(mem[..]), mem[..], block + shift, block, kept * tokenBytes)
  {
    hide Shifted;
    var to := 0;
    NothingShifted(mem[..], block + shift, block);
    for t := 0 to kept
      invariant to == t * tokenBytes <= kept * tokenBytes
      invariant Shifted(old(mem[..]), mem[..], block + shift, block, to)
    {
      assert (t + 1) * tokenBytes == to + tokenBytes;
      MulMono(t + 1, kept, tokenBytes);
      ghost var before := mem[..];
      CopyWhole(mem, block + shift + to, block + to, tokenBytes, vec);
      SpanExtends(old(mem[..]), before, mem[..], block + shift, block, to, tokenBytes);
      to := to + tokenBytes;
    }
  }

  /** SD convolution copy. Distinct blocks and self-copies use one vector copy; a left
      shift within a block goes token by token. */
  method CopyConvTokens(mem: array<Byte>, src: nat, dst: nat, width: nat, tokenBytes: nat, bias: nat, vec: nat)
    requires vec > 0 && bias <= width
    requires src + width * tokenBytes <= mem.Length && dst + width * tokenBytes <= mem.Length
    requires src == dst || Disjoint(src, dst, width * tokenBytes)
    modifies mem
    ensures src + bias * tokenBytes + (width - bias) * tokenBytes <= mem.Length
    ensures Shifted(old(mem[..]), mem[..], src + bias * tokenBytes, dst, (width - bias) * tokenBytes)
  {
    hide Shifted;
    var kept := width - bias;
    var shift := bias * tokenBytes;
    assert shift + kept * tokenBytes == width * tokenBytes;
    if src != dst || bias == 0 {
      CopyWhole(mem, src + shift, dst, kept * tokenBytes, vec);
    } else {
      MulMono(1, bias, tokenBytes);
      ShiftTokens(mem, dst, shift, kept, tokenBytes, vec);
    }
  }

  // ---- Row-major window ----

  /** Byte `x` of row `row` of a block at `base`. */
  function At(base: nat, row: nat, rowStride: nat, x: nat): nat {
    base + row * rowStride + x
  }

  /** Rows below `ahead` have their first `more` bytes shifted left by `shift`, the others
      their first `done`; every other byte is as before. */
  ghost predicate RowsShifted(before: seq<Byte>, after: seq<Byte>, src: nat, dst: nat, rows: nat, rowStride: nat,
                              shift: nat, done: nat, more: nat, ahead: nat)
  {
    && |after| == |before|
    && (forall row: nat, x: nat {:trigger At(dst, row, rowStride, x)}
          | row < rows && x < rowStride && At(dst, row, rowStride, x) < |before| ::
          after[At(dst, row, rowStride, x)]
          == if x < (if row < ahead then more else done) && At(src, row, rowStride, x + shift) < |before|
             then before[At(src, row, rowStride, x + shift)]
             else before[At(dst, row, rowStride, x)])
    && (forall a: nat {:trigger after[a]} | a < |before| && !(dst <= a < dst + rows * rowStride) ::
          after[a] == before[a])
  }

  /** DS convolution copy: token-major loop, every row moving one element per pass. */
  method CopyConvRows(mem: array<Byte>, src: nat, dst: nat, rows: nat, rowStride: nat, elem: nat, width: nat, bias: nat,
                      vec: nat)
    requires vec > 0 && elem > 0 && bias <= width && width * elem <= rowStride
    requires src + rows * rowStride <= mem.Length && dst + rows * rowStride <= mem.Length
    requires src == dst || Disjoint(src, dst, rows * rowStride)
    modifies mem
    ensures RowsShifted(old(mem[..]), mem[..], src, dst, rows, rowStride, bias * elem, (width - bias) * elem,
                        (width - bias) * elem, 0)
  {
    ghost var shift := bias * elem;
    for token := 0 to width - bias
      invariant RowsShifted(old(mem[..]), mem[..], src, dst, rows, rowStride, shift, token * elem, token * elem, 0)
    {
      ElementFits(elem, width, bias, token);
      CopyElements(mem, src, dst, rows, rowStride, elem, bias * elem, token * elem, vec, old(mem[..]));
    }
  }

  lemma ElementFits(elem: nat, width: nat, bias: nat, token: nat)
    requires token + bias < width
    ensures token * elem + bias * elem + elem <= width * elem
    ensures (token + 1) * elem == token * elem + elem
  {
    MulMono(token + bias + 1, width, elem);
    assert (token + bias + 1) * elem == token * elem + bias * elem + elem;
  }

  /** One pass: the element at byte `done` of every row, `vec` rows at a time. */
  method CopyElements(mem: array<Byte>, src: nat, dst: nat, rows: nat, rowStride: nat, elem: nat, shift: nat, done: nat,
                      vec: nat, ghost first: seq<Byte>)
    requires |first| == mem.Length
    requires vec > 0 && elem > 0 && done + shift + elem <= rowStride
    requires src + rows * rowStride <= mem.Length && dst + rows * rowStride <= mem.Length
    requires src == dst || Disjoint(src, dst, rows * rowStride)
    requires RowsShifted(first, mem[..], src, dst, rows, rowStride, shift, done, done, 0)
    modifies mem
    ensures RowsShifted(first, mem[..], src, dst, rows, rowStride, shift, done + elem, done + elem, 0)
  {
    hide RowsShifted;
    var rowBase := 0;
    NoneAhead(first, mem[..], src, dst, rows, rowStride, shift, done, done + elem);
    while rowBase < rows
      invariant RowsShifted(first, mem[..], src, dst, rows, rowStride, shift, done, done + elem, Min(rowBase, rows))
    {
      CopyLanes(mem, src, dst, rows, rowStride, elem, shift, done, rowBase, Min(rowBase + vec, rows), first);
      rowBase := rowBase + vec;
    }
    AllAhead(first, mem[..], src, dst, rows, rowStride, shift, done, done + elem);
  }

  method CopyLanes(mem: array<Byte>, src: nat, dst: nat, rows: nat, rowStride: nat, elem: nat, shift: nat, done: nat,
                   from: nat, to: nat, ghost first: seq<Byte>)
    requires |first| == mem.Length
    requires elem > 0 && done + shift + elem <= rowStride && from <= to <= rows
    requires src + rows * rowStride <= mem.Length && dst + rows * rowStride <= mem.Length
    requires src == dst || Disjoint(src, dst, rows * rowStride)
    requires RowsShifted(first, mem[..], src, dst, rows, rowStride, shift, done, done + elem, from)
    modifies mem
    ensures RowsShifted(first, mem[..], src, dst, rows, rowStride, shift, done, done + elem, to)
  {
    hide RowsShifted;
    for row := from to to
      invariant RowsShifted(first, mem[..], src, dst, rows, rowStride, shift, done, done + elem, row)
    {
      CopyElement(mem, src, dst, rows, rowStride, elem, shift, done, row, first);
    }
  }

  lemma NoneAhead(first: seq<Byte>, now: seq<Byte>, src: nat, dst: nat, rows: nat, rowStride: nat, shift: nat,
                  done: nat, more: nat)
    requires RowsShifted(first, now, src, dst, rows, rowStride, shift, done, done, 0)
    ensures RowsShifted(first, now, src, dst, rows, rowStride, shift, done, more, 0)
  {
  }

  lemma AllAhead(first: seq<Byte>, now: seq<Byte>, src: nat, dst: nat, rows: nat, rowStride: nat, shift: nat, done: nat,
                 more: nat)
    requires RowsShifted(first, now, src, dst, rows, rowStride, shift, done, more, rows)
    ensures RowsShifted(first, now, src, dst, rows, rowStride, shift, more, more, 0)
  {
  }

  lemma RowInside(rows: nat, rowStride: nat, row: nat)
    requires row < rows
    ensures row * rowStride + rowStride <= rows * rowStride
  {
    MulMono(row + 1, rows, rowStride);
    assert (row + 1) * rowStride == row * rowStride + rowStride;
  }

  /** One lane: load one element of one row, then store it. */
  method CopyElement(mem: array<Byte>, src: nat, dst: nat, rows: nat, rowStride: nat, elem: nat, shift: nat, done: nat,
                     row: nat, ghost first: seq<Byte>)
    requires elem > 0 && row < rows && done + shift + elem <= rowStride
    requires src + rows * rowStride <= mem.Length && dst + rows * rowStride <= mem.Length
    requires src == dst || Disjoint(src, dst, rows * rowStride)
    requires |first| == mem.Length
    requires RowsShifted(first, mem[..], src, dst, rows, rowStride, shift, done, done + elem, row)
    modifies mem
    ensures RowsShifted(first, mem[..], src, dst, rows, rowStride, shift, done, done + elem, row + 1)
  {
    hide RowsShifted, Shifted;
    RowInside(rows, rowStride, row);
    ghost var before := mem[..];
    CopyLoaded(mem, At(src, row, rowStride, done + shift), At(dst, row, rowStride, done), elem);
    ElementMoved(first, before, mem[..], src, dst, rows, rowStride, elem, shift, done, row);
  }

  /** Moving one element extends exactly its own row. */
  lemma ElementMoved(first: seq<Byte>, before: seq<Byte>, after: seq<Byte>, src: nat, dst: nat, rows: nat,
                     rowStride: nat, elem: nat, shift: nat, done: nat, row: nat)
    requires elem > 0 && row < rows && done + shift + elem <= rowStride
    requires src + rows * rowStride <= |first| && dst + rows * rowStride <= |first|
    requires src == dst || Disjoint(src, dst, rows * rowStride)
    requires RowsShifted(first, before, src, dst, rows, rowStride, shift, done, done + elem, row)
    requires At(src, row, rowStride, done + shift) + elem <= |before|
    requires Shifted(before, after, At(src, row, rowStride, done + shift), At(dst, row, rowStride, done), elem)
    ensures RowsShifted(first, after, src, dst, rows, rowStride, shift, done, done + elem, row + 1)
  {
    hide At, Shifted, Disjoint;
    OutsideKept(first, before, after, src, dst, rows, rowStride, elem, shift, done, row);
    forall r: nat, x: nat {:trigger At(dst, r, rowStride, x)}
      | r < rows && x < rowStride && At(dst, r, rowStride, x) < |first|
      ensures after[At(dst, r, rowStride, x)]
              == if x < (if r < row + 1 then done + elem else done) && At(src, r, rowStride, x + shift) < |first|
                 then first[At(src, r, rowStride, x + shift)]
                 else first[At(dst, r, rowStride, x)]
    {
      if r != row {
        OtherRow(before, after, dst, rowStride, elem, done, row, r, x, At(src, row, rowStride, done + shift));
      } else {
        OwnRow(first, before, after, src, dst, rows, rowStride, elem, shift, done, row, x);
      }
    }
  }

  lemma OutsideKept(first: seq<Byte>, before: seq<Byte>, after: seq<Byte>, src: nat, dst: nat, rows: nat,
                    rowStride: nat, elem: nat, shift: nat, done: nat, row: nat)
    requires row < rows && done + elem <= rowStride
    requires RowsShifted(first, before, src, dst, rows, rowStride, shift, done, done + elem, row)
    requires At(src, row, rowStride, done + shift) + elem <= |before|
    requires Shifted(before, after, At(src, row, rowStride, done + shift), At(dst, row, rowStride, done), elem)
    ensures |after| == |first|
    ensures forall a: nat {:trigger after[a]} | a < |first| && !(dst <= a < dst + rows * rowStride) ::
      after[a] == first[a]
  {
    RowInside(rows, rowStride, row);
  }

  lemma OtherRow(before: seq<Byte>, after: seq<Byte>, dst: nat, rowStride: nat, elem: nat, done: nat, row: nat, r: nat,
                 x: nat, s: nat)
    requires r != row && x < rowStride && done + elem <= rowStride
    requires s + elem <= |before| && Shifted(before, after, s, At(dst, row, rowStride, done), elem)
    requires At(dst, r, rowStride, x) < |before|
    ensures after[At(dst, r, rowStride, x)] == before[At(dst, r, rowStride, x)]
  {
    NotInElement(dst, rowStride, r, row, x, done, elem);
  }

  lemma OwnRow(first: seq<Byte>, before: seq<Byte>, after: seq<Byte>, src: nat, dst: nat, rows: nat, rowStride: nat,
               elem: nat, shift: nat, done: nat, row: nat, x: nat)
    requires elem > 0 && row < rows && done + shift + elem <= rowStride && x < rowStride
    requires src + rows * rowStride <= |first| && dst + rows * rowStride <= |first|
    requires src == dst || Disjoint(src, dst, rows * rowStride)
    requires RowsShifted(first, before, src, dst, rows, rowStride, shift, done, done + elem, row)
    requires At(src, row, rowStride, done + shift) + elem <= |before|
    requires Shifted(before, after, At(src, row, rowStride, done + shift), At(dst, row, rowStride, done), elem)
    ensures At(dst, row, rowStride, x) < |first|
    ensures after[At(dst, row, rowStride, x)]
            == if x < done + elem && At(src, row, rowStride, x + shift) < |first|
               then first[At(src, row, rowStride, x + shift)]
               else first[At(dst, row, rowStride, x)]
  {
    hide Shifted;
    RowInside(rows, rowStride, row);
    if done <= x < done + elem {
      ElementArrives(before, after, src, dst, row, rowStride, elem, shift, done, x);
      SourceIntact(first, before, src, dst, rows, rowStride, shift, done, done + elem, row, x + shift);
    } else {
      ElementSpares(before, after, dst, row, rowStride, elem, done, x, At(src, row, rowStride, done + shift));
    }
  }

  lemma ElementArrives(before: seq<Byte>, after: seq<Byte>, src: nat, dst: nat, row: nat, rowStride: nat, elem: nat,
                       shift: nat, done: nat, x: nat)
    requires done <= x < done + elem && At(src, row, rowStride, done + shift) + elem <= |before|
    requires At(dst, row, rowStride, x) < |before|
    requires Shifted(before, after, At(src, row, rowStride, done + shift), At(dst, row, rowStride, done), elem)
    ensures At(src, row, rowStride, x + shift) < |before|
    ensures after[At(dst, row, rowStride, x)] == before[At(src, row, rowStride, x + shift)]
  {
  }

  lemma ElementSpares(before: seq<Byte>, after: seq<Byte>, dst: nat, row: nat, rowStride: nat, elem: nat,
                      done: nat, x: nat, s: nat)
    requires !(done <= x < done + elem) && s + elem <= |before| && At(dst, row, rowStride, x) < |before|
    requires Shifted(before, after, s, At(dst, row, rowStride, done), elem)
    ensures after[At(dst, row, rowStride, x)] == before[At(dst, row, rowStride, x)]
  {
  }


  lemma NotInElement(dst: nat, rowStride: nat, r: nat, row: nat, x: nat, done: nat, elem: nat)
    requires r != row && x < rowStride && done + elem <= rowStride
    ensures var a := At(dst, r, rowStride, x);
            !(At(dst, row, rowStride, done) <= a < At(dst, row, rowStride, done) + elem)
  {
    if r < row { RowInside(row, rowStride, r); } else { RowInside(r, rowStride, row); }
  }

  /** A byte past the shifted part of its own row is still the original one. */
  lemma SourceIntact(first: seq<Byte>, before: seq<Byte>, src: nat, dst: nat, rows: nat, rowStride: nat,
                     shift: nat, done: nat, more: nat, row: nat, x: nat)
    requires row < rows && done <= x < rowStride
    requires src + rows * rowStride <= |first|
    requires src == dst || Disjoint(src, dst, rows * rowStride)
    requires RowsShifted(first, before, src, dst, rows, rowStride, shift, done, more, row)
    ensures var a := At(src, row, rowStride, x);
            a < |first| && before[a] == first[a]
  {
    RowInside(rows, rowStride, row);
    if src == dst {
      assert before[At(dst, row, rowStride, x)] == first[At(dst, row, rowStride, x)];
    }
  }

  // ---- One state block ----

  /** Bytes of a block the copy may touch; the page stride can be larger. */
  function DataBytes(m: StateMeta, dimFirst: bool): nat {
    if m.width == 0 then m.innerSize * m.elemSize
    else if dimFirst then m.rows * m.rowStride
    else m.width * (m.innerSize * m.elemSize)
  }

  /** Block data fits its page, and every listed block's page lies in memory. */
  predicate BlocksFit(length: nat, m: StateMeta, dimFirst: bool, blocks: seq<nat>) {
    && DataBytes(m, dimFirst) <= m.blockStride
    && (m.width > 0 && dimFirst ==> m.elemSize > 0 && m.width * m.elemSize <= m.rowStride)
    && forall i | 0 <= i < |blocks| :: BlockAddr(m, blocks[i]) + m.blockStride <= length
  }

  /** Every row of a dimension-major window moves left by `bias` tokens. */
  ghost predicate RowsCopied(before: seq<Byte>, after: seq<Byte>, src: nat, dst: nat, rows: nat, rowStride: nat,
                             elemSize: nat, left: nat, bias: nat)
  {
    RowsShifted(before, after, src, dst, rows, rowStride, bias * elemSize, left * elemSize, left * elemSize, 0)
  }

  /** A token-major window moves left by `bias` tokens. */
  ghost predicate TokensCopied(before: seq<Byte>, after: seq<Byte>, src: nat, dst: nat, tokenBytes: nat, left: nat,
                               bias: nat)
  {
    && src + bias * tokenBytes + left * tokenBytes <= |before|
    && Shifted(before, after, src + bias * tokenBytes, dst, left * tokenBytes)
  }

  /** A temporal state moves whole, a window moves left by `bias` tokens, from the block at
      `src` to the one at `dst`. Nothing else changes. */
  ghost predicate DataCopied(before: seq<Byte>, after: seq<Byte>, m: StateMeta, dimFirst: bool, src: nat, dst: nat,
                             bias: nat)
  {
    if m.width == 0 then
      var size := m.innerSize * m.elemSize;
      src + size <= |before| && Shifted(before, after, src, dst, size)
    else if dimFirst then
      bias <= m.width && RowsCopied(before, after, src, dst, m.rows, m.rowStride, m.elemSize, m.width - bias, bias)
    else
      bias <= m.width && TokensCopied(before, after, src, dst, m.innerSize * m.elemSize, m.width - bias, bias)
  }

  /** What one state-block copy does to memory. The temporal state is the biased column's. */
  ghost predicate BlockCopied(before: seq<Byte>, after: seq<Byte>, m: StateMeta, dimFirst: bool,
                              srcBlock: nat, biasedBlock: nat, dstBlock: nat, bias: nat)
  {
    DataCopied(before, after, m, dimFirst,
               m.base + (if m.width == 0 then biasedBlock else srcBlock) * m.blockStride,
               m.base + dstBlock * m.blockStride, bias)
  }

  /** The copy between two block addresses. Convolution windows are copied by tile 0 alone. */
  method CopyData(mem: array<Byte>, m: StateMeta, src: nat, dst: nat, bias: nat, dimFirst: bool, tiles: nat, vec: nat,
                  order: seq<nat>)
    requires tiles > 0 && vec > 0
    requires (forall k | 0 <= k < |order| :: order[k] < tiles) && (forall t: nat | t < tiles :: t in order)
    requires src + DataBytes(m, dimFirst) <= mem.Length && dst + DataBytes(m, dimFirst) <= mem.Length
    requires src == dst || Disjoint(src, dst, DataBytes(m, dimFirst))
    requires m.width > 0 ==> bias <= m.width
    requires m.width > 0 && dimFirst ==> m.elemSize > 0 && m.width * m.elemSize <= m.rowStride
    modifies mem
    ensures DataCopied(old(mem[..]), mem[..], m, dimFirst, src, dst, bias)
  {
    hide RowsShifted, Owns;
    if m.width == 0 {
      CopyTiles(mem, src, dst, m.innerSize * m.elemSize, tiles, vec, order);
    } else if dimFirst {
      CopyConvRows(mem, src, dst, m.rows, m.rowStride, m.elemSize, m.width, bias, vec);
    } else {
      CopyConvTokens(mem, src, dst, m.width, m.innerSize * m.elemSize, bias, vec);
    }
  }

  /** `_copy_mamba_state_block` over its whole tile axis, tiles in any order. `destination`,
      when given, replaces the destination column's block. */
  method CopyStateBlock(mem: array<Byte>, m: StateMeta, table: seq<nat>, srcCol: nat, dstCol: nat, bias: nat,
                        destination: Option<nat>, dimFirst: bool, tiles: nat, vec: nat, order: seq<nat>)
    requires tiles > 0 && vec > 0
    requires (forall k | 0 <= k < |order| :: order[k] < tiles) && (forall t: nat | t < tiles :: t in order)
    requires srcCol < |table| && (destination.None? ==> dstCol < |table|)
    requires if m.width == 0 then srcCol + bias < |table| else bias <= m.width
    requires BlocksFit(mem.Length, m, dimFirst, table + (if destination.Some? then [destination.value] else []))
    modifies mem
    ensures BlockCopied(old(mem[..]), mem[..], m, dimFirst, table[srcCol],
                        if m.width == 0 then table[srcCol + bias] else table[srcCol],
                        if destination.Some? then destination.value else table[dstCol], bias)
  {
    hide DataCopied, DataBytes;
    ghost var blocks := table + (if destination.Some? then [destination.value] else []);
    var srcBlock := if m.width == 0 then table[srcCol + bias] else table[srcCol];
    var dstBlock := if destination.Some? then destination.value else table[dstCol];
    assert srcBlock == blocks[if m.width == 0 then srcCol + bias else srcCol];
    assert dstBlock == blocks[if destination.Some? then |table| else dstCol];
    if srcBlock != dstBlock {
      BlocksApart(m, srcBlock, dstBlock, DataBytes(m, dimFirst));
    }
    CopyData(mem, m, m.base + srcBlock * m.blockStride, m.base + dstBlock * m.blockStride, bias, dimFirst, tiles, vec,
             order);
  }

  // ---- Pointer-batch copy ----

  /** `batch_memcpy_kernel`, one program: blocks of lanes, low to high. With a left
      overlap each block loads before it stores, so the copy is still memmove. */
  method BatchMemcpy(mem: array<Byte>, src: nat, dst: nat, size: nat, lanes: nat)
    requires lanes > 0 && src + size <= mem.Length && dst + size <= mem.Length
    requires dst <= src || src + size <= dst
    modifies mem
    ensures Shifted(old(mem[..]), mem[..], src, dst, size)
  {
    ghost var first := mem[..];
    var i, done := 0, 0;
    NothingShifted(first, src, dst);
    while i < size
      invariant done == Min(i, size)
      invariant Shifted(first, mem[..], src, dst, done)
    {
      ghost var before := mem[..];
      var n := Min(lanes, size - i);
      CopyLoaded(mem, src + i, dst + i, n);
      SpanExtends(first, before, mem[..], src, dst, i, n);
      i, done := i + lanes, done + n;
    }
  }
}
