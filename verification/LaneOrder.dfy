/** The in-place copies under every lane interleaving. Lanes of one program run freely
    except that each follows its own program order, and that a barrier separates what
    comes before it from what comes after. */
module LaneOrder {
  import opened Bytes
  import opened IntMath
  import opened RaceFree
  import opened TiledMemcpy
  import opened StateBlockCopy

  // ---- Tiled memcpy: nothing needs ordering ----

  /** A byte load or store by one tile. */
  datatype Act = Act(tile: nat, event: Event)

  ghost predicate Once(acts: seq<Act>, a: Act) {
    exists k :: 0 <= k < |acts| && acts[k] == a && forall j | 0 <= j < |acts| && acts[j] == a :: j == k
  }

  /** `acts` interleaves the programs of all tiles: each tile loads and stores each byte it
      owns once, in this order, and touches no other byte. Nothing else is ordered, neither
      between tiles nor between the lanes of one tile. */
  ghost predicate TilesRun(acts: seq<Act>, src: nat, dst: nat, size: nat, tiles: nat, vec: nat)
    requires tiles > 0 && vec > 0
  {
    && (forall k | 0 <= k < |acts| ::
          acts[k].tile < tiles && acts[k].event.move < size
          && Owns(src, dst, size, tiles, vec, acts[k].tile, acts[k].event.move))
    && (forall t: nat, m: nat | t < tiles && m < size && Owns(src, dst, size, tiles, vec, t, m) ::
          Once(acts, Act(t, Load(m))) && Once(acts, Act(t, Store(m))))
    && forall j, k | 0 <= j < |acts| && 0 <= k < |acts| && acts[j].tile == acts[k].tile
                     && acts[j].event.Load? && acts[k] == Act(acts[j].tile, Store(acts[j].event.move)) :: j < k
  }

  function Events(acts: seq<Act>): (trace: seq<Event>)
    ensures |trace| == |acts|
  {
    seq(|acts|, k requires 0 <= k < |acts| => acts[k].event)
  }

  /** The tile a byte belongs to. */
  ghost function OwnerOf(src: nat, dst: nat, size: nat, tiles: nat, vec: nat, m: nat): (t: nat)
    requires tiles > 0 && vec > 0 && m < size
    ensures t < tiles && Owns(src, dst, size, tiles, vec, t, m)
  {
    assert exists t: nat :: t < tiles && Owns(src, dst, size, tiles, vec, t, m) by {
      var t := ByteHasOneTile(src, dst, size, tiles, vec, m);
    }
    var t: nat :| t < tiles && Owns(src, dst, size, tiles, vec, t, m);
    t
  }

  lemma OwnerIsOnly(src: nat, dst: nat, size: nat, tiles: nat, vec: nat, m: nat, t: nat)
    requires tiles > 0 && vec > 0 && m < size && t < tiles && Owns(src, dst, size, tiles, vec, t, m)
    ensures t == OwnerOf(src, dst, size, tiles, vec, m)
  {
    hide Owns;
    var only := ByteHasOneTile(src, dst, size, tiles, vec, m);
  }

  ghost function Position(acts: seq<Act>, a: Act): (k: nat)
    requires Once(acts, a)
    ensures k < |acts| && acts[k] == a && forall j | 0 <= j < |acts| && acts[j] == a :: j == k
  {
    var k :| 0 <= k < |acts| && acts[k] == a && forall j | 0 <= j < |acts| && acts[j] == a :: j == k;
    k
  }

  /** Where the owner of each byte loads and stores it. */
  ghost function TileSchedule(acts: seq<Act>, src: nat, dst: nat, size: nat, tiles: nat, vec: nat): Schedule
    requires tiles > 0 && vec > 0 && TilesRun(acts, src, dst, size, tiles, vec)
  {
    Schedule(Events(acts),
             seq(size, m requires 0 <= m < size =>
                 Position(acts, Act(OwnerOf(src, dst, size, tiles, vec, m), Load(m)))),
             seq(size, m requires 0 <= m < size =>
                 Position(acts, Act(OwnerOf(src, dst, size, tiles, vec, m), Store(m)))))
  }

  /** Since every byte has one tile, the tiles' programs load and store every byte once. */
  lemma TilesComplete(acts: seq<Act>, src: nat, dst: nat, size: nat, tiles: nat, vec: nat)
    requires tiles > 0 && vec > 0 && TilesRun(acts, src, dst, size, tiles, vec)
    ensures TileSchedule(acts, src, dst, size, tiles, vec).Complete(size)
  {
    hide Owns, Once;
    var s := TileSchedule(acts, src, dst, size, tiles, vec);
    forall k | 0 <= k < |acts|
      ensures acts[k] == Act(OwnerOf(src, dst, size, tiles, vec, acts[k].event.move), acts[k].event)
    {
      OwnerIsOnly(src, dst, size, tiles, vec, acts[k].event.move, acts[k].tile);
    }
  }

  /** All tiles and lanes of the tiled copy, interleaved at will, copy the region. */
  lemma ConcurrentTilesCopy(src: nat, dst: nat, size: nat, tiles: nat, vec: nat, mem: seq<Byte>, acts: seq<Act>)
    requires src + size <= |mem| && dst + size <= |mem| && Disjoint(src, dst, size)
    requires tiles > 0 && vec > 0 && TilesRun(acts, src, dst, size, tiles, vec)
    ensures InRange(Events(acts), size)
    ensures Shifted(mem, Run(Span(src, dst, size), Machine(mem, map[]), Events(acts), |acts|).mem, src, dst, size)
  {
    hide Schedule.Complete, TilesRun, Shifted;
    var s := TileSchedule(acts, src, dst, size, tiles, vec);
    TilesComplete(acts, src, dst, size, tiles, vec);
    CompleteInRange(s, size);
    DisjointSpanCopies(src, dst, size, mem, s);
    MovedIsShifted(mem, Run(Span(src, dst, size), Machine(mem, map[]), s.trace, |s.trace|).mem, src, dst, size);
  }

  lemma MovedIsShifted(before: seq<Byte>, after: seq<Byte>, src: nat, dst: nat, size: nat)
    requires src + size <= |before| && dst + size <= |before|
    requires Moved(Span(src, dst, size), before, after)
    ensures Shifted(before, after, src, dst, size)
  {
    hide Span, Moved, Moves.Fits;
    SameLength(Span(src, dst, size), before, after);
    forall a: nat {:trigger after[a]} | a < |before|
      ensures after[a] == if dst <= a < dst + size then before[src + (a - dst)] else before[a]
    {
      SpanByte(before, after, src, dst, size, a);
    }
  }

  lemma SpanByte(before: seq<Byte>, after: seq<Byte>, src: nat, dst: nat, size: nat, a: nat)
    requires src + size <= |before| && dst + size <= |before| && a < |before|
    requires Moved(Span(src, dst, size), before, after)
    ensures |after| == |before|
    ensures after[a] == if dst <= a < dst + size then before[src + (a - dst)] else before[a]
  {
    hide Span, Moved, Moves.Fits;
    if dst <= a < dst + size {
      MovedAt(Span(src, dst, size), before, after, a - dst);
    } else {
      NotMoved(Span(src, dst, size), before, after, a);
    }
  }

  lemma SameLength(c: Moves, before: seq<Byte>, after: seq<Byte>)
    requires c.Fits(|before|) && Moved(c, before, after)
    ensures |after| == |before|
  {
  }

  lemma MovedAt(c: Moves, before: seq<Byte>, after: seq<Byte>, m: nat)
    requires c.Fits(|before|) && Moved(c, before, after) && m < |c.src|
    ensures c.dst[m] < |before| == |after| && c.src[m] < |before| && after[c.dst[m]] == before[c.src[m]]
  {
  }

  lemma NotMoved(c: Moves, before: seq<Byte>, after: seq<Byte>, a: nat)
    requires c.Fits(|before|) && Moved(c, before, after)
    requires a < |before| && forall m | 0 <= m < |c.dst| :: c.dst[m] != a
    ensures |after| == |before| && after[a] == before[a]
  {
  }

  // ---- Token-major shift ----

  /** The lane that moves byte `o` of one single-tile copy: a head or tail lane, a body
      lane by its word, or a byte lane on the unaligned path. */
  datatype Lane = Head(i: nat) | Body(i: nat) | Tail(i: nat) | Bytewise(i: nat)

  function LaneOf(src: nat, dst: nat, size: nat, vec: nat, o: nat): Lane
    requires vec > 0 && o < size
  {
    if Fast(src, dst) then
      var head := HeadBytes(dst, size);
      var words := BodyWords(dst, size);
      if o < head then Head(o)
      else if o < head + 8 * words then Body((o - head) / 8 % vec)
      else Tail(o - (head + 8 * words))
    else Bytewise(o % vec)
  }

  /** In each turn of the loop the lanes take the next `vec` units in order: words of the
      body, or bytes on the unaligned path. Head and tail bytes have a lane each. */
  lemma LaneTakes(src: nat, dst: nat, size: nat, vec: nat, o: nat, turn: nat, lane: nat)
    requires o < size && lane < vec
    ensures src % 8 != dst % 8 && o == turn * vec + lane ==> LaneOf(src, dst, size, vec, o) == Bytewise(lane)
    ensures src % 8 == dst % 8 && o < HeadBytes(dst, size) ==> LaneOf(src, dst, size, vec, o) == Head(o)
    ensures src % 8 == dst % 8 && HeadBytes(dst, size) <= o < HeadBytes(dst, size) + 8 * BodyWords(dst, size) ==>
              (o - HeadBytes(dst, size)) / 8 == turn * vec + lane ==> LaneOf(src, dst, size, vec, o) == Body(lane)
    ensures src % 8 == dst % 8 && HeadBytes(dst, size) + 8 * BodyWords(dst, size) <= o ==>
              LaneOf(src, dst, size, vec, o) == Tail(o - HeadBytes(dst, size) - 8 * BodyWords(dst, size))
  {
    hide HeadBytes, BodyWords;
    RowColumn(vec, turn, lane);
  }

  /** Token and offset of byte `m` of the shifted region. */
  function TokenLane(block: nat, shift: nat, tokenBytes: nat, vec: nat, m: nat): Lane
    requires vec > 0 && tokenBytes > 0
  {
    var to := m / tokenBytes * tokenBytes;
    LaneOf(block + shift + to, block + to, tokenBytes, vec, m % tokenBytes)
  }

  /** Each lane finishes its part of a token before it starts the next token. */
  ghost predicate TokenOrder(block: nat, shift: nat, tokenBytes: nat, vec: nat, size: nat, s: Schedule)
    requires vec > 0 && tokenBytes > 0 && |s.loadAt| == |s.storeAt| == size
  {
    forall m, m' | 0 <= m < size && 0 <= m' < size && m / tokenBytes < m' / tokenBytes
                   && TokenLane(block, shift, tokenBytes, vec, m) == TokenLane(block, shift, tokenBytes, vec, m') ::
      s.loadAt[m] < s.storeAt[m']
  }

  /** Moving both addresses by a multiple of 8 keeps the split into head, body and tail;
      on the byte path lanes never depend on addresses. */
  lemma LaneStable(from: nat, shift: nat, size: nat, vec: nat, x: nat)
    requires vec > 0 && x < size
    ensures LaneOf(from + shift, from, size, vec, x) == LaneOf(from + shift + shift, from + shift, size, vec, x)
  {
    AlignmentStable(from, shift);
    if Fast(from + shift, from) {
      assert HeadBytes(from, size) == HeadBytes(from + shift, size);
      assert BodyWords(from, size) == BodyWords(from + shift, size);
    }
  }

  lemma SameResidue(a: nat, shift: nat)
    ensures (a + shift) % 8 == a % 8 <==> shift % 8 == 0
  {
  }

  lemma AlignmentStable(from: nat, shift: nat)
    ensures Fast(from + shift, from) <==> Fast(from + shift + shift, from + shift)
    ensures Fast(from + shift, from) ==> (from + shift) % 8 == from % 8
  {
    SameResidue(from, shift);
    SameResidue(from + shift, shift);
  }

  lemma TokenLaneAt(block: nat, shift: nat, tokenBytes: nat, vec: nat, t: nat, to: nat, x: nat)
    requires vec > 0 && x < tokenBytes && to == t * tokenBytes
    ensures (to + x) / tokenBytes == t
    ensures TokenLane(block, shift, tokenBytes, vec, to + x)
            == LaneOf(block + shift + to, block + to, tokenBytes, vec, x)
  {
    RowColumn(tokenBytes, t, x);
  }

  /** Why no barrier is needed: the byte that overwrites a source byte is handled by the
      very lane that reads it. On the vectorized path the shift is a multiple of 8. */
  lemma OverwriterIsReader(block: nat, tokenBytes: nat, bias: nat, shift: nat, vec: nat, t: nat, to: nat, x: nat)
    requires vec > 0 && x < tokenBytes && to == t * tokenBytes && shift == bias * tokenBytes
    ensures (to + x) / tokenBytes == t && (to + shift + x) / tokenBytes == t + bias
    ensures TokenLane(block, shift, tokenBytes, vec, to + x) == TokenLane(block, shift, tokenBytes, vec, to + shift + x)
  {
    hide TokenLane, LaneOf;
    assert to + shift == (t + bias) * tokenBytes;
    TokenLaneAt(block, shift, tokenBytes, vec, t, to, x);
    TokenLaneAt(block, shift, tokenBytes, vec, t + bias, to + shift, x);
    LanesMeet(block, shift, to, tokenBytes, vec, x);
  }

  lemma LanesMeet(block: nat, shift: nat, to: nat, tokenBytes: nat, vec: nat, x: nat)
    requires vec > 0 && x < tokenBytes
    ensures LaneOf(block + shift + to, block + to, tokenBytes, vec, x)
         == LaneOf(block + shift + (to + shift), block + (to + shift), tokenBytes, vec, x)
  {
    LaneStable(block + to, shift, tokenBytes, vec, x);
    assert block + shift + to == block + to + shift;
    assert block + shift + (to + shift) == block + to + shift + shift;
    assert block + (to + shift) == block + to + shift;
  }

  lemma RowColumn(width: nat, row: nat, x: nat)
    requires x < width
    ensures (row * width + x) / width == row && (row * width + x) % width == x
  {
    var n := row * width + x;
    assert (row + 1) * width == row * width + width;
    DivUnique(n, width, row);
    assert n == width * (n / width) + n % width;
  }

  lemma TokenOrderSuffices(block: nat, tokenBytes: nat, bias: nat, shift: nat, vec: nat, size: nat, s: Schedule, m: nat)
    requires vec > 0 && tokenBytes > 0 && bias > 0 && shift == bias * tokenBytes
    requires |s.loadAt| == |s.storeAt| == size && TokenOrder(block, shift, tokenBytes, vec, size, s)
    requires m + shift < size
    ensures s.loadAt[m] < s.storeAt[m + shift]
  {
    var t := m / tokenBytes;
    var to := t * tokenBytes;
    DivBounds(m, tokenBytes);
    assert (t + 1) * tokenBytes == to + tokenBytes;
    OverwriterIsReader(block, tokenBytes, bias, shift, vec, t, to, m - to);
    assert to + shift + (m - to) == m + shift;
  }

  ghost predicate ShiftOrdered(shift: nat, size: nat, s: Schedule)
    requires |s.loadAt| == |s.storeAt| == size
  {
    forall m: nat {:trigger s.loadAt[m]} | m + shift < size :: s.loadAt[m] < s.storeAt[m + shift]
  }

  lemma TokenOrderShifts(block: nat, tokenBytes: nat, bias: nat, shift: nat, size: nat, vec: nat, s: Schedule)
    requires vec > 0 && tokenBytes > 0 && bias > 0 && shift == bias * tokenBytes
    requires |s.loadAt| == |s.storeAt| == size && TokenOrder(block, shift, tokenBytes, vec, size, s)
    ensures shift > 0 && ShiftOrdered(shift, size, s)
  {
    MulMono(1, bias, tokenBytes);
    forall m: nat {:trigger s.loadAt[m]} | m + shift < size
      ensures s.loadAt[m] < s.storeAt[m + shift]
    {
      TokenOrderSuffices(block, tokenBytes, bias, shift, vec, size, s, m);
    }
  }

  /** The same-block token shift equals memmove under every interleaving of its lanes. */
  lemma TokenShiftCopies(mem: seq<Byte>, src: nat, block: nat, tokenBytes: nat, bias: nat, size: nat, vec: nat,
                         s: Schedule)
    requires vec > 0 && tokenBytes > 0 && bias > 0 && src == block + bias * tokenBytes
    requires src + size <= |mem|
    requires s.Complete(size) && TokenOrder(block, src - block, tokenBytes, vec, size, s)
    ensures Shifted(mem, Run(Span(src, block, size), Machine(mem, map[]), s.trace, |s.trace|).mem, src, block, size)
  {
    hide Schedule.Complete, TokenOrder, ShiftOrdered, Shifted, TokenLane;
    CompleteInRange(s, size);
    TokenOrderShifts(block, tokenBytes, bias, src - block, size, vec, s);
    ShiftRunCopies(mem, src, block, size, s);
  }

  lemma ShiftRunCopies(mem: seq<Byte>, src: nat, dst: nat, size: nat, s: Schedule)
    requires dst < src && src + size <= |mem| && s.Complete(size)
    requires ShiftOrdered(src - dst, size, s)
    ensures Shifted(mem, Run(Span(src, dst, size), Machine(mem, map[]), s.trace, |s.trace|).mem, src, dst, size)
  {
    LeftShiftCopies(src, dst, size, mem, s);
    MovedIsShifted(mem, Run(Span(src, dst, size), Machine(mem, map[]), s.trace, |s.trace|).mem, src, dst, size);
  }

  // ---- Row-major shift ----

  /** Address of byte `m` of the packed rows. */
  function RowAddr(block: nat, rowStride: nat, rowBytes: nat, m: nat): (a: nat)
    requires rowBytes > 0
    ensures a >= block
  {
    block + m / rowBytes * rowStride + m % rowBytes
  }

  /** The byte moves of the row loop: row by row, `rowBytes` shifted bytes each. */
  function RowMoves(block: nat, n: nat, rowStride: nat, shift: nat, rowBytes: nat): (c: Moves)
    requires rowBytes > 0
    ensures |c.src| == |c.dst| == n
  {
    Moves(seq(n, m requires 0 <= m < n => RowAddr(block, rowStride, rowBytes, m) + shift),
          seq(n, m requires 0 <= m < n => RowAddr(block, rowStride, rowBytes, m)))
  }

  /** Lane `row % vec` owns a row, and walks the tokens of its rows in order. */
  ghost predicate RowOrder(rowBytes: nat, elem: nat, vec: nat, moves: nat, s: Schedule)
    requires vec > 0 && rowBytes > 0 && elem > 0 && |s.loadAt| == |s.storeAt| == moves
  {
    forall m, m' | 0 <= m < moves && 0 <= m' < moves
                   && m / rowBytes % vec == m' / rowBytes % vec && m % rowBytes / elem < m' % rowBytes / elem ::
      s.loadAt[m] < s.storeAt[m']
  }

  lemma MoveInside(rows: nat, rowBytes: nat, m: nat)
    requires rowBytes > 0 && m < rows * rowBytes
    ensures m / rowBytes < rows
  {
    DivBounds(m, rowBytes);
    if rows <= m / rowBytes { MulMono(rows, m / rowBytes, rowBytes); }
  }

  /** Rows do not run into each other, so equal addresses mean equal row and offset. */
  lemma SamePlace(rowStride: nat, a: nat, b: nat, x: nat, y: nat)
    requires x < rowStride && y < rowStride && a * rowStride + x == b * rowStride + y
    ensures a == b && x == y
  {
    RowColumn(rowStride, a, x);
    RowColumn(rowStride, b, y);
  }

  lemma RowAddrBound(block: nat, rows: nat, rowStride: nat, rowBytes: nat, m: nat)
    requires rowBytes > 0 && rowBytes <= rowStride && m < rows * rowBytes
    ensures RowAddr(block, rowStride, rowBytes, m) + (rowStride - rowBytes) < block + rows * rowStride
  {
    MoveInside(rows, rowBytes, m);
    RowInside(rows, rowStride, m / rowBytes);
  }

  lemma RowAddrInjective(block: nat, rowStride: nat, rowBytes: nat, i: nat, k: nat)
    requires rowBytes > 0 && rowBytes <= rowStride
    requires RowAddr(block, rowStride, rowBytes, i) == RowAddr(block, rowStride, rowBytes, k)
    ensures i == k
  {
    SamePlace(rowStride, i / rowBytes, k / rowBytes, i % rowBytes, k % rowBytes);
  }

  /** A byte that overwrites another's source is in the same row, one or more tokens on. */
  lemma RowHazard(block: nat, rowStride: nat, elem: nat, bias: nat, rowBytes: nat, i: nat, k: nat)
    requires elem > 0 && bias > 0 && rowBytes > 0 && rowBytes + bias * elem <= rowStride
    requires RowAddr(block, rowStride, rowBytes, k) == RowAddr(block, rowStride, rowBytes, i) + bias * elem
    ensures i / rowBytes == k / rowBytes && i % rowBytes / elem < k % rowBytes / elem
  {
    SamePlace(rowStride, i / rowBytes, k / rowBytes, i % rowBytes + bias * elem, k % rowBytes);
    LaterToken(i % rowBytes, bias, elem);
  }

  lemma RowMovesFit(block: nat, rows: nat, rowStride: nat, shift: nat, rowBytes: nat, length: nat)
    requires rowBytes > 0 && rowBytes + shift <= rowStride && block + rows * rowStride <= length
    ensures var c := RowMoves(block, rows * rowBytes, rowStride, shift, rowBytes);
            c.Fits(length) && DistinctTargets(c)
  {
    var c := RowMoves(block, rows * rowBytes, rowStride, shift, rowBytes);
    forall m | 0 <= m < |c.src|
      ensures c.src[m] < length && c.dst[m] < length
    {
      RowAddrBound(block, rows, rowStride, rowBytes, m);
    }
    forall i, k | 0 <= i < k < |c.dst|
      ensures c.dst[i] != c.dst[k]
    {
      if c.dst[i] == c.dst[k] {
        RowAddrInjective(block, rowStride, rowBytes, i, k);
      }
    }
  }

  /** The same-block row shift equals a simultaneous copy under every interleaving. */
  lemma RowShiftCopies(mem: seq<Byte>, block: nat, rows: nat, rowStride: nat, elem: nat, bias: nat, rowBytes: nat,
                       vec: nat, s: Schedule)
    requires vec > 0 && elem > 0 && bias > 0 && rowBytes > 0
    requires rowBytes + bias * elem <= rowStride && block + rows * rowStride <= |mem|
    requires s.Complete(rows * rowBytes) && RowOrder(rowBytes, elem, vec, rows * rowBytes, s)
    ensures var c := RowMoves(block, rows * rowBytes, rowStride, bias * elem, rowBytes);
            && c.Fits(|mem|) && InRange(s.trace, |c.src|)
            && RowsShifted(mem, Run(c, Machine(mem, map[]), s.trace, |s.trace|).mem, block, block, rows, rowStride,
                           bias * elem, rowBytes, rowBytes, 0)
  {
    hide RowsShifted;
    var n, shift := rows * rowBytes, bias * elem;
    var c := RowMoves(block, n, rowStride, shift, rowBytes);
    RowMovesFit(block, rows, rowStride, shift, rowBytes, |mem|);
    forall i, k | 0 <= i < n && 0 <= k < n && i != k && c.dst[k] == c.src[i]
      ensures s.loadAt[i] < s.storeAt[k]
    {
      RowHazard(block, rowStride, elem, bias, rowBytes, i, k);
    }
    HazardFreeRunCopies(c, mem, s);
    MovedRowsAreShifted(mem, Run(c, Machine(mem, map[]), s.trace, |s.trace|).mem, block, rows, rowStride, shift,
                        rowBytes);
  }

  /** The simultaneous moves are exactly the row shift that the loop is specified by. */
  lemma MovedRowsAreShifted(before: seq<Byte>, after: seq<Byte>, block: nat, rows: nat, rowStride: nat, shift: nat,
                            rowBytes: nat)
    requires rowBytes > 0 && rowBytes + shift <= rowStride && block + rows * rowStride <= |before|
    requires RowMoves(block, rows * rowBytes, rowStride, shift, rowBytes).Fits(|before|)
    requires Moved(RowMoves(block, rows * rowBytes, rowStride, shift, rowBytes), before, after)
    ensures RowsShifted(before, after, block, block, rows, rowStride, shift, rowBytes, rowBytes, 0)
  {
    hide RowMoves, Moved;
    MovedLength(before, after, block, rows, rowStride, shift, rowBytes);
    forall row: nat, x: nat {:trigger At(block, row, rowStride, x)}
      | row < rows && x < rowStride && At(block, row, rowStride, x) < |before|
      ensures after[At(block, row, rowStride, x)]
              == if x < rowBytes && At(block, row, rowStride, x + shift) < |before|
                 then before[At(block, row, rowStride, x + shift)] else before[At(block, row, rowStride, x)]
    {
      RowInside(rows, rowStride, row);
      if x < rowBytes {
        MovedByte(before, after, block, rows, rowStride, shift, rowBytes, row, x);
      } else {
        UnmovedByte(before, after, block, rows, rowStride, shift, rowBytes, row, x);
      }
    }
    forall a: nat {:trigger after[a]} | a < |before| && !(block <= a < block + rows * rowStride)
      ensures after[a] == before[a]
    {
      OutsideByte(before, after, block, rows, rowStride, shift, rowBytes, a);
    }
  }

  lemma MovedLength(before: seq<Byte>, after: seq<Byte>, block: nat, rows: nat, rowStride: nat, shift: nat,
                    rowBytes: nat)
    requires rowBytes > 0 && RowMoves(block, rows * rowBytes, rowStride, shift, rowBytes).Fits(|before|)
    requires Moved(RowMoves(block, rows * rowBytes, rowStride, shift, rowBytes), before, after)
    ensures |after| == |before|
  {
  }

  lemma MovedByte(before: seq<Byte>, after: seq<Byte>, block: nat, rows: nat, rowStride: nat, shift: nat, rowBytes: nat,
                  row: nat, x: nat)
    requires rowBytes > 0 && RowMoves(block, rows * rowBytes, rowStride, shift, rowBytes).Fits(|before|)
    requires Moved(RowMoves(block, rows * rowBytes, rowStride, shift, rowBytes), before, after)
    requires row < rows && x < rowBytes
    ensures At(block, row, rowStride, x) < |before| == |after| && At(block, row, rowStride, x + shift) < |before|
    ensures after[At(block, row, rowStride, x)] == before[At(block, row, rowStride, x + shift)]
  {
    var c, m := RowMoves(block, rows * rowBytes, rowStride, shift, rowBytes), row * rowBytes + x;
    RowInside(rows, rowBytes, row);
    RowColumn(rowBytes, row, x);
    assert c.dst[m] == At(block, row, rowStride, x) && c.src[m] == At(block, row, rowStride, x + shift);
  }

  lemma UnmovedByte(before: seq<Byte>, after: seq<Byte>, block: nat, rows: nat, rowStride: nat, shift: nat,
                    rowBytes: nat, row: nat, x: nat)
    requires rowBytes > 0 && RowMoves(block, rows * rowBytes, rowStride, shift, rowBytes).Fits(|before|)
    requires Moved(RowMoves(block, rows * rowBytes, rowStride, shift, rowBytes), before, after)
    requires rowBytes <= x < rowStride && At(block, row, rowStride, x) < |before|
    ensures |after| == |before| && after[At(block, row, rowStride, x)] == before[At(block, row, rowStride, x)]
  {
    hide Moved, Moves.Fits, RowMoves, At;
    var c, a := RowMoves(block, rows * rowBytes, rowStride, shift, rowBytes), At(block, row, rowStride, x);
    forall m | 0 <= m < |c.dst|
      ensures c.dst[m] != a
    {
      PastRow(block, rows * rowBytes, rowStride, shift, rowBytes, row, x, m);
    }
    NotMoved(c, before, after, a);
  }

  /** No move writes past the copied part of a row. */
  lemma PastRow(block: nat, n: nat, rowStride: nat, shift: nat, rowBytes: nat, row: nat, x: nat, m: nat)
    requires 0 < rowBytes <= x < rowStride && m < n
    ensures RowMoves(block, n, rowStride, shift, rowBytes).dst[m] != At(block, row, rowStride, x)
  {
    if RowMoves(block, n, rowStride, shift, rowBytes).dst[m] == At(block, row, rowStride, x) {
      SamePlace(rowStride, m / rowBytes, row, m % rowBytes, x);
    }
  }

  lemma OutsideByte(before: seq<Byte>, after: seq<Byte>, block: nat, rows: nat, rowStride: nat, shift: nat,
                    rowBytes: nat, a: nat)
    requires rowBytes > 0 && rowBytes <= rowStride
             && RowMoves(block, rows * rowBytes, rowStride, shift, rowBytes).Fits(|before|)
    requires Moved(RowMoves(block, rows * rowBytes, rowStride, shift, rowBytes), before, after)
    requires a < |before| && !(block <= a < block + rows * rowStride)
    ensures |after| == |before| && after[a] == before[a]
  {
    var c := RowMoves(block, rows * rowBytes, rowStride, shift, rowBytes);
    forall m | 0 <= m < |c.dst|
      ensures c.dst[m] != a
    {
      RowAddrBound(block, rows, rowStride, rowBytes, m);
    }
  }

  lemma LaterToken(x: nat, bias: nat, elem: nat)
    requires elem > 0 && bias > 0
    ensures x / elem < (x + bias * elem) / elem
  {
    DivBounds(x, elem);
    assert (x / elem + bias) * elem == x / elem * elem + bias * elem;
    assert (x / elem + bias + 1) * elem == x / elem * elem + bias * elem + elem;
    DivUnique(x + bias * elem, elem, x / elem + bias);
  }

  // ---- Pointer-batch copy ----

  /** With a left overlap every block has a barrier between its loads and its stores, so
      everything loaded up to a block precedes everything stored from that block on. */
  ghost predicate BarrierOrder(lanes: nat, size: nat, s: Schedule)
    requires lanes > 0 && |s.loadAt| == |s.storeAt| == size
  {
    forall m, m' | 0 <= m < size && 0 <= m' < size && m / lanes <= m' / lanes :: s.loadAt[m] < s.storeAt[m']
  }

  /** The batch copy of left-overlapping regions equals memmove under every interleaving
      its barriers allow. */
  lemma BatchShiftCopies(mem: seq<Byte>, src: nat, dst: nat, size: nat, lanes: nat, s: Schedule)
    requires lanes > 0 && dst < src < dst + size && src + size <= |mem|
    requires s.Complete(size) && BarrierOrder(lanes, size, s)
    ensures Shifted(mem, Run(Span(src, dst, size), Machine(mem, map[]), s.trace, |s.trace|).mem, src, dst, size)
  {
    forall m: nat {:trigger s.loadAt[m]} | m + (src - dst) < size
      ensures s.loadAt[m] < s.storeAt[m + (src - dst)]
    {
      DivMono(m, m + (src - dst), lanes);
    }
    ShiftRunCopies(mem, src, dst, size, s);
  }

  // ---- What the byte copies mean for the window ----

  /** Token `t` of a window at `addr`. */
  function TokenAt(mem: seq<Byte>, addr: nat, tokenBytes: nat, t: nat): (token: seq<Byte>)
    requires addr + t * tokenBytes + tokenBytes <= |mem|
    ensures |token| == tokenBytes
    ensures forall y | 0 <= y < tokenBytes :: token[y] == mem[addr + t * tokenBytes + y]
  {
    mem[addr + t * tokenBytes..addr + t * tokenBytes + tokenBytes]
  }

  /** In tokens, the token-major copy is `dst := src[bias..] + dst[width - bias..]`: the
      step the protocol model takes. */
  lemma ShiftMovesTokens(before: seq<Byte>, after: seq<Byte>, src: nat, dst: nat, width: nat, tokenBytes: nat,
                         bias: nat, shift: nat, kept: nat, t: nat)
    requires bias <= width && t < width && shift == bias * tokenBytes && kept == (width - bias) * tokenBytes
    requires src + width * tokenBytes <= |before| && dst + width * tokenBytes <= |before|
    requires src + shift + kept <= |before| && Shifted(before, after, src + shift, dst, kept)
    ensures dst + t * tokenBytes + tokenBytes <= |before|
    ensures t < width - bias ==> src + (t + bias) * tokenBytes + tokenBytes <= |before|
    ensures TokenAt(after, dst, tokenBytes, t)
         == if t < width - bias then TokenAt(before, src, tokenBytes, t + bias) else TokenAt(before, dst, tokenBytes, t)
  {
    hide Shifted;
    RowInside(width, tokenBytes, t);
    TokenOffsets(width, bias, tokenBytes, t);
    var at := t * tokenBytes;
    if t < width - bias {
      SliceMoved(before, after, src + shift, dst, kept, at, tokenBytes);
      assert src + shift + at == src + (at + shift);
    } else {
      SliceKept(before, after, src + shift, dst, kept, at, tokenBytes);
    }
  }

  /** Token `t` of row `row` of a block of rows. */
  function RowTokenAt(mem: seq<Byte>, base: nat, rowStride: nat, elem: nat, row: nat, t: nat): (token: seq<Byte>)
    requires At(base, row, rowStride, t * elem) + elem <= |mem|
    ensures |token| == elem
    ensures forall y | 0 <= y < elem :: token[y] == mem[At(base, row, rowStride, t * elem) + y]
  {
    mem[At(base, row, rowStride, t * elem)..At(base, row, rowStride, t * elem) + elem]
  }

  lemma RowTokenInside(base: nat, rows: nat, rowStride: nat, elem: nat, width: nat, row: nat, t: nat)
    requires row < rows && t < width && width * elem <= rowStride
    ensures t * elem + elem <= width * elem
    ensures At(base, row, rowStride, t * elem) + elem <= base + rows * rowStride
  {
    RowInside(width, elem, t);
    RowInside(rows, rowStride, row);
  }

  /** The dimension-major copy takes the same step in every row. */
  lemma ShiftMovesRowTokens(before: seq<Byte>, after: seq<Byte>, src: nat, dst: nat, rows: nat, rowStride: nat,
                            elem: nat, width: nat, bias: nat, row: nat, t: nat)
    requires bias <= width && t < width && row < rows && width * elem <= rowStride
    requires src + rows * rowStride <= |before| == |after| && dst + rows * rowStride <= |before|
    requires RowsShifted(before, after, src, dst, rows, rowStride, bias * elem, (width - bias) * elem,
                         (width - bias) * elem, 0)
    ensures At(dst, row, rowStride, t * elem) + elem <= |before|
    ensures t < width - bias ==> At(src, row, rowStride, (t + bias) * elem) + elem <= |before|
    ensures RowTokenAt(after, dst, rowStride, elem, row, t)
         == if t < width - bias then RowTokenAt(before, src, rowStride, elem, row, t + bias)
            else RowTokenAt(before, dst, rowStride, elem, row, t)
  {
    hide RowsShifted, At, RowTokenAt;
    RowTokenInside(dst, rows, rowStride, elem, width, row, t);
    TokenOffsets(width, bias, elem, t);
    var shift := bias * elem;
    if t < width - bias {
      RowTokenInside(src, rows, rowStride, elem, width, row, t + bias);
      RowTokenMoved(before, after, src, dst, rows, rowStride, elem, shift, (width - bias) * elem, row, t, t + bias);
    } else {
      RowTokenKept(before, after, src, dst, rows, rowStride, elem, shift, (width - bias) * elem, row, t);
    }
  }

  lemma RowTokenMoved(before: seq<Byte>, after: seq<Byte>, src: nat, dst: nat, rows: nat, rowStride: nat, elem: nat,
                      shift: nat, kept: nat, row: nat, t: nat, from: nat)
    requires RowsShifted(before, after, src, dst, rows, rowStride, shift, kept, kept, 0)
    requires row < rows && from * elem == t * elem + shift && t * elem + elem <= kept && t * elem + elem <= rowStride
    requires At(dst, row, rowStride, t * elem) + elem <= |before| == |after|
    requires At(src, row, rowStride, from * elem) + elem <= |before|
    ensures RowTokenAt(after, dst, rowStride, elem, row, t) == RowTokenAt(before, src, rowStride, elem, row, from)
  {
    hide RowsShifted, At;
    RowSliceMoved(before, after, src, dst, rows, rowStride, shift, kept, row, t * elem, elem);
  }

  lemma RowTokenKept(before: seq<Byte>, after: seq<Byte>, src: nat, dst: nat, rows: nat, rowStride: nat, elem: nat,
                     shift: nat, kept: nat, row: nat, t: nat)
    requires RowsShifted(before, after, src, dst, rows, rowStride, shift, kept, kept, 0)
    requires row < rows && kept <= t * elem && t * elem + elem <= rowStride
    requires At(dst, row, rowStride, t * elem) + elem <= |before| == |after|
    ensures RowTokenAt(after, dst, rowStride, elem, row, t) == RowTokenAt(before, dst, rowStride, elem, row, t)
  {
    hide RowsShifted, At;
    RowSliceKept(before, after, src, dst, rows, rowStride, shift, kept, row, t * elem, elem);
  }

  /** A shifted token lies before the kept part, an unshifted one in it. */
  lemma TokenOffsets(width: nat, bias: nat, elem: nat, t: nat)
    requires bias <= width && t < width
    ensures (t + bias) * elem == t * elem + bias * elem && 0 <= (width - bias) * elem
    ensures if t < width - bias then t * elem + elem <= (width - bias) * elem else (width - bias) * elem <= t * elem
  {
    if t < width - bias { RowInside(width - bias, elem, t); } else { MulMono(width - bias, t, elem); }
  }

  /** A run of bytes of one row that is shifted. */
  lemma RowSliceMoved(before: seq<Byte>, after: seq<Byte>, src: nat, dst: nat, rows: nat, rowStride: nat, shift: nat,
                      kept: nat, row: nat, at: nat, n: nat)
    requires RowsShifted(before, after, src, dst, rows, rowStride, shift, kept, kept, 0)
    requires row < rows && at + n <= kept && at + n <= rowStride
    requires At(dst, row, rowStride, at) + n <= |before| && At(src, row, rowStride, at + shift) + n <= |before|
    ensures after[At(dst, row, rowStride, at)..At(dst, row, rowStride, at) + n]
         == before[At(src, row, rowStride, at + shift)..At(src, row, rowStride, at + shift) + n]
  {
    var to, from := At(dst, row, rowStride, at), At(src, row, rowStride, at + shift);
    var a, b := after[to..to + n], before[from..from + n];
    forall y | 0 <= y < n
      ensures a[y] == b[y]
    {
      assert At(dst, row, rowStride, at + y) == to + y && At(src, row, rowStride, at + y + shift) == from + y;
    }
  }

  /** A run of bytes of one row that stays. */
  lemma RowSliceKept(before: seq<Byte>, after: seq<Byte>, src: nat, dst: nat, rows: nat, rowStride: nat, shift: nat,
                     kept: nat, row: nat, at: nat, n: nat)
    requires RowsShifted(before, after, src, dst, rows, rowStride, shift, kept, kept, 0)
    requires row < rows && kept <= at && at + n <= rowStride && At(dst, row, rowStride, at) + n <= |before|
    ensures after[At(dst, row, rowStride, at)..At(dst, row, rowStride, at) + n]
         == before[At(dst, row, rowStride, at)..At(dst, row, rowStride, at) + n]
  {
    var to := At(dst, row, rowStride, at);
    var a, b := after[to..to + n], before[to..to + n];
    forall y | 0 <= y < n
      ensures a[y] == b[y]
    {
      assert At(dst, row, rowStride, at + y) == to + y;
    }
  }

  lemma SliceMoved(before: seq<Byte>, after: seq<Byte>, src: nat, dst: nat, size: nat, at: nat, n: nat)
    requires src + size <= |before| && dst + size <= |before| && at + n <= size
    requires Shifted(before, after, src, dst, size)
    ensures after[dst + at..dst + at + n] == before[src + at..src + at + n]
  {
  }

  lemma SliceKept(before: seq<Byte>, after: seq<Byte>, src: nat, dst: nat, size: nat, at: nat, n: nat)
    requires src + size <= |before| && size <= at && dst + at + n <= |before|
    requires Shifted(before, after, src, dst, size)
    ensures after[dst + at..dst + at + n] == before[dst + at..dst + at + n]
  {
  }
}
