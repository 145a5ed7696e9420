/** `_memcpy_u64_tiled`: a head/body/tail byte copy whose 64-bit body is split over
    tiles that run concurrently. */
module TiledMemcpy {
  import opened Bytes
  import opened IntMath
  import opened RaceFree

  /** Same offset within an 8-byte word: the vectorized path. */
  predicate Fast(src: nat, dst: nat) {
    src % 8 == dst % 8
  }

  /** Bytes that lift the destination to an 8-byte boundary. */
  function HeadBytes(dst: nat, size: nat): (h: nat)
    ensures h <= 7 && h <= size
  {
    Min((8 - dst % 8) % 8, size)
  }

  /** Whole 64-bit words between head and tail. */
  function BodyWords(dst: nat, size: nat): (n: nat)
    ensures HeadBytes(dst, size) + 8 * n <= size < HeadBytes(dst, size) + 8 * n + 8
  {
    (size - HeadBytes(dst, size)) / 8
  }

  /** Units per tile, rounded up to whole vector iterations. */
  function PerTile(units: nat, tiles: nat, vec: nat): nat
    requires tiles > 0 && vec > 0
  {
    CeilDiv(CeilDiv(units, tiles), vec) * vec
  }

  function TileStart(units: nat, tiles: nat, vec: nat, tile: nat): nat
    requires tiles > 0 && vec > 0
  {
    tile * PerTile(units, tiles, vec)
  }

  function TileEnd(units: nat, tiles: nat, vec: nat, tile: nat): nat
    requires tiles > 0 && vec > 0
  {
    Min(TileStart(units, tiles, vec, tile) + PerTile(units, tiles, vec), units)
  }

  /** The tiles together reach past the last unit. */
  lemma TilesReach(units: nat, tiles: nat, vec: nat)
    requires tiles > 0 && vec > 0
    ensures units <= tiles * PerTile(units, tiles, vec)
  {
    var raw := CeilDiv(units, tiles);
    CeilDivBounds(units, tiles);
    CeilDivBounds(raw, vec);
    MulMono(raw, PerTile(units, tiles, vec), tiles);
  }

  /** A tile's share is the fewest whole vector iterations with which the tiles get through,
      so that only the last tile with work can have a masked one. */
  lemma PerTileIsLeast(units: nat, tiles: nat, vec: nat)
    requires tiles > 0 && vec > 0
    ensures PerTile(units, tiles, vec) % vec == 0 && units <= tiles * PerTile(units, tiles, vec)
    ensures if units == 0 then PerTile(units, tiles, vec) == 0
            else PerTile(units, tiles, vec) >= vec && tiles * (PerTile(units, tiles, vec) - vec) < units
  {
    var raw := CeilDiv(units, tiles);
    var q := CeilDiv(raw, vec);
    TilesReach(units, tiles, vec);
    CeilDivBounds(units, tiles);
    CeilDivBounds(raw, vec);
    MulDiv(q, vec);
    if units > 0 { LeastShare(units, tiles, vec, raw, q); }
  }

  lemma LeastShare(units: nat, tiles: nat, vec: nat, raw: nat, q: nat)
    requires 0 < units && (raw - 1) * tiles < units <= raw * tiles && (q - 1) * vec < raw <= q * vec
    ensures q * vec >= vec && tiles * (q * vec - vec) < units
  {
    assert q > 0;
    MulMono(1, q, vec);
    OneLess(q, vec);
    MulMono(q * vec - vec, raw - 1, tiles);
  }

  lemma OneLess(q: nat, vec: nat)
    ensures (q - 1) * vec == q * vec - vec
  {
  }

  /** Byte `o` of the copy is written by tile `tile`. */
  predicate Owns(src: nat, dst: nat, size: nat, tiles: nat, vec: nat, tile: nat, o: nat)
    requires tiles > 0 && vec > 0
  {
    if Fast(src, dst) then
      var head := HeadBytes(dst, size);
      var words := BodyWords(dst, size);
      if o < head || head + 8 * words <= o then tile == 0
      else TileStart(words, tiles, vec, tile) <= (o - head) / 8 < TileEnd(words, tiles, vec, tile)
    else
      TileStart(size, tiles, vec, tile) <= o < TileEnd(size, tiles, vec, tile)
  }

  /** A unit belongs to exactly one tile. */
  lemma UnitHasOneTile(units: nat, tiles: nat, vec: nat, u: nat) returns (tile: nat)
    requires tiles > 0 && vec > 0 && u < units
    ensures tile < tiles && TileStart(units, tiles, vec, tile) <= u < TileEnd(units, tiles, vec, tile)
    ensures forall t: nat {:trigger TileStart(units, tiles, vec, t)}
      | TileStart(units, tiles, vec, t) <= u < TileEnd(units, tiles, vec, t) :: t == tile
  {
    TilesReach(units, tiles, vec);
    var per := PerTile(units, tiles, vec);
    assert per > 0 by { if per <= 0 { MulMono(per, 0, tiles); } }
    tile := u / per;
    DivBounds(u, per);
    DivMono(0, u, per);
    if tiles <= tile { MulMono(tiles, tile, per); }
    assert (tile + 1) * per == tile * per + per;
    forall t: nat {:trigger TileStart(units, tiles, vec, t)}
      | TileStart(units, tiles, vec, t) <= u < TileEnd(units, tiles, vec, t)
      ensures t == tile
    {
      assert (t + 1) * per == t * per + per;
      DivUnique(u, per, t);
    }
  }

  /** Every byte of the copy is written by exactly one tile. */
  lemma ByteHasOneTile(src: nat, dst: nat, size: nat, tiles: nat, vec: nat, o: nat) returns (tile: nat)
    requires tiles > 0 && vec > 0 && o < size
    ensures tile < tiles && Owns(src, dst, size, tiles, vec, tile, o)
    ensures forall t: nat | t < tiles && Owns(src, dst, size, tiles, vec, t, o) :: t == tile
  {
    if Fast(src, dst) {
      var head := HeadBytes(dst, size);
      var words := BodyWords(dst, size);
      if o < head || head + 8 * words <= o {
        tile := 0;
      } else {
        tile := UnitHasOneTile(words, tiles, vec, (o - head) / 8);
      }
    } else {
      tile := UnitHasOneTile(size, tiles, vec, o);
    }
  }

  /** Every 64-bit access of the body is 8-aligned on both sides. */
  lemma BodyAligned(src: nat, dst: nat, size: nat, w: nat)
    requires Fast(src, dst) && w < BodyWords(dst, size)
    ensures (dst + HeadBytes(dst, size) + 8 * w) % 8 == 0
    ensures (src + HeadBytes(dst, size) + 8 * w) % 8 == 0
  {
    var head := HeadBytes(dst, size);
    assert head == (8 - dst % 8) % 8;
    assert dst == 8 * (dst / 8) + dst % 8 && src == 8 * (src / 8) + src % 8;
    DivUnique(dst + head, 8, dst / 8 + (if dst % 8 == 0 then 0 else 1));
    DivUnique(src + head, 8, src / 8 + (if dst % 8 == 0 then 0 else 1));
  }

  // ---- The kernel ----

  predicate Regions(length: nat, src: nat, dst: nat, size: nat) {
    src + size <= length && dst + size <= length && (Disjoint(src, dst, size) || src == dst)
  }

  /** Load `n` bytes, then store them: one masked vector access. */
  method CopyVector(mem: array<Byte>, src: nat, dst: nat, n: nat)
    requires src + n <= mem.Length && dst + n <= mem.Length
    modifies mem
    ensures forall a | 0 <= a < mem.Length ::
              mem[a] == if dst <= a < dst + n then old(mem[a - dst + src]) else old(mem[a])
  {
    forall k | 0 <= k < n {
      mem[dst + k] := mem[src + k];
    }
  }

  /** The vector iterations of one tile: bytes `from .. to`, `step` bytes at a time. */
  method CopyRange(mem: array<Byte>, src: nat, dst: nat, from: nat, to: nat, step: nat, ghost size: nat)
    requires step > 0 && Regions(mem.Length, src, dst, size) && to <= size
    modifies mem
    ensures forall a | 0 <= a < mem.Length ::
              mem[a] == if dst + from <= a < dst + to then old(mem[a - dst + src]) else old(mem[a])
  {
    var i := from;
    while i < to
      invariant from <= i
      invariant forall a | 0 <= a < mem.Length ::
                  mem[a] == if dst + from <= a < dst + Min(i, to) then old(mem[a - dst + src]) else old(mem[a])
    {
      CopyVector(mem, src + i, dst + i, Min(step, to - i));
      i := i + step;
    }
  }

  /** One program of the kernel. It writes exactly the bytes its tile owns. */
  method CopyTile(mem: array<Byte>, src: nat, dst: nat, size: nat, tile: nat, tiles: nat, vec: nat)
    requires tiles > 0 && vec > 0 && tile < tiles && Regions(mem.Length, src, dst, size)
    modifies mem
    ensures forall a | 0 <= a < mem.Length ::
              mem[a] == if dst <= a < dst + size && Owns(src, dst, size, tiles, vec, tile, a - dst)
                        then old(mem[a - dst + src]) else old(mem[a])
  {
    hide TileStart, PerTile, HeadBytes, BodyWords;
    if Fast(src, dst) {
      var head := HeadBytes(dst, size);
      var words := BodyWords(dst, size);
      if tile == 0 {
        CopyVector(mem, src, dst, head);
      }
      var from, to := TileStart(words, tiles, vec, tile), TileEnd(words, tiles, vec, tile);
      CopyRange(mem, src + head, dst + head, 8 * from, 8 * to, 8 * vec, size - head);
      if tile == 0 {
        var tail := head + 8 * words;
        CopyVector(mem, src + tail, dst + tail, size - tail);
      }
    } else {
      var from, to := TileStart(size, tiles, vec, tile), TileEnd(size, tiles, vec, tile);
      CopyRange(mem, src, dst, from, to, vec, size);
    }
  }

  /** Byte `o` is owned by one of the first `n` tiles run. */
  ghost predicate Done(src: nat, dst: nat, size: nat, tiles: nat, vec: nat, order: seq<nat>, n: nat, o: nat)
    requires tiles > 0 && vec > 0 && n <= |order|
  {
    exists k :: 0 <= k < n && Owns(src, dst, size, tiles, vec, order[k], o)
  }

  lemma NoneDone(src: nat, dst: nat, size: nat, tiles: nat, vec: nat, order: seq<nat>)
    requires tiles > 0 && vec > 0
    ensures forall o: nat :: !Done(src, dst, size, tiles, vec, order, 0, o)
  {
  }

  lemma DoneGrows(src: nat, dst: nat, size: nat, tiles: nat, vec: nat, order: seq<nat>, i: nat)
    requires tiles > 0 && vec > 0 && i < |order|
    ensures forall o: nat :: Done(src, dst, size, tiles, vec, order, i + 1, o)
              <==> Done(src, dst, size, tiles, vec, order, i, o) || Owns(src, dst, size, tiles, vec, order[i], o)
  {
    hide Owns;
  }

  lemma AllDone(src: nat, dst: nat, size: nat, tiles: nat, vec: nat, order: seq<nat>)
    requires tiles > 0 && vec > 0
    requires forall t: nat | t < tiles :: t in order
    ensures forall o: nat | o < size :: Done(src, dst, size, tiles, vec, order, |order|, o)
  {
    hide Owns;
    forall o: nat | o < size
      ensures Done(src, dst, size, tiles, vec, order, |order|, o)
    {
      var t := ByteHasOneTile(src, dst, size, tiles, vec, o);
      assert t in order;
    }
  }

  /** Running every tile, in whatever order, is a plain copy: each byte of the destination
      gets its source byte and nothing else changes. */
  method CopyTiles(mem: array<Byte>, src: nat, dst: nat, size: nat, tiles: nat, vec: nat, order: seq<nat>)
    requires tiles > 0 && vec > 0 && Regions(mem.Length, src, dst, size)
    requires forall k | 0 <= k < |order| :: order[k] < tiles
    requires forall t: nat | t < tiles :: t in order
    modifies mem
    ensures forall a | 0 <= a < mem.Length ::
              mem[a] == if dst <= a < dst + size then old(mem[a - dst + src]) else old(mem[a])
  {
    hide Owns, Done, HeadBytes, BodyWords;
    NoneDone(src, dst, size, tiles, vec, order);
    for i := 0 to |order|
      invariant forall a | 0 <= a < mem.Length ::
                  mem[a] == if dst <= a < dst + size && Done(src, dst, size, tiles, vec, order, i, a - dst)
                            then old(mem[a - dst + src]) else old(mem[a])
      invariant forall a | src <= a < src + size :: mem[a] == old(mem[a])
    {
      CopyTile(mem, src, dst, size, order[i], tiles, vec);
      DoneGrows(src, dst, size, tiles, vec, order, i);
    }
    AllDone(src, dst, size, tiles, vec, order);
  }
}
