/** What an undisturbed allocation looks like, what its fixed address range reads as, and
    what each completed operation does to both. */
module Residency {
  import opened Bytes
  import opened IntMath
  import opened VmmState
  import opened OwnerBooks

  // ---- Which pieces are in device memory ----

  function HotPieces(b: Books): int {
    if b.coldMapping.Some? then (if b.promotedHandle.Some? then |b.layout| else |b.layout| - 1)
    else if b.coldChunks != [] then b.chunkPromoted
    else |b.layout|
  }

  /** Distance of piece `i` from the base pointer; the whole size past the last piece. */
  function Offset(b: Books, i: int): int {
    if 0 <= i < |b.layout| then b.layout[i].addr - b.va else b.size
  }

  function KindAt(b: Books, i: nat): Kind {
    if b.coldMapping.Some? && i == |b.layout| - 1 then (if b.promotedHandle.Some? then Cache else Cold)
    else if b.coldChunks != [] then (if i < b.chunkPromoted then ChunkHot else Chunk)
    else Hot
  }

  /** The cold region is the last piece, or every piece is a chunk, or nothing is cold. */
  predicate Shape(b: Books) {
    && |b.layout| > 0
    && (b.coldMapping.Some? ==>
          && b.coldChunks == []
          && b.layout[|b.layout| - 1] == Piece(b.coldMapping.value.addr, b.coldMapping.value.size))
    && (b.promotedHandle.Some? ==> b.coldMapping.Some?)
    && b.chunkPromoted <= |b.coldChunks|
    && (b.coldChunks != [] ==>
          && |b.coldChunks| == |b.layout|
          && forall i | 0 <= i < |b.layout| :: b.layout[i] == Piece(b.coldChunks[i].addr, b.coldChunks[i].size))
  }

  /** The handle piece `i` must be mapped to, where the records name it. */
  predicate Named(b: Books, i: nat, h: nat)
    requires Shape(b) && i < |b.layout|
  {
    match KindAt(b, i)
    case Cold => h == b.coldMapping.value.handle
    case Cache => h == b.promotedHandle.value
    case Chunk => h == b.coldChunks[i].handle
    case Hot | ChunkHot => true
  }

  predicate PieceIntact(b: Books, s: State, i: nat)
    requires Shape(b) && i < |b.layout|
  {
    var p := b.layout[i];
    && p.addr in b.mappings && b.mappings[p.addr].size == p.size
    && s.Readable(p.addr, p.size) && s.mappings[p.addr].handle == b.mappings[p.addr].handle
    && b.mappings[p.addr].handle in b.handles
    && b.handles[b.mappings[p.addr].handle] == KindAt(b, i)
    && Named(b, i, b.mappings[p.addr].handle)
  }

  predicate DistinctPieces(layout: seq<Piece>, entries: Entries) {
    forall i, k | 0 <= i < k < |layout| && layout[i].addr in entries && layout[k].addr in entries ::
      entries[layout[i].addr].handle != entries[layout[k].addr].handle
  }

  /** Every piece mapped, readable, and backed as the promotion state says; `hotBytes`
      counts the bytes of the pieces in device memory. */
  predicate Intact(b: Books, s: State) {
    && !b.freed && !b.closing && Shape(b)
    && (forall i | 0 <= i < |b.layout| :: PieceIntact(b, s, i))
    && DistinctPieces(b.layout, b.mappings)
    && b.hotBytes == Offset(b, HotPieces(b))
  }

  lemma IntactIsOpen(b: Books, s: State)
    requires Intact(b, s)
    ensures !b.freed && !b.closing
  {
  }

  function PieceBytes(b: Books, s: State, i: nat): seq<Byte>
    requires Intact(b, s) && i < |b.layout|
  {
    assert PieceIntact(b, s, i);
    s.Bytes(b.layout[i].addr)
  }

  /** What kernels read through the fixed address range, piece by piece. */
  function Contents(b: Books, s: State): (c: seq<seq<Byte>>)
    requires Intact(b, s)
    ensures |c| == |b.layout|
  {
    seq(|b.layout|, i requires 0 <= i < |b.layout| => PieceBytes(b, s, i))
  }

  /** Offset `x` of the range lies in device memory. */
  ghost predicate OnDevice(b: Books, s: State, x: nat) {
    exists i :: && 0 <= i < |b.layout| && b.layout[i].addr <= b.va + x < PieceEnd(b.layout, i)
                && b.layout[i].addr in s.mappings && s.mappings[b.layout[i].addr].handle in s.backings
                && s.backings[s.mappings[b.layout[i].addr].handle].location == Device
  }

  lemma {:induction false} PieceAt(b: Books, x: nat, n: nat) returns (i: nat)
    requires Tiles(b.layout, b.va, b.va + b.size) && n < |b.layout| && b.va + x < PieceEnd(b.layout, n)
    ensures i <= n && b.layout[i].addr <= b.va + x < PieceEnd(b.layout, i)
  {
    if b.layout[n].addr <= b.va + x {
      i := n;
    } else {
      assert n > 0 && PieceEnd(b.layout, n - 1) == b.layout[n].addr;
      i := PieceAt(b, x, n - 1);
    }
  }

  /** Where piece `i` is backed. */
  lemma PieceLocation(b: Books, s: State, i: nat)
    requires Consistent(b, s) && Intact(b, s) && i < |b.layout|
    ensures b.layout[i].addr in s.mappings && s.mappings[b.layout[i].addr].handle in s.backings
    ensures s.backings[s.mappings[b.layout[i].addr].handle].location == Device <==> i < HotPieces(b)
  {
    hide State.Valid, RangesAgree, FallbacksHeld, DistinctPieces, Named;
    assert PieceIntact(b, s, i);
  }

  lemma OnlyPiece(b: Books, x: nat, i: nat, k: nat)
    requires Tiles(b.layout, b.va, b.va + b.size) && i < |b.layout| && k < |b.layout|
    requires b.layout[i].addr <= b.va + x < PieceEnd(b.layout, i)
             && b.layout[k].addr <= b.va + x < PieceEnd(b.layout, k)
    ensures i == k
  {
    if k < i { PiecesInOrder(b.layout, b.va, b.va + b.size, k, i); }
    if i < k { PiecesInOrder(b.layout, b.va, b.va + b.size, i, k); }
  }

  lemma PrefixOfPieces(b: Books, x: nat, i: nat, h: nat)
    requires Tiles(b.layout, b.va, b.va + b.size) && i < |b.layout| && h <= |b.layout|
    requires x < b.size && b.layout[i].addr <= b.va + x < PieceEnd(b.layout, i)
    ensures i < h <==> x < Offset(b, h)
  {
    if i < h < |b.layout| { PiecesInOrder(b.layout, b.va, b.va + b.size, i, h); }
    if h < i { PiecesInOrder(b.layout, b.va, b.va + b.size, h, i); }
  }

  /** The device-backed bytes are exactly the prefix `[0, hotBytes)`. */
  lemma DeviceBytesArePrefix(b: Books, s: State, x: nat)
    requires Consistent(b, s) && Intact(b, s) && x < b.size
    ensures OnDevice(b, s, x) <==> x < b.hotBytes
  {
    hide State.Valid, Slots, Recorded, NothingUnrecorded, RangesHeld, HandlesHeld, FallbacksHeld, PieceIntact,
         DistinctPieces, Offset;
    var i := PieceAt(b, x, |b.layout| - 1);
    PieceLocation(b, s, i);
    PrefixOfPieces(b, x, i, HotPieces(b));
    forall k: nat | k < |b.layout| && b.layout[k].addr <= b.va + x < PieceEnd(b.layout, k)
      ensures k == i
    {
      OnlyPiece(b, x, i, k);
    }
  }

  // ---- Completed operations ----

  /** The cold region now backed by `hot`. */
  function PromotedBooks(b: Books, hot: nat): Books
    requires b.coldMapping.Some?
  {
    var cold := b.coldMapping.value;
    b.(mappings := b.mappings[cold.addr := Entry(cold.size, hot)], handles := b.handles[hot := Cache],
       promotedHandle := Some(hot), hotBytes := b.hotBytes + cold.size)
  }

  /** The driver with `hot` created as a device copy of what `a` shows, and mapped there. */
  function ReplacedState(s: State, a: nat, size: nat, hot: nat): State
    requires s.Readable(a, size)
  {
    s.(backings := s.backings[hot := Backing(Device, s.Bytes(a))], live := s.live + {hot},
       mappings := s.mappings[a := Mapping(size, hot, true)])
  }

  /** The cold region back on its retained host memory. */
  function EvictedBooks(b: Books): Books
    requires b.coldMapping.Some? && b.promotedHandle.Some?
  {
    var cold := b.coldMapping.value;
    b.(mappings := b.mappings[cold.addr := Entry(cold.size, cold.handle)],
       handles := b.handles - {b.promotedHandle.value},
       promotedHandle := None, hotBytes := b.hotBytes - cold.size)
  }

  function RemappedState(s: State, a: nat, size: nat, h: nat): State {
    s.(mappings := s.mappings[a := Mapping(size, h, true)])
  }

  /** The next chunk now backed by `hot`; its host memory given up unless kept. */
  function ChunkBooks(b: Books, hot: nat, keepHost: bool): Books
    requires b.chunkPromoted < |b.coldChunks|
  {
    var chunk := b.coldChunks[b.chunkPromoted];
    var handles := b.handles[hot := ChunkHot];
    b.(mappings := b.mappings[chunk.addr := Entry(chunk.size, hot)],
       handles := if keepHost then handles else handles - {chunk.handle},
       chunkPromoted := b.chunkPromoted + 1, hotBytes := b.hotBytes + chunk.size)
  }

  // ---- What keeps an allocation intact ----

  /** Records and driver agree on everything a canonical piece depends on. */
  predicate SamePiece(b: Books, s: State, c: Books, t: State, i: nat)
    requires Shape(b) && i < |b.layout| && PieceIntact(b, s, i)
  {
    var a := b.layout[i].addr;
    var h := b.mappings[a].handle;
    && a in c.mappings && c.mappings[a] == b.mappings[a]
    && a in t.mappings && t.mappings[a] == s.mappings[a]
    && h in c.handles && c.handles[h] == b.handles[h]
    && h in t.backings && t.backings[h] == s.backings[h]
  }

  /** Nothing a canonical piece depends on differs, so nothing a kernel sees differs. */
  lemma SamePiecesSameContents(b: Books, s: State, c: Books, t: State)
    requires Intact(b, s) && c == b.(mappings := c.mappings, handles := c.handles, temps := c.temps)
    requires forall i | 0 <= i < |b.layout| :: SamePiece(b, s, c, t, i)
    ensures Intact(c, t) && Contents(c, t) == Contents(b, s)
  {
    forall i | 0 <= i < |c.layout|
      ensures PieceIntact(c, t, i) && t.Bytes(c.layout[i].addr) == PieceBytes(b, s, i)
      ensures c.layout[i].addr in b.mappings && c.mappings[c.layout[i].addr] == b.mappings[c.layout[i].addr]
    {
      assert PieceIntact(b, s, i) && SamePiece(b, s, c, t, i);
    }
    assert Contents(c, t) == Contents(b, s);
  }

  /** Piece `m` of `b` is remapped to handle `h`, every other piece stays. */
  ghost predicate OnePieceRemapped(b: Books, s: State, c: Books, t: State, m: nat, h: nat)
    requires Intact(b, s) && m < |b.layout|
  {
    var p := b.layout[m];
    && c.layout == b.layout && c.va == b.va && c.size == b.size && !c.freed && !c.closing && Shape(c)
    && p.addr in c.mappings && c.mappings[p.addr] == Entry(p.size, h)
    && p.addr in t.mappings && t.mappings[p.addr] == Mapping(p.size, h, true) && h in t.backings
    && h in c.handles && c.handles[h] == KindAt(c, m) && Named(c, m, h)
    && (forall i | 0 <= i < |b.layout| && i != m ::
          && SamePiece(b, s, c, t, i) && KindAt(c, i) == KindAt(b, i) && b.mappings[b.layout[i].addr].handle != h
          && KindAt(b, i) != Cold && KindAt(b, i) != Cache
          && (KindAt(b, i) == Chunk ==> c.coldChunks[i].handle == b.coldChunks[i].handle))
  }

  lemma RemappedPiece(b: Books, s: State, c: Books, t: State, m: nat, h: nat)
    requires Intact(b, s) && m < |b.layout| && OnePieceRemapped(b, s, c, t, m, h)
    requires c.hotBytes == Offset(c, HotPieces(c))
    ensures Intact(c, t) && Contents(c, t) == Contents(b, s)[m := t.backings[h].bytes]
  {
    forall i | 0 <= i < |c.layout| && i != m
      ensures PieceIntact(c, t, i) && t.Bytes(c.layout[i].addr) == PieceBytes(b, s, i)
      ensures c.layout[i].addr in b.mappings && c.mappings[c.layout[i].addr] == b.mappings[c.layout[i].addr]
    {
      assert PieceIntact(b, s, i) && SamePiece(b, s, c, t, i);
    }
    assert PieceIntact(b, s, m) && PieceIntact(c, t, m);
    assert DistinctPieces(c.layout, c.mappings);
    assert Contents(c, t) == Contents(b, s)[m := t.backings[h].bytes];
  }

  /** Piece addresses differ, and so does the backing of different pieces. */
  lemma OtherPiece(b: Books, s: State, i: nat, m: nat)
    requires Consistent(b, s) && Intact(b, s) && i < |b.layout| && m < |b.layout| && i != m
    ensures b.layout[i].addr != b.layout[m].addr
    ensures PieceIntact(b, s, i) && PieceIntact(b, s, m)
    ensures b.mappings[b.layout[i].addr].handle != b.mappings[b.layout[m].addr].handle
  {
    hide State.Valid, Slots, Recorded, NothingUnrecorded, RangesHeld, HandlesHeld, FallbacksHeld, Named;
    assert PieceIntact(b, s, i) && PieceIntact(b, s, m);
    if i < m { PiecesInOrder(b.layout, b.va, b.va + b.size, i, m); }
    else { PiecesInOrder(b.layout, b.va, b.va + b.size, m, i); }
  }

  lemma LastPiece(b: Books)
    requires Tiles(b.layout, b.va, b.va + b.size) && Shape(b) && b.coldMapping.Some?
    ensures Offset(b, |b.layout| - 1) + b.coldMapping.value.size == b.size
  {
  }

  /** Bytes of the retained host copy of the cold region. */
  function Retained(b: Books, s: State): seq<Byte> {
    if b.coldMapping.Some? && b.coldMapping.value.handle in s.backings
    then s.backings[b.coldMapping.value.handle].bytes else []
  }

  /** A completed whole-region promotion changes no byte a kernel sees, and leaves the
      retained host memory equal to what it sees. */
  lemma PromotionKeepsContents(b: Books, s: State, hot: nat)
    requires Consistent(b, s) && Intact(b, s) && hot !in s.backings
    requires b.coldMapping.Some? && b.promotedHandle.None?
    ensures var cold := b.coldMapping.value;
            && s.Readable(cold.addr, cold.size)
            && var c, t := PromotedBooks(b, hot), ReplacedState(s, cold.addr, cold.size, hot);
               && Intact(c, t) && Contents(c, t) == Contents(b, s)
               && Retained(c, t) == Contents(b, s)[|b.layout| - 1]
  {
    hide State.Valid, Slots, Recorded, NothingUnrecorded, RangesHeld, FallbacksHeld, DistinctPieces, Contents;
    var m, cold := |b.layout| - 1, b.coldMapping.value;
    assert PieceIntact(b, s, m);
    var c, t := PromotedBooks(b, hot), ReplacedState(s, cold.addr, cold.size, hot);
    forall i | 0 <= i < |b.layout| && i != m
      ensures SamePiece(b, s, c, t, i) && b.mappings[b.layout[i].addr].handle != hot
    {
      OtherPiece(b, s, i, m);
    }
    LastPiece(b);
    RemappedPiece(b, s, c, t, m, hot);
    ContentsAt(b, s, m);
    assert Contents(b, s)[m := Contents(b, s)[m]] == Contents(b, s);
  }

  lemma ContentsAt(b: Books, s: State, i: nat)
    requires Intact(b, s) && i < |b.layout|
    ensures PieceIntact(b, s, i) && Contents(b, s)[i] == s.Bytes(b.layout[i].addr)
  {
    assert PieceIntact(b, s, i);
  }

  lemma ColdIsHeld(b: Books, s: State)
    requires Consistent(b, s) && Intact(b, s) && b.coldMapping.Some?
    ensures Backs(b.handles, s.backings, b.coldMapping.value.handle, Cold, b.coldMapping.value.size)
  {
    hide State.Valid, RangesAgree, HandlesHeld, ChunksHeld, PiecesHeld, PieceIntact, DistinctPieces, Shape;
  }

  /** `(c, t)` is `(b, s)` with the cold region back on its own handle, the promoted handle
      given up or not. */
  predicate Evicted(b: Books, s: State, c: Books, t: State)
    requires b.coldMapping.Some? && b.promotedHandle.Some?
  {
    var cold, hot := b.coldMapping.value, b.promotedHandle.value;
    && c == EvictedBooks(b).(handles := c.handles) && c.handles - {hot} == b.handles - {hot}
    && t.mappings == RemappedState(s, cold.addr, cold.size, cold.handle).mappings
       && t.backings - {hot} == s.backings - {hot}
  }

  lemma EvictedShowsRetained(b: Books, s: State, c: Books, t: State)
    requires Consistent(b, s) && Intact(b, s) && b.promotedHandle.Some? && Evicted(b, s, c, t)
    ensures Intact(c, t) && Contents(c, t) == Contents(b, s)[|b.layout| - 1 := Retained(b, s)]
  {
    hide State.Valid, Slots, Recorded, NothingUnrecorded, RangesHeld, FallbacksHeld, HandlesHeld, DistinctPieces,
         Contents;
    var m, cold, hot := |b.layout| - 1, b.coldMapping.value, b.promotedHandle.value;
    ColdIsHeld(b, s);
    assert PieceIntact(b, s, m);
    KeptBut(c.handles, b.handles, hot, cold.handle);
    KeptBut(t.backings, s.backings, hot, cold.handle);
    forall i | 0 <= i < |b.layout| && i != m
      ensures SamePiece(b, s, c, t, i) && b.mappings[b.layout[i].addr].handle != cold.handle
    {
      OtherPiece(b, s, i, m);
      KeptBut(c.handles, b.handles, hot, b.mappings[b.layout[i].addr].handle);
      KeptBut(t.backings, s.backings, hot, b.mappings[b.layout[i].addr].handle);
    }
    LastPiece(b);
    RemappedPiece(b, s, c, t, m, cold.handle);
  }

  lemma KeptBut<T>(m: map<nat, T>, n: map<nat, T>, dropped: nat, k: nat)
    requires m - {dropped} == n - {dropped} && k in n && k != dropped
    ensures k in m && m[k] == n[k]
  {
    assert k in n - {dropped};
  }

  /** A completed eviction shows the retained host memory again, and nothing else differs. */
  lemma EvictionShowsRetained(b: Books, s: State)
    requires Consistent(b, s) && Intact(b, s) && b.promotedHandle.Some?
    ensures var cold := b.coldMapping.value;
            var c, t := EvictedBooks(b),
                RemappedState(s, cold.addr, cold.size, cold.handle).Release(b.promotedHandle.value);
            && Intact(c, t)
            && Contents(c, t) == Contents(b, s)[|b.layout| - 1 := Retained(b, s)]
            && Retained(c, t) == Retained(b, s)
  {
    hide State.Valid, Slots, Recorded, NothingUnrecorded, RangesHeld, FallbacksHeld, HandlesHeld, DistinctPieces,
         Contents;
    var cold, hot := b.coldMapping.value, b.promotedHandle.value;
    var c, t := EvictedBooks(b), RemappedState(s, cold.addr, cold.size, cold.handle).Release(hot);
    ColdIsHeld(b, s);
    assert PieceIntact(b, s, |b.layout| - 1);
    assert b.handles - {hot} - {hot} == b.handles - {hot} && s.backings - {hot} - {hot} == s.backings - {hot};
    EvictedShowsRetained(b, s, c, t);
    KeptBut(t.backings, s.backings, hot, cold.handle);
  }

  /** So does one whose promoted handle could not be released. */
  lemma EvictionUnreleased(b: Books, s: State)
    requires Consistent(b, s) && Intact(b, s) && b.promotedHandle.Some?
    ensures var cold := b.coldMapping.value;
            var c, t := EvictedBooks(b).(handles := b.handles), RemappedState(s, cold.addr, cold.size, cold.handle);
            Intact(c, t) && Contents(c, t) == Contents(b, s)[|b.layout| - 1 := Retained(b, s)]
  {
    hide Consistent, PieceIntact, DistinctPieces, Contents, Retained;
    var cold := b.coldMapping.value;
    EvictedShowsRetained(b, s, EvictedBooks(b).(handles := b.handles),
                         RemappedState(s, cold.addr, cold.size, cold.handle));
  }

  /** So an eviction is invisible exactly when nothing was written since the promotion
      that the retained copy does not show. */
  lemma EvictionInvisibleIff(b: Books, s: State)
    requires Consistent(b, s) && Intact(b, s) && b.promotedHandle.Some?
    ensures var cold := b.coldMapping.value;
            var c, t := EvictedBooks(b),
                RemappedState(s, cold.addr, cold.size, cold.handle).Release(b.promotedHandle.value);
            Intact(c, t) && (Contents(c, t) == Contents(b, s) <==> Retained(b, s) == Contents(b, s)[|b.layout| - 1])
  {
    hide State.Valid, RangesAgree, FallbacksHeld, HandlesHeld, PieceIntact, DistinctPieces, Contents;
    EvictionShowsRetained(b, s);
    var m := |b.layout| - 1;
    var before := Contents(b, s);
    if Retained(b, s) == before[m] {
      assert before[m := before[m]] == before;
    } else {
      assert before[m := Retained(b, s)][m] != before[m];
    }
  }

  /** The driver after a chunk promotion. */
  function ChunkState(b: Books, s: State, hot: nat, keepHost: bool): State
    requires b.chunkPromoted < |b.coldChunks|
    requires s.Readable(b.coldChunks[b.chunkPromoted].addr, b.coldChunks[b.chunkPromoted].size)
  {
    var chunk := b.coldChunks[b.chunkPromoted];
    var t := ReplacedState(s, chunk.addr, chunk.size, hot);
    if keepHost then t else t.Release(chunk.handle)
  }

  /** The chunk's host handle is held after the promotion exactly if it is to be kept. */
  lemma HostHandleKept(b: Books, s: State, hot: nat, keepHost: bool)
    requires Consistent(b, s) && !b.freed && b.chunkPromoted < |b.coldChunks| && hot !in s.backings
    requires s.Readable(b.coldChunks[b.chunkPromoted].addr, b.coldChunks[b.chunkPromoted].size)
    ensures var h := b.coldChunks[b.chunkPromoted].handle;
            && (h in ChunkBooks(b, hot, keepHost).handles <==> keepHost)
            && (h in ChunkState(b, s, hot, keepHost).live <==> keepHost)
  {
    hide State.Valid, Tiles, Slots, RangesHeld, MappingsFit, MappingsApart, MappingsReserved, RangesApart;
    var chunk := b.coldChunks[b.chunkPromoted];
    var p := Piece(chunk.addr, chunk.size);
    PieceWithin(b.layout, b.va, b.size, chunk.addr, chunk.size);
    assert b.va in b.Owned() && p in b.layout && p.addr in b.mappings;
    assert !b.closing;
    assert Backs(b.handles, s.backings, chunk.handle, Chunk, chunk.size);
  }

  lemma NextOffset(b: Books, k: nat)
    requires Tiles(b.layout, b.va, b.va + b.size) && k < |b.layout|
    ensures Offset(b, k) + b.layout[k].size == Offset(b, k + 1)
  {
    if k + 1 < |b.layout| { assert PieceEnd(b.layout, k) == b.layout[k + 1].addr; }
  }

  lemma ChunkIsRemapped(b: Books, s: State, hot: nat, keepHost: bool)
    requires Consistent(b, s) && Intact(b, s) && hot !in s.backings && b.chunkPromoted < |b.coldChunks|
    ensures var chunk := b.coldChunks[b.chunkPromoted];
            && s.Readable(chunk.addr, chunk.size) && b.chunkPromoted < |b.layout|
            && OnePieceRemapped(b, s, ChunkBooks(b, hot, keepHost), ChunkState(b, s, hot, keepHost),
                                b.chunkPromoted, hot)
            && chunk.addr == b.layout[b.chunkPromoted].addr && hot in ChunkState(b, s, hot, keepHost).backings
            && ChunkState(b, s, hot, keepHost).backings[hot].bytes == s.Bytes(chunk.addr)
  {
    hide State.Valid, Slots, Recorded, NothingUnrecorded, RangesHeld, FallbacksHeld, HandlesHeld, DistinctPieces, Tiles,
         Offset, HotPieces;
    var m := b.chunkPromoted;
    assert PieceIntact(b, s, m);
    var c, t := ChunkBooks(b, hot, keepHost), ChunkState(b, s, hot, keepHost);
    forall i | 0 <= i < |b.layout| && i != m
      ensures SamePiece(b, s, c, t, i) && b.mappings[b.layout[i].addr].handle != hot
    {
      OtherPiece(b, s, i, m);
    }
  }

  /** A completed chunk promotion changes no byte a kernel sees. */
  lemma ChunkPromotionKeepsContents(b: Books, s: State, hot: nat, keepHost: bool)
    requires Consistent(b, s) && Intact(b, s) && hot !in s.backings && b.chunkPromoted < |b.coldChunks|
    ensures var chunk := b.coldChunks[b.chunkPromoted];
            && s.Readable(chunk.addr, chunk.size)
            && var c, t := ChunkBooks(b, hot, keepHost), ChunkState(b, s, hot, keepHost);
               Intact(c, t) && Contents(c, t) == Contents(b, s)
  {
    hide State.Valid, Slots, Recorded, NothingUnrecorded, RangesHeld, FallbacksHeld, HandlesHeld, DistinctPieces,
         Contents, PieceIntact, OnePieceRemapped, Tiles;
    var m := b.chunkPromoted;
    ChunkIsRemapped(b, s, hot, keepHost);
    NextOffset(b, m);
    RemappedPiece(b, s, ChunkBooks(b, hot, keepHost), ChunkState(b, s, hot, keepHost), m, hot);
    ContentsAt(b, s, m);
    assert Contents(b, s)[m := Contents(b, s)[m]] == Contents(b, s);
  }

  /** One byte of one piece overwritten. */
  function Written(contents: seq<seq<Byte>>, i: nat, offset: nat, value: Byte): seq<seq<Byte>>
    requires i < |contents| && offset < |contents[i]|
  {
    var piece: seq<Byte> := contents[i][offset := value];
    contents[i := piece]
  }

  /** A store through the range changes the one byte it names, and never the retained
      host copy of a promoted region. */
  lemma StoreChangesOneByte(b: Books, s: State, i: nat, offset: nat, value: Byte)
    requires Consistent(b, s) && Intact(b, s) && i < |b.layout| && offset < |Contents(b, s)[i]|
    ensures PieceIntact(b, s, i) && offset < |s.Bytes(b.layout[i].addr)|
    ensures var t := s.Poke(b.layout[i].addr, offset, value);
            && Intact(b, t) && Contents(b, t) == Written(Contents(b, s), i, offset, value)
            && (b.promotedHandle.Some? ==> Retained(b, t) == Retained(b, s))
  {
    hide State.Valid, Slots, Recorded, NothingUnrecorded, RangesHeld, FallbacksHeld, HandlesHeld, DistinctPieces,
         Offset;
    ContentsAt(b, s, i);
    var t := s.Poke(b.layout[i].addr, offset, value);
    forall k | 0 <= k < |b.layout|
      ensures PieceIntact(b, t, k) && PieceIntact(b, s, k)
      ensures k != i ==> t.Bytes(b.layout[k].addr) == s.Bytes(b.layout[k].addr)
    {
      assert PieceIntact(b, s, k);
      if k != i { OtherPiece(b, s, k, i); }
    }
    assert Contents(b, t) == Written(Contents(b, s), i, offset, value);
    if b.promotedHandle.Some? { ColdIsHeld(b, s); }
  }
}
