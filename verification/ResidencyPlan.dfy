/** How a new allocation is cut into parts, and the books it opens with. */
module ResidencyPlan {
  import opened IntMath
  import opened VmmState
  import opened OwnerBooks
  import opened Residency

  const GRANULARITY: nat := 2 * 1024 * 1024

  datatype Part = Part(kind: Kind, size: nat)

  /** Pages `0 .. n - 1`. */
  function FirstPages(n: nat): set<nat> {
    if n == 0 then {} else FirstPages(n - 1) + {n - 1}
  }

  lemma {:induction false} FirstPagesAre(n: nat)
    ensures forall p: nat :: p in FirstPages(n) <==> p < n
  {
    if n > 0 { FirstPagesAre(n - 1); }
  }

  predicate PrefixOfPages(pages: set<nat>) {
    pages == FirstPages(|pages|)
  }

  function SizeSum(parts: seq<Part>, n: nat): nat
    requires n <= |parts|
  {
    if n == 0 then 0 else SizeSum(parts, n - 1) + parts[n - 1].size
  }

  /** Hot only, hot then cold, cold only, or chunks only. */
  predicate PlanShape(parts: seq<Part>) {
    || (|parts| == 1 && (parts[0].kind == Hot || parts[0].kind == Cold))
    || (|parts| == 2 && parts[0].kind == Hot && parts[1].kind == Cold)
    || (|parts| > 0 && forall i | 0 <= i < |parts| :: parts[i].kind == Chunk)
  }

  predicate PlanOk(parts: seq<Part>, size: nat) {
    && PlanShape(parts) && SizeSum(parts, |parts|) == size
    && forall i | 0 <= i < |parts| :: parts[i].size > 0
  }

  /** The parts laid out from `va` on. */
  function Layout(parts: seq<Part>, va: nat): (layout: seq<Piece>)
    ensures |layout| == |parts|
    ensures forall i | 0 <= i < |parts| :: layout[i] == Piece(va + SizeSum(parts, i), parts[i].size)
  {
    seq(|parts|, i requires 0 <= i < |parts| => Piece(va + SizeSum(parts, i), parts[i].size))
  }

  lemma LayoutTiles(parts: seq<Part>, va: nat, size: nat)
    requires PlanOk(parts, size)
    ensures Tiles(Layout(parts, va), va, va + size)
  {
  }

  function RegionAt(parts: seq<Part>, va: nat, hs: seq<nat>, i: nat): Region
    requires i < |parts| == |hs|
  {
    Region(va + SizeSum(parts, i), parts[i].size, hs[i])
  }

  // What the constructor has noted after the first `n` parts.

  function HandlesUpTo(parts: seq<Part>, hs: seq<nat>, n: nat): map<nat, Kind>
    requires n <= |parts| && n <= |hs|
  {
    if n == 0 then map[] else HandlesUpTo(parts, hs, n - 1)[hs[n - 1] := parts[n - 1].kind]
  }

  function ColdUpTo(parts: seq<Part>, va: nat, hs: seq<nat>, n: nat): Option<Region>
    requires n <= |parts| == |hs|
  {
    if n == 0 then None
    else if parts[n - 1].kind == Cold then Some(RegionAt(parts, va, hs, n - 1))
    else ColdUpTo(parts, va, hs, n - 1)
  }

  function ChunksUpTo(parts: seq<Part>, va: nat, hs: seq<nat>, n: nat): seq<Region>
    requires n <= |parts| == |hs|
  {
    if n == 0 then []
    else ChunksUpTo(parts, va, hs, n - 1)
         + (if parts[n - 1].kind == Chunk then [RegionAt(parts, va, hs, n - 1)] else [])
  }

  lemma {:induction false} ChunksAre(parts: seq<Part>, va: nat, hs: seq<nat>, n: nat)
    requires n <= |parts| == |hs| && forall i | 0 <= i < |parts| :: parts[i].kind == Chunk
    ensures |ChunksUpTo(parts, va, hs, n)| == n && ColdUpTo(parts, va, hs, n) == None
    ensures forall i | 0 <= i < n :: ChunksUpTo(parts, va, hs, n)[i] == RegionAt(parts, va, hs, i)
  {
    if n > 0 { ChunksAre(parts, va, hs, n - 1); }
  }

  predicate Distinct(hs: seq<nat>) {
    forall i, k | 0 <= i < k < |hs| :: hs[i] != hs[k]
  }

  lemma {:induction false} HandlesAre(parts: seq<Part>, hs: seq<nat>, n: nat, i: nat)
    requires i < n <= |parts| && n <= |hs| && Distinct(hs)
    ensures hs[i] in HandlesUpTo(parts, hs, n) && HandlesUpTo(parts, hs, n)[hs[i]] == parts[i].kind
  {
    if i < n - 1 { HandlesAre(parts, hs, n - 1, i); }
  }

  /** The finished books, but with the given mappings. */
  function OpenBooks(parts: seq<Part>, va: nat, size: nat, hs: seq<nat>, hotBytes: nat, mappings: Entries): Books
    requires |hs| == |parts|
  {
    var n := |parts|;
    Books(va, size, Layout(parts, va), mappings, HandlesUpTo(parts, hs, n), map[], ColdUpTo(parts, va, hs, n), None,
          ChunksUpTo(parts, va, hs, n), 0, hotBytes, false, false)
  }

  /** Every part has its own created handle. */
  predicate PartsBacked(parts: seq<Part>, hs: seq<nat>, live: set<nat>, backings: map<nat, Backing>) {
    && |hs| == |parts| && Distinct(hs)
    && HandlesHeld(HandlesUpTo(parts, hs, |parts|), live, backings)
    && forall i | 0 <= i < |parts| :: hs[i] in backings && |backings[hs[i]].bytes| == parts[i].size
  }

  lemma BackedDistinct(parts: seq<Part>, hs: seq<nat>, live: set<nat>, backings: map<nat, Backing>)
    requires PartsBacked(parts, hs, live, backings)
    ensures |hs| == |parts| && Distinct(hs)
  {
    hide HandlesHeld, HandlesUpTo;
  }

  /** What the plan's four shapes make of the noted regions. */
  lemma PlanRegions(parts: seq<Part>, va: nat, hs: seq<nat>)
    requires PlanShape(parts) && |hs| == |parts|
    ensures |parts| > 0
    ensures var n := |parts|;
            var cold, chunks := ColdUpTo(parts, va, hs, n), ChunksUpTo(parts, va, hs, n);
            && (parts[n - 1].kind == Cold ==> cold == Some(RegionAt(parts, va, hs, n - 1)) && chunks == [])
            && (parts[n - 1].kind == Hot ==> n == 1 && cold == None && chunks == [])
            && (parts[n - 1].kind == Chunk ==>
                  cold == None && |chunks| == n && forall i | 0 <= i < n :: chunks[i] == RegionAt(parts, va, hs, i))
            && (parts[n - 1].kind == Hot || parts[n - 1].kind == Cold || parts[n - 1].kind == Chunk)
            && (parts[n - 1].kind == Chunk ==> forall i | 0 <= i < n :: parts[i].kind == Chunk)
            && (parts[n - 1].kind != Chunk ==> forall i | 0 <= i < n - 1 :: parts[i].kind == Hot)
  {
    if parts[|parts| - 1].kind == Chunk {
      ChunksAre(parts, va, hs, |parts|);
    } else {
      assert ColdUpTo(parts, va, hs, 0) == None && ChunksUpTo(parts, va, hs, 0) == [];
      assert ChunksUpTo(parts, va, hs, 1) == [];
    }
  }

  lemma PartIsPiece(parts: seq<Part>, va: nat, i: nat)
    requires i < |parts|
    ensures IsPiece(Layout(parts, va), va + SizeSum(parts, i), parts[i].size)
  {
    assert Layout(parts, va)[i] == Piece(va + SizeSum(parts, i), parts[i].size);
  }

  lemma OpenRegions(parts: seq<Part>, va: nat, size: nat, hs: seq<nat>, hotBytes: nat)
    requires PlanOk(parts, size) && |hs| == |parts|
    ensures var b := OpenBooks(parts, va, size, hs, hotBytes, map[]);
            RegionsArePieces(b.layout, b.coldMapping, b.coldChunks)
  {
    hide IsPiece, Layout, SizeSum, HandlesUpTo, ColdUpTo, ChunksUpTo, PlanShape;
    PlanRegions(parts, va, hs);
    forall i: nat | i < |parts|
      ensures IsPiece(Layout(parts, va), va + SizeSum(parts, i), parts[i].size)
    {
      PartIsPiece(parts, va, i);
    }
  }

  lemma OpenFallbacks(parts: seq<Part>, va: nat, size: nat, hs: seq<nat>, hotBytes: nat, live: set<nat>,
                      backings: map<nat, Backing>)
    requires PlanOk(parts, size) && PartsBacked(parts, hs, live, backings)
    ensures FallbacksHeld(OpenBooks(parts, va, size, hs, hotBytes, map[]), backings)
  {
    hide Layout, HandlesHeld, SizeSum, HandlesUpTo, ColdUpTo, ChunksUpTo, PlanShape;
    PlanRegions(parts, va, hs);
    forall i: nat | i < |parts|
      ensures hs[i] in HandlesUpTo(parts, hs, |parts|) && HandlesUpTo(parts, hs, |parts|)[hs[i]] == parts[i].kind
    {
      HandlesAre(parts, hs, |parts|, i);
    }
  }

  /** With every handle created and the range just reserved, the books are open. */
  lemma OpenConsistent(parts: seq<Part>, va: nat, size: nat, hs: seq<nat>, hotBytes: nat, s: State)
    requires PlanOk(parts, size) && PartsBacked(parts, hs, s.live, s.backings) && s.Valid()
    requires va in s.reservations && s.reservations[va] == size && Clear(s.mappings, va, size)
    ensures Consistent(OpenBooks(parts, va, size, hs, hotBytes, map[]), s)
  {
    hide State.Valid, FallbacksHeld, HandlesHeld, Tiles, RegionsArePieces, Layout, HandlesUpTo, ColdUpTo, ChunksUpTo;
    var b := OpenBooks(parts, va, size, hs, hotBytes, map[]);
    LayoutTiles(parts, va, size);
    OpenRegions(parts, va, size, hs, hotBytes);
    OpenFallbacks(parts, va, size, hs, hotBytes, s.live, s.backings);
    assert b.Owned() == map[va := size];
    SizesPositive(s);
    assert size > 0 by { LastPositive(parts, size); }
  }

  lemma LastPositive(parts: seq<Part>, size: nat)
    requires PlanOk(parts, size)
    ensures size > 0
  {
  }

  lemma SizesPositive(s: State)
    requires s.Valid()
    ensures forall a | a in s.mappings :: s.mappings[a].size > 0
  {
    hide MappingsApart, MappingsReserved, RangesApart;
  }

  lemma OpenMayBack(parts: seq<Part>, va: nat, size: nat, hs: seq<nat>, hotBytes: nat, mappings: Entries, i: nat)
    requires PlanOk(parts, size) && |hs| == |parts| && Distinct(hs) && i < |parts|
    ensures MayBack(OpenBooks(parts, va, size, hs, hotBytes, mappings), va + SizeSum(parts, i), hs[i])
  {
    hide Layout, SizeSum, HandlesUpTo, ColdUpTo, ChunksUpTo, PlanShape;
    PlanRegions(parts, va, hs);
    HandlesAre(parts, hs, |parts|, i);
  }

  /** The mappings of the first `n` parts. */
  function EntriesUpTo(parts: seq<Part>, va: nat, hs: seq<nat>, n: nat): Entries
    requires n <= |parts| && n <= |hs|
  {
    if n == 0 then map[]
    else EntriesUpTo(parts, va, hs, n - 1)[va + SizeSum(parts, n - 1) := Entry(parts[n - 1].size, hs[n - 1])]
  }

  lemma {:induction false} SizeSumGrows(parts: seq<Part>, i: nat, k: nat)
    requires i < k <= |parts| && forall j | 0 <= j < |parts| :: parts[j].size > 0
    ensures SizeSum(parts, i) + parts[i].size <= SizeSum(parts, k)
  {
    if i < k - 1 { SizeSumGrows(parts, i, k - 1); }
  }

  lemma {:induction false} EntriesAre(parts: seq<Part>, va: nat, hs: seq<nat>, n: nat, i: nat)
    requires n <= |parts| && n <= |hs| && i < |parts| && forall j | 0 <= j < |parts| :: parts[j].size > 0
    ensures var a := va + SizeSum(parts, i);
            && (a in EntriesUpTo(parts, va, hs, n) <==> i < n)
            && (i < n ==> EntriesUpTo(parts, va, hs, n)[a] == Entry(parts[i].size, hs[i]))
  {
    if n > 0 {
      EntriesAre(parts, va, hs, n - 1, i);
      if i < n - 1 { SizeSumGrows(parts, i, n - 1); }
      if n - 1 < i { SizeSumGrows(parts, n - 1, i); }
    }
  }

  lemma OpenShape(parts: seq<Part>, va: nat, size: nat, hs: seq<nat>, hotBytes: nat, mappings: Entries)
    requires PlanOk(parts, size) && |hs| == |parts|
    ensures var b := OpenBooks(parts, va, size, hs, hotBytes, mappings);
            Shape(b) && (forall i | 0 <= i < |parts| :: KindAt(b, i) == parts[i].kind && Named(b, i, hs[i]))
  {
    hide HandlesUpTo, ColdUpTo, ChunksUpTo, PlanShape, SizeSum;
    PlanRegions(parts, va, hs);
  }

  lemma OpenHotBytes(parts: seq<Part>, va: nat, size: nat, hs: seq<nat>, hotBytes: nat, mappings: Entries)
    requires PlanOk(parts, size) && |hs| == |parts|
    requires hotBytes == if parts[0].kind == Hot then parts[0].size else 0
    ensures var b := OpenBooks(parts, va, size, hs, hotBytes, mappings);
            b.hotBytes == Offset(b, HotPieces(b))
  {
    hide HandlesUpTo, ColdUpTo, ChunksUpTo;
    PlanRegions(parts, va, hs);
    assert SizeSum(parts, 0) == 0 && SizeSum(parts, 1) == parts[0].size;
  }

  lemma OpenPiece(parts: seq<Part>, va: nat, size: nat, hs: seq<nat>, hotBytes: nat, i: nat)
    requires PlanOk(parts, size) && |hs| == |parts| && Distinct(hs) && i < |parts|
    ensures var b := OpenBooks(parts, va, size, hs, hotBytes, EntriesUpTo(parts, va, hs, |parts|));
            && b.layout[i] == Piece(va + SizeSum(parts, i), parts[i].size)
            && b.layout[i].addr in b.mappings && b.mappings[b.layout[i].addr] == Entry(parts[i].size, hs[i])
            && hs[i] in b.handles && b.handles[hs[i]] == parts[i].kind
  {
    hide HandlesUpTo, ColdUpTo, ChunksUpTo, EntriesUpTo, PlanShape, SizeSum;
    EntriesAre(parts, va, hs, |parts|, i);
    HandlesAre(parts, hs, |parts|, i);
  }

  /** Every part mapped and readable makes an undisturbed allocation. */
  lemma OpenIntact(parts: seq<Part>, va: nat, size: nat, hs: seq<nat>, hotBytes: nat, s: State)
    requires PlanOk(parts, size) && |hs| == |parts| && Distinct(hs)
    requires hotBytes == if parts[0].kind == Hot then parts[0].size else 0
    requires forall i | 0 <= i < |parts| ::
      s.Readable(va + SizeSum(parts, i), parts[i].size) && s.mappings[va + SizeSum(parts, i)].handle == hs[i]
    ensures Intact(OpenBooks(parts, va, size, hs, hotBytes, EntriesUpTo(parts, va, hs, |parts|)), s)
  {
    hide HandlesUpTo, ColdUpTo, ChunksUpTo, EntriesUpTo, PlanShape, SizeSum, Shape, KindAt, Named, Offset, HotPieces,
         Layout;
    var b := OpenBooks(parts, va, size, hs, hotBytes, EntriesUpTo(parts, va, hs, |parts|));
    OpenShape(parts, va, size, hs, hotBytes, b.mappings);
    OpenHotBytes(parts, va, size, hs, hotBytes, b.mappings);
    forall i: nat | i < |parts|
      ensures PieceIntact(b, s, i) && b.layout[i].addr in b.mappings && b.mappings[b.layout[i].addr].handle == hs[i]
    {
      OpenPiece(parts, va, size, hs, hotBytes, i);
    }
  }

  lemma SizeSumAppend(parts: seq<Part>, more: Part, n: nat)
    requires n <= |parts|
    ensures SizeSum(parts + [more], n) == SizeSum(parts, n)
    ensures SizeSum(parts + [more], |parts| + 1) == SizeSum(parts, |parts|) + more.size
  {
    SizeSumAppendAll(parts, more, n);
    SizeSumAppendAll(parts, more, |parts|);
  }

  lemma {:induction false} SizeSumAppendAll(parts: seq<Part>, more: Part, n: nat)
    requires n <= |parts|
    ensures SizeSum(parts + [more], n) == SizeSum(parts, n)
  {
    if n > 0 { SizeSumAppendAll(parts, more, n - 1); }
  }

  /** Chunks of `step` bytes, the last one possibly shorter. */
  predicate Chunked(parts: seq<Part>, step: nat) {
    && (forall i | 0 <= i < |parts| :: parts[i].kind == Chunk && 0 < parts[i].size <= step)
    && forall i | 0 <= i < |parts| - 1 :: parts[i].size == step
  }

  method CutChunks(size: nat, step: nat) returns (parts: seq<Part>)
    requires size > 0 && step > 0
    ensures |parts| > 0 && Chunked(parts, step) && SizeSum(parts, |parts|) == size
  {
    parts := [];
    var remaining: nat := size;
    while remaining > 0
      invariant SizeSum(parts, |parts|) + remaining == size
      invariant Chunked(parts, step) && (|parts| > 0 && remaining > 0 ==> parts[|parts| - 1].size == step)
      invariant remaining == 0 ==> |parts| > 0
    {
      var part := Part(Chunk, Min(step, remaining));
      SizeSumAppend(parts, part, |parts|);
      parts := parts + [part];
      remaining := remaining - part.size;
    }
  }

  /** The constructor's choice of parts, for a number of pages and hot prefix. */
  method CutParts(pages: nat, hot: nat, chunkPages: nat) returns (parts: seq<Part>)
    requires 0 < pages && hot <= pages
    ensures PlanOk(parts, pages * GRANULARITY) && |parts| > 0
    ensures parts[0].kind == Hot <==> hot > 0
    ensures hot > 0 ==> parts[0].size == hot * GRANULARITY
    ensures parts[0].kind == Chunk <==> hot == 0 && chunkPages > 0
    ensures parts[|parts| - 1].kind == Cold <==> hot < pages && (hot > 0 || chunkPages == 0)
    ensures parts[0].kind == Chunk ==> Chunked(parts, chunkPages * GRANULARITY)
  {
    var size, hotBytes := pages * GRANULARITY, hot * GRANULARITY;
    if hot == 0 && chunkPages > 0 {
      parts := CutChunks(size, chunkPages * GRANULARITY);
    } else {
      parts := if hot > 0 then [Part(Hot, hotBytes)] else [];
      if hot < pages {
        parts := parts + [Part(Cold, size - hotBytes)];
      }
      SumOfFew(parts);
    }
  }

  lemma SumOfFew(parts: seq<Part>)
    requires 1 <= |parts| <= 2
    ensures SizeSum(parts, |parts|) == parts[0].size + (if |parts| == 2 then parts[1].size else 0)
  {
    assert SizeSum(parts, 1) == SizeSum(parts, 0) + parts[0].size;
    if |parts| == 2 { assert SizeSum(parts, 2) == SizeSum(parts, 1) + parts[1].size; }
  }
}
