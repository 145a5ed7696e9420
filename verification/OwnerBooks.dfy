/** The bookkeeping of one mixed-residency allocation, as a value: what the owner
    records, and what must hold between its records and the driver's state after every
    single driver call, failed ones included. */
module OwnerBooks {
  import opened IntMath
  import opened VmmState

  /** Why a handle was created. */
  datatype Kind = Hot | Cold | Chunk | Cache | ChunkHot

  /** Where the memory behind a handle of this kind lies. */
  function Placement(kind: Kind): Location {
    match kind
    case Hot | Cache | ChunkHot => Device
    case Cold | Chunk => HostNuma
  }

  datatype Entry = Entry(size: nat, handle: nat)

  type Entries = map<nat, Entry>

  datatype Region = Region(addr: nat, size: nat, handle: nat)

  datatype Piece = Piece(addr: nat, size: nat)

  /** `layout` lists the canonical pieces of the range in order. `temps` are temporary
      reservations not returned yet. `closing` says a handle was given back by `free`. */
  datatype Books = Books(va: nat, size: nat, layout: seq<Piece>, mappings: Entries, handles: map<nat, Kind>,
                         temps: Ranges, coldMapping: Option<Region>, promotedHandle: Option<nat>,
                         coldChunks: seq<Region>, chunkPromoted: nat, hotBytes: int, freed: bool, closing: bool) {
    /** The address ranges this owner holds. */
    function Owned(): Ranges {
      if freed then temps else temps[va := size]
    }
  }

  // ---- Canonical pieces ----

  function PieceEnd(layout: seq<Piece>, i: nat): nat
    requires i < |layout|
  {
    layout[i].addr + layout[i].size
  }

  /** The pieces tile `[from, to)` in order, without gap or overlap. */
  predicate Tiles(layout: seq<Piece>, from: nat, to: nat) {
    && |layout| > 0 && layout[0].addr == from && PieceEnd(layout, |layout| - 1) == to
    && (forall i | 0 <= i < |layout| :: layout[i].size > 0)
    && (forall i | 0 <= i < |layout| - 1 :: PieceEnd(layout, i) == layout[i + 1].addr)
  }

  lemma {:induction false} PiecesInOrder(layout: seq<Piece>, from: nat, to: nat, i: nat, j: nat)
    requires Tiles(layout, from, to) && i < j < |layout|
    ensures PieceEnd(layout, i) <= layout[j].addr
  {
    if i + 1 < j {
      PiecesInOrder(layout, from, to, i, j - 1);
      assert PieceEnd(layout, j - 1) == layout[j].addr;
    }
  }

  lemma PieceInside(layout: seq<Piece>, from: nat, to: nat, i: nat)
    requires Tiles(layout, from, to) && i < |layout|
    ensures from <= layout[i].addr && PieceEnd(layout, i) <= to
  {
    if i > 0 { PiecesInOrder(layout, from, to, 0, i); }
    if i < |layout| - 1 { PiecesInOrder(layout, from, to, i, |layout| - 1); }
  }

  predicate IsPiece(layout: seq<Piece>, a: nat, size: nat) {
    Piece(a, size) in layout
  }

  predicate IsTemp(temps: Ranges, a: nat, size: nat) {
    a in temps && temps[a] == size
  }

  lemma PieceWithin(layout: seq<Piece>, va: nat, total: nat, a: nat, size: nat)
    requires Tiles(layout, va, va + total) && IsPiece(layout, a, size)
    ensures size > 0 && Within(va, total, a, size)
  {
    var i :| 0 <= i < |layout| && layout[i] == Piece(a, size);
    PieceInside(layout, va, va + total, i);
  }

  lemma PiecesApart(layout: seq<Piece>, from: nat, to: nat, a: nat, m: nat, c: nat, n: nat)
    requires Tiles(layout, from, to) && IsPiece(layout, a, m) && IsPiece(layout, c, n)
    ensures Apart(a, m, c, n) || (a == c && m == n)
  {
    var i :| 0 <= i < |layout| && layout[i] == Piece(a, m);
    var j :| 0 <= j < |layout| && layout[j] == Piece(c, n);
    if i < j { PiecesInOrder(layout, from, to, i, j); }
    if j < i { PiecesInOrder(layout, from, to, j, i); }
  }

  // ---- Agreement with the driver ----

  /** Every recorded mapping lies at a piece or a temporary. */
  predicate Slots(layout: seq<Piece>, temps: Ranges, entries: Entries) {
    forall a | a in entries :: IsPiece(layout, a, entries[a].size) || IsTemp(temps, a, entries[a].size)
  }

  predicate SameEntry(e: Entry, m: Mapping) {
    m.size == e.size && m.handle == e.handle
  }

  /** Every recorded mapping is the driver's. */
  predicate Recorded(entries: Entries, mappings: Mappings) {
    forall a | a in entries :: a in mappings && SameEntry(entries[a], mappings[a])
  }

  /** The driver has no mapping in this owner's ranges that is not recorded. */
  predicate NothingUnrecorded(entries: Entries, mappings: Mappings, owned: Ranges) {
    forall a, r | a in mappings && a !in entries && r in owned :: !Within(r, owned[r], a, mappings[a].size)
  }

  predicate RangesHeld(owned: Ranges, reservations: Ranges) {
    forall r | r in owned :: r in reservations && reservations[r] == owned[r]
  }

  /** The noted handles are held, each in the memory its kind calls for. */
  predicate HandlesHeld(handles: map<nat, Kind>, live: set<nat>, backings: map<nat, Backing>) {
    && handles.Keys <= live
    && forall h | h in handles :: h in backings && backings[h].location == Placement(handles[h])
  }

  /** A handle held for backing a region of this size. */
  predicate Backs(handles: map<nat, Kind>, backings: map<nat, Backing>, h: nat, kind: Kind, size: nat) {
    h in handles && handles[h] == kind && h in backings && |backings[h].bytes| == size
  }

  predicate ColdHeld(b: Books, backings: map<nat, Backing>) {
    && (b.coldMapping.Some? ==>
          Backs(b.handles, backings, b.coldMapping.value.handle, Cold, b.coldMapping.value.size))
    && (b.promotedHandle.Some? ==>
          b.coldMapping.Some? && Backs(b.handles, backings, b.promotedHandle.value, Cache, b.coldMapping.value.size))
  }

  predicate ChunksHeld(b: Books, backings: map<nat, Backing>) {
    && b.chunkPromoted <= |b.coldChunks|
    && (forall i | b.chunkPromoted <= i < |b.coldChunks| ::
          Backs(b.handles, backings, b.coldChunks[i].handle, Chunk, b.coldChunks[i].size))
    && (forall i, k | 0 <= i < k < |b.coldChunks| :: b.coldChunks[i].handle != b.coldChunks[k].handle)
  }

  /** Handle `h` may back the piece at `a`: the cold region's handles back that region
      only, a waiting chunk's handle that chunk only. */
  predicate MayBack(b: Books, a: nat, h: nat) {
    && h in b.handles
    && (b.handles[h] == Cold || b.handles[h] == Cache ==> b.coldMapping.Some? && b.coldMapping.value.addr == a)
    && forall i | b.chunkPromoted <= i < |b.coldChunks| && b.coldChunks[i].handle == h :: b.coldChunks[i].addr == a
  }

  predicate PiecesHeld(b: Books) {
    forall p | p in b.layout && p.addr in b.mappings :: MayBack(b, p.addr, b.mappings[p.addr].handle)
  }

  /** Until `free` starts releasing, every handle a remap could fall back on is held. */
  predicate FallbacksHeld(b: Books, backings: map<nat, Backing>) {
    ColdHeld(b, backings) && ChunksHeld(b, backings) && PiecesHeld(b)
  }

  predicate NoPieceMapped(layout: seq<Piece>, entries: Entries) {
    forall p | p in layout :: p.addr !in entries
  }

  /** The recorded regions are canonical pieces. */
  predicate RegionsArePieces(layout: seq<Piece>, cold: Option<Region>, chunks: seq<Region>) {
    && (cold.Some? ==> IsPiece(layout, cold.value.addr, cold.value.size))
    && forall i | 0 <= i < |chunks| :: IsPiece(layout, chunks[i].addr, chunks[i].size)
  }

  /** The parts that concern address ranges only. */
  ghost predicate RangesAgree(b: Books, s: State) {
    && Tiles(b.layout, b.va, b.va + b.size) && b.va !in b.temps
    && RegionsArePieces(b.layout, b.coldMapping, b.coldChunks)
    && Slots(b.layout, b.temps, b.mappings) && Recorded(b.mappings, s.mappings)
    && NothingUnrecorded(b.mappings, s.mappings, b.Owned()) && RangesHeld(b.Owned(), s.reservations)
  }

  /** Holds after every driver call of every operation, whatever failed before. */
  ghost predicate Consistent(b: Books, s: State) {
    && s.Valid() && RangesAgree(b, s) && HandlesHeld(b.handles, s.live, s.backings)
    && (if b.closing then NoPieceMapped(b.layout, b.mappings) else FallbacksHeld(b, s.backings))
    && (b.freed ==> b.mappings == map[] && b.handles == map[] && b.closing)
    && (b.promotedHandle.Some? ==> b.coldMapping.Some?)
  }

  /** The driver's state seen without this owner. No operation changes it. */
  datatype Rest = Rest(mappings: Mappings, reservations: Ranges, memory: map<nat, Backing>)

  function OthersMemory(handles: map<nat, Kind>, live: set<nat>, backings: map<nat, Backing>): map<nat, Backing> {
    map h | h in backings && h in live && h !in handles :: backings[h]
  }

  function RestOf(b: Books, s: State): Rest {
    Rest(s.mappings - b.mappings.Keys, s.reservations - b.Owned().Keys, OthersMemory(b.handles, s.live, s.backings))
  }

  /** What it means to leave the rest alone: every mapping, reservation and memory of
      somebody else is there afterwards, unchanged and still somebody else's. */
  lemma OthersKeep(b: Books, s: State, c: Books, t: State)
    requires RestOf(b, s) == RestOf(c, t)
    ensures forall a | a in s.mappings && a !in b.mappings ::
              a in t.mappings && a !in c.mappings && t.mappings[a] == s.mappings[a]
    ensures forall r | r in s.reservations && r !in b.Owned() ::
              r in t.reservations && r !in c.Owned() && t.reservations[r] == s.reservations[r]
    ensures forall h | h in s.live && h in s.backings && h !in b.handles ::
              h in t.live && h in t.backings && h !in c.handles && t.backings[h] == s.backings[h]
  {
    var before, after := RestOf(b, s), RestOf(c, t);
    forall a | a in s.mappings && a !in b.mappings
      ensures a in t.mappings && a !in c.mappings && t.mappings[a] == s.mappings[a]
    {
      assert a in before.mappings && a in after.mappings;
    }
    forall r | r in s.reservations && r !in b.Owned()
      ensures r in t.reservations && r !in c.Owned() && t.reservations[r] == s.reservations[r]
    {
      assert r in before.reservations && r in after.reservations;
    }
    forall h | h in s.live && h in s.backings && h !in b.handles
      ensures h in t.live && h in t.backings && h !in c.handles && t.backings[h] == s.backings[h]
    {
      assert h in before.memory && h in after.memory;
    }
  }

  // ---- A free slot may be mapped ----

  lemma WithinApart(ranges: Ranges, r: nat, q: nat, a: nat, m: nat, c: nat, n: nat)
    requires RangesApart(ranges) && r in ranges && q in ranges && r != q
    requires Within(r, ranges[r], a, m) && Within(q, ranges[q], c, n)
    ensures Apart(a, m, c, n)
  {
    assert Apart(r, ranges[r], q, ranges[q]);
  }

  /** The owned range a slot lies in. */
  function HomeOf(b: Books, a: nat, size: nat): nat {
    if IsPiece(b.layout, a, size) then b.va else a
  }

  lemma HomeHolds(b: Books, s: State, a: nat, size: nat)
    requires RangesAgree(b, s) && RangesApart(s.reservations) && !b.freed
    requires IsPiece(b.layout, a, size) || IsTemp(b.temps, a, size)
    ensures var r := HomeOf(b, a, size);
            && r in b.Owned() && r in s.reservations && s.reservations[r] == b.Owned()[r]
            && size > 0 && Within(r, s.reservations[r], a, size)
  {
    hide Tiles, Slots, Recorded, NothingUnrecorded;
    if IsPiece(b.layout, a, size) { PieceWithin(b.layout, b.va, b.size, a, size); }
  }

  lemma OthersAreApart(b: Books, s: State, a: nat, size: nat, c: nat)
    requires Consistent(b, s) && !b.freed && a !in b.mappings && c in s.mappings
    requires IsPiece(b.layout, a, size) || IsTemp(b.temps, a, size)
    ensures Apart(c, s.mappings[c].size, a, size)
  {
    hide FallbacksHeld, NoPieceMapped, HandlesHeld, Tiles, MappingsApart, MappingsFit, IsPiece, Within, Apart;
    var home, n := HomeOf(b, a, size), s.mappings[c].size;
    HomeHolds(b, s, a, size);
    if c in b.mappings {
      HomeHolds(b, s, c, n);
      if HomeOf(b, c, n) != home {
        WithinApart(s.reservations, HomeOf(b, c, n), home, c, n, a, size);
      } else if IsPiece(b.layout, c, n) && IsPiece(b.layout, a, size) {
        PiecesApart(b.layout, b.va, b.va + b.size, c, n, a, size);
      }
    } else {
      var q :| q in s.reservations && Within(q, s.reservations[q], c, n);
      WithinApart(s.reservations, q, home, c, n, a, size);
    }
  }

  /** A free slot of the owner is reserved and clear, so mapping it is legal. */
  lemma SlotIsFree(b: Books, s: State, a: nat, size: nat)
    requires Consistent(b, s) && !b.freed && a !in b.mappings
    requires IsPiece(b.layout, a, size) || IsTemp(b.temps, a, size)
    ensures size > 0 && Reserved(s.reservations, a, size) && Clear(s.mappings, a, size)
  {
    hide FallbacksHeld, NoPieceMapped, HandlesHeld, Tiles, Slots, Recorded, NothingUnrecorded, Apart, Within;
    HomeHolds(b, s, a, size);
    forall c | c in s.mappings
      ensures Apart(c, s.mappings[c].size, a, size)
    {
      OthersAreApart(b, s, a, size, c);
    }
  }

  // ---- Each part survives each kind of change ----

  /** One mapping appears on both sides. */
  lemma MappingAppears(b: Books, c: Books, s: State, t: State, a: nat)
    requires RangesAgree(b, s) && c == b.(mappings := c.mappings) && t.reservations == s.reservations
    requires a in c.mappings && c.mappings == b.mappings[a := c.mappings[a]]
    requires a in t.mappings && t.mappings == s.mappings[a := t.mappings[a]]
    requires SameEntry(c.mappings[a], t.mappings[a])
    requires IsPiece(b.layout, a, c.mappings[a].size) || IsTemp(b.temps, a, c.mappings[a].size)
    ensures RangesAgree(c, t)
  {
    hide Tiles, IsPiece, RangesHeld, Within;
  }

  /** One mapping disappears on both sides. */
  lemma MappingDisappears(b: Books, c: Books, s: State, t: State, a: nat)
    requires RangesAgree(b, s) && c == b.(mappings := b.mappings - {a}) && t.reservations == s.reservations
    requires t.mappings == s.mappings - {a}
    ensures RangesAgree(c, t)
  {
    hide Tiles, IsPiece, RangesHeld, Within;
    assert forall x | x in c.mappings :: x in b.mappings && x != a && c.mappings[x] == b.mappings[x];
    assert forall x | x in t.mappings :: x in s.mappings && x != a && t.mappings[x] == s.mappings[x];
  }

  /** Mappings keep their slots and handles; only access changes. */
  lemma SlotsStay(b: Books, s: State, t: State)
    requires RangesAgree(b, s) && t.reservations == s.reservations && SameSlots(s.mappings, t.mappings)
    ensures RangesAgree(b, t)
  {
    hide Tiles, IsPiece, RangesHeld, Within;
  }

  lemma RangeAppears(b: Books, s: State, r: nat, size: nat)
    requires RangesAgree(b, s) && !b.freed && r !in s.reservations && Clear(s.mappings, r, size) && size > 0
    requires forall a | a in s.mappings :: s.mappings[a].size > 0
    ensures RangesAgree(b.(temps := b.temps[r := size]), s.Reserve(r, size))
    ensures b.(temps := b.temps[r := size]).Owned() == b.Owned()[r := size]
  {
    hide Tiles, IsPiece;
    var c := b.(temps := b.temps[r := size]);
    assert c.Owned() == b.Owned()[r := size];
    assert r !in s.mappings;
    forall a | a in c.mappings
      ensures IsPiece(c.layout, a, c.mappings[a].size) || IsTemp(c.temps, a, c.mappings[a].size)
    {
      assert a != r;
    }
  }

  lemma RangeDisappears(b: Books, s: State, r: nat)
    requires RangesAgree(b, s) && !b.freed && r in b.temps && r !in b.mappings
    ensures RangesAgree(b.(temps := b.temps - {r}), s.Unreserve(r))
  {
    hide Tiles, IsPiece, Within;
    var c := b.(temps := b.temps - {r});
    assert c.Owned() == b.Owned() - {r};
  }

  /** The fallback handles stay held and keep their sizes. */
  lemma FallbacksStay(b: Books, c: Books, backings: map<nat, Backing>, after: map<nat, Backing>)
    requires FallbacksHeld(b, backings)
    requires c == b.(handles := c.handles, temps := c.temps)
    requires forall h | h in b.handles :: h in c.handles && c.handles[h] == b.handles[h]
    requires forall h | h in b.handles && h in backings :: h in after && |after[h].bytes| == |backings[h].bytes|
    ensures FallbacksHeld(c, after)
  {
    hide IsPiece;
    forall i | c.chunkPromoted <= i < |c.coldChunks|
      ensures Backs(c.handles, after, c.coldChunks[i].handle, Chunk, c.coldChunks[i].size)
    {
      assert Backs(b.handles, backings, b.coldChunks[i].handle, Chunk, b.coldChunks[i].size);
    }
  }

  lemma FallbacksIgnoreMappings(b: Books, c: Books, backings: map<nat, Backing>)
    requires ColdHeld(b, backings) && ChunksHeld(b, backings) && c == b.(mappings := c.mappings)
    ensures ColdHeld(c, backings) && ChunksHeld(c, backings)
  {
    hide IsPiece, Backs;
  }

  // ---- The effect of each call on records and driver together ----

  lemma HandleAppears(handles: map<nat, Kind>, live: set<nat>, backings: map<nat, Backing>, h: nat, kind: Kind,
                      memory: Backing)
    requires HandlesHeld(handles, live, backings) && h !in backings && live <= backings.Keys
             && memory.location == Placement(kind)
    ensures HandlesHeld(handles[h := kind], live + {h}, backings[h := memory])
    ensures OthersMemory(handles[h := kind], live + {h}, backings[h := memory]) == OthersMemory(handles, live, backings)
  {
  }

  /** Creating a handle and noting it. */
  lemma AfterCreate(b: Books, s: State, h: nat, kind: Kind, memory: Backing)
    requires Consistent(b, s) && !b.freed && h !in s.backings && memory.location == Placement(kind)
    ensures var c := b.(handles := b.handles[h := kind]);
            Consistent(c, s.Create(h, memory)) && RestOf(c, s.Create(h, memory)) == RestOf(b, s)
  {
    hide State.Valid, Tiles, Slots, Recorded, NothingUnrecorded, RangesHeld, HandlesHeld, FallbacksHeld, NoPieceMapped,
         OthersMemory;
    NotHeld(b, s, h);
    CreateValid(s, h, memory);
    HandleAppears(b.handles, s.live, s.backings, h, kind, memory);
    if !b.closing { FallbacksStay(b, b.(handles := b.handles[h := kind]), s.backings, s.Create(h, memory).backings); }
  }

  lemma NotHeld(b: Books, s: State, h: nat)
    requires Consistent(b, s) && h !in s.backings
    ensures h !in b.handles && h !in s.live && s.live <= s.backings.Keys
  {
    hide RangesAgree, FallbacksHeld, NoPieceMapped, MappingsFit, MappingsApart, MappingsReserved, RangesApart;
  }

  lemma OthersRanges(reservations: Ranges, owned: Ranges, r: nat, size: nat)
    requires r !in reservations
    ensures reservations[r := size] - owned[r := size].Keys == reservations - owned.Keys
  {
    assert owned[r := size].Keys == owned.Keys + {r};
  }

  /** Noting a temporary range. */
  lemma AfterReserve(b: Books, s: State, r: nat, size: nat)
    requires Consistent(b, s) && !b.freed && r !in s.reservations && size > 0 && Clear(s.mappings, r, size)
    requires s.Reserve(r, size).Valid()
    ensures var c := b.(temps := b.temps[r := size]);
            Consistent(c, s.Reserve(r, size)) && RestOf(c, s.Reserve(r, size)) == RestOf(b, s)
  {
    hide RangesAgree, HandlesHeld, FallbacksHeld, NoPieceMapped, OthersMemory, Clear, MappingsApart, MappingsReserved,
         RangesApart;
    var c := b.(temps := b.temps[r := size]);
    RangeAppears(b, s, r, size);
    OthersRanges(s.reservations, b.Owned(), r, size);
    if !b.closing { FallbacksStay(b, c, s.backings, s.backings); }
  }

  /** A temporary slot is not a piece. */
  lemma TempIsNoPiece(b: Books, s: State, a: nat)
    requires RangesAgree(b, s) && RangesApart(s.reservations) && !b.freed && a in b.temps
    ensures forall p | p in b.layout :: p.addr != a
  {
    hide Tiles, Slots, Recorded, NothingUnrecorded;
    forall p | p in b.layout
      ensures p.addr != a
    {
      HomeHolds(b, s, p.addr, p.size);
      assert b.Owned()[a] == b.temps[a];
      assert s.reservations[a] > 0 && Apart(b.va, s.reservations[b.va], a, s.reservations[a]);
    }
  }

  lemma OthersMappings(before: Mappings, after: Mappings, entries: Entries, newEntries: Entries, a: nat)
    requires after - {a} == before - {a} && newEntries - {a} == entries - {a}
    requires a in after ==> a in newEntries
    requires a in before ==> a in entries
    ensures after - newEntries.Keys == before - entries.Keys
  {
    forall x
      ensures x in after - newEntries.Keys <==> x in before - entries.Keys
      ensures x in after - newEntries.Keys ==> (after - newEntries.Keys)[x] == (before - entries.Keys)[x]
    {
      assert x != a ==> (x in after <==> x in after - {a}) && (x in before <==> x in before - {a});
      assert x != a ==> (x in newEntries <==> x in newEntries - {a}) && (x in entries <==> x in entries - {a});
      if x in after - newEntries.Keys {
        assert x != a && (after - {a})[x] == (before - {a})[x];
      }
    }
  }

  /** Mapping a free piece to a held handle keeps the closing discipline. */
  lemma MappedDiscipline(b: Books, s: State, a: nat, size: nat, h: nat)
    requires Consistent(b, s) && !b.freed && h in b.handles
    requires IsTemp(b.temps, a, size) || (IsPiece(b.layout, a, size) && !b.closing && MayBack(b, a, h))
    ensures var c := b.(mappings := b.mappings[a := Entry(size, h)]);
            if b.closing then NoPieceMapped(c.layout, c.mappings) else FallbacksHeld(c, s.backings)
  {
    hide RangesAgree, HandlesHeld, ColdHeld, ChunksHeld, MappingsFit, MappingsApart, MappingsReserved, RangesApart;
    if IsTemp(b.temps, a, size) { TempIsNoPiece(b, s, a); }
    if !b.closing { FallbacksIgnoreMappings(b, b.(mappings := b.mappings[a := Entry(size, h)]), s.backings); }
  }

  /** A mapping recorded at a free slot, before access is granted. */
  lemma AfterMap(b: Books, s: State, a: nat, size: nat, h: nat)
    requires Consistent(b, s) && !b.freed && a !in b.mappings
    requires IsTemp(b.temps, a, size) || (IsPiece(b.layout, a, size) && !b.closing && MayBack(b, a, h))
    requires h in b.handles && h in s.backings && |s.backings[h].bytes| == size
    ensures var c := b.(mappings := b.mappings[a := Entry(size, h)]);
            && a !in s.mappings && s.Map(a, size, h).Valid()
            && Consistent(c, s.Map(a, size, h)) && RestOf(c, s.Map(a, size, h)) == RestOf(b, s)
  {
    hide State.Valid, RangesAgree, HandlesHeld, FallbacksHeld, NoPieceMapped, OthersMemory, Clear, Reserved, IsPiece;
    var c := b.(mappings := b.mappings[a := Entry(size, h)]);
    var t := s.Map(a, size, h);
    SlotIsFree(b, s, a, size);
    MapValid(s, a, size, h);
    MappingAppears(b, c, s, t, a);
    MappedDiscipline(b, s, a, size, h);
    assert t.mappings - {a} == s.mappings - {a} && c.mappings - {a} == b.mappings - {a};
    OthersMappings(s.mappings, t.mappings, b.mappings, c.mappings, a);
  }

  lemma ValidParts(s: State)
    requires s.Valid()
    ensures MappingsApart(s.mappings) && forall b | b in s.mappings :: s.mappings[b].size > 0
  {
    hide MappingsApart, MappingsReserved, RangesApart;
  }

  /** Access granted to a recorded mapping. */
  lemma AfterGrant(b: Books, s: State, a: nat, size: nat)
    requires Consistent(b, s) && a in b.mappings && b.mappings[a].size == size
    ensures s.Grant(a, size).Valid() && Consistent(b, s.Grant(a, size)) && RestOf(b, s.Grant(a, size)) == RestOf(b, s)
    ensures a in s.mappings && s.Grant(a, size) == s.(mappings := s.mappings[a := s.mappings[a].(accessible := true)])
  {
    hide State.Valid, Tiles, Slots, NothingUnrecorded, RangesHeld, HandlesHeld, FallbacksHeld, NoPieceMapped,
         OthersMemory, MappingsApart;
    var t := s.Grant(a, size);
    ValidParts(s);
    GrantValid(s, a, size);
    GrantOne(s, a, size);
    SlotsStay(b, s, t);
    assert t.mappings - {a} == s.mappings - {a};
    OthersMappings(s.mappings, t.mappings, b.mappings, b.mappings, a);
  }

  lemma UnmapKeepsHeld(b: Books, s: State, a: nat)
    requires HandlesHeld(b.handles, s.live, s.backings) && s.live <= s.backings.Keys && a in s.mappings
    ensures var t := s.Unmap(a);
            && HandlesHeld(b.handles, t.live, t.backings) && t.live == s.live
            && OthersMemory(b.handles, t.live, t.backings) == OthersMemory(b.handles, s.live, s.backings)
            && forall h | h in b.handles :: h in t.backings && t.backings[h] == s.backings[h]
  {
  }

  lemma AfterUnmap(b: Books, s: State, a: nat)
    requires Consistent(b, s) && a in b.mappings
    ensures a in s.mappings && s.mappings[a].size == b.mappings[a].size && s.mappings[a].handle == b.mappings[a].handle
    ensures var c := b.(mappings := b.mappings - {a});
            Consistent(c, s.Unmap(a)) && RestOf(c, s.Unmap(a)) == RestOf(b, s)
  {
    hide MappingsFit, MappingsApart, MappingsReserved, RangesApart, Tiles, Slots, NothingUnrecorded, RangesHeld,
         HandlesHeld, ColdHeld, ChunksHeld, OthersMemory;
    var c := b.(mappings := b.mappings - {a});
    var t := s.Unmap(a);
    UnmapValid(s, a);
    UnmapKeepsHeld(b, s, a);
    MappingDisappears(b, c, s, t, a);
    assert t.mappings - {a} == s.mappings - {a} && c.mappings - {a} == b.mappings - {a};
    OthersMappings(s.mappings, t.mappings, b.mappings, c.mappings, a);
    if !b.closing {
      FallbacksStay(b, b, s.backings, t.backings);
      FallbacksIgnoreMappings(b, c, t.backings);
    }
  }

  lemma TempIsClear(b: Books, s: State, r: nat)
    requires Consistent(b, s) && !b.freed && r in b.temps && r !in b.mappings
    ensures Clear(s.mappings, r, b.temps[r])
  {
    hide FallbacksHeld, NoPieceMapped, HandlesHeld, RangesAgree, State.Valid, IsPiece;
    SlotIsFree(b, s, r, b.temps[r]);
  }

  /** Giving back a temporary range once nothing is mapped in it. */
  lemma AfterUnreserve(b: Books, s: State, r: nat)
    requires Consistent(b, s) && !b.freed && r in b.temps && r !in b.mappings
    ensures Clear(s.mappings, r, b.temps[r]) && r in s.reservations && s.reservations[r] == b.temps[r]
    ensures var c := b.(temps := b.temps - {r});
            Consistent(c, s.Unreserve(r)) && RestOf(c, s.Unreserve(r)) == RestOf(b, s)
  {
    hide State.Valid, Tiles, Slots, Recorded, NothingUnrecorded, HandlesHeld, FallbacksHeld, NoPieceMapped,
         OthersMemory, Clear;
    var c := b.(temps := b.temps - {r});
    TempIsClear(b, s, r);
    assert b.Owned()[r] == b.temps[r];
    UnreserveValid(s, r);
    RangeDisappears(b, s, r);
    assert c.Owned() == b.Owned() - {r};
    assert (s.reservations - {r}) - c.Owned().Keys == s.reservations - b.Owned().Keys;
    if !b.closing { FallbacksStay(b, c, s.backings, s.backings); }
  }

  lemma ReleaseHandle(handles: map<nat, Kind>, s: State, h: nat)
    requires HandlesHeld(handles, s.live, s.backings) && h in handles
    ensures var t := s.Release(h);
            && HandlesHeld(handles - {h}, t.live, t.backings)
            && OthersMemory(handles - {h}, t.live, t.backings) == OthersMemory(handles, s.live, s.backings)
            && forall k | k in handles && k != h :: k in t.backings && t.backings[k] == s.backings[k]
  {
  }

  /** Releasing a handle, together with the field changes that make it dispensable. */
  lemma AfterRelease(b: Books, s: State, h: nat, c: Books)
    requires Consistent(b, s) && !b.freed && h in b.handles
    requires c == b.(handles := b.handles - {h}, chunkPromoted := c.chunkPromoted, hotBytes := c.hotBytes,
                     closing := c.closing)
    requires if c.closing then NoPieceMapped(c.layout, c.mappings) else FallbacksHeld(c, s.backings)
    ensures h in s.live && Consistent(c, s.Release(h)) && RestOf(c, s.Release(h)) == RestOf(b, s)
  {
    hide State.Valid, Tiles, Slots, Recorded, NothingUnrecorded, RangesHeld, FallbacksHeld, NoPieceMapped, OthersMemory;
    var t := s.Release(h);
    ReleaseHandle(b.handles, s, h);
    ReleaseValid(s, h);
    assert c.Owned() == b.Owned();
    if !c.closing { FallbacksStay(c, c, s.backings, t.backings); }
  }

  /** Overwriting memory behind one of the owner's own handles, size kept. */
  lemma AfterOverwrite(b: Books, s: State, h: nat, memory: Backing)
    requires Consistent(b, s) && h in b.handles && h in s.backings
    requires |memory.bytes| == |s.backings[h].bytes| && memory.location == s.backings[h].location
    ensures var t := s.(backings := s.backings[h := memory]);
            Consistent(b, t) && RestOf(b, t) == RestOf(b, s)
  {
    hide State.Valid, Tiles, Slots, Recorded, NothingUnrecorded, RangesHeld, FallbacksHeld, NoPieceMapped;
    var t := s.(backings := s.backings[h := memory]);
    OverwriteValid(s, h, memory);
    if !b.closing { FallbacksStay(b, b, s.backings, t.backings); }
    assert OthersMemory(b.handles, t.live, t.backings) == OthersMemory(b.handles, s.live, s.backings);
  }

  // ---- Opening and closing ----

  /** All a driver holds, seen as nobody's in particular. */
  function Everything(s: State): Rest {
    Rest(s.mappings, s.reservations, OthersMemory(map[], s.live, s.backings))
  }

  /** Handles on both sides gone, the range itself is the last thing to give back. */
  lemma RangeIsClear(b: Books, s: State)
    requires Consistent(b, s) && !b.freed && b.mappings == map[]
    ensures b.va in s.reservations && s.reservations[b.va] == b.size && Clear(s.mappings, b.va, b.size)
  {
    hide FallbacksHeld, NoPieceMapped, HandlesHeld, Tiles, Slots, Recorded, MappingsApart, MappingsFit, Within, Apart,
         RegionsArePieces;
    assert b.va in b.Owned() && b.Owned()[b.va] == b.size;
    forall c | c in s.mappings
      ensures Apart(c, s.mappings[c].size, b.va, b.size)
    {
      var q :| q in s.reservations && Within(q, s.reservations[q], c, s.mappings[c].size);
      RangeMeets(s.reservations, q, b.va, c, s.mappings[c].size);
    }
  }

  lemma RangeMeets(ranges: Ranges, q: nat, r: nat, c: nat, n: nat)
    requires RangesApart(ranges) && q in ranges && r in ranges && q != r && Within(q, ranges[q], c, n)
    ensures Apart(c, n, r, ranges[r])
  {
    assert Apart(q, ranges[q], r, ranges[r]);
  }

  /** Giving back the range of an owner that holds nothing else. */
  lemma AfterFree(b: Books, s: State)
    requires Consistent(b, s) && !b.freed && b.mappings == map[] && b.handles == map[]
    requires b.va in s.reservations && Clear(s.mappings, b.va, s.reservations[b.va])
    ensures var c := b.(freed := true, closing := true);
            Consistent(c, s.Unreserve(b.va)) && RestOf(c, s.Unreserve(b.va)) == RestOf(b, s)
  {
    hide State.Valid, Tiles, FallbacksHeld, OthersMemory, Clear, RegionsArePieces, Within;
    var c := b.(freed := true, closing := true);
    UnreserveValid(s, b.va);
    assert b.Owned().Keys == c.Owned().Keys + {b.va};
    assert (s.reservations - {b.va}) - c.Owned().Keys == s.reservations - b.Owned().Keys;
  }

  /** Once freed with no temporary range left, the driver holds nothing of this owner. */
  lemma FreedHoldsNothing(b: Books, s: State)
    requires Consistent(b, s) && b.freed && b.temps == map[]
    ensures Everything(s) == RestOf(b, s)
  {
    hide State.Valid, RangesAgree;
    assert s.mappings - b.mappings.Keys == s.mappings;
    assert s.reservations - b.Owned().Keys == s.reservations;
  }

  /** A foreign mapping never starts inside this owner's range. */
  lemma ForeignStartsOutside(b: Books, s: State, c: nat)
    requires Consistent(b, s) && !b.freed && c in s.mappings && c !in b.mappings
    ensures !(b.va <= c < b.va + b.size)
  {
    hide FallbacksHeld, NoPieceMapped, HandlesHeld, Tiles, Slots, Recorded, RegionsArePieces, MappingsApart,
         MappingsFit, RangesApart;
    assert b.va in b.Owned() && b.Owned()[b.va] == b.size;
    SizesArePositive(s, c);
    var q :| q in s.reservations && Within(q, s.reservations[q], c, s.mappings[c].size);
    ValidReservations(s);
    if q != b.va { RangeMeets(s.reservations, q, b.va, c, s.mappings[c].size); }
  }

  lemma ValidReservations(s: State)
    requires s.Valid()
    ensures RangesApart(s.reservations)
  {
    hide MappingsFit, MappingsApart, MappingsReserved, RangesApart;
  }

  lemma SizesArePositive(s: State, c: nat)
    requires s.Valid() && c in s.mappings
    ensures s.mappings[c].size > 0
  {
    hide MappingsApart, MappingsReserved, RangesApart;
  }

  /** Access granted over the whole range reaches this owner's mappings only. */
  lemma AfterGrantAll(b: Books, s: State)
    requires Consistent(b, s) && !b.freed
    ensures var t := s.Grant(b.va, b.size);
            && Consistent(b, t) && RestOf(b, t) == RestOf(b, s) && t == s.(mappings := t.mappings)
            && SameSlots(s.mappings, t.mappings)
            && forall a | a in s.mappings && b.va <= a < b.va + b.size :: t.mappings[a].accessible
  {
    hide State.Valid, Tiles, Slots, NothingUnrecorded, RangesHeld, RegionsArePieces, HandlesHeld, FallbacksHeld,
         NoPieceMapped, OthersMemory;
    var t := s.Grant(b.va, b.size);
    GrantValid(s, b.va, b.size);
    SlotsStay(b, s, t);
    forall c | c in s.mappings && c !in b.mappings
      ensures t.mappings[c] == s.mappings[c]
    {
      ForeignStartsOutside(b, s, c);
    }
    assert t.mappings - b.mappings.Keys == s.mappings - b.mappings.Keys;
  }
}
