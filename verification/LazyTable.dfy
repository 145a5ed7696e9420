/** `LazyHostTable`: a reserved address range whose host chunks are created when they are
    first mapped, one handle a chunk. */
module LazyTable {
  import opened IntMath
  import opened VmmState
  import opened VmmDriver
  import opened ResidencyPlan

  /** `None` of these: the first call that failed, and whether its own undo failed too. */
  datatype Result =
    | Done | Rejected | NotReserved | NotCreated | NotMapped | NotReleased | NotGranted | NotUnmapped | NotReturned

  // ---- Chunks -----------------------------------------------------------------------

  /** Range size, chunk step and base address. */
  datatype Shape = Shape(va: nat, size: nat, step: nat) {
    predicate Ok() { 0 < step && 0 < size }

    function Count(): nat
      requires Ok()
    {
      CeilDiv(size, step)
    }

    function Offset(i: nat): nat { i * step }

    function Bytes(i: nat): nat
      requires Offset(i) <= size
    {
      Min(step, size - Offset(i))
    }

    function Addr(i: nat): nat { va + Offset(i) }
  }

  lemma ChunkInside(c: Shape, i: nat)
    requires c.Ok() && i < c.Count()
    ensures c.Offset(i) < c.size && 0 < c.Bytes(i) && c.Offset(i) + c.Bytes(i) <= c.size
    ensures if i + 1 < c.Count() then c.Bytes(i) == c.step && c.Offset(i + 1) == c.Offset(i) + c.Bytes(i)
            else c.Offset(i) + c.Bytes(i) == c.size
  {
    CeilDivBounds(c.size, c.step);
    MulMono(i, c.Count() - 1, c.step);
    assert (i + 1) * c.step == i * c.step + c.step;
    if i + 1 < c.Count() { MulMono(i + 1, c.Count() - 1, c.step); }
  }

  /** An earlier chunk ends where a later one starts, or before. */
  lemma ChunkBefore(c: Shape, i: nat, k: nat)
    requires c.Ok() && i < k < c.Count()
    ensures c.Offset(i) < c.Offset(k) < c.size
    ensures 0 < c.Bytes(i) && c.Offset(i) + c.Bytes(i) <= c.Offset(k)
  {
    hide Shape.Bytes, Shape.Count;
    ChunkInside(c, i);
    ChunkInside(c, k);
    MulMono(i + 1, k, c.step);
  }

  lemma ChunksApart(c: Shape, i: nat, k: nat)
    requires c.Ok() && i < c.Count() && k < c.Count() && i != k
    ensures c.Offset(i) <= c.size && c.Offset(k) <= c.size
    ensures Apart(c.Addr(i), c.Bytes(i), c.Addr(k), c.Bytes(k)) && c.Addr(i) != c.Addr(k)
  {
    hide Shape.Offset, Shape.Bytes, Shape.Count;
    if i < k { ChunkBefore(c, i, k); } else { ChunkBefore(c, k, i); }
  }

  // ---- What the driver holds for a table --------------------------------------------

  predicate Indexed(c: Shape, handles: map<nat, nat>)
    requires c.Ok()
  {
    && (forall i | i in handles :: i < c.Count() && c.Offset(i) <= c.size)
    && forall i, k | i in handles && k in handles && i != k :: handles[i] != handles[k]
  }

  /** The mappings are the ones from before the table and its mapped chunks. */
  ghost predicate MapsOf(c: Shape, before: Mappings, handles: map<nat, nat>, m: Mappings)
    requires c.Ok() && Indexed(c, handles)
  {
    && (forall a | a in before :: a in m && m[a] == before[a])
    && (forall i | i in handles :: c.Addr(i) in m && m[c.Addr(i)] == Mapping(c.Bytes(i), handles[i], true))
    && (forall a | a in m && a !in before :: exists i :: i in handles && a == c.Addr(i))
  }

  predicate ChunkMemory(c: Shape, handles: map<nat, nat>, i: nat, backings: map<nat, Backing>)
    requires c.Ok() && Indexed(c, handles) && i in handles
  {
    && handles[i] in backings && backings[handles[i]].location == HostNuma
    && |backings[handles[i]].bytes| == c.Bytes(i)
  }

  /** The memory is what was there before, unchanged, and one host handle a mapped chunk. */
  ghost predicate MemoryOf(c: Shape, before: State, handles: map<nat, nat>, backings: map<nat, Backing>, live: set<nat>)
    requires c.Ok() && Indexed(c, handles)
  {
    && (forall h | h in before.backings :: h in backings && backings[h] == before.backings[h])
    && (forall i | i in handles :: ChunkMemory(c, handles, i, backings) && handles[i] !in before.backings)
    && (forall h | h in backings && h !in before.backings :: exists i :: i in handles && handles[i] == h)
    && live == before.live + handles.Values
  }

  /** Records and driver agree. */
  ghost predicate Tidy(c: Shape, before: State, handles: map<nat, nat>, s: State) {
    && c.Ok() && Indexed(c, handles) && before.Valid() && s.Valid()
    && c.va in before.reservations && before.reservations[c.va] == c.size && Clear(before.mappings, c.va, c.size)
    && s.reservations == before.reservations
    && MapsOf(c, before.mappings, handles, s.mappings)
    && MemoryOf(c, before, handles, s.backings, s.live)
  }

  /** A chunk not on record is unmapped, inside the range, and so may be mapped. */
  lemma FreeChunk(c: Shape, before: State, handles: map<nat, nat>, s: State, i: nat)
    requires Tidy(c, before, handles, s) && i < c.Count() && i !in handles
    ensures c.Offset(i) <= c.size && 0 < c.Bytes(i)
    ensures Reserved(s.reservations, c.Addr(i), c.Bytes(i)) && Clear(s.mappings, c.Addr(i), c.Bytes(i))
  {
    hide State.Valid, MemoryOf;
    ChunkInside(c, i);
    assert Within(c.va, s.reservations[c.va], c.Addr(i), c.Bytes(i));
    forall b | b in s.mappings
      ensures Apart(b, s.mappings[b].size, c.Addr(i), c.Bytes(i))
    {
      if b in before.mappings {
        assert Apart(b, before.mappings[b].size, c.va, c.size);
      } else {
        var k :| k in handles && b == c.Addr(k);
        ChunksApart(c, k, i);
      }
    }
  }

  lemma IndexAppears(c: Shape, handles: map<nat, nat>, i: nat, h: nat)
    requires c.Ok() && Indexed(c, handles) && i < c.Count() && i !in handles && h !in handles.Values
    ensures c.Offset(i) <= c.size && Indexed(c, handles[i := h])
  {
    ChunkInside(c, i);
    forall k | k in handles
      ensures handles[k] in handles.Values
    {
    }
  }

  lemma MapsAppear(c: Shape, before: Mappings, handles: map<nat, nat>, m: Mappings, i: nat, h: nat)
    requires c.Ok() && Indexed(c, handles) && Indexed(c, handles[i := h]) && MapsOf(c, before, handles, m)
    requires i !in handles && c.Addr(i) !in m
    ensures MapsOf(c, before, handles[i := h], m[c.Addr(i) := Mapping(c.Bytes(i), h, true)])
  {
    var more, n := handles[i := h], m[c.Addr(i) := Mapping(c.Bytes(i), h, true)];
    forall k | k in more
      ensures c.Addr(k) in n && n[c.Addr(k)] == Mapping(c.Bytes(k), more[k], true)
    {
      if k != i { ChunksApart(c, k, i); }
    }
    forall a | a in n && a !in before
      ensures exists k :: k in more && a == c.Addr(k)
    {
      if a == c.Addr(i) {
        assert i in more;
      } else {
        var k :| k in handles && a == c.Addr(k);
        assert k in more;
      }
    }
  }

  lemma MemoryAppears(c: Shape, before: State, handles: map<nat, nat>, backings: map<nat, Backing>, live: set<nat>,
                      i: nat, h: nat, memory: Backing)
    requires c.Ok() && Indexed(c, handles) && Indexed(c, handles[i := h])
             && MemoryOf(c, before, handles, backings, live)
    requires i !in handles && h !in backings && memory.location == HostNuma && |memory.bytes| == c.Bytes(i)
    ensures MemoryOf(c, before, handles[i := h], backings[h := memory], live + {h})
  {
    hide Shape.Count, Shape.Offset, Shape.Bytes, Shape.Addr, State.Valid;
    var more, b := handles[i := h], backings[h := memory];
    forall k | k in more
      ensures ChunkMemory(c, more, k, b) && more[k] !in before.backings
    {
      if k != i { assert ChunkMemory(c, handles, k, backings); }
    }
    OwnersGrow(before.backings, handles, backings, i, h, more, b);
    ValuesGrow(handles, i, h);
  }

  lemma OwnersGrow(before: map<nat, Backing>, handles: map<nat, nat>, backings: map<nat, Backing>, i: nat, h: nat,
                   more: map<nat, nat>, b: map<nat, Backing>)
    requires forall g | g in backings && g !in before :: exists k :: k in handles && handles[k] == g
    requires i !in handles && more == handles[i := h] && b.Keys == backings.Keys + {h}
    ensures forall g | g in b && g !in before :: exists k :: k in more && more[k] == g
  {
    forall g | g in b && g !in before
      ensures exists k :: k in more && more[k] == g
    {
      if g == h {
        assert more[i] == g;
      } else {
        var k :| k in handles && handles[k] == g;
        assert more[k] == g;
      }
    }
  }

  lemma HandleIsNew(c: Shape, before: State, handles: map<nat, nat>, s: State, h: nat)
    requires Tidy(c, before, handles, s) && h !in s.backings
    ensures h !in handles.Values && h !in s.live
  {
    forall k | k in handles
      ensures handles[k] != h
    {
      assert ChunkMemory(c, handles, k, s.backings);
    }
  }

  /** One more chunk mapped and on record. */
  lemma ChunkAppears(c: Shape, before: State, handles: map<nat, nat>, s: State, i: nat, h: nat, memory: Backing,
                     t: State)
    requires Tidy(c, before, handles, s) && i < c.Count() && i !in handles && c.Offset(i) <= c.size
    requires h !in s.backings && memory.location == HostNuma && |memory.bytes| == c.Bytes(i)
    requires t.Valid() && t == s.Create(h, memory).(mappings := s.mappings[c.Addr(i) := Mapping(c.Bytes(i), h, true)])
    ensures Tidy(c, before, handles[i := h], t)
  {
    hide State.Valid, Clear, MapsOf, MemoryOf, Indexed;
    FreeChunkAddress(c, before, handles, s, i);
    HandleIsNew(c, before, handles, s, h);
    IndexAppears(c, handles, i, h);
    MapsAppear(c, before.mappings, handles, s.mappings, i, h);
    MemoryAppears(c, before, handles, s.backings, s.live, i, h, memory);
  }

  lemma FreeChunkAddress(c: Shape, before: State, handles: map<nat, nat>, s: State, i: nat)
    requires Tidy(c, before, handles, s) && i < c.Count() && i !in handles
    ensures c.Offset(i) <= c.size && c.Addr(i) !in s.mappings
  {
    hide MemoryOf, MapsOf, Indexed, MappingsApart, MappingsReserved, RangesApart;
    FreeChunk(c, before, handles, s, i);
    assert forall a | a in s.mappings :: s.mappings[a].size > 0;
  }

  lemma ValuesGrow(handles: map<nat, nat>, i: nat, h: nat)
    requires i !in handles
    ensures handles[i := h].Values == handles.Values + {h}
  {
    var more := handles[i := h];
    forall v | v in handles.Values + {h}
      ensures v in more.Values
    {
      if v == h { assert more[i] == v; } else { var k :| k in handles && handles[k] == v; assert more[k] == v; }
    }
  }

  // ---- Dropping a chunk -------------------------------------------------------------

  lemma ValuesShrink(handles: map<nat, nat>, i: nat)
    requires i in handles && forall k | k in handles && k != i :: handles[k] != handles[i]
    ensures (handles - {i}).Values == handles.Values - {handles[i]}
  {
    var rest := handles - {i};
    forall v | v in handles.Values - {handles[i]}
      ensures v in rest.Values
    {
      var k :| k in handles && handles[k] == v;
      assert rest[k] == v;
    }
  }

  lemma MapsDisappear(c: Shape, before: Mappings, handles: map<nat, nat>, m: Mappings, i: nat)
    requires c.Ok() && Indexed(c, handles) && MapsOf(c, before, handles, m) && i in handles && c.Addr(i) !in before
    ensures Indexed(c, handles - {i}) && MapsOf(c, before, handles - {i}, m - {c.Addr(i)})
  {
    var rest, n := handles - {i}, m - {c.Addr(i)};
    forall k | k in rest
      ensures c.Addr(k) in n && n[c.Addr(k)] == Mapping(c.Bytes(k), rest[k], true)
    {
      ChunksApart(c, k, i);
    }
    forall a | a in n && a !in before
      ensures exists k :: k in rest && a == c.Addr(k)
    {
      var k :| k in handles && a == c.Addr(k);
      assert k in rest;
    }
  }

  lemma MemoryDisappears(c: Shape, before: State, handles: map<nat, nat>, backings: map<nat, Backing>, live: set<nat>,
                         i: nat)
    requires c.Ok() && Indexed(c, handles) && Indexed(c, handles - {i}) && MemoryOf(c, before, handles, backings, live)
             && i in handles
    requires before.live <= before.backings.Keys
    ensures MemoryOf(c, before, handles - {i}, backings - {handles[i]}, live - {handles[i]})
  {
    var rest, h := handles - {i}, handles[i];
    forall k | k in rest
      ensures ChunkMemory(c, rest, k, backings - {h}) && rest[k] !in before.backings
    {
      assert ChunkMemory(c, handles, k, backings);
    }
    forall g | g in backings - {h} && g !in before.backings
      ensures exists k :: k in rest && rest[k] == g
    {
      var k :| k in handles && handles[k] == g;
      assert k in rest;
    }
    ValuesShrink(handles, i);
  }

  /** A chunk's address is not one that was mapped before the table. */
  lemma ChunkIsOwn(c: Shape, before: State, handles: map<nat, nat>, s: State, i: nat)
    requires Tidy(c, before, handles, s) && i in handles
    ensures c.Addr(i) !in before.mappings && c.Addr(i) in s.mappings
            && s.mappings[c.Addr(i)] == Mapping(c.Bytes(i), handles[i], true)
    ensures handles[i] in s.live && handles[i] in s.backings && handles[i] !in before.backings
    ensures !IsMapped(s.mappings - {c.Addr(i)}, handles[i])
  {
    ChunkInside(c, i);
    assert forall a | a in before.mappings :: before.mappings[a].size > 0;
    assert ChunkMemory(c, handles, i, s.backings);
    assert handles[i] in handles.Values;
    var rest := s.mappings - {c.Addr(i)};
    forall a | a in rest
      ensures rest[a].handle != handles[i]
    {
      if a !in before.mappings {
        var k :| k in handles && a == c.Addr(k);
      }
    }
  }

  /** One chunk unmapped and its handle released: its record may go. */
  lemma ChunkDisappears(c: Shape, before: State, handles: map<nat, nat>, s: State, i: nat)
    requires Tidy(c, before, handles, s) && i in handles
    ensures c.Addr(i) in s.mappings && s.mappings[c.Addr(i)].size == c.Bytes(i) && handles[i] in s.Unmap(c.Addr(i)).live
    ensures Tidy(c, before, handles - {i}, s.Unmap(c.Addr(i)).Release(handles[i]))
  {
    hide Clear, MapsOf, MemoryOf, Indexed, State.Valid;
    ChunkIsOwn(c, before, handles, s, i);
    UnmapValid(s, c.Addr(i));
    ReleaseValid(s.Unmap(c.Addr(i)), handles[i]);
    LiveIsHeld(before);
    MapsDisappear(c, before.mappings, handles, s.mappings, i);
    MemoryDisappears(c, before, handles, s.backings, s.live, i);
  }

  lemma LiveIsHeld(s: State)
    requires s.Valid()
    ensures s.live <= s.backings.Keys
  {
  }

  /** Without chunks the driver is back where it was when the range was reserved. */
  lemma NothingLeft(c: Shape, before: State, s: State)
    requires Tidy(c, before, map[], s)
    ensures s == before
  {
    assert s.mappings == before.mappings;
    assert s.backings == before.backings;
    assert s.live == before.live;
  }

  /** A handle created and released again leaves no trace. */
  lemma CreateRelease(s: State, h: nat, memory: Backing)
    requires s.Valid() && h !in s.backings
    ensures s.Create(h, memory).Release(h) == s
  {
    LiveIsHeld(s);
    assert forall a | a in s.mappings :: s.mappings[a].handle in s.backings;
    assert s.live + {h} - {h} == s.live;
    assert s.backings[h := memory] - {h} == s.backings;
  }

  // ---- What a lost chunk does -------------------------------------------------------

  /** Some chunk is mapped and not on record. */
  ghost predicate Stuck(c: Shape, handles: map<nat, nat>, s: State)
    requires c.Ok()
  {
    exists i: nat :: i < c.Count() && i !in handles && c.Addr(i) in s.mappings
  }

  /** The driver will not take the range back then, however many recorded chunks are dropped. */
  lemma StuckStays(c: Shape, handles: map<nat, nat>, s: State)
    requires c.Ok() && s.Valid() && Stuck(c, handles, s)
    ensures !Clear(s.mappings, c.va, c.size)
    ensures forall i: nat | i < c.Count() && i in handles && c.Addr(i) in s.mappings ::
      Stuck(c, handles - {i}, s.Unmap(c.Addr(i)))
  {
    var k: nat :| k < c.Count() && k !in handles && c.Addr(k) in s.mappings;
    ChunkInside(c, k);
    assert !Apart(c.Addr(k), s.mappings[c.Addr(k)].size, c.va, c.size) by { PositiveMapping(s, c.Addr(k)); }
    forall i: nat | i < c.Count() && i in handles && c.Addr(i) in s.mappings
      ensures Stuck(c, handles - {i}, s.Unmap(c.Addr(i)))
    {
      ChunksApart(c, i, k);
      UnmapValid(s, c.Addr(i));
      assert k !in handles - {i} && c.Addr(k) in s.Unmap(c.Addr(i)).mappings;
    }
  }

  lemma PositiveMapping(s: State, a: nat)
    requires s.Valid() && a in s.mappings
    ensures s.mappings[a].size > 0
  {
  }

  /** A consistent table is not stuck. */
  lemma TidyIsNotStuck(c: Shape, before: State, handles: map<nat, nat>, s: State)
    requires Tidy(c, before, handles, s)
    ensures !Stuck(c, handles, s)
  {
    forall i: nat | i < c.Count() && i !in handles
      ensures c.Addr(i) !in s.mappings
    {
      FreeChunkAddress(c, before, handles, s, i);
    }
  }

  /** Every offset is in the chunk its quotient names. */
  lemma ChunkOf(c: Shape, x: nat)
    requires c.Ok() && x < c.size
    ensures var i := x / c.step; i < c.Count() && c.Offset(i) <= c.size && c.Offset(i) <= x < c.Offset(i) + c.Bytes(i)
  {
    var i := x / c.step;
    DivBounds(x, c.step);
    DivMono(0, x, c.step);
    CeilDivBounds(c.size, c.step);
    if c.Count() <= i { MulMono(c.Count(), i, c.step); }
    assert (i + 1) * c.step == i * c.step + c.step;
  }

  function ChunkAt(c: Shape, x: nat): (i: nat)
    requires c.Ok() && x < c.size
    ensures i < c.Count() && c.Offset(i) <= c.size && c.Offset(i) <= x < c.Offset(i) + c.Bytes(i)
  {
    ChunkOf(c, x);
    DivMono(0, x, c.step);
    x / c.step
  }

  /** Once all chunks are mapped, every byte of the range can be read: its chunk can. */
  lemma AllReadable(c: Shape, before: State, handles: map<nat, nat>, s: State, x: nat)
    requires Tidy(c, before, handles, s) && x < c.size && forall i: nat | i < c.Count() :: i in handles
    ensures var i := ChunkAt(c, x); s.Readable(c.Addr(i), c.Bytes(i))
  {
    hide Shape.Count, Shape.Offset, Shape.Bytes, Shape.Addr, State.Valid, Clear;
    var i := ChunkAt(c, x);
    assert ChunkMemory(c, handles, i, s.backings);
  }

  // ---- The table --------------------------------------------------------------------

  class LazyHostTable {
    const driver: Driver
    var va: nat
    var size: nat
    var step: nat
    var handles: map<nat, nat>
    var freed: bool
    /** The driver's state when the range had just been reserved. */
    ghost var before: State

    constructor (d: Driver)
      ensures driver == d && handles == map[] && !freed
    {
      driver := d;
      va, size, step, handles, freed := 0, 0, 0, map[], false;
      before := d.s;
    }

    function Chunks(): Shape
      reads this
    {
      Shape(va, size, step)
    }

    ghost predicate Sound()
      reads this, driver
    {
      !freed && Tidy(Chunks(), before, handles, driver.s)
    }

    /** Reserve the whole range and map its first chunk. */
    method Open(numBytes: int, chunkBytes: int) returns (r: Result)
      requires handles == map[] && !freed && driver.s.Valid()
      modifies this, driver
      ensures r == Rejected <==> numBytes <= 0
      ensures r == Rejected || r == NotReserved ==> driver.s == old(driver.s)
      ensures r == Done <==> numBytes > 0 && driver.failures == old(driver.failures)
      ensures r == Done ==> && Sound() && handles.Keys == {0} && before == old(driver.s).Reserve(va, size)
                            && size == CeilDiv(numBytes, GRANULARITY) * GRANULARITY
                            && step == Max(GRANULARITY, chunkBytes / GRANULARITY * GRANULARITY)
    {
      hide Tidy;
      if numBytes <= 0 { return Rejected; }
      CeilDivBounds(numBytes, GRANULARITY);
      size := (numBytes + GRANULARITY - 1) / GRANULARITY * GRANULARITY;
      step := Max(GRANULARITY, chunkBytes / GRANULARITY * GRANULARITY);
      ghost var s := driver.s;
      var ok, base := driver.AddressReserve(size);
      if !ok { return NotReserved; }
      va := base;
      before := driver.s;
      NoChunks(Chunks(), s, driver.s);
      CeilDivBounds(size, step);
      assert Chunks().Count() > 0 by { if Chunks().Count() <= 0 { MulMono(Chunks().Count(), 0, step); } }
      r := MapChunk(0);
    }

    /** `_map_chunk`. A failed grant leaves the chunk mapped and not on record. */
    method MapChunk(i: nat) returns (r: Result)
      requires Sound() && i < Chunks().Count()
      modifies this`handles, driver
      ensures r == Done || r == NotCreated || r == NotMapped || r == NotReleased || r == NotGranted
      ensures driver.failures >= old(driver.failures) && (r == Done <==> driver.failures == old(driver.failures))
      ensures i in old(handles) ==> r == Done && handles == old(handles) && driver.s == old(driver.s)
      ensures r == Done ==> && Sound() && i in handles && handles == old(handles)[i := handles[i]]
                            && SameBytes(old(handles), old(driver.s), driver.s)
      ensures r != Done ==> handles == old(handles)
      ensures r == NotCreated || r == NotMapped ==> driver.s == old(driver.s)
      ensures r == NotGranted ==> driver.s.Valid() && Stuck(Chunks(), handles, driver.s)
    {
      hide State.Valid, MapsOf, MemoryOf, Clear, Indexed;
      ghost var s := driver.s;
      KeptBytes(Chunks(), before, handles, s);
      if i in handles { return Done; }
      FreeChunk(Chunks(), before, handles, s, i);
      FreeChunkAddress(Chunks(), before, handles, s, i);
      var address, bytes := Chunks().Addr(i), Chunks().Bytes(i);
      var ok, h := driver.Create(bytes, HostNuma);
      if !ok { return NotCreated; }
      ghost var memory := driver.s.backings[h];
      ok := driver.MemMap(address, bytes, h);
      if !ok {
        CreateRelease(s, h, memory);
        ok := driver.Release(h);
        return if ok then NotMapped else NotReleased;
      }
      GrantOneMapping(driver.s, address, bytes);
      ok := driver.SetAccess(address, bytes);
      if !ok {
        assert address in driver.s.mappings;
        return NotGranted;
      }
      assert driver.s.mappings == s.mappings[address := Mapping(bytes, h, true)];
      ChunkAppears(Chunks(), before, handles, s, i, h, memory, driver.s);
      handles := handles[i := h];
      r := Done;
    }

    /** Back the whole range. Chunks already mapped keep their handles and bytes; a failure
        before any grant leaves the table as consistent as it was. */
    method MapAll() returns (r: Result)
      requires Sound()
      modifies this`handles, driver
      ensures driver.failures >= old(driver.failures) && (r == Done <==> driver.failures == old(driver.failures))
      ensures r == Done ==> && Sound() && (forall i: nat | i < Chunks().Count() :: i in handles)
                            && Extends(old(handles), handles) && SameBytes(old(handles), old(driver.s), driver.s)
      ensures r == NotCreated || r == NotMapped ==> Sound()
      ensures r == NotGranted ==> driver.s.Valid() && Stuck(Chunks(), handles, driver.s)
    {
      hide Tidy, Stuck, SameBytes, Extends;
      ghost var mapped, s := handles, driver.s;
      TidyKept(Chunks(), before, handles, driver.s);
      r := Done;
      for i := 0 to Chunks().Count()
        invariant r == Done && Sound() && driver.failures == old(driver.failures)
        invariant forall k: nat | k < i :: k in handles
        invariant Extends(mapped, handles) && SameBytes(mapped, s, driver.s)
      {
        ghost var more, t := handles, driver.s;
        r := MapChunk(i);
        if r != Done { return; }
        KeptThrough(mapped, more, handles, i, s, t, driver.s);
      }
    }

    /** Drop every recorded chunk, then the range. Interrupted by a failed unmap it can be
        called again; a failed release leaves an unmapped chunk on record. */
    method Free() returns (r: Result)
      requires freed || Sound()
      modifies this`handles, this`freed, driver
      ensures old(freed) ==> r == Done && driver.s == old(driver.s) && freed
      ensures !old(freed) ==>
                driver.failures >= old(driver.failures) && (r == Done <==> driver.failures == old(driver.failures))
      ensures !old(freed) && r == Done ==> freed && handles == map[] && driver.s == old(before).Unreserve(va)
      ensures r == Done || r == NotUnmapped || r == NotReturned || r == NotReleased
      ensures r == NotUnmapped || r == NotReturned ==> Sound()
      ensures r == NotReleased ==> exists i :: i in handles && Chunks().Addr(i) !in driver.s.mappings
    {
      hide State.Valid, MapsOf, MemoryOf, Clear, Indexed;
      if freed { return Done; }
      while handles.Keys != {}
        invariant Sound() && before == old(before) && driver.failures == old(driver.failures)
        decreases handles.Keys
      {
        var i :| i in handles.Keys;
        TidyIndex(Chunks(), before, handles, driver.s, i);
        var h := handles[i];
        ChunkDisappears(Chunks(), before, handles, driver.s, i);
        UnmapValid(driver.s, Chunks().Addr(i));
        var ok := driver.MemUnmap(Chunks().Addr(i), Chunks().Bytes(i));
        if !ok { return NotUnmapped; }
        ok := driver.Release(h);
        if !ok {
          assert i in handles && Chunks().Addr(i) !in driver.s.mappings;
          return NotReleased;
        }
        handles := handles - {i};
      }
      assert handles == map[];
      NothingLeft(Chunks(), before, driver.s);
      var ok := driver.AddressFree(va, size);
      if !ok { return NotReturned; }
      freed := true;
      r := Done;
    }
  }

  lemma TidyKept(c: Shape, before: State, handles: map<nat, nat>, s: State)
    requires Tidy(c, before, handles, s)
    ensures c.Ok() && Extends(handles, handles) && SameBytes(handles, s, s)
  {
    KeptBytes(c, before, handles, s);
  }

  lemma TidyIndex(c: Shape, before: State, handles: map<nat, nat>, s: State, i: nat)
    requires Tidy(c, before, handles, s) && i in handles
    ensures i < c.Count() && c.Offset(i) <= c.size && 0 < c.Bytes(i)
  {
    ChunkInside(c, i);
  }

  /** What is read in the mapped chunks of `some` is the same in both states. */
  predicate SameBytes(some: map<nat, nat>, s: State, t: State) {
    forall i | i in some :: some[i] in s.backings && some[i] in t.backings && t.backings[some[i]] == s.backings[some[i]]
  }

  predicate Extends(some: map<nat, nat>, more: map<nat, nat>) {
    forall i | i in some :: i in more && more[i] == some[i]
  }

  lemma KeptThrough(some: map<nat, nat>, more: map<nat, nat>, last: map<nat, nat>, i: nat, s: State, t: State, u: State)
    requires Extends(some, more) && SameBytes(some, s, t) && SameBytes(more, t, u)
    requires i in last && last == more[i := last[i]] && (i in more ==> last == more)
    ensures Extends(some, last) && SameBytes(some, s, u)
  {
  }

  lemma NoChunks(c: Shape, s: State, t: State)
    requires c.Ok() && s.Valid() && t.Valid() && c.va !in s.reservations && Clear(s.mappings, c.va, c.size)
             && t == s.Reserve(c.va, c.size)
    ensures Tidy(c, t, map[], t)
  {
  }

  lemma KeptBytes(c: Shape, before: State, handles: map<nat, nat>, s: State)
    requires Tidy(c, before, handles, s)
    ensures forall i | i in handles :: handles[i] in s.backings
  {
    forall i | i in handles
      ensures handles[i] in s.backings
    {
      assert ChunkMemory(c, handles, i, s.backings);
    }
  }

  lemma GrantOneMapping(s: State, a: nat, size: nat)
    requires s.Valid() && a in s.mappings && s.mappings[a].size == size
    ensures s.Grant(a, size) == s.(mappings := s.mappings[a := s.mappings[a].(accessible := true)])
  {
    GrantOne(s, a, size);
  }
}
