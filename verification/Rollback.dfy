/** Undoing a half-done promotion: what may differ from the state before it while a new
    handle and a temporary range exist, and why sweeping them away restores that state. */
module Rollback {
  import opened IntMath
  import opened VmmState
  import opened OwnerBooks
  import opened Residency

  function Spot(temp: Option<nat>): set<nat> {
    if temp.Some? then {temp.value} else {}
  }

  /** `(c, t)` differs from `(b, s)` at most in the temporary range and the new handle. */
  ghost predicate SameElse(b: Books, s: State, c: Books, t: State, temp: Option<nat>, hot: nat) {
    var spot := Spot(temp);
    && c == b.(mappings := c.mappings, handles := c.handles, temps := c.temps)
    && c.mappings - spot == b.mappings - spot && c.temps - spot == b.temps - spot
       && c.handles - {hot} == b.handles - {hot}
    && t.mappings - spot == s.mappings - spot && t.reservations - spot == s.reservations - spot
    && t.backings - {hot} == s.backings - {hot} && t.live - {hot} == s.live - {hot}
  }

  /** Records and driver hold the new handle, and agree about the temporary range. */
  ghost predicate Tracked(c: Books, t: State, temp: Option<nat>, hot: nat, kind: Kind, size: nat) {
    && Backs(c.handles, t.backings, hot, kind, size) && hot in t.live
    && (temp.Some? ==>
          && IsTemp(c.temps, temp.value, size) && IsTemp(t.reservations, temp.value, size)
          && (temp.value in c.mappings <==> temp.value in t.mappings)
          && (temp.value in c.mappings ==>
              c.mappings[temp.value] == Entry(size, hot) && t.mappings[temp.value].handle == hot))
  }

  /** The temporary range and the new handle are not part of `(b, s)`. */
  predicate Unknown(b: Books, s: State, temp: Option<nat>, hot: nat) {
    && hot !in s.backings && hot !in s.live && hot !in b.handles
    && UnknownSpot(b, s, temp)
  }

  predicate UnknownSpot(b: Books, s: State, temp: Option<nat>) {
    temp.Some? ==>
        temp.value !in b.mappings && temp.value !in b.temps && temp.value !in s.mappings
        && temp.value !in s.reservations
  }

  predicate InUse(entries: Entries, h: nat) {
    exists a :: a in entries && entries[a].handle == h
  }

  // ---- Sweeping ----

  /** The records after the temporary range is given back, and the handle with it unless
      a piece uses it. */
  function SweptBooks(c: Books, temp: Option<nat>, hot: nat): Books {
    var entries := c.mappings - Spot(temp);
    c.(mappings := entries, temps := c.temps - Spot(temp), handles := if InUse(entries, hot) then c.handles
       else c.handles - {hot})
  }

  function SweptState(c: Books, t: State, temp: Option<nat>, hot: nat): State {
    var u := WithoutTemp(t, temp);
    if InUse(c.mappings - Spot(temp), hot) then u else u.Release(hot)
  }

  /** The driver without the temporary mapping and range. */
  function WithoutTemp(t: State, temp: Option<nat>): State {
    var u := if temp.Some? && temp.value in t.mappings then t.Unmap(temp.value) else t;
    if temp.Some? then u.Unreserve(temp.value) else u
  }

  /** Dropping the temporary range, and perhaps the handle, changes nothing else. */
  lemma SweepKeepsElse(c: Books, t: State, temp: Option<nat>, hot: nat)
    requires hot in t.live && (temp.Some? && temp.value in t.mappings ==> t.mappings[temp.value].handle == hot)
    ensures SameElse(c, t, SweptBooks(c, temp, hot), SweptState(c, t, temp, hot), temp, hot)
    ensures InUse(c.mappings - Spot(temp), hot) ==>
              SweptBooks(c, temp, hot).handles == c.handles && SweptState(c, t, temp, hot).backings == t.backings
              && SweptState(c, t, temp, hot).live == t.live
  {
    hide InUse, WithoutTemp, State.Release;
    TempGone(t, temp, hot);
    ReleaseElse(WithoutTemp(t, temp), hot);
    TwiceWithout(c.handles, {hot});
    TwiceWithout(c.mappings, Spot(temp));
    TwiceWithout(c.temps, Spot(temp));
  }

  lemma TempGone(t: State, temp: Option<nat>, hot: nat)
    requires hot in t.live && (temp.Some? && temp.value in t.mappings ==> t.mappings[temp.value].handle == hot)
    ensures var u := WithoutTemp(t, temp);
            && u.backings == t.backings && u.live == t.live
            && u.mappings - Spot(temp) == t.mappings - Spot(temp)
               && u.reservations - Spot(temp) == t.reservations - Spot(temp)
  {
    TwiceWithout(t.mappings, Spot(temp));
    TwiceWithout(t.reservations, Spot(temp));
  }

  lemma ReleaseElse(t: State, hot: nat)
    ensures var u := t.Release(hot);
            && u == t.(live := u.live, backings := u.backings)
            && u.backings - {hot} == t.backings - {hot} && u.live - {hot} == t.live - {hot}
  {
    TwiceWithout(t.backings, {hot});
    assert t.live - {hot} - {hot} == t.live - {hot};
  }

  lemma TwiceWithout<T>(m: map<nat, T>, keys: set<nat>)
    ensures (m - keys) - keys == m - keys
  {
  }

  lemma WithoutSpot<T>(m: map<nat, T>, n: map<nat, T>, spot: set<nat>)
    requires m - spot == n - spot && n.Keys !! spot
    ensures m - spot == n
  {
    assert n - spot == n;
  }

  /** Sweeping a promotion that never reached the canonical range restores records and
      driver exactly. */
  lemma SweepRestores(b: Books, s: State, c: Books, t: State, temp: Option<nat>, hot: nat, kind: Kind, size: nat)
    requires Consistent(b, s) && Unknown(b, s, temp, hot)
    requires SameElse(b, s, c, t, temp, hot) && Tracked(c, t, temp, hot, kind, size)
    ensures SweptBooks(c, temp, hot) == b && SweptState(c, t, temp, hot) == s
  {
    hide MappingsApart, MappingsReserved, RangesApart, Tiles, Slots, NothingUnrecorded, RangesHeld, HandlesHeld,
         FallbacksHeld, NoPieceMapped;
    var spot := Spot(temp);
    WithoutSpot(c.mappings, b.mappings, spot);
    WithoutSpot(c.temps, b.temps, spot);
    WithoutSpot(c.handles, b.handles, {hot});
    WithoutSpot(t.mappings, s.mappings, spot);
    WithoutSpot(t.reservations, s.reservations, spot);
    WithoutSpot(t.backings, s.backings, {hot});
    assert t.live - {hot} == s.live;
    assert !IsMapped(s.mappings, hot);
    assert !InUse(b.mappings, hot);
    assert t.mappings == s.mappings || temp.Some?;
    assert t.reservations == s.reservations || temp.Some?;
  }

  /** Sweeping after the canonical range took the handle leaves exactly the promotion. */
  lemma SweepCompletes(b: Books, s: State, c: Books, t: State, temp: Option<nat>, hot: nat, kind: Kind, size: nat)
    requires UnknownSpot(b, s, temp) && InUse(b.mappings, hot)
    requires SameElse(b, s, c, t, temp, hot) && Tracked(c, t, temp, hot, kind, size)
    requires hot in b.handles && b.handles[hot] == kind
    requires hot in s.live && hot in s.backings && t.backings[hot] == s.backings[hot]
    ensures SweptBooks(c, temp, hot) == b && SweptState(c, t, temp, hot) == s
  {
    var spot := Spot(temp);
    WithoutSpot(c.mappings, b.mappings, spot);
    WithoutSpot(c.temps, b.temps, spot);
    WithoutSpot(t.mappings, s.mappings, spot);
    WithoutSpot(t.reservations, s.reservations, spot);
    SameMap(c.handles, b.handles, hot);
    SameMap(t.backings, s.backings, hot);
    assert t.live == (t.live - {hot}) + {hot} && s.live == (s.live - {hot}) + {hot};
  }

  lemma SameMap<T>(m: map<nat, T>, n: map<nat, T>, k: nat)
    requires m - {k} == n - {k} && k in m && k in n && m[k] == n[k]
    ensures m == n
  {
    forall x
      ensures x in m <==> x in n
      ensures x in m ==> m[x] == n[x]
    {
      assert x != k ==> (x in m <==> x in m - {k}) && (x in n <==> x in n - {k});
      if x != k && x in m { assert (m - {k})[x] == (n - {k})[x]; }
    }
  }

  // ---- Meanwhile nothing shows ----

  lemma KeptOutside<T>(m: map<nat, T>, n: map<nat, T>, spot: set<nat>, x: nat)
    requires m - spot == n - spot && x !in spot
    ensures x in m <==> x in n
    ensures x in m ==> m[x] == n[x]
  {
    assert x in m - spot <==> x in n - spot;
    if x in m { assert (m - spot)[x] == (n - spot)[x]; }
  }

  /** Whatever the sweep leaves behind, the canonical range reads the same. */
  lemma AsideIsInvisible(b: Books, s: State, c: Books, t: State, temp: Option<nat>, hot: nat)
    requires Intact(b, s) && UnknownSpot(b, s, temp) && SameElse(b, s, c, t, temp, hot)
    requires hot in b.handles ==> && hot in c.handles && c.handles[hot] == b.handles[hot]
                                  && hot in s.backings && hot in t.backings && t.backings[hot] == s.backings[hot]
    ensures Intact(c, t) && Contents(c, t) == Contents(b, s)
  {
    hide Contents, DistinctPieces, Offset;
    forall i | 0 <= i < |b.layout|
      ensures PieceIntact(b, s, i) && SamePiece(b, s, c, t, i)
    {
      assert PieceIntact(b, s, i);
      var a := b.layout[i].addr;
      var h := b.mappings[a].handle;
      KeptOutside(c.mappings, b.mappings, Spot(temp), a);
      KeptOutside(t.mappings, s.mappings, Spot(temp), a);
      if h != hot {
        KeptOutside(c.handles, b.handles, {hot}, h);
        KeptOutside(t.backings, s.backings, {hot}, h);
      }
    }
    SamePiecesSameContents(b, s, c, t);
  }

  lemma SameElseChain(b: Books, s: State, c: Books, t: State, d: Books, u: State, temp: Option<nat>, hot: nat)
    requires SameElse(b, s, c, t, temp, hot) && SameElse(c, t, d, u, temp, hot)
    ensures SameElse(b, s, d, u, temp, hot)
  {
  }

  /** A mapping that can be read at a piece is this owner's own, and nothing was released. */
  lemma ReadablePiece(b: Books, s: State, a: nat, n: nat)
    requires Consistent(b, s) && !b.freed && IsPiece(b.layout, a, n) && s.Readable(a, n)
    ensures a in b.mappings && b.mappings[a].size == n && !b.closing
    ensures b.mappings[a].handle in b.handles && s.mappings[a].handle == b.mappings[a].handle
  {
    hide State.Valid, Tiles, Slots, RangesHeld, HandlesHeld, ColdHeld, ChunksHeld, Within;
    PieceWithin(b.layout, b.va, b.size, a, n);
    assert b.va in b.Owned();
    assert Piece(a, n) in b.layout && Piece(a, n).addr == a;
  }

  /** A handle in no recorded mapping and behind no fallback may be released. */
  lemma UnusedHandle(b: Books, s: State, h: nat)
    requires Consistent(b, s) && h in b.handles && !InUse(b.mappings, h)
    requires b.handles[h] == Cache || b.handles[h] == ChunkHot
    requires b.promotedHandle != Some(h)
    ensures var c := b.(handles := b.handles - {h});
            if c.closing then NoPieceMapped(c.layout, c.mappings) else FallbacksHeld(c, s.backings)
  {
    hide State.Valid, RangesAgree, HandlesHeld;
  }

  lemma SameElseReflexive(b: Books, s: State, temp: Option<nat>, hot: nat)
    ensures SameElse(b, s, b, s, temp, hot)
  {
  }

  /** Creating and noting the handle, then noting the range, touches nothing else. */
  lemma CreatedAside(b: Books, s: State, hot: nat, kind: Kind, memory: Backing, temp: Option<nat>)
    requires hot !in s.backings
    ensures SameElse(b, s, b.(handles := b.handles[hot := kind]), s.Create(hot, memory), temp, hot)
  {
    assert b.handles[hot := kind] - {hot} == b.handles - {hot};
    assert s.backings[hot := memory] - {hot} == s.backings - {hot};
    assert s.live + {hot} - {hot} == s.live - {hot};
  }

  lemma ReservedAside(b: Books, s: State, temp: nat, n: nat, hot: nat, kind: Kind)
    requires Tracked(b, s, None, hot, kind, n) && UnknownSpot(b, s, Some(temp))
    ensures Tracked(b.(temps := b.temps[temp := n]), s.Reserve(temp, n), Some(temp), hot, kind, n)
    ensures SameElse(b, s, b.(temps := b.temps[temp := n]), s.Reserve(temp, n), Some(temp), hot)
  {
    assert b.temps[temp := n] - {temp} == b.temps - {temp};
    assert s.reservations[temp := n] - {temp} == s.reservations - {temp};
  }

  /** Nothing known to the owner uses a range the driver has just handed out. */
  lemma FreshRange(b: Books, s: State, temp: nat, n: nat)
    requires Consistent(b, s) && temp !in s.reservations && Clear(s.mappings, temp, n) && n > 0
    ensures UnknownSpot(b, s, Some(temp))
  {
    hide FallbacksHeld, NoPieceMapped, HandlesHeld, Tiles, Slots, NothingUnrecorded, MappingsApart, MappingsReserved,
         RangesApart;
    assert temp in b.temps ==> temp in b.Owned();
    assert forall a | a in s.mappings :: s.mappings[a].size > 0;
  }

  /** A new handle is in no mapping. */
  lemma FreshHandle(b: Books, s: State, hot: nat)
    requires Consistent(b, s) && hot !in s.backings
    ensures !InUse(b.mappings, hot) && hot !in s.live && hot !in b.handles
  {
    hide FallbacksHeld, NoPieceMapped, Tiles, Slots, NothingUnrecorded, RangesHeld, MappingsApart, MappingsReserved,
         RangesApart;
  }

  lemma RegionPositive(b: Books, s: State, a: nat, n: nat)
    requires Consistent(b, s) && IsPiece(b.layout, a, n)
    ensures n > 0 && (!b.freed ==> forall t | t in b.temps :: t != a)
  {
    hide State.Valid, FallbacksHeld, NoPieceMapped, HandlesHeld, Slots, Recorded, NothingUnrecorded;
    PieceWithin(b.layout, b.va, b.size, a, n);
    if !b.freed {
      forall t | t in b.temps
        ensures t != a
      {
        ValidRanges(s);
        TempIsNoPiece(b, s, t);
        assert Piece(a, n) in b.layout && Piece(a, n).addr == a;
      }
    }
  }

  lemma ValidRanges(s: State)
    requires s.Valid()
    ensures RangesApart(s.reservations)
  {
    hide MappingsFit, MappingsApart, MappingsReserved, RangesApart;
  }

  /** The canonical remap and the notes about it, carried over to the promoted base. */
  lemma SwapAside(b: Books, s: State, c: Books, t: State, temp: nat, hot: nat)
    requires b.coldMapping.Some? && temp != b.coldMapping.value.addr
    requires SameElse(b, s, c, t, Some(temp), hot) && hot in s.live && hot in t.live
    requires s.Readable(b.coldMapping.value.addr, b.coldMapping.value.size)
    requires hot in t.backings && t.backings[hot] == Backing(Device, s.Bytes(b.coldMapping.value.addr))
    ensures var cold := b.coldMapping.value;
            SameElse(PromotedBooks(b, hot), ReplacedState(s, cold.addr, cold.size, hot),
                     c.(mappings := c.mappings[cold.addr := Entry(cold.size, hot)], promotedHandle := Some(hot),
                        hotBytes := c.hotBytes + cold.size),
                     RemappedState(t, cold.addr, cold.size, hot), Some(temp), hot)
  {
    var cold := b.coldMapping.value;
    UpdateOutside(c.mappings, b.mappings, {temp}, cold.addr, Entry(cold.size, hot));
    UpdateOutside(t.mappings, s.mappings, {temp}, cold.addr, Mapping(cold.size, hot, true));
    assert b.handles[hot := Cache] - {hot} == b.handles - {hot};
    assert s.backings[hot := Backing(Device, s.Bytes(cold.addr))] - {hot} == s.backings - {hot};
  }

  lemma UpdateOutside<T>(m: map<nat, T>, n: map<nat, T>, spot: set<nat>, k: nat, v: T)
    requires m - spot == n - spot && k !in spot
    ensures m[k := v] - spot == n[k := v] - spot
  {
    assert m[k := v] - spot == (m - spot)[k := v];
    assert n[k := v] - spot == (n - spot)[k := v];
  }

  /** The slot at `a` is mapped to `h`, with access. */
  predicate MappedTo(b: Books, s: State, a: nat, n: nat, h: nat) {
    && a in b.mappings && b.mappings[a] == Entry(n, h)
    && a in s.mappings && s.mappings[a] == Mapping(n, h, true)
  }

  /** Before a promotion the cold region is mapped to its own handle, after it to the new. */
  lemma ColdMapped(b: Books, s: State)
    requires Intact(b, s) && b.coldMapping.Some?
    ensures var cold := b.coldMapping.value;
            MappedTo(b, s, cold.addr, cold.size, if b.promotedHandle.Some? then b.promotedHandle.value else cold.handle)
  {
    assert PieceIntact(b, s, |b.layout| - 1);
  }

  /** A handle of the cold region's kinds may back the cold region. */
  lemma ColdMayBack(b: Books, s: State, h: nat)
    requires Consistent(b, s) && !b.closing && b.coldMapping.Some? && h in b.handles
    requires b.handles[h] == Cold || b.handles[h] == Cache
    ensures MayBack(b, b.coldMapping.value.addr, h)
  {
    hide State.Valid, RangesAgree, HandlesHeld, ColdHeld, PiecesHeld;
  }

  lemma NotePromotion(b: Books, s: State, hot: nat, bytes: int)
    requires Consistent(b, s) && !b.closing && b.coldMapping.Some?
    requires Backs(b.handles, s.backings, hot, Cache, b.coldMapping.value.size)
    ensures var c := b.(promotedHandle := Some(hot), hotBytes := bytes);
            Consistent(c, s) && RestOf(c, s) == RestOf(b, s)
  {
    hide State.Valid, Tiles, Slots, Recorded, NothingUnrecorded, RangesHeld, HandlesHeld, OthersMemory;
  }

  /** Promoting over the handle's own creation is promoting over the state before it. */
  lemma PromotedBase(b: Books, s: State, hot: nat, memory: Backing)
    requires Intact(b, s) && b.coldMapping.Some? && hot !in s.backings
    ensures var cold := b.coldMapping.value;
            && s.Readable(cold.addr, cold.size) && s.Create(hot, memory).Readable(cold.addr, cold.size)
            && PromotedBooks(b.(handles := b.handles[hot := Cache]), hot) == PromotedBooks(b, hot)
            && ReplacedState(s.Create(hot, memory), cold.addr, cold.size, hot)
               == ReplacedState(s, cold.addr, cold.size, hot)
  {
    assert PieceIntact(b, s, |b.layout| - 1);
    assert s.live + {hot} + {hot} == s.live + {hot};
  }

  /** After a body that succeeded: a clean sweep leaves exactly the promotion, a failed one
      something that reads the same. */
  lemma PromotionSwept(b: Books, s: State, hot: nat, c: Books, t: State, temp: Option<nat>)
    requires Consistent(b, s) && Intact(b, s) && hot !in s.backings && b.coldMapping.Some? && b.promotedHandle.None?
    requires UnknownSpot(b, s, temp) && Tracked(c, t, temp, hot, Cache, b.coldMapping.value.size)
    requires s.Readable(b.coldMapping.value.addr, b.coldMapping.value.size)
    requires t.backings[hot] == Backing(Device, s.Bytes(b.coldMapping.value.addr))
    requires var cold := b.coldMapping.value;
             SameElse(PromotedBooks(b, hot), ReplacedState(s, cold.addr, cold.size, hot), c, t, temp, hot)
    ensures var cold := b.coldMapping.value;
            && InUse(c.mappings - Spot(temp), hot)
            && SweptBooks(c, temp, hot) == PromotedBooks(b, hot)
            && SweptState(c, t, temp, hot) == ReplacedState(s, cold.addr, cold.size, hot)
  {
    hide Consistent, Intact;
    var cold := b.coldMapping.value;
    var p, q := PromotedBooks(b, hot), ReplacedState(s, cold.addr, cold.size, hot);
    ColdMapped(b, s);
    assert p.mappings[cold.addr].handle == hot && InUse(p.mappings, hot);
    assert c.mappings - Spot(temp) == p.mappings - Spot(temp);
    assert cold.addr in p.mappings - Spot(temp) && (p.mappings - Spot(temp))[cold.addr].handle == hot;
    SweepCompletes(p, q, c, t, temp, hot, Cache, cold.size);
  }

  lemma PromotionInvisible(b: Books, s: State, hot: nat, c: Books, t: State, temp: Option<nat>)
    requires Consistent(b, s) && Intact(b, s) && hot !in s.backings && b.coldMapping.Some? && b.promotedHandle.None?
    requires UnknownSpot(b, s, temp) && Tracked(c, t, None, hot, Cache, b.coldMapping.value.size)
    requires s.Readable(b.coldMapping.value.addr, b.coldMapping.value.size)
    requires t.backings[hot] == Backing(Device, s.Bytes(b.coldMapping.value.addr))
    requires var cold := b.coldMapping.value;
             SameElse(PromotedBooks(b, hot), ReplacedState(s, cold.addr, cold.size, hot), c, t, temp, hot)
    ensures Intact(c, t) && Contents(c, t) == Contents(b, s)
  {
    hide Consistent, Intact, Contents;
    var cold := b.coldMapping.value;
    ColdMapped(b, s);
    PromotionKeepsContents(b, s, hot);
    AsideIsInvisible(PromotedBooks(b, hot), ReplacedState(s, cold.addr, cold.size, hot), c, t, temp, hot);
  }

  // ---- Chunks ----

  /** The temporary range is gone again on both sides. */
  lemma SpotGone(b: Books, s: State, c: Books, t: State, temp: nat, hot: nat)
    requires UnknownSpot(b, s, Some(temp)) && SameElse(b, s, c, t, Some(temp), hot)
    requires temp !in c.mappings && temp !in c.temps && temp !in t.mappings && temp !in t.reservations
    ensures SameElse(b, s, c, t, None, hot)
    ensures c.mappings == b.mappings && c.temps == b.temps && t.mappings == s.mappings
            && t.reservations == s.reservations
  {
    WithoutSpot(b.mappings, c.mappings, {temp});
    WithoutSpot(b.temps, c.temps, {temp});
    WithoutSpot(s.mappings, t.mappings, {temp});
    WithoutSpot(s.reservations, t.reservations, {temp});
    assert c.mappings - {temp} == c.mappings && c.temps - {temp} == c.temps;
    assert t.mappings - {temp} == t.mappings && t.reservations - {temp} == t.reservations;
  }

  lemma NextChunk(b: Books, s: State)
    requires Consistent(b, s) && b.chunkPromoted < |b.coldChunks|
    ensures IsPiece(b.layout, b.coldChunks[b.chunkPromoted].addr, b.coldChunks[b.chunkPromoted].size)
  {
    hide State.Valid, FallbacksHeld, NoPieceMapped, HandlesHeld, Slots, Recorded, NothingUnrecorded, RangesHeld, Tiles,
         IsPiece;
  }

  lemma ChunkMayBack(b: Books, s: State, a: nat, h: nat)
    requires Consistent(b, s) && !b.closing && h in b.handles && b.handles[h] == ChunkHot
    ensures MayBack(b, a, h)
  {
    hide State.Valid, RangesAgree, HandlesHeld, ColdHeld, PiecesHeld;
  }

  /** With its piece on the new handle, the next chunk's host memory backs nothing. */
  lemma NoteChunk(b: Books, s: State, hot: nat, bytes: int)
    requires Consistent(b, s) && !b.closing && b.chunkPromoted < |b.coldChunks|
    requires var chunk := b.coldChunks[b.chunkPromoted];
             chunk.addr in b.mappings && b.mappings[chunk.addr].handle == hot && hot in b.handles
             && b.handles[hot] == ChunkHot
    ensures var c := b.(chunkPromoted := b.chunkPromoted + 1, hotBytes := bytes);
            var chunk := b.coldChunks[b.chunkPromoted];
            && Consistent(c, s) && RestOf(c, s) == RestOf(b, s)
            && chunk.handle in b.handles && chunk.handle != hot
            && FallbacksHeld(c.(handles := c.handles - {chunk.handle}), s.backings)
  {
    hide State.Valid, Tiles, Slots, Recorded, NothingUnrecorded, RangesHeld, RegionsArePieces, HandlesHeld,
         OthersMemory;
    assert Backs(b.handles, s.backings, b.coldChunks[b.chunkPromoted].handle, Chunk,
                 b.coldChunks[b.chunkPromoted].size);
  }
}
