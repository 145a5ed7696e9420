/** The virtual-memory driver's state and the effect of each successful call: physical
    handles, the mappings of address ranges to them, and reserved address ranges. */
module VmmState {
  import opened Bytes

  datatype Location = Device | HostNuma

  /** Physical memory behind a handle. */
  datatype Backing = Backing(location: Location, bytes: seq<Byte>)

  datatype Mapping = Mapping(size: nat, handle: nat, accessible: bool)

  type Mappings = map<nat, Mapping>

  /** Start of each range to its size. */
  type Ranges = map<nat, nat>

  // ---- Address ranges ----

  predicate Within(r: nat, n: nat, a: nat, size: nat) {
    r <= a && a + size <= r + n
  }

  predicate Apart(a: nat, m: nat, b: nat, n: nat) {
    a + m <= b || b + n <= a
  }

  ghost predicate Reserved(ranges: Ranges, a: nat, size: nat) {
    exists r :: r in ranges && Within(r, ranges[r], a, size)
  }

  /** No mapping touches `[a, a + size)`. */
  predicate Clear(mappings: Mappings, a: nat, size: nat) {
    forall b | b in mappings :: Apart(b, mappings[b].size, a, size)
  }

  predicate RangesApart(ranges: Ranges) {
    && (forall r | r in ranges :: ranges[r] > 0)
    && (forall r, q | r in ranges && q in ranges && r != q :: Apart(r, ranges[r], q, ranges[q]))
  }

  predicate MappingsApart(mappings: Mappings) {
    forall a, b | a in mappings && b in mappings && a != b :: Apart(a, mappings[a].size, b, mappings[b].size)
  }

  ghost predicate MappingsReserved(mappings: Mappings, ranges: Ranges) {
    forall a | a in mappings :: Reserved(ranges, a, mappings[a].size)
  }

  /** Each mapping covers its handle's memory exactly. */
  predicate MappingsFit(mappings: Mappings, backings: map<nat, Backing>) {
    forall a | a in mappings ::
      mappings[a].size > 0 && mappings[a].handle in backings && |backings[mappings[a].handle].bytes| == mappings[a].size
  }

  predicate IsMapped(mappings: Mappings, h: nat) {
    exists a :: a in mappings && mappings[a].handle == h
  }

  // ---- The driver's state ----

  /** `live` holds the handles not yet released; a released handle's memory stays until
      its last mapping goes. */
  datatype State = State(backings: map<nat, Backing>, live: set<nat>, mappings: Mappings, reservations: Ranges) {
    ghost predicate Valid() {
      && live <= backings.Keys
      && MappingsFit(mappings, backings) && MappingsApart(mappings)
      && MappingsReserved(mappings, reservations) && RangesApart(reservations)
    }

    function Create(h: nat, b: Backing): State {
      this.(backings := backings[h := b], live := live + {h})
    }

    function Reserve(r: nat, size: nat): State {
      this.(reservations := reservations[r := size])
    }

    function Map(a: nat, size: nat, h: nat): State {
      this.(mappings := mappings[a := Mapping(size, h, false)])
    }

    /** Access granted to every mapping that starts in `[a, a + size)`. */
    function Grant(a: nat, size: nat): State {
      this.(mappings := map b | b in mappings :: if a <= b < a + size then mappings[b].(accessible := true)
            else mappings[b])
    }

    function Unmap(a: nat): State
      requires a in mappings
    {
      var rest := mappings - {a};
      var h := mappings[a].handle;
      if h in live || IsMapped(rest, h) then this.(mappings := rest)
      else this.(mappings := rest, backings := backings - {h})
    }

    function Release(h: nat): State {
      if IsMapped(mappings, h) then this.(live := live - {h})
      else this.(live := live - {h}, backings := backings - {h})
    }

    function Unreserve(r: nat): State {
      this.(reservations := reservations - {r})
    }

    predicate Readable(a: nat, size: nat) {
      a in mappings && mappings[a].size == size && mappings[a].accessible && mappings[a].handle in backings
    }

    /** Copy through two mappings of the same size. */
    function Copy(dst: nat, src: nat): State
      requires dst in mappings && src in mappings
      requires mappings[dst].handle in backings && mappings[src].handle in backings
    {
      var h := mappings[dst].handle;
      this.(backings := backings[h := backings[h].(bytes := backings[mappings[src].handle].bytes)])
    }

    /** One byte stored through the mapping at `a`. */
    function Poke(a: nat, offset: nat, value: Byte): State
      requires a in mappings && mappings[a].handle in backings && offset < |backings[mappings[a].handle].bytes|
    {
      var h := mappings[a].handle;
      this.(backings := backings[h := backings[h].(bytes := backings[h].bytes[offset := value])])
    }

    /** Bytes seen through the mapping at `a`. */
    function Bytes(a: nat): seq<Byte>
      requires a in mappings && mappings[a].handle in backings
    {
      backings[mappings[a].handle].bytes
    }
  }

  // ---- Each call keeps the state valid ----

  lemma CreateValid(s: State, h: nat, b: Backing)
    requires s.Valid() && h !in s.backings
    ensures s.Create(h, b).Valid()
  {
    hide MappingsApart, MappingsReserved, RangesApart;
  }

  lemma ClearOfReserved(s: State, r: nat, size: nat)
    requires MappingsReserved(s.mappings, s.reservations)
    requires forall q | q in s.reservations :: Apart(q, s.reservations[q], r, size)
    ensures Clear(s.mappings, r, size)
  {
    forall a | a in s.mappings
      ensures Apart(a, s.mappings[a].size, r, size)
    {
      var q :| q in s.reservations && Within(q, s.reservations[q], a, s.mappings[a].size);
    }
  }

  lemma MoreRanges(mappings: Mappings, ranges: Ranges, r: nat, size: nat)
    requires MappingsReserved(mappings, ranges) && r !in ranges
    ensures MappingsReserved(mappings, ranges[r := size])
  {
    forall a | a in mappings
      ensures Reserved(ranges[r := size], a, mappings[a].size)
    {
      var q :| q in ranges && Within(q, ranges[q], a, mappings[a].size);
      assert q in ranges[r := size] && Within(q, ranges[r := size][q], a, mappings[a].size);
    }
  }

  lemma ReserveValid(s: State, r: nat, size: nat)
    requires s.Valid() && size > 0
    requires forall q | q in s.reservations :: Apart(q, s.reservations[q], r, size)
    ensures r !in s.reservations && Clear(s.mappings, r, size)
    ensures s.Reserve(r, size).Valid() && Reserved(s.Reserve(r, size).reservations, r, size)
  {
    hide MappingsApart, MappingsFit, MappingsReserved, Clear;
    ClearOfReserved(s, r, size);
    assert forall q | q in s.reservations :: s.reservations[q] > 0;
    MoreRanges(s.mappings, s.reservations, r, size);
    var ranges := s.reservations[r := size];
    assert r in ranges && Within(r, ranges[r], r, size);
  }

  lemma MapApart(mappings: Mappings, a: nat, m: Mapping)
    requires MappingsApart(mappings) && Clear(mappings, a, m.size) && m.size > 0
    requires forall b | b in mappings :: mappings[b].size > 0
    ensures a !in mappings && MappingsApart(mappings[a := m])
  {
  }

  lemma MapValid(s: State, a: nat, size: nat, h: nat)
    requires s.Valid() && size > 0 && h in s.backings && |s.backings[h].bytes| == size
    requires Reserved(s.reservations, a, size) && Clear(s.mappings, a, size)
    ensures a !in s.mappings && s.Map(a, size, h).Valid()
  {
    hide MappingsApart, Reserved, Clear, RangesApart;
    MapApart(s.mappings, a, Mapping(size, h, false));
  }

  /** The same ranges mapped to the same handles. */
  predicate SameSlots(m: Mappings, n: Mappings) {
    m.Keys == n.Keys && forall a | a in m :: n[a].size == m[a].size && n[a].handle == m[a].handle
  }

  lemma GrantValid(s: State, a: nat, size: nat)
    requires s.Valid()
    ensures s.Grant(a, size).Valid() && SameSlots(s.mappings, s.Grant(a, size).mappings)
  {
    hide Reserved, RangesApart, Apart;
  }

  lemma FewerMappings(mappings: Mappings, ranges: Ranges, a: nat)
    requires a in mappings && MappingsApart(mappings) && MappingsReserved(mappings, ranges)
    ensures MappingsApart(mappings - {a}) && MappingsReserved(mappings - {a}, ranges)
    ensures Clear(mappings - {a}, a, mappings[a].size)
  {
    hide Reserved, Apart;
    assert forall b | b in mappings - {a} :: b in mappings && b != a && (mappings - {a})[b] == mappings[b];
  }

  lemma UnmapFits(s: State, a: nat)
    requires a in s.mappings && MappingsFit(s.mappings, s.backings) && s.live <= s.backings.Keys
    ensures var t := s.Unmap(a); MappingsFit(t.mappings, t.backings) && t.live <= t.backings.Keys
    ensures s.Unmap(a).mappings == s.mappings - {a}
    ensures forall h | h in s.Unmap(a).backings :: h in s.backings && s.Unmap(a).backings[h] == s.backings[h]
  {
    var t := s.Unmap(a);
    forall b | b in t.mappings
      ensures t.mappings[b] == s.mappings[b] && t.mappings[b].handle in t.backings
    {
      assert b in s.mappings - {a};
    }
  }

  lemma UnmapValid(s: State, a: nat)
    requires s.Valid() && a in s.mappings
    ensures s.Unmap(a).Valid() && Clear(s.Unmap(a).mappings, a, s.mappings[a].size)
    ensures s.Unmap(a).mappings == s.mappings - {a}
    ensures forall h | h in s.Unmap(a).backings :: h in s.backings && s.Unmap(a).backings[h] == s.backings[h]
  {
    hide MappingsApart, MappingsFit, MappingsReserved, Clear, RangesApart;
    UnmapFits(s, a);
    FewerMappings(s.mappings, s.reservations, a);
  }

  lemma ReleaseValid(s: State, h: nat)
    requires s.Valid() && h in s.live
    ensures s.Release(h).Valid()
    ensures forall k | k in s.live && k != h :: k in s.Release(h).backings
    ensures forall k | k in s.Release(h).backings :: k in s.backings && s.Release(h).backings[k] == s.backings[k]
  {
    hide MappingsApart, MappingsReserved, RangesApart;
  }

  lemma FewerRanges(mappings: Mappings, ranges: Ranges, r: nat)
    requires MappingsReserved(mappings, ranges) && r in ranges && Clear(mappings, r, ranges[r])
    requires forall a | a in mappings :: mappings[a].size > 0
    ensures MappingsReserved(mappings, ranges - {r})
  {
    forall a | a in mappings
      ensures Reserved(ranges - {r}, a, mappings[a].size)
    {
      var q :| q in ranges && Within(q, ranges[q], a, mappings[a].size);
      assert q != r;
      assert q in ranges - {r} && Within(q, (ranges - {r})[q], a, mappings[a].size);
    }
  }

  lemma UnreserveValid(s: State, r: nat)
    requires s.Valid() && r in s.reservations && Clear(s.mappings, r, s.reservations[r])
    ensures s.Unreserve(r).Valid()
  {
    hide MappingsApart, MappingsReserved, Clear, Apart;
    FewerRanges(s.mappings, s.reservations, r);
  }

  /** Rewriting memory in place, sizes kept. */
  lemma OverwriteValid(s: State, h: nat, b: Backing)
    requires s.Valid() && h in s.backings && |b.bytes| == |s.backings[h].bytes|
    ensures s.(backings := s.backings[h := b]).Valid()
  {
    hide MappingsApart, MappingsReserved, RangesApart;
  }

  lemma CopyValid(s: State, dst: nat, src: nat)
    requires s.Valid() && dst in s.mappings && src in s.mappings && s.mappings[dst].size == s.mappings[src].size
    ensures s.Copy(dst, src).Valid()
  {
    hide MappingsApart, MappingsReserved, RangesApart;
    var h := s.mappings[dst].handle;
    OverwriteValid(s, h, s.backings[h].(bytes := s.Bytes(src)));
  }

  lemma PokeValid(s: State, a: nat, offset: nat, value: Byte)
    requires s.Valid() && a in s.mappings && offset < s.mappings[a].size
    ensures s.Poke(a, offset, value).Valid()
  {
    hide MappingsApart, MappingsReserved, RangesApart;
    var h := s.mappings[a].handle;
    OverwriteValid(s, h, s.backings[h].(bytes := s.Bytes(a)[offset := value]));
  }

  /** Granting access to a range that holds one mapping touches that mapping only. */
  lemma GrantOne(s: State, a: nat, size: nat)
    requires MappingsApart(s.mappings) && a in s.mappings && s.mappings[a].size == size
    requires forall b | b in s.mappings :: s.mappings[b].size > 0
    ensures s.Grant(a, size) == s.(mappings := s.mappings[a := s.mappings[a].(accessible := true)])
  {
    forall b | b in s.mappings && b != a
      ensures !(a <= b < a + size)
    {
      assert Apart(a, s.mappings[a].size, b, s.mappings[b].size);
    }
    assert s.Grant(a, size).mappings == s.mappings[a := s.mappings[a].(accessible := true)];
  }
}
