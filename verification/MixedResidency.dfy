/** The mixed-residency allocation: one fixed address range whose physical backing is
    swapped between host and device memory. Every driver call may fail. */
module MixedResidency {
  import opened IntMath
  import opened VmmState
  import opened VmmDriver
  import opened OwnerBooks
  import opened Residency
  import opened ResidencyPlan
  import opened Rollback

  /** Why an operation raised: a bad call, a piece that is not mapped any more, a failed
      driver call of the operation proper, one that lost a canonical mapping, one in cleanup. */
  datatype Site = Rejected | NotMapped | Refused | MappingLost | CleanupFailed

  datatype Outcome = Done(bytes: nat) | Raised(site: Site)

  datatype Swap = Swapped | Kept | Lost

  class Allocation {
    const driver: Driver
    var va: nat
    var size: nat
    var hotBytes: int
    var handles: map<nat, Kind>
    var mappings: Entries
    var coldMapping: Option<Region>
    var promotedHandle: Option<nat>
    var coldChunks: seq<Region>
    var chunkPromoted: nat
    var freed: bool
    var layout: seq<Piece>
    ghost var temps: Ranges
    ghost var closing: bool

    /** An owner with nothing yet; `Build` gives it its range. */
    constructor (d: Driver)
      ensures driver == d && Now() == Books(0, 0, [], map[], map[], map[], None, None, [], 0, 0, false, false)
    {
      driver := d;
      va, size, hotBytes, handles, mappings := 0, 0, 0, map[], map[];
      coldMapping, promotedHandle, coldChunks, chunkPromoted, freed := None, None, [], 0, false;
      layout, temps, closing := [], map[], false;
    }

    // ---- Construction ----

    /** One handle per part, all created before any range is reserved. */
    method CreateAll(parts: seq<Part>) returns (ok: bool, hs: seq<nat>)
      requires driver.s.Valid()
      modifies driver
      ensures driver.s.Valid() && (ok <==> driver.failures == old(driver.failures))
      ensures ok ==> && PartsBacked(parts, hs, driver.s.live, driver.s.backings)
                     && driver.s.mappings == old(driver.s).mappings
                        && driver.s.reservations == old(driver.s).reservations
                     && OthersMemory(HandlesUpTo(parts, hs, |parts|), driver.s.live, driver.s.backings)
                        == OthersMemory(map[], old(driver.s).live, old(driver.s).backings)
    {
      hide State.Valid, OthersMemory;
      hs := [];
      for i := 0 to |parts|
        invariant driver.s.Valid() && driver.failures == old(driver.failures)
        invariant driver.s.mappings == old(driver.s).mappings && driver.s.reservations == old(driver.s).reservations
        invariant |hs| == i && PartsBacked(parts[..i], hs, driver.s.live, driver.s.backings)
        invariant OthersMemory(HandlesUpTo(parts[..i], hs, i), driver.s.live, driver.s.backings)
                  == OthersMemory(map[], old(driver.s).live, old(driver.s).backings)
      {
        ghost var s := driver.s;
        var h;
        ok, h := driver.Create(parts[i].size, Placement(parts[i].kind));
        if !ok { return; }
        OneMore(parts, hs, i, h, s, driver.s.backings[h]);
        hs := hs + [h];
      }
      ok := true;
      assert parts[..|parts|] == parts;
    }

    /** Map every part at its place and note it, as the constructor's loop does. */
    method MapParts(parts: seq<Part>, hs: seq<nat>) returns (ok: bool)
      requires |hs| == |parts| && PlanOk(parts, size) && hotBytes >= 0
      requires mappings == map[] && handles == map[] && coldMapping == None && coldChunks == []
      requires Consistent(PartlyOpen(parts, va, size, hs, hotBytes, 0), driver.s)
      requires PartsBacked(parts, hs, driver.s.live, driver.s.backings)
      modifies this`mappings, this`handles, this`coldMapping, this`coldChunks, driver
      ensures ok <==> driver.failures == old(driver.failures)
      ensures ok ==> && mappings == EntriesUpTo(parts, va, hs, |parts|) && handles == HandlesUpTo(parts, hs, |parts|)
                     && coldMapping == ColdUpTo(parts, va, hs, |parts|)
                        && coldChunks == ChunksUpTo(parts, va, hs, |parts|)
                     && Consistent(PartlyOpen(parts, va, size, hs, hotBytes, |parts|), driver.s)
                     && RestOf(PartlyOpen(parts, va, size, hs, hotBytes, |parts|), driver.s)
                        == old(RestOf(PartlyOpen(parts, va, size, hs, hotBytes, 0), driver.s))
    {
      hide Consistent, RestOf, State.Valid, PlanOk, PartsBacked, PartlyOpen, Reserved, Clear;
      var offset := 0;
      for i := 0 to |parts|
        invariant driver.failures == old(driver.failures) && offset == SizeSum(parts, i)
        invariant driver.s.live == old(driver.s).live && driver.s.backings == old(driver.s).backings
        invariant mappings == EntriesUpTo(parts, va, hs, i) && handles == HandlesUpTo(parts, hs, i)
        invariant coldMapping == ColdUpTo(parts, va, hs, i) && coldChunks == ChunksUpTo(parts, va, hs, i)
        invariant Consistent(PartlyOpen(parts, va, size, hs, hotBytes, i), driver.s)
        invariant RestOf(PartlyOpen(parts, va, size, hs, hotBytes, i), driver.s)
                  == old(RestOf(PartlyOpen(parts, va, size, hs, hotBytes, 0), driver.s))
      {
        var a := va + offset;
        NextPart(parts, va, size, hs, hotBytes, i, driver.s);
        ok := driver.MemMap(a, parts[i].size, hs[i]);
        if !ok { return; }
        handles := handles[hs[i] := parts[i].kind];
        mappings := mappings[a := Entry(parts[i].size, hs[i])];
        if parts[i].kind == Cold { coldMapping := Some(Region(a, parts[i].size, hs[i])); }
        if parts[i].kind == Chunk { coldChunks := coldChunks + [Region(a, parts[i].size, hs[i])]; }
        offset := offset + parts[i].size;
      }
      ok := true;
    }

    /** Build an allocation of at least `numBytes`, its first `|hotPages|` pages in device
        memory (all of them when `hotPages` is absent); an all-cold one may be chunked. */
    method Build(numBytes: int, hotPages: Option<set<nat>>, chunkPages: nat) returns (r: Outcome)
      requires Now() == Books(0, 0, [], map[], map[], map[], None, None, [], 0, 0, false, false) && driver.s.Valid()
      modifies this, driver
      ensures r == Raised(Rejected) <==> numBytes <= 0 || (hotPages.Some? && !PageChoiceOk(numBytes, hotPages.value))
      ensures r == Raised(Rejected) ==> Now() == old(Now()) && driver.s == old(driver.s)
      ensures r != Raised(Rejected) ==> (r.Done? <==> driver.failures == old(driver.failures))
      ensures r.Raised? ==> r.site == Rejected || r.site == Refused
      ensures r.Done? ==> && Usable() && Others() == Everything(old(driver.s)) && temps == map[] && !freed
                          && size == CeilDiv(numBytes, GRANULARITY) * GRANULARITY
                          && hotBytes == (if hotPages.Some? then |hotPages.value| * GRANULARITY else size)
                          && chunkPromoted == 0 && promotedHandle.None?
                          && (coldMapping.Some? <==> hotBytes < size && (hotBytes > 0 || chunkPages == 0))
                          && (coldChunks != [] <==> hotBytes == 0 && chunkPages > 0)
                          && (forall i | 0 <= i < |coldChunks| :: coldChunks[i].size <= chunkPages * GRANULARITY)
                          && (forall i | 0 <= i < |coldChunks| - 1 :: coldChunks[i].size == chunkPages * GRANULARITY)
    {
      hide Consistent, RestOf, State.Valid, Intact, PartsBacked, PlanOk, OthersMemory, EntriesUpTo, HandlesUpTo,
           ColdUpTo, ChunksUpTo, Layout, SizeSum;
      if numBytes <= 0 { return Raised(Rejected); }
      if hotPages.Some? { PrefixPages(hotPages.value); }
      var pages := CeilDiv(numBytes, GRANULARITY);
      if hotPages.Some? && !(|hotPages.value| <= pages && PrefixOfPages(hotPages.value)) { return Raised(Rejected); }
      var hot := if hotPages.Some? then |hotPages.value| else pages;
      CeilDivBounds(numBytes, GRANULARITY);
      var parts := CutParts(pages, hot, chunkPages);
      var ok := Open(parts, pages * GRANULARITY, hot * GRANULARITY);
      if !ok { return Raised(Refused); }
      PlanTells(parts, va, size, hot * GRANULARITY, coldMapping, coldChunks);
      return Done(0);
    }

    /** Create, reserve, map and grant access, in this order. */
    method Open(parts: seq<Part>, n: nat, hot: nat) returns (ok: bool)
      requires Now() == Books(0, 0, [], map[], map[], map[], None, None, [], 0, 0, false, false) && driver.s.Valid()
      requires PlanOk(parts, n) && |parts| > 0 && hot == if parts[0].kind == Hot then parts[0].size else 0
      modifies this, driver
      ensures ok <==> driver.failures == old(driver.failures)
      ensures ok ==> && Usable() && Others() == Everything(old(driver.s))
                     && exists hs :: |hs| == |parts| && Now() == PartlyOpen(parts, va, n, hs, hot, |parts|)
    {
      hide Consistent, RestOf, State.Valid, Intact, PartsBacked, PlanOk, OthersMemory, Clear, EntriesUpTo, HandlesUpTo,
           ColdUpTo, ChunksUpTo, Layout, Distinct;
      var hs;
      ok, hs := CreateAll(parts);
      if !ok { return; }
      PartsPositive(parts, n);
      BackedDistinct(parts, hs, driver.s.live, driver.s.backings);
      var base;
      ok, base := driver.AddressReserve(n);
      if !ok { return; }
      va, size, hotBytes, layout := base, n, hot, Layout(parts, base);
      Opened(parts, va, n, hs, hot, driver.s, old(driver.s));
      ok := MapOpen(parts, hs);
    }

    /** Map every part, then grant access over the whole range. */
    method MapOpen(parts: seq<Part>, hs: seq<nat>) returns (ok: bool)
      requires |hs| == |parts| > 0 && PlanOk(parts, size) && Distinct(hs)
      requires hotBytes == if parts[0].kind == Hot then parts[0].size else 0
      requires Now()
               == Books(va, size, Layout(parts, va), map[], map[], map[], None, None, [], 0, hotBytes, false, false)
      requires Consistent(PartlyOpen(parts, va, size, hs, hotBytes, 0), driver.s)
      requires PartsBacked(parts, hs, driver.s.live, driver.s.backings)
      modifies this`mappings, this`handles, this`coldMapping, this`coldChunks, driver
      ensures ok <==> driver.failures == old(driver.failures)
      ensures ok ==> && Usable() && Now() == PartlyOpen(parts, va, size, hs, hotBytes, |parts|)
                     && Others() == RestOf(PartlyOpen(parts, va, size, hs, hotBytes, 0), old(driver.s))
    {
      hide Consistent, RestOf, State.Valid, Intact, PartsBacked, PlanOk, EntriesUpTo, HandlesUpTo, ColdUpTo, ChunksUpTo,
           Layout, Distinct;
      ok := MapParts(parts, hs);
      if !ok { return; }
      Finished(parts, va, size, hs, hotBytes, driver.s, Now());
      SoundDriver(Now(), driver.s);
      ok := driver.SetAccess(va, size);
    }

    /** All fields as one value. */
    ghost function Now(): Books
      reads this
    {
      Books(va, size, layout, mappings, handles, temps, coldMapping, promotedHandle, coldChunks, chunkPromoted,
            hotBytes, freed, closing)
    }

    /** Holds between any two driver calls, whatever failed. */
    ghost predicate Sound()
      reads this, driver
    {
      Consistent(Now(), driver.s)
    }

    /** Everything in the driver that is not this owner's. */
    ghost function Others(): Rest
      reads this, driver
    {
      RestOf(Now(), driver.s)
    }

    ghost predicate Usable()
      reads this, driver
    {
      Sound() && Intact(Now(), driver.s)
    }

    // ---- _map and _unmap ----

    method MapAt(a: nat, n: nat, h: nat) returns (ok: bool)
      requires Sound() && !freed && a !in mappings
      requires IsTemp(temps, a, n) || (IsPiece(layout, a, n) && !closing && MayBack(Now(), a, h))
      requires h in handles && h in driver.s.backings && |driver.s.backings[h].bytes| == n
      modifies this`mappings, driver
      ensures Sound() && Others() == old(Others())
      ensures driver.failures == if ok then old(driver.failures) else old(driver.failures) + 1
      ensures ok ==> mappings == old(mappings)[a := Entry(n, h)] && driver.s == RemappedState(old(driver.s), a, n, h)
      ensures !ok ==> || (mappings == old(mappings) && driver.s == old(driver.s))
                      || (mappings == old(mappings)[a := Entry(n, h)]
                          && driver.s == old(driver.s).(mappings := old(driver.s).mappings[a := Mapping(n, h, false)]))
    {
      hide Consistent, RestOf, State.Valid;
      HeldHandle(Now(), driver.s, h);
      AfterMap(Now(), driver.s, a, n, h);
      SlotIsFree(Now(), driver.s, a, n);
      ok := driver.MemMap(a, n, h);
      if ok {
        mappings := mappings[a := Entry(n, h)];
        AfterGrant(Now(), driver.s, a, n);
        ok := driver.SetAccess(a, n);
      }
    }

    method UnmapAt(a: nat) returns (ok: bool)
      requires Sound() && a in mappings
      modifies this`mappings, driver
      ensures Sound() && Others() == old(Others())
      ensures driver.failures == if ok then old(driver.failures) else old(driver.failures) + 1
      ensures a in old(driver.s).mappings
      ensures mappings == if ok then old(mappings) - {a} else old(mappings)
      ensures driver.s == if ok then old(driver.s).Unmap(a) else old(driver.s)
    {
      hide Consistent, RestOf, State.Valid;
      SoundDriver(Now(), driver.s);
      AfterUnmap(Now(), driver.s, a);
      ok := driver.MemUnmap(a, mappings[a].size);
      if ok {
        mappings := mappings - {a};
      }
    }

    // ---- Promotion of the whole cold region ----

    /** The new handle mapped at the temporary range and filled with what `a` shows. */
    method CopyAside(temp: nat, a: nat, n: nat, hot: nat, ghost kind: Kind) returns (ok: bool)
      requires Sound() && !freed && a != temp && temp !in mappings
      requires Tracked(Now(), driver.s, Some(temp), hot, kind, n)
      modifies this`mappings, driver
      ensures Sound() && Others() == old(Others())
      ensures driver.failures == if ok then old(driver.failures) else old(driver.failures) + 1
      ensures SameElse(old(Now()), old(driver.s), Now(), driver.s, Some(temp), hot)
      ensures Tracked(Now(), driver.s, Some(temp), hot, kind, n)
      ensures ok ==> && temp in mappings && old(driver.s).Readable(a, n)
                     && driver.s.backings[hot] == old(driver.s).backings[hot].(bytes := old(driver.s).Bytes(a))
    {
      hide Consistent, RestOf, State.Valid, IsPiece, MayBack;
      ghost var b, s := Now(), driver.s;
      ok := MapAt(temp, n, hot);
      if ok {
        ok := CopyInto(temp, a, n, hot);
      }
    }

    /** Copy what `a` shows into the handle behind `temp`, and wait for it. */
    method CopyInto(temp: nat, a: nat, n: nat, ghost hot: nat) returns (ok: bool)
      requires Sound() && hot in handles && driver.s.Readable(temp, n) && driver.s.mappings[temp].handle == hot
      requires hot in driver.s.backings && |driver.s.backings[hot].bytes| == n
      modifies driver
      ensures Sound() && Others() == old(Others())
      ensures driver.failures == if ok then old(driver.failures) else old(driver.failures) + 1
      ensures hot in driver.s.backings && |driver.s.backings[hot].bytes| == n
      ensures driver.s == old(driver.s)
              || (old(driver.s).Readable(a, n)
                  && driver.s == old(driver.s).(backings :=
                                                old(driver.s).backings[hot :=
                                                    old(driver.s).backings[hot].(bytes := old(driver.s).Bytes(a))]))
      ensures ok ==> && old(driver.s).Readable(a, n)
                     && driver.s.backings
                        == old(driver.s).backings[hot := old(driver.s).backings[hot].(bytes := old(driver.s).Bytes(a))]
    {
      hide Consistent, RestOf, State.Valid;
      SoundDriver(Now(), driver.s);
      ghost var t := driver.s;
      ok := driver.MemcpyDtoD(temp, a, n);
      if ok {
        SizedCopy(t, a, n);
        AfterOverwrite(Now(), t, hot, t.backings[hot].(bytes := t.Bytes(a)));
        ok := driver.Synchronize();
      }
    }

    /** The way back after a remap failed at an unmapped piece: drop what is there, map
        `back`. */
    method Restore(a: nat, n: nat, back: nat) returns (ok: bool)
      requires Sound() && !freed && !closing && IsPiece(layout, a, n)
      requires a in mappings ==> mappings[a].handle in handles
      requires back in handles && back in driver.s.backings && |driver.s.backings[back].bytes| == n
               && MayBack(Now(), a, back)
      modifies this`mappings, driver
      ensures Sound() && Others() == old(Others())
      ensures driver.failures == if ok then old(driver.failures) else old(driver.failures) + 1
      ensures mappings - {a} == old(mappings) - {a}
      ensures driver.s == old(driver.s).(mappings := driver.s.mappings)
              && driver.s.mappings - {a} == old(driver.s).mappings - {a}
      ensures ok ==> && a in mappings && mappings[a] == Entry(n, back)
                     && a in driver.s.mappings && driver.s.mappings[a] == Mapping(n, back, true)
    {
      hide Consistent, RestOf, State.Valid, IsPiece, IsTemp;
      if a in mappings {
        HeldHandles(Now(), driver.s);
        ok := UnmapAt(a);
        if !ok { return; }
      }
      ok := MapAt(a, n, back);
    }

    /** Unmap a piece and map `to` there; if that fails, map `back` again. */
    method Remap(a: nat, n: nat, to: nat, back: nat) returns (r: Swap)
      requires Sound() && !freed && !closing && IsPiece(layout, a, n)
      requires a in mappings && mappings[a].handle in handles
      requires to in handles && to in driver.s.backings && |driver.s.backings[to].bytes| == n && MayBack(Now(), a, to)
      requires back in handles && back in driver.s.backings && |driver.s.backings[back].bytes| == n
               && MayBack(Now(), a, back)
      modifies this`mappings, driver
      ensures Sound() && Others() == old(Others())
      ensures r.Swapped? ==> && driver.failures == old(driver.failures)
                             && mappings == old(mappings)[a := Entry(n, to)]
                             && driver.s == RemappedState(old(driver.s), a, n, to)
      ensures r.Kept? ==> && driver.failures == old(driver.failures) + 1
                          && (old(MappedTo(Now(), driver.s, a, n, back)) ==>
                                mappings == old(mappings) && driver.s == old(driver.s))
      ensures r.Lost? ==> driver.failures == old(driver.failures) + 2
      ensures mappings - {a} == old(mappings) - {a}
      ensures driver.s == old(driver.s).(mappings := driver.s.mappings)
              && driver.s.mappings - {a} == old(driver.s).mappings - {a}
    {
      hide Consistent, RestOf, State.Valid, IsPiece, IsTemp;
      ghost var m, d := mappings, driver.s.mappings;
      HeldHandles(Now(), driver.s);
      var ok := UnmapAt(a);
      if !ok { return Kept; }
      ok := MapAt(a, n, to);
      if ok {
        SameBut(mappings, m, a, Entry(n, to));
        SameBut(driver.s.mappings, d, a, Mapping(n, to, true));
        return Swapped;
      }
      ok := Restore(a, n, back);
      if !ok { return Lost; }
      SameBut(mappings, m, a, Entry(n, back));
      SameBut(driver.s.mappings, d, a, Mapping(n, back, true));
      return Kept;
    }

    /** First half of the cleanup: the temporary mapping and its range. */
    method DropTemporary(temp: nat, n: nat) returns (ok: bool)
      requires Sound() && !freed && IsTemp(temps, temp, n)
      requires temp in mappings ==> mappings[temp].handle in handles
      modifies this`mappings, this`temps, driver
      ensures Sound() && Others() == old(Others())
      ensures driver.failures == if ok then old(driver.failures) else old(driver.failures) + 1
      ensures mappings - {temp} == old(mappings) - {temp} && temps - {temp} == old(temps) - {temp}
      ensures driver.s == old(driver.s).(mappings := driver.s.mappings, reservations := driver.s.reservations)
      ensures driver.s.mappings - {temp} == old(driver.s).mappings - {temp}
      ensures driver.s.reservations - {temp} == old(driver.s).reservations - {temp}
      ensures ok ==> temp !in mappings && temp !in temps && temp !in driver.s.reservations
      ensures ok && (temp in old(mappings) <==> temp in old(driver.s).mappings) ==> temp !in driver.s.mappings
    {
      hide Consistent, RestOf, State.Valid, IsPiece;
      ok := true;
      if temp in mappings {
        HeldHandles(Now(), driver.s);
        ok := UnmapAt(temp);
        if !ok { return; }
      }
      SoundDriver(Now(), driver.s);
      AfterUnreserve(Now(), driver.s, temp);
      ok := driver.AddressFree(temp, n);
      if ok { temps := temps - {temp}; }
    }

    /** Second half: the new handle, unless some recorded mapping uses it. */
    method DropHandle(hot: nat) returns (ok: bool)
      requires Sound() && !freed && hot in handles && (handles[hot] == Cache || handles[hot] == ChunkHot)
      requires promotedHandle == Some(hot) ==> InUse(mappings, hot)
      modifies this`handles, driver
      ensures Sound() && Others() == old(Others())
      ensures driver.failures == if ok then old(driver.failures) else old(driver.failures) + 1
      ensures ok ==> && handles == (if InUse(mappings, hot) then old(handles) else old(handles) - {hot})
                     && driver.s == (if InUse(mappings, hot) then old(driver.s) else old(driver.s).Release(hot))
      ensures !ok ==> handles == old(handles) && driver.s == old(driver.s) && !InUse(mappings, hot)
    {
      hide Consistent, RestOf, State.Valid, IsPiece;
      ok := true;
      if !exists a :: a in mappings && mappings[a].handle == hot {
        UnusedHandle(Now(), driver.s, hot);
        SoundDriver(Now(), driver.s);
        AfterRelease(Now(), driver.s, hot, Now().(handles := handles - {hot}));
        ok := driver.Release(hot);
        if ok { handles := handles - {hot}; }
      }
    }

    /** The temporary range, if one was reserved. */
    method DropSpot(temp: Option<nat>, n: nat, ghost hot: nat) returns (ok: bool)
      requires Sound() && !freed && hot in handles && hot in driver.s.live
      requires temp.Some? ==>
                 && IsTemp(temps, temp.value, n) && (temp.value in mappings <==> temp.value in driver.s.mappings)
                 && (temp.value in mappings ==>
                     mappings[temp.value].handle == hot == driver.s.mappings[temp.value].handle)
      modifies this`mappings, this`temps, driver
      ensures Sound() && Others() == old(Others())
      ensures driver.failures == if ok then old(driver.failures) else old(driver.failures) + 1
      ensures driver.s.backings == old(driver.s).backings && driver.s.live == old(driver.s).live
      ensures SameElse(old(Now()), old(driver.s), Now(), driver.s, temp, hot)
      ensures InUse(old(mappings) - Spot(temp), hot) ==> InUse(mappings - Spot(temp), hot)
      ensures ok ==> && mappings == old(mappings) - Spot(temp) && temps == old(temps) - Spot(temp)
                     && driver.s == WithoutTemp(old(driver.s), temp)
    {
      hide Consistent, RestOf, State.Valid, IsPiece, InUse;
      ghost var b, s := Now(), driver.s;
      if temp.Some? {
        ok := DropTemporary(temp.value, n);
        if ok { Dropped(b, s, Now(), driver.s, temp.value, hot); }
      } else {
        ok := true;
        NoSpot(mappings, temps);
      }
    }

    /** The `finally` part of a promotion. */
    method CleanUp(temp: Option<nat>, n: nat, hot: nat, ghost kind: Kind) returns (ok: bool)
      requires Sound() && !freed && (kind == Cache || kind == ChunkHot)
      requires Tracked(Now(), driver.s, temp, hot, kind, n)
      requires promotedHandle == Some(hot) ==> InUse(mappings - Spot(temp), hot)
      modifies this`mappings, this`handles, this`temps, driver
      ensures Sound() && Others() == old(Others())
      ensures driver.failures == if ok then old(driver.failures) else old(driver.failures) + 1
      ensures SameElse(old(Now()), old(driver.s), Now(), driver.s, temp, hot)
      ensures InUse(old(mappings) - Spot(temp), hot) ==>
                Tracked(Now(), driver.s, None, hot, kind, n) && driver.s.backings[hot] == old(driver.s).backings[hot]
      ensures ok ==> && Now() == SweptBooks(old(Now()), temp, hot)
                     && driver.s == SweptState(old(Now()), old(driver.s), temp, hot)
    {
      hide Consistent, RestOf, State.Valid, IsPiece, SameElse, InUse, WithoutTemp;
      ghost var b, s := Now(), driver.s;
      SweepKeepsElse(b, s, temp, hot);
      ok := DropSpot(temp, n, hot);
      if ok { ok := DropHandle(hot); }
    }

    /** A temporary range of `n` bytes. */
    method ReserveAside(n: nat) returns (ok: bool, t: nat)
      requires Sound() && !freed && n > 0
      modifies this`temps, driver
      ensures Sound() && Others() == old(Others())
      ensures driver.failures == if ok then old(driver.failures) else old(driver.failures) + 1
      ensures ok ==> && Now() == old(Now()).(temps := old(temps)[t := n]) && driver.s == old(driver.s).Reserve(t, n)
                     && UnknownSpot(old(Now()), old(driver.s), Some(t))
      ensures !ok ==> Now() == old(Now()) && driver.s == old(driver.s)
    {
      hide Consistent, RestOf, State.Valid;
      ghost var b, s := Now(), driver.s;
      SoundDriver(b, s);
      ok, t := driver.AddressReserve(n);
      if ok {
        AfterReserve(b, s, t, n);
        FreshRange(b, s, t, n);
        temps := temps[t := n];
      }
    }

    /** Reserve a temporary range and copy what piece `a` shows into the new handle. */
    method PrepareAside(a: nat, n: nat, hot: nat, ghost kind: Kind) returns (ok: bool, temp: Option<nat>)
      requires Sound() && !freed && IsPiece(layout, a, n) && Tracked(Now(), driver.s, None, hot, kind, n)
      modifies this`mappings, this`temps, driver
      ensures Sound() && Others() == old(Others())
      ensures driver.failures == if ok then old(driver.failures) else old(driver.failures) + 1
      ensures SameElse(old(Now()), old(driver.s), Now(), driver.s, temp, hot)
      ensures Tracked(Now(), driver.s, temp, hot, kind, n) && UnknownSpot(old(Now()), old(driver.s), temp)
      ensures ok ==> && temp.Some? && temp.value != a && temp.value in mappings
                     && old(driver.s).Readable(a, n) && driver.s.Readable(a, n)
                     && driver.s.backings[hot] == old(driver.s).backings[hot].(bytes := old(driver.s).Bytes(a))
    {
      hide Consistent, RestOf, State.Valid, IsPiece;
      ghost var b, s := Now(), driver.s;
      RegionPositive(b, s, a, n);
      var t;
      temp := None;
      ok, t := ReserveAside(n);
      if !ok {
        SameElseReflexive(b, s, None, hot);
        return;
      }
      temp := Some(t);
      ReservedAside(b, s, t, n, hot, kind);
      RegionPositive(Now(), driver.s, a, n);
      ghost var c, u := Now(), driver.s;
      ok := CopyAside(t, a, n, hot, kind);
      SameElseChain(b, s, c, u, Now(), driver.s, temp, hot);
      KeptOutside(driver.s.mappings, u.mappings, {t}, a);
      if ok { StillReadable(u, driver.s, a, n, hot); }
    }

    /** Swap the canonical mapping of the cold region for the prepared handle. */
    method SwapIn(cold: Region, hot: nat, ghost temp: nat) returns (r: Outcome)
      requires Sound() && !freed && coldMapping == Some(cold) && promotedHandle.None?
      requires Tracked(Now(), driver.s, Some(temp), hot, Cache, cold.size)
      requires driver.s.Readable(cold.addr, cold.size) && temp != cold.addr
      modifies this`mappings, this`promotedHandle, this`hotBytes, driver
      ensures Sound() && Others() == old(Others())
      ensures Tracked(Now(), driver.s, Some(temp), hot, Cache, cold.size) && driver.s.backings == old(driver.s).backings
      ensures r.Done? ==> && driver.failures == old(driver.failures) && r.bytes == cold.size
                          && Now() == old(Now()).(mappings := old(mappings)[cold.addr := Entry(cold.size, hot)],
                                                  promotedHandle := Some(hot), hotBytes := old(hotBytes) + cold.size)
                          && driver.s == RemappedState(old(driver.s), cold.addr, cold.size, hot)
      ensures r.Raised? ==> || (r.site == Refused && driver.failures == old(driver.failures) + 1)
                            || (r.site == MappingLost && driver.failures == old(driver.failures) + 2)
      ensures r.Raised? ==> promotedHandle.None?
      ensures r == Raised(Refused) && old(MappedTo(Now(), driver.s, cold.addr, cold.size, cold.handle)) ==>
                Now() == old(Now()) && driver.s == old(driver.s)
    {
      hide Consistent, RestOf, State.Valid, IsPiece;
      ghost var m, d := mappings, driver.s.mappings;
      ColdRegion(Now(), driver.s);
      ReadablePiece(Now(), driver.s, cold.addr, cold.size);
      ColdIsHeldAnyway(Now(), driver.s);
      ColdMayBack(Now(), driver.s, hot);
      ColdMayBack(Now(), driver.s, cold.handle);
      var swap := Remap(cold.addr, cold.size, hot, cold.handle);
      KeptOutside(mappings, m, {cold.addr}, temp);
      KeptOutside(driver.s.mappings, d, {cold.addr}, temp);
      if swap.Swapped? {
        NotePromotion(Now(), driver.s, hot, hotBytes + cold.size);
        promotedHandle := Some(hot);
        hotBytes := hotBytes + cold.size;
        return Done(cold.size);
      }
      return Raised(if swap.Lost? then MappingLost else Refused);
    }

    /** The body of the promotion's `try`. */
    method TryPromotion(cold: Region, hot: nat) returns (r: Outcome, temp: Option<nat>)
      requires Sound() && !freed && coldMapping == Some(cold) && promotedHandle.None?
      requires Tracked(Now(), driver.s, None, hot, Cache, cold.size) && driver.s.backings[hot].location == Device
      modifies this`mappings, this`temps, this`promotedHandle, this`hotBytes, driver
      ensures Sound() && Others() == old(Others())
      ensures Tracked(Now(), driver.s, temp, hot, Cache, cold.size) && UnknownSpot(old(Now()), old(driver.s), temp)
      ensures temps - Spot(temp) == old(temps) - Spot(temp)
      ensures promotedHandle == Some(hot) ==> InUse(mappings - Spot(temp), hot)
      ensures r.Done? ==> && driver.failures == old(driver.failures) && r.bytes == cold.size
                          && old(driver.s).Readable(cold.addr, cold.size)
                          && driver.s.backings[hot] == Backing(Device, old(driver.s).Bytes(cold.addr))
                          && SameElse(PromotedBooks(old(Now()), hot),
                                      ReplacedState(old(driver.s), cold.addr, cold.size, hot),
                                      Now(), driver.s, temp, hot)
      ensures r.Raised? ==> || (r.site == Refused && driver.failures == old(driver.failures) + 1)
                            || (r.site == MappingLost && driver.failures == old(driver.failures) + 2)
      ensures r == Raised(Refused) && old(Intact(Now(), driver.s)) ==>
                SameElse(old(Now()), old(driver.s), Now(), driver.s, temp, hot)
    {
      hide Consistent, RestOf, State.Valid, Intact, IsPiece;
      ghost var b, s := Now(), driver.s;
      ColdRegion(b, s);
      var ok;
      ok, temp := PrepareAside(cold.addr, cold.size, hot, Cache);
      if !ok { return Raised(Refused), temp; }
      ghost var c, u := Now(), driver.s;
      if Intact(b, s) {
        ColdMapped(b, s);
        KeptOutside(c.mappings, b.mappings, Spot(temp), cold.addr);
        KeptOutside(u.mappings, s.mappings, Spot(temp), cold.addr);
      }
      r := SwapIn(cold, hot, temp.value);
      if r.Done? {
        SwapAside(b, s, c, u, temp.value, hot);
        assert cold.addr in mappings - Spot(temp) && (mappings - Spot(temp))[cold.addr].handle == hot;
      }
    }

    /** A promotion is called for and affordable. */
    ghost predicate Due(budget: int)
      reads this
    {
      0 <= budget && !freed && coldMapping.Some? && promotedHandle.None? && coldMapping.value.size <= budget
    }

    /** Wait for the device, then create a device handle and note it. */
    method NewHandle(n: nat, kind: Kind) returns (ok: bool, hot: nat, ghost memory: Backing)
      requires Sound() && !freed && (kind == Cache || kind == ChunkHot)
      modifies this`handles, driver
      ensures Sound() && Others() == old(Others())
      ensures driver.failures == if ok then old(driver.failures) else old(driver.failures) + 1
      ensures !ok ==> Now() == old(Now()) && driver.s == old(driver.s)
      ensures ok ==> && hot !in old(driver.s).backings && Now() == old(Now()).(handles := old(handles)[hot := kind])
                     && driver.s == old(driver.s).Create(hot, memory) && Tracked(Now(), driver.s, None, hot, kind, n)
                     && driver.s.backings[hot].location == Device && !InUse(mappings, hot) && hot !in old(handles)
    {
      hide Consistent, RestOf, State.Valid, InUse;
      ghost var b, s := Now(), driver.s;
      hot, memory := 0, Backing(Device, []);
      SoundDriver(b, s);
      ok := driver.Synchronize();
      if !ok { return; }
      ok, hot := driver.Create(n, Device);
      if !ok { return; }
      memory := driver.s.backings[hot];
      AfterCreate(b, s, hot, kind, memory);
      FreshHandle(b, s, hot);
      handles := handles[hot := kind];
    }

    /** Move the whole cold region to device memory under its fixed addresses. */
    method PromoteUpTo(budget: int) returns (r: Outcome)
      requires Sound()
      modifies this`mappings, this`handles, this`temps, this`promotedHandle, this`hotBytes, driver
      ensures Sound() && Others() == old(Others())
      ensures driver.failures >= old(driver.failures)
      ensures !old(Due(budget)) ==> && r == (if budget < 0 || freed then Raised(Rejected) else Done(0))
                                    && Now() == old(Now()) && driver.s == old(driver.s)
      ensures old(Due(budget)) && driver.failures == old(driver.failures) ==> r.Done?
      ensures old(Due(budget)) && old(Usable()) && r.Done? ==>
                && r.bytes == coldMapping.value.size && promotedHandle.Some?
                   && promotedHandle.value !in old(driver.s).backings
                && Now() == PromotedBooks(old(Now()), promotedHandle.value)
                && old(driver.s).Readable(coldMapping.value.addr, r.bytes)
                && driver.s == ReplacedState(old(driver.s), coldMapping.value.addr, r.bytes, promotedHandle.value)
      ensures old(Usable()) && r == Raised(Refused) ==> Now() == old(Now()) && driver.s == old(driver.s)
      ensures r != Raised(CleanupFailed) ==> temps == old(temps)
      ensures old(Usable()) && driver.failures <= old(driver.failures) + 1 ==>
                Usable() && Contents(Now(), driver.s) == old(Contents(Now(), driver.s))
      ensures r.Raised? ==> || r.site == Rejected || r.site == Refused || r.site == CleanupFailed
                            || driver.failures >= old(driver.failures) + 2
      ensures r == Raised(Rejected) ==> !old(Due(budget))
    {
      hide Consistent, RestOf, State.Valid, Intact, Contents, SameElse, ReplacedState, SweptState, InUse;
      ghost var b, s := Now(), driver.s;
      if budget < 0 || freed { return Raised(Rejected); }
      if coldMapping.None? || promotedHandle.Some? { return Done(0); }
      var cold := coldMapping.value;
      if budget < cold.size { return Done(0); }
      r := PromoteCold(cold);
    }

    /** The promotion proper. */
    method PromoteCold(cold: Region) returns (r: Outcome)
      requires Sound() && !freed && coldMapping == Some(cold) && promotedHandle.None?
      modifies this`mappings, this`handles, this`temps, this`promotedHandle, this`hotBytes, driver
      ensures Sound() && Others() == old(Others())
      ensures driver.failures >= old(driver.failures)
      ensures driver.failures == old(driver.failures) ==> r.Done?
      ensures old(Usable()) && r.Done? ==>
                && r.bytes == cold.size && promotedHandle.Some? && promotedHandle.value !in old(driver.s).backings
                && Now() == PromotedBooks(old(Now()), promotedHandle.value)
                && old(driver.s).Readable(cold.addr, cold.size)
                && driver.s == ReplacedState(old(driver.s), cold.addr, cold.size, promotedHandle.value)
      ensures old(Usable()) && r == Raised(Refused) ==> Now() == old(Now()) && driver.s == old(driver.s)
      ensures r != Raised(CleanupFailed) ==> temps == old(temps)
      ensures old(Usable()) && driver.failures <= old(driver.failures) + 1 ==>
                Usable() && Contents(Now(), driver.s) == old(Contents(Now(), driver.s))
      ensures r.Raised? ==> r.site == Refused || r.site == CleanupFailed || driver.failures >= old(driver.failures) + 2
      ensures r != Raised(Rejected)
    {
      hide Consistent, RestOf, State.Valid, Intact, Contents, SameElse, ReplacedState, SweptState, InUse, State.Create;
      ghost var b, s := Now(), driver.s;
      var ok, hot, memory := NewHandle(cold.size, Cache);
      if !ok { return Raised(Refused); }
      ghost var b1, s1 := Now(), driver.s;
      var temp;
      r, temp := TryPromotion(cold, hot);
      ghost var c, u := Now(), driver.s;
      ok := CleanUp(temp, cold.size, hot, Cache);
      if ok { SweptTemps(b1, s1, c, temp); }
      if Intact(b, s) { PromotionVerdict(b, s, hot, memory, r, c, u, temp, ok, Now(), driver.s); }
      if !ok { r := Raised(CleanupFailed); }
    }

    // ---- Eviction ----

    /** Swap the canonical mapping of a promoted cold region back to its own handle. */
    method SwapBack(cold: Region, hot: nat) returns (r: Swap)
      requires Sound() && !freed && coldMapping == Some(cold) && promotedHandle == Some(hot) && cold.addr in mappings
      modifies this`mappings, this`promotedHandle, this`hotBytes, driver
      ensures Sound() && Others() == old(Others())
      ensures r.Swapped? ==> && driver.failures == old(driver.failures)
                             && Now() == old(Now()).(mappings :=
                                                     old(mappings)[cold.addr := Entry(cold.size, cold.handle)],
                                                     promotedHandle := None, hotBytes := old(hotBytes) - cold.size)
                             && driver.s == RemappedState(old(driver.s), cold.addr, cold.size, cold.handle)
                             && !closing && hot in handles
                                && FallbacksHeld(Now().(handles := handles - {hot}), driver.s.backings)
      ensures r.Kept? ==> && driver.failures == old(driver.failures) + 1
                          && (old(MappedTo(Now(), driver.s, cold.addr, cold.size, hot)) ==>
                              Now() == old(Now()) && driver.s == old(driver.s))
      ensures r.Lost? ==> driver.failures == old(driver.failures) + 2
    {
      hide Consistent, RestOf, State.Valid, IsPiece, MayBack, FallbacksHeld;
      ghost var b, s := Now(), driver.s;
      MappedIsHeld(b, s);
      ColdRegion(b, s);
      ColdIsHeldAnyway(b, s);
      ColdMayBack(b, s, hot);
      ColdMayBack(b, s, cold.handle);
      r := Remap(cold.addr, cold.size, cold.handle, hot);
      if r.Swapped? {
        NoteEviction(Now(), driver.s, hot, hotBytes - cold.size);
        promotedHandle := None;
        hotBytes := hotBytes - cold.size;
      }
    }

    /** Show the retained host memory of a promoted cold region again. */
    method EvictPromoted() returns (r: Outcome)
      requires Sound()
      modifies this`mappings, this`handles, this`promotedHandle, this`hotBytes, driver
      ensures Sound() && Others() == old(Others())
      ensures driver.failures >= old(driver.failures)
      ensures freed || old(promotedHandle).None? ==> && r == (if freed then Raised(Rejected) else Done(0))
                                                     && Now() == old(Now()) && driver.s == old(driver.s)
      ensures old(Usable()) && driver.failures == old(driver.failures) ==> r.Done?
      ensures old(Usable()) && old(promotedHandle).Some? && r.Done? ==>
                && r.bytes == coldMapping.value.size && Now() == EvictedBooks(old(Now()))
                && driver.s == RemappedState(old(driver.s), coldMapping.value.addr, r.bytes, coldMapping.value.handle)
                                 .Release(old(promotedHandle).value)
      ensures old(Usable()) && r == Raised(Refused) ==> Now() == old(Now()) && driver.s == old(driver.s)
      ensures old(Usable()) && r == Raised(CleanupFailed) ==>
                && old(promotedHandle).Some? && driver.failures == old(driver.failures) + 1
                && Now() == EvictedBooks(old(Now())).(handles := old(handles))
                && driver.s == RemappedState(old(driver.s), coldMapping.value.addr, coldMapping.value.size,
                                             coldMapping.value.handle)
                && Usable()
      ensures r == Raised(Rejected) ==> freed
      ensures old(Usable()) && r.Raised? ==>
                r.site == Refused || r.site == CleanupFailed || driver.failures >= old(driver.failures) + 2
    {
      hide Consistent, RestOf, State.Valid, Intact, FallbacksHeld;
      ghost var b, s := Now(), driver.s;
      if Intact(b, s) { IntactIsOpen(b, s); }
      if freed { return Raised(Rejected); }
      if promotedHandle.None? { return Done(0); }
      PromotedHasCold(b, s);
      if Intact(b, s) { ColdMapped(b, s); }
      var ok := driver.Synchronize();
      if !ok { return Raised(Refused); }
      var cold, hot := coldMapping.value, promotedHandle.value;
      if cold.addr !in mappings { return Raised(NotMapped); }
      var swap := SwapBack(cold, hot);
      if !swap.Swapped? { return Raised(if swap.Lost? then MappingLost else Refused); }
      SoundDriver(Now(), driver.s);
      AfterRelease(Now(), driver.s, hot, Now().(handles := handles - {hot}));
      ok := driver.Release(hot);
      if !ok {
        if Intact(b, s) { EvictionUnreleased(b, s); }
        return Raised(CleanupFailed);
      }
      handles := handles - {hot};
      return Done(cold.size);
    }

    // ---- Promotion of the next chunk ----

    /** Unmap the temporary, unmap the chunk, map the new handle. There is no way back once
        the chunk is unmapped. */
    method SwapChunk(a: nat, n: nat, hot: nat, temp: nat) returns (r: Swap)
      requires Sound() && !freed && IsPiece(layout, a, n) && a != temp && temp in mappings
      requires Tracked(Now(), driver.s, Some(temp), hot, ChunkHot, n) && driver.s.Readable(a, n)
      modifies this`mappings, driver
      ensures Sound() && Others() == old(Others())
      ensures driver.failures == if r.Swapped? then old(driver.failures) else old(driver.failures) + 1
      ensures Tracked(Now(), driver.s, Some(temp), hot, ChunkHot, n)
      ensures driver.s == old(driver.s).(mappings := driver.s.mappings)
      ensures r.Kept? ==>
                mappings - {temp} == old(mappings) - {temp}
                && driver.s.mappings - {temp} == old(driver.s).mappings - {temp}
      ensures r.Swapped? ==> && !closing && temp !in mappings
                             && mappings - {temp} == (old(mappings) - {temp})[a := Entry(n, hot)]
                             && driver.s.mappings - {temp}
                                == (old(driver.s).mappings - {temp})[a := Mapping(n, hot, true)]
    {
      hide Consistent, RestOf, State.Valid, IsPiece, MayBack;
      ghost var m, d := mappings, driver.s.mappings;
      ReadablePiece(Now(), driver.s, a, n);
      HeldHandles(Now(), driver.s);
      var ok := UnmapAt(temp);
      if !ok { return Kept; }
      HeldHandles(Now(), driver.s);
      ok := UnmapAt(a);
      if !ok { return Kept; }
      ChunkMayBack(Now(), driver.s, a, hot);
      ok := MapAt(a, n, hot);
      if !ok { return Lost; }
      Replaced(m, temp, a, Entry(n, hot));
      Replaced(d, temp, a, Mapping(n, hot, true));
      return Swapped;
    }

    /** The chunk's host memory given up unless kept; the chunk counted as promoted. */
    method CountChunk(chunk: Region, hot: nat, keepHost: bool) returns (ok: bool)
      requires Sound() && !freed && !closing && chunkPromoted < |coldChunks| && chunk == coldChunks[chunkPromoted]
      requires chunk.addr in mappings && mappings[chunk.addr].handle == hot && hot in handles
               && handles[hot] == ChunkHot
      modifies this`handles, this`chunkPromoted, this`hotBytes, driver
      ensures Sound() && Others() == old(Others())
      ensures driver.failures == if ok then old(driver.failures) else old(driver.failures) + 1
      ensures ok ==> && chunkPromoted == old(chunkPromoted) + 1 && hotBytes == old(hotBytes) + chunk.size
                     && handles == (if keepHost then old(handles) else old(handles) - {chunk.handle})
                     && driver.s == (if keepHost then old(driver.s) else old(driver.s).Release(chunk.handle))
      ensures !ok ==> Now() == old(Now()) && driver.s == old(driver.s)
    {
      hide Consistent, RestOf, State.Valid, FallbacksHeld;
      ok := true;
      SoundDriver(Now(), driver.s);
      NoteChunk(Now(), driver.s, hot, hotBytes + chunk.size);
      if !keepHost {
        AfterRelease(Now(), driver.s, chunk.handle,
                     Now().(handles := handles - {chunk.handle}, chunkPromoted := chunkPromoted + 1,
                            hotBytes := hotBytes + chunk.size));
        ok := driver.Release(chunk.handle);
        if !ok { return; }
        handles := handles - {chunk.handle};
      }
      chunkPromoted := chunkPromoted + 1;
      hotBytes := hotBytes + chunk.size;
    }

    /** The swap, if the copy was made, and the temporary dropped in any case. */
    method SwapAndDrop(chunk: Region, h: nat, temp: nat, prepared: bool) returns (swap: Swap, clean: bool)
      requires Sound() && !freed && IsPiece(layout, chunk.addr, chunk.size)
               && Tracked(Now(), driver.s, Some(temp), h, ChunkHot, chunk.size)
      requires prepared ==> temp != chunk.addr && temp in mappings && driver.s.Readable(chunk.addr, chunk.size)
      modifies this`mappings, this`temps, driver
      ensures Sound() && Others() == old(Others())
      ensures driver.failures
              == old(driver.failures) + (if prepared && !swap.Swapped? then 1 else 0) + (if clean then 0 else 1)
      ensures temps - {temp} == old(temps) - {temp}
      ensures driver.s == old(driver.s).(mappings := driver.s.mappings, reservations := driver.s.reservations)
      ensures driver.s.reservations - {temp} == old(driver.s).reservations - {temp}
      ensures clean ==>
                temp !in mappings && temp !in temps && temp !in driver.s.mappings && temp !in driver.s.reservations
      ensures swap.Kept? ==>
                mappings - {temp} == old(mappings) - {temp}
                && driver.s.mappings - {temp} == old(driver.s).mappings - {temp}
      ensures swap.Swapped? ==> && prepared && !closing
                                && mappings - {temp} == (old(mappings) - {temp})[chunk.addr := Entry(chunk.size, h)]
                                && driver.s.mappings - {temp}
                                   == (old(driver.s).mappings - {temp})[chunk.addr := Mapping(chunk.size, h, true)]
      ensures swap.Lost? ==> prepared
    {
      hide Consistent, RestOf, State.Valid, IsPiece;
      swap := Kept;
      if prepared { swap := SwapChunk(chunk.addr, chunk.size, h, temp); }
      clean := DropTemporary(temp, chunk.size);
    }

    /** The driver side of a chunk promotion: copy aside, swap, drop the temporary. A
        failed reservation leaves the new handle noted for `free`. */
    method SwapInChunk(chunk: Region, h: nat) returns (r: Outcome)
      requires Sound() && !freed && IsPiece(layout, chunk.addr, chunk.size)
      requires Tracked(Now(), driver.s, None, h, ChunkHot, chunk.size) && driver.s.backings[h].location == Device
      modifies this`mappings, this`temps, driver
      ensures Sound() && Others() == old(Others())
      ensures driver.failures == old(driver.failures) <==> r.Done?
      ensures driver.failures >= old(driver.failures)
      ensures r != Raised(CleanupFailed) ==> temps == old(temps)
      ensures r == Raised(Refused) ==> SameElse(old(Now()), old(driver.s), Now(), driver.s, None, h)
      ensures r != Raised(Rejected)
      ensures r.Done? ==> && !closing && old(driver.s).Readable(chunk.addr, chunk.size) && r.bytes == chunk.size
                          && Now() == old(Now()).(mappings := old(mappings)[chunk.addr := Entry(chunk.size, h)])
                          && driver.s == ReplacedState(old(driver.s), chunk.addr, chunk.size, h)
    {
      hide Consistent, RestOf, State.Valid, IsPiece, ReplacedState;
      ghost var b, s := Now(), driver.s;
      var prepared, temp := PrepareAside(chunk.addr, chunk.size, h, ChunkHot);
      if temp.None? {
        NoTemps(b, s, Now(), driver.s, h);
        return Raised(Refused);
      }
      ghost var c, u := Now(), driver.s;
      var swap, clean := SwapAndDrop(chunk, h, temp.value, prepared);
      if !clean { return Raised(CleanupFailed); }
      if swap.Lost? {
        TempsRestored(b, s, c, u, temps, temp.value, h);
        return Raised(MappingLost);
      }
      if swap.Kept? {
        SpotGone(b, s, Now(), driver.s, temp.value, h);
        return Raised(Refused);
      }
      ChunkSwapped(b, s, c, u, Now(), driver.s, chunk, temp.value, h);
      return Done(chunk.size);
    }

    /** Move the next cold chunk to device memory under its fixed addresses. */
    method PromoteChunk(keepHost: bool) returns (r: Outcome, ghost hot: nat)
      requires Sound()
      modifies this`mappings, this`handles, this`temps, this`chunkPromoted, this`hotBytes, driver
      ensures Sound() && Others() == old(Others())
      ensures driver.failures >= old(driver.failures)
      ensures freed || old(chunkPromoted) >= |coldChunks| ==>
                r == Done(0) && Now() == old(Now()) && driver.s == old(driver.s)
      ensures driver.failures == old(driver.failures) ==> r.Done?
      ensures !freed && old(chunkPromoted) < |coldChunks| && r.Done? ==>
                && hot !in old(driver.s).backings && r.bytes == coldChunks[old(chunkPromoted)].size
                && old(driver.s).Readable(coldChunks[old(chunkPromoted)].addr, r.bytes)
                && Now() == ChunkBooks(old(Now()), hot, keepHost)
                && driver.s == ChunkState(old(Now()), old(driver.s), hot, keepHost)
                && (coldChunks[old(chunkPromoted)].handle in handles <==> keepHost)
                && (coldChunks[old(chunkPromoted)].handle in driver.s.live <==> keepHost)
      ensures r != Raised(CleanupFailed) ==> temps == old(temps)
      ensures r == Raised(Refused) ==>
                || (Now() == old(Now()) && driver.s == old(driver.s))
                || (hot !in old(driver.s).backings && SameElse(old(Now()), old(driver.s), Now(), driver.s, None, hot))
      ensures old(Usable()) && r == Raised(Refused) ==>
                Usable() && Contents(Now(), driver.s) == old(Contents(Now(), driver.s))
      ensures r != Raised(Rejected)
    {
      hide Consistent, RestOf, State.Valid, Intact, Contents, SameElse, ReplacedState, ChunkBooks, ChunkState;
      hot := 0;
      if freed || chunkPromoted >= |coldChunks| { return Done(0), hot; }
      ghost var b, s := Now(), driver.s;
      r, hot := PromoteNext(keepHost);
      if r.Done? { HostHandleKept(b, s, hot, keepHost); }
    }

    method PromoteNext(keepHost: bool) returns (r: Outcome, ghost hot: nat)
      requires Sound() && !freed && chunkPromoted < |coldChunks|
      modifies this`mappings, this`handles, this`temps, this`chunkPromoted, this`hotBytes, driver
      ensures Sound() && Others() == old(Others())
      ensures driver.failures >= old(driver.failures)
      ensures driver.failures == old(driver.failures) ==> r.Done?
      ensures r.Done? ==>
                && hot !in old(driver.s).backings && r.bytes == coldChunks[old(chunkPromoted)].size
                && old(driver.s).Readable(coldChunks[old(chunkPromoted)].addr, r.bytes)
                && Now() == ChunkBooks(old(Now()), hot, keepHost)
                && driver.s == ChunkState(old(Now()), old(driver.s), hot, keepHost)
      ensures r != Raised(CleanupFailed) ==> temps == old(temps)
      ensures r == Raised(Refused) ==>
                || (Now() == old(Now()) && driver.s == old(driver.s))
                || (hot !in old(driver.s).backings && SameElse(old(Now()), old(driver.s), Now(), driver.s, None, hot))
      ensures old(Usable()) && r == Raised(Refused) ==>
                Usable() && Contents(Now(), driver.s) == old(Contents(Now(), driver.s))
      ensures r != Raised(Rejected)
    {
      hide Consistent, RestOf, State.Valid, IsPiece, MayBack, FallbacksHeld, Intact, Contents, SameElse, ReplacedState,
           State.Create;
      ghost var b, s := Now(), driver.s;
      hot := 0;
      var chunk := coldChunks[chunkPromoted];
      NextChunk(b, s);
      var ok, h, memory := NewHandle(chunk.size, ChunkHot);
      if !ok { return Raised(Refused), hot; }
      hot := h;
      CreatedAside(b, s, h, ChunkHot, memory, None);
      ghost var b1, s1 := Now(), driver.s;
      r := SwapInChunk(chunk, h);
      if r == Raised(Refused) {
        SameElseChain(b, s, b1, s1, Now(), driver.s, None, h);
        if Intact(b, s) { AsideIsInvisible(b, s, Now(), driver.s, None, h); }
      }
      if r.Raised? { return r, hot; }
      ChunkBase(b, s, chunk, h, memory);
      ok := CountChunk(chunk, h, keepHost);
      if !ok { r := Raised(CleanupFailed); }
    }

    // ---- Free ----

    method UnmapAll() returns (ok: bool)
      requires Sound()
      modifies this`mappings, driver
      ensures Sound() && Others() == old(Others())
      ensures ok <==> driver.failures == old(driver.failures)
      ensures driver.failures >= old(driver.failures)
      ensures ok ==> mappings == map[]
    {
      hide Consistent, RestOf, State.Valid;
      while mappings.Keys != {}
        invariant Sound() && Others() == old(Others()) && driver.failures == old(driver.failures)
        decreases mappings.Keys
      {
        var a :| a in mappings.Keys;
        ok := UnmapAt(a);
        if !ok { return; }
      }
      ok := true;
    }

    method ReleaseAll() returns (ok: bool)
      requires Sound() && !freed && mappings == map[]
      modifies this`handles, this`closing, driver
      ensures Sound() && Others() == old(Others())
      ensures ok <==> driver.failures == old(driver.failures)
      ensures driver.failures >= old(driver.failures)
      ensures ok ==> handles == map[]
    {
      hide Consistent, RestOf, State.Valid;
      while handles.Keys != {}
        invariant Sound() && Others() == old(Others()) && driver.failures == old(driver.failures)
        decreases handles.Keys
      {
        var h :| h in handles.Keys;
        SoundDriver(Now(), driver.s);
        AfterRelease(Now(), driver.s, h, Now().(handles := handles - {h}, closing := true));
        ok := driver.Release(h);
        if !ok { return; }
        handles := handles - {h};
        closing := true;
      }
      ok := true;
    }

    /** Unmap everything, release every handle once, return the range. A call that a driver
        failure interrupts can be repeated. */
    method Free() returns (r: Outcome)
      requires Sound()
      modifies this`mappings, this`handles, this`freed, this`closing, driver
      ensures Sound() && Others() == old(Others())
      ensures driver.failures >= old(driver.failures)
      ensures r.Done? <==> driver.failures == old(driver.failures)
      ensures r.Done? ==> freed && mappings == map[] && handles == map[]
      ensures r.Raised? ==> !freed
      ensures r.Done? && temps == map[] ==> Everything(driver.s) == old(Others())
    {
      hide Consistent, RestOf, State.Valid;
      if freed {
        FreedIsEmpty(Now(), driver.s);
      } else {
        var ok := UnmapAll();
        if !ok { return Raised(Refused); }
        ok := ReleaseAll();
        if !ok { return Raised(Refused); }
        SoundDriver(Now(), driver.s);
        RangeIsClear(Now(), driver.s);
        AfterFree(Now(), driver.s);
        ok := driver.AddressFree(va, size);
        if !ok { return Raised(Refused); }
        freed := true;
        closing := true;
      }
      if temps == map[] { FreedHoldsNothing(Now(), driver.s); }
      return Done(0);
    }
  }

  lemma FreedIsEmpty(b: Books, s: State)
    requires Consistent(b, s) && b.freed
    ensures b.mappings == map[] && b.handles == map[]
  {
    hide State.Valid, RangesAgree, HandlesHeld, NoPieceMapped;
  }

  lemma {:induction false} HandlesPrefix(parts: seq<Part>, more: seq<Part>, hs: seq<nat>, hs': seq<nat>, n: nat)
    requires n <= |parts| && n <= |more| && n <= |hs| && n <= |hs'|
    requires parts[..n] == more[..n] && hs[..n] == hs'[..n]
    ensures HandlesUpTo(parts, hs, n) == HandlesUpTo(more, hs', n)
  {
    if n > 0 {
      assert parts[..n][..n - 1] == more[..n][..n - 1] && hs[..n][..n - 1] == hs'[..n][..n - 1];
      assert parts[n - 1] == parts[..n][n - 1] && more[n - 1] == more[..n][n - 1];
      assert hs[n - 1] == hs[..n][n - 1] && hs'[n - 1] == hs'[..n][n - 1];
      HandlesPrefix(parts, more, hs, hs', n - 1);
    }
  }

  lemma OneMore(parts: seq<Part>, hs: seq<nat>, i: nat, h: nat, s: State, memory: Backing)
    requires i < |parts| && |hs| == i && s.Valid() && h !in s.backings
    requires PartsBacked(parts[..i], hs, s.live, s.backings)
    requires memory.location == Placement(parts[i].kind) && |memory.bytes| == parts[i].size
    ensures var t := s.Create(h, memory);
            && PartsBacked(parts[..i + 1], hs + [h], t.live, t.backings)
            && OthersMemory(HandlesUpTo(parts[..i + 1], hs + [h], i + 1), t.live, t.backings)
               == OthersMemory(HandlesUpTo(parts[..i], hs, i), s.live, s.backings)
  {
    hide HandlesHeld, OthersMemory, MappingsFit, MappingsApart, MappingsReserved, RangesApart;
    HandlesPrefix(parts[..i + 1], parts[..i], hs + [h], hs, i);
    HandleAppears(HandlesUpTo(parts[..i], hs, i), s.live, s.backings, h, parts[i].kind, memory);
    assert HandlesUpTo(parts[..i + 1], hs + [h], i + 1) == HandlesUpTo(parts[..i], hs, i)[h := parts[i].kind];
    assert forall k | 0 <= k < i :: parts[..i + 1][k] == parts[..i][k] && (hs + [h])[k] == hs[k] && hs[k] in s.backings;
  }

  /** The finished books, mapped as far as part `n`. */
  function PartlyOpen(parts: seq<Part>, va: nat, size: nat, hs: seq<nat>, hotBytes: nat, n: nat): Books
    requires n <= |parts| == |hs|
  {
    OpenBooks(parts, va, size, hs, hotBytes, EntriesUpTo(parts, va, hs, n))
  }

  /** Mapping the next part is legal and keeps the books consistent. */
  lemma NextPart(parts: seq<Part>, va: nat, size: nat, hs: seq<nat>, hotBytes: nat, i: nat, s: State)
    requires i < |parts| == |hs| && PlanOk(parts, size) && PartsBacked(parts, hs, s.live, s.backings)
    requires Consistent(PartlyOpen(parts, va, size, hs, hotBytes, i), s)
    ensures var a, n := va + SizeSum(parts, i), parts[i].size;
            && s.Valid() && n > 0 && hs[i] in s.live && hs[i] in s.backings && |s.backings[hs[i]].bytes| == n
            && Reserved(s.reservations, a, n) && Clear(s.mappings, a, n)
            && Consistent(PartlyOpen(parts, va, size, hs, hotBytes, i + 1), s.Map(a, n, hs[i]))
            && RestOf(PartlyOpen(parts, va, size, hs, hotBytes, i + 1), s.Map(a, n, hs[i]))
               == RestOf(PartlyOpen(parts, va, size, hs, hotBytes, i), s)
  {
    hide Consistent, RestOf, State.Valid, PlanShape, SizeSum, HandlesHeld, MayBack, IsPiece, Layout, HandlesUpTo,
         ColdUpTo, ChunksUpTo;
    var b := PartlyOpen(parts, va, size, hs, hotBytes, i);
    var a, n := va + SizeSum(parts, i), parts[i].size;
    PartIsPiece(parts, va, i);
    OpenMayBack(parts, va, size, hs, hotBytes, b.mappings, i);
    HandlesAre(parts, hs, |parts|, i);
    EntriesAre(parts, va, hs, i, i);
    HeldHandle(b, s, hs[i]);
    SlotIsFree(b, s, a, n);
    AfterMap(b, s, a, n, hs[i]);
  }

  lemma PrefixPages(pages: set<nat>)
    ensures PrefixOfPages(pages) <==> forall p: nat :: p in pages <==> p < |pages|
  {
    FirstPagesAre(|pages|);
  }

  /** No more pages than the region has, and they are the first ones. */
  ghost predicate PageChoiceOk(numBytes: int, pages: set<nat>) {
    |pages| <= CeilDiv(numBytes, GRANULARITY) && forall p: nat :: p in pages <==> p < |pages|
  }

  lemma PartsPositive(parts: seq<Part>, size: nat)
    requires PlanOk(parts, size)
    ensures size > 0 && forall i | 0 <= i < |parts| :: parts[i].size > 0
  {
  }

  lemma Opened(parts: seq<Part>, va: nat, size: nat, hs: seq<nat>, hotBytes: nat, s: State, before: State)
    requires PlanOk(parts, size) && PartsBacked(parts, hs, s.live, s.backings) && s.Valid()
    requires va !in before.reservations && Clear(before.mappings, va, size)
    requires s.mappings == before.mappings && s.reservations == before.reservations[va := size]
    requires OthersMemory(HandlesUpTo(parts, hs, |parts|), s.live, s.backings)
             == OthersMemory(map[], before.live, before.backings)
    ensures |hs| == |parts|
    ensures Consistent(PartlyOpen(parts, va, size, hs, hotBytes, 0), s)
    ensures RestOf(PartlyOpen(parts, va, size, hs, hotBytes, 0), s) == Everything(before)
  {
    hide Consistent, RestOf, State.Valid, PlanOk, HandlesHeld, OthersMemory, Clear;
    OpenConsistent(parts, va, size, hs, hotBytes, s);
    OpenOthers(parts, va, size, hs, hotBytes, s, before);
  }

  lemma RecordedReadable(b: Books, s: State, t: State, a: nat)
    requires Consistent(b, s) && a in b.mappings && b.va <= a < b.va + b.size
    requires t == s.(mappings := t.mappings) && SameSlots(s.mappings, t.mappings)
    requires forall c | c in s.mappings && b.va <= c < b.va + b.size :: t.mappings[c].accessible
    ensures t.Readable(a, b.mappings[a].size) && t.mappings[a].handle == b.mappings[a].handle
  {
    hide MappingsApart, MappingsReserved, RangesApart, Tiles, Slots, NothingUnrecorded, RangesHeld, RegionsArePieces,
         HandlesHeld, FallbacksHeld;
    assert SameEntry(b.mappings[a], s.mappings[a]);
  }

  lemma PartReadable(parts: seq<Part>, va: nat, size: nat, hs: seq<nat>, hot: nat, s: State, t: State, i: nat)
    requires PlanOk(parts, size) && i < |parts| == |hs|
    requires Consistent(PartlyOpen(parts, va, size, hs, hot, |parts|), s)
    requires t == s.(mappings := t.mappings) && SameSlots(s.mappings, t.mappings)
    requires forall c | c in s.mappings && va <= c < va + size :: t.mappings[c].accessible
    ensures t.Readable(va + SizeSum(parts, i), parts[i].size) && t.mappings[va + SizeSum(parts, i)].handle == hs[i]
  {
    hide Consistent, SameSlots, PlanShape, EntriesUpTo, HandlesUpTo, ColdUpTo, ChunksUpTo, Layout, SizeSum,
         State.Readable;
    EntriesAre(parts, va, hs, |parts|, i);
    SizeSumGrows(parts, i, |parts|);
    RecordedReadable(PartlyOpen(parts, va, size, hs, hot, |parts|), s, t, va + SizeSum(parts, i));
  }

  /** Once every part is mapped, granting access over the range makes the allocation usable. */
  lemma Finished(parts: seq<Part>, va: nat, size: nat, hs: seq<nat>, hot: nat, s: State, b: Books)
    requires PlanOk(parts, size) && |hs| == |parts| > 0 && Distinct(hs)
    requires hot == if parts[0].kind == Hot then parts[0].size else 0
    requires b == PartlyOpen(parts, va, size, hs, hot, |parts|) && Consistent(b, s)
    ensures Intact(b, s.Grant(va, size)) && Consistent(b, s.Grant(va, size))
            && RestOf(b, s.Grant(va, size)) == RestOf(b, s)
  {
    hide Consistent, RestOf, State.Valid, State.Grant, Intact, PlanOk, SameSlots, EntriesUpTo, HandlesUpTo, ColdUpTo,
         ChunksUpTo, Layout, SizeSum;
    AfterGrantAll(b, s);
    var t := s.Grant(va, size);
    forall i: nat | i < |parts|
      ensures t.Readable(va + SizeSum(parts, i), parts[i].size) && t.mappings[va + SizeSum(parts, i)].handle == hs[i]
    {
      PartReadable(parts, va, size, hs, hot, s, t, i);
    }
    OpenIntact(parts, va, size, hs, hot, t);
  }

  /** What a finished plan says about its regions. */
  lemma PlanTells(parts: seq<Part>, va: nat, size: nat, hot: nat, cold: Option<Region>, chunks: seq<Region>)
    requires PlanOk(parts, size) && |parts| > 0
    requires exists hs ::
      |hs| == |parts| && cold == ColdUpTo(parts, va, hs, |parts|) && chunks == ChunksUpTo(parts, va, hs, |parts|)
    ensures cold.Some? <==> parts[|parts| - 1].kind == Cold
    ensures chunks != [] <==> parts[0].kind == Chunk
    ensures |chunks| <= |parts| && forall i | 0 <= i < |chunks| :: chunks[i].size == parts[i].size
    ensures chunks != [] ==> |chunks| == |parts|
  {
    hide ColdUpTo, ChunksUpTo, SizeSum;
    var hs :| |hs| == |parts| && cold == ColdUpTo(parts, va, hs, |parts|)
             && chunks == ChunksUpTo(parts, va, hs, |parts|);
    PlanRegions(parts, va, hs);
  }

  lemma OpenOthers(parts: seq<Part>, va: nat, size: nat, hs: seq<nat>, hotBytes: nat, s: State, before: State)
    requires |hs| == |parts| && va !in before.reservations
    requires s.mappings == before.mappings && s.reservations == before.reservations[va := size]
    requires OthersMemory(HandlesUpTo(parts, hs, |parts|), s.live, s.backings)
             == OthersMemory(map[], before.live, before.backings)
    ensures RestOf(OpenBooks(parts, va, size, hs, hotBytes, map[]), s) == Everything(before)
  {
    hide OthersMemory, HandlesUpTo, ColdUpTo, ChunksUpTo, Layout;
    var b := OpenBooks(parts, va, size, hs, hotBytes, map[]);
    assert b.Owned() == map[va := size];
    assert s.reservations - b.Owned().Keys == before.reservations;
    assert s.mappings - b.mappings.Keys == before.mappings;
  }

  /** The swapped chunk, once the temporary is gone, over the state the promotion began in. */
  lemma ChunkSwapped(b: Books, s: State, c: Books, u: State, d: Books, v: State, chunk: Region, temp: nat, h: nat)
    requires UnknownSpot(b, s, Some(temp)) && SameElse(b, s, c, u, Some(temp), h)
    requires s.Readable(chunk.addr, chunk.size) && temp != chunk.addr && h in s.backings
             && s.backings[h].location == Device
    requires h in u.backings && u.backings[h] == s.backings[h].(bytes := s.Bytes(chunk.addr))
    requires h in s.live && h in u.live && c.handles == b.handles
    requires d == c.(mappings := d.mappings, temps := d.temps)
             && v == u.(mappings := v.mappings, reservations := v.reservations)
    requires temp !in d.mappings && temp !in d.temps && temp !in v.mappings && temp !in v.reservations
    requires d.mappings - {temp} == (c.mappings - {temp})[chunk.addr := Entry(chunk.size, h)]
    requires v.mappings - {temp} == (u.mappings - {temp})[chunk.addr := Mapping(chunk.size, h, true)]
    requires d.temps - {temp} == c.temps - {temp} && v.reservations - {temp} == u.reservations - {temp}
    ensures d == b.(mappings := b.mappings[chunk.addr := Entry(chunk.size, h)])
    ensures v == ReplacedState(s, chunk.addr, chunk.size, h)
  {
    WithoutSpot(c.mappings, b.mappings, {temp});
    WithoutSpot(u.mappings, s.mappings, {temp});
    WithoutSpot(b.temps, d.temps, {temp});
    WithoutSpot(s.reservations, v.reservations, {temp});
    assert d.mappings - {temp} == d.mappings && v.mappings - {temp} == v.mappings;
    assert b.temps - {temp} == b.temps && s.reservations - {temp} == s.reservations;
    SameBut(u.backings, s.backings, h, u.backings[h]);
    assert u.live == (u.live - {h}) + {h} && s.live + {h} == (s.live - {h}) + {h};
  }

  lemma NoTemps(b: Books, s: State, c: Books, t: State, h: nat)
    requires SameElse(b, s, c, t, None, h)
    ensures c.temps == b.temps
  {
    assert c.temps - Spot(None) == c.temps && b.temps - Spot(None) == b.temps;
  }

  /** With the temporary range given back, the noted ranges are the ones from before. */
  lemma TempsRestored(b: Books, s: State, c: Books, t: State, temps: map<nat, nat>, temp: nat, h: nat)
    requires UnknownSpot(b, s, Some(temp)) && SameElse(b, s, c, t, Some(temp), h)
    requires temps - {temp} == c.temps - {temp} && temp !in temps
    ensures temps == b.temps
  {
    WithoutSpot(b.temps, temps, {temp});
    assert b.temps - {temp} == b.temps;
  }

  lemma ChunkBase(b: Books, s: State, chunk: Region, h: nat, memory: Backing)
    requires h !in s.backings && s.Create(h, memory).Readable(chunk.addr, chunk.size) && Consistent(b, s)
    ensures s.Readable(chunk.addr, chunk.size)
    ensures ReplacedState(s.Create(h, memory), chunk.addr, chunk.size, h) == ReplacedState(s, chunk.addr, chunk.size, h)
  {
    hide FallbacksHeld, NoPieceMapped, RangesAgree, HandlesHeld, MappingsApart, MappingsReserved, RangesApart;
    assert s.live + {h} + {h} == s.live + {h};
  }

  lemma Replaced<T>(m: map<nat, T>, temp: nat, a: nat, v: T)
    requires a != temp
    ensures ((m - {temp}) - {a})[a := v] - {temp} == (m - {temp})[a := v]
  {
  }

  lemma SweptTemps(b: Books, s: State, c: Books, temp: Option<nat>)
    requires UnknownSpot(b, s, temp) && c.temps - Spot(temp) == b.temps - Spot(temp)
    ensures c.temps - Spot(temp) == b.temps
  {
  }

  /** From what the body and the sweep did, what the whole promotion did. */
  lemma PromotionVerdict(b: Books, s: State, hot: nat, memory: Backing, r: Outcome, c: Books, u: State,
                         temp: Option<nat>, swept: bool, d: Books, v: State)
    requires Consistent(b, s) && Intact(b, s) && hot !in s.backings && b.coldMapping.Some? && b.promotedHandle.None?
    requires var cold := b.coldMapping.value;
             var b1, s1 := b.(handles := b.handles[hot := Cache]), s.Create(hot, memory);
             && UnknownSpot(b1, s1, temp) && Tracked(c, u, temp, hot, Cache, cold.size)
             && (r.Done? ==>
                 && s1.Readable(cold.addr, cold.size) && u.backings[hot] == Backing(Device, s1.Bytes(cold.addr))
                             && SameElse(PromotedBooks(b1, hot), ReplacedState(s1, cold.addr, cold.size, hot), c, u,
                                         temp, hot))
             && (r == Raised(Refused) && Intact(b1, s1) ==> SameElse(b1, s1, c, u, temp, hot))
    requires SameElse(c, u, d, v, temp, hot)
    requires InUse(c.mappings - Spot(temp), hot) ==>
               Tracked(d, v, None, hot, Cache, b.coldMapping.value.size) && v.backings[hot] == u.backings[hot]
    requires swept ==> d == SweptBooks(c, temp, hot) && v == SweptState(c, u, temp, hot)
    ensures r.Done? ==> Intact(d, v) && Contents(d, v) == Contents(b, s)
    ensures r.Done? && swept ==>
              && d == PromotedBooks(b, hot) && s.Readable(b.coldMapping.value.addr, b.coldMapping.value.size)
                                 && v == ReplacedState(s, b.coldMapping.value.addr, b.coldMapping.value.size, hot)
    ensures r == Raised(Refused) && swept ==> d == b && v == s
  {
    hide Consistent, Intact, Contents, SameElse, SweptBooks, SweptState, ReplacedState, PromotedBooks, InUse;
    var cold := b.coldMapping.value;
    var b1, s1 := b.(handles := b.handles[hot := Cache]), s.Create(hot, memory);
    FreshHandle(b, s, hot);
    CreatedAside(b, s, hot, Cache, memory, None);
    AsideIsInvisible(b, s, b1, s1, None, hot);
    CreatedAside(b, s, hot, Cache, memory, temp);
    if r.Done? {
      PromotedBase(b, s, hot, memory);
      PromotionSwept(b, s, hot, c, u, temp);
      SameElseChain(PromotedBooks(b, hot), ReplacedState(s, cold.addr, cold.size, hot), c, u, d, v, temp, hot);
      PromotionInvisible(b, s, hot, d, v, temp);
    } else if r.site == Refused && swept {
      SameElseChain(b, s, b1, s1, c, u, temp, hot);
      SweepRestores(b, s, c, u, temp, hot, Cache, cold.size);
    }
  }

  lemma PromotedHasCold(b: Books, s: State)
    requires Consistent(b, s) && b.promotedHandle.Some?
    ensures b.coldMapping.Some?
  {
    hide State.Valid, RangesAgree, HandlesHeld, FallbacksHeld, NoPieceMapped;
  }

  /** A canonical mapping is still there, so nothing was released. */
  lemma MappedIsHeld(b: Books, s: State)
    requires Consistent(b, s) && b.promotedHandle.Some? && b.coldMapping.Some? && b.coldMapping.value.addr in b.mappings
    ensures !b.closing && b.mappings[b.coldMapping.value.addr].handle in b.handles
    ensures Backs(b.handles, s.backings, b.promotedHandle.value, Cache, b.coldMapping.value.size)
  {
    hide State.Valid, HandlesHeld, ChunksHeld, Tiles, Slots, Recorded, NothingUnrecorded, RangesHeld;
    var cold := b.coldMapping.value;
    assert Piece(cold.addr, cold.size) in b.layout && Piece(cold.addr, cold.size).addr == cold.addr;
  }

  /** With the canonical range back on its own handle, the promoted handle backs nothing. */
  lemma NoteEviction(b: Books, s: State, hot: nat, bytes: int)
    requires Consistent(b, s) && !b.closing && b.promotedHandle == Some(hot) && b.coldMapping.Some?
    requires var cold := b.coldMapping.value; cold.addr in b.mappings && b.mappings[cold.addr].handle == cold.handle
    ensures var c := b.(promotedHandle := None, hotBytes := bytes);
            && Consistent(c, s) && RestOf(c, s) == RestOf(b, s) && hot in c.handles
            && FallbacksHeld(c.(handles := c.handles - {hot}), s.backings)
  {
    hide State.Valid, Tiles, Slots, Recorded, NothingUnrecorded, RangesHeld, RegionsArePieces, HandlesHeld,
         OthersMemory;
  }

  /** Only the copied handle changed, and its mapping is not in the way. */
  lemma StillReadable(s: State, t: State, a: nat, n: nat, hot: nat)
    requires s.Readable(a, n) && a in t.mappings && t.mappings[a] == s.mappings[a]
    requires t.backings - {hot} == s.backings - {hot} && hot in t.backings
    ensures t.Readable(a, n)
  {
    if s.mappings[a].handle != hot { KeptOutside(t.backings, s.backings, {hot}, s.mappings[a].handle); }
  }

  lemma ColdRegion(b: Books, s: State)
    requires Consistent(b, s) && b.coldMapping.Some?
    ensures IsPiece(b.layout, b.coldMapping.value.addr, b.coldMapping.value.size)
  {
    hide State.Valid, FallbacksHeld, NoPieceMapped, HandlesHeld, Slots, Recorded, NothingUnrecorded, RangesHeld, Tiles,
         IsPiece;
  }

  lemma ColdIsHeldAnyway(b: Books, s: State)
    requires Consistent(b, s) && !b.closing && b.coldMapping.Some?
    ensures Backs(b.handles, s.backings, b.coldMapping.value.handle, Cold, b.coldMapping.value.size)
  {
    hide State.Valid, RangesAgree, HandlesHeld, ChunksHeld, PiecesHeld;
  }

  /** After the temporary slot is gone on both sides. */
  lemma Dropped(b: Books, s: State, c: Books, t: State, temp: nat, hot: nat)
    requires hot in s.live && (temp in s.mappings ==> s.mappings[temp].handle == hot)
    requires c.mappings - {temp} == b.mappings - {temp} && temp !in c.mappings
    requires c.temps - {temp} == b.temps - {temp} && temp !in c.temps
    requires t == s.(mappings := t.mappings, reservations := t.reservations)
    requires t.mappings - {temp} == s.mappings - {temp} && temp !in t.mappings
    requires t.reservations - {temp} == s.reservations - {temp} && temp !in t.reservations
    ensures c.mappings == b.mappings - {temp} && c.temps == b.temps - {temp}
    ensures t == (if temp in s.mappings then s.Unmap(temp) else s).Unreserve(temp)
  {
    WithoutSpot(s.mappings, t.mappings, {temp});
    WithoutSpot(s.reservations, t.reservations, {temp});
    WithoutSpot(b.mappings, c.mappings, {temp});
    WithoutSpot(b.temps, c.temps, {temp});
    if temp !in s.mappings { assert s.mappings - {temp} == s.mappings; }
  }

  lemma NoSpot(entries: Entries, temps: Ranges)
    ensures entries - Spot(None) == entries && temps - Spot(None) == temps
  {
  }

  /** A map that holds `v` at `k` and otherwise agrees with `n`. */
  lemma SameBut<T>(m: map<nat, T>, n: map<nat, T>, k: nat, v: T)
    requires m - {k} == n - {k} && k in m && m[k] == v
    ensures m == n[k := v]
  {
    SameMap(m, n[k := v], k);
  }

  lemma SizedCopy(s: State, a: nat, n: nat)
    requires s.Valid() && s.Readable(a, n)
    ensures |s.Bytes(a)| == n
  {
    hide MappingsApart, MappingsReserved, RangesApart;
  }

  lemma HeldHandles(b: Books, s: State)
    requires Consistent(b, s)
    ensures b.handles.Keys <= s.live
    ensures Recorded(b.mappings, s.mappings)
  {
    hide State.Valid, FallbacksHeld, NoPieceMapped, Tiles, Slots, NothingUnrecorded, RangesHeld, Recorded;
  }

  lemma SoundDriver(b: Books, s: State)
    requires Consistent(b, s)
    ensures s.Valid()
  {
    hide State.Valid, RangesAgree, FallbacksHeld, NoPieceMapped, HandlesHeld;
  }

  lemma HeldHandle(b: Books, s: State, h: nat)
    requires Consistent(b, s) && h in b.handles
    ensures h in s.live && s.Valid()
  {
    hide State.Valid, RangesAgree, FallbacksHeld, NoPieceMapped;
  }
}
