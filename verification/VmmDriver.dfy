/** The driver calls the allocator makes. Every call may fail, and then changes nothing;
    the choice of handles, addresses and initial bytes is the driver's own. A call's
    precondition is what the driver demands, so each caller is proved never to make an
    illegal call. `failures` counts failed calls for the contracts of the callers. */
module VmmDriver {
  import opened Bytes
  import opened VmmState

  class Driver {
    var s: State
    ghost var failures: nat

    constructor ()
      ensures s == State(map[], {}, map[], map[]) && failures == 0 && s.Valid()
    {
      s := State(map[], {}, map[], map[]);
      failures := 0;
    }

    method Fail() returns (ok: bool)
      modifies this`failures
      ensures !ok && failures == old(failures) + 1
    {
      failures := failures + 1;
      ok := false;
    }

    method Synchronize() returns (ok: bool)
      modifies this`failures
      ensures failures == if ok then old(failures) else old(failures) + 1
    {
      ok := *;
      if !ok { ok := Fail(); }
    }

    method Create(size: nat, location: Location) returns (ok: bool, h: nat)
      requires s.Valid()
      modifies this
      ensures s.Valid() && failures == if ok then old(failures) else old(failures) + 1
      ensures ok ==> && h !in old(s).backings && h in s.backings && s == old(s).Create(h, s.backings[h])
                     && s.backings[h].location == location && |s.backings[h].bytes| == size
      ensures !ok ==> s == old(s)
    {
      ok := *;
      h := *;
      var bytes: seq<Byte> := *;
      if ok && h !in s.backings && |bytes| == size {
        CreateValid(s, h, Backing(location, bytes));
        s := s.Create(h, Backing(location, bytes));
      } else {
        ok := Fail();
      }
    }

    method AddressReserve(size: nat) returns (ok: bool, r: nat)
      requires s.Valid() && size > 0
      modifies this
      ensures s.Valid() && failures == if ok then old(failures) else old(failures) + 1
      ensures ok ==>
                && r > 0 && r !in old(s).reservations && Clear(old(s).mappings, r, size) && s == old(s).Reserve(r, size)
                     && Reserved(s.reservations, r, size)
      ensures !ok ==> s == old(s)
    {
      ok := *;
      r := *;
      if ok && r > 0 && (forall q | q in s.reservations :: Apart(q, s.reservations[q], r, size)) {
        ReserveValid(s, r, size);
        s := s.Reserve(r, size);
      } else {
        ok := Fail();
      }
    }

    /** Map a whole handle at a reserved, unmapped range. No partial maps, no offsets. */
    method MemMap(a: nat, size: nat, h: nat) returns (ok: bool)
      requires s.Valid() && size > 0 && h in s.live && |s.backings[h].bytes| == size
      requires Reserved(s.reservations, a, size) && Clear(s.mappings, a, size)
      modifies this
      ensures s.Valid() && failures == if ok then old(failures) else old(failures) + 1
      ensures s == if ok then old(s).Map(a, size, h) else old(s)
    {
      ok := *;
      if ok {
        MapValid(s, a, size, h);
        s := s.Map(a, size, h);
      } else {
        ok := Fail();
      }
    }

    method SetAccess(a: nat, size: nat) returns (ok: bool)
      requires s.Valid()
      modifies this
      ensures s.Valid() && failures == if ok then old(failures) else old(failures) + 1
      ensures s == if ok then old(s).Grant(a, size) else old(s)
    {
      ok := *;
      if ok {
        GrantValid(s, a, size);
        s := s.Grant(a, size);
      } else {
        ok := Fail();
      }
    }

    /** Unmap exactly one whole mapping. */
    method MemUnmap(a: nat, size: nat) returns (ok: bool)
      requires s.Valid() && a in s.mappings && s.mappings[a].size == size
      modifies this
      ensures s.Valid() && failures == if ok then old(failures) else old(failures) + 1
      ensures s == if ok then old(s).Unmap(a) else old(s)
    {
      ok := *;
      if ok {
        UnmapValid(s, a);
        s := s.Unmap(a);
      } else {
        ok := Fail();
      }
    }

    /** Only a handle still held may be released. */
    method Release(h: nat) returns (ok: bool)
      requires s.Valid() && h in s.live
      modifies this
      ensures s.Valid() && failures == if ok then old(failures) else old(failures) + 1
      ensures s == if ok then old(s).Release(h) else old(s)
    {
      ok := *;
      if ok {
        ReleaseValid(s, h);
        s := s.Release(h);
      } else {
        ok := Fail();
      }
    }

    /** A range may be returned only when nothing is mapped in it. */
    method AddressFree(r: nat, size: nat) returns (ok: bool)
      requires s.Valid() && r in s.reservations && s.reservations[r] == size && Clear(s.mappings, r, size)
      modifies this
      ensures s.Valid() && failures == if ok then old(failures) else old(failures) + 1
      ensures s == if ok then old(s).Unreserve(r) else old(s)
    {
      ok := *;
      if ok {
        UnreserveValid(s, r);
        s := s.Unreserve(r);
      } else {
        ok := Fail();
      }
    }

    /** Device copy between two mapped ranges; refused unless both are readable. */
    method MemcpyDtoD(dst: nat, src: nat, size: nat) returns (ok: bool)
      requires s.Valid()
      modifies this
      ensures s.Valid()
      ensures ok ==> && old(s).Readable(dst, size) && old(s).Readable(src, size)
                     && s == old(s).Copy(dst, src) && failures == old(failures)
      ensures !ok ==> s == old(s) && failures == old(failures) + 1
    {
      ok := *;
      if ok && s.Readable(dst, size) && s.Readable(src, size) {
        CopyValid(s, dst, src);
        s := s.Copy(dst, src);
      } else {
        ok := Fail();
      }
    }

    /** A kernel's or host's store through a mapped address. */
    method StoreByte(a: nat, size: nat, offset: nat, value: Byte)
      requires s.Valid() && s.Readable(a, size) && offset < size
      modifies this
      ensures s.Valid() && failures == old(failures)
      ensures s == old(s).Poke(a, offset, value)
    {
      PokeValid(s, a, offset, value);
      s := s.Poke(a, offset, value);
    }
  }
}
