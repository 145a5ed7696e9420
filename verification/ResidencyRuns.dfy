/** Whole lives of an allocation: any sequence of stores, promotions and evictions between
    construction and `free`, with or without failing driver calls. */
module ResidencyRuns {
  import opened Bytes
  import opened IntMath
  import opened VmmState
  import opened VmmDriver
  import opened OwnerBooks
  import opened Residency
  import opened Rollback
  import opened MixedResidency

  datatype Op =
    | Store(piece: nat, offset: nat, value: Byte)
    | Promote(budget: int)
    | PromoteNext(keepHost: bool)
    | Evict
    | Close

  /** What a user of the range can tell: the bytes read, and the host copy an eviction
      would show. */
  datatype View = View(contents: seq<seq<Byte>>, cold: bool, promoted: bool, retained: seq<Byte>)

  ghost function ViewOf(b: Books, s: State): View
    requires Intact(b, s)
  {
    View(Contents(b, s), b.coldMapping.Some?, b.promotedHandle.Some?,
         if b.promotedHandle.Some? then Retained(b, s) else [])
  }

  function AfterOp(v: View, op: Op): (w: View)
    requires |v.contents| > 0
    ensures |w.contents| > 0
  {
    var last := |v.contents| - 1;
    match op
    case Store(i, offset, value) =>
      if i < |v.contents| && offset < |v.contents[i]| then v.(contents := Written(v.contents, i, offset, value)) else v
    case Promote(budget) =>
      if v.cold && !v.promoted && |v.contents[last]| <= budget
      then v.(promoted := true, retained := v.contents[last]) else v
    case Evict =>
      if v.promoted then v.(contents := v.contents[last := v.retained], promoted := false, retained := []) else v
    case PromoteNext(_) => v
    case Close => v
  }

  function AfterOps(v: View, ops: seq<Op>, n: nat): (w: View)
    requires |v.contents| > 0 && n <= |ops|
    ensures |w.contents| > 0
  {
    if n == 0 then v else AfterOp(AfterOps(v, ops, n - 1), ops[n - 1])
  }

  /** The contents after the stores alone. */
  function StoresOnly(contents: seq<seq<Byte>>, ops: seq<Op>, n: nat): (c: seq<seq<Byte>>)
    requires n <= |ops|
    ensures |c| == |contents|
  {
    if n == 0 then contents
    else
      var before := StoresOnly(contents, ops, n - 1);
      match ops[n - 1]
      case Store(i, offset, value) =>
        if i < |before| && offset < |before[i]| then Written(before, i, offset, value) else before
      case _ => before
  }

  /** The promoted region was stored to since its promotion, after the first `n` ops. */
  function Dirty(v: View, ops: seq<Op>, n: nat): bool
    requires |v.contents| > 0 && n <= |ops|
  {
    if n == 0 then false
    else
      var before := AfterOps(v, ops, n - 1);
      match ops[n - 1]
      case Store(i, _, _) => Dirty(v, ops, n - 1) || (before.promoted && i == |before.contents| - 1)
      case Promote(_) => before.promoted && Dirty(v, ops, n - 1)
      case Evict => false
      case _ => Dirty(v, ops, n - 1)
  }

  /** Op `k` stored to the promoted region, which has not been evicted since. */
  ghost predicate StoredSince(v: View, ops: seq<Op>, n: nat, k: nat)
    requires |v.contents| > 0 && n <= |ops|
  {
    && k < n && ops[k].Store? && ops[k].piece == |v.contents| - 1 && AfterOps(v, ops, k).promoted
    && forall j | k < j < n :: !ops[j].Evict?
  }

  lemma {:induction false} PiecesStay(v: View, ops: seq<Op>, n: nat)
    requires |v.contents| > 0 && n <= |ops|
    ensures |AfterOps(v, ops, n).contents| == |v.contents|
  {
    if n > 0 { PiecesStay(v, ops, n - 1); }
  }

  lemma {:induction false} StaysPromoted(v: View, ops: seq<Op>, n: nat, k: nat)
    requires |v.contents| > 0 && k <= n <= |ops| && AfterOps(v, ops, k).promoted
    requires forall j | k <= j < n :: !ops[j].Evict?
    ensures AfterOps(v, ops, n).promoted
  {
    if k < n { StaysPromoted(v, ops, n - 1, k); }
  }

  /** Dirty means: some store hit the promoted region and no eviction came after it. */
  lemma {:induction false} DirtyMeans(v: View, ops: seq<Op>, n: nat)
    requires |v.contents| > 0 && n <= |ops|
    ensures Dirty(v, ops, n) <==> exists k: nat :: StoredSince(v, ops, n, k)
  {
    hide AfterOps;
    if n > 0 {
      DirtyMeans(v, ops, n - 1);
      PiecesStay(v, ops, n - 1);
      if Dirty(v, ops, n) {
        if Dirty(v, ops, n - 1) {
          var k: nat :| StoredSince(v, ops, n - 1, k);
          assert StoredSince(v, ops, n, k);
        } else {
          assert StoredSince(v, ops, n, n - 1);
        }
      }
      forall k: nat | StoredSince(v, ops, n, k)
        ensures Dirty(v, ops, n)
      {
        if k < n - 1 {
          assert StoredSince(v, ops, n - 1, k);
          StaysPromoted(v, ops, n - 1, k);
        }
      }
    }
  }

  /** No eviction follows a store to the promoted region. */
  predicate EvictsClean(v: View, ops: seq<Op>, n: nat)
    requires |v.contents| > 0 && n <= |ops|
  {
    forall k | 0 <= k < n && ops[k].Evict? :: !Dirty(v, ops, k)
  }

  /** Over any such run the bytes change by the stores and by nothing else. */
  lemma {:induction false} OnlyStoresShow(v: View, ops: seq<Op>, n: nat)
    requires |v.contents| > 0 && n <= |ops| && !v.promoted && EvictsClean(v, ops, n)
    ensures var w := AfterOps(v, ops, n);
            && w.contents == StoresOnly(v.contents, ops, n)
            && (w.promoted && !Dirty(v, ops, n) ==> w.retained == w.contents[|w.contents| - 1])
  {
    if n > 0 {
      OnlyStoresShow(v, ops, n - 1);
      var w := AfterOps(v, ops, n - 1);
      if ops[n - 1].Evict? && w.promoted {
        assert !Dirty(v, ops, n - 1);
        assert w.contents[|w.contents| - 1 := w.contents[|w.contents| - 1]] == w.contents;
      }
    }
  }

  // ---- Results ----

  /** The operation took effect: it finished, or only the release after an eviction failed. */
  predicate Took(op: Op, r: Outcome) {
    r.Done? || (op.Evict? && r == Raised(CleanupFailed))
  }

  /** ... or it was refused as a whole. What the other results leave behind is not told. */
  predicate Known(op: Op, r: Outcome) {
    Took(op, r) || r == Raised(Refused) || r == Raised(Rejected)
  }

  /** With a known result the range can still be used and reads as the view says. */
  ghost predicate Follows(v: View, op: Op, r: Outcome, b: Books, s: State)
    requires |v.contents| > 0
  {
    Known(op, r) ==> Consistent(b, s) && Intact(b, s) && ViewOf(b, s) == if Took(op, r) then AfterOp(v, op) else v
  }

  predicate AllKnown(ops: seq<Op>, results: seq<Outcome>) {
    |results| <= |ops| && forall i | 0 <= i < |results| :: Known(ops[i], results[i])
  }

  /** The operations that took effect. */
  function Taken(ops: seq<Op>, results: seq<Outcome>): seq<Op>
    requires |results| <= |ops|
  {
    if results == [] then []
    else
      var last := |results| - 1;
      Taken(ops, results[..last]) + if Took(ops[last], results[last]) then [ops[last]] else []
  }

  function AfterAll(v: View, ops: seq<Op>): View
    requires |v.contents| > 0
  {
    AfterOps(v, ops, |ops|)
  }

  lemma {:induction false} AfterPrefix(v: View, ops: seq<Op>, op: Op, n: nat)
    requires |v.contents| > 0 && n <= |ops|
    ensures AfterOps(v, ops + [op], n) == AfterOps(v, ops, n)
  {
    hide AfterOp;
    if n > 0 { AfterPrefix(v, ops, op, n - 1); }
  }

  lemma TakenStep(ops: seq<Op>, results: seq<Outcome>, r: Outcome)
    requires |results| < |ops|
    ensures Taken(ops, results + [r]) == Taken(ops, results) + if Took(ops[|results|], r) then [ops[|results|]] else []
  {
    hide Took;
    assert (results + [r])[..|results|] == results;
  }

  lemma AfterOneMore(v: View, ops: seq<Op>, op: Op)
    requires |v.contents| > 0
    ensures |AfterAll(v, ops).contents| > 0 && AfterAll(v, ops + [op]) == AfterOp(AfterAll(v, ops), op)
  {
    hide AfterOp;
    AfterPrefix(v, ops, op, |ops|);
  }

  lemma NextTaken(v: View, ops: seq<Op>, results: seq<Outcome>, r: Outcome)
    requires |v.contents| > 0 && |results| < |ops|
    ensures |AfterAll(v, Taken(ops, results)).contents| > 0
    ensures AfterAll(v, Taken(ops, results + [r]))
            == if Took(ops[|results|], r) then AfterOp(AfterAll(v, Taken(ops, results)), ops[|results|])
               else AfterAll(v, Taken(ops, results))
  {
    hide AfterOp, AfterAll, Taken, Took;
    var before := Taken(ops, results);
    TakenStep(ops, results, r);
    AfterOneMore(v, before, ops[|results|]);
    assert before + [] == before;
  }

  // ---- Operations as seen through the view ----

  lemma RegionSize(b: Books, s: State)
    requires Consistent(b, s) && Intact(b, s) && b.coldMapping.Some?
    ensures |Contents(b, s)| == |b.layout| > 0
    ensures |Contents(b, s)[|b.layout| - 1]| == b.coldMapping.value.size
  {
    hide State.Valid, RangesAgree, HandlesHeld, FallbacksHeld, DistinctPieces;
    ContentsAt(b, s, |b.layout| - 1);
    SoundDriver(b, s);
    SizedCopy(s, b.coldMapping.value.addr, b.coldMapping.value.size);
  }

  lemma NonEmptyLayout(b: Books, s: State)
    requires Intact(b, s)
    ensures |Contents(b, s)| == |b.layout| > 0
  {
  }

  /** A kernel's store through the canonical range; a store outside it faults. */
  method StoreThrough(a: Allocation, piece: nat, offset: nat, value: Byte)
    requires a.Sound()
    modifies a.driver
    ensures a.Sound() && a.Others() == old(a.Others()) && a.driver.failures == old(a.driver.failures)
    ensures old(a.Usable()) ==>
              a.Usable() && ViewOf(a.Now(), a.driver.s)
                == AfterOp(old(ViewOf(a.Now(), a.driver.s)), Store(piece, offset, value))
  {
    hide Consistent, RestOf, Intact, State.Valid, Contents, Retained;
    ghost var b, s := a.Now(), a.driver.s;
    if Intact(b, s) { NonEmptyLayout(b, s); }
    if piece < |a.layout| && !a.freed {
      var p := a.layout[piece];
      if Intact(b, s) {
        ContentsAt(b, s, piece);
        SoundDriver(b, s);
        SizedCopy(s, p.addr, p.size);
      }
      if offset < p.size && a.driver.s.Readable(p.addr, p.size) {
        SoundDriver(b, s);
        SizedCopy(s, p.addr, p.size);
        ReadablePiece(b, s, p.addr, p.size);
        ghost var h := s.mappings[p.addr].handle;
        AfterOverwrite(b, s, h, s.backings[h].(bytes := s.backings[h].bytes[offset := value]));
        if Intact(b, s) { StoreChangesOneByte(b, s, piece, offset, value); }
        a.driver.StoreByte(p.addr, p.size, offset, value);
      }
    }
    if Intact(b, s) && a.freed { IntactIsOpen(b, s); }
  }

  method DoPromote(a: Allocation, budget: int) returns (r: Outcome)
    requires a.Sound()
    modifies a`mappings, a`handles, a`temps, a`promotedHandle, a`hotBytes, a.driver
    ensures a.Sound() && a.Others() == old(a.Others())
    ensures a.driver.failures >= old(a.driver.failures)
    ensures r != Raised(CleanupFailed) ==> a.temps == old(a.temps)
    ensures old(a.Usable()) ==> Follows(old(ViewOf(a.Now(), a.driver.s)), Promote(budget), r, a.Now(), a.driver.s)
    ensures old(a.Usable()) && a.driver.failures == old(a.driver.failures) ==> Known(Promote(budget), r)
  {
    hide Consistent, RestOf, Intact, State.Valid, Contents, Retained;
    ghost var b, s := a.Now(), a.driver.s;
    if Intact(b, s) {
      NonEmptyLayout(b, s);
      IntactIsOpen(b, s);
      if b.coldMapping.Some? { RegionSize(b, s); }
    }
    ghost var due := a.Due(budget);
    r := a.PromoteUpTo(budget);
    if Intact(b, s) && due && r.Done? {
      PromotionKeepsContents(b, s, a.promotedHandle.value);
    }
  }

  method DoEvict(a: Allocation) returns (r: Outcome)
    requires a.Sound()
    modifies a`mappings, a`handles, a`promotedHandle, a`hotBytes, a.driver
    ensures a.Sound() && a.Others() == old(a.Others())
    ensures a.driver.failures >= old(a.driver.failures)
    ensures old(a.Usable()) ==> Follows(old(ViewOf(a.Now(), a.driver.s)), Evict, r, a.Now(), a.driver.s)
    ensures old(a.Usable()) && a.driver.failures == old(a.driver.failures) ==> Known(Evict, r)
  {
    hide Consistent, RestOf, Intact, State.Valid, Contents, Retained;
    ghost var b, s := a.Now(), a.driver.s;
    if Intact(b, s) {
      NonEmptyLayout(b, s);
      IntactIsOpen(b, s);
      if b.promotedHandle.Some? {
        EvictionShowsRetained(b, s);
        EvictionUnreleased(b, s);
      }
    }
    r := a.EvictPromoted();
  }

  method DoPromoteNext(a: Allocation, keepHost: bool) returns (r: Outcome)
    requires a.Sound()
    modifies a`mappings, a`handles, a`temps, a`chunkPromoted, a`hotBytes, a.driver
    ensures a.Sound() && a.Others() == old(a.Others())
    ensures a.driver.failures >= old(a.driver.failures)
    ensures r != Raised(CleanupFailed) ==> a.temps == old(a.temps)
    ensures old(a.Usable()) ==> Follows(old(ViewOf(a.Now(), a.driver.s)), PromoteNext(keepHost), r, a.Now(), a.driver.s)
    ensures old(a.Usable()) && a.driver.failures == old(a.driver.failures) ==> Known(PromoteNext(keepHost), r)
  {
    hide Consistent, RestOf, Intact, State.Valid, Contents, Retained;
    ghost var b, s := a.Now(), a.driver.s;
    ghost var hot;
    r, hot := a.PromoteChunk(keepHost);
    if Intact(b, s) {
      IntactIsOpen(b, s);
      if b.chunkPromoted < |b.coldChunks| {
        ChunksAreNotPromoted(b, s);
        if r.Done? { ChunkPromotionKeepsContents(b, s, hot, keepHost); }
      }
    }
  }

  lemma ChunksAreNotPromoted(b: Books, s: State)
    requires Intact(b, s) && b.chunkPromoted < |b.coldChunks|
    ensures b.coldMapping.None? && b.promotedHandle.None?
  {
  }

  method Step(a: Allocation, op: Op) returns (r: Outcome)
    requires a.Sound()
    modifies a`mappings, a`handles, a`temps, a`promotedHandle, a`chunkPromoted, a`hotBytes, a`freed, a`closing, a.driver
    ensures a.Sound() && a.Others() == old(a.Others())
    ensures a.driver.failures >= old(a.driver.failures)
    ensures r != Raised(CleanupFailed) ==> a.temps == old(a.temps)
    ensures old(a.Usable()) && op != Close ==>
              |old(ViewOf(a.Now(), a.driver.s)).contents| > 0
              && Follows(old(ViewOf(a.Now(), a.driver.s)), op, r, a.Now(), a.driver.s)
    ensures old(a.Usable()) && op != Close && a.driver.failures == old(a.driver.failures) ==> Known(op, r)
  {
    hide Consistent, RestOf, Intact, State.Valid, Contents, Retained;
    ghost var b, s := a.Now(), a.driver.s;
    if Intact(b, s) { NonEmptyLayout(b, s); }
    r := Done(0);
    match op {
      case Store(piece, offset, value) => StoreThrough(a, piece, offset, value);
      case Promote(budget) => r := DoPromote(a, budget);
      case PromoteNext(keepHost) => r := DoPromoteNext(a, keepHost);
      case Evict => r := DoEvict(a);
      case Close => r := a.Free();
    }
  }

  /** Run a whole sequence. Whatever fails, the records stay consistent and nothing else in
      the driver is touched; only a failed cleanup may leave a temporary range behind. As
      long as every operation finished or was refused, the range reads as the finished ones
      say; and if no eviction among them follows a store to the promoted region, it reads as
      the stores alone say. Without failing driver calls nothing ends otherwise. */
  method Drive(a: Allocation, ops: seq<Op>) returns (tidy: bool, results: seq<Outcome>)
    requires a.Sound()
    modifies a`mappings, a`handles, a`temps, a`promotedHandle, a`chunkPromoted, a`hotBytes, a`freed, a`closing, a.driver
    ensures a.Sound() && a.Others() == old(a.Others())
    ensures tidy ==> a.temps == old(a.temps)
    ensures |results| == |ops|
    ensures old(a.Usable()) && a.driver.failures == old(a.driver.failures) && Close !in ops ==> AllKnown(ops, results)
    ensures old(a.Usable()) && AllKnown(ops, results) && Close !in ops ==>
              && a.Usable() && |old(ViewOf(a.Now(), a.driver.s)).contents| > 0
              && ViewOf(a.Now(), a.driver.s) == AfterAll(old(ViewOf(a.Now(), a.driver.s)), Taken(ops, results))
              && (!old(ViewOf(a.Now(), a.driver.s)).promoted
                  && EvictsClean(old(ViewOf(a.Now(), a.driver.s)), Taken(ops, results), |Taken(ops, results)|) ==>
                    ViewOf(a.Now(), a.driver.s).contents
                    == StoresOnly(old(ViewOf(a.Now(), a.driver.s)).contents, Taken(ops, results),
                                  |Taken(ops, results)|))
  {
    hide Consistent, RestOf, Intact, State.Valid, ViewOf, AfterOp, EvictsClean, StoresOnly, AfterAll, Known, Took;
    ghost var b, s := a.Now(), a.driver.s;
    if Intact(b, s) {
      ViewNonEmpty(b, s);
      NothingTaken(ViewOf(b, s), ops);
    }
    tidy, results := true, [];
    for i := 0 to |ops|
      invariant |results| == i
      invariant a.Sound() && a.Others() == old(a.Others()) && (tidy ==> a.temps == old(a.temps))
      invariant a.driver.failures >= old(a.driver.failures)
      invariant Intact(b, s) && a.driver.failures == old(a.driver.failures) && Close !in ops[..i] ==>
                  AllKnown(ops, results)
      invariant Intact(b, s) && AllKnown(ops, results) && Close !in ops[..i] ==>
                  a.Usable() && ViewOf(a.Now(), a.driver.s) == AfterAll(ViewOf(b, s), Taken(ops, results))
    {
      assert ops[..i + 1] == ops[..i] + [ops[i]];
      var r := Step(a, ops[i]);
      if Intact(b, s) { NextTaken(ViewOf(b, s), ops, results, r); }
      KnownGrows(ops, results, r);
      results := results + [r];
      tidy := tidy && r != Raised(CleanupFailed);
    }
    assert ops[..|ops|] == ops;
    ghost var taken := Taken(ops, results);
    if Intact(b, s) && !ViewOf(b, s).promoted && EvictsClean(ViewOf(b, s), taken, |taken|) {
      StoresShow(ViewOf(b, s), taken);
    }
  }

  lemma NothingTaken(v: View, ops: seq<Op>)
    requires |v.contents| > 0
    ensures AfterAll(v, Taken(ops, [])) == v
  {
  }

  lemma KnownGrows(ops: seq<Op>, results: seq<Outcome>, r: Outcome)
    requires |results| < |ops|
    ensures AllKnown(ops, results + [r]) <==> AllKnown(ops, results) && Known(ops[|results|], r)
  {
    hide Known;
    if AllKnown(ops, results + [r]) {
      forall i | 0 <= i < |results|
        ensures Known(ops[i], results[i])
      {
        assert (results + [r])[i] == results[i];
      }
      assert (results + [r])[|results|] == r;
    }
  }

  lemma StoresShow(v: View, ops: seq<Op>)
    requires |v.contents| > 0 && !v.promoted && EvictsClean(v, ops, |ops|)
    ensures AfterAll(v, ops).contents == StoresOnly(v.contents, ops, |ops|)
  {
    hide AfterOps, StoresOnly, EvictsClean;
    OnlyStoresShow(v, ops, |ops|);
  }

  lemma ViewNonEmpty(b: Books, s: State)
    requires Intact(b, s)
    ensures |ViewOf(b, s).contents| > 0
  {
    NonEmptyLayout(b, s);
  }

  /** A whole life: build, use, free as often as it takes. Once freed, the owner has no
      mapping and no handle on record; unless a cleanup failed, the driver then holds
      exactly what it held before the allocation was built. */
  method Life(d: Driver, numBytes: int, hotPages: Option<set<nat>>, chunkPages: nat, ops: seq<Op>, attempts: nat)
    returns (a: Allocation, built: Outcome, results: seq<Outcome>, tidy: bool, freed: bool, ghost first: Books,
             ghost start: State)
    requires d.s.Valid()
    modifies d
    ensures built.Done? ==> && Consistent(first, start) && Intact(first, start) && first.promotedHandle.None?
                            && a.Sound()
    ensures built.Done? && freed && tidy ==> Everything(d.s) == old(Everything(d.s))
    ensures built.Done? && freed ==> a.freed && a.mappings == map[] && a.handles == map[]
  {
    hide Consistent, RestOf, Intact, State.Valid, Contents, Retained;
    a := new Allocation(d);
    results, tidy, freed := [], true, false;
    built := a.Build(numBytes, hotPages, chunkPages);
    first, start := a.Now(), d.s;
    if built.Raised? { return; }
    tidy, results := Drive(a, ops);
    for i := 0 to attempts
      invariant a.Sound() && a.Others() == old(Everything(d.s)) && (tidy ==> a.temps == map[])
      invariant freed ==> a.freed && a.mappings == map[] && a.handles == map[]
      invariant freed && tidy ==> Everything(d.s) == old(Everything(d.s))
    {
      var r := a.Free();
      freed := r.Done?;
    }
  }
}
