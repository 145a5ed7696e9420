/** Region and chunk sizing for one expert parameter, and what it means for the experts:
    which of them are wholly in device memory after so many chunk promotions. */
module VmmPolicy {
  import opened IntMath
  import opened VmmState
  import opened VmmDriver
  import opened OwnerBooks
  import opened Residency
  import opened ResidencyPlan
  import opened MixedResidency

  function Ceil(x: real): int {
    -(-x).Floor
  }

  lemma CeilBounds(x: real)
    ensures x <= Ceil(x) as real < x + 1.0
  {
  }

  function Times(n: int, share: real): real {
    n as real * share
  }

  lemma TimesRest(n: int, share: real)
    ensures Times(n, 1.0 - share) == n as real - Times(n, share)
  {
    assert n as real * (1.0 - share) == n as real - n as real * share;
  }

  lemma TimesSign(n: int, share: real)
    requires n > 0
    ensures share >= 1.0 <==> Times(n, share) >= n as real
    ensures share >= 0.0 <==> Times(n, share) >= 0.0
    ensures share == 1.0 ==> Times(n, share) == n as real
  {
    PositiveFactor(n as real, share);
    PositiveFactor(n as real, share - 1.0);
  }

  lemma PositiveFactor(p: real, x: real)
    requires p > 0.0
    ensures x >= 0.0 <==> p * x >= 0.0
  {
  }

  lemma Regroup(a: real, b: real, c: real)
    ensures (a * b) * c == (a * c) * b
  {
  }

  /** A bound on pages is a bound on their bytes. */
  lemma TimesScale(n: int, share: real, bound: int)
    requires Times(n, share) <= bound as real
    ensures Times(n * GRANULARITY, share) <= (bound * GRANULARITY) as real
  {
    var k := GRANULARITY as real;
    assert (n * GRANULARITY) as real == n as real * k;
    assert (bound * GRANULARITY) as real == bound as real * k;
    Regroup(n as real, k, share);
    assert Times(n, share) * k <= bound as real * k;
  }

  /** Pages that start in device memory; negative when the cold fraction is above 1. */
  function HotPages(pages: int, cold: real): int {
    Min(pages, Ceil(Times(pages, 1.0 - cold)))
  }

  /** `region_plan` */
  function RegionPlan(rowBytes: nat, experts: nat, cold: real): (int, int) {
    var pages := CeilDiv(experts * rowBytes, GRANULARITY);
    (pages, HotPages(pages, cold))
  }

  /** `set(range(hot))` */
  function HotSet(hot: int): set<nat> {
    if hot <= 0 then {} else FirstPages(hot)
  }

  lemma {:induction false} FirstPagesSize(n: nat)
    ensures |FirstPages(n)| == n && forall i | i in FirstPages(n) :: i < n
  {
    if n > 0 { FirstPagesSize(n - 1); }
  }

  lemma HotSetIsPrefix(hot: int)
    ensures |HotSet(hot)| == Max(0, hot) && PrefixOfPages(HotSet(hot))
  {
    if hot > 0 { FirstPagesSize(hot); }
  }

  /** `hot` is the smallest whole-page prefix holding the wanted fraction of the region, cut
      at the region's end; it is empty exactly when nothing is wanted hot. */
  predicate LeastHot(pages: int, cold: real, hot: int) {
    var wanted := Times(pages, 1.0 - cold);
    && hot <= pages
    && (cold >= 0.0 ==> wanted <= hot as real) && (hot - 1) as real < wanted
    && (hot == pages || wanted <= hot as real)
    && (hot <= 0 <==> cold >= 1.0) && (hot == 0 <==> -1.0 < wanted <= 0.0)
    && (hot == pages <==> Times(pages, cold) < 1.0)
  }

  lemma HotPagesLeast(pages: int, cold: real)
    requires pages > 0
    ensures LeastHot(pages, cold, HotPages(pages, cold))
  {
    hide Ceil, Times;
    TimesRest(pages, cold);
    TimesSign(pages, cold);
    LeastWhole(pages, Times(pages, 1.0 - cold));
  }

  lemma PagesCover(rowBytes: nat, experts: nat)
    requires rowBytes > 0 && experts > 0
    ensures var pages := CeilDiv(experts * rowBytes, GRANULARITY);
            && pages > 0 && experts * rowBytes > 0
            && experts * rowBytes <= pages * GRANULARITY < experts * rowBytes + GRANULARITY
  {
    MulMono(1, experts, rowBytes);
    CeilDivBounds(experts * rowBytes, GRANULARITY);
  }

  /** The plan covers the experts with less than a page to spare, and its hot prefix is the
      least that holds the wanted fraction. */
  lemma PlanIsLeast(rowBytes: nat, experts: nat, cold: real)
    requires rowBytes > 0 && experts > 0
    ensures var (pages, hot) := RegionPlan(rowBytes, experts, cold);
            && pages > 0 && LeastHot(pages, cold, hot)
            && experts * rowBytes <= pages * GRANULARITY < experts * rowBytes + GRANULARITY
  {
    hide LeastHot, HotPages, CeilDiv;
    PagesCover(rowBytes, experts);
    HotPagesLeast(CeilDiv(experts * rowBytes, GRANULARITY), cold);
  }

  lemma LeastWhole(pages: int, wanted: real)
    requires pages > 0
    ensures var hot := Min(pages, Ceil(wanted));
            && (wanted <= pages as real ==> wanted <= hot as real)
            && (hot - 1) as real < wanted
            && (hot == pages || wanted <= hot as real)
            && (hot <= 0 <==> wanted <= 0.0) && (hot == 0 <==> -1.0 < wanted <= 0.0)
            && (hot == pages <==> wanted > (pages - 1) as real)
  {
    CeilBounds(wanted);
  }

  function ChunkPages(chunkExperts: nat, rowBytes: nat): nat {
    Max(1, CeilDiv(chunkExperts * rowBytes, GRANULARITY))
  }

  // ---- Chunks and experts ----

  /** All chunks but the last hold `step` bytes. */
  predicate EvenChunks(b: Books, step: nat) {
    && b.coldChunks != []
    && (forall i | 0 <= i < |b.coldChunks| - 1 :: b.coldChunks[i].size == step)
    && (forall i | 0 <= i < |b.coldChunks| :: b.coldChunks[i].size <= step)
  }

  lemma {:induction false} ChunkStart(b: Books, step: nat, k: nat, at: nat)
    requires Tiles(b.layout, b.va, b.va + b.size) && Shape(b) && EvenChunks(b, step)
    requires k < |b.layout| && at == k * step
    ensures b.layout[k].addr == b.va + at && b.layout[k].size <= step
    ensures k < |b.layout| - 1 ==> b.layout[k].size == step
  {
    if k > 0 {
      assert (k - 1) * step == at - step;
      ChunkStart(b, step, k - 1, at - step);
      assert PieceEnd(b.layout, k - 1) == b.layout[k].addr;
    }
  }

  lemma ChunksTile(b: Books, step: nat)
    requires Tiles(b.layout, b.va, b.va + b.size) && Shape(b) && EvenChunks(b, step)
    ensures |b.layout| == |b.coldChunks| > 0 && b.coldMapping.None?
    ensures b.layout[|b.layout| - 1].size > 0 && PieceEnd(b.layout, |b.layout| - 1) == b.va + b.size
  {
  }

  lemma Steps(n: nat, k: nat, step: nat)
    requires k <= n && n > 0
    ensures n * step == (n - 1) * step + step && (k < n ==> k * step <= (n - 1) * step)
  {
    if k < n { MulMono(k, n - 1, step); }
  }

  /** After `k` chunk promotions the first `k * step` bytes are in device memory, or all. */
  lemma PromotedBytes(b: Books, s: State, step: nat)
    requires Consistent(b, s) && Intact(b, s) && EvenChunks(b, step)
    ensures b.hotBytes == Min(b.chunkPromoted * step, b.size)
    ensures b.chunkPromoted == |b.coldChunks| ==> b.hotBytes == b.size
    ensures (|b.coldChunks| - 1) * step < b.size <= |b.coldChunks| * step
  {
    hide State.Valid, Slots, Recorded, NothingUnrecorded, RangesHeld, HandlesHeld, FallbacksHeld, PieceIntact,
         DistinctPieces, EvenChunks, Tiles, RegionsArePieces;
    var n, k := |b.coldChunks|, b.chunkPromoted;
    ChunksTile(b, step);
    ChunkStart(b, step, n - 1, (n - 1) * step);
    Steps(n, k, step);
    if k < n { ChunkStart(b, step, k, k * step); }
  }

  /** Expert `e` is wholly in device memory. */
  ghost predicate ExpertOnDevice(b: Books, s: State, rowBytes: nat, e: nat) {
    forall x: nat | e * rowBytes <= x < e * rowBytes + rowBytes :: OnDevice(b, s, x)
  }

  /** With chunks sized for `chunkExperts` experts, `k` promotions bring every expert below
      `k * chunkExperts` wholly to device memory. */
  lemma PromotedExperts(b: Books, s: State, rowBytes: nat, experts: nat, chunkExperts: nat, e: nat)
    requires Consistent(b, s) && Intact(b, s) && EvenChunks(b, ChunkPages(chunkExperts, rowBytes) * GRANULARITY)
    requires experts * rowBytes <= b.size && e < experts && e < b.chunkPromoted * chunkExperts
    ensures ExpertOnDevice(b, s, rowBytes, e)
  {
    hide Consistent, Intact, OnDevice, EvenChunks;
    var step := ChunkPages(chunkExperts, rowBytes) * GRANULARITY;
    PromotedBytes(b, s, step);
    CeilDivBounds(chunkExperts * rowBytes, GRANULARITY);
    ChunkCovers(chunkExperts, rowBytes);
    ExpertEnd(e, b.chunkPromoted, chunkExperts, rowBytes, step, experts);
    forall x: nat | e * rowBytes <= x < e * rowBytes + rowBytes
      ensures OnDevice(b, s, x)
    {
      DeviceBytesArePrefix(b, s, x);
    }
  }

  lemma ChunkCovers(chunkExperts: nat, rowBytes: nat)
    ensures chunkExperts * rowBytes <= ChunkPages(chunkExperts, rowBytes) * GRANULARITY
  {
    CeilDivBounds(chunkExperts * rowBytes, GRANULARITY);
  }

  lemma ExpertEnd(e: nat, k: nat, chunkExperts: nat, rowBytes: nat, step: nat, experts: nat)
    requires e < k * chunkExperts && e < experts && chunkExperts * rowBytes <= step
    ensures e * rowBytes + rowBytes <= k * step && e * rowBytes + rowBytes <= experts * rowBytes
  {
    MulMono(e + 1, k * chunkExperts, rowBytes);
    MulMono(e + 1, experts, rowBytes);
    assert (e + 1) * rowBytes == e * rowBytes + rowBytes;
    MulMonoRight(k, chunkExperts * rowBytes, step);
    assert k * chunkExperts * rowBytes == k * (chunkExperts * rowBytes);
  }

  lemma MulMonoRight(k: nat, a: nat, b: nat)
    requires a <= b
    ensures k * a <= k * b
  {
    MulMono(a, b, k);
  }

  /** At least the wanted fraction of the bytes is hot. */
  predicate HotEnough(size: nat, hotBytes: int, cold: real) {
    Times(size, 1.0 - cold) <= hotBytes as real
  }

  /** The region is the fewest whole pages that hold the experts. */
  predicate RegionLeast(b: Books, rowBytes: nat, experts: nat) {
    b.size % GRANULARITY == 0 && experts * rowBytes <= b.size < experts * rowBytes + GRANULARITY
  }

  /** The hot part is the fewest whole pages that hold the wanted fraction, or the region. */
  predicate HotLeast(b: Books, cold: real) {
    var pages, hot := b.size / GRANULARITY, b.hotBytes / GRANULARITY;
    var wanted := Times(pages, 1.0 - cold);
    && b.hotBytes % GRANULARITY == 0 && 0 <= hot <= pages
    && (hot == pages || wanted <= hot as real) && (hot > 0 ==> (hot - 1) as real < wanted)
    && (0.0 <= cold <= 1.0 ==> HotEnough(b.size, b.hotBytes, cold))
  }

  /** Chunked exactly when chunks are asked for, the parameter is a weight, and the wanted
      number of hot pages rounds up to 0; each chunk but the last is then the fewest whole
      pages, at least one, that hold `chunkExperts` experts. */
  predicate ChunkedRight(b: Books, rowBytes: nat, cold: real, chunkExperts: nat, isWeight: bool) {
    && (b.coldChunks != [] <==>
          chunkExperts > 0 && isWeight && -1.0 < Times(b.size / GRANULARITY, 1.0 - cold) <= 0.0)
    && (b.coldChunks != [] ==>
          var step := ChunkPages(chunkExperts, rowBytes) * GRANULARITY;
          && b.hotBytes == 0 && EvenChunks(b, step)
          && 0 < step && chunkExperts * rowBytes <= step < chunkExperts * rowBytes + GRANULARITY)
  }

  /** What the policy promises of one parameter's region. */
  predicate Sized(b: Books, rowBytes: nat, experts: nat, cold: real, chunkExperts: nat, isWeight: bool) {
    RegionLeast(b, rowBytes, experts) && HotLeast(b, cold) && ChunkedRight(b, rowBytes, cold, chunkExperts, isWeight)
  }

  lemma ChunkIsLeast(chunkExperts: nat, rowBytes: nat)
    requires chunkExperts > 0 && rowBytes > 0
    ensures var step := ChunkPages(chunkExperts, rowBytes) * GRANULARITY;
            0 < step && chunkExperts * rowBytes <= step < chunkExperts * rowBytes + GRANULARITY
  {
    MulMono(1, chunkExperts, rowBytes);
    CeilDivBounds(chunkExperts * rowBytes, GRANULARITY);
  }

  /** What the plan means in bytes. */
  lemma HotBytesEnough(pages: int, hot: int, cold: real)
    requires pages > 0 && 0.0 <= cold <= 1.0 && LeastHot(pages, cold, hot)
    ensures hot >= 0 && HotEnough(pages * GRANULARITY, hot * GRANULARITY, cold) && (cold == 1.0 ==> hot == 0)
  {
    hide Times;
    TimesRest(pages, cold);
    TimesSign(pages, cold);
    TimesScale(pages, 1.0 - cold, hot);
  }

  /** One parameter of the wrapping loop: its allocation, sized by the policy. Only an
      all-cold weight is chunked. The policy never asks for a prefix the allocator rejects. */
  method WrapParameter(d: Driver, rowBytes: nat, experts: nat, cold: real, chunkExperts: nat, isWeight: bool)
    returns (a: Allocation, r: Outcome)
    requires d.s.Valid() && rowBytes > 0 && experts > 0
    modifies d
    ensures r.Done? <==> d.failures == old(d.failures)
    ensures r.Raised? ==> r.site == Refused
    ensures r.Done? ==> && a.Usable() && a.Others() == Everything(old(d.s))
                        && Sized(a.Now(), rowBytes, experts, cold, chunkExperts, isWeight)
  {
    hide Consistent, RestOf, Intact, State.Valid, Sized, ChunkPages, HotPages, HotSet;
    var (pages, hot) := RegionPlan(rowBytes, experts, cold);
    PlanIsLeast(rowBytes, experts, cold);
    PagesCover(rowBytes, experts);
    SomePages(chunkExperts, rowBytes);
    var hotSet := HotSet(hot);
    HotSetIsPrefix(hot);
    PrefixPages(hotSet);
    a := new Allocation(d);
    var chunkPages := if chunkExperts > 0 && hot == 0 && isWeight then ChunkPages(chunkExperts, rowBytes) else 0;
    r := a.Build(experts * rowBytes, Some(hotSet), chunkPages);
    if r.Done? { SizedByPolicy(a.Now(), rowBytes, experts, cold, chunkExperts, isWeight, pages, hot, chunkPages); }
  }

  lemma SizedByPolicy(b: Books, rowBytes: nat, experts: nat, cold: real, chunkExperts: nat, isWeight: bool,
                      pages: nat, hot: int, chunkPages: nat)
    requires rowBytes > 0 && experts > 0 && (pages, hot) == RegionPlan(rowBytes, experts, cold)
    requires chunkPages == if chunkExperts > 0 && hot == 0 && isWeight then ChunkPages(chunkExperts, rowBytes) else 0
    requires b.size == pages * GRANULARITY && b.hotBytes == Max(0, hot) * GRANULARITY
    requires b.coldChunks != [] <==> b.hotBytes == 0 && chunkPages > 0
    requires forall i | 0 <= i < |b.coldChunks| :: b.coldChunks[i].size <= chunkPages * GRANULARITY
    requires forall i | 0 <= i < |b.coldChunks| - 1 :: b.coldChunks[i].size == chunkPages * GRANULARITY
    ensures Sized(b, rowBytes, experts, cold, chunkExperts, isWeight)
  {
    hide HotEnough, ChunkPages, CeilDiv, HotPages;
    PlanIsLeast(rowBytes, experts, cold);
    if 0.0 <= cold <= 1.0 { HotBytesEnough(pages, hot, cold); }
    SomePages(chunkExperts, rowBytes);
    if chunkExperts > 0 { ChunkIsLeast(chunkExperts, rowBytes); }
    MulDiv(pages, GRANULARITY);
    MulDiv(Max(0, hot), GRANULARITY);
  }

  lemma SomePages(chunkExperts: nat, rowBytes: nat)
    ensures ChunkPages(chunkExperts, rowBytes) > 0
  {
  }
}
