/** Building the table of page segments and zeroing the pages of named logical blocks. */
module KvZeroer {
  import opened Bytes
  import opened IntMath
  import opened KvLayout

  // ---- what the table must say ------------------------------------------------------

  /** Entries that share an address share a block stride. */
  predicate Consistent(spans: seq<Span>) {
    forall s, t | s in spans && t in spans && s.addr == t.addr :: s.stride == t.stride
  }

  /** The builder gets through these groups. */
  ghost predicate AllFit(groups: seq<Group>, kernelSizes: seq<nat>, numBlocks: nat) {
    forall g | g in groups && Handles(g, kernelSizes) :: GroupFits(g, kernelSizes, numBlocks)
  }

  ghost predicate GroupFits(g: Group, kernelSizes: seq<nat>, numBlocks: nat)
    requires Handles(g, kernelSizes)
  {
    Divides(kernelSizes[g.id], g.blockSize) && LayersFit(g.layers, numBlocks)
  }

  predicate Divides(d: nat, n: nat) { d > 0 && n % d == 0 }

  ghost predicate LayersFit(layers: seq<Layer>, numBlocks: nat) {
    forall l | l in layers && Handled(l) :: Fits(l, numBlocks)
  }

  predicate Covers(table: seq<Span>, s: Span) {
    exists k :: 0 <= k < |table| && table[k].addr == s.addr && table[k].stride == s.stride && s.page <= table[k].page
  }

  /** The table covers every demanded entry, lists each address once, and widens no page
      beyond one that was demanded. */
  predicate Exact(table: seq<Span>, spans: seq<Span>) {
    && (forall s | s in spans :: Covers(table, s))
    && (forall k | 0 <= k < |table| :: table[k] in spans)
    && forall j, k | 0 <= j < |table| && 0 <= k < |table| && table[j].addr == table[k].addr :: j == k
  }

  lemma ExactIsConsistent(table: seq<Span>, spans: seq<Span>)
    requires Exact(table, spans)
    ensures Consistent(spans)
  {
    forall s, t | s in spans && t in spans && s.addr == t.addr
      ensures s.stride == t.stride
    {
      assert Covers(table, s) && Covers(table, t);
    }
  }

  /** A clash among some of the entries to come is a clash among all of them. */
  lemma MoreEntries(spans: seq<Span>, some: seq<Span>, all: seq<Span>)
    requires Consistent(spans + all) && forall s | s in some :: s in all
    ensures Consistent(spans + some)
  {
    forall s | s in spans + some
      ensures s in spans + all
    {
    }
  }

  lemma MoreParts(l: Layer, numBlocks: nat, outer: seq<nat>, part: nat, parts: nat, spans: seq<Span>)
    requires |outer| == |Outers(l)| && part <= parts
    ensures Consistent(spans + PartSpans(l, numBlocks, outer, parts)) ==>
              Consistent(spans + PartSpans(l, numBlocks, outer, part))
  {
    hide SpanAt, Consistent;
    forall s | s in PartSpans(l, numBlocks, outer, part)
      ensures s in PartSpans(l, numBlocks, outer, parts)
    {
      InPartSpans(l, numBlocks, outer, part, s);
      InPartSpans(l, numBlocks, outer, parts, s);
    }
    if Consistent(spans + PartSpans(l, numBlocks, outer, parts)) {
      MoreEntries(spans, PartSpans(l, numBlocks, outer, part), PartSpans(l, numBlocks, outer, parts));
    }
  }

  lemma MoreOuters(l: Layer, numBlocks: nat, outers: seq<seq<nat>>, j: nat, spans: seq<Span>)
    requires outers == Product(Outers(l)) && j <= |outers|
    requires forall outer | outer in outers :: |outer| == |Outers(l)|
    ensures forall outer | outer in outers[..j] :: |outer| == |Outers(l)|
    ensures Consistent(spans + OuterSpans(l, numBlocks, outers)) ==>
              Consistent(spans + OuterSpans(l, numBlocks, outers[..j]))
  {
    hide Consistent, Legal, Placed;
    forall outer | outer in outers
      ensures Legal(Outers(l), outer)
    {
      ProductIsLegal(Outers(l), outer);
    }
    forall s | s in OuterSpans(l, numBlocks, outers[..j])
      ensures s in OuterSpans(l, numBlocks, outers)
    {
      InOuterSpans(l, numBlocks, outers[..j], s);
      InOuterSpans(l, numBlocks, outers, s);
    }
    if Consistent(spans + OuterSpans(l, numBlocks, outers)) {
      MoreEntries(spans, OuterSpans(l, numBlocks, outers[..j]), OuterSpans(l, numBlocks, outers));
    }
  }

  lemma MoreLayers(layers: seq<Layer>, numBlocks: nat, i: nat, spans: seq<Span>)
    requires i <= |layers|
    ensures Consistent(spans + GroupSpans(layers, numBlocks)) ==> Consistent(spans + GroupSpans(layers[..i], numBlocks))
  {
    hide Consistent, LayerSpans;
    forall s | s in GroupSpans(layers[..i], numBlocks)
      ensures s in GroupSpans(layers, numBlocks)
    {
      InGroupSpans(layers[..i], numBlocks, s);
      InGroupSpans(layers, numBlocks, s);
    }
    if Consistent(spans + GroupSpans(layers, numBlocks)) {
      MoreEntries(spans, GroupSpans(layers[..i], numBlocks), GroupSpans(layers, numBlocks));
    }
  }

  lemma MoreGroups(groups: seq<Group>, kernelSizes: seq<nat>, numBlocks: nat, i: nat)
    requires i <= |groups|
    ensures Consistent(AllSpans(groups, kernelSizes, numBlocks)) ==>
              Consistent(AllSpans(groups[..i], kernelSizes, numBlocks))
  {
    hide GroupSpans;
    forall s | s in AllSpans(groups[..i], kernelSizes, numBlocks)
      ensures s in AllSpans(groups, kernelSizes, numBlocks)
    {
      InAllSpans(groups[..i], kernelSizes, numBlocks, s);
      InAllSpans(groups, kernelSizes, numBlocks, s);
    }
  }

  lemma ExactAppend(table: seq<Span>, spans: seq<Span>, s: Span)
    requires Exact(table, spans) && forall k | 0 <= k < |table| :: table[k].addr != s.addr
    ensures Exact(table + [s], spans + [s])
  {
    var grown := table + [s];
    forall t | t in spans + [s]
      ensures Covers(grown, t)
    {
      if t in spans {
        assert Covers(table, t);
        var k :| 0 <= k < |table| && table[k].addr == t.addr && table[k].stride == t.stride && t.page <= table[k].page;
        assert grown[k] == table[k];
      } else {
        assert grown[|table|] == s;
      }
    }
  }

  lemma ExactWiden(table: seq<Span>, spans: seq<Span>, s: Span, k: nat)
    requires Exact(table, spans) && k < |table| && table[k].addr == s.addr && table[k].stride == s.stride
    ensures Exact(table[k := Span(s.addr, s.stride, Max(table[k].page, s.page))], spans + [s])
  {
    var wide := table[k := Span(s.addr, s.stride, Max(table[k].page, s.page))];
    assert wide[k] == table[k] || wide[k] == s;
    forall t | t in spans + [s]
      ensures Covers(wide, t)
    {
      if t == s {
        assert wide[k].addr == s.addr;
      } else {
        assert Covers(table, t);
        var j :| 0 <= j < |table| && table[j].addr == t.addr && table[j].stride == t.stride && t.page <= table[j].page;
        assert wide[j].addr == t.addr;
      }
    }
  }

  function Zip(addrs: seq<nat>, strides: seq<nat>, pages: seq<nat>): seq<Span>
    requires |addrs| == |strides| == |pages|
  {
    seq(|addrs|, k requires 0 <= k < |addrs| => Span(addrs[k], strides[k], pages[k]))
  }

  ghost predicate Filed(addrs: seq<nat>, strides: seq<nat>, pages: seq<nat>, seen: map<nat, nat>, spans: seq<Span>) {
    && |addrs| == |strides| == |pages|
    && Exact(Zip(addrs, strides, pages), spans)
    && (forall k | 0 <= k < |addrs| :: addrs[k] in seen && seen[addrs[k]] == k)
    && forall a | a in seen :: seen[a] < |addrs| && addrs[seen[a]] == a
  }

  // ---- the kernel grid --------------------------------------------------------------

  /** One program of the launch: positions in the id list and the table, and a chunk. */
  datatype Program = Program(block: nat, seg: nat, chunk: nat)

  /** `order` lists the programs of the grid, each at least once, in any order. */
  ghost predicate IsGrid(order: seq<Program>, blocks: nat, segs: nat, chunks: nat) {
    forall p :: p in order <==> p.block < blocks && p.seg < segs && p.chunk < chunks
  }

  /** Byte `x` is in the masked store of one program. */
  predicate Touches(s: Span, id: nat, chunk: nat, width: nat, x: nat) {
    var start := PageStart(s, id);
    start + 4 * Scaled(chunk, width) <= x < start + 4 * Min(Scaled(chunk, width) + width, s.page)
  }

  predicate ProgramTouches(table: seq<Span>, ids: seq<nat>, width: nat, p: Program, x: nat) {
    p.block < |ids| && p.seg < |table| && Touches(table[p.seg], ids[p.block], p.chunk, width, x)
  }

  predicate TouchedBy(table: seq<Span>, ids: seq<nat>, width: nat, order: seq<Program>, x: nat) {
    exists p :: p in order && ProgramTouches(table, ids, width, p, x)
  }

  /** Byte `x` is in a listed page of a named block. */
  predicate InNamedPage(table: seq<Span>, ids: seq<nat>, x: nat) {
    exists b, k :: 0 <= b < |ids| && 0 <= k < |table| && InPage(table[k], ids[b], x)
  }

  lemma TouchedGrows(table: seq<Span>, ids: seq<nat>, width: nat, order: seq<Program>, p: Program, x: nat)
    ensures TouchedBy(table, ids, width, order + [p], x)
            <==> TouchedBy(table, ids, width, order, x) || ProgramTouches(table, ids, width, p, x)
  {
    hide ProgramTouches;
    assert p in order + [p];
    forall q | q in order
      ensures q in order + [p]
    {
    }
  }

  /** The chunks of a page cover it and stay inside it. */
  lemma ChunksArePage(s: Span, id: nat, width: nat, chunks: nat, x: nat)
    requires width > 0 && s.page <= chunks * width
    ensures InPage(s, id, x) <==> exists chunk: nat :: chunk < chunks && Touches(s, id, chunk, width, x)
  {
    var start := PageStart(s, id);
    if InPage(s, id, x) {
      var word := (x - start) / 4;
      var chunk := word / width;
      DivBounds(word, width);
      DivMono(0, word, width);
      assert (chunk + 1) * width == chunk * width + width;
      if chunks <= chunk { MulMono(chunks, chunk, width); }
      assert Touches(s, id, chunk, width, x);
    }
  }

  /** A whole grid touches exactly the listed pages of the named blocks. */
  lemma GridTouches(table: seq<Span>, ids: seq<nat>, width: nat, chunks: nat, order: seq<Program>, x: nat)
    requires width > 0 && IsGrid(order, |ids|, |table|, chunks)
    requires forall k | 0 <= k < |table| :: table[k].page <= chunks * width
    ensures TouchedBy(table, ids, width, order, x) <==> InNamedPage(table, ids, x)
  {
    hide Touches, InPage;
    if TouchedBy(table, ids, width, order, x) {
      var p :| p in order && ProgramTouches(table, ids, width, p, x);
      ChunksArePage(table[p.seg], ids[p.block], width, chunks, x);
    }
    if InNamedPage(table, ids, x) {
      var b, k :| 0 <= b < |ids| && 0 <= k < |table| && InPage(table[k], ids[b], x);
      ChunksArePage(table[k], ids[b], width, chunks, x);
      var chunk: nat :| chunk < chunks && Touches(table[k], ids[b], chunk, width, x);
      assert Program(b, k, chunk) in order && ProgramTouches(table, ids, width, Program(b, k, chunk), x);
    }
  }

  /** `_zero_kv_blocks_kernel`: one chunk of one page, word by word under the page mask. */
  method ZeroChunk(mem: array<Byte>, s: Span, id: nat, chunk: nat, width: nat)
    requires PageStart(s, id) + 4 * s.page <= mem.Length
    modifies mem
    ensures forall x | 0 <= x < mem.Length :: mem[x] == if Touches(s, id, chunk, width, x) then 0 else old(mem[x])
  {
    hide Scaled;
    var offset := Scaled(chunk, width);
    if offset >= s.page { return; }
    var start := s.addr + 4 * Scaled(id, s.stride);
    for i := 0 to width
      invariant forall x | 0 <= x < mem.Length ::
                  mem[x] == if start + 4 * offset <= x < start + 4 * Min(offset + i, s.page) then 0 else old(mem[x])
    {
      if offset + i < s.page {
        var at := start + 4 * (offset + i);
        mem[at], mem[at + 1], mem[at + 2], mem[at + 3] := 0, 0, 0, 0;
      }
    }
  }

  // ---- which bytes those are --------------------------------------------------------

  /** Byte `x` is in a named logical block of a handled layer. */
  ghost predicate InNamedBlock(groups: seq<Group>, kernelSizes: seq<nat>, numBlocks: nat, ids: seq<nat>, x: nat) {
    exists l, b :: Listed(groups, kernelSizes, l) && 0 <= b < |ids| && InLogicalBlock(l, numBlocks, ids[b], x)
  }

  /** Every byte of every element that a handled layer keeps in a named block is among them. */
  lemma NamedElements(groups: seq<Group>, kernelSizes: seq<nat>, numBlocks: nat, ids: seq<nat>, l: Layer, b: nat,
                      part: nat, index: seq<nat>, byte: nat)
    requires Listed(groups, kernelSizes, l) && b < |ids|
    requires part < Ratio(l, numBlocks) && Legal(l.dims, index) && byte < l.element
    ensures InNamedBlock(groups, kernelSizes, numBlocks, ids,
                         ElementAt(l, ids[b] * Ratio(l, numBlocks) + part, index) + byte)
  {
    hide InLogicalBlock;
    ElementInLogicalBlock(l, numBlocks, ids[b], part, index, byte);
  }

  /** Every byte of every element that layer `l` keeps in logical block `id` is zero. */
  ghost predicate ElementsZero(l: Layer, numBlocks: nat, id: nat, mem: seq<Byte>) {
    numBlocks > 0 && forall block: nat, index | InBlock(l.blocks, numBlocks, id, block) && Legal(l.dims, index) ::
      BytesZero(ElementAt(l, block, index), l.element, mem)
  }

  /** Kernel block `block` is part of logical block `id`, `blocks / numBlocks` parts to one. */
  predicate InBlock(blocks: nat, numBlocks: nat, id: nat, block: nat)
    requires numBlocks > 0
  {
    block < blocks && blocks / numBlocks > 0 && block / (blocks / numBlocks) == id
  }

  predicate BytesZero(at: nat, n: nat, mem: seq<Byte>) {
    at + n <= |mem| && forall x | at <= x < at + n :: mem[x] == 0
  }

  /** What zeroing the named blocks means for a layer the builder does not skip: an attention
      layer whose group has a kernel block size, that is not the runner's alone, and whose
      cache is a tensor on this device. */
  lemma NamedBlocksZeroed(groups: seq<Group>, kernelSizes: seq<nat>, numBlocks: nat, ids: seq<nat>,
                          before: seq<Byte>, after: seq<Byte>)
    requires |before| == |after| && AllInMemory(groups, kernelSizes, |after|)
    requires forall id | id in ids :: id < numBlocks
    requires forall x | 0 <= x < |after| ::
               after[x] == if InNamedBlock(groups, kernelSizes, numBlocks, ids, x) then 0 else before[x]
    ensures forall g, l, id | g in groups && g.attention && g.id < |kernelSizes| && l in g.layers
                              && !l.runnerOnly && l.tensor && l.sameDevice && id in ids ::
              ElementsZero(l, numBlocks, id, after)
    ensures forall x | 0 <= x < |after| && after[x] != before[x] ::
              exists g, l, id :: g in groups && g.attention && g.id < |kernelSizes| && l in g.layers
                                 && !l.runnerOnly && l.tensor && l.sameDevice && id in ids
                                 && InLogicalBlock(l, numBlocks, id, x)
  {
    hide InNamedBlock, InLogicalBlock, ElementsZero, AllInMemory;
    forall g, l, id | g in groups && g.attention && g.id < |kernelSizes| && l in g.layers
                      && !l.runnerOnly && l.tensor && l.sameDevice && id in ids
      ensures ElementsZero(l, numBlocks, id, after)
    {
      assert Listed(groups, kernelSizes, l);
      NamedLayerZeroed(groups, kernelSizes, numBlocks, ids, l, id, before, after);
    }
    forall x | 0 <= x < |after| && after[x] != before[x]
      ensures exists g, l, id :: g in groups && g.attention && g.id < |kernelSizes| && l in g.layers
                                 && !l.runnerOnly && l.tensor && l.sameDevice && id in ids
                                 && InLogicalBlock(l, numBlocks, id, x)
    {
      var g, l, id := OwnerOf(groups, kernelSizes, numBlocks, ids, x);
    }
  }

  lemma OwnerOf(groups: seq<Group>, kernelSizes: seq<nat>, numBlocks: nat, ids: seq<nat>, x: nat)
    returns (g: Group, l: Layer, id: nat)
    requires InNamedBlock(groups, kernelSizes, numBlocks, ids, x)
    ensures g in groups && g.attention && g.id < |kernelSizes| && l in g.layers
    ensures !l.runnerOnly && l.tensor && l.sameDevice && id in ids && InLogicalBlock(l, numBlocks, id, x)
  {
    hide InLogicalBlock;
    var m, b :| Listed(groups, kernelSizes, m) && 0 <= b < |ids| && InLogicalBlock(m, numBlocks, ids[b], x);
    l, id := m, ids[b];
    g :| g in groups && Handles(g, kernelSizes) && l in g.layers && Handled(l);
  }

  lemma NamedLayerZeroed(groups: seq<Group>, kernelSizes: seq<nat>, numBlocks: nat, ids: seq<nat>, l: Layer, id: nat,
                         before: seq<Byte>, after: seq<Byte>)
    requires |before| == |after| && AllInMemory(groups, kernelSizes, |after|)
    requires Listed(groups, kernelSizes, l) && id in ids && id < numBlocks
    requires forall x | 0 <= x < |after| ::
               after[x] == if InNamedBlock(groups, kernelSizes, numBlocks, ids, x) then 0 else before[x]
    ensures ElementsZero(l, numBlocks, id, after)
  {
    hide InNamedBlock, Listed, ElementAt, InMemory, InBlock;
    var b :| 0 <= b < |ids| && ids[b] == id;
    forall block: nat, index | InBlock(l.blocks, numBlocks, id, block) && Legal(l.dims, index)
      ensures BytesZero(ElementAt(l, block, index), l.element, after)
    {
      var at := ElementAt(l, block, index);
      var part := PartOf(l, numBlocks, id, block);
      ElementInMemory(l, |after|, block, index);
      forall x | at <= x < at + l.element
        ensures after[x] == 0
      {
        NamedElements(groups, kernelSizes, numBlocks, ids, l, b, part, index, x - at);
      }
    }
  }

  lemma PartOf(l: Layer, numBlocks: nat, id: nat, block: nat) returns (part: nat)
    requires numBlocks > 0 && InBlock(l.blocks, numBlocks, id, block)
    ensures part < Ratio(l, numBlocks) && block == id * Ratio(l, numBlocks) + part && block < l.blocks
  {
    var ratio := l.blocks / numBlocks;
    part := block % ratio;
    assert block == ratio * (block / ratio) + part;
  }

  lemma ElementInMemory(l: Layer, length: nat, block: nat, index: seq<nat>)
    requires InMemory(l, length) && block < l.blocks && Legal(l.dims, index)
    ensures ElementAt(l, block, index) + l.element <= length
  {
  }

  lemma ListedFits(groups: seq<Group>, kernelSizes: seq<nat>, numBlocks: nat, l: Layer)
    requires AllFit(groups, kernelSizes, numBlocks) && Listed(groups, kernelSizes, l)
    ensures Fits(l, numBlocks)
  {
    hide Fits;
  }

  /** A table page, in the terms of the layer it came from. */
  lemma SpanPage(l: Layer, numBlocks: nat, outer: seq<nat>, part: nat, id: nat, x: nat)
    requires Fits(l, numBlocks) && Legal(Outers(l), outer)
    ensures InPage(SpanAt(l, numBlocks, outer, part), id, x)
            <==> InKernelPage(l, outer, id * Ratio(l, numBlocks) + part, x)
  {
    hide Offset, Reach, Scaled, Fits, Ratio, Legal, OuterDims, InnerDims, SpanAt;
    PageIsKernelBlock(l, numBlocks, outer, part, id);
  }

  /** The listed pages are exactly the named blocks of the handled layers: nothing a layer
      owns there is missed, and widening a shared page reaches no byte no layer owns. */
  lemma PagesAreBlocks(groups: seq<Group>, kernelSizes: seq<nat>, numBlocks: nat, table: seq<Span>, ids: seq<nat>,
                       x: nat)
    requires AllFit(groups, kernelSizes, numBlocks) && Exact(table, AllSpans(groups, kernelSizes, numBlocks))
    ensures InNamedPage(table, ids, x) <==> InNamedBlock(groups, kernelSizes, numBlocks, ids, x)
  {
    hide AllFit, Fits, Listed, AllSpans, Ratio, SpanAt, InPage, InKernelPage, Legal;
    if InNamedPage(table, ids, x) {
      var b, k :| 0 <= b < |ids| && 0 <= k < |table| && InPage(table[k], ids[b], x);
      AllSpansArePages(groups, kernelSizes, numBlocks, table[k]);
      var l, outer, part: nat :| Listed(groups, kernelSizes, l) && Placed(l, numBlocks, outer, part, table[k]);
      ListedFits(groups, kernelSizes, numBlocks, l);
      SpanPage(l, numBlocks, outer, part, ids[b], x);
      assert InPart(l, numBlocks, outer, part, ids[b], x);
      assert InLogicalBlock(l, numBlocks, ids[b], x);
    }
    if InNamedBlock(groups, kernelSizes, numBlocks, ids, x) {
      var l, b :| Listed(groups, kernelSizes, l) && 0 <= b < |ids| && InLogicalBlock(l, numBlocks, ids[b], x);
      var outer, part: nat :| InPart(l, numBlocks, outer, part, ids[b], x);
      ListedFits(groups, kernelSizes, numBlocks, l);
      KernelPageLegal(l, outer, ids[b] * Ratio(l, numBlocks) + part, x);
      SpanPage(l, numBlocks, outer, part, ids[b], x);
      var s := SpanAt(l, numBlocks, outer, part);
      assert Placed(l, numBlocks, outer, part, s);
      AllSpansArePages(groups, kernelSizes, numBlocks, s);
      assert Covers(table, s);
      var k :| 0 <= k < |table| && table[k].addr == s.addr && table[k].stride == s.stride && s.page <= table[k].page;
      Wider(s, table[k], ids[b], x);
    }
  }

  lemma KernelPageLegal(l: Layer, outer: seq<nat>, block: nat, x: nat)
    requires InKernelPage(l, outer, block, x)
    ensures |outer| == |Outers(l)| && Legal(Outers(l), outer)
  {
  }

  lemma Wider(s: Span, t: Span, id: nat, x: nat)
    requires s.addr == t.addr && s.stride == t.stride && s.page <= t.page && InPage(s, id, x)
    ensures InPage(t, id, x)
  {
  }

  ghost predicate AllInMemory(groups: seq<Group>, kernelSizes: seq<nat>, length: nat) {
    forall l | Listed(groups, kernelSizes, l) :: InMemory(l, length)
  }

  lemma TableInMemory(groups: seq<Group>, kernelSizes: seq<nat>, numBlocks: nat, table: seq<Span>, k: nat, id: nat,
                      length: nat)
    requires AllFit(groups, kernelSizes, numBlocks) && Exact(table, AllSpans(groups, kernelSizes, numBlocks))
    requires AllInMemory(groups, kernelSizes, length) && k < |table| && id < numBlocks
    ensures PageStart(table[k], id) + 4 * table[k].page <= length
  {
    hide AllFit, Fits, Listed, AllSpans, Ratio, SpanAt, InMemory, PageStart, Legal;
    AllSpansArePages(groups, kernelSizes, numBlocks, table[k]);
    var l, outer, part: nat :| Listed(groups, kernelSizes, l) && Placed(l, numBlocks, outer, part, table[k]);
    ListedFits(groups, kernelSizes, numBlocks, l);
    PageInMemory(l, numBlocks, outer, part, id, length);
  }

  // ---- the zeroer -------------------------------------------------------------------

  class KvBlockZeroer {
    var segAddrs: seq<nat>
    var segStrides: seq<nat>
    var segPages: seq<nat>
    /** Address to position, used while building. */
    var seen: map<nat, nat>
    var ready: bool
    var maxChunks: nat
    var blkSize: nat

    constructor ()
      ensures Sound([]) && !ready && Table() == []
    {
      segAddrs, segStrides, segPages, seen := [], [], [], map[];
      ready, maxChunks, blkSize := false, 0, 0;
    }

    ghost function Table(): (t: seq<Span>)
      requires |segAddrs| == |segStrides| == |segPages|
      reads this`segAddrs, this`segStrides, this`segPages
    {
      Zip(segAddrs, segStrides, segPages)
    }

    /** The lists form a table that is exact for the entries recorded so far. */
    ghost predicate Sound(spans: seq<Span>)
      reads this`segAddrs, this`segStrides, this`segPages, this`seen
    {
      Filed(segAddrs, segStrides, segPages, seen, spans)
    }

    /** Files one page; refuses one whose address is taken with another stride. */
    method AddSpan(s: Span, ghost spans: seq<Span>) returns (ok: bool)
      requires Sound(spans)
      modifies this`segAddrs, this`segStrides, this`segPages, this`seen
      ensures ok <==> Consistent(spans + [s])
      ensures ok ==> Sound(spans + [s])
    {
      ghost var table := Table();
      ExactIsConsistent(table, spans);
      if s.addr in seen {
        var k := seen[s.addr];
        assert table[k] in spans;
        if segStrides[k] != s.stride {
          assert table[k] in spans + [s] && s in spans + [s];
          return false;
        }
        ExactWiden(table, spans, s, k);
        segPages := segPages[k := Max(segPages[k], s.page)];
        assert Table() == table[k := Span(s.addr, s.stride, Max(table[k].page, s.page))];
      } else {
        ExactAppend(table, spans, s);
        seen := seen[s.addr := |segAddrs|];
        segAddrs := segAddrs + [s.addr];
        segStrides := segStrides + [s.stride];
        segPages := segPages + [s.page];
        assert Table() == table + [s];
      }
      ExactIsConsistent(Table(), spans + [s]);
      ok := true;
    }

    /** The pages of one head group, one per virtual block. */
    method AddParts(l: Layer, numBlocks: nat, outer: seq<nat>, ghost spans: seq<Span>) returns (ok: bool)
      requires Sound(spans) && |outer| == |Outers(l)| && numBlocks > 0 && WordAligned(l, outer)
      modifies this`segAddrs, this`segStrides, this`segPages, this`seen
      ensures ok <==> Consistent(spans + PartSpans(l, numBlocks, outer, Ratio(l, numBlocks)))
      ensures ok ==> Sound(spans + PartSpans(l, numBlocks, outer, Ratio(l, numBlocks)))
    {
      hide SpanAt, Consistent, Filed;
      var ratio := Ratio(l, numBlocks);
      assert spans + [] == spans;
      for part := 0 to ratio
        invariant Sound(spans + PartSpans(l, numBlocks, outer, part))
      {
        ghost var so := spans + PartSpans(l, numBlocks, outer, part);
        assert so + [SpanAt(l, numBlocks, outer, part)] == spans + PartSpans(l, numBlocks, outer, part + 1);
        ok := AddSpan(SpanAt(l, numBlocks, outer, part), so);
        if !ok {
          MoreParts(l, numBlocks, outer, part + 1, ratio, spans);
          return;
        }
      }
      SoundIsConsistent(spans + PartSpans(l, numBlocks, outer, ratio));
      ok := true;
    }

    lemma SoundIsConsistent(spans: seq<Span>)
      requires Sound(spans)
      ensures Consistent(spans)
    {
      ExactIsConsistent(Table(), spans);
    }

    /** The pages of every head group of a layer, one address check each. */
    method AddOuters(l: Layer, numBlocks: nat, ghost spans: seq<Span>) returns (ok: bool)
      requires Sound(spans) && numBlocks > 0
      modifies this`segAddrs, this`segStrides, this`segPages, this`seen
      ensures ok <==> OutersAligned(l) && Consistent(spans + LayerSpans(l, numBlocks))
      ensures ok ==> Sound(spans + LayerSpans(l, numBlocks))
    {
      hide Consistent, Filed, Outers, Legal, PartSpans, OuterSpans, LayerSpans, Product, Ratio, Offset;
      var outers := Product(Outers(l));
      WholeLayer(l, numBlocks, outers, spans);
      for j := 0 to |outers|
        invariant forall outer | outer in outers[..j] :: |outer| == |Outers(l)| && WordAligned(l, outer)
        invariant Sound(spans + OuterSpans(l, numBlocks, outers[..j]))
      {
        ProductIsLegal(Outers(l), outers[j]);
        assert outers[..j + 1] == outers[..j] + [outers[j]];
        if (l.base + Offset(Outers(l), outers[j])) % 4 != 0 { return false; }
        ghost var so := spans + OuterSpans(l, numBlocks, outers[..j]);
        NextOuter(l, numBlocks, outers, j, spans);
        ok := AddParts(l, numBlocks, outers[j], so);
        if !ok {
          MoreOuters(l, numBlocks, outers, j + 1, spans);
          return;
        }
      }
      assert outers[..|outers|] == outers;
      forall outer | Legal(Outers(l), outer)
        ensures |outer| == |Outers(l)| && WordAligned(l, outer)
      {
        ProductIsLegal(Outers(l), outer);
      }
      SoundIsConsistent(spans + LayerSpans(l, numBlocks));
      ok := true;
    }

    /** One handled layer: its checks, then its pages. */
    method AddLayer(l: Layer, numBlocks: nat, ghost spans: seq<Span>) returns (ok: bool)
      requires Sound(spans)
      modifies this`segAddrs, this`segStrides, this`segPages, this`seen
      ensures ok <==> Fits(l, numBlocks) && Consistent(spans + LayerSpans(l, numBlocks))
      ensures ok ==> Sound(spans + LayerSpans(l, numBlocks))
    {
      hide Consistent, Filed, PageBytes, LayerSpans, OutersAligned;
      if numBlocks == 0 || l.blocks % numBlocks != 0 { return false; }
      var ratio := l.blocks / numBlocks;
      if l.blockStride % 4 != 0 { return false; }
      if ratio == 0 { return false; }
      WholeRatio(l.blocks, numBlocks);
      if l.blocks % ratio != 0 || PageBytes(l) % 4 != 0 { return false; }
      ok := AddOuters(l, numBlocks, spans);
    }

    method AddGroup(g: Group, kernelSizes: seq<nat>, numBlocks: nat, ghost spans: seq<Span>) returns (ok: bool)
      requires Sound(spans) && Handles(g, kernelSizes)
      modifies this`segAddrs, this`segStrides, this`segPages, this`seen
      ensures ok <==> GroupFits(g, kernelSizes, numBlocks) && Consistent(spans + GroupSpans(g.layers, numBlocks))
      ensures ok ==> Sound(spans + GroupSpans(g.layers, numBlocks))
    {
      hide Consistent, Filed, Fits, LayerSpans, GroupSpans, Handled;
      var kernelSize := kernelSizes[g.id];
      if kernelSize == 0 || g.blockSize % kernelSize != 0 { return false; }
      NoLayers(g.layers, numBlocks, spans);
      for i := 0 to |g.layers|
        invariant Sound(spans + GroupSpans(g.layers[..i], numBlocks))
        invariant forall k | 0 <= k < i && Handled(g.layers[k]) :: Fits(g.layers[k], numBlocks)
      {
        NextLayer(g.layers, numBlocks, i, spans);
        var l := g.layers[i];
        HandledLayer(l);
        if !l.runnerOnly && l.tensor && l.sameDevice {
          ok := AddLayer(g.layers[i], numBlocks, spans + GroupSpans(g.layers[..i], numBlocks));
          if !ok {
            MoreLayers(g.layers, numBlocks, i + 1, spans);
            return;
          }
        }
      }
      assert g.layers[..|g.layers|] == g.layers;
      SoundIsConsistent(spans + GroupSpans(g.layers, numBlocks));
      ok := true;
    }

    /** The table over all groups, or the first failed assertion. It fails exactly when a
        check on a single group or layer fails or two entries clash. */
    method BuildTable(groups: seq<Group>, kernelSizes: seq<nat>, numBlocks: nat) returns (ok: bool)
      requires Sound([])
      modifies this`segAddrs, this`segStrides, this`segPages, this`seen
      ensures ok <==> AllFit(groups, kernelSizes, numBlocks) && Consistent(AllSpans(groups, kernelSizes, numBlocks))
      ensures ok ==> Sound(AllSpans(groups, kernelSizes, numBlocks))
    {
      hide Consistent, Filed, GroupFits, GroupSpans, Handles;
      for i := 0 to |groups|
        invariant Sound(AllSpans(groups[..i], kernelSizes, numBlocks))
        invariant forall g | g in groups[..i] && Handles(g, kernelSizes) :: GroupFits(g, kernelSizes, numBlocks)
      {
        var g := groups[i];
        assert groups[..i + 1] == groups[..i] + [g] && groups[..i + 1][..i] == groups[..i];
        assert AllSpans(groups[..i], kernelSizes, numBlocks) + [] == AllSpans(groups[..i], kernelSizes, numBlocks);
        HandledGroup(g, kernelSizes);
        if g.attention && g.id < |kernelSizes| {
          ok := AddGroup(g, kernelSizes, numBlocks, AllSpans(groups[..i], kernelSizes, numBlocks));
          if !ok {
            MoreGroups(groups, kernelSizes, numBlocks, i + 1);
            return;
          }
        }
      }
      assert groups[..|groups|] == groups;
      SoundIsConsistent(AllSpans(groups, kernelSizes, numBlocks));
      ok := true;
    }

    /** The chunks of a launch reach the end of every page. */
    predicate Chunked()
      reads this
    {
      blkSize > 0 && forall k | 0 <= k < |segPages| :: segPages[k] <= maxChunks * blkSize
    }

    /** Table and launch shape; nothing to launch when no layer is handled. */
    method Init(groups: seq<Group>, kernelSizes: seq<nat>, numBlocks: nat) returns (ok: bool)
      requires Sound([]) && !ready
      modifies this
      ensures ok <==> AllFit(groups, kernelSizes, numBlocks) && Consistent(AllSpans(groups, kernelSizes, numBlocks))
      ensures ok ==> Sound(AllSpans(groups, kernelSizes, numBlocks)) && ready == (|segAddrs| > 0)
      ensures ok && ready ==> Chunked() && blkSize <= 1024 && exists e: nat :: blkSize == Pow2(e)
      ensures ok && ready && blkSize < 1024 ==> forall k | 0 <= k < |segPages| :: segPages[k] <= blkSize
      ensures ok && ready ==> exists k :: 0 <= k < |segPages| && blkSize < 2 * segPages[k]
      ensures ok && ready ==> exists k :: 0 <= k < |segPages| && (maxChunks - 1) * blkSize < segPages[k]
    {
      hide AllFit, Consistent, Exact, AllSpans;
      ok := BuildTable(groups, kernelSizes, numBlocks);
      if !ok || |segAddrs| == 0 { return; }
      PagesArePositive(groups, kernelSizes, numBlocks, Table());
      assert forall k | 0 <= k < |segPages| :: segPages[k] == Table()[k].page;
      maxChunks, blkSize := LaunchShape(segPages);
      ready := true;
    }

    /** Zeroes the named blocks: afterwards every byte they own in any handled layer is zero
        and every other byte is as it was. */
    method ZeroBlockIds(mem: array<Byte>, ids: seq<nat>, order: seq<Program>,
                        ghost groups: seq<Group>, ghost kernelSizes: seq<nat>, ghost numBlocks: nat)
      requires AllFit(groups, kernelSizes, numBlocks) && Sound(AllSpans(groups, kernelSizes, numBlocks))
      requires ready == (|segAddrs| > 0) && (ready ==> Chunked())
      requires AllInMemory(groups, kernelSizes, mem.Length) && forall id | id in ids :: id < numBlocks
      requires ready && |ids| > 0 ==> IsGrid(order, |ids|, |segAddrs|, maxChunks)
      modifies mem
      ensures forall x | 0 <= x < mem.Length ::
                mem[x] == if InNamedBlock(groups, kernelSizes, numBlocks, ids, x) then 0 else old(mem[x])
      ensures forall g, l, id | g in groups && g.attention && g.id < |kernelSizes| && l in g.layers
                                && !l.runnerOnly && l.tensor && l.sameDevice && id in ids ::
                ElementsZero(l, numBlocks, id, mem[..])
      ensures forall x | 0 <= x < mem.Length && mem[x] != old(mem[x]) ::
                exists g, l, id :: g in groups && g.attention && g.id < |kernelSizes| && l in g.layers
                                   && !l.runnerOnly && l.tensor && l.sameDevice && id in ids
                                   && InLogicalBlock(l, numBlocks, id, x)
    {
      hide AllFit, AllSpans, Exact, AllInMemory, InNamedBlock, InNamedPage, TouchedBy, Touches, PageStart, IsGrid;
      ghost var table := Table();
      forall x | 0 <= x < mem.Length
        ensures InNamedPage(table, ids, x) <==> InNamedBlock(groups, kernelSizes, numBlocks, ids, x)
      {
        PagesAreBlocks(groups, kernelSizes, numBlocks, table, ids, x);
      }
      ghost var before := mem[..];
      if |ids| == 0 || !ready {
        NoPages(table, ids);
      } else {
        LaunchGrid(mem, segAddrs, segStrides, segPages, ids, maxChunks, blkSize, order, groups, kernelSizes, numBlocks);
      }
      NamedBlocksZeroed(groups, kernelSizes, numBlocks, ids, before, mem[..]);
    }
  }

  /** A page holds at least one element, so at least one word. */
  lemma PagesArePositive(groups: seq<Group>, kernelSizes: seq<nat>, numBlocks: nat, table: seq<Span>)
    requires AllFit(groups, kernelSizes, numBlocks) && Exact(table, AllSpans(groups, kernelSizes, numBlocks))
    ensures forall k | 0 <= k < |table| :: table[k].page > 0
  {
    hide AllFit, Listed, AllSpans, Legal, Offset, Scaled;
    forall k | 0 <= k < |table|
      ensures table[k].page > 0
    {
      AllSpansArePages(groups, kernelSizes, numBlocks, table[k]);
      var l, outer, part: nat :| Listed(groups, kernelSizes, l) && Placed(l, numBlocks, outer, part, table[k]);
      ListedFits(groups, kernelSizes, numBlocks, l);
    }
  }

  lemma NoPages(table: seq<Span>, ids: seq<nat>)
    requires |table| == 0 || |ids| == 0
    ensures forall x: nat :: !InNamedPage(table, ids, x)
  {
  }

  /** All programs of the grid, one after another in whatever order. */
  method LaunchGrid(mem: array<Byte>, addrs: seq<nat>, strides: seq<nat>, pages: seq<nat>, ids: seq<nat>, chunks: nat,
                    width: nat, order: seq<Program>, ghost groups: seq<Group>, ghost kernelSizes: seq<nat>,
                    ghost numBlocks: nat)
    requires |addrs| == |strides| == |pages| && width > 0 && IsGrid(order, |ids|, |addrs|, chunks)
    requires forall k | 0 <= k < |pages| :: pages[k] <= chunks * width
    requires AllFit(groups, kernelSizes, numBlocks)
    requires Exact(Zip(addrs, strides, pages), AllSpans(groups, kernelSizes, numBlocks))
    requires AllInMemory(groups, kernelSizes, mem.Length) && forall id | id in ids :: id < numBlocks
    modifies mem
    ensures forall x | 0 <= x < mem.Length ::
              mem[x] == if InNamedPage(Zip(addrs, strides, pages), ids, x) then 0 else old(mem[x])
  {
    hide AllFit, AllSpans, Exact, AllInMemory, InNamedPage, TouchedBy, Touches, PageStart;
    ghost var table := Zip(addrs, strides, pages);
    NoneTouched(table, ids, width);
    for i := 0 to |order|
      invariant forall x | 0 <= x < mem.Length ::
        mem[x] == if TouchedBy(table, ids, width, order[..i], x) then 0 else old(mem[x])
    {
      var p := order[i];
      assert p in order;
      var s := Span(addrs[p.seg], strides[p.seg], pages[p.seg]);
      assert s == table[p.seg] && ids[p.block] in ids;
      TableInMemory(groups, kernelSizes, numBlocks, table, p.seg, ids[p.block], mem.Length);
      ZeroChunk(mem, s, ids[p.block], p.chunk, width);
      assert order[..i + 1] == order[..i] + [p];
      forall x | 0 <= x < mem.Length
        ensures TouchedBy(table, ids, width, order[..i + 1], x)
                <==> TouchedBy(table, ids, width, order[..i], x) || Touches(s, ids[p.block], p.chunk, width, x)
      {
        TouchedGrows(table, ids, width, order[..i], p, x);
      }
    }
    assert order[..|order|] == order;
    forall x | 0 <= x < mem.Length
      ensures TouchedBy(table, ids, width, order, x) <==> InNamedPage(table, ids, x)
    {
      GridTouches(table, ids, width, chunks, order, x);
    }
  }

  lemma NoneTouched(table: seq<Span>, ids: seq<nat>, width: nat)
    ensures forall x: nat :: !TouchedBy(table, ids, width, [], x)
  {
  }

  /** Chunk width, the least power of two that holds the widest page or 1024 if that is
      less, and the fewest chunks of that width that reach the end of every page. */
  method LaunchShape(pages: seq<nat>) returns (chunks: nat, width: nat)
    requires |pages| > 0
    requires forall k | 0 <= k < |pages| :: pages[k] > 0
    ensures 0 < width <= 1024 && exists e: nat :: width == Pow2(e)
    ensures width == 1024 || forall k | 0 <= k < |pages| :: pages[k] <= width
    ensures exists k :: 0 <= k < |pages| && width < 2 * pages[k]
    ensures forall k | 0 <= k < |pages| :: pages[k] <= chunks * width
    ensures exists k :: 0 <= k < |pages| && (chunks - 1) * width < pages[k]
  {
    hide Pow2;
    var widest := 0;
    for k := 1 to |pages|
      invariant 0 <= widest < k && forall j | 0 <= j < k :: pages[j] <= pages[widest]
    {
      if pages[k] > pages[widest] { widest := k; }
    }
    var maxPage := pages[widest];
    var bits := BitLength(maxPage - 1);
    BitLengthBounds(maxPage - 1);
    CappedPow2(bits);
    width := Min(Pow2(bits), 1024);
    chunks := CeilDiv(maxPage, width);
    CeilDivBounds(maxPage, width);
    hide CeilDiv;
    assert forall k | 0 <= k < |pages| :: pages[k] <= maxPage;
  }

  /** Python's `int.bit_length` of a non-negative number. */
  function BitLength(n: nat): nat { if n == 0 then 0 else 1 + BitLength(n / 2) }

  function Pow2(e: nat): (p: nat)
    ensures p > 0
  {
    if e == 0 then 1 else 2 * Pow2(e - 1)
  }

  lemma {:induction false} BitLengthBounds(n: nat)
    ensures n < Pow2(BitLength(n)) && (if n > 0 then Pow2(BitLength(n)) <= 2 * n else Pow2(BitLength(n)) == 1)
  {
    if n > 0 { BitLengthBounds(n / 2); }
  }

  /** 1024 is a power of two as well. */
  lemma CappedPow2(bits: nat)
    ensures exists e: nat :: Min(Pow2(bits), 1024) == Pow2(e)
  {
    assert Pow2(10) == 1024;
    if Pow2(bits) > 1024 { assert Min(Pow2(bits), 1024) == Pow2(10); }
    else { assert Min(Pow2(bits), 1024) == Pow2(bits); }
  }

  // ---- loop steps of the builder ----------------------------------------------------

  lemma WholeRatio(blocks: nat, numBlocks: nat)
    requires numBlocks > 0 && blocks % numBlocks == 0
    ensures blocks / numBlocks > 0 ==> blocks % (blocks / numBlocks) == 0
  {
    var ratio := blocks / numBlocks;
    if ratio > 0 {
      assert blocks == numBlocks * ratio;
      MulDiv(numBlocks, ratio);
    }
  }

  lemma NoLayers(layers: seq<Layer>, numBlocks: nat, spans: seq<Span>)
    ensures spans + GroupSpans(layers[..0], numBlocks) == spans
  {
  }

  lemma NextLayer(layers: seq<Layer>, numBlocks: nat, i: nat, spans: seq<Span>)
    requires i < |layers|
    ensures Handled(layers[i]) ==> spans + GroupSpans(layers[..i + 1], numBlocks)
                                   == spans + GroupSpans(layers[..i], numBlocks) + LayerSpans(layers[i], numBlocks)
    ensures !Handled(layers[i]) ==>
              spans + GroupSpans(layers[..i + 1], numBlocks) == spans + GroupSpans(layers[..i], numBlocks)
  {
    assert layers[..i + 1][..i] == layers[..i];
  }

  lemma WholeLayer(l: Layer, numBlocks: nat, outers: seq<seq<nat>>, spans: seq<Span>)
    requires outers == Product(Outers(l))
    ensures forall outer | outer in outers :: |outer| == |Outers(l)|
    ensures spans + OuterSpans(l, numBlocks, outers[..0]) == spans
    ensures OuterSpans(l, numBlocks, outers) == LayerSpans(l, numBlocks)
  {
    ProductLengths(Outers(l));
  }

  lemma NextOuter(l: Layer, numBlocks: nat, outers: seq<seq<nat>>, j: nat, spans: seq<Span>)
    requires j < |outers| && forall outer | outer in outers :: |outer| == |Outers(l)|
    ensures forall outer | outer in outers[..j + 1] :: |outer| == |Outers(l)|
    ensures spans + OuterSpans(l, numBlocks, outers[..j]) + PartSpans(l, numBlocks, outers[j], Ratio(l, numBlocks))
            == spans + OuterSpans(l, numBlocks, outers[..j + 1])
  {
    assert outers[..j + 1][..j] == outers[..j];
  }
}
