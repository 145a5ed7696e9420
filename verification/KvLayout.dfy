/** Byte layout of the per-layer cache views, and the pages that the zeroing table must list
    for them. All strides are in bytes, as the table builder scales them. */
module KvLayout {
  import opened IntMath

  type Positive = x: int | x > 0 witness 1

  /** One dimension after the block dimension. */
  datatype Dim = Dim(size: Positive, stride: nat)

  /** One layer's entry in the forward context and its cache view `[B, ...dims]`. */
  datatype Layer = Layer(runnerOnly: bool, tensor: bool, sameDevice: bool, base: nat, blocks: nat, blockStride: nat,
                         element: Positive, dims: seq<Dim>)

  datatype Group = Group(attention: bool, id: nat, blockSize: nat, layers: seq<Layer>)

  /** A table entry: byte address, block stride and page size, the last two in words. */
  datatype Span = Span(addr: nat, stride: nat, page: nat)

  predicate Handled(l: Layer) { !l.runnerOnly && l.tensor && l.sameDevice }

  predicate Handles(g: Group, kernelSizes: seq<nat>) { g.attention && g.id < |kernelSizes| }

  lemma HandledLayer(l: Layer)
    ensures Handled(l) <==> !l.runnerOnly && l.tensor && l.sameDevice
  {
  }

  lemma HandledGroup(g: Group, kernelSizes: seq<nat>)
    ensures Handles(g, kernelSizes) <==> g.attention && g.id < |kernelSizes|
  {
  }

  // ---- index arithmetic -------------------------------------------------------------

  predicate Legal(dims: seq<Dim>, index: seq<nat>) {
    |index| == |dims| && forall d | 0 <= d < |dims| :: index[d] < dims[d].size
  }

  function Offset(dims: seq<Dim>, index: seq<nat>): nat
    requires |index| == |dims|
  {
    if |dims| == 0 then 0 else Scaled(index[0], dims[0].stride) + Offset(dims[1..], index[1..])
  }

  function Scaled(count: nat, stride: nat): nat { count * stride }

  /** Distance from the first element to the last. */
  function Reach(dims: seq<Dim>): nat {
    if |dims| == 0 then 0 else Scaled(dims[0].size - 1, dims[0].stride) + Reach(dims[1..])
  }

  /** Dimensions whose stride leaves the block, and the rest. */
  function OuterDims(dims: seq<Dim>, blockStride: nat): seq<Dim> {
    if |dims| == 0 then []
    else (if dims[0].stride > blockStride then [dims[0]] else []) + OuterDims(dims[1..], blockStride)
  }

  function InnerDims(dims: seq<Dim>, blockStride: nat): seq<Dim> {
    if |dims| == 0 then []
    else (if dims[0].stride > blockStride then [] else [dims[0]]) + InnerDims(dims[1..], blockStride)
  }

  /** The coordinates of an element along the outer dimensions, and along the rest. */
  function OuterIndex(dims: seq<Dim>, blockStride: nat, index: seq<nat>): seq<nat>
    requires |index| == |dims|
  {
    if |dims| == 0 then []
    else (if dims[0].stride > blockStride then [index[0]] else []) + OuterIndex(dims[1..], blockStride, index[1..])
  }

  function InnerIndex(dims: seq<Dim>, blockStride: nat, index: seq<nat>): seq<nat>
    requires |index| == |dims|
  {
    if |dims| == 0 then []
    else (if dims[0].stride > blockStride then [] else [index[0]]) + InnerIndex(dims[1..], blockStride, index[1..])
  }

  lemma {:induction false} OffsetWithin(dims: seq<Dim>, index: seq<nat>)
    requires Legal(dims, index)
    ensures Offset(dims, index) <= Reach(dims)
  {
    if |dims| > 0 {
      MulMono(index[0], dims[0].size - 1, dims[0].stride);
      OffsetWithin(dims[1..], index[1..]);
    }
  }

  /** Both parts of an index are legal, and its offset is the sum of theirs. */
  predicate Splits(dims: seq<Dim>, blockStride: nat, index: seq<nat>)
    requires |index| == |dims|
  {
    && Legal(OuterDims(dims, blockStride), OuterIndex(dims, blockStride, index))
    && Legal(InnerDims(dims, blockStride), InnerIndex(dims, blockStride, index))
    && Offset(dims, index) == Offset(OuterDims(dims, blockStride), OuterIndex(dims, blockStride, index))
                              + Offset(InnerDims(dims, blockStride), InnerIndex(dims, blockStride, index))
  }

  lemma SplitNone(dims: seq<Dim>, blockStride: nat, index: seq<nat>)
    requires |dims| == 0 == |index|
    ensures Splits(dims, blockStride, index)
  {
  }

  /** A legal first coordinate before legal others. */
  lemma LegalStep(dims: seq<Dim>, index: seq<nat>)
    ensures |dims| > 0 && |index| > 0 && index[0] < dims[0].size && Legal(dims[1..], index[1..]) ==> Legal(dims, index)
  {
    if |dims| > 0 && |index| > 0 && index[0] < dims[0].size && Legal(dims[1..], index[1..]) {
      forall d | 0 <= d < |dims|
        ensures index[d] < dims[d].size
      {
        if d > 0 { assert index[d] == index[1..][d - 1] && dims[d] == dims[1..][d - 1]; }
      }
    }
  }

  /** The step where the first dimension leaves the block. */
  lemma SplitOuter(dims: seq<Dim>, blockStride: nat, index: seq<nat>)
    requires Legal(dims, index) && |dims| > 0 && dims[0].stride > blockStride
    requires Splits(dims[1..], blockStride, index[1..])
    ensures Splits(dims, blockStride, index)
  {
    hide Scaled;
    LegalStep(OuterDims(dims, blockStride), OuterIndex(dims, blockStride, index));
    assert OuterDims(dims, blockStride)[1..] == OuterDims(dims[1..], blockStride);
    assert OuterIndex(dims, blockStride, index)[1..] == OuterIndex(dims[1..], blockStride, index[1..]);
    assert InnerDims(dims, blockStride) == InnerDims(dims[1..], blockStride);
    assert InnerIndex(dims, blockStride, index) == InnerIndex(dims[1..], blockStride, index[1..]);
  }

  /** The step where it stays inside. */
  lemma SplitInner(dims: seq<Dim>, blockStride: nat, index: seq<nat>)
    requires Legal(dims, index) && |dims| > 0 && dims[0].stride <= blockStride
    requires Splits(dims[1..], blockStride, index[1..])
    ensures Splits(dims, blockStride, index)
  {
    hide Scaled;
    LegalStep(InnerDims(dims, blockStride), InnerIndex(dims, blockStride, index));
    assert InnerDims(dims, blockStride)[1..] == InnerDims(dims[1..], blockStride);
    assert InnerIndex(dims, blockStride, index)[1..] == InnerIndex(dims[1..], blockStride, index[1..]);
    assert OuterDims(dims, blockStride) == OuterDims(dims[1..], blockStride);
    assert OuterIndex(dims, blockStride, index) == OuterIndex(dims[1..], blockStride, index[1..]);
  }

  /** An element's offset is its head group's offset plus its offset inside the page. */
  lemma {:induction false} OffsetSplits(dims: seq<Dim>, blockStride: nat, index: seq<nat>)
    requires Legal(dims, index)
    ensures Splits(dims, blockStride, index)
  {
    hide Splits;
    if |dims| == 0 {
      SplitNone(dims, blockStride, index);
    } else {
      OffsetSplits(dims[1..], blockStride, index[1..]);
      if dims[0].stride > blockStride {
        SplitOuter(dims, blockStride, index);
      } else {
        SplitInner(dims, blockStride, index);
      }
    }
  }

  /** Every index tuple of the dimensions, in the order `itertools.product` lists them. */
  function Product(dims: seq<Dim>): seq<seq<nat>> {
    if |dims| == 0 then [[]] else Prefixed(dims[0].size, Product(dims[1..]))
  }

  function Prefixed(count: nat, tails: seq<seq<nat>>): seq<seq<nat>> {
    if count == 0 then []
    else Prefixed(count - 1, tails) + seq(|tails|, j requires 0 <= j < |tails| => [count - 1] + tails[j])
  }

  lemma {:induction false} InPrefixed(count: nat, tails: seq<seq<nat>>, index: seq<nat>)
    ensures index in Prefixed(count, tails) <==> |index| > 0 && index[0] < count && index[1..] in tails
  {
    if count > 0 {
      InPrefixed(count - 1, tails, index);
      var last := seq(|tails|, j requires 0 <= j < |tails| => [count - 1] + tails[j]);
      assert Prefixed(count, tails) == Prefixed(count - 1, tails) + last;
      if index in last {
        var j :| 0 <= j < |last| && last[j] == index;
        assert index[1..] == tails[j];
      }
      if |index| > 0 && index[0] == count - 1 && index[1..] in tails {
        var j :| 0 <= j < |tails| && tails[j] == index[1..];
        assert last[j] == index;
      }
    }
  }

  lemma {:induction false} ProductIsLegal(dims: seq<Dim>, index: seq<nat>)
    ensures index in Product(dims) <==> Legal(dims, index)
  {
    if |dims| > 0 {
      InPrefixed(dims[0].size, Product(dims[1..]), index);
      if |index| > 0 {
        ProductIsLegal(dims[1..], index[1..]);
        LegalStep(dims, index);
      }
    }
  }

  // ---- pages of one layer -----------------------------------------------------------

  function Outers(l: Layer): seq<Dim> { OuterDims(l.dims, l.blockStride) }

  /** Bytes from a kernel block's first element to the end of its last. */
  function PageBytes(l: Layer): nat { l.element + Reach(InnerDims(l.dims, l.blockStride)) }

  /** Kernel blocks per logical block. */
  function Ratio(l: Layer, numBlocks: nat): nat { if numBlocks == 0 then 0 else l.blocks / numBlocks }

  function SpanAt(l: Layer, numBlocks: nat, outer: seq<nat>, part: nat): Span
    requires |outer| == |Outers(l)|
  {
    Span(l.base + Offset(Outers(l), outer) + Scaled(part, l.blockStride),
         Scaled(Ratio(l, numBlocks), l.blockStride) / 4, PageBytes(l) / 4)
  }

  predicate WordAligned(l: Layer, outer: seq<nat>)
    requires |outer| == |Outers(l)|
  {
    (l.base + Offset(Outers(l), outer)) % 4 == 0
  }

  /** None of the builder's assertions about this layer alone fails. */
  ghost predicate Fits(l: Layer, numBlocks: nat) {
    && numBlocks > 0 && l.blocks % numBlocks == 0 && Ratio(l, numBlocks) > 0
    && l.blockStride % 4 == 0 && PageBytes(l) % 4 == 0
    && OutersAligned(l)
  }

  ghost predicate OutersAligned(l: Layer) {
    forall outer | Legal(Outers(l), outer) :: WordAligned(l, outer)
  }

  function ElementAt(l: Layer, kernelBlock: nat, index: seq<nat>): nat
    requires |index| == |l.dims|
  {
    l.base + Scaled(kernelBlock, l.blockStride) + Offset(l.dims, index)
  }

  /** Where the page of entry `s` starts for logical block `id`: the kernel adds words. */
  function PageStart(s: Span, id: nat): nat { s.addr + 4 * Scaled(id, s.stride) }

  predicate InPage(s: Span, id: nat, x: nat) { PageStart(s, id) <= x < PageStart(s, id) + 4 * s.page }

  /** Part `part` of logical block `id` is kernel block `id * ratio + part`. */
  lemma PageIsKernelBlock(l: Layer, numBlocks: nat, outer: seq<nat>, part: nat, id: nat)
    requires Fits(l, numBlocks) && Legal(Outers(l), outer)
    ensures PageStart(SpanAt(l, numBlocks, outer, part), id)
            == l.base + Offset(Outers(l), outer) + Scaled(id * Ratio(l, numBlocks) + part, l.blockStride)
    ensures 4 * SpanAt(l, numBlocks, outer, part).page == PageBytes(l)
  {
    var ratio, words := Ratio(l, numBlocks), l.blockStride / 4;
    assert l.blockStride == 4 * words;
    assert Scaled(ratio, l.blockStride) == 4 * (ratio * words);
    assert id * ratio * l.blockStride == 4 * (id * (ratio * words));
  }

  // ---- all entries, in the order they are listed ------------------------------------

  function PartSpans(l: Layer, numBlocks: nat, outer: seq<nat>, parts: nat): seq<Span>
    requires |outer| == |Outers(l)|
  {
    if parts == 0 then [] else PartSpans(l, numBlocks, outer, parts - 1) + [SpanAt(l, numBlocks, outer, parts - 1)]
  }

  function OuterSpans(l: Layer, numBlocks: nat, outers: seq<seq<nat>>): seq<Span>
    requires forall outer | outer in outers :: |outer| == |Outers(l)|
  {
    if |outers| == 0 then []
    else OuterSpans(l, numBlocks, outers[..|outers| - 1])
         + PartSpans(l, numBlocks, outers[|outers| - 1], Ratio(l, numBlocks))
  }

  function LayerSpans(l: Layer, numBlocks: nat): seq<Span> {
    ProductLengths(Outers(l));
    OuterSpans(l, numBlocks, Product(Outers(l)))
  }

  lemma ProductLengths(dims: seq<Dim>)
    ensures forall index | index in Product(dims) :: |index| == |dims|
  {
    forall index | index in Product(dims)
      ensures |index| == |dims|
    {
      ProductIsLegal(dims, index);
    }
  }

  function GroupSpans(layers: seq<Layer>, numBlocks: nat): seq<Span> {
    if |layers| == 0 then []
    else
      var last := layers[|layers| - 1];
      GroupSpans(layers[..|layers| - 1], numBlocks) + if Handled(last) then LayerSpans(last, numBlocks) else []
  }

  function AllSpans(groups: seq<Group>, kernelSizes: seq<nat>, numBlocks: nat): seq<Span> {
    if |groups| == 0 then []
    else
      var last := groups[|groups| - 1];
      AllSpans(groups[..|groups| - 1], kernelSizes, numBlocks)
      + if Handles(last, kernelSizes) then GroupSpans(last.layers, numBlocks) else []
  }

  /** Entry `s` is the page of part `part` in head group `outer` of a handled layer. */
  predicate Placed(l: Layer, numBlocks: nat, outer: seq<nat>, part: nat, s: Span) {
    Legal(Outers(l), outer) && part < Ratio(l, numBlocks) && s == SpanAt(l, numBlocks, outer, part)
  }

  lemma {:induction false} InPartSpans(l: Layer, numBlocks: nat, outer: seq<nat>, parts: nat, s: Span)
    requires |outer| == |Outers(l)|
    ensures s in PartSpans(l, numBlocks, outer, parts)
            <==> exists part: nat :: part < parts && s == SpanAt(l, numBlocks, outer, part)
  {
    hide SpanAt;
    if parts > 0 { InPartSpans(l, numBlocks, outer, parts - 1, s); }
  }

  lemma {:induction false} InOuterSpans(l: Layer, numBlocks: nat, outers: seq<seq<nat>>, s: Span)
    requires forall outer | outer in outers :: |outer| == |Outers(l)| && Legal(Outers(l), outer)
    ensures s in OuterSpans(l, numBlocks, outers)
            <==> exists outer, part: nat :: outer in outers && Placed(l, numBlocks, outer, part, s)
  {
    hide SpanAt, Ratio, Legal;
    if |outers| > 0 {
      var last := outers[|outers| - 1];
      InOuterSpans(l, numBlocks, outers[..|outers| - 1], s);
      InPartSpans(l, numBlocks, last, Ratio(l, numBlocks), s);
      if part: nat :| part < Ratio(l, numBlocks) && s == SpanAt(l, numBlocks, last, part) {
        assert last in outers && Placed(l, numBlocks, last, part, s);
      }
      assert outers == outers[..|outers| - 1] + [last];
    }
  }

  lemma InLayerSpans(l: Layer, numBlocks: nat, s: Span)
    ensures s in LayerSpans(l, numBlocks) <==> exists outer, part: nat :: Placed(l, numBlocks, outer, part, s)
  {
    hide SpanAt, Ratio, Legal;
    var outers := Product(Outers(l));
    ProductLengths(Outers(l));
    forall outer
      ensures outer in outers <==> Legal(Outers(l), outer)
    {
      ProductIsLegal(Outers(l), outer);
    }
    InOuterSpans(l, numBlocks, outers, s);
  }

  lemma {:induction false} InGroupSpans(layers: seq<Layer>, numBlocks: nat, s: Span)
    ensures s in GroupSpans(layers, numBlocks)
            <==> exists l :: l in layers && Handled(l) && s in LayerSpans(l, numBlocks)
  {
    hide LayerSpans, Handled;
    if |layers| > 0 {
      InGroupSpans(layers[..|layers| - 1], numBlocks, s);
      assert layers == layers[..|layers| - 1] + [layers[|layers| - 1]];
    }
  }

  lemma {:induction false} InAllSpans(groups: seq<Group>, kernelSizes: seq<nat>, numBlocks: nat, s: Span)
    ensures s in AllSpans(groups, kernelSizes, numBlocks)
            <==> exists g :: g in groups && Handles(g, kernelSizes) && s in GroupSpans(g.layers, numBlocks)
  {
    hide GroupSpans, Handles;
    if |groups| > 0 {
      InAllSpans(groups[..|groups| - 1], kernelSizes, numBlocks, s);
      assert groups == groups[..|groups| - 1] + [groups[|groups| - 1]];
    }
  }

  /** Layer `l` is one the builder lists. */
  predicate Listed(groups: seq<Group>, kernelSizes: seq<nat>, l: Layer) {
    exists g :: g in groups && Handles(g, kernelSizes) && l in g.layers && Handled(l)
  }

  /** The entries demanded are exactly the pages of the listed layers. */
  lemma AllSpansArePages(groups: seq<Group>, kernelSizes: seq<nat>, numBlocks: nat, s: Span)
    ensures s in AllSpans(groups, kernelSizes, numBlocks)
            <==> exists l, outer, part: nat :: Listed(groups, kernelSizes, l) && Placed(l, numBlocks, outer, part, s)
  {
    hide AllSpans, GroupSpans, LayerSpans, Handles, Handled, Placed;
    InAllSpans(groups, kernelSizes, numBlocks, s);
    if s in AllSpans(groups, kernelSizes, numBlocks) {
      var g :| g in groups && Handles(g, kernelSizes) && s in GroupSpans(g.layers, numBlocks);
      InGroupSpans(g.layers, numBlocks, s);
      var l :| l in g.layers && Handled(l) && s in LayerSpans(l, numBlocks);
      InLayerSpans(l, numBlocks, s);
      assert Listed(groups, kernelSizes, l);
    }
    if l, outer, part: nat :| Listed(groups, kernelSizes, l) && Placed(l, numBlocks, outer, part, s) {
      InLayerSpans(l, numBlocks, s);
      var g :| g in groups && Handles(g, kernelSizes) && l in g.layers && Handled(l);
      InGroupSpans(g.layers, numBlocks, s);
    }
  }

  // ---- pages of kernel blocks -------------------------------------------------------

  /** Byte `x` is in the page of kernel block `block` for head group `outer`. */
  predicate InKernelPage(l: Layer, outer: seq<nat>, block: nat, x: nat) {
    && Legal(Outers(l), outer)
    && var start := l.base + Offset(Outers(l), outer) + Scaled(block, l.blockStride);
       start <= x < start + PageBytes(l)
  }

  /** Byte `x` is in a page of logical block `id` of layer `l`. */
  ghost predicate InLogicalBlock(l: Layer, numBlocks: nat, id: nat, x: nat) {
    exists outer, part: nat :: InPart(l, numBlocks, outer, part, id, x)
  }

  /** ... in the one for head group `outer` and kernel block `part` of the logical block. */
  predicate InPart(l: Layer, numBlocks: nat, outer: seq<nat>, part: nat, id: nat, x: nat) {
    part < Ratio(l, numBlocks) && InKernelPage(l, outer, id * Ratio(l, numBlocks) + part, x)
  }

  /** Every byte of every element of a logical block is in one of its pages. */
  lemma ElementInLogicalBlock(l: Layer, numBlocks: nat, id: nat, part: nat, index: seq<nat>, byte: nat)
    requires part < Ratio(l, numBlocks) && Legal(l.dims, index) && byte < l.element
    ensures InLogicalBlock(l, numBlocks, id, ElementAt(l, id * Ratio(l, numBlocks) + part, index) + byte)
  {
    hide Offset, Reach, Scaled, Ratio;
    var outer := OuterIndex(l.dims, l.blockStride, index);
    OffsetSplits(l.dims, l.blockStride, index);
    OffsetWithin(InnerDims(l.dims, l.blockStride), InnerIndex(l.dims, l.blockStride, index));
    assert InPart(l, numBlocks, outer, part, id, ElementAt(l, id * Ratio(l, numBlocks) + part, index) + byte);
  }

  /** The last element of a page: given outer coordinates, and the largest inner ones. */
  function LastOf(dims: seq<Dim>, blockStride: nat, outer: seq<nat>): seq<nat>
    requires |outer| == |OuterDims(dims, blockStride)|
  {
    if |dims| == 0 then []
    else if dims[0].stride > blockStride then [outer[0]] + LastOf(dims[1..], blockStride, outer[1..])
    else [dims[0].size - 1] + LastOf(dims[1..], blockStride, outer)
  }

  lemma {:induction false} LastOffset(dims: seq<Dim>, blockStride: nat, outer: seq<nat>)
    requires Legal(OuterDims(dims, blockStride), outer)
    ensures Legal(dims, LastOf(dims, blockStride, outer))
    ensures Offset(dims, LastOf(dims, blockStride, outer))
            == Offset(OuterDims(dims, blockStride), outer) + Reach(InnerDims(dims, blockStride))
  {
    hide Scaled;
    if |dims| > 0 {
      var rest := dims[1..];
      if dims[0].stride > blockStride {
        assert OuterDims(dims, blockStride)[1..] == OuterDims(rest, blockStride);
        assert InnerDims(dims, blockStride) == InnerDims(rest, blockStride);
        LastOffset(rest, blockStride, outer[1..]);
        assert LastOf(dims, blockStride, outer)[1..] == LastOf(rest, blockStride, outer[1..]);
      } else {
        assert OuterDims(dims, blockStride) == OuterDims(rest, blockStride);
        assert InnerDims(dims, blockStride)[1..] == InnerDims(rest, blockStride);
        LastOffset(rest, blockStride, outer);
        assert LastOf(dims, blockStride, outer)[1..] == LastOf(rest, blockStride, outer);
      }
    }
  }

  /** The tensor's elements lie in a memory of `length` bytes. */
  ghost predicate InMemory(l: Layer, length: nat) {
    forall block: nat, index | block < l.blocks && Legal(l.dims, index) ::
      ElementAt(l, block, index) + l.element <= length
  }

  /** A page ends where its last element does, so it stays in memory with the elements. */
  lemma PageInMemory(l: Layer, numBlocks: nat, outer: seq<nat>, part: nat, id: nat, length: nat)
    requires Fits(l, numBlocks) && InMemory(l, length) && Legal(Outers(l), outer) && part < Ratio(l, numBlocks)
             && id < numBlocks
    ensures var s := SpanAt(l, numBlocks, outer, part); PageStart(s, id) + 4 * s.page <= length
  {
    hide Offset, Reach, Scaled;
    var ratio := Ratio(l, numBlocks);
    var block := id * ratio + part;
    assert block < l.blocks by {
      assert l.blocks == numBlocks * ratio;
      MulMono(id + 1, numBlocks, ratio);
    }
    var index := LastOf(l.dims, l.blockStride, outer);
    LastOffset(l.dims, l.blockStride, outer);
    PageIsKernelBlock(l, numBlocks, outer, part, id);
    assert ElementAt(l, block, index) + l.element <= length;
  }
}
