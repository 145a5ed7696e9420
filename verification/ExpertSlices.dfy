/** Tensor-parallel slices of MXFP4 experts: which rows and nibble columns a rank stores,
    in which slot, and why the ranks' partial outputs add up to the whole expert. */
module ExpertSlices {
  import opened Bytes
  import opened IntMath
  import opened RealSums

  /** Rows of bytes. */
  type Plane = seq<seq<Byte>>

  /** Packed weights, two channels a byte, and one scale for every 32 channels of a row. */
  datatype Projection = Projection(weight: Plane, scales: Plane)

  datatype Expert = Expert(gate: Projection, up: Projection, down: Projection)

  datatype Result<+T> = Ok(value: T) | Err

  // ---- The extent of a rank ----

  /** `tp_extent` */
  function TpExtent(size: int, rank: int, ranks: int, alignment: nat): Result<(nat, nat)>
    requires alignment > 0
  {
    if ranks <= 0 || !(0 <= rank < ranks) || size <= 0 || size % (alignment * ranks) != 0 then Err
    else
      var local := size / ranks;
      ExtentNonNegative(size, rank, ranks);
      Ok((rank * local, (rank + 1) * local))
  }

  lemma ExtentNonNegative(size: int, rank: int, ranks: int)
    requires ranks > 0 && 0 <= rank && size > 0
    ensures rank * (size / ranks) >= 0 && (rank + 1) * (size / ranks) >= 0
  {
    DivMono(0, size, ranks);
    MulMono(0, rank, size / ranks);
    MulMono(0, rank + 1, size / ranks);
  }

  lemma EvenSplit(size: nat, ranks: nat, alignment: nat)
    requires ranks > 0 && alignment > 0 && size > 0 && size % (alignment * ranks) == 0
    ensures ranks * (size / ranks) == size && size / ranks > 0 && (size / ranks) % alignment == 0
  {
    var unit := alignment * ranks;
    var q := size / unit;
    assert size == unit * q;
    assert size == ranks * (alignment * q);
    assert alignment * q * ranks == size;
    DivUnique(size, ranks, alignment * q);
    MulDiv(q, alignment);
    assert q * alignment == alignment * q;
    if q <= 0 { MulMono(q, 0, unit); }
    MulMono(1, q, alignment);
  }

  /** Extents of successive ranks follow one another, start at 0 and end at the size; each is
      a whole number of scale groups and of bytes. */
  lemma ExtentsPartition(size: nat, ranks: nat, alignment: nat, rank: nat)
    requires rank < ranks && alignment > 0 && TpExtent(size, rank, ranks, alignment).Ok?
    ensures var (first, last) := TpExtent(size, rank, ranks, alignment).value;
            && first < last <= size && first % alignment == 0 && last % alignment == 0
            && (rank == 0 ==> first == 0) && (rank + 1 == ranks ==> last == size)
            && (rank + 1 < ranks ==> TpExtent(size, rank + 1, ranks, alignment).Ok?
                                     && TpExtent(size, rank + 1, ranks, alignment).value.0 == last)
  {
    EvenSplit(size, ranks, alignment);
    var local := size / ranks;
    Aligned(rank, local, alignment);
    Aligned(rank + 1, local, alignment);
    assert (rank + 1) * local == rank * local + local;
    MulMono(rank + 1, ranks, local);
  }

  /** There is an extent exactly for a rank of the group and a positive size that the ranks
      can share in whole alignment units; the shares are equal. */
  lemma ExtentExists(size: int, rank: int, ranks: int, alignment: nat)
    requires alignment > 0
    ensures TpExtent(size, rank, ranks, alignment).Ok? <==>
              0 <= rank < ranks && exists units: nat {:trigger units * (alignment * ranks)} ::
                                     units > 0 && size == units * (alignment * ranks)
    ensures TpExtent(size, rank, ranks, alignment).Ok? ==>
              var (first, last) := TpExtent(size, rank, ranks, alignment).value; ranks * (last - first) == size
  {
    if 0 <= rank < ranks {
      var unit := alignment * ranks;
      MulMono(1, alignment, ranks);
      if size > 0 && size % unit == 0 {
        EvenSplit(size, ranks, alignment);
        var q := size / unit;
        assert size == q * unit && q > 0 by { DivMono(0, size, unit); }
        assert (rank + 1) * (size / ranks) == rank * (size / ranks) + size / ranks;
      }
      if units: nat :| units > 0 && size == units * unit {
        MulDiv(units, unit);
        MulMono(1, units, unit);
      }
    }
  }

  lemma Aligned(rank: nat, local: nat, alignment: nat)
    requires alignment > 0 && local % alignment == 0
    ensures rank * local % alignment == 0
  {
    var q := local / alignment;
    assert local == alignment * q;
    assert rank * local == (rank * q) * alignment;
    MulDiv(rank * q, alignment);
  }

  // ---- Loading ----

  predicate PlaneShape(p: Plane, rows: nat, columns: nat) {
    |p| == rows && forall i | 0 <= i < rows :: |p[i]| == columns
  }

  /** Geometry the loader demands of one projection. */
  predicate ProjectionShape(p: Projection, rows: nat, channels: nat) {
    PlaneShape(p.weight, rows, channels / 2) && PlaneShape(p.scales, rows, channels / 32)
  }

  predicate ExpertShape(e: Expert, hidden: nat, inter: nat) {
    && ProjectionShape(e.gate, inter, hidden) && ProjectionShape(e.up, inter, hidden)
    && ProjectionShape(e.down, hidden, inter)
  }

  /** A rectangle of a plane. */
  function Cut(p: Plane, r0: nat, r1: nat, c0: nat, c1: nat): Plane
    requires r0 <= r1 <= |p| && forall i | 0 <= i < |p| :: c0 <= c1 <= |p[i]|
  {
    seq(r1 - r0, i requires 0 <= i < r1 - r0 => p[r0 + i][c0..c1])
  }

  // What a rank keeps of an expert.

  predicate ExtentOk(inter: nat, first: nat, last: nat) {
    first <= last <= inter && first % 32 == 0 && last % 32 == 0
  }

  lemma Halves(inter: nat, first: nat, last: nat)
    requires ExtentOk(inter, first, last)
    ensures first / 2 <= last / 2 <= inter / 2 && (last - first) / 2 == last / 2 - first / 2
    ensures first / 32 <= last / 32 <= inter / 32
  {
    DivMono(first, last, 32);
    DivMono(last, inter, 32);
    DivMono(last, inter, 2);
    var a, b := first / 32, last / 32;
    assert first == 16 * a * 2 && last == 16 * b * 2;
    DivUnique(first, 2, 16 * a);
    DivUnique(last, 2, 16 * b);
    DivUnique(last - first, 2, 16 * (b - a));
  }

  /** Gate rows, then up rows. */
  function GateUp(e: Expert, hidden: nat, inter: nat, first: nat, last: nat): Plane
    requires ExpertShape(e, hidden, inter) && ExtentOk(inter, first, last)
  {
    Cut(e.gate.weight, first, last, 0, hidden / 2) + Cut(e.up.weight, first, last, 0, hidden / 2)
  }

  /** Nibble columns of the down projection. */
  function Down(e: Expert, hidden: nat, inter: nat, first: nat, last: nat): Plane
    requires ExpertShape(e, hidden, inter) && ExtentOk(inter, first, last)
  {
    Halves(inter, first, last);
    Cut(e.down.weight, 0, hidden, first / 2, last / 2)
  }

  function GateScales(e: Expert, hidden: nat, inter: nat, first: nat, last: nat): Plane
    requires ExpertShape(e, hidden, inter) && ExtentOk(inter, first, last)
  {
    Cut(e.gate.scales, first, last, 0, hidden / 32)
  }

  function UpScales(e: Expert, hidden: nat, inter: nat, first: nat, last: nat): Plane
    requires ExpertShape(e, hidden, inter) && ExtentOk(inter, first, last)
  {
    Cut(e.up.scales, first, last, 0, hidden / 32)
  }

  function DownScales(e: Expert, hidden: nat, inter: nat, first: nat, last: nat): Plane
    requires ExpertShape(e, hidden, inter) && ExtentOk(inter, first, last)
  {
    Halves(inter, first, last);
    Cut(e.down.scales, 0, hidden, first / 32, last / 32)
  }

  // The destination tensors.

  /** Slot `s` of a destination as rows of bytes. */
  ghost function Slot(w: array3<Byte>, s: nat): (p: Plane)
    requires s < w.Length0
    reads w
    ensures |p| == w.Length1 && forall r | 0 <= r < |p| :: |p[r]| == w.Length2
  {
    seq(w.Length1, r requires 0 <= r < w.Length1 reads w =>
        seq(w.Length2, c requires 0 <= c < w.Length2 reads w => w[s, r, c]))
  }

  /** Copy rows `r0 ..` and columns `c0 ..` of a plane over rows `at ..` of a slot. */
  method CopyRows(dst: array3<Byte>, s: nat, at: nat, src: Plane, r0: nat, rows: nat, c0: nat)
    requires s < dst.Length0 && at + rows <= dst.Length1
    requires r0 + rows <= |src| && forall i | 0 <= i < |src| :: c0 + dst.Length2 <= |src[i]|
    modifies dst
    ensures Slot(dst, s)
            == old(Slot(dst, s))[..at] + Cut(src, r0, r0 + rows, c0, c0 + dst.Length2) + old(Slot(dst, s))[at + rows..]
    ensures forall t: nat | t < dst.Length0 && t != s :: Slot(dst, t) == old(Slot(dst, t))
  {
    for i := 0 to rows
      invariant forall t: nat, r: nat, c: nat | t < dst.Length0 && r < dst.Length1 && c < dst.Length2 ::
                  dst[t, r, c] == if t == s && at <= r < at + i then src[r0 + (r - at)][c0 + c] else old(dst[t, r, c])
    {
      for j := 0 to dst.Length2
        invariant forall t: nat, r: nat, c: nat | t < dst.Length0 && r < dst.Length1 && c < dst.Length2 ::
                    dst[t, r, c] == if t == s && (at <= r < at + i || (r == at + i && c < j))
                                    then src[r0 + (r - at)][c0 + c] else old(dst[t, r, c])
      {
        dst[s, at + i, j] := src[r0 + i][c0 + j];
      }
    }
    forall t: nat | t < dst.Length0 && t != s
      ensures Slot(dst, t) == old(Slot(dst, t))
    {
      forall r: nat | r < dst.Length1
        ensures Slot(dst, t)[r] == old(Slot(dst, t))[r]
      {
      }
    }
    ghost var want :=
        old(Slot(dst, s))[..at] + Cut(src, r0, r0 + rows, c0, c0 + dst.Length2) + old(Slot(dst, s))[at + rows..];
    forall r: nat | r < dst.Length1
      ensures Slot(dst, s)[r] == want[r]
    {
      if at <= r < at + rows { assert want[r] == src[r0 + (r - at)][c0..c0 + dst.Length2]; }
    }
  }

  /** One expert's three projections into its slot. */
  method LoadExpert(w13: array3<Byte>, w2: array3<Byte>, s: nat, e: Expert, hidden: nat, inter: nat, first: nat,
                    last: nat)
    requires ExtentOk(inter, first, last) && ExpertShape(e, hidden, inter)
    requires w13 != w2 && s < w13.Length0 == w2.Length0 && w13.Length1 == 2 * (last - first)
             && w13.Length2 == hidden / 2
    requires w2.Length1 == hidden && w2.Length2 == (last - first) / 2
    modifies w13, w2
    ensures Slot(w13, s) == GateUp(e, hidden, inter, first, last) && Slot(w2, s) == Down(e, hidden, inter, first, last)
    ensures forall t: nat | t < w13.Length0 && t != s ::
      Slot(w13, t) == old(Slot(w13, t)) && Slot(w2, t) == old(Slot(w2, t))
  {
    hide Slot, Cut, ExpertShape;
    Halves(inter, first, last);
    WeightShapes(e, hidden, inter);
    CopyRows(w13, s, 0, e.gate.weight, first, last - first, 0);
    CopyRows(w13, s, last - first, e.up.weight, first, last - first, 0);
    CopyRows(w2, s, 0, e.down.weight, 0, hidden, first / 2);
  }

  lemma WeightShapes(e: Expert, hidden: nat, inter: nat)
    requires ExpertShape(e, hidden, inter)
    ensures PlaneShape(e.gate.weight, inter, hidden / 2) && PlaneShape(e.up.weight, inter, hidden / 2)
    ensures PlaneShape(e.down.weight, hidden, inter / 2)
  {
  }

  /** What a finished load hands over beside the two tensors. */
  datatype Scales = Scales(gateUp: seq<Plane>, down: seq<Plane>)

  /** Slot `s` and its scales are in place. */
  ghost predicate Loaded(slot13: Plane, slot2: Plane, scales: Scales, s: nat, e: Expert, hidden: nat, inter: nat,
                         first: nat, last: nat) {
    && ExtentOk(inter, first, last) && ExpertShape(e, hidden, inter)
    && s < |scales.down| && 2 * s + 1 < |scales.gateUp|
    && slot13 == GateUp(e, hidden, inter, first, last) && slot2 == Down(e, hidden, inter, first, last)
    && scales.gateUp[2 * s] == GateScales(e, hidden, inter, first, last)
    && scales.gateUp[2 * s + 1] == UpScales(e, hidden, inter, first, last)
    && scales.down[s] == DownScales(e, hidden, inter, first, last)
  }

  lemma LoadedGrows(slot13: Plane, slot2: Plane, scales: Scales, more: Scales, s: nat, e: Expert, hidden: nat,
                    inter: nat, first: nat, last: nat)
    requires Loaded(slot13, slot2, scales, s, e, hidden, inter, first, last)
    ensures Loaded(slot13, slot2, Scales(scales.gateUp + more.gateUp, scales.down + more.down), s, e, hidden, inter,
                   first, last)
  {
    hide ExpertShape, GateUp, Down, GateScales, UpScales, DownScales;
  }

  /** The destinations have the layer's geometry. */
  predicate DestinationShape(w13: array3<Byte>, w2: array3<Byte>, numExperts: int, hidden: int, local: int) {
    && w13.Length0 == numExperts && w13.Length1 == 2 * local && w13.Length2 == hidden / 2
    && w2.Length0 == numExperts && w2.Length1 == hidden && w2.Length2 == local / 2
  }

  /** What the loader demands of its arguments. */
  predicate Loadable(w13: array3<Byte>, w2: array3<Byte>, experts: seq<Expert>, numExperts: int, hidden: int,
                     inter: int, rank: int, ranks: int) {
    && numExperts > 0 && hidden > 0 && hidden % 64 == 0 && TpExtent(inter, rank, ranks, 32).Ok?
    && DestinationShape(w13, w2, numExperts, hidden,
                        TpExtent(inter, rank, ranks, 32).value.1 - TpExtent(inter, rank, ranks, 32).value.0)
    && |experts| == numExperts
    && forall s | 0 <= s < |experts| :: ExpertShape(experts[s], hidden, inter)
  }

  lemma ExtentUsable(inter: int, rank: int, ranks: int)
    requires TpExtent(inter, rank, ranks, 32).Ok?
    ensures inter > 0
            && ExtentOk(inter, TpExtent(inter, rank, ranks, 32).value.0, TpExtent(inter, rank, ranks, 32).value.1)
  {
    assert inter > 0 && rank >= 0 && ranks > 0;
    ExtentsPartition(inter, ranks, 32, rank);
  }

  /** Compare a plane with the geometry it must have. */
  method CheckPlane(p: Plane, rows: nat, columns: nat) returns (ok: bool)
    ensures ok <==> PlaneShape(p, rows, columns)
  {
    if |p| != rows { return false; }
    for i := 0 to rows
      invariant forall k | 0 <= k < i :: |p[k]| == columns
    {
      if |p[i]| != columns { return false; }
    }
    ok := true;
  }

  /** The loader's geometry checks of one expert: nibble rows, then scales. */
  method CheckExpert(e: Expert, hidden: nat, inter: nat) returns (ok: bool)
    ensures ok <==> ExpertShape(e, hidden, inter)
  {
    hide PlaneShape;
    var projections := [e.gate, e.up, e.down];
    for m := 0 to 3
      invariant m > 0 ==> ProjectionShape(e.gate, inter, hidden)
      invariant m > 1 ==> ProjectionShape(e.up, inter, hidden)
      invariant m > 2 ==> ProjectionShape(e.down, hidden, inter)
    {
      var rows, channels := if m < 2 then inter else hidden, if m < 2 then hidden else inter;
      var weight := CheckPlane(projections[m].weight, rows, channels / 2);
      var scales := CheckPlane(projections[m].scales, rows, channels / 32);
      if !weight || !scales { return false; }
    }
    ok := true;
  }

  /** `_load_mxfp4_csf_weights`: every expert's slices into its slot, its scales appended in
      the same order. Any wrong geometry, and any wrong number of experts, raises. */
  method LoadWeights(w13: array3<Byte>, w2: array3<Byte>, experts: seq<Expert>, numExperts: int, hidden: int,
                     inter: int, rank: int, ranks: int) returns (r: Result<Scales>)
    requires w13 != w2
    modifies w13, w2
    ensures r.Ok? <==> Loadable(w13, w2, experts, numExperts, hidden, inter, rank, ranks)
    ensures r.Ok? ==> forall s: nat | s < numExperts ::
              Loaded(Slot(w13, s), Slot(w2, s), r.value, s, experts[s], hidden, inter,
                     TpExtent(inter, rank, ranks, 32).value.0, TpExtent(inter, rank, ranks, 32).value.1)
  {
    hide ExpertShape, Slot, GateUp, Down, GateScales, UpScales, DownScales, TpExtent, Loaded;
    if numExperts <= 0 || hidden <= 0 || hidden % 64 != 0 { return Err; }
    var extent := TpExtent(inter, rank, ranks, 32);
    if extent.Err? { return Err; }
    var first, last := extent.value.0, extent.value.1;
    ExtentUsable(inter, rank, ranks);
    if w13.Length0 != numExperts || w13.Length1 != 2 * (last - first) || w13.Length2 != hidden / 2
      || w2.Length0 != numExperts || w2.Length1 != hidden || w2.Length2 != (last - first) / 2
    {
      return Err;
    }
    var scales := Scales([], []);
    for s := 0 to numExperts
      invariant s <= |experts| && |scales.gateUp| == 2 * s && |scales.down| == s
      invariant forall t | 0 <= t < s :: ExpertShape(experts[t], hidden, inter)
      invariant forall t: nat | t < s ::
        Loaded(Slot(w13, t), Slot(w2, t), scales, t, experts[t], hidden, inter, first, last)
    {
      if s == |experts| { return Err; }
      var e := experts[s];
      var ok := CheckExpert(e, hidden, inter);
      if !ok { return Err; }
      LoadExpert(w13, w2, s, e, hidden, inter, first, last);
      var more := Scales([GateScales(e, hidden, inter, first, last), UpScales(e, hidden, inter, first, last)],
                         [DownScales(e, hidden, inter, first, last)]);
      NewlyLoaded(Slot(w13, s), Slot(w2, s), scales, more, s, e, hidden, inter, first, last);
      forall t: nat | t < s
        ensures Loaded(Slot(w13, t), Slot(w2, t), Scales(scales.gateUp + more.gateUp, scales.down + more.down), t,
                       experts[t], hidden, inter, first, last)
      {
        LoadedGrows(Slot(w13, t), Slot(w2, t), scales, more, t, experts[t], hidden, inter, first, last);
      }
      scales := Scales(scales.gateUp + more.gateUp, scales.down + more.down);
    }
    if |experts| > numExperts { return Err; }
    r := Ok(scales);
  }

  lemma NewlyLoaded(slot13: Plane, slot2: Plane, scales: Scales, more: Scales, s: nat, e: Expert, hidden: nat,
                    inter: nat, first: nat, last: nat)
    requires ExtentOk(inter, first, last) && ExpertShape(e, hidden, inter)
    requires |scales.gateUp| == 2 * s && |scales.down| == s
    requires slot13 == GateUp(e, hidden, inter, first, last) && slot2 == Down(e, hidden, inter, first, last)
    requires more
             == Scales([GateScales(e, hidden, inter, first, last), UpScales(e, hidden, inter, first, last)],
                       [DownScales(e, hidden, inter, first, last)])
    ensures Loaded(slot13, slot2, Scales(scales.gateUp + more.gateUp, scales.down + more.down), s, e, hidden, inter,
                   first, last)
  {
    hide ExpertShape, GateUp, Down, GateScales, UpScales, DownScales;
  }

  /** The checkpoint's experts in slot order. */
  function InOrder(checkpoint: seq<Expert>, order: seq<nat>): (experts: seq<Expert>)
    requires forall s | 0 <= s < |order| :: order[s] < |checkpoint|
    ensures |experts| == |order| && forall s | 0 <= s < |order| :: experts[s] == checkpoint[order[s]]
  {
    seq(|order|, s requires 0 <= s < |order| => checkpoint[order[s]])
  }

  /** The checkpoint has this expert, with the layer's geometry. */
  predicate Present(checkpoint: seq<Expert>, x: nat, hidden: int, inter: int) {
    x < |checkpoint| && hidden >= 0 && inter >= 0 && ExpertShape(checkpoint[x], hidden, inter)
  }

  lemma PresentInOrder(checkpoint: seq<Expert>, order: seq<nat>, hidden: nat, inter: nat)
    requires forall s | 0 <= s < |order| :: order[s] < |checkpoint|
    ensures (forall s | 0 <= s < |order| :: ExpertShape(InOrder(checkpoint, order)[s], hidden, inter))
            <==> forall s | 0 <= s < |order| :: Present(checkpoint, order[s], hidden, inter)
  {
    hide ExpertShape;
    var experts := InOrder(checkpoint, order);
    assert forall s | 0 <= s < |order| :: experts[s] == checkpoint[order[s]];
  }

  lemma PresentInTurn(checkpoint: seq<Expert>, order: seq<nat>, hidden: int, inter: int)
    requires forall s | 0 <= s < |order| :: order[s] == s
    ensures (forall s | 0 <= s < |order| :: Present(checkpoint, order[s], hidden, inter))
            <==> forall s: nat | s < |order| :: Present(checkpoint, s, hidden, inter)
  {
    hide Present;
    if forall s | 0 <= s < |order| :: Present(checkpoint, order[s], hidden, inter) {
      forall s: nat | s < |order| ensures Present(checkpoint, s, hidden, inter) { assert order[s] == s; }
    }
  }

  lemma NotPresent(checkpoint: seq<Expert>, x: nat, hidden: int, inter: int)
    requires x >= |checkpoint|
    ensures !Present(checkpoint, x, hidden, inter)
  {
  }

  /** Look the named experts up, one a slot, and load them. A missing expert raises like
      wrong geometry does. */
  method LoadNamed(w13: array3<Byte>, w2: array3<Byte>, checkpoint: seq<Expert>, names: seq<nat>, numExperts: int,
                   hidden: int, inter: int, rank: int, ranks: int) returns (r: Result<Scales>)
    requires w13 != w2 && TpExtent(inter, rank, ranks, 32).Ok?
    modifies w13, w2
    ensures r.Ok? <==>
              && numExperts > 0 && hidden > 0 && hidden % 64 == 0
              && DestinationShape(w13, w2, numExperts, hidden,
                                  TpExtent(inter, rank, ranks, 32).value.1 - TpExtent(inter, rank, ranks, 32).value.0)
              && |names| == numExperts && forall s | 0 <= s < |names| :: Present(checkpoint, names[s], hidden, inter)
    ensures r.Ok? ==> forall s: nat | s < |names| ::
              names[s] < |checkpoint|
              && Loaded(Slot(w13, s), Slot(w2, s), r.value, s, checkpoint[names[s]], hidden, inter,
                        TpExtent(inter, rank, ranks, 32).value.0, TpExtent(inter, rank, ranks, 32).value.1)
  {
    hide ExpertShape, Slot, Loaded, TpExtent, Present, InOrder;
    ExtentUsable(inter, rank, ranks);
    if i :| 0 <= i < |names| && names[i] >= |checkpoint| {
      NotPresent(checkpoint, names[i], hidden, inter);
      return Err;
    }
    var experts := InOrder(checkpoint, names);
    if hidden > 0 { PresentInOrder(checkpoint, names, hidden, inter); }
    r := LoadWeights(w13, w2, experts, numExperts, hidden, inter, rank, ranks);
  }

  /** `read_mxfp4_csf_layer`: slot `s` holds the rank's slices of expert `order[s]`, or of
      expert `s` if no order is given. */
  method ReadLayer(w13: array3<Byte>, w2: array3<Byte>, checkpoint: seq<Expert>, order: Option<seq<nat>>,
                   compressed: bool, numExperts: int, hidden: int, inter: int, rank: int, ranks: int)
    returns (r: Result<Scales>)
    requires w13 != w2
    modifies w13, w2
    ensures r.Ok? <==>
              && compressed && numExperts > 0 && hidden > 0 && hidden % 64 == 0 && TpExtent(inter, rank, ranks, 32).Ok?
              && DestinationShape(w13, w2, numExperts, hidden,
                                  TpExtent(inter, rank, ranks, 32).value.1 - TpExtent(inter, rank, ranks, 32).value.0)
              && (order.Some? ==>
                    |order.value| == numExperts
                    && forall s | 0 <= s < numExperts :: Present(checkpoint, order.value[s], hidden, inter))
              && (order.None? ==> forall s: nat | s < numExperts :: Present(checkpoint, s, hidden, inter))
    ensures r.Ok? && order.Some? ==> forall s: nat | s < numExperts ::
              s < |order.value| && order.value[s] < |checkpoint|
              && Loaded(Slot(w13, s), Slot(w2, s), r.value, s, checkpoint[order.value[s]], hidden, inter,
                        TpExtent(inter, rank, ranks, 32).value.0, TpExtent(inter, rank, ranks, 32).value.1)
    ensures r.Ok? && order.None? ==> forall s: nat | s < numExperts ::
              s < |checkpoint|
              && Loaded(Slot(w13, s), Slot(w2, s), r.value, s, checkpoint[s], hidden, inter,
                        TpExtent(inter, rank, ranks, 32).value.0, TpExtent(inter, rank, ranks, 32).value.1)
  {
    hide Slot, Loaded, TpExtent, Present;
    if TpExtent(inter, rank, ranks, 32).Err? || !compressed { return Err; }
    ExtentUsable(inter, rank, ranks);
    if order.Some? {
      r := LoadNamed(w13, w2, checkpoint, order.value, numExperts, hidden, inter, rank, ranks);
    } else {
      var names := seq(if numExperts > 0 then numExperts else 0, s => s);
      PresentInTurn(checkpoint, names, hidden, inter);
      r := LoadNamed(w13, w2, checkpoint, names, numExperts, hidden, inter, rank, ranks);
      forall s: nat | r.Ok? && s < numExperts
        ensures s < |checkpoint|
        ensures Loaded(Slot(w13, s), Slot(w2, s), r.value, s, checkpoint[s], hidden, inter,
                       TpExtent(inter, rank, ranks, 32).value.0, TpExtent(inter, rank, ranks, 32).value.1)
      {
        assert names[s] == s;
      }
    }
  }

  // ---- Why the ranks' outputs add up ----

  /** How a nibble and a scale byte are read. */
  datatype Codec = Codec(nibble: (Byte, nat) -> real, scale: Byte -> real)

  /** Channel `c` of a row of packed weights and its row of scales. */
  function Channel(q: Codec, weights: seq<Byte>, scales: seq<Byte>, c: nat): real
    requires c / 2 < |weights| && c / 32 < |scales|
  {
    q.nibble(weights[c / 2], c % 2) * q.scale(scales[c / 32])
  }

  /** A slice that starts on a scale group reads the same channels. */
  lemma SliceReadsSame(q: Codec, weights: seq<Byte>, scales: seq<Byte>, first: nat, last: nat, c: nat)
    requires first <= last && first % 32 == 0 && last % 32 == 0 && c < last - first
    requires last / 2 <= |weights| && last / 32 <= |scales|
    ensures c / 2 < last / 2 - first / 2 && c / 32 < last / 32 - first / 32
    ensures first / 2 <= last / 2 && first / 32 <= last / 32 && (first + c) / 2 < |weights|
            && (first + c) / 32 < |scales|
    ensures Channel(q, weights[first / 2..last / 2], scales[first / 32..last / 32], c)
            == Channel(q, weights, scales, first + c)
  {
    Shifted(first, c);
    ShiftedBound(first, last, c);
  }

  lemma Shifted(first: nat, c: nat)
    requires first % 32 == 0
    ensures (first + c) / 2 == first / 2 + c / 2 && (first + c) % 2 == c % 2 && (first + c) / 32 == first / 32 + c / 32
  {
    var g := first / 32;
    assert first == 32 * g;
    AddMultiple(32, g, c);
    AddMultiple(2, 16 * g, c);
    MulDiv(16 * g, 2);
  }

  lemma AddMultiple(m: nat, g: nat, c: nat)
    requires m > 0
    ensures (m * g + c) / m == g + c / m && (m * g + c) % m == c % m
  {
    var q := c / m;
    assert c == m * q + c % m;
    assert (g + q) * m == m * g + m * q && (g + q + 1) * m == m * g + m * q + m;
    DivUnique(m * g + c, m, g + q);
    assert m * g + c == m * ((m * g + c) / m) + (m * g + c) % m;
    assert m * (g + q) == m * g + m * q;
  }

  lemma ShiftedBound(first: nat, last: nat, c: nat)
    requires first <= last && first % 32 == 0 && last % 32 == 0 && c < last - first
    ensures first / 2 + c / 2 < last / 2 && first / 32 + c / 32 < last / 32
  {
  }

  lemma ChannelInside(c: nat, n: nat)
    requires c < n && n % 32 == 0
    ensures c / 2 < n / 2 && c / 32 < n / 32
  {
    var g := n / 32;
    assert n == 32 * g;
    MulDiv(16 * g, 2);
    DivBounds(c, 2);
    DivBounds(c, 32);
  }

  /** One row of a projection against the input. */
  function RowDot(q: Codec, weights: seq<Byte>, scales: seq<Byte>, x: nat -> real, hidden: nat): real
    requires hidden % 64 == 0 && |weights| == hidden / 2 && |scales| == hidden / 32
  {
    Sum((h: nat) =>
        (if h < hidden then (ChannelInside(h, hidden); Channel(q, weights, scales, h)) else 0.0) * x(h), hidden)
  }

  /** One intermediate channel's share of output coordinate `h`. */
  function Term(q: Codec, act: (real, real) -> real, x: nat -> real, e: Expert, hidden: nat, inter: nat,
                h: nat): nat -> real
    requires ExpertShape(e, hidden, inter) && hidden % 64 == 0 && inter % 32 == 0 && h < hidden
  {
    (i: nat) =>
      if i < inter then
        ChannelInside(i, inter);
        Channel(q, e.down.weight[h], e.down.scales[h], i)
        * act(RowDot(q, e.gate.weight[i], e.gate.scales[i], x, hidden),
              RowDot(q, e.up.weight[i], e.up.scales[i], x, hidden))
      else 0.0
  }

  /** The unsharded expert: `down(act(gate x, up x))`. */
  function Output(q: Codec, act: (real, real) -> real, x: nat -> real, e: Expert, hidden: nat, inter: nat, h: nat): real
    requires ExpertShape(e, hidden, inter) && hidden % 64 == 0 && inter % 32 == 0 && h < hidden
  {
    Sum(Term(q, act, x, e, hidden, inter, h), inter)
  }

  /** The same from what a rank has in a slot. */
  function LocalTerm(q: Codec, act: (real, real) -> real, x: nat -> real, slot13: Plane, slot2: Plane,
                     gate: Plane, up: Plane, down: Plane, hidden: nat, local: nat, h: nat): nat -> real
    requires hidden % 64 == 0 && local % 32 == 0 && h < hidden
    requires PlaneShape(slot13, 2 * local, hidden / 2) && PlaneShape(slot2, hidden, local / 2)
    requires PlaneShape(gate, local, hidden / 32) && PlaneShape(up, local, hidden / 32)
             && PlaneShape(down, hidden, local / 32)
  {
    (r: nat) =>
      if r < local then
        ChannelInside(r, local);
        Channel(q, slot2[h], down[h], r)
        * act(RowDot(q, slot13[r], gate[r], x, hidden), RowDot(q, slot13[local + r], up[r], x, hidden))
      else 0.0
  }

  lemma LoadedShapes(e: Expert, hidden: nat, inter: nat, first: nat, last: nat)
    requires ExpertShape(e, hidden, inter) && ExtentOk(inter, first, last)
    ensures PlaneShape(GateUp(e, hidden, inter, first, last), 2 * (last - first), hidden / 2)
    ensures PlaneShape(Down(e, hidden, inter, first, last), hidden, (last - first) / 2)
    ensures PlaneShape(GateScales(e, hidden, inter, first, last), last - first, hidden / 32)
    ensures PlaneShape(UpScales(e, hidden, inter, first, last), last - first, hidden / 32)
    ensures PlaneShape(DownScales(e, hidden, inter, first, last), hidden, (last - first) / 32)
  {
    Halves(inter, first, last);
    GroupsOf(first, last);
  }

  lemma GroupsOf(first: nat, last: nat)
    requires first <= last && first % 32 == 0 && last % 32 == 0
    ensures (last - first) / 32 == last / 32 - first / 32 && (last - first) % 32 == 0
  {
  }

  /** What rank-local weights compute for coordinate `h`. */
  function RankOutput(q: Codec, act: (real, real) -> real, x: nat -> real, e: Expert, hidden: nat, inter: nat, h: nat,
                      first: nat, last: nat): real
    requires ExpertShape(e, hidden, inter) && hidden % 64 == 0 && h < hidden && ExtentOk(inter, first, last)
  {
    LoadedShapes(e, hidden, inter, first, last);
    GroupsOf(first, last);
    Sum(LocalTerm(q, act, x, GateUp(e, hidden, inter, first, last), Down(e, hidden, inter, first, last),
                  GateScales(e, hidden, inter, first, last), UpScales(e, hidden, inter, first, last),
                  DownScales(e, hidden, inter, first, last), hidden, last - first, h), last - first)
  }

  /** A rank computes the expert's terms for its own channels. */
  lemma RankComputesItsTerms(q: Codec, act: (real, real) -> real, x: nat -> real, e: Expert, hidden: nat, inter: nat,
                             h: nat, first: nat, last: nat)
    requires ExpertShape(e, hidden, inter) && hidden % 64 == 0 && inter % 32 == 0 && h < hidden
             && ExtentOk(inter, first, last)
    ensures RankOutput(q, act, x, e, hidden, inter, h, first, last)
            == Sum(From(Term(q, act, x, e, hidden, inter, h), first), last - first)
  {
    hide Sum, Channel, RowDot, GateUp, Down, GateScales, UpScales, DownScales, ExpertShape, LocalTerm, Term;
    LoadedShapes(e, hidden, inter, first, last);
    GroupsOf(first, last);
    var local := last - first;
    var f := LocalTerm(q, act, x, GateUp(e, hidden, inter, first, last), Down(e, hidden, inter, first, last),
                       GateScales(e, hidden, inter, first, last), UpScales(e, hidden, inter, first, last),
                       DownScales(e, hidden, inter, first, last), hidden, local, h);
    forall r: nat | r < local
      ensures f(r) == From(Term(q, act, x, e, hidden, inter, h), first)(r)
    {
      TermKept(q, act, x, e, hidden, inter, h, first, last, r);
    }
    SumSame(f, From(Term(q, act, x, e, hidden, inter, h), first), local);
  }

  /** A rank's term is the expert's term of the same channel. */
  lemma TermKept(q: Codec, act: (real, real) -> real, x: nat -> real, e: Expert, hidden: nat, inter: nat,
                 h: nat, first: nat, last: nat, r: nat)
    requires ExpertShape(e, hidden, inter) && hidden % 64 == 0 && inter % 32 == 0 && h < hidden
             && ExtentOk(inter, first, last) && r < last - first
    ensures (LoadedShapes(e, hidden, inter, first, last); GroupsOf(first, last);
             LocalTerm(q, act, x, GateUp(e, hidden, inter, first, last), Down(e, hidden, inter, first, last),
                       GateScales(e, hidden, inter, first, last), UpScales(e, hidden, inter, first, last),
                       DownScales(e, hidden, inter, first, last), hidden, last - first, h)(r))
            == Term(q, act, x, e, hidden, inter, h)(first + r)
  {
    hide Sum, Channel, RowDot, GateUp, Down, GateScales, UpScales, DownScales, ExpertShape;
    LoadedShapes(e, hidden, inter, first, last);
    GroupsOf(first, last);
    KeptRows(e, hidden, inter, first, last, r);
    KeptColumns(q, e, hidden, inter, first, last, h, r);
  }

  /** A rank's rows are the expert's rows. */
  lemma KeptRows(e: Expert, hidden: nat, inter: nat, first: nat, last: nat, r: nat)
    requires ExpertShape(e, hidden, inter) && ExtentOk(inter, first, last) && r < last - first
    ensures first + r < |e.gate.weight| == |e.up.weight| == |e.gate.scales| == |e.up.scales| == inter
    ensures |GateUp(e, hidden, inter, first, last)| == 2 * (last - first)
    ensures GateUp(e, hidden, inter, first, last)[r] == e.gate.weight[first + r]
    ensures GateUp(e, hidden, inter, first, last)[last - first + r] == e.up.weight[first + r]
    ensures |GateScales(e, hidden, inter, first, last)| == |UpScales(e, hidden, inter, first, last)| == last - first
    ensures GateScales(e, hidden, inter, first, last)[r] == e.gate.scales[first + r]
    ensures UpScales(e, hidden, inter, first, last)[r] == e.up.scales[first + r]
    ensures |e.gate.weight[first + r]| == |e.up.weight[first + r]| == hidden / 2
    ensures |e.gate.scales[first + r]| == |e.up.scales[first + r]| == hidden / 32
  {
    assert e.gate.weight[first + r][0..hidden / 2] == e.gate.weight[first + r];
    assert e.up.weight[first + r][0..hidden / 2] == e.up.weight[first + r];
    assert e.gate.scales[first + r][0..hidden / 32] == e.gate.scales[first + r];
    assert e.up.scales[first + r][0..hidden / 32] == e.up.scales[first + r];
  }

  /** A rank's nibble columns and scale columns read the expert's channels. */
  lemma KeptColumns(q: Codec, e: Expert, hidden: nat, inter: nat, first: nat, last: nat, h: nat, r: nat)
    requires ExpertShape(e, hidden, inter) && inter % 32 == 0 && ExtentOk(inter, first, last) && h < hidden
             && r < last - first
    ensures h < |e.down.weight| && h < |e.down.scales| && (first + r) / 2 < |e.down.weight[h]|
            && (first + r) / 32 < |e.down.scales[h]|
    ensures h < |Down(e, hidden, inter, first, last)| && h < |DownScales(e, hidden, inter, first, last)|
    ensures r / 2 < |Down(e, hidden, inter, first, last)[h]| && r / 32 < |DownScales(e, hidden, inter, first, last)[h]|
    ensures Channel(q, Down(e, hidden, inter, first, last)[h], DownScales(e, hidden, inter, first, last)[h], r)
         == Channel(q, e.down.weight[h], e.down.scales[h], first + r)
  {
    hide Channel;
    Halves(inter, first, last);
    SliceReadsSame(q, e.down.weight[h], e.down.scales[h], first, last, r);
  }

  /** The outputs of the first `n` ranks added up. */
  function RanksUpTo(q: Codec, act: (real, real) -> real, x: nat -> real, e: Expert, hidden: nat, inter: nat, h: nat,
                     ranks: nat, n: nat): real
    requires ExpertShape(e, hidden, inter) && hidden % 64 == 0 && h < hidden && n <= ranks
    requires ranks > 0 && inter > 0 && inter % (32 * ranks) == 0
  {
    if n == 0 then 0.0
    else
      ExtentUsable(inter, n - 1, ranks);
      var extent := TpExtent(inter, n - 1, ranks, 32).value;
      RanksUpTo(q, act, x, e, hidden, inter, h, ranks, n - 1)
          + RankOutput(q, act, x, e, hidden, inter, h, extent.0, extent.1)
  }

  /** Summing every rank's local output gives the unsharded expert's. */
  lemma {:induction false} RanksAddUp(q: Codec, act: (real, real) -> real, x: nat -> real, e: Expert, hidden: nat,
                                      inter: nat, h: nat, ranks: nat, n: nat)
    requires ExpertShape(e, hidden, inter) && hidden % 64 == 0 && h < hidden && n <= ranks
    requires ranks > 0 && inter > 0 && inter % (32 * ranks) == 0
    ensures inter % 32 == 0
    ensures RanksUpTo(q, act, x, e, hidden, inter, h, ranks, n)
            == Sum(Term(q, act, x, e, hidden, inter, h), n * (inter / ranks))
    ensures n == ranks ==> RanksUpTo(q, act, x, e, hidden, inter, h, ranks, n) == Output(q, act, x, e, hidden, inter, h)
  {
    hide Sum, RankOutput, Term, ExpertShape;
    EvenSplit(inter, ranks, 32);
    WholeGroups(inter, ranks);
    if n > 0 {
      RanksAddUp(q, act, x, e, hidden, inter, h, ranks, n - 1);
      ExtentUsable(inter, n - 1, ranks);
      var local := inter / ranks;
      assert n * local == (n - 1) * local + local;
      RankComputesItsTerms(q, act, x, e, hidden, inter, h, (n - 1) * local, n * local);
      SumSplit(Term(q, act, x, e, hidden, inter, h), (n - 1) * local, local);
    } else {
      EmptySums();
    }
  }

  lemma WholeGroups(inter: nat, ranks: nat)
    requires ranks > 0 && inter % (32 * ranks) == 0
    ensures inter % 32 == 0
  {
    var q := inter / (32 * ranks);
    assert inter == 32 * ranks * q;
    assert inter == (ranks * q) * 32;
    MulDiv(ranks * q, 32);
  }

  /** A packed plane and its scales as a matrix of reals. */
  function Dense(q: Codec, weights: Plane, scales: Plane): (nat, nat) -> real {
    (r: nat, c: nat) =>
      if r < |weights| && r < |scales| && c / 2 < |weights[r]| && c / 32 < |scales[r]|
      then q.nibble(weights[r][c / 2], c % 2) * q.scale(scales[r][c / 32]) else 0.0
  }

  lemma ChannelIsDense(q: Codec, weights: Plane, scales: Plane, r: nat, c: nat, n: nat)
    requires n % 32 == 0 && c < n && r < |weights| && r < |scales|
    requires |weights[r]| == n / 2 && |scales[r]| == n / 32
    ensures c / 2 < |weights[r]| && c / 32 < |scales[r]|
    ensures Channel(q, weights[r], scales[r], c) == Dense(q, weights, scales)(r, c)
  {
    ChannelInside(c, n);
  }

  /** One row against the input, as a product of matrices. */
  lemma RowIsDot(q: Codec, weights: Plane, scales: Plane, x: nat -> real, hidden: nat, i: nat)
    requires hidden % 64 == 0 && i < |weights| && i < |scales|
    requires |weights[i]| == hidden / 2 && |scales[i]| == hidden / 32
    ensures RowDot(q, weights[i], scales[i], x, hidden)
            == Dot(Dense(q, weights, scales), (r: nat, c: nat) => x(c), i, 0, hidden)
  {
    hide Sum, Channel, Dense;
    var f := (h: nat) =>
        (if h < hidden then (ChannelInside(h, hidden); Channel(q, weights[i], scales[i], h)) else 0.0) * x(h);
    var g := (k: nat) => Dense(q, weights, scales)(i, k) * x(k);
    forall h: nat | h < hidden
      ensures f(h) == g(h)
    {
      ChannelIsDense(q, weights, scales, i, h, hidden);
    }
    SumSame(f, g, hidden);
    SumSame(g, (k: nat) => Dense(q, weights, scales)(i, k) * ((r: nat, c: nat) => x(c))(0, k), hidden);
  }

  /** The unsharded output, written with whole matrices: the down projection of the activated
      products of input with the gate and up projections. */
  lemma OutputIsDense(q: Codec, act: (real, real) -> real, x: nat -> real, e: Expert, hidden: nat, inter: nat, h: nat)
    requires ExpertShape(e, hidden, inter) && hidden % 64 == 0 && inter % 32 == 0 && h < hidden
    ensures var input := (r: nat, c: nat) => x(c);
            var gate, up := Dense(q, e.gate.weight, e.gate.scales), Dense(q, e.up.weight, e.up.scales);
            var down := Dense(q, e.down.weight, e.down.scales);
            Output(q, act, x, e, hidden, inter, h)
            == Dot(down, (r: nat, i: nat) => act(Dot(gate, input, i, 0, hidden), Dot(up, input, i, 0, hidden)),
                   h, 0, inter)
  {
    hide Sum, RowDot, Dot, Channel, Dense;
    var input := (r: nat, c: nat) => x(c);
    var gate, up := Dense(q, e.gate.weight, e.gate.scales), Dense(q, e.up.weight, e.up.scales);
    var down := Dense(q, e.down.weight, e.down.scales);
    var inner := (r: nat, i: nat) => act(Dot(gate, input, i, 0, hidden), Dot(up, input, i, 0, hidden));
    var g := (i: nat) => down(h, i) * inner(0, i);
    forall i: nat | i < inter
      ensures Term(q, act, x, e, hidden, inter, h)(i) == g(i)
    {
      ChannelIsDense(q, e.down.weight, e.down.scales, h, i, inter);
      RowIsDot(q, e.gate.weight, e.gate.scales, x, hidden, i);
      RowIsDot(q, e.up.weight, e.up.scales, x, hidden, i);
    }
    SumSame(Term(q, act, x, e, hidden, inter, h), g, inter);
    DotIsSum(down, inner, h, inter);
  }

  lemma DotIsSum(a: (nat, nat) -> real, b: (nat, nat) -> real, h: nat, n: nat)
    ensures Dot(a, b, h, 0, n) == Sum((i: nat) => a(h, i) * b(0, i), n)
  {
    SumSame((i: nat) => a(h, i) * b(0, i), (i: nat) => a(h, i) * b(0, i), n);
  }

  // ---- From what the ranks have stored ----

  /** What one rank has in slot `s` after a load, and the scales the load returned. */
  datatype Stored = Stored(slot13: Plane, slot2: Plane, scales: Scales)

  predicate StoredShape(t: Stored, s: nat, hidden: nat, local: nat) {
    && PlaneShape(t.slot13, 2 * local, hidden / 2) && PlaneShape(t.slot2, hidden, local / 2)
    && s < |t.scales.down| && 2 * s + 1 < |t.scales.gateUp|
    && PlaneShape(t.scales.gateUp[2 * s], local, hidden / 32)
       && PlaneShape(t.scales.gateUp[2 * s + 1], local, hidden / 32)
    && PlaneShape(t.scales.down[s], hidden, local / 32)
  }

  /** Coordinate `h` as the rank computes it from slot `s` and its scales. */
  function SlotOutput(q: Codec, act: (real, real) -> real, x: nat -> real, t: Stored, s: nat, hidden: nat, local: nat,
                      h: nat): real
    requires StoredShape(t, s, hidden, local) && hidden % 64 == 0 && local % 32 == 0 && h < hidden
  {
    Sum(LocalTerm(q, act, x, t.slot13, t.slot2, t.scales.gateUp[2 * s], t.scales.gateUp[2 * s + 1], t.scales.down[s],
                  hidden, local, h),
        local)
  }

  predicate AllStored(stored: seq<Stored>, s: nat, hidden: nat, local: nat) {
    forall r | 0 <= r < |stored| :: StoredShape(stored[r], s, hidden, local)
  }

  /** The first `n` ranks' outputs from their slots `s`, added up. */
  function SlotsUpTo(q: Codec, act: (real, real) -> real, x: nat -> real, stored: seq<Stored>, s: nat, hidden: nat,
                     local: nat, h: nat, n: nat): real
    requires AllStored(stored, s, hidden, local) && hidden % 64 == 0 && local % 32 == 0 && h < hidden && n <= |stored|
  {
    if n == 0 then 0.0
    else SlotsUpTo(q, act, x, stored, s, hidden, local, h, n - 1)
         + SlotOutput(q, act, x, stored[n - 1], s, hidden, local, h)
  }

  /** Every rank has loaded its slices of expert `e` into slot `s`. */
  ghost predicate LoadedOnAll(stored: seq<Stored>, s: nat, e: Expert, hidden: nat, inter: nat) {
    forall r | 0 <= r < |stored| ::
      && TpExtent(inter, r, |stored|, 32).Ok?
      && Loaded(stored[r].slot13, stored[r].slot2, stored[r].scales, s, e, hidden, inter,
                TpExtent(inter, r, |stored|, 32).value.0, TpExtent(inter, r, |stored|, 32).value.1)
  }

  /** A loaded slot computes the rank's output of its expert. */
  lemma SlotIsRank(q: Codec, act: (real, real) -> real, x: nat -> real, t: Stored, s: nat, e: Expert, hidden: nat,
                   inter: nat, h: nat, first: nat, last: nat)
    requires Loaded(t.slot13, t.slot2, t.scales, s, e, hidden, inter, first, last) && hidden % 64 == 0 && h < hidden
    ensures StoredShape(t, s, hidden, last - first) && (last - first) % 32 == 0
    ensures SlotOutput(q, act, x, t, s, hidden, last - first, h)
            == RankOutput(q, act, x, e, hidden, inter, h, first, last)
  {
    hide ExpertShape, GateUp, Down, GateScales, UpScales, DownScales, LocalTerm, PlaneShape, Sum;
    LoadedShapes(e, hidden, inter, first, last);
    GroupsOf(first, last);
  }

  lemma {:induction false} SlotsAreRanks(q: Codec, act: (real, real) -> real, x: nat -> real, stored: seq<Stored>,
                                         s: nat, e: Expert, hidden: nat, inter: nat, h: nat, n: nat)
    requires LoadedOnAll(stored, s, e, hidden, inter) && ExpertShape(e, hidden, inter) && hidden % 64 == 0 && h < hidden
    requires n <= |stored| && |stored| > 0 && inter > 0 && inter % (32 * |stored|) == 0
    requires AllStored(stored, s, hidden, inter / |stored|) && inter / |stored| % 32 == 0
    ensures SlotsUpTo(q, act, x, stored, s, hidden, inter / |stored|, h, n)
            == RanksUpTo(q, act, x, e, hidden, inter, h, |stored|, n)
  {
    hide Loaded, ExpertShape, SlotOutput, RankOutput;
    if n > 0 {
      SlotsAreRanks(q, act, x, stored, s, e, hidden, inter, h, n - 1);
      ExtentUsable(inter, n - 1, |stored|);
      ExtentLength(inter, n - 1, |stored|);
      var extent := TpExtent(inter, n - 1, |stored|, 32).value;
      SlotIsRank(q, act, x, stored[n - 1], s, e, hidden, inter, h, extent.0, extent.1);
    }
  }

  lemma ExtentLength(inter: nat, rank: nat, ranks: nat)
    requires TpExtent(inter, rank, ranks, 32).Ok?
    ensures TpExtent(inter, rank, ranks, 32).value.1 - TpExtent(inter, rank, ranks, 32).value.0 == inter / ranks
  {
    assert (rank + 1) * (inter / ranks) == rank * (inter / ranks) + inter / ranks;
  }

  /** Once every rank has loaded a layer, the outputs the ranks compute from slot `s` add up
      to the whole output of the expert that the order put there. */
  lemma LayerAddsUp(q: Codec, act: (real, real) -> real, x: nat -> real, stored: seq<Stored>, s: nat, e: Expert,
                    hidden: nat, inter: nat, h: nat)
    requires |stored| > 0 && hidden % 64 == 0 && h < hidden && LoadedOnAll(stored, s, e, hidden, inter)
    ensures inter / |stored| % 32 == 0 && AllStored(stored, s, hidden, inter / |stored|)
    ensures ExpertShape(e, hidden, inter) && inter % 32 == 0
    ensures SlotsUpTo(q, act, x, stored, s, hidden, inter / |stored|, h, |stored|)
            == Output(q, act, x, e, hidden, inter, h)
  {
    hide ExpertShape, SlotOutput, RankOutput, StoredShape, Term, Sum;
    assert TpExtent(inter, 0, |stored|, 32).Ok?;
    EvenSplit(inter, |stored|, 32);
    assert ExpertShape(e, hidden, inter) by { LoadedExpert(stored[0], s, e, hidden, inter, 0, |stored|); }
    forall r: nat | r < |stored|
      ensures StoredShape(stored[r], s, hidden, inter / |stored|)
    {
      ExtentLength(inter, r, |stored|);
      var extent := TpExtent(inter, r, |stored|, 32).value;
      SlotIsRank(q, act, x, stored[r], s, e, hidden, inter, h, extent.0, extent.1);
    }
    SlotsAreRanks(q, act, x, stored, s, e, hidden, inter, h, |stored|);
    RanksAddUp(q, act, x, e, hidden, inter, h, |stored|, |stored|);
  }

  lemma LoadedExpert(t: Stored, s: nat, e: Expert, hidden: nat, inter: nat, rank: nat, ranks: nat)
    requires TpExtent(inter, rank, ranks, 32).Ok?
    requires Loaded(t.slot13, t.slot2, t.scales, s, e, hidden, inter, TpExtent(inter, rank, ranks, 32).value.0,
                    TpExtent(inter, rank, ranks, 32).value.1)
    ensures ExpertShape(e, hidden, inter)
  {
    hide ExpertShape;
  }
}
