/** The two ways partial attention travels between ranks: packed messages exchanged
    all-to-all, and gathered log-sum-exps with a reduce-scatter of whole heads. */
module DcpExchange {
  import opened IntMath
  import opened Extended
  import opened Softmax
  import opened LseCombine
  import opened DcpMask

  const NEG_INF_BITS: bv32 := 0xFF80_0000

  /** The word is minus infinity in IEEE 754 single precision: sign and all eight exponent
      bits set, no mantissa bit set. */
  lemma NegInfBits()
    ensures NEG_INF_BITS >> 31 == 1 && (NEG_INF_BITS >> 23) & 0xFF == 0xFF && NEG_INF_BITS & 0x7F_FFFF == 0
  {
  }

  // ---- The log-sum-exp in a message ----

  /** One 32-bit element, or two 16-bit elements. */
  datatype Packed = Whole(bits: bv32) | Halves(low: bv16, high: bv16)

  function Pack(bits: bv32, packDim: nat): Packed {
    if packDim == 1 then Whole(bits)
    else Halves((bits & 0xFFFF) as bv16, ((bits >> 16) & 0xFFFF) as bv16)
  }

  function Unpack(p: Packed): bv32 {
    match p
    case Whole(bits) => bits
    case Halves(low, high) => (low as bv32) | ((high as bv32) << 16)
  }

  /** No bit of a log-sum-exp is lost in either packing. */
  lemma PackRoundTrip(bits: bv32, packDim: nat)
    ensures Unpack(Pack(bits, packDim)) == bits
  {
    assert ((bits & 0xFFFF) as bv16) as bv32 == bits & 0xFFFF;
    assert (((bits >> 16) & 0xFFFF) as bv16) as bv32 == (bits >> 16) & 0xFFFF;
    assert (bits & 0xFFFF) | (((bits >> 16) & 0xFFFF) << 16) == bits;
  }

  // ---- What one rank holds and sends ----

  /** What the masks work from: local lengths, request boundaries, and the fused kernel's
      vector width. */
  datatype Mask = Mask(lengths: seq<nat>, starts: seq<int>, width: nat) {
    predicate Ok() {
      |lengths| > 0 && Boundaries(starts, |lengths|) && starts[|lengths|] <= 0x7FFF_FFFF && width >= |lengths|
    }
  }

  /** A rank's local attention: outputs by token, head and coordinate; log-sum-exp words by
      token and head; and its mask, if it has one. */
  datatype Local = Local(out: seq<seq<seq<Ext>>>, lse: seq<seq<bv32>>, mask: Option<Mask>) {
    predicate Shaped(tokens: nat, heads: nat, dim: nat) {
      && |out| == |lse| == tokens && (mask.Some? ==> mask.value.Ok())
      && (forall b | 0 <= b < tokens :: |out[b]| == |lse[b]| == heads)
      && (forall b, g | 0 <= b < tokens && 0 <= g < heads :: |out[b][g]| == dim)
    }

    predicate Holds(b: nat, g: nat) {
      b < |lse| == |out| && g < |lse[b]| == |out[b]| && (mask.Some? ==> mask.value.Ok())
    }

    /** The word the packing kernel sends: rows its boundary count marks send minus infinity. */
    function SentWord(b: nat, g: nat): bv32
      requires Holds(b, g)
    {
      if mask.Some? && FusedEmpty(mask.value.lengths, mask.value.starts, mask.value.width, b) then NEG_INF_BITS
      else lse[b][g]
    }

    /** The word the gather collects, after the eager mask. */
    function MaskedWord(b: nat, g: nat): bv32
      requires Holds(b, g)
    {
      if Empty(b) then NEG_INF_BITS else lse[b][g]
    }

    /** The row has no local shard. */
    predicate Empty(b: nat)
      requires mask.Some? ==> mask.value.Ok()
    {
      mask.Some? && EagerEmpty(mask.value.lengths, mask.value.starts, b)
    }

    /** Both mask the same rows. */
    lemma SameWord(b: nat, g: nat)
      requires Holds(b, g)
      ensures SentWord(b, g) == MaskedWord(b, g)
    {
      hide FusedEmpty, EagerEmpty;
      if mask.Some? { MasksAgree(mask.value.lengths, mask.value.starts, mask.value.width, b); }
    }
  }

  datatype Message = Message(out: seq<Ext>, lse: Packed)

  function MessageOf(x: Local, b: nat, g: nat, packDim: nat): Message
    requires x.Holds(b, g)
  {
    Message(x.out[b][g], Pack(x.SentWord(b, g), packDim))
  }

  /** Head `h` of rank `r`'s share names rank and place again, so no two shares overlap. */
  lemma HeadInRange(r: nat, h: nat, ranks: nat, perRank: nat)
    requires r < ranks && h < perRank
    ensures r * perRank + h < ranks * perRank
    ensures (r * perRank + h) / perRank == r && (r * perRank + h) % perRank == h
  {
    MulMono(r + 1, ranks, perRank);
    assert (r + 1) * perRank == r * perRank + perRank;
    DivUnique(r * perRank + h, perRank, r);
  }

  /** Every head is in one rank's share. */
  lemma HeadHasPlace(g: nat, ranks: nat, perRank: nat)
    requires g < ranks * perRank
    ensures perRank > 0 && g / perRank < ranks && g % perRank < perRank
    ensures g / perRank * perRank + g % perRank == g
  {
    DivBounds(g, perRank);
    if g / perRank >= ranks { MulMono(ranks, g / perRank, perRank); }
  }

  /** The message holds this head's outputs, and its log-sum-exp, minus infinity in a masked
      row, as one element or two. */
  predicate Carries(m: Message, x: Local, b: nat, g: nat, packDim: nat)
    requires x.Holds(b, g)
  {
    && m.out == x.out[b][g]
    && Unpack(m.lse) == (if x.Empty(b) then NEG_INF_BITS else x.lse[b][g])
    && (m.lse.Whole? <==> packDim == 1)
  }

  lemma MessageCarries(x: Local, b: nat, g: nat, packDim: nat)
    requires x.Holds(b, g)
    ensures Carries(MessageOf(x, b, g, packDim), x, b, g, packDim)
  {
    x.SameWord(b, g);
    PackRoundTrip(x.SentWord(b, g), packDim);
  }

  /** Place `(r, b, h)` of the send buffer holds the message of rank `r`'s head `h`. */
  predicate InPlace(x: Local, ranks: nat, perRank: nat, dim: nat, packDim: nat, r: nat, b: nat, h: nat, m: Message)
    requires x.Shaped(|x.out|, ranks * perRank, dim) && r < ranks && b < |x.out| && h < perRank
  {
    HeadInRange(r, h, ranks, perRank);
    m == MessageOf(x, b, r * perRank + h, packDim)
  }

  lemma MessageInPlace(x: Local, ranks: nat, perRank: nat, dim: nat, packDim: nat, r: nat, b: nat, h: nat)
    requires x.Shaped(|x.out|, ranks * perRank, dim) && r < ranks && b < |x.out| && h < perRank
    ensures x.Holds(b, r * perRank + h)
    ensures InPlace(x, ranks, perRank, dim, packDim, r, b, h, MessageOf(x, b, r * perRank + h, packDim))
  {
    HeadInRange(r, h, ranks, perRank);
  }

  /** Rank `g / perRank` is sent head `g`, as head `g % perRank` of its share. */
  ghost predicate HeadSent(x: Local, ranks: nat, perRank: nat, packDim: nat, b: nat, g: nat, send: array3<Message>)
    reads send
  {
    && perRank > 0 && g / perRank < send.Length0 == ranks && g % perRank < send.Length2 == perRank && b < send.Length1
    && x.Holds(b, g) && Carries(send[g / perRank, b, g % perRank], x, b, g, packDim)
  }

  lemma HeadIsSent(x: Local, ranks: nat, perRank: nat, dim: nat, packDim: nat, b: nat, g: nat, send: array3<Message>)
    requires x.Shaped(|x.out|, ranks * perRank, dim) && b < |x.out| && g < ranks * perRank
    requires send.Length0 == ranks && send.Length1 == |x.out| && send.Length2 == perRank
    requires forall r: nat, c: nat, h: nat | r < ranks && c < |x.out| && h < perRank ::
               InPlace(x, ranks, perRank, dim, packDim, r, c, h, send[r, c, h])
    ensures HeadSent(x, ranks, perRank, packDim, b, g, send)
  {
    HeadHasPlace(g, ranks, perRank);
    assert InPlace(x, ranks, perRank, dim, packDim, g / perRank, b, g % perRank, send[g / perRank, b, g % perRank]);
    MessageCarries(x, b, g, packDim);
  }

  /** The packing kernel: one program per token and local head, one message per rank. Every
      head is sent once, to the rank of its share. */
  method PackSend(x: Local, ranks: nat, perRank: nat, dim: nat, packDim: nat) returns (send: array3<Message>)
    requires x.Shaped(|x.out|, ranks * perRank, dim)
    ensures fresh(send) && send.Length0 == ranks && send.Length1 == |x.out| && send.Length2 == perRank
    ensures forall b: nat, g: nat | b < |x.out| && g < ranks * perRank ::
              HeadSent(x, ranks, perRank, packDim, b, g, send)
    ensures forall r: nat, b: nat, h: nat | r < ranks && b < |x.out| && h < perRank ::
              InPlace(x, ranks, perRank, dim, packDim, r, b, h, send[r, b, h])
  {
    hide InPlace, HeadSent;
    var tokens := |x.out|;
    send := new Message[ranks, tokens, perRank]((_, _, _) => Message([], Whole(0)));
    for b := 0 to tokens
      invariant forall r: nat, c: nat, h: nat | r < ranks && c < b && h < perRank ::
                  InPlace(x, ranks, perRank, dim, packDim, r, c, h, send[r, c, h])
    {
      for h := 0 to perRank
        invariant forall r: nat, c: nat, k: nat
          | r < ranks && c < tokens && k < perRank && (c < b || (c == b && k < h)) ::
                    InPlace(x, ranks, perRank, dim, packDim, r, c, k, send[r, c, k])
      {
        for r := 0 to ranks
          invariant forall q: nat, c: nat, k: nat
            | q < ranks && c < tokens && k < perRank && (c < b || (c == b && (k < h || (k == h && q < r)))) ::
                      InPlace(x, ranks, perRank, dim, packDim, q, c, k, send[q, c, k])
        {
          HeadInRange(r, h, ranks, perRank);
          send[r, b, h] := MessageOf(x, b, r * perRank + h, packDim);
          MessageInPlace(x, ranks, perRank, dim, packDim, r, b, h);
        }
      }
    }
    forall b: nat, g: nat | b < tokens && g < ranks * perRank
      ensures HeadSent(x, ranks, perRank, packDim, b, g, send)
    {
      HeadIsSent(x, ranks, perRank, dim, packDim, b, g, send);
    }
  }

  // ---- What the receiving side combines ----

  predicate SameShape(all: seq<Local>, tokens: nat, heads: nat, dim: nat) {
    forall i | 0 <= i < |all| :: all[i].Shaped(tokens, heads, dim)
  }

  lemma ShapeAt(all: seq<Local>, tokens: nat, heads: nat, dim: nat, i: nat, b: nat, g: nat)
    requires SameShape(all, tokens, heads, dim) && i < |all| && b < tokens && g < heads
    ensures all[i].Holds(b, g) && |all[i].out[b][g]| == dim
  {
    assert all[i].Shaped(tokens, heads, dim);
  }

  /** Log-sum-exps of all ranks for one token and head, masked rows first set to minus
      infinity: what the gather collects. */
  function Gathered(value: bv32 -> Ext, all: seq<Local>, tokens: nat, heads: nat, dim: nat, b: nat,
                    g: nat): (r: seq<Ext>)
    requires SameShape(all, tokens, heads, dim) && b < tokens && g < heads
    ensures |r| == |all|
  {
    seq(|all|, i requires 0 <= i < |all| => (ShapeAt(all, tokens, heads, dim, i, b, g); value(all[i].MaskedWord(b, g))))
  }

  function Outputs(all: seq<Local>, tokens: nat, heads: nat, dim: nat, b: nat, g: nat, d: nat): (r: seq<Ext>)
    requires SameShape(all, tokens, heads, dim) && b < tokens && g < heads && d < dim
    ensures |r| == |all|
  {
    seq(|all|, i requires 0 <= i < |all| => (ShapeAt(all, tokens, heads, dim, i, b, g); all[i].out[b][g][d]))
  }

  /** What the exchange delivers to rank `me`: everybody's message for its heads. */
  function Received(all: seq<Local>, tokens: nat, perRank: nat, dim: nat, packDim: nat, me: nat, b: nat,
                    h: nat): (r: seq<Message>)
    requires SameShape(all, tokens, |all| * perRank, dim) && me < |all| && b < tokens && h < perRank
    ensures |r| == |all|
  {
    HeadInRange(me, h, |all|, perRank);
    var g := me * perRank + h;
    seq(|all|, i requires 0 <= i < |all| =>
        (ShapeAt(all, tokens, |all| * perRank, dim, i, b, g); MessageOf(all[i], b, g, packDim)))
  }

  function Lses(value: bv32 -> Ext, messages: seq<Message>): (r: seq<Ext>)
    ensures |r| == |messages|
  {
    seq(|messages|, i requires 0 <= i < |messages| => value(Unpack(messages[i].lse)))
  }

  /** The exchange, with its fused mask, hands rank `me` exactly what gathering, with the
      eager one, hands it for its own heads. */
  lemma ReceivedIsGathered(value: bv32 -> Ext, all: seq<Local>, tokens: nat, perRank: nat, dim: nat, packDim: nat,
                           me: nat, b: nat, h: nat)
    requires SameShape(all, tokens, |all| * perRank, dim) && me < |all| && b < tokens && h < perRank
    ensures var g := me * perRank + h;
            var got := Received(all, tokens, perRank, dim, packDim, me, b, h);
            && g < |all| * perRank
            && Lses(value, got) == Gathered(value, all, tokens, |all| * perRank, dim, b, g)
            && (forall i | 0 <= i < |all| :: |got[i].out| == dim)
            && forall i, d | 0 <= i < |all| && 0 <= d < dim ::
                 got[i].out[d] == Outputs(all, tokens, |all| * perRank, dim, b, g, d)[i]
  {
    HeadInRange(me, h, |all|, perRank);
    var g := me * perRank + h;
    var got := Received(all, tokens, perRank, dim, packDim, me, b, h);
    forall i: nat | i < |all|
      ensures |got[i].out| == dim
              && Unpack(got[i].lse) == (ShapeAt(all, tokens, |all| * perRank, dim, i, b, g); all[i].MaskedWord(b, g))
      ensures forall d | 0 <= d < dim :: got[i].out[d] == Outputs(all, tokens, |all| * perRank, dim, b, g, d)[i]
    {
      ShapeAt(all, tokens, |all| * perRank, dim, i, b, g);
      all[i].SameWord(b, g);
      PackRoundTrip(all[i].SentWord(b, g), packDim);
    }
    assert Lses(value, got) == Gathered(value, all, tokens, |all| * perRank, dim, b, g);
  }

  // ---- Both paths give attention over the union, rank by rank and head by head ----

  /** Every rank's local attention at one token, head and coordinate is that of its shard,
      and masked rows have no shard. `value` reads a log-sum-exp word. */
  ghost predicate Faithful(base: Base, value: bv32 -> Ext, all: seq<Local>, tokens: nat, heads: nat, dim: nat,
                           b: nat, g: nat, d: nat, shards: seq<Shard>)
    requires SameShape(all, tokens, heads, dim) && b < tokens && g < heads && d < dim
  {
    && |shards| == |all| && value(NEG_INF_BITS) == NegInf
    && forall i | 0 <= i < |all| :: FaithfulAt(base, value, all, tokens, heads, dim, b, g, d, shards[i], i)
  }

  predicate FaithfulAt(base: Base, value: bv32 -> Ext, all: seq<Local>, tokens: nat, heads: nat, dim: nat,
                       b: nat, g: nat, d: nat, shard: Shard, i: nat)
    requires SameShape(all, tokens, heads, dim) && b < tokens && g < heads && d < dim && i < |all|
  {
    ShapeAt(all, tokens, heads, dim, i, b, g);
    if all[i].Empty(b) then shard == []
    else Partial(base, shard, value(all[i].lse[b][g]), all[i].out[b][g][d])
  }

  lemma GatheredArePartials(base: Base, value: bv32 -> Ext, all: seq<Local>, tokens: nat, heads: nat, dim: nat,
                            b: nat, g: nat, d: nat, shards: seq<Shard>)
    requires SameShape(all, tokens, heads, dim) && b < tokens && g < heads && d < dim
    requires Faithful(base, value, all, tokens, heads, dim, b, g, d, shards)
    ensures Partials(base, shards, Gathered(value, all, tokens, heads, dim, b, g),
                     Outputs(all, tokens, heads, dim, b, g, d))
  {
    hide LogSum, Attention;
    forall i | 0 <= i < |all|
      ensures Partial(base, shards[i], Gathered(value, all, tokens, heads, dim, b, g)[i],
                      Outputs(all, tokens, heads, dim, b, g, d)[i])
    {
      ShapeAt(all, tokens, heads, dim, i, b, g);
      assert FaithfulAt(base, value, all, tokens, heads, dim, b, g, d, shards[i], i);
      assert Gathered(value, all, tokens, heads, dim, b, g)[i] == value(all[i].MaskedWord(b, g));
      assert Outputs(all, tokens, heads, dim, b, g, d)[i] == all[i].out[b][g][d];
    }
  }

  /** The reduce-scatter's share of rank `me`: coordinate `d` of its head `h`. */
  function ScatteredOut(base: Base, value: bv32 -> Ext, all: seq<Local>, tokens: nat, perRank: nat, dim: nat,
                        me: nat, b: nat, h: nat, d: nat): Ext
    requires SameShape(all, tokens, |all| * perRank, dim) && me < |all| && b < tokens && h < perRank && d < dim
  {
    HeadInRange(me, h, |all|, perRank);
    var g := me * perRank + h;
    ReducedUpTo(base, Gathered(value, all, tokens, |all| * perRank, dim, b, g),
                Outputs(all, tokens, |all| * perRank, dim, b, g, d), |all|)
  }

  /** Unpack and combine the messages about one token and head `g`, for one coordinate. */
  method CombineMessages(base: Base, value: bv32 -> Ext, ghost all: seq<Local>, ghost tokens: nat, ghost heads: nat,
                         dim: nat, got: seq<Message>, ghost b: nat, ghost g: nat, d: nat, ghost shards: seq<Shard>)
    returns (out: Ext, lse: Ext)
    requires base.Lawful() && SameShape(all, tokens, heads, dim) && b < tokens && g < heads && d < dim
    requires Faithful(base, value, all, tokens, heads, dim, b, g, d, shards)
    requires |got| == |all| && Lses(value, got) == Gathered(value, all, tokens, heads, dim, b, g)
    requires forall i | 0 <= i < |all| ::
               |got[i].out| == dim && got[i].out[d] == Outputs(all, tokens, heads, dim, b, g, d)[i]
    ensures out == Fin(Attention(base, Union(shards))) && lse == LogSum(base, Union(shards))
    ensures out == ReducedUpTo(base, Gathered(value, all, tokens, heads, dim, b, g),
                               Outputs(all, tokens, heads, dim, b, g, d), |all|)
  {
    hide Partial, Partials, LogSum, Attention, Union, Base.Lawful, Faithful, ReducedUpTo, SameShape, Gathered, Outputs,
         Lses;
    GatheredArePartials(base, value, all, tokens, heads, dim, b, g, d, shards);
    GatherScatterIsAttention(base, shards, Gathered(value, all, tokens, heads, dim, b, g),
                             Outputs(all, tokens, heads, dim, b, g, d));
    var outs := seq(|got|, i requires 0 <= i < |got| => got[i].out[d]);
    assert outs == Outputs(all, tokens, heads, dim, b, g, d);
    out, lse := UnpackCombine(base, Lses(value, got), outs, shards);
  }

  /** The unpack kernel of rank `me`, for one token, head and coordinate. */
  method CombineReceived(base: Base, value: bv32 -> Ext, all: seq<Local>, tokens: nat, perRank: nat, dim: nat,
                         packDim: nat, me: nat, b: nat, h: nat, d: nat, ghost shards: seq<Shard>)
    returns (out: Ext, lse: Ext)
    requires base.Lawful() && SameShape(all, tokens, |all| * perRank, dim)
    requires me < |all| && b < tokens && h < perRank && d < dim
    requires me * perRank + h < |all| * perRank
    requires Faithful(base, value, all, tokens, |all| * perRank, dim, b, me * perRank + h, d, shards)
    ensures out == Fin(Attention(base, Union(shards))) && lse == LogSum(base, Union(shards))
    ensures out == ScatteredOut(base, value, all, tokens, perRank, dim, me, b, h, d)
  {
    hide Partials, LogSum, Attention, Union, Base.Lawful, Faithful, ReducedUpTo, SameShape, Gathered, Outputs, Received,
         Lses;
    var got := Received(all, tokens, perRank, dim, packDim, me, b, h);
    ReceivedIsGathered(value, all, tokens, perRank, dim, packDim, me, b, h);
    out, lse := CombineMessages(base, value, all, tokens, |all| * perRank, dim, got, b, me * perRank + h, d, shards);
  }
}
