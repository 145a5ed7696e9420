/** Recurrent-state blocks, and the three ways a step touches them: a block copy, the
    forward pass, and reading a state back.

    A temporal block holds one recurrent state. The state is a function of the tokens
    consumed, so the model stores those tokens: two states are equal only when they
    come from the same history. A convolution block holds a window of input samples;
    read at an offset, it must show the last `taps` samples of a history. */
module AlignState {
  type Token = nat

  type History = seq<Token>

  datatype Sample = Blank | Of(token: Token)

  /** `width` samples per convolution block; `spec` columns are reserved for drafts. */
  datatype Layout = Layout(blockSize: nat, taps: nat, width: nat, spec: nat) {
    predicate Valid() { blockSize > 0 && taps + spec <= width }
  }

  datatype Pool = Pool(temporal: seq<History>, conv: seq<seq<Sample>>)

  predicate PoolOk(l: Layout, p: Pool) {
    && |p.temporal| == |p.conv|
    && forall b | 0 <= b < |p.conv| :: |p.conv[b]| == l.width
  }

  // ---- Reading states ----

  function Samples(h: History): (s: seq<Sample>)
    ensures |s| == |h|
  {
    seq(|h|, i requires 0 <= i < |h| => Of(h[i]))
  }

  /** The last `taps` samples of a history, blank where it is too short. */
  function Tail(h: History, taps: nat): (s: seq<Sample>)
    ensures |s| == taps
  {
    seq(taps, i requires 0 <= i < taps => if |h| + i >= taps then Of(h[|h| + i - taps]) else Blank)
  }

  predicate ConvAt(window: seq<Sample>, offset: int, h: History, taps: nat) {
    0 <= offset && offset + taps <= |window| && window[offset..offset + taps] == Tail(h, taps)
  }

  /** A block read at an offset: both kinds of state show exactly history `h`. */
  predicate Shows(l: Layout, p: Pool, temporalBlock: nat, convBlock: nat, offset: int, h: History)
    requires PoolOk(l, p)
  {
    && temporalBlock < |p.temporal| && convBlock < |p.temporal|
    && p.temporal[temporalBlock] == h
    && ConvAt(p.conv[convBlock], offset, h, l.taps)
  }

  /** The same through a block table: temporal column, convolution column, offset. */
  predicate ShowsAt(l: Layout, p: Pool, table: seq<nat>, column: int, convColumn: int, offset: int, h: History)
    requires PoolOk(l, p)
  {
    && 0 <= column < |table| && 0 <= convColumn < |table|
    && Shows(l, p, table[column], table[convColumn], offset, h)
  }

  predicate TableOk(table: seq<nat>, size: nat) {
    forall c | 0 <= c < |table| :: table[c] < size
  }

  predicate DistinctColumns(table: seq<nat>, lo: int, hi: int)
    requires 0 <= lo && hi <= |table|
  {
    forall a, b | lo <= a < b < hi :: table[a] != table[b]
  }

  predicate AgreeOff(p: Pool, q: Pool, blocks: set<nat>) {
    && |p.temporal| == |q.temporal| && |p.conv| == |q.conv| == |p.temporal|
    && forall b: nat | b < |p.temporal| && b !in blocks :: p.temporal[b] == q.temporal[b] && p.conv[b] == q.conv[b]
  }

  lemma ShowsFrame(l: Layout, p: Pool, q: Pool, blocks: set<nat>, table: seq<nat>, column: int, convColumn: int,
                   offset: int, h: History)
    requires PoolOk(l, p) && PoolOk(l, q) && AgreeOff(p, q, blocks)
    requires ShowsAt(l, p, table, column, convColumn, offset, h)
    requires table[column] !in blocks && table[convColumn] !in blocks
    ensures ShowsAt(l, q, table, column, convColumn, offset, h)
  {
  }

  // ---- Block copy, as the copy specs of the source state it ----

  predicate CopyFits(l: Layout, p: Pool, table: seq<nat>, src: int, dst: int, bias: int) {
    && PoolOk(l, p) && TableOk(table, |p.temporal|)
    && 0 <= src && 0 <= dst < |table| && 0 <= bias <= l.width && src + bias < |table|
  }

  /** Temporal state: column `src + bias`. Convolution state: window of column `src`
      shifted left by `bias`; samples past the shifted ones stay as they were. */
  function CopyBlock(l: Layout, p: Pool, table: seq<nat>, src: int, dst: int, bias: int): (q: Pool)
    requires CopyFits(l, p, table, src, dst, bias)
    ensures PoolOk(l, q) && AgreeOff(p, q, {table[dst]})
  {
    var window := p.conv[table[src]][bias..] + p.conv[table[dst]][l.width - bias..];
    Pool(p.temporal[table[dst] := p.temporal[table[src + bias]]], p.conv[table[dst] := window])
  }

  /** Sample by sample: the first `width - bias` come from the source at the bias, the
      others stay; the temporal state is the biased column's. */
  lemma CopyBlockSamples(l: Layout, p: Pool, table: seq<nat>, src: int, dst: int, bias: int, t: nat)
    requires CopyFits(l, p, table, src, dst, bias) && t < l.width
    ensures var q := CopyBlock(l, p, table, src, dst, bias);
            && q.temporal[table[dst]] == p.temporal[table[src + bias]]
            && q.conv[table[dst]][t]
               == if t < l.width - bias then p.conv[table[src]][t + bias] else p.conv[table[dst]][t]
  {
  }

  /** A copy carries whatever the source shows at the bias to offset 0 of the
      destination. */
  lemma CopyBlockShows(l: Layout, p: Pool, table: seq<nat>, src: int, dst: int, bias: int, h: History)
    requires CopyFits(l, p, table, src, dst, bias)
    requires ShowsAt(l, p, table, src + bias, src, bias, h)
    ensures ShowsAt(l, CopyBlock(l, p, table, src, dst, bias), table, dst, dst, 0, h)
  {
    var q := CopyBlock(l, p, table, src, dst, bias);
    assert q.conv[table[dst]][0..l.taps] == p.conv[table[src]][bias..bias + l.taps];
  }

  // ---- Forward pass ----

  /** States for the confirmed tokens and the first `n` drafts, in successive columns. */
  function WriteStates(temporal: seq<History>, table: seq<nat>, col: nat, h: History, inputs: seq<Token>,
                       first: nat, n: nat): (t: seq<History>)
    requires first + n <= |inputs| && col + n < |table| && TableOk(table, |temporal|)
    ensures |t| == |temporal|
  {
    var before := if n == 0 then temporal else WriteStates(temporal, table, col, h, inputs, first, n - 1);
    before[table[col + n] := h + inputs[..first + n]]
  }

  predicate ForwardFits(l: Layout, p: Pool, table: seq<nat>, col: int, accepted: int, inputs: seq<Token>, draft: nat) {
    && PoolOk(l, p) && TableOk(table, |p.temporal|) && l.Valid()
    && 0 <= col && col + l.spec < |table|
    && 1 <= accepted <= l.spec + 1 && draft <= l.spec && draft <= |inputs|
  }

  /** The forward pass as its kernels see it: it starts from what the running column
      shows at the accepted offset, or from nothing for a fresh request, and consumes
      the scheduled tokens, the last `draft` of which are speculative. */
  function Forward(l: Layout, p: Pool, table: seq<nat>, col: int, accepted: int, isFresh: bool,
                   inputs: seq<Token>, draft: nat): (q: Pool)
    requires ForwardFits(l, p, table, col, accepted, inputs, draft)
    ensures PoolOk(l, q) && |q.temporal| == |p.temporal|
  {
    var first := |inputs| - draft;
    var h := if isFresh then [] else p.temporal[table[col + accepted - 1]];
    var was := p.conv[table[col]];
    var window := if isFresh then Tail([], l.taps) else was[accepted - 1..accepted - 1 + l.taps];
    var stream := window + Samples(inputs);
    Pool(WriteStates(p.temporal, table, col, h, inputs, first, draft),
         p.conv[table[col] := stream[first..] + was[l.taps + draft..]])
  }

  lemma {:induction false} WriteStatesAt(temporal: seq<History>, table: seq<nat>, col: nat, h: History,
                                         inputs: seq<Token>, first: nat, n: nat, i: nat)
    requires first + n <= |inputs| && col + n < |table| && i <= n && TableOk(table, |temporal|)
    requires DistinctColumns(table, col, col + n + 1)
    ensures WriteStates(temporal, table, col, h, inputs, first, n)[table[col + i]] == h + inputs[..first + i]
  {
    if i < n {
      WriteStatesAt(temporal, table, col, h, inputs, first, n - 1, i);
      assert table[col + i] != table[col + n];
    }
  }

  lemma {:induction false} WriteStatesFrame(temporal: seq<History>, table: seq<nat>, col: nat, h: History,
                                            inputs: seq<Token>, first: nat, n: nat, b: nat)
    requires first + n <= |inputs| && col + n < |table| && b < |temporal| && TableOk(table, |temporal|)
    requires forall c | col <= c <= col + n :: table[c] != b
    ensures WriteStates(temporal, table, col, h, inputs, first, n)[b] == temporal[b]
  {
    assert table[col + n] != b;
    if n > 0 {
      WriteStatesFrame(temporal, table, col, h, inputs, first, n - 1, b);
    }
  }

  /** Sliding the window over more samples shows the tail of the longer history. */
  lemma TailSlides(h: History, inputs: seq<Token>, taps: nat, k: nat)
    requires k <= |inputs|
    ensures (Tail(h, taps) + Samples(inputs))[k..k + taps] == Tail(h + inputs[..k], taps)
  {
    var stream := Tail(h, taps) + Samples(inputs);
    var g := h + inputs[..k];
    forall i | 0 <= i < taps
      ensures stream[k..k + taps][i] == Tail(g, taps)[i]
    {
      if |g| + i >= taps && k + i < taps {
        assert g[|g| + i - taps] == h[|h| + (k + i) - taps];
      } else if k + i >= taps {
        assert g[|g| + i - taps] == inputs[k + i - taps];
      }
    }
  }

  /** The window a forward pass leaves shows, at offset `i`, the confirmed tokens and
      the first `i` drafts. */
  lemma ForwardConvShows(h: History, inputs: seq<Token>, taps: nat, draft: nat, rest: seq<Sample>, i: nat)
    requires draft <= |inputs| && i <= draft
    ensures var stream := Tail(h, taps) + Samples(inputs);
            ConvAt(stream[|inputs| - draft..] + rest, i, h + inputs[..|inputs| - draft + i], taps)
  {
    var first := |inputs| - draft;
    var stream := Tail(h, taps) + Samples(inputs);
    TailSlides(h, inputs, taps, first + i);
    assert (stream[first..] + rest)[i..i + taps] == stream[first + i..first + i + taps];
  }

  /** The window a forward pass starts from is the tail of the loaded history. */
  lemma WindowIsTail(l: Layout, p: Pool, table: seq<nat>, col: int, accepted: int, isFresh: bool,
                     inputs: seq<Token>, draft: nat, h: History)
    requires ForwardFits(l, p, table, col, accepted, inputs, draft)
    requires if isFresh then h == [] else ShowsAt(l, p, table, col + accepted - 1, col, accepted - 1, h)
    ensures accepted - 1 + l.taps <= |p.conv[table[col]]|
    ensures (if isFresh then Tail([], l.taps) else p.conv[table[col]][accepted - 1..accepted - 1 + l.taps])
            == Tail(h, l.taps)
  {
  }

  /** If the running column shows history `h`, then after the forward pass column
      `col + i` shows `h` and the confirmed tokens and the first `i` drafts. */
  lemma ForwardShows(l: Layout, p: Pool, table: seq<nat>, col: int, accepted: int, isFresh: bool,
                     inputs: seq<Token>, draft: nat, h: History, i: nat)
    requires ForwardFits(l, p, table, col, accepted, inputs, draft) && i <= draft
    requires DistinctColumns(table, col, col + draft + 1)
    requires if isFresh then h == [] else ShowsAt(l, p, table, col + accepted - 1, col, accepted - 1, h)
    ensures ShowsAt(l, Forward(l, p, table, col, accepted, isFresh, inputs, draft), table, col + i, col, i,
                    h + inputs[..|inputs| - draft + i])
  {
    hide Forward, ConvAt, DistinctColumns;
    ForwardTemporal(l, p, table, col, accepted, isFresh, inputs, draft, h, i);
    ForwardWindow(l, p, table, col, accepted, isFresh, inputs, draft, h, i);
  }

  lemma ForwardTemporal(l: Layout, p: Pool, table: seq<nat>, col: int, accepted: int, isFresh: bool,
                        inputs: seq<Token>, draft: nat, h: History, i: nat)
    requires ForwardFits(l, p, table, col, accepted, inputs, draft) && i <= draft
    requires DistinctColumns(table, col, col + draft + 1)
    requires if isFresh then h == [] else ShowsAt(l, p, table, col + accepted - 1, col, accepted - 1, h)
    ensures Forward(l, p, table, col, accepted, isFresh, inputs, draft).temporal[table[col + i]]
            == h + inputs[..|inputs| - draft + i]
  {
    hide WriteStates, ConvAt, DistinctColumns;
    WriteStatesAt(p.temporal, table, col, h, inputs, |inputs| - draft, draft, i);
  }

  lemma ForwardWindow(l: Layout, p: Pool, table: seq<nat>, col: int, accepted: int, isFresh: bool,
                      inputs: seq<Token>, draft: nat, h: History, i: nat)
    requires ForwardFits(l, p, table, col, accepted, inputs, draft) && i <= draft
    requires if isFresh then h == [] else ShowsAt(l, p, table, col + accepted - 1, col, accepted - 1, h)
    ensures ConvAt(Forward(l, p, table, col, accepted, isFresh, inputs, draft).conv[table[col]], i,
                   h + inputs[..|inputs| - draft + i], l.taps)
  {
    hide WriteStates, ConvAt, ShowsAt, Tail, Samples;
    WindowIsTail(l, p, table, col, accepted, isFresh, inputs, draft, h);
    ForwardConvShows(h, inputs, l.taps, draft, p.conv[table[col]][l.taps + draft..], i);
  }

  /** The forward pass writes only the columns `col .. col + draft`. */
  lemma ForwardFrame(l: Layout, p: Pool, table: seq<nat>, col: int, accepted: int, isFresh: bool,
                     inputs: seq<Token>, draft: nat, blocks: set<nat>)
    requires ForwardFits(l, p, table, col, accepted, inputs, draft)
    requires forall c | col <= c <= col + draft :: table[c] in blocks
    ensures AgreeOff(p, Forward(l, p, table, col, accepted, isFresh, inputs, draft), blocks)
  {
    var h := if isFresh then [] else p.temporal[table[col + accepted - 1]];
    assert table[col] in blocks;
    forall b: nat | b < |p.temporal| && b !in blocks
      ensures Forward(l, p, table, col, accepted, isFresh, inputs, draft).temporal[b] == p.temporal[b]
    {
      WriteStatesFrame(p.temporal, table, col, h, inputs, |inputs| - draft, draft, b);
    }
  }
}
