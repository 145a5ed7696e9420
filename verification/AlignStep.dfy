/** One request's share of an align-mode step: which columns it may write, and what
    each of its three phases establishes and leaves alone. */
module AlignStep {
  import opened IntMath
  import opened AlignPolicy
  import opened AlignState

  /** One request between steps. `stateIdx` is its entry in the state-index dictionary. */
  datatype Request = Request(stateIdx: Option<int>, accepted: int, committed: History, table: seq<nat>)

  /** One request's share of a step: the block table the scheduler hands out, the
      scheduled tokens, how many of them are drafts, and how many are accepted. */
  datatype Job = Job(slot: nat, table: seq<nat>, inputs: seq<Token>, draft: nat, accepted: nat)

  function Previous(l: Layout, r: Request): int
    requires l.Valid()
  {
    PreviousColumn(r.stateIdx, |r.committed|, l.blockSize)
  }

  function Stage(l: Layout, r: Request, j: Job): Staging
    requires l.Valid()
  {
    StageV1(r.stateIdx, |r.committed|, |j.inputs|, r.accepted, l.blockSize)
  }

  function Post(l: Layout, r: Request, j: Job): PostDecision
    requires l.Valid()
  {
    PostV1(Stage(l, r, j).dst, |r.committed|, |j.inputs|, j.draft, j.accepted, l.blockSize)
  }

  /** First and one-past-last column this step may write. */
  function WindowStart(l: Layout, r: Request): nat
    requires l.Valid()
  {
    |r.committed| / l.blockSize
  }

  function WindowEnd(l: Layout, r: Request, j: Job): int
    requires l.Valid()
  {
    CeilDiv(|r.committed| + |j.inputs|, l.blockSize) + l.spec
  }

  function ColumnBlocks(table: seq<nat>, lo: nat, hi: int): set<nat>
    requires hi <= |table|
  {
    set c | lo <= c < hi :: table[c]
  }

  function WindowBlocks(l: Layout, r: Request, j: Job): set<nat>
    requires l.Valid() && WindowEnd(l, r, j) <= |j.table|
  {
    ColumnBlocks(j.table, WindowStart(l, r), WindowEnd(l, r, j))
  }

  /** A column the next step reads this request's state from. */
  predicate LiveColumn(l: Layout, r: Request, column: int)
    requires l.Valid()
  {
    && |r.committed| > 0 && 0 <= column < |r.table|
    && (column == Previous(l, r) || column == Previous(l, r) + r.accepted - 1)
  }

  function LiveBlocks(l: Layout, r: Request): set<nat>
    requires l.Valid()
  {
    set c | 0 <= c < |r.table| && LiveColumn(l, r, c) :: r.table[c]
  }

  /** What the scheduler guarantees for one job: enough columns, distinct blocks in the
      window, and the live columns still backed by the same blocks. */
  predicate JobFits(l: Layout, size: nat, r: Request, j: Job)
    requires l.Valid()
  {
    && j.draft < |j.inputs| && j.draft <= l.spec && 1 <= j.accepted <= j.draft + 1
    && WindowEnd(l, r, j) <= |j.table|
    && TableOk(j.table, size)
    && DistinctColumns(j.table, WindowStart(l, r), WindowEnd(l, r, j))
    && forall c | 0 <= c < |r.table| && LiveColumn(l, r, c) :: c < |j.table| && j.table[c] == r.table[c]
  }

  /** The request's whole state can be found where the next step will look for it. */
  predicate Ready(l: Layout, p: Pool, r: Request)
    requires l.Valid() && PoolOk(l, p)
  {
    && 1 <= r.accepted <= l.spec + 1
    && (r.stateIdx.Some? ==> r.stateIdx.value >= 0)
    && (|r.committed| == 0 ==> r.stateIdx.None?)
    && (|r.committed| > 0 ==>
          ShowsAt(l, p, r.table, Previous(l, r) + r.accepted - 1, Previous(l, r), r.accepted - 1, r.committed))
  }

  /** Before the forward pass the running column itself shows the committed history. */
  predicate Loaded(l: Layout, p: Pool, r: Request, j: Job)
    requires l.Valid() && PoolOk(l, p)
  {
    var st := Stage(l, r, j);
    && 1 <= st.accepted <= l.spec + 1
    && (|r.committed| > 0 ==>
          ShowsAt(l, p, j.table, st.dst + st.accepted - 1, st.dst, st.accepted - 1, r.committed))
  }

  /** The history after the confirmed tokens and the first `i` drafts. */
  function Prefix(r: Request, j: Job, i: nat): History
    requires j.draft < |j.inputs| && i <= j.draft
  {
    r.committed + j.inputs[..|j.inputs| - j.draft + i]
  }

  /** After the forward pass every speculative position has its own state. */
  predicate Written(l: Layout, p: Pool, r: Request, j: Job)
    requires l.Valid() && PoolOk(l, p) && j.draft < |j.inputs|
  {
    var dst := Stage(l, r, j).dst;
    forall i: nat | i <= j.draft :: ShowsAt(l, p, j.table, dst + i, dst, i, Prefix(r, j, i))
  }

  function PrecopyOne(l: Layout, p: Pool, r: Request, j: Job): (q: Pool)
    requires l.Valid() && PoolOk(l, p)
    ensures PoolOk(l, q) && |q.temporal| == |p.temporal|
  {
    var st := Stage(l, r, j);
    if CopyNeeded(st) && CopyFits(l, p, j.table, st.src, st.dst, st.bias)
    then CopyBlock(l, p, j.table, st.src, st.dst, st.bias)
    else p
  }

  function ForwardOne(l: Layout, p: Pool, r: Request, j: Job): (q: Pool)
    requires l.Valid() && PoolOk(l, p)
    ensures PoolOk(l, q) && |q.temporal| == |p.temporal|
  {
    var st := Stage(l, r, j);
    if ForwardFits(l, p, j.table, st.dst, st.accepted, j.inputs, j.draft)
    then Forward(l, p, j.table, st.dst, st.accepted, |r.committed| == 0, j.inputs, j.draft)
    else p
  }

  function PostOne(l: Layout, p: Pool, r: Request, j: Job): (q: Pool)
    requires l.Valid() && PoolOk(l, p)
    ensures PoolOk(l, q) && |q.temporal| == |p.temporal|
  {
    var st := Stage(l, r, j);
    var post := Post(l, r, j);
    if post.Save? && post.copies && CopyFits(l, p, j.table, st.dst, post.dest, post.bias)
    then CopyBlock(l, p, j.table, st.dst, post.dest, post.bias)
    else p
  }

  /** The request after the step: advanced column, committed tokens, and the accepted
      count, reset when the running column was itself rewritten. */
  function Advance(l: Layout, r: Request, j: Job): Request
    requires l.Valid() && j.draft < |j.inputs| && 1 <= j.accepted <= j.draft + 1
  {
    var post := Post(l, r, j);
    Request(Some(Stage(l, r, j).dst),
            if post.Save? && post.resets then 1 else j.accepted,
            Prefix(r, j, j.accepted - 1),
            j.table)
  }

  /** The boundary history a saving step publishes. */
  function Saved(l: Layout, r: Request, j: Job): History
    requires l.Valid() && j.draft < |j.inputs| && 1 <= j.accepted <= j.draft + 1
  {
    var post := Post(l, r, j);
    var h := Prefix(r, j, j.accepted - 1);
    if post.Save? && 0 <= post.aligned <= |h| then h[..post.aligned] else []
  }

  // ---- Phase lemmas ----

  lemma WindowFacts(l: Layout, r: Request, j: Job)
    requires l.Valid() && j.draft < |j.inputs|
    ensures var dst := Stage(l, r, j).dst;
            && WindowStart(l, r) <= dst
            && dst + l.spec + 1 == WindowEnd(l, r, j)
            && dst == CeilDiv(|r.committed| + |j.inputs|, l.blockSize) - 1
  {
    RunningColumn(|r.committed|, |j.inputs|, l.blockSize);
  }

  lemma StageFacts(l: Layout, r: Request, j: Job)
    requires l.Valid() && j.draft < |j.inputs|
    ensures var st := Stage(l, r, j);
            var prev := Previous(l, r);
            && st.dst >= 0
            && (|r.committed| == 0 && r.stateIdx.None? ==> !CopyNeeded(st) && st.accepted == r.accepted)
            && (|r.committed| > 0 && prev >= 0 ==>
                 if prev == st.dst then !CopyNeeded(st) && st.accepted == r.accepted
                 else CopyNeeded(st) && st.src == prev && st.bias == r.accepted - 1 && st.accepted == 1)
  {
    WindowFacts(l, r, j);
    DivUnique(-1, l.blockSize, -1);
    if |r.committed| > 0 {
      DivMono(0, |r.committed| - 1, l.blockSize);
    }
  }

  /** Pre-copy brings the committed history to the running column, whether it migrates
      the state or finds it already in place. */
  lemma PrecopyLoads(l: Layout, p: Pool, r: Request, j: Job)
    requires l.Valid() && PoolOk(l, p) && JobFits(l, |p.temporal|, r, j)
    requires Ready(l, p, r)
    ensures Loaded(l, PrecopyOne(l, p, r, j), r, j)
  {
    hide Stage, Previous, WindowStart, WindowEnd, TableOk, DistinctColumns, Shows;
    WindowFacts(l, r, j);
    StageFacts(l, r, j);
    var st := Stage(l, r, j);
    var prev := Previous(l, r);
    if |r.committed| > 0 {
      assert LiveColumn(l, r, prev) && LiveColumn(l, r, prev + r.accepted - 1);
      assert ShowsAt(l, p, j.table, prev + r.accepted - 1, prev, r.accepted - 1, r.committed);
      if CopyNeeded(st) {
        CopyBlockShows(l, p, j.table, st.src, st.dst, st.bias, r.committed);
      }
    }
  }

  /** The forward pass starts from exactly the committed tokens and leaves one state
      for every speculative position. */
  lemma ForwardWrites(l: Layout, p: Pool, r: Request, j: Job)
    requires l.Valid() && PoolOk(l, p) && JobFits(l, |p.temporal|, r, j)
    requires Loaded(l, p, r, j)
    ensures Written(l, ForwardOne(l, p, r, j), r, j)
  {
    hide Forward, ShowsAt, LiveColumn;
    WindowFacts(l, r, j);
    var st := Stage(l, r, j);
    forall i: nat | i <= j.draft
      ensures ShowsAt(l, ForwardOne(l, p, r, j), j.table, st.dst + i, st.dst, i, Prefix(r, j, i))
    {
      ForwardShows(l, p, j.table, st.dst, st.accepted, |r.committed| == 0, j.inputs, j.draft, r.committed, i);
    }
  }

  lemma PostFacts(l: Layout, r: Request, j: Job)
    requires l.Valid() && j.draft < |j.inputs| && 1 <= j.accepted <= j.draft + 1
    ensures var post := Post(l, r, j);
            var dst := Stage(l, r, j).dst;
            post.Save? ==>
              && 0 <= post.bias < j.accepted
              && WindowStart(l, r) <= post.dest <= dst
              && post.aligned == (post.dest + 1) * l.blockSize
              && post.aligned == |r.committed| + |j.inputs| - j.draft + post.bias
              && |r.committed| < post.aligned <= |Prefix(r, j, j.accepted - 1)|
              && (post.resets <==> post.dest == dst)
              && (post.resets ==> post.bias == j.accepted - 1)
              && (post.copies <==> dst + post.bias != post.dest)
  {
    WindowFacts(l, r, j);
    SaveGeometry(|r.committed|, |j.inputs|, j.draft, j.accepted, l.blockSize);
  }

  /** The boundary column shows exactly the tokens up to the boundary, whether the copy
      ran or the state was already there. */
  lemma PostSaves(l: Layout, p: Pool, r: Request, j: Job)
    requires l.Valid() && PoolOk(l, p) && JobFits(l, |p.temporal|, r, j)
    requires Written(l, p, r, j) && Post(l, r, j).Save?
    ensures var dest := Post(l, r, j).dest;
            && WindowStart(l, r) <= dest < WindowEnd(l, r, j)
            && |Saved(l, r, j)| == (dest + 1) * l.blockSize > |r.committed|
            && ShowsAt(l, PostOne(l, p, r, j), j.table, dest, dest, 0, Saved(l, r, j))
  {
    WindowFacts(l, r, j);
    PostFacts(l, r, j);
    var dst := Stage(l, r, j).dst;
    var post := Post(l, r, j);
    assert Prefix(r, j, post.bias) == Saved(l, r, j);
    assert ShowsAt(l, p, j.table, dst + post.bias, dst, post.bias, Saved(l, r, j));
    if post.copies {
      CopyBlockShows(l, p, j.table, dst, post.dest, post.bias, Saved(l, r, j));
    }
  }

  /** After the last copy the next step will find exactly the committed tokens. */
  lemma PostLeavesReady(l: Layout, p: Pool, r: Request, j: Job)
    requires l.Valid() && PoolOk(l, p) && JobFits(l, |p.temporal|, r, j)
    requires Written(l, p, r, j)
    ensures Ready(l, PostOne(l, p, r, j), Advance(l, r, j))
  {
    WindowFacts(l, r, j);
    PostFacts(l, r, j);
    var dst := Stage(l, r, j).dst;
    var post := Post(l, r, j);
    var last := j.accepted - 1;
    assert ShowsAt(l, p, j.table, dst + last, dst, last, Prefix(r, j, last));
    if post.Save? && post.resets {
      PostSaves(l, p, r, j);
      assert Saved(l, r, j) == Prefix(r, j, last);
    } else if post.Save? && post.copies {
      ShowsFrame(l, p, PostOne(l, p, r, j), {j.table[post.dest]}, j.table, dst + last, dst, last, Prefix(r, j, last));
    }
  }

  /** Each phase of a request writes only blocks of its own window: in particular never
      a column holding a complete block of its committed tokens. */
  lemma PhasesStayInWindow(l: Layout, p: Pool, r: Request, j: Job)
    requires l.Valid() && PoolOk(l, p) && JobFits(l, |p.temporal|, r, j)
    ensures AgreeOff(p, PrecopyOne(l, p, r, j), WindowBlocks(l, r, j))
    ensures AgreeOff(p, ForwardOne(l, p, r, j), WindowBlocks(l, r, j))
    ensures AgreeOff(p, PostOne(l, p, r, j), WindowBlocks(l, r, j))
    ensures forall b | b in WindowBlocks(l, r, j) ::
              exists c :: |r.committed| / l.blockSize <= c < |j.table| && j.table[c] == b
  {
    WindowFacts(l, r, j);
    PostFacts(l, r, j);
    var st := Stage(l, r, j);
    var blocks := WindowBlocks(l, r, j);
    assert forall c | WindowStart(l, r) <= c < WindowEnd(l, r, j) :: j.table[c] in blocks;
    if ForwardFits(l, p, j.table, st.dst, st.accepted, j.inputs, j.draft) {
      ForwardFrame(l, p, j.table, st.dst, st.accepted, |r.committed| == 0, j.inputs, j.draft, blocks);
    }
  }
}
