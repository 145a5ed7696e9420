/** Align-mode decisions of `mamba_utils.py`: which block column a step runs in, what
    is migrated before the forward pass, and what is saved after it. Each decision is
    written in the source twice, for the V1 runner and for the V2 runner. */
module AlignPolicy {
  import opened IntMath

  // ---- Before the forward pass ----

  /** What one request hands to the pre-copy kernel, and the accepted count it leaves. */
  datatype Staging = Staging(src: int, dst: int, bias: int, accepted: int)

  /** The pre-copy kernel's own guard: fresh state or an unchanged column copies nothing. */
  predicate CopyNeeded(s: Staging) {
    s.src >= 0 && s.src != s.dst
  }

  /** The column `preprocess_mamba` takes as the previous one. */
  function PreviousColumn(entry: Option<int>, computed: nat, blockSize: nat): int
    requires blockSize > 0
  {
    match entry
    case Some(column) => column
    case None => (computed - 1) / blockSize
  }

  /** V1: the staged arrays start at -1 and 0, and are filled when the column changes. */
  function StageV1(entry: Option<int>, computed: nat, scheduled: nat, accepted: int, blockSize: nat): Staging
    requires blockSize > 0
  {
    var prev := PreviousColumn(entry, computed, blockSize);
    var curr := CeilDiv(computed + scheduled, blockSize) - 1;
    if prev != -1 && prev != curr then Staging(prev, curr, accepted - 1, 1)
    else Staging(-1, curr, 0, accepted)
  }

  /** V2: the kernel always stores the previous column and bias, and resets the count
      only when a boundary is crossed. */
  function StageV2(stateIdx: int, computed: nat, queryStart: nat, queryEnd: nat, accepted: int, blockSize: nat): Staging
    requires blockSize > 0 && queryStart <= queryEnd
  {
    var computedAfter := computed + queryEnd - queryStart;
    var curr := (computedAfter + blockSize - 1) / blockSize - 1;
    Staging(stateIdx, curr, Max(accepted - 1, 0),
            if stateIdx >= 0 && stateIdx != curr then 1 else accepted)
  }

  /** Both runners advance to the same column, leave the same count, and migrate the
      same state whenever either of them migrates one. */
  lemma StagingAgrees(entry: Option<int>, stateIdx: int, computed: nat, queryStart: nat, queryEnd: nat,
                      accepted: int, blockSize: nat)
    requires blockSize > 0 && queryStart <= queryEnd && accepted >= 1
    requires stateIdx == PreviousColumn(entry, computed, blockSize) >= -1
    ensures var v1 := StageV1(entry, computed, queryEnd - queryStart, accepted, blockSize);
            var v2 := StageV2(stateIdx, computed, queryStart, queryEnd, accepted, blockSize);
            && v1.dst == v2.dst
            && v1.accepted == v2.accepted
            && CopyNeeded(v1) == CopyNeeded(v2)
            && (CopyNeeded(v1) ==> v1 == v2)
  {
    assert computed + queryEnd - queryStart == computed + (queryEnd - queryStart);
  }

  /** The column a step runs in lies past every complete block and holds the last
      scheduled token. */
  lemma RunningColumn(computed: nat, scheduled: nat, blockSize: nat)
    requires blockSize > 0 && scheduled >= 1
    ensures var column := CeilDiv(computed + scheduled, blockSize) - 1;
            && computed / blockSize <= column
            && column * blockSize < computed + scheduled <= (column + 1) * blockSize
  {
    var column := CeilDiv(computed + scheduled, blockSize) - 1;
    CeilDivBounds(computed + scheduled, blockSize);
    DivBounds(computed, blockSize);
    if column < computed / blockSize {
      MulMono(column + 1, computed / blockSize, blockSize);
    }
  }

  /** The aligned-index kernel's first state slot. */
  function FirstStateSlot(seqLen: nat, blockSize: nat): int
    requires blockSize > 0
  {
    Max((seqLen - 1) / blockSize, 0)
  }

  /** The kernel that builds the forward pass's state indices and the preprocess step
      name the same running column for every sequence length; an empty sequence has slot 0. */
  lemma StateSlotIsRunningColumn(seqLen: nat, blockSize: nat)
    requires blockSize > 0
    ensures seqLen >= 1 ==> FirstStateSlot(seqLen, blockSize) == CeilDiv(seqLen, blockSize) - 1
    ensures seqLen == 0 ==> FirstStateSlot(seqLen, blockSize) == 0
  {
    if seqLen == 0 {
      DivUnique(-1, blockSize, -1);
      return;
    }
    DivBounds(seqLen - 1, blockSize);
    DivUnique(seqLen + blockSize - 1, blockSize, (seqLen - 1) / blockSize + 1);
    DivMono(0, seqLen - 1, blockSize);
  }

  // ---- After the forward pass ----

  /** `Save` carries the last complete boundary, the accepted-token bias of the source
      column, the destination column, and the two flags the kernel derives from them. */
  datatype PostDecision =
    | Keep
    | Save(aligned: int, bias: int, dest: int, resets: bool, copies: bool)

  function Decide(src: int, running: int, newComputed: int, blockSize: nat): PostDecision
    requires blockSize > 0
  {
    var aligned := (newComputed / blockSize) * blockSize;
    if aligned < running then Keep
    else
      var bias := aligned - running;
      var dest := aligned / blockSize - 1;
      Save(aligned, bias, dest, src == dest, !(src == dest && bias == 0))
  }

  function PostV1(src: int, computed: nat, scheduled: nat, draft: nat, accepted: int, blockSize: nat): PostDecision
    requires blockSize > 0
  {
    var running := computed + scheduled - draft;
    Decide(src, running, running + accepted - 1, blockSize)
  }

  function PostV2(src: int, newComputed: int, accepted: int, blockSize: nat): PostDecision
    requires blockSize > 0
  {
    Decide(src, newComputed - accepted + 1, newComputed, blockSize)
  }

  /** The V2 kernel reads the advanced count instead of deriving it, and decides alike. */
  lemma PostAgrees(src: int, computed: nat, scheduled: nat, draft: nat, accepted: int, blockSize: nat)
    requires blockSize > 0
    ensures PostV1(src, computed, scheduled, draft, accepted, blockSize)
         == PostV2(src, computed + scheduled - draft + accepted - 1, accepted, blockSize)
  {
    var running := computed + scheduled - draft;
    assert (running + accepted - 1) - accepted + 1 == running;
  }

  /** A step saves exactly when some block boundary lies among the counts its forward
      pass wrote a state for. */
  lemma SavesIffBoundary(src: int, computed: nat, scheduled: nat, draft: nat, accepted: int, blockSize: nat)
    requires blockSize > 0 && draft < scheduled && 1 <= accepted <= draft + 1
    ensures var running := computed + scheduled - draft;
            var post := PostV1(src, computed, scheduled, draft, accepted, blockSize);
            post.Save? <==> exists k: nat {:trigger k * blockSize} :: running <= k * blockSize <= running + accepted - 1
  {
    var running := computed + scheduled - draft;
    var last := running + accepted - 1;
    DivBounds(last, blockSize);
    DivMono(0, last, blockSize);
    var q := last / blockSize;
    if k: nat {:trigger k * blockSize} :| running <= k * blockSize <= last {
      if q < k { MulMono(q + 1, k, blockSize); }
      MulMono(k, q, blockSize);
    }
  }

  /** A decode step schedules one token besides its drafts; it saves exactly when it
      commits past a boundary, and the boundary saved is the last one. */
  lemma DecodeSavesLastBoundary(src: int, computed: nat, draft: nat, accepted: int, blockSize: nat)
    requires blockSize > 0 && 1 <= accepted <= draft + 1
    ensures var newComputed := computed + accepted;
            var post := PostV1(src, computed, 1 + draft, draft, accepted, blockSize);
            && (post.Save? <==> computed / blockSize < newComputed / blockSize)
            && (post.Save? ==> && post.aligned <= newComputed < post.aligned + blockSize
                               && post.aligned % blockSize == 0)
  {
    var newComputed := computed + accepted;
    var q := newComputed / blockSize;
    DivBounds(computed, blockSize);
    DivBounds(newComputed, blockSize);
    MulDiv(q, blockSize);
    if computed / blockSize < q { MulMono(computed / blockSize + 1, q, blockSize); }
    DivMono(computed, newComputed, blockSize);
    assert (q + 1) * blockSize == q * blockSize + blockSize;
  }

  /** Everything the copy after the forward pass relies on. The source column stays
      within the columns reserved for drafts, the destination never passes it, and the
      count is reset only when the new count is itself the boundary. */
  lemma SaveGeometry(computed: nat, scheduled: nat, draft: nat, accepted: int, blockSize: nat)
    requires blockSize > 0 && draft < scheduled && 1 <= accepted <= draft + 1
    ensures var running := computed + scheduled - draft;
            var src := CeilDiv(computed + scheduled, blockSize) - 1;
            var post := PostV1(src, computed, scheduled, draft, accepted, blockSize);
            var newComputed := running + accepted - 1;
            post.Save? ==>
              && 0 <= post.bias < accepted
              && computed / blockSize <= post.dest <= src
              && post.aligned == (post.dest + 1) * blockSize
              && computed < running <= post.aligned == running + post.bias <= newComputed
              && (post.resets <==> post.dest == src)
              && (post.resets ==> post.aligned == newComputed && post.bias == accepted - 1)
              && (post.copies <==> src + post.bias != post.dest)
  {
    var running := computed + scheduled - draft;
    var src := CeilDiv(computed + scheduled, blockSize) - 1;
    var post := PostV1(src, computed, scheduled, draft, accepted, blockSize);
    if post.Save? {
      var last := running + accepted - 1;
      var q := last / blockSize;
      DivBounds(last, blockSize);
      MulDiv(q, blockSize);
      assert post.aligned == q * blockSize && post.dest == q - 1;
      BoundaryColumn(computed, computed + scheduled, q, blockSize);
    }
  }

  /** A boundary past the computed tokens lies between their column and the last one. */
  lemma BoundaryColumn(computed: nat, total: nat, q: nat, blockSize: nat)
    requires blockSize > 0 && computed < q * blockSize <= total
    ensures computed / blockSize < q <= CeilDiv(total, blockSize)
  {
    CeilDivBounds(total, blockSize);
    DivBounds(computed, blockSize);
    var columns := CeilDiv(total, blockSize);
    if columns < q { MulMono(columns, q - 1, blockSize); }
    if q <= computed / blockSize { MulMono(q, computed / blockSize, blockSize); }
  }

  /** The next running column lies past every boundary the committed count has reached,
      so no later step runs in a saved column. */
  lemma NextColumnPastBoundary(newComputed: nat, scheduled: nat, blockSize: nat)
    requires blockSize > 0 && scheduled >= 1
    ensures newComputed / blockSize - 1 < CeilDiv(newComputed + scheduled, blockSize) - 1
  {
    RunningColumn(newComputed, scheduled, blockSize);
  }
}
