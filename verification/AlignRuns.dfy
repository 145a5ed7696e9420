/** Whole runs of the in-place workers: steps, admissions and cache evictions in any order,
    each run tied to the protocol's run over the same events. */
module AlignRuns {
  import opened IntMath
  import opened AlignState
  import opened AlignStep
  import opened AlignWorld
  import opened AlignRunner

  predicate RowsSuffice(events: seq<Event>, rows: nat) {
    forall i | 0 <= i < |events| && events[i].Batch? :: |events[i].jobs| <= rows
  }

  // ---- V1 ---------------------------------------------------------------------------

  /** The dictionary worker between steps, with the accepted counts that the input batch
      keeps for each request. */
  ghost predicate AtRest(k: Worker, counts: array<int>, requests: seq<Request>)
    reads k, counts
  {
    && |requests| <= counts.Length
    && forall slot: nat | slot < |requests| ::
         k.EntryOf(slot, requests[slot]) && counts[slot] == requests[slot].accepted
  }

  ghost predicate Separate(k: Worker, counts: array<int>)
    reads k
  {
    counts != k.stateIdx && counts != k.accepted && counts != k.srcCol && counts != k.tokenBias
  }

  /** From the input batch to the worker's rows. */
  method LoadCounts(k: Worker, counts: array<int>, jobs: seq<Job>)
    requires k.Valid() && Separate(k, counts) && |jobs| <= k.accepted.Length
    requires forall i | 0 <= i < |jobs| :: jobs[i].slot < counts.Length
    modifies k.accepted
    ensures k.Valid() && forall i {:trigger jobs[i]} | 0 <= i < |jobs| :: k.accepted[i] == counts[jobs[i].slot]
  {
    for i := 0 to |jobs|
      invariant forall h {:trigger jobs[h]} | 0 <= h < i :: k.accepted[h] == counts[jobs[h].slot]
    {
      k.accepted[i] := counts[jobs[i].slot];
    }
  }

  /** What the kernel left in the rows goes back to the input batch, for the next step. */
  method SaveCounts(k: Worker, counts: array<int>, jobs: seq<Job>)
    requires k.Valid() && Separate(k, counts) && |jobs| <= k.accepted.Length
    requires forall i | 0 <= i < |jobs| :: jobs[i].slot < counts.Length
    requires forall i, h | 0 <= i < h < |jobs| :: jobs[i].slot != jobs[h].slot
    modifies counts
    ensures forall i {:trigger jobs[i]} | 0 <= i < |jobs| :: counts[jobs[i].slot] == k.accepted[i]
    ensures forall slot: nat | slot < counts.Length && NoRow(jobs, slot, true) :: counts[slot] == old(counts[slot])
  {
    for i := 0 to |jobs|
      invariant forall h {:trigger jobs[h]} | 0 <= h < i :: counts[jobs[h].slot] == k.accepted[h]
      invariant forall slot: nat | slot < counts.Length && NoRow(jobs, slot, true) ::
                  counts[slot] == old(counts[slot])
    {
      assert Row(jobs, i, true) == jobs[i].slot;
      counts[jobs[i].slot] := k.accepted[i];
    }
  }

  /** The requests after a batch: the tokens the scheduler commits, with the column and the
      accepted count that the worker holds for each. */
  method CommitBatch(requests: seq<Request>, jobs: seq<Job>, columns: seq<int>, counts: seq<int>, ghost l: Layout)
    returns (next: seq<Request>)
    requires l.Valid() && |columns| == |counts| == |jobs|
    requires forall i | 0 <= i < |jobs| ::
      jobs[i].slot < |requests| && jobs[i].draft < |jobs[i].inputs| && 1 <= jobs[i].accepted <= jobs[i].draft + 1
    requires forall i {:trigger jobs[i]} | 0 <= i < |jobs| ::
               var r := Advance(l, requests[jobs[i].slot], jobs[i]);
               Some(columns[i]) == r.stateIdx && counts[i] == r.accepted
    ensures next == AdvanceAll(l, requests, jobs, |jobs|)
  {
    next := requests;
    for i := 0 to |jobs|
      invariant next == AdvanceAll(l, requests, jobs, i)
    {
      var j := jobs[i];
      var committed := Prefix(requests[j.slot], j, j.accepted - 1);
      next := next[j.slot := Request(Some(columns[i]), counts[i], committed, j.table)];
    }
  }

  function Entries(dict: map<nat, int>, jobs: seq<Job>): (columns: seq<int>)
    requires forall i {:trigger jobs[i]} | 0 <= i < |jobs| :: jobs[i].slot in dict
  {
    seq(|jobs|, i requires 0 <= i < |jobs| => dict[jobs[i].slot])
  }

  method Gather(a: array<int>, jobs: seq<Job>) returns (values: seq<int>)
    requires forall i | 0 <= i < |jobs| :: jobs[i].slot < a.Length
    ensures |values| == |jobs| && forall i {:trigger jobs[i]} | 0 <= i < |jobs| :: values[i] == a[jobs[i].slot]
  {
    values := seq(|jobs|, i requires 0 <= i < |jobs| && jobs[i].slot < a.Length reads a => a[jobs[i].slot]);
  }

  /** Any run of the V1 worker leaves the pool, the requests and the dictionary of the
      protocol's run, so every request's next step finds exactly its committed tokens. The
      accepted counts of a step are the ones the steps before it left in the input batch. */
  method RunV1(k: Worker, counts: array<int>, requests: seq<Request>, events: seq<Event>, ghost w: World,
               ghost end: World)
    returns (last: seq<Request>)
    requires k.Valid() && Separate(k, counts) && w.pool == k.PoolNow() && w.requests == requests
    requires AtRest(k, counts, requests)
    requires WorldOk(k.l, w) && Reaches(k.l, w, events, end) && RowsSuffice(events, k.stateIdx.Length)
    modifies k`mambaStateIdx, k.temporal, k.conv, k.stateIdx, k.accepted, k.srcCol, k.tokenBias, counts
    ensures k.Valid() && k.PoolNow() == end.pool && last == end.requests && AtRest(k, counts, last)
    ensures WorldOk(k.l, end)
  {
    hide WorldOk, EventOk, Apply;
    last := requests;
    ghost var now := w;
    assert events[0..] == events;
    for i := 0 to |events|
      invariant k.Valid() && now.pool == k.PoolNow() && now.requests == last && AtRest(k, counts, last)
      invariant WorldOk(k.l, now) && Reaches(k.l, now, events[i..], end)
    {
      ghost var rest := events[i..];
      assert rest[0] == events[i] && rest[1..] == events[i + 1..];
      EventKeepsWorld(k.l, now, events[i]);
      last := StepV1(k, counts, last, events[i], now);
      now := Apply(k.l, now, events[i]);
    }
    assert events[|events|..] == [];
  }

  method StepV1(k: Worker, counts: array<int>, requests: seq<Request>, e: Event, ghost now: World)
    returns (next: seq<Request>)
    requires k.Valid() && Separate(k, counts) && now.pool == k.PoolNow() && now.requests == requests
    requires AtRest(k, counts, requests)
    requires WorldOk(k.l, now) && EventOk(k.l, now, e) && (e.Batch? ==> |e.jobs| <= k.stateIdx.Length)
    modifies k`mambaStateIdx, k.temporal, k.conv, k.stateIdx, k.accepted, k.srcCol, k.tokenBias, counts
    ensures k.Valid() && k.PoolNow() == Apply(k.l, now, e).pool && next == Apply(k.l, now, e).requests
            && AtRest(k, counts, next)
  {
    hide WorldOk, BatchOk, StepBatch, Admissible;
    match e {
      case Batch(jobs) =>
        next := BatchV1(k, counts, requests, jobs, now);
      case Admit(slot, r) =>
        k.CleanupStateIdx([], [], [slot]);
        AdmittedHasNoEntry(k.l, now, r);
        counts[slot] := 1;
        next := requests[slot := r];
      case Evict(_) =>
        next := requests;
    }
  }

  method BatchV1(k: Worker, counts: array<int>, requests: seq<Request>, jobs: seq<Job>, ghost now: World)
    returns (next: seq<Request>)
    requires k.Valid() && Separate(k, counts) && now.pool == k.PoolNow() && now.requests == requests
    requires AtRest(k, counts, requests)
    requires WorldOk(k.l, now) && BatchOk(k.l, now, jobs) && |jobs| <= k.stateIdx.Length
    modifies k`mambaStateIdx, k.temporal, k.conv, k.stateIdx, k.accepted, k.srcCol, k.tokenBias, counts
    ensures k.Valid() && k.PoolNow() == StepBatch(k.l, now, jobs).pool
    ensures next == StepBatch(k.l, now, jobs).requests && AtRest(k, counts, next)
  {
    hide WorldOk, BatchOk, StepBatch, Advance, AdvanceAll, JobFits;
    BatchShapes(k.l, now, jobs);
    LoadCounts(k, counts, jobs);
    assert World(k.PoolNow(), now.cache, requests) == now;
    k.RunBatch(now.cache, requests, jobs);
    ghost var before := counts[..];
    SaveCounts(k, counts, jobs);
    AdvancedRequests(k.l, now, jobs);
    AdvancedEntries(k.l, requests, jobs);
    CountsAdvance(k.l, now, jobs, before, counts[..]);
    var columns := Entries(k.mambaStateIdx, jobs);
    var taken := Gather(counts, jobs);
    next := CommitBatch(requests, jobs, columns, taken, k.l);
  }

  /** What a batch makes of the requests, slot by slot. */
  lemma AdvancedRequests(l: Layout, w: World, jobs: seq<Job>)
    requires l.Valid() && PoolOk(l, w.pool) && BatchOk(l, w, jobs)
    requires forall i | 0 <= i < |jobs| ::
      jobs[i].slot < |w.requests| && jobs[i].draft < |jobs[i].inputs| && 1 <= jobs[i].accepted <= jobs[i].draft + 1
    ensures var rs := StepBatch(l, w, jobs).requests;
            && rs == AdvanceAll(l, w.requests, jobs, |jobs|)
            && (forall i {:trigger jobs[i]} | 0 <= i < |jobs| ::
                  rs[jobs[i].slot] == Advance(l, w.requests[jobs[i].slot], jobs[i]))
            && forall slot: nat | slot < |rs| && NoRow(jobs, slot, true) :: rs[slot] == w.requests[slot]
  {
    hide BatchOk, Advance, AdvanceAll, RunPass, PublishAll;
    AdvanceAllAt(l, w, jobs, |jobs|);
    forall slot: nat | slot < |w.requests| && NoRow(jobs, slot, true)
      ensures AdvanceAll(l, w.requests, jobs, |jobs|)[slot] == w.requests[slot]
    {
      forall i | 0 <= i < |jobs| ensures jobs[i].slot != slot { assert Row(jobs, i, true) != slot; }
    }
  }

  /** Counts saved by the batch, and kept outside it, are those of the advanced requests. */
  lemma CountsAdvance(l: Layout, w: World, jobs: seq<Job>, before: seq<int>, after: seq<int>)
    requires l.Valid() && PoolOk(l, w.pool) && BatchOk(l, w, jobs) && |w.requests| <= |before| == |after|
    requires forall i | 0 <= i < |jobs| ::
      jobs[i].slot < |w.requests| && jobs[i].draft < |jobs[i].inputs| && 1 <= jobs[i].accepted <= jobs[i].draft + 1
    requires forall slot: nat | slot < |w.requests| :: before[slot] == w.requests[slot].accepted
    requires forall i {:trigger jobs[i]} | 0 <= i < |jobs| ::
               after[jobs[i].slot] == Advance(l, w.requests[jobs[i].slot], jobs[i]).accepted
    requires forall slot: nat | slot < |after| && NoRow(jobs, slot, true) :: after[slot] == before[slot]
    ensures |StepBatch(l, w, jobs).requests| == |w.requests|
    ensures forall slot: nat | slot < |w.requests| :: after[slot] == StepBatch(l, w, jobs).requests[slot].accepted
  {
    hide BatchOk, StepBatch, Advance;
    AdvancedRequests(l, w, jobs);
    forall slot: nat | slot < |w.requests|
      ensures after[slot] == StepBatch(l, w, jobs).requests[slot].accepted
    {
      if !NoRow(jobs, slot, true) {
        var i :| 0 <= i < |jobs| && Row(jobs, i, true) == slot;
        assert jobs[i].slot == slot;
      }
    }
  }

  lemma AdvancedEntries(l: Layout, requests: seq<Request>, jobs: seq<Job>)
    requires l.Valid()
    requires forall i | 0 <= i < |jobs| ::
      jobs[i].slot < |requests| && jobs[i].draft < |jobs[i].inputs| && 1 <= jobs[i].accepted <= jobs[i].draft + 1
    ensures forall i {:trigger jobs[i]} | 0 <= i < |jobs| ::
              var r := requests[jobs[i].slot];
              Advance(l, r, jobs[i]).stateIdx == Some(Stage(l, r, jobs[i]).dst)
  {
  }

  lemma BatchShapes(l: Layout, w: World, jobs: seq<Job>)
    requires BatchOk(l, w, jobs)
    ensures BatchShape(w.requests, jobs) && SlotsOk(w, jobs)
    ensures forall i | 0 <= i < |jobs| ::
              jobs[i].slot < |w.requests| && jobs[i].draft < |jobs[i].inputs|
              && 1 <= jobs[i].accepted <= jobs[i].draft + 1
  {
  }

  lemma AdmittedHasNoEntry(l: Layout, w: World, r: Request)
    requires l.Valid() && Admissible(l, w, r)
    ensures r.stateIdx.None? && r.accepted == 1
  {
  }

  // ---- V2 ---------------------------------------------------------------------------

  /** The slot worker between steps. */
  ghost predicate SlotsAtRest(k: Worker, requests: seq<Request>)
    requires k.Valid()
    reads k, k.conv, k.stateIdx, k.accepted
  {
    |requests| <= k.stateIdx.Length && forall slot: nat | slot < |requests| :: k.SlotOf(slot, requests[slot])
  }

  /** The inputs of the fused kernels: batch row to slot, computed counts by slot, prefix
      sums of the query lengths, and the computed counts after acceptance. */
  method FusedBatch(requests: seq<Request>, jobs: seq<Job>)
    returns (idxMapping: seq<nat>, computed: seq<nat>, queryStartLoc: seq<nat>, newComputed: seq<int>)
    requires BatchShape(requests, jobs) && forall i, k | 0 <= i < k < |jobs| :: jobs[i].slot != jobs[k].slot
    ensures FusedInputs(requests, jobs, idxMapping, computed, queryStartLoc)
    ensures forall i {:trigger jobs[i]} | 0 <= i < |jobs| ::
              jobs[i].slot < |requests|
              && Counted(jobs[i].slot, requests[jobs[i].slot], jobs[i], Counts(newComputed, [], []), true)
  {
    idxMapping := seq(|jobs|, i requires 0 <= i < |jobs| => jobs[i].slot);
    computed := seq(|requests|, s requires 0 <= s < |requests| => |requests[s].committed|);
    queryStartLoc := [0];
    newComputed := computed;
    for i := 0 to |jobs|
      invariant |queryStartLoc| == i + 1 && |newComputed| == |requests|
      invariant forall k {:trigger jobs[k]} | 0 <= k < i :: queryStartLoc[k] + |jobs[k].inputs| == queryStartLoc[k + 1]
      invariant forall k {:trigger jobs[k]} | 0 <= k < i ::
                  newComputed[jobs[k].slot]
                    == |requests[jobs[k].slot].committed| + |jobs[k].inputs| - jobs[k].draft + jobs[k].accepted - 1
    {
      var j := jobs[i];
      queryStartLoc := queryStartLoc + [queryStartLoc[i] + |j.inputs|];
      newComputed := newComputed[j.slot := |requests[j.slot].committed| + |j.inputs| - j.draft + j.accepted - 1];
    }
  }

  /** A new request's slot starts at the column of its last computed token, -1 if it has none. */
  method AdmitSlot(k: Worker, slot: nat, r: Request)
    requires k.Valid() && slot < k.stateIdx.Length && r.stateIdx.None? && r.accepted == 1
    modifies k.stateIdx, k.accepted
    ensures k.Valid() && k.SlotOf(slot, r)
    ensures forall s: nat | s < k.stateIdx.Length && s != slot ::
      k.stateIdx[s] == old(k.stateIdx[s]) && k.accepted[s] == old(k.accepted[s])
  {
    DivUnique(-1, k.l.blockSize, -1);
    DivMono(-1, |r.committed| - 1, k.l.blockSize);
    k.stateIdx[slot] := (|r.committed| - 1) / k.l.blockSize;
    k.accepted[slot] := 1;
  }

  /** Any run of the V2 worker leaves the same pool and requests, and slots at rest. */
  method RunV2(k: Worker, requests: seq<Request>, events: seq<Event>, ghost w: World, ghost end: World)
    returns (last: seq<Request>)
    requires k.Valid() && w.pool == k.PoolNow() && w.requests == requests && SlotsAtRest(k, requests)
    requires WorldOk(k.l, w) && Reaches(k.l, w, events, end)
    modifies k.temporal, k.conv, k.stateIdx, k.accepted, k.srcCol, k.tokenBias
    ensures k.Valid() && k.PoolNow() == end.pool && last == end.requests && SlotsAtRest(k, last)
    ensures WorldOk(k.l, end)
  {
    hide WorldOk, EventOk, Apply;
    last := requests;
    ghost var now := w;
    assert events[0..] == events;
    for i := 0 to |events|
      invariant k.Valid() && now.pool == k.PoolNow() && now.requests == last && SlotsAtRest(k, last)
      invariant WorldOk(k.l, now) && Reaches(k.l, now, events[i..], end)
    {
      ghost var rest := events[i..];
      assert rest[0] == events[i] && rest[1..] == events[i + 1..];
      EventKeepsWorld(k.l, now, events[i]);
      last := StepV2(k, last, events[i], now);
      now := Apply(k.l, now, events[i]);
    }
    assert events[|events|..] == [];
  }

  method StepV2(k: Worker, requests: seq<Request>, e: Event, ghost now: World) returns (next: seq<Request>)
    requires k.Valid() && now.pool == k.PoolNow() && now.requests == requests && SlotsAtRest(k, requests)
    requires WorldOk(k.l, now) && EventOk(k.l, now, e)
    modifies k.temporal, k.conv, k.stateIdx, k.accepted, k.srcCol, k.tokenBias
    ensures k.Valid() && k.PoolNow() == Apply(k.l, now, e).pool && next == Apply(k.l, now, e).requests
            && SlotsAtRest(k, next)
  {
    hide WorldOk, BatchOk, StepBatch, Admissible, Previous;
    match e {
      case Batch(jobs) =>
        next := BatchV2(k, requests, jobs, now);
      case Admit(slot, r) =>
        AdmittedHasNoEntry(k.l, now, r);
        AdmitSlot(k, slot, r);
        next := requests[slot := r];
      case Evict(_) =>
        next := requests;
    }
  }

  method BatchV2(k: Worker, requests: seq<Request>, jobs: seq<Job>, ghost now: World) returns (next: seq<Request>)
    requires k.Valid() && now.pool == k.PoolNow() && now.requests == requests && SlotsAtRest(k, requests)
    requires WorldOk(k.l, now) && BatchOk(k.l, now, jobs)
    modifies k.temporal, k.conv, k.stateIdx, k.accepted, k.srcCol, k.tokenBias
    ensures k.Valid() && k.PoolNow() == StepBatch(k.l, now, jobs).pool
    ensures next == StepBatch(k.l, now, jobs).requests && SlotsAtRest(k, next)
  {
    hide WorldOk, BatchOk, StepBatch, FusedInputs, Counted, Advance, Previous;
    BatchShapes(k.l, now, jobs);
    var idxMapping, computed, queryStartLoc, newComputed := FusedBatch(requests, jobs);
    assert World(k.PoolNow(), now.cache, requests) == now;
    k.RunBatchFused(now.cache, requests, jobs, idxMapping, computed, queryStartLoc, newComputed);
    AdvancedRequests(k.l, now, jobs);
    AdvancedEntries(k.l, requests, jobs);
    AdvancedColumns(k.l, requests, jobs);
    var columns := Gather(k.stateIdx, jobs);
    var taken := Gather(k.accepted, jobs);
    next := CommitBatch(requests, jobs, columns, taken, k.l);
  }

  lemma AdvancedColumns(l: Layout, requests: seq<Request>, jobs: seq<Job>)
    requires l.Valid()
    requires forall i | 0 <= i < |jobs| ::
      jobs[i].slot < |requests| && jobs[i].draft < |jobs[i].inputs| && 1 <= jobs[i].accepted <= jobs[i].draft + 1
    ensures forall i {:trigger jobs[i]} | 0 <= i < |jobs| ::
              var r := requests[jobs[i].slot];
              Previous(l, Advance(l, r, jobs[i])) == Stage(l, r, jobs[i]).dst
  {
    hide Advance, Stage, Previous;
    forall i | 0 <= i < |jobs| {
      AdvancedColumn(l, requests[jobs[i].slot], jobs[i]);
    }
  }
}
