/** The align-mode worker as the source runs it: a state-index dictionary, per-request
    arrays, staged copy columns, and a block pool, all updated in place. Each method is
    proved against the functions of `AlignStep` and `AlignWorld`. */
module AlignRunner {
  import opened IntMath
  import opened AlignPolicy
  import opened AlignState
  import opened AlignStep
  import opened AlignWorld

  /** Token counts as the postprocess kernel reads them, by row. */
  datatype Counts = Counts(computed: seq<int>, scheduled: seq<int>, draft: seq<int>)

  /** The staged token counts of row `row`: the computed count before the step with the
      scheduled and draft counts, or the advanced computed count alone. */
  predicate Counted(row: nat, r: Request, j: Job, counts: Counts, precomputed: bool) {
    && row < |counts.computed|
    && if precomputed then counts.computed[row] == |r.committed| + |j.inputs| - j.draft + j.accepted - 1
       else && row < |counts.scheduled| == |counts.draft| && counts.computed[row] == |r.committed|
            && counts.scheduled[row] == |j.inputs| && counts.draft[row] == j.draft
  }

  class Worker {
    const l: Layout
    const temporal: array<History>
    const conv: array<seq<Sample>>
    // V1: the dictionary. V2: one entry per request slot, -1 when fresh.
    var mambaStateIdx: map<nat, int>
    const stateIdx: array<int>
    const accepted: array<int>
    const srcCol: array<int>
    const tokenBias: array<int>

    constructor (l: Layout, blocks: nat, rows: nat)
      requires l.Valid()
      ensures Valid() && this.l == l && mambaStateIdx == map[]
      ensures temporal.Length == blocks && stateIdx.Length == rows
      ensures fresh(temporal) && fresh(conv) && fresh(stateIdx) && fresh(accepted) && fresh(srcCol) && fresh(tokenBias)
    {
      this.l := l;
      temporal := new History[blocks](_ => []);
      conv := new seq<Sample>[blocks](_ => seq(l.width, _ => Blank));
      mambaStateIdx := map[];
      stateIdx := new int[rows](_ => -1);
      accepted := new int[rows](_ => 1);
      srcCol := new int[rows](_ => -1);
      tokenBias := new int[rows](_ => 0);
    }

    ghost predicate Valid()
      reads this, conv
    {
      && l.Valid() && temporal.Length == conv.Length
      && stateIdx.Length == accepted.Length == srcCol.Length == tokenBias.Length
      && stateIdx != accepted && stateIdx != srcCol && stateIdx != tokenBias
      && accepted != srcCol && accepted != tokenBias && srcCol != tokenBias
      && forall b | 0 <= b < conv.Length :: |conv[b]| == l.width
    }

    ghost function PoolNow(): (p: Pool)
      requires Valid()
      reads this, temporal, conv
      ensures PoolOk(l, p) && |p.temporal| == temporal.Length
    {
      Pool(temporal[..], conv[..])
    }

    /** Copy one state block between columns, as `_copy_mamba_state_block` does. */
    method CopyStateBlock(table: seq<nat>, src: int, dst: int, bias: int)
      requires Valid() && CopyFits(l, PoolNow(), table, src, dst, bias)
      modifies temporal, conv
      ensures Valid() && PoolNow() == CopyBlock(l, old(PoolNow()), table, src, dst, bias)
    {
      temporal[table[dst]] := temporal[table[src + bias]];
      conv[table[dst]] := conv[table[src]][bias..] + conv[table[dst]][l.width - bias..];
    }

    /** Row `row` holds what the preprocess step stages for this job. */
    ghost predicate Staged(row: nat, r: Request, j: Job)
      requires Valid() && row < stateIdx.Length
      reads this, conv, stateIdx, accepted, srcCol, tokenBias
    {
      Staging(srcCol[row], stateIdx[row], tokenBias[row], accepted[row]) == Stage(l, r, j)
    }

    /** The dictionary agrees with a request between steps. */
    ghost predicate EntryOf(slot: nat, r: Request)
      reads this
    {
      r.stateIdx == Entry(mambaStateIdx, slot)
    }

    /** `cleanup_mamba_state_idx`: finished, preempted and resumed requests lose their entry,
        so that the next step takes their column from the computed count again. */
    method CleanupStateIdx(finished: seq<nat>, preempted: seq<nat>, resumed: seq<nat>)
      requires Valid()
      modifies this`mambaStateIdx
      ensures forall s :: s in mambaStateIdx <==> s in old(mambaStateIdx) && s !in finished + preempted + resumed
      ensures forall s | s in mambaStateIdx :: mambaStateIdx[s] == old(mambaStateIdx[s])
    {
      var stale := finished + preempted + resumed;
      for i := 0 to |stale|
        invariant forall s :: s in mambaStateIdx <==> s in old(mambaStateIdx) && s !in stale[..i]
        invariant forall s | s in mambaStateIdx :: mambaStateIdx[s] == old(mambaStateIdx[s])
      {
        assert stale[..i + 1] == stale[..i] + [stale[i]];
        mambaStateIdx := mambaStateIdx - {stale[i]};
      }
      assert stale[..|stale|] == stale;
    }

    /** A row not yet staged: no copy, and the request's accepted count. */
    ghost predicate Unstaged(row: nat, r: Request)
      requires Valid() && row < stateIdx.Length
      reads this, conv, accepted, srcCol, tokenBias
    {
      srcCol[row] == -1 && tokenBias[row] == 0 && accepted[row] == r.accepted
    }

    method ResetStaging(n: nat)
      requires Valid() && n <= stateIdx.Length
      modifies srcCol, tokenBias
      ensures Valid()
      ensures forall k | 0 <= k < n :: srcCol[k] == -1 && tokenBias[k] == 0
      ensures forall k | n <= k < srcCol.Length :: srcCol[k] == old(srcCol[k]) && tokenBias[k] == old(tokenBias[k])
    {
      forall i | 0 <= i < n { srcCol[i] := -1; }
      forall i | 0 <= i < n { tokenBias[i] := 0; }
    }

    /** One iteration of `preprocess_mamba`. */
    method StageRow(row: nat, r: Request, j: Job)
      requires Valid() && row < stateIdx.Length
      requires EntryOf(j.slot, r) && Unstaged(row, r)
      modifies this`mambaStateIdx, stateIdx, accepted, srcCol, tokenBias
      ensures Valid() && Staged(row, r, j)
      ensures mambaStateIdx == old(mambaStateIdx)[j.slot := Stage(l, r, j).dst]
      ensures forall k | 0 <= k < stateIdx.Length && k != row ::
                && stateIdx[k] == old(stateIdx[k]) && accepted[k] == old(accepted[k])
                && srcCol[k] == old(srcCol[k]) && tokenBias[k] == old(tokenBias[k])
    {
      var computed := |r.committed|;
      var prev: int;
      if j.slot in mambaStateIdx {
        prev := mambaStateIdx[j.slot];
      } else {
        prev := (computed - 1) / l.blockSize;
      }
      var numBlocks := CeilDiv(computed + |j.inputs|, l.blockSize) + l.spec;
      var curr := numBlocks - 1 - l.spec;
      mambaStateIdx := mambaStateIdx[j.slot := curr];
      stateIdx[row] := curr;
      if prev != -1 && prev != curr {
        srcCol[row] := prev;
        tokenBias[row] := accepted[row] - 1;
        accepted[row] := 1;
      }
    }

    /** V1 `preprocess_mamba`: walk the batch, advance the dictionary, stage the copies.
        Rows are batch positions. */
    method PreprocessMamba(requests: seq<Request>, jobs: seq<Job>)
      requires Valid() && |jobs| <= stateIdx.Length && BatchShape(requests, jobs)
      requires forall i, k | 0 <= i < k < |jobs| :: jobs[i].slot != jobs[k].slot
      requires forall i {:trigger jobs[i]} | 0 <= i < |jobs| ::
                 EntryOf(jobs[i].slot, requests[jobs[i].slot]) && accepted[i] == requests[jobs[i].slot].accepted
      modifies this`mambaStateIdx, stateIdx, accepted, srcCol, tokenBias
      ensures Valid()
      ensures forall i {:trigger jobs[i]} | 0 <= i < |jobs| :: Staged(i, requests[jobs[i].slot], jobs[i])
      ensures mambaStateIdx == DictAfter(l, old(mambaStateIdx), requests, jobs, |jobs|)
    {
      ResetStaging(|jobs|);
      ghost var before := mambaStateIdx;
      for i := 0 to |jobs|
        invariant Valid()
        invariant mambaStateIdx == DictAfter(l, before, requests, jobs, i)
        invariant forall k {:trigger jobs[k]} | i <= k < |jobs| :: Unstaged(k, requests[jobs[k].slot])
        invariant forall k {:trigger jobs[k]} | 0 <= k < i :: Staged(k, requests[jobs[k].slot], jobs[k])
      {
        assert forall k {:trigger jobs[k]} | 0 <= k < i :: jobs[k].slot != jobs[i].slot;
        DictAfterFrame(l, before, requests, jobs, i, jobs[i].slot);
        StageRow(i, requests[jobs[i].slot], jobs[i]);
      }
    }

    /** V2 align preprocess: gather, store the pre-advance column and bias, advance, and
        reset the accepted count where a boundary was crossed. */
    method PreprocessAlignFused(idxMapping: seq<nat>, computed: seq<nat>, queryStartLoc: seq<nat>)
      requires Valid() && |queryStartLoc| == |idxMapping| + 1
      requires forall i | 0 <= i < |idxMapping| :: idxMapping[i] < stateIdx.Length && idxMapping[i] < |computed|
      requires forall i, k | 0 <= i < k < |idxMapping| :: idxMapping[i] != idxMapping[k]
      requires forall i | 0 <= i < |idxMapping| :: queryStartLoc[i] <= queryStartLoc[i + 1]
      modifies stateIdx, accepted, srcCol, tokenBias
      ensures Valid()
      ensures forall i | 0 <= i < |idxMapping| ::
                var s := idxMapping[i];
                Staging(srcCol[s], stateIdx[s], tokenBias[s], accepted[s])
                == StageV2(old(stateIdx[s]), computed[s], queryStartLoc[i], queryStartLoc[i + 1], old(accepted[s]),
                           l.blockSize)
      ensures forall s | 0 <= s < stateIdx.Length && s !in idxMapping ::
                && stateIdx[s] == old(stateIdx[s]) && accepted[s] == old(accepted[s])
                && srcCol[s] == old(srcCol[s]) && tokenBias[s] == old(tokenBias[s])
    {
      for i := 0 to |idxMapping|
        invariant Valid()
        invariant forall k | 0 <= k < i ::
                    var s := idxMapping[k];
                    Staging(srcCol[s], stateIdx[s], tokenBias[s], accepted[s])
                    == StageV2(old(stateIdx[s]), computed[s], queryStartLoc[k], queryStartLoc[k + 1], old(accepted[s]),
                               l.blockSize)
        invariant forall s | 0 <= s < stateIdx.Length && s !in idxMapping[..i] ::
                    && stateIdx[s] == old(stateIdx[s]) && accepted[s] == old(accepted[s])
                    && srcCol[s] == old(srcCol[s]) && tokenBias[s] == old(tokenBias[s])
      {
        var s := idxMapping[i];
        assert s !in idxMapping[..i];
        var was := stateIdx[s];
        var computedAfter := computed[s] + queryStartLoc[i + 1] - queryStartLoc[i];
        var next := (computedAfter + l.blockSize - 1) / l.blockSize - 1;
        srcCol[s] := was;
        tokenBias[s] := Max(accepted[s] - 1, 0);
        stateIdx[s] := next;
        if was >= 0 && was != next {
          accepted[s] := 1;
        }
        assert idxMapping[..i + 1] == idxMapping[..i] + [s];
      }
      assert idxMapping[..|idxMapping|] == idxMapping;
    }

    /** What the pre-copy kernel needs of a row; the V1 and the V2 staging both give it. */
    ghost predicate StagedForCopy(row: nat, r: Request, j: Job)
      requires Valid() && row < stateIdx.Length
      reads this, conv, stateIdx, srcCol, tokenBias
    {
      var st := Stage(l, r, j);
      && stateIdx[row] == st.dst
      && (srcCol[row] >= 0 && srcCol[row] != st.dst <==> CopyNeeded(st))
      && (CopyNeeded(st) ==> srcCol[row] == st.src && tokenBias[row] == st.bias)
    }

    /** The pre-copy kernel over the whole batch. Row `i` of the staged arrays is the batch
        position for V1 and the request slot for V2. */
    method PrecopyAlignFused(requests: seq<Request>, jobs: seq<Job>, hasIdxMapping: bool)
      requires Valid()
      requires BatchShape(requests, jobs)
      requires forall i {:trigger jobs[i]} | 0 <= i < |jobs| ::
                 && Row(jobs, i, hasIdxMapping) < stateIdx.Length
                 && StagedForCopy(Row(jobs, i, hasIdxMapping), requests[jobs[i].slot], jobs[i])
                 && RowsFit(l, temporal.Length, requests[jobs[i].slot], jobs[i])
      modifies temporal, conv
      ensures Valid()
      ensures PoolNow() == RunPass(l, Precopy, old(PoolNow()), requests, jobs, |jobs|)
    {
      ghost var p := PoolNow();
      for i := 0 to |jobs|
        invariant Valid()
        invariant PoolNow() == RunPass(l, Precopy, p, requests, jobs, i)
      {
        var row := if hasIdxMapping then jobs[i].slot else i;
        assert row == Row(jobs, i, hasIdxMapping);
        assert StagedForCopy(row, requests[jobs[i].slot], jobs[i]);
        var src := srcCol[row];
        var dst := stateIdx[row];
        if !(src < 0 || src == dst) {
          CopyStateBlock(jobs[i].table, src, dst, tokenBias[row]);
        }
      }
    }

    /** The temporal half of a forward pass: one state per position. */
    method WriteTemporal(table: seq<nat>, col: nat, h: History, inputs: seq<Token>, draft: nat)
      requires draft <= |inputs| && col + draft < |table| && TableOk(table, temporal.Length)
      modifies temporal
      ensures temporal[..] == WriteStates(old(temporal[..]), table, col, h, inputs, |inputs| - draft, draft)
    {
      var first := |inputs| - draft;
      temporal[table[col]] := h + inputs[..first];
      for i := 1 to draft + 1
        invariant temporal[..] == WriteStates(old(temporal[..]), table, col, h, inputs, first, i - 1)
      {
        temporal[table[col + i]] := h + inputs[..first + i];
      }
    }

    /** The forward pass of one request, standing in for the model's own kernels: it reads
        the running column at the accepted offset and writes one state per position. */
    method ForwardRow(table: seq<nat>, col: int, count: int, isFresh: bool, inputs: seq<Token>, draft: nat)
      requires Valid() && ForwardFits(l, PoolNow(), table, col, count, inputs, draft)
      modifies temporal, conv
      ensures Valid() && PoolNow() == AlignState.Forward(l, old(PoolNow()), table, col, count, isFresh, inputs, draft)
    {
      var h := if isFresh then [] else temporal[table[col + count - 1]];
      var was := conv[table[col]];
      var window := if isFresh then Tail([], l.taps) else was[count - 1..count - 1 + l.taps];
      WriteTemporal(table, col, h, inputs, draft);
      conv[table[col]] := (window + Samples(inputs))[|inputs| - draft..] + was[l.taps + draft..];
    }

    /** Row `row` names the running column and the count to read it at. */
    ghost predicate Advanced(row: nat, r: Request, j: Job)
      requires Valid() && row < stateIdx.Length
      reads this, conv, stateIdx, accepted
    {
      stateIdx[row] == Stage(l, r, j).dst && accepted[row] == Stage(l, r, j).accepted
    }

    method ForwardPass(requests: seq<Request>, jobs: seq<Job>, hasIdxMapping: bool)
      requires Valid() && BatchShape(requests, jobs)
      requires forall i {:trigger jobs[i]} | 0 <= i < |jobs| ::
                 && Row(jobs, i, hasIdxMapping) < stateIdx.Length
                 && Advanced(Row(jobs, i, hasIdxMapping), requests[jobs[i].slot], jobs[i])
                 && RowsFit(l, temporal.Length, requests[jobs[i].slot], jobs[i])
      modifies temporal, conv
      ensures Valid() && PoolNow() == RunPass(l, Forward, old(PoolNow()), requests, jobs, |jobs|)
    {
      hide Stage, CopyNeeded, AlignState.Forward, PrecopyOne, PostOne;
      ghost var p := PoolNow();
      for i := 0 to |jobs|
        invariant Valid()
        invariant PoolNow() == RunPass(l, Forward, p, requests, jobs, i)
      {
        var j := jobs[i];
        var row := if hasIdxMapping then j.slot else i;
        assert row == Row(jobs, i, hasIdxMapping);
        assert Advanced(row, requests[j.slot], j);
        ForwardRow(j.table, stateIdx[row], accepted[row], |requests[j.slot].committed| == 0, j.inputs, j.draft);
      }
    }

    /** Before the kernel, row `row` carries the running column and the sampled count. */
    ghost predicate Sampled(row: nat, r: Request, j: Job)
      requires Valid() && row < stateIdx.Length
      reads this, conv, stateIdx, accepted
    {
      && JobFits(l, temporal.Length, r, j)
      && stateIdx[row] == Stage(l, r, j).dst && accepted[row] == j.accepted
    }

    ghost predicate Settled(row: nat, r: Request, j: Job)
      requires Valid() && row < accepted.Length
      reads this, conv, accepted
    {
      JobFits(l, temporal.Length, r, j) && accepted[row] == Advance(l, r, j).accepted
    }

    /** The fused postprocess kernel: decide, reset the accepted count of a request whose
        running column is itself the destination, and copy. */
    method PostprocessFused(ghost requests: seq<Request>, jobs: seq<Job>, counts: Counts, hasIdxMapping: bool,
                            precomputed: bool)
      requires Valid() && BatchShape(requests, jobs)
      requires forall i, k | 0 <= i < k < |jobs| :: jobs[i].slot != jobs[k].slot
      requires forall i {:trigger jobs[i]} | 0 <= i < |jobs| ::
                 && Row(jobs, i, hasIdxMapping) < stateIdx.Length
                 && Sampled(Row(jobs, i, hasIdxMapping), requests[jobs[i].slot], jobs[i])
                 && Counted(Row(jobs, i, hasIdxMapping), requests[jobs[i].slot], jobs[i], counts, precomputed)
      modifies temporal, conv, accepted
      ensures Valid()
      ensures PoolNow() == RunPass(l, Postprocess, old(PoolNow()), requests, jobs, |jobs|)
      ensures forall i {:trigger jobs[i]} | 0 <= i < |jobs| ::
                Settled(Row(jobs, i, hasIdxMapping), requests[jobs[i].slot], jobs[i])
      ensures forall row: nat | row < accepted.Length && NoRow(jobs, row, hasIdxMapping) ::
        accepted[row] == old(accepted[row])
    {
      hide Stage, JobFits, Advance, PrecopyOne, ForwardOne, PostOne, Counted;
      ghost var p := PoolNow();
      for i := 0 to |jobs|
        invariant Valid()
        invariant PoolNow() == RunPass(l, Postprocess, p, requests, jobs, i)
        invariant forall k {:trigger jobs[k]} | 0 <= k < i ::
                    Settled(Row(jobs, k, hasIdxMapping), requests[jobs[k].slot], jobs[k])
        invariant forall k {:trigger jobs[k]} | i <= k < |jobs| ::
                    Sampled(Row(jobs, k, hasIdxMapping), requests[jobs[k].slot], jobs[k])
        invariant forall row: nat | row < accepted.Length && NoRow(jobs, row, hasIdxMapping) ::
          accepted[row] == old(accepted[row])
      {
        var row := if hasIdxMapping then jobs[i].slot else i;
        assert row == Row(jobs, i, hasIdxMapping);
        PostprocessRow(requests[jobs[i].slot], jobs[i].table, row, counts, precomputed, jobs[i]);
      }
    }

    /** One program of the postprocess kernel. */
    method PostprocessRow(ghost r: Request, table: seq<nat>, row: nat, counts: Counts, precomputed: bool, ghost j: Job)
      requires Valid() && row < stateIdx.Length && Sampled(row, r, j) && Counted(row, r, j, counts, precomputed)
               && table == j.table
      modifies temporal, conv, accepted
      ensures Valid()
      ensures PoolNow() == PostOne(l, old(PoolNow()), r, j)
      ensures Settled(row, r, j)
      ensures forall other | 0 <= other < accepted.Length && other != row :: accepted[other] == old(accepted[other])
    {
      hide Stage, Decide, DistinctColumns, LiveColumn, WindowEnd, TableOk, CopyFits, CopyBlock;
      SaveFits(l, PoolNow(), r, j);
      PostAgrees(stateIdx[row], |r.committed|, |j.inputs|, j.draft, j.accepted, l.blockSize);
      var src := stateIdx[row];
      var newComputed, running: int;
      if precomputed {
        newComputed := counts.computed[row];
        running := newComputed - accepted[row] + 1;
      } else {
        running := counts.computed[row] + counts.scheduled[row] - counts.draft[row];
        newComputed := running + accepted[row] - 1;
      }
      assert Decide(src, running, newComputed, l.blockSize) == Post(l, r, j);
      hide JobFits, Post, Counted;
      SaveBoundary(table, row, src, running, newComputed);
    }

    /** The kernel's tail: save the boundary column, and reset the count of a state that
        was rewritten in place. */
    method SaveBoundary(table: seq<nat>, row: nat, src: int, running: int, newComputed: int)
      requires Valid() && row < stateIdx.Length
      requires var post := Decide(src, running, newComputed, l.blockSize);
               post.Save? && post.copies ==> CopyFits(l, PoolNow(), table, src, post.dest, post.bias)
      modifies temporal, conv, accepted
      ensures Valid()
      ensures var post := Decide(src, running, newComputed, l.blockSize);
              && PoolNow() == (if post.Save? && post.copies
                               then CopyBlock(l, old(PoolNow()), table, src, post.dest, post.bias) else old(PoolNow()))
              && accepted[row] == if post.Save? && post.resets then 1 else old(accepted[row])
      ensures forall other | 0 <= other < accepted.Length && other != row :: accepted[other] == old(accepted[other])
    {
      hide CopyFits, CopyBlock;
      var aligned := (newComputed / l.blockSize) * l.blockSize;
      if aligned >= running {
        var bias := aligned - running;
        var dest := aligned / l.blockSize - 1;
        if src == dest {
          accepted[row] := 1;
        }
        if !(src == dest && bias == 0) {
          CopyStateBlock(table, src, dest, bias);
        }
      }
    }

    /** `stage_postprocess_inputs_to_gpu`: the running column out of the dictionary, and the
        scheduled, computed and draft counts, for every row of the batch. */
    method StagePostprocessInputs(requests: seq<Request>, jobs: seq<Job>) returns (counts: Counts)
      requires Valid() && |jobs| <= stateIdx.Length && BatchShape(requests, jobs)
      requires forall i {:trigger jobs[i]} | 0 <= i < |jobs| ::
                 jobs[i].slot in mambaStateIdx
                 && mambaStateIdx[jobs[i].slot] == Stage(l, requests[jobs[i].slot], jobs[i]).dst
      modifies stateIdx
      ensures Valid()
      ensures forall i {:trigger jobs[i]} | 0 <= i < |jobs| ::
                && stateIdx[i] == Stage(l, requests[jobs[i].slot], jobs[i]).dst
                && Counted(i, requests[jobs[i].slot], jobs[i], counts, false)
    {
      hide Stage;
      counts := Counts([], [], []);
      for i := 0 to |jobs|
        invariant |counts.computed| == |counts.scheduled| == |counts.draft| == i
        invariant forall k {:trigger jobs[k]} | 0 <= k < i ::
                    && stateIdx[k] == Stage(l, requests[jobs[k].slot], jobs[k]).dst
                    && Counted(k, requests[jobs[k].slot], jobs[k], counts, false)
      {
        stateIdx[i] := mambaStateIdx[jobs[i].slot];
        counts := Counts(counts.computed + [|requests[jobs[i].slot].committed|], counts.scheduled + [|jobs[i].inputs|],
                         counts.draft + [jobs[i].draft]);
      }
    }

    /** Rows found by batch position carry the staging the pre-copy and the model read. */
    lemma StagedByPosition(requests: seq<Request>, jobs: seq<Job>)
      requires Valid() && |jobs| <= stateIdx.Length && BatchShape(requests, jobs)
      requires forall i {:trigger jobs[i]} | 0 <= i < |jobs| :: Staged(i, requests[jobs[i].slot], jobs[i])
      ensures forall i {:trigger jobs[i]} {:trigger Row(jobs, i, false)} | 0 <= i < |jobs| ::
                && Row(jobs, i, false) == i
                && StagedForCopy(i, requests[jobs[i].slot], jobs[i])
                && Advanced(i, requests[jobs[i].slot], jobs[i])
    {
      hide Stage;
    }

    /** A whole V1 step: stage, migrate, run the model, take the sampler's counts, save.
        The pool it leaves is the one the step function of the protocol computes, and the
        dictionary holds what the next step expects of every request. */
    method RunBatch(ghost cache: map<nat, History>, requests: seq<Request>, jobs: seq<Job>)
      requires Valid() && |jobs| <= stateIdx.Length
      requires WorldOk(l, World(PoolNow(), cache, requests)) && BatchOk(l, World(PoolNow(), cache, requests), jobs)
      requires forall slot: nat | slot < |requests| :: EntryOf(slot, requests[slot])
      requires forall i {:trigger jobs[i]} | 0 <= i < |jobs| :: accepted[i] == requests[jobs[i].slot].accepted
      modifies this`mambaStateIdx, temporal, conv, stateIdx, accepted, srcCol, tokenBias
      ensures Valid()
      ensures PoolNow() == StepBatch(l, old(World(PoolNow(), cache, requests)), jobs).pool
      ensures |StepBatch(l, old(World(PoolNow(), cache, requests)), jobs).requests| == |requests|
      ensures forall slot: nat | slot < |requests| ::
                EntryOf(slot, StepBatch(l, old(World(PoolNow(), cache, requests)), jobs).requests[slot])
      ensures forall i {:trigger jobs[i]} | 0 <= i < |jobs| :: Settled(i, requests[jobs[i].slot], jobs[i])
    {
      hide Exclusive, Ready, CacheOk, RowsFit, DistinctColumns, TableOk, LiveColumn, Advance, DictAfter, RunPass,
           Stage, StagedForCopy;
      ghost var w := World(PoolNow(), cache, requests);
      ghost var dict := mambaStateIdx;
      BatchRowsFit(l, w, jobs);
      PreprocessMamba(requests, jobs);
      StagedByPosition(requests, jobs);
      PrecopyAlignFused(requests, jobs, false);
      ForwardPass(requests, jobs, false);
      TakeSamples(requests, jobs, false);
      EntriesAreColumns(l, w, jobs, dict);
      var counts := StagePostprocessInputs(requests, jobs);
      PostprocessFused(requests, jobs, counts, false, false);
      EntriesAdvance(l, w, jobs, dict);
    }

    /** What the V2 runner keeps per request slot between steps. */
    ghost predicate SlotOf(slot: nat, r: Request)
      requires Valid() && slot < stateIdx.Length
      reads this, conv, stateIdx, accepted
    {
      stateIdx[slot] == Previous(l, r) >= -1 && accepted[slot] == r.accepted
    }

    /** The V2 staging of a batch serves the pre-copy kernel and the forward pass as the V1
        staging does. */
    method StageFused(ghost requests: seq<Request>, jobs: seq<Job>, idxMapping: seq<nat>, computed: seq<nat>,
                      queryStartLoc: seq<nat>)
      requires Valid() && BatchShape(requests, jobs) && FusedInputs(requests, jobs, idxMapping, computed, queryStartLoc)
      requires forall i {:trigger jobs[i]} | 0 <= i < |jobs| ::
                 && jobs[i].slot < stateIdx.Length && SlotOf(jobs[i].slot, requests[jobs[i].slot])
                 && requests[jobs[i].slot].accepted >= 1
      modifies stateIdx, accepted, srcCol, tokenBias
      ensures Valid()
      ensures forall i {:trigger jobs[i]} | 0 <= i < |jobs| ::
                && StagedForCopy(jobs[i].slot, requests[jobs[i].slot], jobs[i])
                && Advanced(jobs[i].slot, requests[jobs[i].slot], jobs[i])
      ensures forall slot: nat | slot < stateIdx.Length && NoRow(jobs, slot, true) ::
                stateIdx[slot] == old(stateIdx[slot]) && accepted[slot] == old(accepted[slot])
    {
      hide StageV1, StageV2, PreviousColumn, CopyNeeded;
      ghost var stateBefore, acceptedBefore := stateIdx[..], accepted[..];
      forall i | 0 <= i < |idxMapping|
        ensures idxMapping[i] < stateIdx.Length && idxMapping[i] < |computed|
                && queryStartLoc[i] <= queryStartLoc[i + 1]
      {
        assert jobs[i].slot < |requests|;
      }
      PreprocessAlignFused(idxMapping, computed, queryStartLoc);
      forall slot: nat | slot < stateIdx.Length && NoRow(jobs, slot, true)
        ensures slot !in idxMapping
      {
        assert forall i | 0 <= i < |jobs| :: Row(jobs, i, true) == jobs[i].slot;
      }
      forall i {:trigger jobs[i]} | 0 <= i < |jobs|
        ensures StagedForCopy(jobs[i].slot, requests[jobs[i].slot], jobs[i])
        ensures Advanced(jobs[i].slot, requests[jobs[i].slot], jobs[i])
      {
        var r, s := requests[jobs[i].slot], jobs[i].slot;
        assert idxMapping[i] == s && stateBefore[s] == old(stateIdx[s]) && acceptedBefore[s] == old(accepted[s]);
        StagingAgrees(r.stateIdx, stateBefore[s], |r.committed|, queryStartLoc[i], queryStartLoc[i + 1], r.accepted,
                      l.blockSize);
        FusedCopy(srcCol[s], stateIdx[s], tokenBias[s], accepted[s]);
      }
    }

    /** A whole V2 step. It leaves the pool the same step function computes, and every slot
        holds what the next step expects of the request it stands for. */
    method RunBatchFused(ghost cache: map<nat, History>, requests: seq<Request>, jobs: seq<Job>, idxMapping: seq<nat>,
                         computed: seq<nat>, queryStartLoc: seq<nat>, newComputed: seq<int>)
      requires Valid() && FusedInputs(requests, jobs, idxMapping, computed, queryStartLoc)
      requires forall i {:trigger jobs[i]} | 0 <= i < |jobs| ::
                 jobs[i].slot < |requests|
                 && Counted(jobs[i].slot, requests[jobs[i].slot], jobs[i], Counts(newComputed, [], []), true)
      requires WorldOk(l, World(PoolNow(), cache, requests)) && BatchOk(l, World(PoolNow(), cache, requests), jobs)
      requires |requests| <= stateIdx.Length && forall slot: nat | slot < |requests| :: SlotOf(slot, requests[slot])
      modifies temporal, conv, stateIdx, accepted, srcCol, tokenBias
      ensures Valid()
      ensures PoolNow() == StepBatch(l, old(World(PoolNow(), cache, requests)), jobs).pool
      ensures |StepBatch(l, old(World(PoolNow(), cache, requests)), jobs).requests| == |requests|
      ensures forall slot: nat | slot < |requests| ::
                SlotOf(slot, StepBatch(l, old(World(PoolNow(), cache, requests)), jobs).requests[slot])
    {
      hide Exclusive, CacheOk, RowsFit, DistinctColumns, TableOk, LiveColumn, Advance, RunPass, ShowsAt, Stage,
           FusedInputs;
      ghost var w := World(PoolNow(), cache, requests);
      ghost var stateBefore, acceptedBefore := stateIdx[..], accepted[..];
      BatchRowsFit(l, w, jobs);
      StageFused(requests, jobs, idxMapping, computed, queryStartLoc);
      forall i {:trigger jobs[i]} {:trigger Row(jobs, i, true)} | 0 <= i < |jobs|
        ensures Row(jobs, i, true) == jobs[i].slot < stateIdx.Length
        ensures StagedForCopy(Row(jobs, i, true), requests[jobs[i].slot], jobs[i])
      {
        assert jobs[i].slot < |requests|;
      }
      PrecopyAlignFused(requests, jobs, true);
      ForwardPass(requests, jobs, true);
      forall i {:trigger jobs[i]} {:trigger Row(jobs, i, true)} | 0 <= i < |jobs|
        ensures Row(jobs, i, true) < stateIdx.Length
        ensures Advanced(Row(jobs, i, true), requests[jobs[i].slot], jobs[i])
        ensures JobFits(l, temporal.Length, requests[jobs[i].slot], jobs[i])
      {
        assert Row(jobs, i, true) == jobs[i].slot;
        assert Advanced(jobs[i].slot, requests[jobs[i].slot], jobs[i]);
      }
      TakeSamples(requests, jobs, true);
      PostprocessFused(requests, jobs, Counts(newComputed, [], []), true, true);
      forall i {:trigger jobs[i]} | 0 <= i < |jobs|
        ensures stateIdx[jobs[i].slot] == Stage(l, requests[jobs[i].slot], jobs[i]).dst
        ensures accepted[jobs[i].slot] == Advance(l, requests[jobs[i].slot], jobs[i]).accepted
      {
        assert Settled(Row(jobs, i, true), requests[jobs[i].slot], jobs[i]);
      }
      SlotsAdvance(w, jobs, stateBefore, acceptedBefore);
    }

    /** Slots in the batch hold what the advanced request needs, the others what they held. */
    lemma SlotsAdvance(w: World, jobs: seq<Job>, stateBefore: seq<int>, acceptedBefore: seq<int>)
      requires Valid() && WorldOk(l, w) && BatchOk(l, w, jobs)
               && |w.requests| <= stateIdx.Length == |stateBefore| == |acceptedBefore|
      requires forall i {:trigger jobs[i]} | 0 <= i < |jobs| ::
                 && stateIdx[jobs[i].slot] == Stage(l, w.requests[jobs[i].slot], jobs[i]).dst
                 && accepted[jobs[i].slot] == Advance(l, w.requests[jobs[i].slot], jobs[i]).accepted
      requires forall slot: nat | slot < stateIdx.Length && NoRow(jobs, slot, true) ::
                 stateIdx[slot] == stateBefore[slot] && accepted[slot] == acceptedBefore[slot]
      requires forall slot: nat | slot < |w.requests| ::
                 stateBefore[slot] == Previous(l, w.requests[slot]) >= -1
                 && acceptedBefore[slot] == w.requests[slot].accepted
      ensures |StepBatch(l, w, jobs).requests| == |w.requests|
      ensures forall slot: nat | slot < |w.requests| :: SlotOf(slot, StepBatch(l, w, jobs).requests[slot])
    {
      hide Stage, Advance, Exclusive, CacheOk, DistinctColumns, TableOk, LiveColumn, Ready, RunPass;
      AdvanceAllAt(l, w, jobs, |jobs|);
      forall slot: nat | slot < |w.requests|
        ensures SlotOf(slot, AdvanceAll(l, w.requests, jobs, |jobs|)[slot])
      {
        if i :| 0 <= i < |jobs| && jobs[i].slot == slot {
          AdvancedColumn(l, w.requests[slot], jobs[i]);
        } else {
          assert NoRow(jobs, slot, true);
        }
      }
    }

    /** The rejection sampler's counts replace the ones the forward pass consumed. */
    method TakeSamples(ghost requests: seq<Request>, jobs: seq<Job>, hasIdxMapping: bool)
      requires Valid() && BatchShape(requests, jobs)
      requires forall i, k | 0 <= i < k < |jobs| :: jobs[i].slot != jobs[k].slot
      requires forall i {:trigger jobs[i]} | 0 <= i < |jobs| ::
                 && Row(jobs, i, hasIdxMapping) < stateIdx.Length
                 && Advanced(Row(jobs, i, hasIdxMapping), requests[jobs[i].slot], jobs[i])
                 && JobFits(l, temporal.Length, requests[jobs[i].slot], jobs[i])
      modifies accepted
      ensures Valid()
      ensures forall i {:trigger jobs[i]} | 0 <= i < |jobs| ::
        Sampled(Row(jobs, i, hasIdxMapping), requests[jobs[i].slot], jobs[i])
      ensures forall row: nat | row < accepted.Length && NoRow(jobs, row, hasIdxMapping) ::
        accepted[row] == old(accepted[row])
    {
      hide Stage, JobFits;
      forall k {:trigger Row(jobs, k, hasIdxMapping)} | 0 <= k < |jobs|
        ensures Row(jobs, k, hasIdxMapping) < accepted.Length
      {
        assert jobs[k].slot < |requests|;
      }
      for i := 0 to |jobs|
        invariant forall k {:trigger jobs[k]} | 0 <= k < i :: accepted[Row(jobs, k, hasIdxMapping)] == jobs[k].accepted
        invariant forall row: nat | row < accepted.Length && NoRow(jobs, row, hasIdxMapping) ::
          accepted[row] == old(accepted[row])
      {
        var row := if hasIdxMapping then jobs[i].slot else i;
        assert row == Row(jobs, i, hasIdxMapping);
        accepted[row] := jobs[i].accepted;
      }
      forall i {:trigger jobs[i]} | 0 <= i < |jobs|
        ensures Sampled(Row(jobs, i, hasIdxMapping), requests[jobs[i].slot], jobs[i])
      {
        assert JobFits(l, temporal.Length, requests[jobs[i].slot], jobs[i]);
      }
    }
  }

  /** The V2 inputs describe the same batch: slots, token counts and query lengths. */
  predicate FusedInputs(requests: seq<Request>, jobs: seq<Job>, idxMapping: seq<nat>, computed: seq<nat>,
                        queryStartLoc: seq<nat>) {
    && |idxMapping| == |jobs| && |queryStartLoc| == |jobs| + 1
    && (forall i | 0 <= i < |jobs| :: idxMapping[i] == jobs[i].slot)
    && (forall i, k | 0 <= i < k < |jobs| :: jobs[i].slot != jobs[k].slot)
    && (forall i {:trigger jobs[i]} | 0 <= i < |jobs| ::
          && jobs[i].slot < |requests| && jobs[i].slot < |computed|
             && computed[jobs[i].slot] == |requests[jobs[i].slot].committed|
          && queryStartLoc[i] + |jobs[i].inputs| == queryStartLoc[i + 1])
  }

  /** The advanced request runs in the column this step ran in. */
  /** A boundary copy stays inside the job's table. */
  lemma SaveFits(l: Layout, p: Pool, r: Request, j: Job)
    requires l.Valid() && PoolOk(l, p) && JobFits(l, |p.temporal|, r, j)
    ensures var post := Post(l, r, j);
            post.Save? ==> CopyFits(l, p, j.table, Stage(l, r, j).dst, post.dest, post.bias)
  {
    hide Stage, Post;
    PostFacts(l, r, j);
    WindowFacts(l, r, j);
  }

  lemma AdvancedColumn(l: Layout, r: Request, j: Job)
    requires l.Valid() && j.draft < |j.inputs| && 1 <= j.accepted <= j.draft + 1
    ensures Previous(l, Advance(l, r, j)) == Stage(l, r, j).dst >= 0
  {
    WindowFacts(l, r, j);
  }

  /** The kernel's guard on the staged entries is `CopyNeeded`. */
  lemma FusedCopy(src: int, dst: int, bias: int, accepted: int)
    ensures src >= 0 && src != dst <==> CopyNeeded(Staging(src, dst, bias, accepted))
  {
  }

  lemma BatchRowsFit(l: Layout, w: World, jobs: seq<Job>)
    requires WorldOk(l, w) && BatchOk(l, w, jobs)
    ensures forall i {:trigger jobs[i]} | 0 <= i < |jobs| ::
      RowsFit(l, |w.pool.temporal|, w.requests[jobs[i].slot], jobs[i])
    ensures forall i {:trigger jobs[i]} | 0 <= i < |jobs| ::
      JobFits(l, |w.pool.temporal|, w.requests[jobs[i].slot], jobs[i])
  {
    forall i {:trigger jobs[i]} | 0 <= i < |jobs|
      ensures RowsFit(l, |w.pool.temporal|, w.requests[jobs[i].slot], jobs[i])
    {
      JobRowsFit(l, w.pool, w.requests[jobs[i].slot], jobs[i]);
    }
  }

  /** The staged columns are inside the job's table, whatever the pool holds. */
  predicate RowsFit(l: Layout, size: nat, r: Request, j: Job)
    requires l.Valid()
  {
    var st := Stage(l, r, j);
    && TableOk(j.table, size)
    && 0 <= st.dst && st.dst + l.spec < |j.table|
    && 1 <= st.accepted <= l.spec + 1 && j.draft <= l.spec && j.draft <= |j.inputs|
    && (CopyNeeded(st) ==> 0 <= st.bias <= l.width && st.src + st.bias < |j.table|)
  }

  lemma JobRowsFit(l: Layout, p: Pool, r: Request, j: Job)
    requires l.Valid() && PoolOk(l, p) && JobFits(l, |p.temporal|, r, j) && Ready(l, p, r)
    ensures RowsFit(l, |p.temporal|, r, j)
  {
    WindowFacts(l, r, j);
    StageFacts(l, r, j);
    if |r.committed| > 0 {
      assert LiveColumn(l, r, Previous(l, r) + r.accepted - 1);
    }
  }

  /** Where the kernels find a batch entry's row. */
  function Row(jobs: seq<Job>, i: nat, hasIdxMapping: bool): nat
    requires i < |jobs|
  {
    if hasIdxMapping then jobs[i].slot else i
  }

  /** No batch entry uses row `row`. */
  predicate NoRow(jobs: seq<Job>, row: nat, hasIdxMapping: bool) {
    forall i | 0 <= i < |jobs| :: Row(jobs, i, hasIdxMapping) != row
  }

  /** The dictionary after the first `n` jobs advanced their entries. */
  function DictAfter(l: Layout, dict: map<nat, int>, requests: seq<Request>, jobs: seq<Job>, n: nat): map<nat, int>
    requires l.Valid() && n <= |jobs| && BatchShape(requests, jobs)
  {
    if n == 0 then dict
    else
      var j := jobs[n - 1];
      DictAfter(l, dict, requests, jobs, n - 1)[j.slot := Stage(l, requests[j.slot], j).dst]
  }

  lemma {:induction false} DictAfterFrame(l: Layout, dict: map<nat, int>, requests: seq<Request>, jobs: seq<Job>,
                                          n: nat, s: nat)
    requires l.Valid() && n <= |jobs| && BatchShape(requests, jobs)
    requires forall k {:trigger jobs[k]} | 0 <= k < n :: jobs[k].slot != s
    ensures var after := DictAfter(l, dict, requests, jobs, n);
            (s in after <==> s in dict) && (s in dict ==> after[s] == dict[s])
  {
    if n > 0 {
      DictAfterFrame(l, dict, requests, jobs, n - 1, s);
    }
  }

  /** After preprocessing, every scheduled request's entry is its running column: the
      entry the advanced request carries into the next step. */
  lemma {:induction false} DictAfterAt(l: Layout, dict: map<nat, int>, requests: seq<Request>, jobs: seq<Job>, n: nat,
                                       i: nat)
    requires l.Valid() && i < n <= |jobs| && BatchShape(requests, jobs)
    requires forall a, b | 0 <= a < b < |jobs| :: jobs[a].slot != jobs[b].slot
    requires jobs[i].draft < |jobs[i].inputs| && 1 <= jobs[i].accepted <= jobs[i].draft + 1
    ensures var after := DictAfter(l, dict, requests, jobs, n);
            && jobs[i].slot in after
            && Advance(l, requests[jobs[i].slot], jobs[i]).stateIdx == Some(after[jobs[i].slot])
  {
    if i < n - 1 {
      DictAfterAt(l, dict, requests, jobs, n - 1, i);
    }
  }

  function Entry(dict: map<nat, int>, slot: nat): Option<int> {
    if slot in dict then Some(dict[slot]) else None
  }

  /** Every scheduled request's entry is its running column. */
  lemma EntriesAreColumns(l: Layout, w: World, jobs: seq<Job>, dict: map<nat, int>)
    requires BatchOk(l, w, jobs) && BatchShape(w.requests, jobs)
    ensures forall i {:trigger jobs[i]} | 0 <= i < |jobs| ::
              var after := DictAfter(l, dict, w.requests, jobs, |jobs|);
              jobs[i].slot in after && after[jobs[i].slot] == Stage(l, w.requests[jobs[i].slot], jobs[i]).dst
  {
    hide Stage, Exclusive, DistinctColumns, TableOk, LiveColumn, DictAfter;
    forall i {:trigger jobs[i]} | 0 <= i < |jobs|
      ensures var after := DictAfter(l, dict, w.requests, jobs, |jobs|);
              jobs[i].slot in after && after[jobs[i].slot] == Stage(l, w.requests[jobs[i].slot], jobs[i]).dst
    {
      DictAfterAt(l, dict, w.requests, jobs, |jobs|, i);
    }
  }

  /** Entries of the batch become the advanced requests' entries, the others stay. */
  lemma EntriesAdvance(l: Layout, w: World, jobs: seq<Job>, dict: map<nat, int>)
    requires WorldOk(l, w) && BatchOk(l, w, jobs) && BatchShape(w.requests, jobs)
    requires forall slot: nat | slot < |w.requests| :: w.requests[slot].stateIdx == Entry(dict, slot)
    ensures |StepBatch(l, w, jobs).requests| == |w.requests|
    ensures forall slot: nat | slot < |w.requests| ::
              StepBatch(l, w, jobs).requests[slot].stateIdx == Entry(DictAfter(l, dict, w.requests, jobs, |jobs|), slot)
  {
    hide Stage, Advance, Exclusive, CacheOk, DistinctColumns, TableOk, LiveColumn, Ready, RunPass, DictAfter;
    AdvanceAllAt(l, w, jobs, |jobs|);
    forall slot: nat | slot < |w.requests|
      ensures AdvanceAll(l, w.requests, jobs, |jobs|)[slot].stateIdx
              == Entry(DictAfter(l, dict, w.requests, jobs, |jobs|), slot)
    {
      if i :| 0 <= i < |jobs| && jobs[i].slot == slot {
        DictAfterAt(l, dict, w.requests, jobs, |jobs|, i);
      } else {
        DictAfterFrame(l, dict, w.requests, jobs, |jobs|, slot);
      }
    }
  }

  predicate BatchShape(requests: seq<Request>, jobs: seq<Job>) {
    forall i | 0 <= i < |jobs| :: jobs[i].slot < |requests|
  }
}
