/** The token ranges of a batch that still lie inside their requests' prompts. */
module PrefillRanges {
  import opened IntMath

  datatype Range = Range(start: nat, end: nat)

  /** The scheduler's arrays: `starts` begins at 0 and never decreases. */
  predicate Scheduled(starts: seq<nat>, computed: seq<nat>, prompt: seq<nat>) {
    && |starts| == |computed| + 1 && |prompt| == |computed| && starts[0] == 0
    && forall i, k | 0 <= i <= k < |starts| :: starts[i] <= starts[k]
  }

  /** Token `t` belongs to request `r` and is still part of its prompt. */
  predicate InPrompt(starts: seq<nat>, computed: seq<nat>, prompt: seq<nat>, r: nat, t: nat)
    requires Scheduled(starts, computed, prompt)
  {
    r < |computed| && starts[r] <= t < starts[r + 1] && computed[r] + (t - starts[r]) < prompt[r]
  }

  predicate Covered(ranges: seq<Range>, t: nat) {
    exists i :: 0 <= i < |ranges| && ranges[i].start <= t < ranges[i].end
  }

  /** Nonempty, increasing, disjoint, and never adjacent: no two could be merged. */
  predicate Normal(ranges: seq<Range>, limit: nat) {
    && (forall i | 0 <= i < |ranges| :: ranges[i].start < ranges[i].end <= limit)
    && (forall i | 0 <= i < |ranges| - 1 :: ranges[i].end < ranges[i + 1].start)
  }

  /** Merging the next request's tokens `[start, end)` into the list. */
  function Extend(ranges: seq<Range>, start: nat, end: nat): seq<Range> {
    if start == end then ranges
    else if |ranges| > 0 && ranges[|ranges| - 1].end == start
         then ranges[..|ranges| - 1] + [Range(ranges[|ranges| - 1].start, end)]
    else ranges + [Range(start, end)]
  }

  lemma ExtendCovers(ranges: seq<Range>, start: nat, end: nat, t: nat)
    requires start <= end && (|ranges| > 0 ==> ranges[|ranges| - 1].start < ranges[|ranges| - 1].end)
    ensures Covered(Extend(ranges, start, end), t) <==> Covered(ranges, t) || start <= t < end
  {
    var n := |ranges|;
    var out := Extend(ranges, start, end);
    if start < end && n > 0 && ranges[n - 1].end == start {
      assert forall i | 0 <= i < n - 1 :: out[i] == ranges[i];
      if Covered(ranges, t) {
        var i :| 0 <= i < n && ranges[i].start <= t < ranges[i].end;
        assert out[i].start <= t < out[i].end;
      }
      if start <= t < end && ranges[n - 1].start <= t { assert out[n - 1].start <= t < out[n - 1].end; }
      if Covered(out, t) {
        var i :| 0 <= i < |out| && out[i].start <= t < out[i].end;
        if i < n - 1 { assert ranges[i].start <= t < ranges[i].end; }
        if i == n - 1 && t < start { assert ranges[n - 1].start <= t < ranges[n - 1].end; }
      }
    } else if start < end {
      if Covered(ranges, t) {
        var i :| 0 <= i < n && ranges[i].start <= t < ranges[i].end;
        assert out[i] == ranges[i];
      }
      if start <= t < end { assert out[n] == Range(start, end); }
    }
  }

  lemma ExtendNormal(ranges: seq<Range>, start: nat, end: nat, limit: nat)
    requires Normal(ranges, limit) && start <= end <= limit && EndsBy(ranges, start)
    ensures Normal(Extend(ranges, start, end), limit) && EndsBy(Extend(ranges, start, end), end)
  {
    var longer := Extend(ranges, start, end);
    if start < end {
      var last := |longer| - 1;
      assert forall i | 0 <= i < last :: longer[i] == ranges[i];
      assert longer[last].start <= start && longer[last].end == end;
      assert last < |ranges| ==> longer[last].start == ranges[last].start;
      assert last > 0 ==> ranges[last - 1].end < longer[last].start;
    }
  }

  /** The list ends at or before `at`. */
  predicate EndsBy(ranges: seq<Range>, at: nat) {
    |ranges| > 0 ==> ranges[|ranges| - 1].end <= at
  }

  /** Where request `r`'s prompt tokens end in this batch. */
  function PromptEnd(starts: seq<nat>, computed: seq<nat>, prompt: seq<nat>, r: nat): (end: nat)
    requires Scheduled(starts, computed, prompt) && r < |computed|
    ensures starts[r] <= end <= starts[r + 1] <= starts[|starts| - 1]
    ensures forall t: nat :: starts[r] <= t < end <==> InPrompt(starts, computed, prompt, r, t)
  {
    if computed[r] < prompt[r] then Min(starts[r + 1], starts[r] + (prompt[r] - computed[r])) else starts[r]
  }

  /** Token `t` is covered by the ranges exactly when one of the first `n` requests has it. */
  ghost predicate CoversFirst(ranges: seq<Range>, starts: seq<nat>, computed: seq<nat>, prompt: seq<nat>, n: nat)
    requires Scheduled(starts, computed, prompt)
  {
    forall t: nat :: Covered(ranges, t) <==> exists q: nat :: q < n && InPrompt(starts, computed, prompt, q, t)
  }

  lemma NextRequest(ranges: seq<Range>, starts: seq<nat>, computed: seq<nat>, prompt: seq<nat>, r: nat, limit: nat)
    requires Scheduled(starts, computed, prompt) && r < |computed|
    requires Normal(ranges, limit) && CoversFirst(ranges, starts, computed, prompt, r)
    ensures CoversFirst(Extend(ranges, starts[r], PromptEnd(starts, computed, prompt, r)), starts, computed,
                        prompt, r + 1)
  {
    hide Extend, InPrompt, Covered;
    var end := PromptEnd(starts, computed, prompt, r);
    forall t: nat
      ensures Covered(Extend(ranges, starts[r], end), t)
              <==> exists q: nat :: q < r + 1 && InPrompt(starts, computed, prompt, q, t)
    {
      ExtendCovers(ranges, starts[r], end, t);
      assert starts[r] <= t < end <==> InPrompt(starts, computed, prompt, r, t);
    }
  }

  /** The ranges cover exactly the tokens still inside their prompts. Raises exactly when
      the requests reach past the padded forward size. */
  method Build(numTokens: nat, starts: seq<nat>, computed: seq<nat>, prompt: seq<nat>) returns (r: Option<seq<Range>>)
    requires Scheduled(starts, computed, prompt)
    ensures r.None? <==> starts[|starts| - 1] > numTokens
    ensures r.Some? ==> Normal(r.value, numTokens)
    ensures r.Some? ==>
              forall t: nat :: Covered(r.value, t) <==> exists q: nat :: InPrompt(starts, computed, prompt, q, t)
  {
    if starts[|starts| - 1] > numTokens { return None; }
    var ranges := BuildRanges(numTokens, starts, computed, prompt);
    r := Some(ranges);
  }

  method BuildRanges(numTokens: nat, starts: seq<nat>, computed: seq<nat>, prompt: seq<nat>)
    returns (ranges: seq<Range>)
    requires Scheduled(starts, computed, prompt) && starts[|starts| - 1] <= numTokens
    ensures Normal(ranges, numTokens) && CoversFirst(ranges, starts, computed, prompt, |computed|)
  {
    hide Normal, CoversFirst, InPrompt;
    ranges := [];
    NoRanges(starts, computed, prompt, numTokens);
    for request := 0 to |computed|
      invariant Normal(ranges, numTokens) && EndsBy(ranges, starts[request])
      invariant CoversFirst(ranges, starts, computed, prompt, request)
    {
      ghost var end0 := PromptEnd(starts, computed, prompt, request);
      ExtendNormal(ranges, starts[request], end0, numTokens);
      NextRequest(ranges, starts, computed, prompt, request, numTokens);
      if computed[request] < prompt[request] {
        var start := starts[request];
        var end := Min(starts[request + 1], start + (prompt[request] - computed[request]));
        if start != end {
          if |ranges| > 0 && ranges[|ranges| - 1].end == start {
            ranges := ranges[..|ranges| - 1] + [Range(ranges[|ranges| - 1].start, end)];
          } else {
            ranges := ranges + [Range(start, end)];
          }
        }
      }
    }
  }

  lemma NoRanges(starts: seq<nat>, computed: seq<nat>, prompt: seq<nat>, limit: nat)
    requires Scheduled(starts, computed, prompt)
    ensures Normal([], limit) && CoversFirst([], starts, computed, prompt, 0)
  {
  }
}
