/** Which rows of a rank's attention belong to no local KV shard: the eager mask and the
    one fused into the packing kernel. */
module DcpMask {
  import opened IntMath

  /** `query_start_loc`: starts at 0, never decreases, one boundary per request. */
  predicate Boundaries(starts: seq<int>, requests: nat) {
    && |starts| == requests + 1 && starts[0] == 0
    && forall i, k | 0 <= i <= k <= requests :: starts[i] <= starts[k]
  }

  /** `searchsorted(bounds, row, right=True)`: the first entry above `row`. */
  function UpperBound(bounds: seq<int>, row: int): (i: nat)
    ensures i <= |bounds|
    ensures forall k | 0 <= k < i :: bounds[k] <= row
    ensures i < |bounds| ==> bounds[i] > row
  {
    if bounds == [] || bounds[0] > row then 0 else UpperBound(bounds[1..], row) + 1
  }

  /** The eager mask's test of one row. */
  function EagerEmpty(lengths: seq<nat>, starts: seq<int>, row: nat): bool
    requires |starts| == |lengths| + 1
  {
    if |lengths| == 0 then true
    else row >= starts[|lengths|] || lengths[Min(UpperBound(starts[1..], row), |lengths| - 1)] == 0
  }

  /** One boundary of the fused kernel's padded vector. */
  function PaddedBoundary(starts: seq<int>, requests: nat, i: nat): int
    requires |starts| == requests + 1
  {
    if i < requests then starts[1 + i] else 0x7FFF_FFFF
  }

  /** How many of the first `n` padded boundaries are at or below the row. */
  function CountAtMost(starts: seq<int>, requests: nat, row: nat, n: nat): (c: nat)
    requires |starts| == requests + 1
    ensures c <= n
  {
    if n == 0 then 0
    else CountAtMost(starts, requests, row, n - 1) + (if PaddedBoundary(starts, requests, n - 1) <= row then 1 else 0)
  }

  /** The fused test, over a vector of `width` boundaries. */
  function FusedEmpty(lengths: seq<nat>, starts: seq<int>, width: nat, row: nat): bool
    requires |starts| == |lengths| + 1 && |lengths| > 0
  {
    var i := Min(CountAtMost(starts, |lengths|, row, width), |lengths| - 1);
    row >= starts[|lengths|] || lengths[i] == 0
  }

  /** The request a row belongs to. */
  predicate Owns(starts: seq<int>, i: nat, row: nat) {
    i + 1 < |starts| && starts[i] <= row < starts[i + 1]
  }

  lemma {:induction false} CountOfSorted(starts: seq<int>, requests: nat, row: nat, i: nat, n: nat)
    requires Boundaries(starts, requests) && Owns(starts, i, row) && starts[requests] <= 0x7FFF_FFFF
    ensures CountAtMost(starts, requests, row, n) == Min(n, i)
  {
    if n > 0 {
      CountOfSorted(starts, requests, row, i, n - 1);
      if n - 1 < i { assert starts[n] <= starts[i]; } else if n - 1 < requests { assert starts[i + 1] <= starts[n]; }
    }
  }

  lemma UpperBoundOwner(starts: seq<int>, requests: nat, row: nat)
    requires Boundaries(starts, requests) && row < starts[requests]
    ensures Owns(starts, UpperBound(starts[1..], row), row)
  {
    var i := UpperBound(starts[1..], row);
    assert starts[1..][requests - 1] == starts[requests];
    if i > 0 { assert starts[1..][i - 1] == starts[i]; }
  }

  lemma OneOwner(starts: seq<int>, requests: nat, row: nat, i: nat, k: nat)
    requires Boundaries(starts, requests) && Owns(starts, i, row) && Owns(starts, k, row)
    ensures i == k
  {
    EndsBefore(starts, requests, i, k);
    EndsBefore(starts, requests, k, i);
  }

  /** A request ends no later than a later one starts. */
  lemma EndsBefore(starts: seq<int>, requests: nat, i: nat, k: nat)
    requires Boundaries(starts, requests)
    ensures i < k <= requests ==> starts[i + 1] <= starts[k]
  {
  }

  lemma PaddingHasNoOwner(starts: seq<int>, requests: nat, row: nat, k: nat)
    requires Boundaries(starts, requests) && row >= starts[requests]
    ensures !Owns(starts, k, row)
  {
    if k < requests { EndsBefore(starts, requests, k, requests); }
  }

  /** The fused mask and the eager mask mark the same rows: padding, and the rows whose one
      owning request has no local KV. Requests without rows own nothing and are skipped. */
  lemma MasksAgree(lengths: seq<nat>, starts: seq<int>, width: nat, row: nat)
    requires |lengths| > 0 && Boundaries(starts, |lengths|) && starts[|lengths|] <= 0x7FFF_FFFF && width >= |lengths|
    ensures FusedEmpty(lengths, starts, width, row) == EagerEmpty(lengths, starts, row)
    ensures row >= starts[|lengths|] ==> EagerEmpty(lengths, starts, row)
    ensures forall i: nat | Owns(starts, i, row) :: EagerEmpty(lengths, starts, row) <==> lengths[i] == 0
    ensures row < starts[|lengths|] ==> exists i: nat :: Owns(starts, i, row)
  {
    var n := |lengths|;
    if row < starts[n] {
      var i := UpperBound(starts[1..], row);
      UpperBoundOwner(starts, n, row);
      CountOfSorted(starts, n, row, i, width);
      forall k: nat | Owns(starts, k, row)
        ensures k == i
      {
        OneOwner(starts, n, row, i, k);
      }
      assert Owns(starts, i, row);
    } else {
      forall k: nat
        ensures !Owns(starts, k, row)
      {
        PaddingHasNoOwner(starts, n, row, k);
      }
    }
  }

  /** The eager mask, in place: masked rows become `fill`, the others stay. */
  method MaskEmptyShards<T>(lse: array2<T>, lengths: seq<nat>, starts: seq<int>, fill: T)
    requires |starts| == |lengths| + 1
    modifies lse
    ensures forall r, h | 0 <= r < lse.Length0 && 0 <= h < lse.Length1 ::
              lse[r, h] == if EagerEmpty(lengths, starts, r) then fill else old(lse[r, h])
  {
    for row := 0 to lse.Length0
      invariant forall r, h | 0 <= r < lse.Length0 && 0 <= h < lse.Length1 ::
                  lse[r, h] == if r < row && EagerEmpty(lengths, starts, r) then fill else old(lse[r, h])
    {
      if EagerEmpty(lengths, starts, row) {
        for head := 0 to lse.Length1
          invariant forall r, h | 0 <= r < lse.Length0 && 0 <= h < lse.Length1 ::
                      lse[r, h] == if (r < row && EagerEmpty(lengths, starts, r)) || (r == row && h < head) then fill
                          else old(lse[r, h])
        {
          lse[row, head] := fill;
        }
      }
    }
  }
}
