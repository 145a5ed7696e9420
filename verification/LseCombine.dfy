/** Three ways to merge per-rank attention by log-sum-exp, for one token, head and output
    coordinate. Each gives softmax attention over the union of the shards. */
module LseCombine {
  import opened Extended
  import opened Softmax

  /** NaN and plus infinity count as an empty shard. */
  function Clean(lse: Ext): Ext {
    if lse.NaN? || lse.PosInf? then NegInf else lse
  }

  function MaxOr(lses: seq<Ext>, n: nat): Ext
    requires n <= |lses|
  {
    if n == 0 then NegInf else Max(MaxOr(lses, n - 1), Clean(lses[n - 1]))
  }

  /** The shift every implementation takes out of the exponents. */
  function Shift(max: Ext): Ext {
    if max.NegInf? then Fin(0.0) else max
  }

  // ---- Facts about one shard ----

  lemma CleanLse(base: Base, shard: Shard, lse: Ext, out: Ext)
    requires base.Lawful() && Partial(base, shard, lse, out)
    ensures shard == [] ==> Clean(lse) == NegInf && Weight(base, shard) == 0.0
    ensures shard != [] ==> && Weight(base, shard) > 0.0 && Clean(lse) == lse == Fin(base.log(Weight(base, shard)))
                            && out == Fin(Mass(base, shard) / Weight(base, shard))
  {
    WeightPositive(base, shard);
  }

  /** A shifted exponential is the shard's weight over the shift's. */
  lemma ShiftedWeight(base: Base, shard: Shard, lse: Ext, out: Ext, m: real)
    requires base.Lawful() && Partial(base, shard, lse, out)
    ensures base.exp(m) > 0.0
    ensures base.Exp(Sub(Clean(lse), Fin(m))) == Fin(Weight(base, shard) / base.exp(m))
  {
    CleanLse(base, shard, lse, out);
    ExpPositive(base, m);
    if shard != [] { ExpDiff(base, Weight(base, shard), m); } else { assert 0.0 / base.exp(m) == 0.0; }
  }

  lemma {:induction false} MaxIsFinite(base: Base, shards: seq<Shard>, lses: seq<Ext>, outs: seq<Ext>, n: nat)
    requires base.Lawful() && Partials(base, shards, lses, outs) && n <= |lses|
    ensures MaxOr(lses, n).Fin? || MaxOr(lses, n).NegInf?
    ensures MaxOr(lses, n).NegInf? <==> Weight(base, Union(shards[..n])) == 0.0
    ensures Weight(base, Union(shards[..n])) >= 0.0
  {
    hide Partial, Clean, Weight, Union, Base.Lawful;
    if n == 0 {
      NoShards(base, shards);
    } else {
      MaxIsFinite(base, shards, lses, outs, n - 1);
      UnionStep(base, shards, n - 1);
      CleanedIs(base, shards[n - 1], lses[n - 1], outs[n - 1]);
    }
  }

  lemma NoShards(base: Base, shards: seq<Shard>)
    ensures Weight(base, Union(shards[..0])) == 0.0
  {
  }

  lemma CleanedIs(base: Base, shard: Shard, lse: Ext, out: Ext)
    requires base.Lawful() && Partial(base, shard, lse, out)
    ensures Clean(lse).Fin? || Clean(lse).NegInf?
    ensures Clean(lse).NegInf? <==> Weight(base, shard) == 0.0
    ensures Weight(base, shard) >= 0.0
  {
    CleanLse(base, shard, lse, out);
  }

  /** The merged log-sum-exp from the shifted sum. */
  lemma GlobalLse(base: Base, w: real, m: real)
    requires base.Lawful() && w >= 0.0
    ensures base.exp(m) > 0.0 && w / base.exp(m) >= 0.0
    ensures Add(base.Log(Fin(w / base.exp(m))), Fin(m)) == base.Log(Fin(w))
  {
    ExpPositive(base, m);
    if w > 0.0 { LogShift(base, w, m); } else { assert w / base.exp(m) == 0.0; }
  }

  /** A rank's share of the result: its weight in the union, and its contribution. */
  lemma Share(base: Base, shard: Shard, lse: Ext, out: Ext, total: real)
    requires base.Lawful() && Partial(base, shard, lse, out) && total >= Weight(base, shard)
    ensures total == 0.0 ==> shard == []
    ensures total > 0.0 ==> base.Exp(Sub(Clean(lse), base.Log(Fin(total)))) == Fin(Weight(base, shard) / total)
    ensures shard != [] ==> total > 0.0 && Weight(base, shard) / total > 0.0
    ensures shard != [] ==> Mul(out, Fin(Weight(base, shard) / total)) == Fin(Mass(base, shard) / total)
  {
    CleanLse(base, shard, lse, out);
    if total > 0.0 {
      if shard == [] {
        assert Weight(base, shard) / total == 0.0;
      } else {
        var w := Weight(base, shard);
        ExpDiff(base, w, base.log(total));
        assert base.IsInverse(total);
        Positive(w, total);
        Quotients(Mass(base, shard), w, total);
      }
    }
  }

  lemma Quotients(a: real, w: real, t: real)
    requires w > 0.0 && t > 0.0
    ensures (a / w) * (w / t) == a / t
  {
    var x, y := a / w, w / t;
    assert x * w == a && y * t == w;
    assert (x * y) * t == x * (y * t) == a;
    Cancel(x * y, t, a);
  }

  lemma AddQuotients(a: real, b: real, t: real)
    requires t > 0.0
    ensures a / t + b / t == (a + b) / t
  {
  }

  /** One rank's term of the accumulation: its output weighted by its share, nothing at all
      when the weight is zero or not a number. */
  function Weighted(base: Base, lse: Ext, out: Ext, global: Ext): Ext {
    var raw := base.Exp(Sub(Clean(lse), global));
    var weight := if raw.NaN? then Fin(0.0) else raw;
    Mul(if weight == Fin(0.0) then Fin(0.0) else out, weight)
  }

  lemma Contribution(base: Base, shard: Shard, lse: Ext, out: Ext, total: real)
    requires base.Lawful() && Partial(base, shard, lse, out) && total >= Weight(base, shard)
    ensures Weighted(base, lse, out, base.Log(Fin(total))) == Fin(Ratio(Mass(base, shard), total))
  {
    hide Weight, Mass, Partial, Base.Lawful;
    CleanLse(base, shard, lse, out);
    Share(base, shard, lse, out, total);
    if shard == [] { NoMass(base, shard); }
  }

  lemma NoMass(base: Base, shard: Shard)
    requires shard == []
    ensures Mass(base, shard) == 0.0 && Weight(base, shard) == 0.0
  {
  }

  /** Total mass over the total weight, or nothing. */
  function Ratio(mass: real, total: real): real {
    if total == 0.0 then 0.0 else mass / total
  }

  // ---- All-to-all combine ----

  lemma RatioAdds(a: real, b: real, total: real)
    requires total >= 0.0
    ensures Add(Fin(Ratio(a, total)), Fin(Ratio(b, total))) == Fin(Ratio(a + b, total))
  {
    if total > 0.0 { AddQuotients(a, b, total); }
  }

  lemma NothingYet(base: Base, shards: seq<Shard>)
    ensures Weight(base, Union(shards[..0])) == 0.0 && Mass(base, Union(shards[..0])) == 0.0
  {
  }

  /** The unpack kernel: maximum, shifted sum, then the weighted accumulation. */
  method UnpackCombine(base: Base, lses: seq<Ext>, outs: seq<Ext>, ghost shards: seq<Shard>)
    returns (out: Ext, lse: Ext)
    requires base.Lawful() && Partials(base, shards, lses, outs)
    ensures out == Fin(Attention(base, Union(shards)))
    ensures lse == LogSum(base, Union(shards))
  {
    hide Weight, Mass, Union, Partial, Base.Lawful, Weighted, Clean;
    var n := |lses|;
    var max := NegInf;
    for i := 0 to n
      invariant max == MaxOr(lses, i)
    {
      max := Max(max, Clean(lses[i]));
    }
    MaxIsFinite(base, shards, lses, outs, n);
    var m := Shift(max);
    ghost var scale := base.exp(m.value);
    ExpPositive(base, m.value);
    NothingYet(base, shards);
    var sum := Fin(0.0);
    for i := 0 to n
      invariant sum == Fin(Weight(base, Union(shards[..i])) / scale)
    {
      ShiftedWeight(base, shards[i], lses[i], outs[i], m.value);
      UnionStep(base, shards, i);
      AddQuotients(Weight(base, Union(shards[..i])), Weight(base, shards[i]), scale);
      sum := Add(sum, base.Exp(Sub(Clean(lses[i]), m)));
    }
    assert shards[..n] == shards;
    ghost var total := Weight(base, Union(shards));
    GlobalLse(base, total, m.value);
    lse := Add(base.Log(sum), m);
    out := Fin(0.0);
    for i := 0 to n
      invariant out == Fin(Ratio(Mass(base, Union(shards[..i])), total))
    {
      PartOfTotal(base, shards, i);
      Contribution(base, shards[i], lses[i], outs[i], total);
      UnionStep(base, shards, i);
      RatioAdds(Mass(base, Union(shards[..i])), Mass(base, shards[i]), total);
      out := Add(out, Weighted(base, lses[i], outs[i], lse));
    }
  }

  lemma {:induction false} UnionMonotone(base: Base, shards: seq<Shard>, n: nat, k: nat)
    requires base.Lawful() && n <= k <= |shards|
    ensures 0.0 <= Weight(base, Union(shards[..n])) <= Weight(base, Union(shards[..k]))
  {
    hide Weight, Union, Mass, Base.Lawful;
    if k > n {
      UnionMonotone(base, shards, n, k - 1);
      UnionStep(base, shards, k - 1);
      WeightPositive(base, shards[k - 1]);
    } else {
      WeightPositive(base, Union(shards[..n]));
    }
  }

  lemma PartOfTotal(base: Base, shards: seq<Shard>, i: nat)
    requires base.Lawful() && i < |shards|
    ensures Weight(base, shards[i]) <= Weight(base, Union(shards))
  {
    UnionMonotone(base, shards, 0, i);
    UnionMonotone(base, shards, i + 1, |shards|);
    UnionStep(base, shards, i);
    assert shards[..|shards|] == shards;
  }

  // ---- All-gather and reduce-scatter ----

  /** The shifted sum of exponentials over the first `n` ranks. */
  function SumExp(base: Base, lses: seq<Ext>, m: Ext, n: nat): Ext
    requires n <= |lses|
  {
    if n == 0 then Fin(0.0) else Add(SumExp(base, lses, m, n - 1), base.Exp(Sub(Clean(lses[n - 1]), m)))
  }

  lemma {:induction false} SumExpIs(base: Base, shards: seq<Shard>, lses: seq<Ext>, outs: seq<Ext>, m: real, n: nat)
    requires base.Lawful() && Partials(base, shards, lses, outs) && n <= |lses|
    ensures base.exp(m) > 0.0
    ensures SumExp(base, lses, Fin(m), n) == Fin(Weight(base, Union(shards[..n])) / base.exp(m))
  {
    hide Weight, Mass, Union, Partial, Base.Lawful, Clean;
    ExpPositive(base, m);
    if n == 0 {
      NothingYet(base, shards);
    } else {
      SumExpIs(base, shards, lses, outs, m, n - 1);
      ShiftedWeight(base, shards[n - 1], lses[n - 1], outs[n - 1], m);
      UnionStep(base, shards, n - 1);
      AddQuotients(Weight(base, Union(shards[..n - 1])), Weight(base, shards[n - 1]), base.exp(m));
    }
  }

  function GatheredLse(base: Base, lses: seq<Ext>): Ext {
    var m := Shift(MaxOr(lses, |lses|));
    Add(base.Log(SumExp(base, lses, m, |lses|)), m)
  }

  lemma GatheredLseIs(base: Base, shards: seq<Shard>, lses: seq<Ext>, outs: seq<Ext>)
    requires base.Lawful() && Partials(base, shards, lses, outs)
    ensures GatheredLse(base, lses) == LogSum(base, Union(shards)) && Weight(base, Union(shards)) >= 0.0
  {
    hide Weight, Mass, Union, Partial, Base.Lawful, Clean;
    var n := |lses|;
    MaxIsFinite(base, shards, lses, outs, n);
    assert shards[..n] == shards;
    var m := Shift(MaxOr(lses, n)).value;
    SumExpIs(base, shards, lses, outs, m, n);
    GlobalLse(base, Weight(base, Union(shards)), m);
  }

  /** One rank's correction of its own output: its raw log-sum-exp against the gathered
      one, and zero where the factor is zero. */
  function Corrected(base: Base, lses: seq<Ext>, rank: nat, out: Ext): Ext
    requires rank < |lses|
  {
    var diff := Sub(lses[rank], GatheredLse(base, lses));
    var factor := base.Exp(if diff.NaN? || diff.PosInf? then NegInf else diff);
    if factor == Fin(0.0) then Fin(0.0) else Mul(out, factor)
  }

  /** The reduce-scatter's sum of the first `n` ranks' corrected outputs. */
  function ReducedUpTo(base: Base, lses: seq<Ext>, outs: seq<Ext>, n: nat): Ext
    requires n <= |lses| == |outs|
  {
    if n == 0 then Fin(0.0) else Add(ReducedUpTo(base, lses, outs, n - 1), Corrected(base, lses, n - 1, outs[n - 1]))
  }

  /** The raw difference serves as well as the cleaned one. */
  lemma CorrectedIsWeighted(base: Base, shard: Shard, lses: seq<Ext>, rank: nat, out: Ext, total: real)
    requires base.Lawful() && rank < |lses| && Partial(base, shard, lses[rank], out)
    requires GatheredLse(base, lses) == base.Log(Fin(total)) && total >= Weight(base, shard) >= 0.0
    ensures Corrected(base, lses, rank, out) == Fin(Ratio(Mass(base, shard), total))
  {
    hide Weight, Mass, Partial, Base.Lawful, GatheredLse;
    CleanLse(base, shard, lses[rank], out);
    Share(base, shard, lses[rank], out, total);
    if shard == [] {
      NoMass(base, shard);
      EmptyIsNotFinite(base, shard, lses[rank], out);
    }
  }

  lemma EmptyIsNotFinite(base: Base, shard: Shard, lse: Ext, out: Ext)
    requires Partial(base, shard, lse, out) && shard == []
    ensures !lse.Fin?
  {
  }

  lemma {:induction false} ReducedIs(base: Base, shards: seq<Shard>, lses: seq<Ext>, outs: seq<Ext>, n: nat)
    requires base.Lawful() && Partials(base, shards, lses, outs) && n <= |lses|
    ensures ReducedUpTo(base, lses, outs, n) == Fin(Ratio(Mass(base, Union(shards[..n])), Weight(base, Union(shards))))
  {
    hide Weight, Mass, Union, Partial, Base.Lawful, GatheredLse, Corrected;
    var total := Weight(base, Union(shards));
    if n == 0 {
      NothingYet(base, shards);
    } else {
      ReducedIs(base, shards, lses, outs, n - 1);
      GatheredLseIs(base, shards, lses, outs);
      PartOfTotal(base, shards, n - 1);
      CleanLse(base, shards[n - 1], lses[n - 1], outs[n - 1]);
      CorrectedIsWeighted(base, shards[n - 1], lses, n - 1, outs[n - 1], total);
      UnionStep(base, shards, n - 1);
      RatioAdds(Mass(base, Union(shards[..n - 1])), Mass(base, shards[n - 1]), total);
    }
  }

  /** All-gather plus reduce-scatter gives attention over the union. */
  lemma GatherScatterIsAttention(base: Base, shards: seq<Shard>, lses: seq<Ext>, outs: seq<Ext>)
    requires base.Lawful() && Partials(base, shards, lses, outs)
    ensures ReducedUpTo(base, lses, outs, |lses|) == Fin(Attention(base, Union(shards)))
    ensures GatheredLse(base, lses) == LogSum(base, Union(shards))
  {
    hide Weight, Mass, Union, Partial, Base.Lawful;
    ReducedIs(base, shards, lses, outs, |lses|);
    GatheredLseIs(base, shards, lses, outs);
    assert shards[..|lses|] == shards;
  }

  // ---- Reference combine ----

  const FLOOR: Ext := Fin(0.0000000001)

  /** The reference's unnormalized weight of a rank: any non-finite value counts as empty. */
  function RefWeight(base: Base, lse: Ext, m: Ext): Ext {
    var w := base.Exp(Sub(if lse.Fin? then lse else NegInf, m));
    if w.NaN? then Fin(0.0) else w
  }

  function RefSum(base: Base, lses: seq<Ext>, m: Ext, n: nat): Ext
    requires n <= |lses|
  {
    if n == 0 then Fin(0.0) else Add(RefSum(base, lses, m, n - 1), RefWeight(base, lses[n - 1], m))
  }

  function RefTerm(base: Base, lse: Ext, out: Ext, m: Ext, sum: Ext): Ext {
    var weight := Div(RefWeight(base, lse, m), Max(sum, FLOOR));
    Mul(if weight == Fin(0.0) then Fin(0.0) else out, weight)
  }

  function RefResult(base: Base, lses: seq<Ext>, outs: seq<Ext>, m: Ext, sum: Ext, n: nat): Ext
    requires n <= |lses| == |outs|
  {
    if n == 0 then Fin(0.0)
    else Add(RefResult(base, lses, outs, m, sum, n - 1), RefTerm(base, lses[n - 1], outs[n - 1], m, sum))
  }

  /** `_lse_weighted_combine`: the result and the global log-sum-exp. */
  function Reference(base: Base, lses: seq<Ext>, outs: seq<Ext>): (Ext, Ext)
    requires |lses| == |outs|
  {
    var m := Shift(MaxOr(lses, |lses|));
    var sum := RefSum(base, lses, m, |lses|);
    (RefResult(base, lses, outs, m, sum, |lses|), Add(base.Log(sum), m))
  }

  /** On every input a rank can produce, the reference's weight is the kernels' one. */
  lemma RefWeightIs(base: Base, shard: Shard, lse: Ext, out: Ext, m: real)
    requires base.Lawful() && Partial(base, shard, lse, out)
    ensures base.exp(m) > 0.0 && RefWeight(base, lse, Fin(m)) == Fin(Weight(base, shard) / base.exp(m))
  {
    hide Weight, Base.Lawful;
    CleanLse(base, shard, lse, out);
    ShiftedWeight(base, shard, lse, out, m);
    if shard == [] { EmptyIsNotFinite(base, shard, lse, out); }
  }

  lemma {:induction false} RefSumIs(base: Base, shards: seq<Shard>, lses: seq<Ext>, outs: seq<Ext>, m: real, n: nat)
    requires base.Lawful() && Partials(base, shards, lses, outs) && n <= |lses|
    ensures RefSum(base, lses, Fin(m), n) == SumExp(base, lses, Fin(m), n)
  {
    hide Weight, Mass, Partial, Base.Lawful, Clean, RefWeight;
    if n > 0 {
      RefSumIs(base, shards, lses, outs, m, n - 1);
      RefWeightIs(base, shards[n - 1], lses[n - 1], outs[n - 1], m);
      ShiftedWeight(base, shards[n - 1], lses[n - 1], outs[n - 1], m);
    }
  }

  lemma {:induction false} MaxBelowSum(base: Base, shards: seq<Shard>, lses: seq<Ext>, outs: seq<Ext>, n: nat)
    requires base.Lawful() && Partials(base, shards, lses, outs) && n <= |lses| && MaxOr(lses, n).Fin?
    ensures base.exp(MaxOr(lses, n).value) <= Weight(base, Union(shards[..n]))
  {
    hide Weight, Mass, Union, Partial, Base.Lawful, Clean;
    if n > 0 {
      UnionStep(base, shards, n - 1);
      CleanLse(base, shards[n - 1], lses[n - 1], outs[n - 1]);
      MaxIsFinite(base, shards, lses, outs, n - 1);
      if MaxOr(lses, n - 1).Fin? { MaxBelowSum(base, shards, lses, outs, n - 1); }
      if shards[n - 1] != [] { InverseAt(base, Weight(base, shards[n - 1])); }
    }
  }

  lemma InverseAt(base: Base, x: real)
    requires base.Lawful() && x > 0.0
    ensures base.exp(base.log(x)) == x
  {
    assert base.IsInverse(x);
  }

  /** The clamp is idle whenever some log-sum-exp is finite: the largest term is one. */
  lemma ClampIsIdle(base: Base, shards: seq<Shard>, lses: seq<Ext>, outs: seq<Ext>)
    requires base.Lawful() && Partials(base, shards, lses, outs)
    ensures var m := Shift(MaxOr(lses, |lses|));
            var sum := RefSum(base, lses, m, |lses|);
            && sum.Fin?
            && ((exists i :: 0 <= i < |lses| && lses[i].Fin?) ==> sum.value >= 1.0 && Max(sum, FLOOR) == sum)
            && ((forall i :: 0 <= i < |lses| ==> !lses[i].Fin?) ==> sum == Fin(0.0))
  {
    hide Weight, Mass, Union, Base.Lawful, Clean, RefWeight;
    var n := |lses|;
    MaxIsFinite(base, shards, lses, outs, n);
    var m := Shift(MaxOr(lses, n)).value;
    RefSumIs(base, shards, lses, outs, m, n);
    SumExpIs(base, shards, lses, outs, m, n);
    var w := Weight(base, Union(shards[..n]));
    if i :| 0 <= i < n && lses[i].Fin? {
      CleanLse(base, shards[i], lses[i], outs[i]);
      PartOfTotal(base, shards, i);
      assert shards[..n] == shards;
      MaxBelowSum(base, shards, lses, outs, n);
      AtLeastOne(w, base.exp(m));
    } else {
      NoneFinite(base, shards, lses, outs, n);
      assert w / base.exp(m) == 0.0;
    }
  }

  lemma AtLeastOne(w: real, e: real)
    requires 0.0 < e <= w
    ensures w / e >= 1.0
  {
  }

  lemma {:induction false} NoneFinite(base: Base, shards: seq<Shard>, lses: seq<Ext>, outs: seq<Ext>, n: nat)
    requires base.Lawful() && Partials(base, shards, lses, outs) && n <= |lses|
    requires forall i | 0 <= i < |lses| :: !lses[i].Fin?
    ensures Weight(base, Union(shards[..n])) == 0.0
  {
    hide Weight, Mass, Union, Base.Lawful, Clean;
    if n == 0 {
      NothingYet(base, shards);
    } else {
      NoneFinite(base, shards, lses, outs, n - 1);
      UnionStep(base, shards, n - 1);
      CleanLse(base, shards[n - 1], lses[n - 1], outs[n - 1]);
    }
  }

  lemma RefTermIs(base: Base, shard: Shard, lse: Ext, out: Ext, m: real, total: real)
    requires base.Lawful() && Partial(base, shard, lse, out) && total >= Weight(base, shard)
    requires total == 0.0 || (base.exp(m) > 0.0 && total / base.exp(m) >= 1.0)
    ensures base.exp(m) > 0.0
    ensures RefTerm(base, lse, out, Fin(m), Fin(total / base.exp(m))) == Fin(Ratio(Mass(base, shard), total))
  {
    hide Weight, Mass, Partial, Base.Lawful, RefWeight;
    ExpPositive(base, m);
    CleanLse(base, shard, lse, out);
    RefWeightIs(base, shard, lse, out, m);
    Share(base, shard, lse, out, total);
    var e := base.exp(m);
    if shard == [] {
      NoMass(base, shard);
      assert 0.0 / e == 0.0;
    } else {
      SameQuotient(Weight(base, shard), total, e);
    }
  }

  lemma SameQuotient(a: real, b: real, e: real)
    requires e > 0.0 && b > 0.0
    ensures b / e > 0.0 && (a / e) / (b / e) == a / b
  {
    Positive(b, e);
    var x, y, q := a / e, b / e, a / b;
    assert x * e == a && y * e == b && q * b == a;
    assert (q * y) * e == q * (y * e) == a;
    Cancel(q * y, e, a);
    assert q * y == x;
    Cancel(q, y, x);
  }

  lemma {:induction false} RefResultIs(base: Base, shards: seq<Shard>, lses: seq<Ext>, outs: seq<Ext>, m: real, n: nat)
    requires base.Lawful() && Partials(base, shards, lses, outs) && n <= |lses|
    requires var total := Weight(base, Union(shards)); total == 0.0 || (base.exp(m) > 0.0 && total / base.exp(m) >= 1.0)
    ensures base.exp(m) > 0.0
    ensures RefResult(base, lses, outs, Fin(m), Fin(Weight(base, Union(shards)) / base.exp(m)), n)
         == Fin(Ratio(Mass(base, Union(shards[..n])), Weight(base, Union(shards))))
  {
    hide Weight, Mass, Union, Partial, Base.Lawful, RefTerm;
    var total := Weight(base, Union(shards));
    ExpPositive(base, m);
    if n == 0 {
      NothingYet(base, shards);
    } else {
      RefResultIs(base, shards, lses, outs, m, n - 1);
      PartOfTotal(base, shards, n - 1);
      UnionMonotone(base, shards, 0, 0);
      RefTermIs(base, shards[n - 1], lses[n - 1], outs[n - 1], m, total);
      UnionStep(base, shards, n - 1);
      CleanLse(base, shards[n - 1], lses[n - 1], outs[n - 1]);
      RatioAdds(Mass(base, Union(shards[..n - 1])), Mass(base, shards[n - 1]), total);
    }
  }

  /** The reference combine gives attention over the union, clamp and all. */
  lemma ReferenceIsAttention(base: Base, shards: seq<Shard>, lses: seq<Ext>, outs: seq<Ext>)
    requires base.Lawful() && Partials(base, shards, lses, outs)
    ensures Reference(base, lses, outs) == (Fin(Attention(base, Union(shards))), LogSum(base, Union(shards)))
  {
    hide Weight, Mass, Union, Partial, Base.Lawful, RefTerm, Clean, MaxOr;
    var n := |lses|;
    assert shards[..n] == shards;
    MaxIsFinite(base, shards, lses, outs, n);
    var m := Shift(MaxOr(lses, n)).value;
    var total := Weight(base, Union(shards));
    RefSumIs(base, shards, lses, outs, m, n);
    SumExpIs(base, shards, lses, outs, m, n);
    if total > 0.0 {
      MaxBelowSum(base, shards, lses, outs, n);
      AtLeastOne(total, base.exp(m));
    }
    RefResultIs(base, shards, lses, outs, m, n);
    GlobalLse(base, total, m);
  }
}
