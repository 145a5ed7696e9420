/** Softmax attention over a set of keys, for one token, head and output coordinate, and
    over the union of shards of such a set. */
module Softmax {
  import opened Extended

  datatype Key = Key(score: real, value: real)

  type Shard = seq<Key>

  function Weight(base: Base, keys: Shard): real {
    if keys == [] then 0.0 else base.exp(keys[0].score) + Weight(base, keys[1..])
  }

  function Mass(base: Base, keys: Shard): real {
    if keys == [] then 0.0 else base.exp(keys[0].score) * keys[0].value + Mass(base, keys[1..])
  }

  /** Attention; zero over no keys. */
  function Attention(base: Base, keys: Shard): real {
    if Weight(base, keys) == 0.0 then 0.0 else Mass(base, keys) / Weight(base, keys)
  }

  /** The log-sum-exp of the scores. */
  function LogSum(base: Base, keys: Shard): Ext {
    base.Log(Fin(Weight(base, keys)))
  }

  function Union(shards: seq<Shard>): Shard {
    if shards == [] then [] else Union(shards[..|shards| - 1]) + shards[|shards| - 1]
  }

  lemma {:induction false} WeightPositive(base: Base, keys: Shard)
    requires base.Lawful()
    ensures if keys == [] then Weight(base, keys) == 0.0 else Weight(base, keys) > 0.0
  {
    if keys != [] {
      WeightPositive(base, keys[1..]);
      ExpPositive(base, keys[0].score);
    }
  }

  lemma {:induction false} Splits(base: Base, a: Shard, b: Shard)
    ensures Weight(base, a + b) == Weight(base, a) + Weight(base, b)
    ensures Mass(base, a + b) == Mass(base, a) + Mass(base, b)
  {
    if a == [] {
      assert a + b == b;
    } else {
      assert (a + b)[1..] == a[1..] + b;
      Splits(base, a[1..], b);
    }
  }

  /** The union of the first `n` shards grows by one shard. */
  lemma UnionStep(base: Base, shards: seq<Shard>, n: nat)
    requires n < |shards|
    ensures Weight(base, Union(shards[..n + 1])) == Weight(base, Union(shards[..n])) + Weight(base, shards[n])
    ensures Mass(base, Union(shards[..n + 1])) == Mass(base, Union(shards[..n])) + Mass(base, shards[n])
  {
    assert shards[..n + 1][..n] == shards[..n];
    Splits(base, Union(shards[..n]), shards[n]);
  }

  // ---- Any split of the keys ----

  /** `keys` without the one at `j`. */
  function Without(keys: Shard, j: nat): Shard
    requires j < |keys|
  {
    keys[..j] + keys[j + 1..]
  }

  lemma TakeOut(base: Base, keys: Shard, j: nat)
    requires j < |keys|
    ensures Weight(base, keys) == base.exp(keys[j].score) + Weight(base, Without(keys, j))
    ensures Mass(base, keys) == base.exp(keys[j].score) * keys[j].value + Mass(base, Without(keys, j))
  {
    hide Weight, Mass;
    var one, rest := [keys[j]], keys[j + 1..];
    assert keys == keys[..j] + (one + rest);
    Splits(base, keys[..j], one + rest);
    Splits(base, one, rest);
    Splits(base, keys[..j], rest);
    Single(base, keys[j]);
  }

  lemma Single(base: Base, key: Key)
    ensures Weight(base, [key]) == base.exp(key.score) && Mass(base, [key]) == base.exp(key.score) * key.value
  {
    assert [key][1..] == [];
  }

  lemma OthersStay(keys: Shard, j: nat)
    requires j < |keys|
    ensures multiset(Without(keys, j)) == multiset(keys) - multiset{keys[j]}
  {
    assert keys == keys[..j] + ([keys[j]] + keys[j + 1..]);
  }

  /** Weight and mass depend on which keys there are, not on their order. */
  lemma {:induction false} OrderIsImmaterial(base: Base, a: Shard, b: Shard)
    requires multiset(a) == multiset(b)
    ensures Weight(base, a) == Weight(base, b) && Mass(base, a) == Mass(base, b)
    decreases |a|
  {
    hide Weight, Mass, Without;
    if a == [] {
      assert |multiset(b)| == |b|;
    } else {
      assert a[0] in multiset(b);
      var j :| 0 <= j < |b| && b[j] == a[0];
      TakeOut(base, a, 0);
      TakeOut(base, b, j);
      OthersStay(a, 0);
      OthersStay(b, j);
      WithoutShorter(a, 0);
      OrderIsImmaterial(base, Without(a, 0), Without(b, j));
    }
  }

  lemma WithoutShorter(keys: Shard, j: nat)
    requires j < |keys|
    ensures |Without(keys, j)| < |keys|
  {
  }

  /** Key `i` goes to shard `owner[i]`; each shard keeps its keys in order. */
  function Dealt(keys: Shard, owner: seq<nat>, rank: nat): Shard
    requires |owner| == |keys|
  {
    if keys == [] then []
    else
      var last := |keys| - 1;
      Dealt(keys[..last], owner[..last], rank) + if owner[last] == rank then [keys[last]] else []
  }

  function Deal(keys: Shard, owner: seq<nat>, ranks: nat): (shards: seq<Shard>)
    requires |owner| == |keys|
    ensures |shards| == ranks
  {
    seq(ranks, r requires 0 <= r < ranks => Dealt(keys, owner, r))
  }

  /** The keys of the first `n` ranks, in their own order. */
  function OwnedBelow(keys: Shard, owner: seq<nat>, n: nat): Shard
    requires |owner| == |keys|
  {
    if keys == [] then []
    else
      var last := |keys| - 1;
      OwnedBelow(keys[..last], owner[..last], n) + if owner[last] < n then [keys[last]] else []
  }

  lemma {:induction false} OneMoreRank(keys: Shard, owner: seq<nat>, n: nat)
    requires |owner| == |keys|
    ensures multiset(OwnedBelow(keys, owner, n + 1))
            == multiset(OwnedBelow(keys, owner, n)) + multiset(Dealt(keys, owner, n))
  {
    if keys != [] {
      OneMoreRank(keys[..|keys| - 1], owner[..|keys| - 1], n);
    }
  }

  lemma {:induction false} AllRanks(keys: Shard, owner: seq<nat>, ranks: nat)
    requires |owner| == |keys| && forall i | 0 <= i < |owner| :: owner[i] < ranks
    ensures OwnedBelow(keys, owner, ranks) == keys
    ensures multiset(OwnedBelow(keys, owner, 0)) == multiset{}
  {
    if keys != [] {
      AllRanks(keys[..|keys| - 1], owner[..|keys| - 1], ranks);
    }
  }

  lemma {:induction false} DealtAll(keys: Shard, owner: seq<nat>, ranks: nat, n: nat)
    requires |owner| == |keys| && n <= ranks && forall i | 0 <= i < |owner| :: owner[i] < ranks
    ensures multiset(Union(Deal(keys, owner, ranks)[..n])) == multiset(OwnedBelow(keys, owner, n))
  {
    hide Dealt, OwnedBelow, Union;
    var shards := Deal(keys, owner, ranks);
    if n == 0 {
      AllRanks(keys, owner, ranks);
      EmptyUnion(shards);
    } else {
      DealtAll(keys, owner, ranks, n - 1);
      OneMoreRank(keys, owner, n - 1);
      LastShard(shards, n);
    }
  }

  lemma EmptyUnion(shards: seq<Shard>)
    ensures Union(shards[..0]) == []
  {
  }

  lemma LastShard(shards: seq<Shard>, n: nat)
    requires 0 < n <= |shards|
    ensures Union(shards[..n]) == Union(shards[..n - 1]) + shards[n - 1]
  {
    assert shards[..n][..n - 1] == shards[..n - 1];
  }

  /** However the keys are dealt out to the ranks, attention over the union of the shards is
      attention over the keys in their own order. */
  lemma AnySplit(base: Base, keys: Shard, owner: seq<nat>, ranks: nat)
    requires |owner| == |keys| && forall i | 0 <= i < |owner| :: owner[i] < ranks
    ensures var union := Union(Deal(keys, owner, ranks));
            Attention(base, union) == Attention(base, keys) && LogSum(base, union) == LogSum(base, keys)
  {
    hide Attention, Weight, Mass, Union, Dealt, OwnedBelow;
    var shards := Deal(keys, owner, ranks);
    DealtAll(keys, owner, ranks, ranks);
    AllRanks(keys, owner, ranks);
    assert shards[..ranks] == shards;
    OrderIsImmaterial(base, Union(shards), keys);
    SameAttention(base, Union(shards), keys);
  }

  lemma SameAttention(base: Base, a: Shard, b: Shard)
    requires Weight(base, a) == Weight(base, b) && Mass(base, a) == Mass(base, b)
    ensures Attention(base, a) == Attention(base, b) && LogSum(base, a) == LogSum(base, b)
  {
  }

  /** What a rank's own attention kernel hands over: its shard's attention and log-sum-exp.
      For an empty shard the log-sum-exp is not finite, and the output is anything. */
  predicate Partial(base: Base, shard: Shard, lse: Ext, out: Ext) {
    if shard == [] then !lse.Fin?
    else lse == LogSum(base, shard) && out == Fin(Attention(base, shard))
  }

  predicate Partials(base: Base, shards: seq<Shard>, lses: seq<Ext>, outs: seq<Ext>) {
    && |shards| == |lses| == |outs|
    && forall i | 0 <= i < |shards| :: Partial(base, shards[i], lses[i], outs[i])
  }
}
