/** The common kernel block size of a set of attention backends. */
module BlockSize {
  import opened IntMath

  /** What a backend lists: one size, or all multiples of a base. */
  datatype Supported = Exactly(size: nat) | MultipleOf(base: nat)

  type Backend = seq<Supported>

  predicate Positive(backends: seq<Backend>) {
    forall i, k | 0 <= i < |backends| && 0 <= k < |backends[i]| ::
      (backends[i][k].Exactly? ==> backends[i][k].size > 0) && (backends[i][k].MultipleOf? ==> backends[i][k].base > 0)
  }

  predicate Accepts(s: Supported, size: nat)
    requires s.MultipleOf? ==> s.base > 0
  {
    match s
    case Exactly(n) => size == n
    case MultipleOf(base) => size % base == 0
  }

  predicate BackendAccepts(backends: seq<Backend>, i: nat, size: nat)
    requires Positive(backends) && i < |backends|
  {
    exists k :: 0 <= k < |backends[i]| && Accepts(backends[i][k], size)
  }

  predicate AllAccept(backends: seq<Backend>, size: nat)
    requires Positive(backends)
  {
    forall i | 0 <= i < |backends| :: BackendAccepts(backends, i, size)
  }

  /** `block_size_is_supported` */
  method IsSupported(backends: seq<Backend>, size: nat) returns (ok: bool)
    requires Positive(backends)
    ensures ok == AllAccept(backends, size)
  {
    for i := 0 to |backends|
      invariant forall k | 0 <= k < i :: BackendAccepts(backends, k, size)
    {
      var supported := false;
      for k := 0 to |backends[i]|
        invariant supported == exists j :: 0 <= j < k && Accepts(backends[i][j], size)
      {
        var s := backends[i][k];
        if s.Exactly? && s.size == size { supported := true; }
        if s.MultipleOf? && size % s.base == 0 { supported := true; }
      }
      if !supported {
        assert !BackendAccepts(backends, i, size);
        return false;
      }
    }
    return true;
  }

  /** Explicit sizes that divide the manager's. */
  predicate IsCandidate(backends: seq<Backend>, manager: nat, size: nat)
    requires Positive(backends)
  {
    exists i, k ::
      0 <= i < |backends| && 0 <= k < |backends[i]| && backends[i][k] == Exactly(size) && size > 0
      && manager % size == 0
  }

  method Candidates(backends: seq<Backend>, manager: nat) returns (c: set<nat>)
    requires Positive(backends)
    ensures forall size :: size in c <==> IsCandidate(backends, manager, size)
  {
    c := {};
    for i := 0 to |backends|
      invariant forall size :: size in c <==>
                  exists h, j ::
                    0 <= h < i && 0 <= j < |backends[h]| && backends[h][j] == Exactly(size) && size > 0
                    && manager % size == 0
    {
      for k := 0 to |backends[i]|
        invariant forall size :: size in c <==>
                    exists h, j ::
                      0 <= h <= i && 0 <= j < |backends[h]| && (h < i || j < k) && backends[h][j] == Exactly(size)
                      && size > 0
                                   && manager % size == 0
      {
        ghost var before := c;
        var s := backends[i][k];
        if s.Exactly? && manager % s.size == 0 { c := c + {s.size}; }
        forall size | size in c && size !in before
          ensures exists h, j ::
            0 <= h <= i && 0 <= j < |backends[h]| && (h < i || j < k + 1) && backends[h][j] == Exactly(size) && size > 0
                                 && manager % size == 0
        {
          assert backends[i][k] == Exactly(size);
        }
      }
    }
  }

  lemma DividesThrough(m: nat, d: nat, base: nat)
    requires d > 0 && base > 0 && m % d == 0 && d % base == 0
    ensures m % base == 0
  {
    var q, r := m / d, d / base;
    assert m == d * q && d == base * r;
    assert m == (r * q) * base;
    MulDiv(r * q, base);
  }

  /** The comment's claim: if the manager's own size is refused, every common divisor is an
      explicit size of some backend, so no other candidate is needed. */
  lemma CommonDivisorIsCandidate(backends: seq<Backend>, manager: nat, size: nat)
    requires Positive(backends) && size > 0 && manager % size == 0
    requires AllAccept(backends, size) && !AllAccept(backends, manager)
    ensures IsCandidate(backends, manager, size)
  {
    var i :| 0 <= i < |backends| && !BackendAccepts(backends, i, manager);
    assert BackendAccepts(backends, i, size);
    var k :| 0 <= k < |backends[i]| && Accepts(backends[i][k], size);
    AcceptsMultiple(backends[i][k], size, manager);
    assert !Accepts(backends[i][k], manager);
  }

  /** An entry that is not a single size and takes `size` also takes its multiples. */
  lemma AcceptsMultiple(s: Supported, size: nat, manager: nat)
    requires (s.MultipleOf? ==> s.base > 0) && size > 0 && manager % size == 0 && Accepts(s, size)
    ensures s == Exactly(size) || Accepts(s, manager)
  {
    if s.MultipleOf? { DividesThrough(manager, size, s.base); }
  }

  predicate IsLargest(c: set<nat>, x: nat) {
    x in c && forall y | y in c :: y <= x
  }

  lemma {:induction false} LargestExists(c: set<nat>)
    requires c != {}
    ensures exists x :: IsLargest(c, x)
    decreases |c|
  {
    var x :| x in c;
    var rest := c - {x};
    var best := x;
    if rest != {} {
      LargestExists(rest);
      var z :| IsLargest(rest, z);
      best := if x <= z then z else x;
    }
    forall y | y in c
      ensures y <= best
    {
      if y != x { assert y in rest; }
    }
    assert IsLargest(c, best);
  }

  lemma LargerDividesNot(n: nat, d: nat)
    requires 0 < n < d
    ensures n % d != 0
  {
    DivUnique(n, d, 0);
    assert n == d * 0 + n % d;
  }

  /** A backend lists the size itself, or a base that divides it. */
  predicate Lists(b: Backend, size: nat)
    requires forall k | 0 <= k < |b| :: b[k].MultipleOf? ==> b[k].base > 0
  {
    exists k :: 0 <= k < |b| && (b[k] == Exactly(size) || (b[k].MultipleOf? && size % b[k].base == 0))
  }

  predicate AllList(backends: seq<Backend>, size: nat)
    requires Positive(backends)
  {
    forall i | 0 <= i < |backends| :: Lists(backends[i], size)
  }

  lemma AcceptsWhatIsListed(backends: seq<Backend>)
    requires Positive(backends)
    ensures forall size: nat :: AllAccept(backends, size) <==> AllList(backends, size)
  {
    forall size: nat, i | 0 <= i < |backends|
      ensures BackendAccepts(backends, i, size) <==> Lists(backends[i], size)
    {
      if Lists(backends[i], size) {
        var k :| 0 <= k < |backends[i]|
                 && (backends[i][k] == Exactly(size)
                     || (backends[i][k].MultipleOf? && size % backends[i][k].base == 0));
        assert Accepts(backends[i][k], size);
      }
    }
  }

  /** The largest divisor of the manager's size that every backend supports; raises exactly
      when there is none. */
  method SelectCommonBlockSize(manager: nat, backends: seq<Backend>) returns (r: Option<nat>)
    requires manager > 0 && Positive(backends)
    ensures r.Some? ==> && r.value > 0 && manager % r.value == 0
                        && AllList(backends, r.value)
                        && forall d: nat | d > r.value && manager % d == 0 :: !AllList(backends, d)
    ensures r.None? ==> forall d: nat | d > 0 && manager % d == 0 :: !AllList(backends, d)
  {
    hide AllAccept, AllList;
    AcceptsWhatIsListed(backends);
    var ok := IsSupported(backends, manager);
    if ok {
      forall d: nat | d > manager { LargerDividesNot(manager, d); }
      return Some(manager);
    }
    var candidates := Candidates(backends, manager);
    var remaining := candidates;
    while remaining != {}
      invariant remaining <= candidates
      invariant forall d | d in candidates && d !in remaining :: !AllAccept(backends, d)
      invariant forall d, e | d in remaining && e in candidates && e !in remaining :: d < e
      decreases |remaining|
    {
      LargestExists(remaining);
      var size :| IsLargest(remaining, size);
      ok := IsSupported(backends, size);
      if ok {
        forall d: nat | d > size && manager % d == 0
          ensures !AllAccept(backends, d)
        {
          if AllAccept(backends, d) { CommonDivisorIsCandidate(backends, manager, d); }
        }
        return Some(size);
      }
      remaining := remaining - {size};
    }
    forall d: nat | d > 0 && manager % d == 0
      ensures !AllAccept(backends, d)
    {
      if AllAccept(backends, d) { CommonDivisorIsCandidate(backends, manager, d); }
    }
    r := None;
  }
}
