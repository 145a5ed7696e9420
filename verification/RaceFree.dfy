/** When do concurrently running lanes that load and store single bytes still perform
    one simultaneous copy? Lanes are modelled by an event trace: any interleaving of
    loads and stores in which each byte move loads before it stores. */
module RaceFree {
  import opened Bytes

  /** Move `m` copies byte `src[m]` to byte `dst[m]`. */
  datatype Moves = Moves(src: seq<nat>, dst: seq<nat>) {
    predicate Fits(size: nat) {
      && |src| == |dst|
      && forall m | 0 <= m < |src| :: src[m] < size && dst[m] < size
    }
  }

  datatype Event = Load(move: nat) | Store(move: nat)

  ghost predicate InRange(trace: seq<Event>, moves: nat) {
    forall k | 0 <= k < |trace| :: trace[k].move < moves
  }

  datatype Machine = Machine(mem: seq<Byte>, regs: map<nat, Byte>)

  /** A trace with the one load and the one store position of every move. */
  datatype Schedule = Schedule(trace: seq<Event>, loadAt: seq<nat>, storeAt: seq<nat>) {
    ghost predicate Complete(moves: nat) {
      && |loadAt| == |storeAt| == moves
      && (forall m | 0 <= m < moves :: loadAt[m] < storeAt[m] < |trace|)
      && (forall m | 0 <= m < moves :: trace[loadAt[m]] == Load(m) && trace[storeAt[m]] == Store(m))
      && InRange(trace, moves)
      && (forall k | 0 <= k < |trace| && trace[k].Load? :: loadAt[trace[k].move] == k)
      && (forall k | 0 <= k < |trace| && trace[k].Store? :: storeAt[trace[k].move] == k)
    }
  }

  function Exec(c: Moves, s: Machine, e: Event): (s': Machine)
    requires c.Fits(|s.mem|) && e.move < |c.src|
    ensures |s'.mem| == |s.mem|
  {
    match e
    case Load(m) => s.(regs := s.regs[m := s.mem[c.src[m]]])
    case Store(m) => if m in s.regs then s.(mem := s.mem[c.dst[m] := s.regs[m]]) else s
  }

  /** The machine after the first `n` events. */
  ghost function Run(c: Moves, s: Machine, trace: seq<Event>, n: nat): (s': Machine)
    requires c.Fits(|s.mem|) && n <= |trace| && InRange(trace, |c.src|)
    ensures |s'.mem| == |s.mem|
  {
    if n == 0 then s else Exec(c, Run(c, s, trace, n - 1), trace[n - 1])
  }

  ghost predicate DistinctTargets(c: Moves) {
    |c.src| == |c.dst| && forall i, k | 0 <= i < k < |c.dst| :: c.dst[i] != c.dst[k]
  }

  /** No move's source is overwritten before it is read. */
  ghost predicate HazardsOrdered(c: Moves, s: Schedule)
    requires |c.src| == |c.dst| == |s.loadAt| == |s.storeAt|
  {
    forall i, k | 0 <= i < |c.src| && 0 <= k < |c.src| && i != k && c.dst[k] == c.src[i] :: s.loadAt[i] < s.storeAt[k]
  }

  /** `after` is `before` with every move performed at once. */
  ghost predicate Moved(c: Moves, before: seq<Byte>, after: seq<Byte>)
    requires c.Fits(|before|)
  {
    && |after| == |before|
    && (forall m | 0 <= m < |c.src| :: after[c.dst[m]] == before[c.src[m]])
    && (forall a: nat | a < |before| && a !in c.dst :: after[a] == before[a])
  }

  /** Byte `a` was stored to by one of the first `n` events. */
  ghost predicate Touched(c: Moves, s: Schedule, n: nat, a: nat)
    requires |s.storeAt| == |c.src| == |c.dst|
  {
    exists m :: 0 <= m < |c.src| && s.storeAt[m] < n && c.dst[m] == a
  }

  /** What holds after `n` events: loaded registers hold original bytes, stored targets
      hold their moved byte, everything else is original. */
  ghost predicate Progress(c: Moves, mem: seq<Byte>, s: Schedule, n: nat, now: Machine)
    requires c.Fits(|mem|) && |s.loadAt| == |s.storeAt| == |c.src|
  {
    && |now.mem| == |mem|
    && (forall m | 0 <= m < |c.src| && s.loadAt[m] < n :: m in now.regs && now.regs[m] == mem[c.src[m]])
    && (forall m | 0 <= m < |c.src| && s.storeAt[m] < n :: now.mem[c.dst[m]] == mem[c.src[m]])
    && (forall a: nat | a < |mem| && now.mem[a] != mem[a] :: Touched(c, s, n, a))
  }

  /** A load still sees the original byte. */
  lemma LoadSeesOriginal(c: Moves, mem: seq<Byte>, s: Schedule, m: nat, now: Machine)
    requires c.Fits(|mem|) && s.Complete(|c.src|) && m < |c.src|
    requires HazardsOrdered(c, s)
    requires Progress(c, mem, s, s.loadAt[m], now)
    ensures now.mem[c.src[m]] == mem[c.src[m]]
  {
    assert s.loadAt[m] < s.storeAt[m];
    assert !Touched(c, s, s.loadAt[m], c.src[m]);
  }

  /** Position `n` of the trace is one event of one move. */
  lemma EventAt(s: Schedule, moves: nat, n: nat)
    requires s.Complete(moves) && n < |s.trace|
    ensures var m := s.trace[n].move;
            && m < moves
            && (s.trace[n].Load? ==> s.loadAt[m] == n)
            && (s.trace[n].Store? ==> s.storeAt[m] == n && s.loadAt[m] < n)
            && (forall k {:trigger s.loadAt[k]} | 0 <= k < moves && s.loadAt[k] == n :: s.trace[n] == Load(k))
            && (forall k {:trigger s.storeAt[k]} | 0 <= k < moves && s.storeAt[k] == n :: s.trace[n] == Store(k))
  {
  }

  lemma LoadStep(c: Moves, mem: seq<Byte>, s: Schedule, n: nat, now: Machine)
    requires c.Fits(|mem|) && s.Complete(|c.src|) && n < |s.trace| && s.trace[n].Load?
    requires HazardsOrdered(c, s)
    requires Progress(c, mem, s, n, now)
    ensures Progress(c, mem, s, n + 1, Exec(c, now, s.trace[n]))
  {
    EventAt(s, |c.src|, n);
    var m := s.trace[n].move;
    LoadSeesOriginal(c, mem, s, m, now);
    hide HazardsOrdered, Schedule.Complete;
    var next := Exec(c, now, s.trace[n]);
    assert next == Machine(now.mem, now.regs[m := mem[c.src[m]]]);
    forall a: nat | a < |mem| && next.mem[a] != mem[a]
      ensures Touched(c, s, n + 1, a)
    {
      assert Touched(c, s, n, a);
    }
  }

  lemma StoreStep(c: Moves, mem: seq<Byte>, s: Schedule, n: nat, now: Machine)
    requires c.Fits(|mem|) && s.Complete(|c.src|) && n < |s.trace| && s.trace[n].Store?
    requires DistinctTargets(c)
    requires Progress(c, mem, s, n, now)
    ensures Progress(c, mem, s, n + 1, Exec(c, now, s.trace[n]))
  {
    hide Touched, DistinctTargets, Schedule.Complete;
    var m := s.trace[n].move;
    StoreOnce(s, |c.src|, n);
    var next := Exec(c, now, s.trace[n]);
    assert next == Machine(now.mem[c.dst[m] := mem[c.src[m]]], now.regs);
    forall k: nat | k < |c.src| && s.storeAt[k] < n + 1
      ensures next.mem[c.dst[k]] == mem[c.src[k]]
    {
      if k != m { OtherTarget(c, k, m); }
    }
    forall a: nat | a < |mem| && next.mem[a] != mem[a]
      ensures Touched(c, s, n + 1, a)
    {
      if a == c.dst[m] { TouchedBy(c, s, n + 1, m); } else { TouchedStays(c, s, n, a); }
    }
  }

  /** A store event is the only event at its position. */
  lemma StoreOnce(s: Schedule, moves: nat, n: nat)
    requires s.Complete(moves) && n < |s.trace| && s.trace[n].Store?
    ensures |s.loadAt| == |s.storeAt| == moves
    ensures var m := s.trace[n].move; m < moves && s.storeAt[m] == n && s.loadAt[m] < n
    ensures forall k | 0 <= k < moves :: s.loadAt[k] != n && (k != s.trace[n].move ==> s.storeAt[k] != n)
  {
    EventAt(s, moves, n);
  }

  lemma OtherTarget(c: Moves, k: nat, m: nat)
    requires DistinctTargets(c) && k < |c.dst| && m < |c.dst| && k != m
    ensures c.dst[k] != c.dst[m]
  {
  }

  lemma TouchedBy(c: Moves, s: Schedule, n: nat, m: nat)
    requires |s.storeAt| == |c.src| == |c.dst| && m < |c.src| && s.storeAt[m] < n
    ensures Touched(c, s, n, c.dst[m])
  {
  }

  lemma TouchedStays(c: Moves, s: Schedule, n: nat, a: nat)
    requires |s.storeAt| == |c.src| == |c.dst| && Touched(c, s, n, a)
    ensures Touched(c, s, n + 1, a)
  {
  }

  lemma EventStep(c: Moves, mem: seq<Byte>, s: Schedule, n: nat, now: Machine)
    requires c.Fits(|mem|) && s.Complete(|c.src|) && n < |s.trace| && s.trace[n].move < |c.src|
    requires DistinctTargets(c) && HazardsOrdered(c, s)
    requires Progress(c, mem, s, n, now)
    ensures Progress(c, mem, s, n + 1, Exec(c, now, s.trace[n]))
  {
    hide Progress, Exec, HazardsOrdered, DistinctTargets, Schedule.Complete;
    if s.trace[n].Load? {
      LoadStep(c, mem, s, n, now);
    } else {
      StoreStep(c, mem, s, n, now);
    }
  }

  lemma CompleteInRange(s: Schedule, moves: nat)
    requires s.Complete(moves)
    ensures InRange(s.trace, moves) && |s.loadAt| == |s.storeAt| == moves
    ensures forall m | 0 <= m < moves :: s.storeAt[m] < |s.trace|
  {
  }

  lemma StartProgress(c: Moves, mem: seq<Byte>, s: Schedule)
    requires c.Fits(|mem|) && |s.loadAt| == |s.storeAt| == |c.src|
    ensures Progress(c, mem, s, 0, Machine(mem, map[]))
  {
    assert forall m | 0 <= m < |c.src| :: s.loadAt[m] >= 0 && s.storeAt[m] >= 0;
  }

  lemma {:induction false} RunProgress(c: Moves, mem: seq<Byte>, s: Schedule, n: nat)
    requires c.Fits(|mem|) && s.Complete(|c.src|) && n <= |s.trace|
    requires DistinctTargets(c) && HazardsOrdered(c, s)
    ensures Progress(c, mem, s, n, Run(c, Machine(mem, map[]), s.trace, n))
  {
    hide Exec, HazardsOrdered, DistinctTargets, Schedule.Complete, Progress, InRange, Moves.Fits;
    CompleteInRange(s, |c.src|);
    if n == 0 {
      StartProgress(c, mem, s);
    } else {
      RunProgress(c, mem, s, n - 1);
      EventStep(c, mem, s, n - 1, Run(c, Machine(mem, map[]), s.trace, n - 1));
    }
  }

  /** Every interleaving that respects the hazards performs the simultaneous copy. */
  lemma HazardFreeRunCopies(c: Moves, mem: seq<Byte>, s: Schedule)
    requires c.Fits(|mem|) && s.Complete(|c.src|)
    requires DistinctTargets(c) && HazardsOrdered(c, s)
    ensures Moved(c, mem, Run(c, Machine(mem, map[]), s.trace, |s.trace|).mem)
  {
    hide Schedule.Complete, DistinctTargets, HazardsOrdered, Run;
    RunProgress(c, mem, s, |s.trace|);
    CompleteInRange(s, |c.src|);
    var after := Run(c, Machine(mem, map[]), s.trace, |s.trace|).mem;
    forall a: nat | a < |mem| && a !in c.dst
      ensures after[a] == mem[a]
    {
      assert !Touched(c, s, |s.trace|, a);
    }
  }

  // ---- Contiguous copies ----

  /** The byte moves of copying `[src, src + size)` to `[dst, dst + size)`. */
  function Span(src: nat, dst: nat, size: nat): (c: Moves)
    ensures |c.src| == |c.dst| == size
    ensures forall m | 0 <= m < size :: c.src[m] == src + m && c.dst[m] == dst + m
  {
    Moves(seq(size, m requires 0 <= m < size => src + m), seq(size, m requires 0 <= m < size => dst + m))
  }

  predicate Disjoint(src: nat, dst: nat, size: nat) {
    src + size <= dst || dst + size <= src
  }

  /** With disjoint regions nothing needs ordering: concurrent tiles may run as they like. */
  lemma DisjointSpanCopies(src: nat, dst: nat, size: nat, mem: seq<Byte>, s: Schedule)
    requires src + size <= |mem| && dst + size <= |mem| && Disjoint(src, dst, size)
    requires s.Complete(size)
    ensures Moved(Span(src, dst, size), mem, Run(Span(src, dst, size), Machine(mem, map[]), s.trace, |s.trace|).mem)
  {
    HazardFreeRunCopies(Span(src, dst, size), mem, s);
  }

  /** Left-overlapping regions copy like memmove when each byte is loaded before the
      byte that overwrites it is stored. */
  lemma LeftShiftCopies(src: nat, dst: nat, size: nat, mem: seq<Byte>, s: Schedule)
    requires dst < src && src + size <= |mem| && s.Complete(size)
    requires forall m: nat {:trigger s.loadAt[m]} | m + (src - dst) < size :: s.loadAt[m] < s.storeAt[m + (src - dst)]
    ensures Moved(Span(src, dst, size), mem, Run(Span(src, dst, size), Machine(mem, map[]), s.trace, |s.trace|).mem)
  {
    hide Schedule.Complete, Run, Moved;
    CompleteInRange(s, size);
    var c := Span(src, dst, size);
    forall i, k | 0 <= i < size && 0 <= k < size && i != k && c.dst[k] == c.src[i]
      ensures s.loadAt[i] < s.storeAt[k]
    {
      assert k == i + (src - dst);
    }
    HazardFreeRunCopies(c, mem, s);
  }

  /** Without that order a left shift can lose a byte: two lanes, the right one first. */
  lemma UnorderedLeftShiftFails()
    ensures exists s: Schedule :: s.Complete(2)
              && !Moved(Span(1, 0, 2), [10, 20, 30],
                        Run(Span(1, 0, 2), Machine([10, 20, 30], map[]), s.trace, |s.trace|).mem)
  {
    var s := Schedule([Load(1), Store(1), Load(0), Store(0)], [2, 0], [3, 1]);
    var c := Span(1, 0, 2);
    var m0 := Machine([10, 20, 30], map[]);
    var m1 := Run(c, m0, s.trace, 1);
    assert m1 == Machine([10, 20, 30], map[1 := 30]);
    var m2 := Run(c, m0, s.trace, 2);
    assert m2.mem == [10, 30, 30];
    var m3 := Run(c, m0, s.trace, 3);
    assert m3.regs[0] == 30;
    var m4 := Run(c, m0, s.trace, 4);
    assert m4.mem[0] == 30;
    assert c.dst[0] == 0 && c.src[0] == 1;
  }
}
