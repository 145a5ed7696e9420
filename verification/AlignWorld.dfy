/** Whole align-mode runs over one block pool: batches of requests, prefix-cached
    blocks shared between requests, admissions and evictions. */
module AlignWorld {
  import opened IntMath
  import opened AlignPolicy
  import opened AlignState
  import opened AlignStep

  /** `cache` maps a block published at a block boundary to the tokens it stands for. */
  datatype World = World(pool: Pool, cache: map<nat, History>, requests: seq<Request>)

  datatype Event =
    | Batch(jobs: seq<Job>)
    | Admit(slot: nat, request: Request)
    | Evict(blocks: set<nat>)

  predicate CacheOk(l: Layout, p: Pool, cache: map<nat, History>)
    requires l.Valid() && PoolOk(l, p)
  {
    forall b | b in cache ::
      && |cache[b]| > 0 && |cache[b]| % l.blockSize == 0
      && Shows(l, p, b, b, 0, cache[b])
  }

  /** Every request can continue and every cached block means what the cache says. */
  predicate WorldOk(l: Layout, w: World) {
    && l.Valid() && PoolOk(l, w.pool)
    && CacheOk(l, w.pool, w.cache)
    && forall s | 0 <= s < |w.requests| :: Ready(l, w.pool, w.requests[s])
  }

  // ---- What the scheduler owes a batch ----

  predicate SlotsOk(w: World, jobs: seq<Job>) {
    && (forall i | 0 <= i < |jobs| :: jobs[i].slot < |w.requests|)
    && (forall i, k | 0 <= i < k < |jobs| :: jobs[i].slot != jobs[k].slot)
  }

  /** Blocks a job may write belong to nobody else: not to another job's window, not to
      another request's live state, not to the cache. */
  predicate Exclusive(l: Layout, w: World, jobs: seq<Job>)
    requires l.Valid() && SlotsOk(w, jobs)
    requires forall i | 0 <= i < |jobs| :: WindowEnd(l, w.requests[jobs[i].slot], jobs[i]) <= |jobs[i].table|
  {
    forall i | 0 <= i < |jobs| ::
      var mine := WindowBlocks(l, w.requests[jobs[i].slot], jobs[i]);
      && mine !! w.cache.Keys
      && (forall s | 0 <= s < |w.requests| && s != jobs[i].slot :: mine !! LiveBlocks(l, w.requests[s]))
      && (forall k | 0 <= k < |jobs| && k != i :: mine !! WindowBlocks(l, w.requests[jobs[k].slot], jobs[k]))
  }

  predicate BatchOk(l: Layout, w: World, jobs: seq<Job>) {
    && l.Valid() && SlotsOk(w, jobs)
    && (forall i | 0 <= i < |jobs| :: JobFits(l, |w.pool.temporal|, w.requests[jobs[i].slot], jobs[i]))
    && Exclusive(l, w, jobs)
  }

  // ---- A batch: three passes over the jobs, then the bookkeeping ----

  datatype Phase = Precopy | Forward | Postprocess

  function RunOne(l: Layout, phase: Phase, p: Pool, r: Request, j: Job): (q: Pool)
    requires l.Valid() && PoolOk(l, p)
    ensures PoolOk(l, q) && |q.temporal| == |p.temporal|
  {
    match phase
    case Precopy => PrecopyOne(l, p, r, j)
    case Forward => ForwardOne(l, p, r, j)
    case Postprocess => PostOne(l, p, r, j)
  }

  /** The pool after the first `n` jobs of a pass. */
  function RunPass(l: Layout, phase: Phase, p: Pool, requests: seq<Request>, jobs: seq<Job>, n: nat): (q: Pool)
    requires l.Valid() && PoolOk(l, p) && n <= |jobs|
    requires forall i | 0 <= i < |jobs| :: jobs[i].slot < |requests|
    ensures PoolOk(l, q) && |q.temporal| == |p.temporal|
  {
    if n == 0 then p
    else RunOne(l, phase, RunPass(l, phase, p, requests, jobs, n - 1), requests[jobs[n - 1].slot], jobs[n - 1])
  }

  function AdvanceAll(l: Layout, requests: seq<Request>, jobs: seq<Job>, n: nat): (rs: seq<Request>)
    requires l.Valid() && n <= |jobs|
    requires forall i | 0 <= i < |jobs| ::
      jobs[i].slot < |requests| && jobs[i].draft < |jobs[i].inputs| && 1 <= jobs[i].accepted <= jobs[i].draft + 1
    ensures |rs| == |requests|
  {
    if n == 0 then requests
    else
      var j := jobs[n - 1];
      AdvanceAll(l, requests, jobs, n - 1)[j.slot := Advance(l, requests[j.slot], j)]
  }

  function PublishOne(l: Layout, cache: map<nat, History>, r: Request, j: Job): map<nat, History>
    requires l.Valid() && j.draft < |j.inputs| && 1 <= j.accepted <= j.draft + 1
  {
    var post := Post(l, r, j);
    if post.Save? && 0 <= post.dest < |j.table| then cache[j.table[post.dest] := Saved(l, r, j)] else cache
  }

  function PublishAll(l: Layout, cache: map<nat, History>, requests: seq<Request>, jobs: seq<Job>,
                      n: nat): map<nat, History>
    requires l.Valid() && n <= |jobs|
    requires forall i | 0 <= i < |jobs| ::
      jobs[i].slot < |requests| && jobs[i].draft < |jobs[i].inputs| && 1 <= jobs[i].accepted <= jobs[i].draft + 1
  {
    if n == 0 then cache
    else PublishOne(l, PublishAll(l, cache, requests, jobs, n - 1), requests[jobs[n - 1].slot], jobs[n - 1])
  }

  function StepBatch(l: Layout, w: World, jobs: seq<Job>): World
    requires l.Valid() && PoolOk(l, w.pool) && BatchOk(l, w, jobs)
  {
    var p1 := RunPass(l, Precopy, w.pool, w.requests, jobs, |jobs|);
    var p2 := RunPass(l, Forward, p1, w.requests, jobs, |jobs|);
    var p3 := RunPass(l, Postprocess, p2, w.requests, jobs, |jobs|);
    World(p3, PublishAll(l, w.cache, w.requests, jobs, |jobs|), AdvanceAll(l, w.requests, jobs, |jobs|))
  }

  // ---- Passes do not disturb one another ----

  /** What a phase needs of a job's request, and what it leaves. */
  predicate Before(l: Layout, phase: Phase, p: Pool, r: Request, j: Job)
    requires l.Valid() && PoolOk(l, p) && j.draft < |j.inputs|
  {
    match phase
    case Precopy => Ready(l, p, r)
    case Forward => Loaded(l, p, r, j)
    case Postprocess => Written(l, p, r, j)
  }

  predicate After(l: Layout, phase: Phase, p: Pool, r: Request, j: Job)
    requires l.Valid() && PoolOk(l, p) && j.draft < |j.inputs| && 1 <= j.accepted <= j.draft + 1
  {
    match phase
    case Precopy => Loaded(l, p, r, j)
    case Forward => Written(l, p, r, j)
    case Postprocess =>
      && Ready(l, p, Advance(l, r, j))
      && (Post(l, r, j).Save? ==>
            var dest := Post(l, r, j).dest;
            && WindowStart(l, r) <= dest < WindowEnd(l, r, j)
            && |Saved(l, r, j)| == (dest + 1) * l.blockSize > |r.committed|
            && ShowsAt(l, p, j.table, dest, dest, 0, Saved(l, r, j)))
  }

  lemma PhaseWorks(l: Layout, phase: Phase, p: Pool, r: Request, j: Job)
    requires l.Valid() && PoolOk(l, p) && JobFits(l, |p.temporal|, r, j)
    requires Before(l, phase, p, r, j)
    ensures After(l, phase, RunOne(l, phase, p, r, j), r, j)
    ensures AgreeOff(p, RunOne(l, phase, p, r, j), WindowBlocks(l, r, j))
  {
    PhasesStayInWindow(l, p, r, j);
    match phase {
      case Precopy => PrecopyLoads(l, p, r, j);
      case Forward => ForwardWrites(l, p, r, j);
      case Postprocess =>
        PostLeavesReady(l, p, r, j);
        if Post(l, r, j).Save? { PostSaves(l, p, r, j); }
    }
  }

  /** A request whose live blocks are spared stays ready. */
  lemma ReadyFrame(l: Layout, p: Pool, q: Pool, blocks: set<nat>, r: Request)
    requires l.Valid() && PoolOk(l, p) && PoolOk(l, q) && AgreeOff(p, q, blocks)
    requires Ready(l, p, r) && LiveBlocks(l, r) !! blocks
    ensures Ready(l, q, r)
  {
    if |r.committed| > 0 {
      var prev := Previous(l, r);
      assert LiveColumn(l, r, prev) && LiveColumn(l, r, prev + r.accepted - 1);
      assert r.table[prev] in LiveBlocks(l, r) && r.table[prev + r.accepted - 1] in LiveBlocks(l, r);
      ShowsFrame(l, p, q, blocks, r.table, prev + r.accepted - 1, prev, r.accepted - 1, r.committed);
    }
  }

  lemma InWindow(l: Layout, r: Request, j: Job, c: int)
    requires l.Valid() && WindowEnd(l, r, j) <= |j.table|
    requires WindowStart(l, r) <= c < WindowEnd(l, r, j)
    ensures j.table[c] in WindowBlocks(l, r, j)
  {
  }

  lemma LoadedFrame(l: Layout, p: Pool, q: Pool, blocks: set<nat>, r: Request, j: Job)
    requires l.Valid() && PoolOk(l, p) && PoolOk(l, q) && AgreeOff(p, q, blocks)
    requires JobFits(l, |p.temporal|, r, j) && WindowBlocks(l, r, j) !! blocks
    requires Loaded(l, p, r, j)
    ensures Loaded(l, q, r, j)
  {
    WindowFacts(l, r, j);
    var st := Stage(l, r, j);
    if |r.committed| > 0 {
      InWindow(l, r, j, st.dst);
      InWindow(l, r, j, st.dst + st.accepted - 1);
      ShowsFrame(l, p, q, blocks, j.table, st.dst + st.accepted - 1, st.dst, st.accepted - 1, r.committed);
    }
  }

  lemma WrittenFrame(l: Layout, p: Pool, q: Pool, blocks: set<nat>, r: Request, j: Job)
    requires l.Valid() && PoolOk(l, p) && PoolOk(l, q) && AgreeOff(p, q, blocks)
    requires JobFits(l, |p.temporal|, r, j) && WindowBlocks(l, r, j) !! blocks
    requires Written(l, p, r, j)
    ensures Written(l, q, r, j)
  {
    WindowFacts(l, r, j);
    var dst := Stage(l, r, j).dst;
    forall i: nat | i <= j.draft
      ensures ShowsAt(l, q, j.table, dst + i, dst, i, Prefix(r, j, i))
    {
      InWindow(l, r, j, dst);
      InWindow(l, r, j, dst + i);
      ShowsFrame(l, p, q, blocks, j.table, dst + i, dst, i, Prefix(r, j, i));
    }
  }

  /** The advanced request lives inside the window it just used. */
  lemma AdvancedLivesInWindow(l: Layout, r: Request, j: Job)
    requires l.Valid() && j.draft < |j.inputs| && j.draft <= l.spec && 1 <= j.accepted <= j.draft + 1
    requires WindowEnd(l, r, j) <= |j.table|
    ensures LiveBlocks(l, Advance(l, r, j)) <= WindowBlocks(l, r, j)
  {
    WindowFacts(l, r, j);
    var a := Advance(l, r, j);
    forall b | b in LiveBlocks(l, a)
      ensures b in WindowBlocks(l, r, j)
    {
      var c :| 0 <= c < |a.table| && LiveColumn(l, a, c) && a.table[c] == b;
      InWindow(l, r, j, c);
    }
  }

  lemma AfterFrame(l: Layout, phase: Phase, p: Pool, q: Pool, blocks: set<nat>, r: Request, j: Job)
    requires l.Valid() && PoolOk(l, p) && PoolOk(l, q) && AgreeOff(p, q, blocks)
    requires JobFits(l, |p.temporal|, r, j) && WindowBlocks(l, r, j) !! blocks
    requires After(l, phase, p, r, j)
    ensures After(l, phase, q, r, j)
  {
    match phase {
      case Precopy => LoadedFrame(l, p, q, blocks, r, j);
      case Forward => WrittenFrame(l, p, q, blocks, r, j);
      case Postprocess =>
        AdvancedLivesInWindow(l, r, j);
        ReadyFrame(l, p, q, blocks, Advance(l, r, j));
        if Post(l, r, j).Save? {
          var dest := Post(l, r, j).dest;
          InWindow(l, r, j, dest);
          ShowsFrame(l, p, q, blocks, j.table, dest, dest, 0, Saved(l, r, j));
        }
    }
  }

  lemma BeforeFrame(l: Layout, phase: Phase, p: Pool, q: Pool, blocks: set<nat>, r: Request, j: Job)
    requires l.Valid() && PoolOk(l, p) && PoolOk(l, q) && AgreeOff(p, q, blocks)
    requires JobFits(l, |p.temporal|, r, j) && WindowBlocks(l, r, j) !! blocks && LiveBlocks(l, r) !! blocks
    requires Before(l, phase, p, r, j)
    ensures Before(l, phase, q, r, j)
  {
    match phase {
      case Precopy => ReadyFrame(l, p, q, blocks, r);
      case Forward => LoadedFrame(l, p, q, blocks, r, j);
      case Postprocess => WrittenFrame(l, p, q, blocks, r, j);
    }
  }

  /** All windows of the first `n` jobs together. */
  function Touched(l: Layout, requests: seq<Request>, jobs: seq<Job>, n: nat): set<nat>
    requires l.Valid() && n <= |jobs|
    requires forall i | 0 <= i < |jobs| ::
      jobs[i].slot < |requests| && WindowEnd(l, requests[jobs[i].slot], jobs[i]) <= |jobs[i].table|
  {
    if n == 0 then {} else Touched(l, requests, jobs, n - 1) + WindowBlocks(l, requests[jobs[n - 1].slot], jobs[n - 1])
  }

  lemma JobsApart(l: Layout, w: World, jobs: seq<Job>, i: nat, k: nat)
    requires BatchOk(l, w, jobs) && i < |jobs| && k < |jobs| && i != k
    ensures var mine := WindowBlocks(l, w.requests[jobs[i].slot], jobs[i]);
            && mine !! WindowBlocks(l, w.requests[jobs[k].slot], jobs[k])
            && mine !! LiveBlocks(l, w.requests[jobs[k].slot])
  {
  }

  /** Running job `m` takes it from its precondition to its postcondition and leaves
      every other job where it was. */
  lemma JobWorks(l: Layout, phase: Phase, p: Pool, w: World, jobs: seq<Job>, m: nat)
    requires l.Valid() && PoolOk(l, p) && m < |jobs|
    requires |p.temporal| == |w.pool.temporal| && BatchOk(l, w, jobs)
    requires Before(l, phase, p, w.requests[jobs[m].slot], jobs[m])
    ensures var q := RunOne(l, phase, p, w.requests[jobs[m].slot], jobs[m]);
            && AgreeOff(p, q, WindowBlocks(l, w.requests[jobs[m].slot], jobs[m]))
            && After(l, phase, q, w.requests[jobs[m].slot], jobs[m])
            && forall i {:trigger jobs[i]} | 0 <= i < |jobs| && i != m ::
              && (After(l, phase, p, w.requests[jobs[i].slot], jobs[i]) ==>
                  After(l, phase, q, w.requests[jobs[i].slot], jobs[i]))
              && (Before(l, phase, p, w.requests[jobs[i].slot], jobs[i]) ==>
                  Before(l, phase, q, w.requests[jobs[i].slot], jobs[i]))
  {
    var r := w.requests[jobs[m].slot];
    var q := RunOne(l, phase, p, r, jobs[m]);
    PhaseWorks(l, phase, p, r, jobs[m]);
    forall i {:trigger jobs[i]} | 0 <= i < |jobs| && i != m
      ensures After(l, phase, p, w.requests[jobs[i].slot], jobs[i]) ==>
                After(l, phase, q, w.requests[jobs[i].slot], jobs[i])
      ensures Before(l, phase, p, w.requests[jobs[i].slot], jobs[i]) ==>
                Before(l, phase, q, w.requests[jobs[i].slot], jobs[i])
    {
      JobsApart(l, w, jobs, m, i);
      var other := w.requests[jobs[i].slot];
      if After(l, phase, p, other, jobs[i]) { AfterFrame(l, phase, p, q, WindowBlocks(l, r, jobs[m]), other, jobs[i]); }
      if Before(l, phase, p, other, jobs[i]) {
        BeforeFrame(l, phase, p, q, WindowBlocks(l, r, jobs[m]), other, jobs[i]);
      }
    }
  }

  ghost predicate AllBefore(l: Layout, phase: Phase, p: Pool, w: World, jobs: seq<Job>, from: nat)
    requires PoolOk(l, p) && BatchOk(l, w, jobs)
  {
    forall i {:trigger jobs[i]} | from <= i < |jobs| :: Before(l, phase, p, w.requests[jobs[i].slot], jobs[i])
  }

  ghost predicate AllAfter(l: Layout, phase: Phase, p: Pool, w: World, jobs: seq<Job>, n: nat)
    requires PoolOk(l, p) && BatchOk(l, w, jobs) && n <= |jobs|
  {
    forall i {:trigger jobs[i]} | 0 <= i < n :: After(l, phase, p, w.requests[jobs[i].slot], jobs[i])
  }

  /** A pass takes every job from its precondition to its postcondition and touches
      nothing outside the jobs' windows. */
  lemma {:induction false} PassWorks(l: Layout, phase: Phase, p: Pool, w: World, jobs: seq<Job>, n: nat)
    requires PoolOk(l, p) && n <= |jobs| && |p.temporal| == |w.pool.temporal|
    requires BatchOk(l, w, jobs) && AllBefore(l, phase, p, w, jobs, 0)
    ensures var q := RunPass(l, phase, p, w.requests, jobs, n);
            && AgreeOff(p, q, Touched(l, w.requests, jobs, n))
            && AllAfter(l, phase, q, w, jobs, n)
            && AllBefore(l, phase, q, w, jobs, n)
  {
    hide Before, After, RunOne, WindowBlocks, Exclusive, DistinctColumns, TableOk, LiveColumn;
    if n > 0 {
      PassWorks(l, phase, p, w, jobs, n - 1);
      JobWorks(l, phase, RunPass(l, phase, p, w.requests, jobs, n - 1), w, jobs, n - 1);
    }
  }

  /** The three passes together. */
  lemma BatchPasses(l: Layout, w: World, jobs: seq<Job>)
    requires WorldOk(l, w) && BatchOk(l, w, jobs)
    ensures var q := StepBatch(l, w, jobs).pool;
            && PoolOk(l, q)
            && AgreeOff(w.pool, q, Touched(l, w.requests, jobs, |jobs|))
            && AllAfter(l, Postprocess, q, w, jobs, |jobs|)
            && AllAfter(l, Precopy, RunPass(l, Precopy, w.pool, w.requests, jobs, |jobs|), w, jobs, |jobs|)
  {
    var n := |jobs|;
    var p1 := RunPass(l, Precopy, w.pool, w.requests, jobs, n);
    var p2 := RunPass(l, Forward, p1, w.requests, jobs, n);
    PassWorks(l, Precopy, w.pool, w, jobs, n);
    NextPass(l, Precopy, Forward, p1, w, jobs);
    PassWorks(l, Forward, p1, w, jobs, n);
    NextPass(l, Forward, Postprocess, p2, w, jobs);
    PassWorks(l, Postprocess, p2, w, jobs, n);
  }

  lemma NextPass(l: Layout, done: Phase, next: Phase, p: Pool, w: World, jobs: seq<Job>)
    requires PoolOk(l, p) && BatchOk(l, w, jobs) && AllAfter(l, done, p, w, jobs, |jobs|)
    requires (done.Precopy? && next.Forward?) || (done.Forward? && next.Postprocess?)
    ensures AllBefore(l, next, p, w, jobs, 0)
  {
    forall i {:trigger jobs[i]} | 0 <= i < |jobs|
      ensures Before(l, next, p, w.requests[jobs[i].slot], jobs[i])
    {
      assert After(l, done, p, w.requests[jobs[i].slot], jobs[i]);
    }
  }

  lemma {:induction false} TouchedApart(l: Layout, w: World, jobs: seq<Job>, n: nat)
    requires n <= |jobs| && BatchOk(l, w, jobs)
    ensures Touched(l, w.requests, jobs, n) !! w.cache.Keys
    ensures forall s | 0 <= s < |w.requests| && (forall i | 0 <= i < |jobs| :: jobs[i].slot != s) ::
              Touched(l, w.requests, jobs, n) !! LiveBlocks(l, w.requests[s])
  {
    if n > 0 {
      TouchedApart(l, w, jobs, n - 1);
    }
  }

  // ---- The bookkeeping lines up with the pool ----

  lemma {:induction false} AdvanceAllAt(l: Layout, w: World, jobs: seq<Job>, n: nat)
    requires n <= |jobs| && BatchOk(l, w, jobs)
    ensures var rs := AdvanceAll(l, w.requests, jobs, n);
            && (forall i | 0 <= i < n :: rs[jobs[i].slot] == Advance(l, w.requests[jobs[i].slot], jobs[i]))
            && (forall s | 0 <= s < |rs| && (forall i | 0 <= i < n :: jobs[i].slot != s) :: rs[s] == w.requests[s])
  {
    hide Advance, WindowEnd, Exclusive, DistinctColumns, TableOk, LiveColumn;
    if n > 0 {
      AdvanceAllAt(l, w, jobs, n - 1);
    }
  }

  lemma PublishOk(l: Layout, q: Pool, cache: map<nat, History>, r: Request, j: Job)
    requires l.Valid() && PoolOk(l, q) && CacheOk(l, q, cache)
    requires j.draft < |j.inputs| && 1 <= j.accepted <= j.draft + 1
    requires After(l, Postprocess, q, r, j)
    ensures CacheOk(l, q, PublishOne(l, cache, r, j))
  {
    hide Post, Saved, Advance, Ready, WindowStart, WindowEnd, ConvAt;
    if Post(l, r, j).Save? {
      MulDiv(Post(l, r, j).dest + 1, l.blockSize);
    }
  }

  /** The cache holds what this job saved, if it saved anything. */
  predicate Published(l: Layout, cache: map<nat, History>, r: Request, j: Job)
    requires l.Valid() && j.draft < |j.inputs| && 1 <= j.accepted <= j.draft + 1
  {
    var post := Post(l, r, j);
    post.Save? ==>
      0 <= post.dest < |j.table| && j.table[post.dest] in cache && cache[j.table[post.dest]] == Saved(l, r, j)
  }

  lemma PublishKeeps(l: Layout, q: Pool, cache: map<nat, History>, r: Request, j: Job, r': Request, j': Job)
    requires l.Valid() && PoolOk(l, q)
    requires WindowEnd(l, r, j) <= |j.table| && WindowEnd(l, r', j') <= |j'.table|
    requires j.draft < |j.inputs| && 1 <= j.accepted <= j.draft + 1
    requires j'.draft < |j'.inputs| && 1 <= j'.accepted <= j'.draft + 1
    requires After(l, Postprocess, q, r, j) && After(l, Postprocess, q, r', j')
    requires WindowBlocks(l, r, j) !! WindowBlocks(l, r', j')
    requires Published(l, cache, r, j)
    ensures Published(l, PublishOne(l, cache, r', j'), r, j)
  {
    hide Post, Saved, Advance, Ready, ShowsAt, WindowStart, WindowEnd, WindowBlocks;
    if Post(l, r, j).Save? && Post(l, r', j').Save? {
      InWindow(l, r, j, Post(l, r, j).dest);
      InWindow(l, r', j', Post(l, r', j').dest);
    }
  }

  lemma {:induction false} PublishAllOk(l: Layout, w: World, q: Pool, jobs: seq<Job>, n: nat)
    requires n <= |jobs| && BatchOk(l, w, jobs) && PoolOk(l, q)
    requires CacheOk(l, q, w.cache) && AllAfter(l, Postprocess, q, w, jobs, |jobs|)
    ensures CacheOk(l, q, PublishAll(l, w.cache, w.requests, jobs, n))
  {
    hide After, CacheOk, PublishOne, WindowEnd, Exclusive, DistinctColumns, TableOk, LiveColumn;
    if n > 0 {
      PublishAllOk(l, w, q, jobs, n - 1);
      var j := jobs[n - 1];
      assert After(l, Postprocess, q, w.requests[j.slot], j);
      PublishOk(l, q, PublishAll(l, w.cache, w.requests, jobs, n - 1), w.requests[j.slot], j);
    }
  }

  lemma PublishedNow(l: Layout, q: Pool, cache: map<nat, History>, r: Request, j: Job)
    requires l.Valid() && PoolOk(l, q) && WindowEnd(l, r, j) <= |j.table|
    requires j.draft < |j.inputs| && 1 <= j.accepted <= j.draft + 1
    requires After(l, Postprocess, q, r, j)
    ensures Published(l, PublishOne(l, cache, r, j), r, j)
  {
    hide Post, Saved, Advance, Ready, ShowsAt;
  }

  /** A published boundary survives the publications of the later jobs. */
  lemma {:induction false} PublishedStays(l: Layout, w: World, q: Pool, jobs: seq<Job>, n: nat, i: nat)
    requires i < n <= |jobs| && BatchOk(l, w, jobs) && PoolOk(l, q)
    requires AllAfter(l, Postprocess, q, w, jobs, |jobs|)
    ensures Published(l, PublishAll(l, w.cache, w.requests, jobs, n), w.requests[jobs[i].slot], jobs[i])
  {
    hide After, Published, PublishOne, WindowEnd, WindowBlocks, Exclusive, DistinctColumns, TableOk, LiveColumn;
    var j, k := jobs[i], jobs[n - 1];
    assert After(l, Postprocess, q, w.requests[j.slot], j);
    if i < n - 1 {
      PublishedStays(l, w, q, jobs, n - 1, i);
      assert After(l, Postprocess, q, w.requests[k.slot], k);
      JobsApart(l, w, jobs, i, n - 1);
      PublishKeeps(l, q, PublishAll(l, w.cache, w.requests, jobs, n - 1), w.requests[j.slot], j, w.requests[k.slot], k);
    } else {
      PublishedNow(l, q, PublishAll(l, w.cache, w.requests, jobs, i), w.requests[j.slot], j);
    }
  }

  /** Every request of the advanced world can continue. */
  lemma AdvancedReady(l: Layout, w: World, q: Pool, jobs: seq<Job>, s: nat)
    requires WorldOk(l, w) && BatchOk(l, w, jobs) && PoolOk(l, q) && s < |w.requests|
    requires AgreeOff(w.pool, q, Touched(l, w.requests, jobs, |jobs|))
    requires AllAfter(l, Postprocess, q, w, jobs, |jobs|)
    ensures Ready(l, q, AdvanceAll(l, w.requests, jobs, |jobs|)[s])
  {
    hide Advance, Ready, ShowsAt, Exclusive, CacheOk, WindowEnd, DistinctColumns, TableOk, LiveColumn;
    AdvanceAllAt(l, w, jobs, |jobs|);
    if i :| 0 <= i < |jobs| && jobs[i].slot == s {
      assert After(l, Postprocess, q, w.requests[s], jobs[i]);
    } else {
      TouchedApart(l, w, jobs, |jobs|);
      ReadyFrame(l, w.pool, q, Touched(l, w.requests, jobs, |jobs|), w.requests[s]);
    }
  }

  /** A block that stays cached is never rewritten, whatever the other requests do. */
  lemma CachedBlocksAreStable(l: Layout, w: World, jobs: seq<Job>, b: nat)
    requires WorldOk(l, w) && BatchOk(l, w, jobs) && b in w.cache
    ensures var q := StepBatch(l, w, jobs).pool;
            b < |q.temporal| == |q.conv| && q.temporal[b] == w.pool.temporal[b] && q.conv[b] == w.pool.conv[b]
  {
    BatchPasses(l, w, jobs);
    TouchedApart(l, w, jobs, |jobs|);
  }

  /** The main step theorem. A batch keeps the world consistent, and each forward pass
      starts from exactly its request's committed tokens. */
  lemma BatchKeepsWorld(l: Layout, w: World, jobs: seq<Job>)
    requires WorldOk(l, w) && BatchOk(l, w, jobs)
    ensures WorldOk(l, StepBatch(l, w, jobs))
    ensures var loaded := RunPass(l, Precopy, w.pool, w.requests, jobs, |jobs|);
            forall i {:trigger jobs[i]} | 0 <= i < |jobs| :: Loaded(l, loaded, w.requests[jobs[i].slot], jobs[i])
  {
    var q := StepBatch(l, w, jobs).pool;
    BatchPasses(l, w, jobs);
    forall b | b in w.cache
      ensures Shows(l, q, b, b, 0, w.cache[b])
    {
      CachedBlocksAreStable(l, w, jobs, b);
    }
    PublishAllOk(l, w, q, jobs, |jobs|);
    forall s: nat | s < |w.requests|
      ensures Ready(l, q, AdvanceAll(l, w.requests, jobs, |jobs|)[s])
    {
      AdvancedReady(l, w, q, jobs, s);
    }
    var loaded := RunPass(l, Precopy, w.pool, w.requests, jobs, |jobs|);
    forall i {:trigger jobs[i]} | 0 <= i < |jobs|
      ensures Loaded(l, loaded, w.requests[jobs[i].slot], jobs[i])
    {
      assert After(l, Precopy, loaded, w.requests[jobs[i].slot], jobs[i]);
    }
  }

  /** Each boundary a job saves is published with exactly the tokens up to it. */
  lemma BoundariesArePublished(l: Layout, w: World, jobs: seq<Job>, i: nat)
    requires WorldOk(l, w) && BatchOk(l, w, jobs) && i < |jobs|
    ensures StepBatch(l, w, jobs).requests[jobs[i].slot].committed
         == Prefix(w.requests[jobs[i].slot], jobs[i], jobs[i].accepted - 1)
    ensures Published(l, StepBatch(l, w, jobs).cache, w.requests[jobs[i].slot], jobs[i])
  {
    hide Published, PublishOne, Exclusive, CacheOk, Ready, DistinctColumns, TableOk, LiveColumn, WindowEnd, AllAfter,
         AgreeOff, Touched, RunPass, PublishAll, AdvanceAll, Post;
    BatchPasses(l, w, jobs);
    AdvanceAllAt(l, w, jobs, |jobs|);
    PublishedStays(l, w, StepBatch(l, w, jobs).pool, jobs, |jobs|, i);
  }

  /** Block `b` is where this job saves its boundary. */
  predicate SavesTo(l: Layout, r: Request, j: Job, b: nat)
    requires l.Valid()
  {
    var post := Post(l, r, j);
    post.Save? && 0 <= post.dest < |j.table| && j.table[post.dest] == b
  }

  /** A save goes to the job's own window, which holds no cached block. */
  lemma SavesOffCache(l: Layout, w: World, jobs: seq<Job>, i: nat, b: nat)
    requires BatchOk(l, w, jobs) && i < |jobs| && SavesTo(l, w.requests[jobs[i].slot], jobs[i], b)
    ensures b !in w.cache
  {
    hide Post;
    var j := jobs[i];
    var r := w.requests[j.slot];
    PostFacts(l, r, j);
    WindowFacts(l, r, j);
    InWindow(l, r, j, Post(l, r, j).dest);
    assert j.table[Post(l, r, j).dest] in WindowBlocks(l, r, j);
  }

  lemma {:induction false} PublishAllKeeps(l: Layout, w: World, jobs: seq<Job>, n: nat, b: nat)
    requires n <= |jobs| && BatchOk(l, w, jobs)
    ensures var cache := PublishAll(l, w.cache, w.requests, jobs, n);
            && (b in w.cache ==> b in cache && cache[b] == w.cache[b])
            && (b in cache && b !in w.cache ==>
                  exists i :: 0 <= i < n && SavesTo(l, w.requests[jobs[i].slot], jobs[i], b)
                              && cache[b] == Saved(l, w.requests[jobs[i].slot], jobs[i]))
  {
    hide Post, Saved, WindowEnd, Exclusive, DistinctColumns, TableOk, LiveColumn;
    if n > 0 {
      PublishAllKeeps(l, w, jobs, n - 1, b);
      if SavesTo(l, w.requests[jobs[n - 1].slot], jobs[n - 1], b) { SavesOffCache(l, w, jobs, n - 1, b); }
    }
  }

  /** A batch forgets no cached block and changes no history in the cache; every block it
      adds is where one of its jobs saved a boundary, under what that job saved. */
  lemma BatchKeepsCache(l: Layout, w: World, jobs: seq<Job>, b: nat)
    requires PoolOk(l, w.pool) && BatchOk(l, w, jobs)
    ensures var cache := StepBatch(l, w, jobs).cache;
            && (b in w.cache ==> b in cache && cache[b] == w.cache[b])
            && (b in cache && b !in w.cache ==>
                  exists i :: 0 <= i < |jobs| && SavesTo(l, w.requests[jobs[i].slot], jobs[i], b)
                              && cache[b] == Saved(l, w.requests[jobs[i].slot], jobs[i]))
  {
    hide BatchOk, PublishAll, RunPass, AdvanceAll, SavesTo;
    PublishAllKeeps(l, w, jobs, |jobs|, b);
  }

  /** A decode job publishes exactly when it commits past a block boundary; what it
      publishes is its committed tokens cut at the last complete block. */
  lemma DecodePublishesLastBoundary(l: Layout, r: Request, j: Job)
    requires l.Valid() && |j.inputs| == 1 + j.draft && 1 <= j.accepted <= j.draft + 1
    ensures var committed := Prefix(r, j, j.accepted - 1);
            var blocks := |committed| / l.blockSize;
            && (Post(l, r, j).Save? <==> |r.committed| / l.blockSize < blocks)
            && (Post(l, r, j).Save? ==>
                  && Post(l, r, j).dest == blocks - 1
                  && 0 <= blocks * l.blockSize <= |committed|
                  && Saved(l, r, j) == committed[..blocks * l.blockSize])
  {
    PostFacts(l, r, j);
    DecodeSavesLastBoundary(Stage(l, r, j).dst, |r.committed|, j.draft, j.accepted, l.blockSize);
    var blocks := |Prefix(r, j, j.accepted - 1)| / l.blockSize;
    MulDiv(blocks, l.blockSize);
  }

  // ---- Runs ----

  /** A request may start empty, or resume from a cached block whose tokens it takes over:
      a prefix-cache hit, or a preempted request coming back. */
  predicate Admissible(l: Layout, w: World, r: Request)
    requires l.Valid()
  {
    && r.stateIdx.None? && r.accepted == 1
    && (r.committed == [] ||
        var column := |r.committed| / l.blockSize - 1;
        && 0 <= column < |r.table|
        && r.table[column] in w.cache
        && w.cache[r.table[column]] == r.committed)
  }

  predicate EventOk(l: Layout, w: World, e: Event) {
    && l.Valid() && PoolOk(l, w.pool)
    && match e
       case Batch(jobs) => BatchOk(l, w, jobs)
       case Admit(slot, r) => slot < |w.requests| && Admissible(l, w, r)
       case Evict(_) => true
  }

  function Apply(l: Layout, w: World, e: Event): World
    requires EventOk(l, w, e)
  {
    match e
    case Batch(jobs) => StepBatch(l, w, jobs)
    case Admit(slot, r) => w.(requests := w.requests[slot := r])
    case Evict(blocks) => w.(cache := w.cache - blocks)
  }

  /** A resumed request looks for its state in the column of its last complete block. */
  lemma ResumeColumn(l: Layout, count: nat)
    requires l.Valid() && count > 0 && count % l.blockSize == 0
    ensures (count - 1) / l.blockSize == count / l.blockSize - 1
  {
    var q := count / l.blockSize;
    assert count == l.blockSize * q;
    DivUnique(count - 1, l.blockSize, q - 1);
  }

  lemma EventKeepsWorld(l: Layout, w: World, e: Event)
    requires WorldOk(l, w) && EventOk(l, w, e)
    ensures WorldOk(l, Apply(l, w, e))
  {
    match e {
      case Batch(jobs) => BatchKeepsWorld(l, w, jobs);
      case Admit(slot, r) =>
        if r.committed != [] {
          ResumeColumn(l, |r.committed|);
        }
      case Evict(_) =>
    }
  }

  /** A request that holds no tokens and no entry yet. */
  predicate Fresh(r: Request) {
    r.stateIdx.None? && r.accepted == 1 && r.committed == []
  }

  /** Where every run starts: any blocks, nothing cached, only fresh requests. */
  lemma StartOk(l: Layout, p: Pool, requests: seq<Request>)
    requires l.Valid() && PoolOk(l, p) && forall s | 0 <= s < |requests| :: Fresh(requests[s])
    ensures WorldOk(l, World(p, map[], requests))
  {
  }

  /** A fresh request may always be admitted, and a cached history always resumed in the
      block that holds it. */
  lemma AlwaysAdmissible(l: Layout, w: World, r: Request, slot: nat)
    requires WorldOk(l, w) && slot < |w.requests| && r.stateIdx.None? && r.accepted == 1
    requires r.committed == [] || var column := |r.committed| / l.blockSize - 1;
               0 <= column < |r.table| && r.table[column] in w.cache && w.cache[r.table[column]] == r.committed
    ensures EventOk(l, w, Admit(slot, r))
  {
  }

  /** Given enough blocks that nobody uses, a fresh request can take its first step, whatever
      its inputs and however many of its drafts are accepted. */
  lemma FirstStepOk(l: Layout, w: World, j: Job)
    requires WorldOk(l, w) && j.slot < |w.requests| && Fresh(w.requests[j.slot])
    requires j.draft < |j.inputs| && j.draft <= l.spec && 1 <= j.accepted <= j.draft + 1
    requires CeilDiv(|j.inputs|, l.blockSize) + l.spec <= |j.table|
    requires forall c | 0 <= c < |j.table| :: j.table[c] < |w.pool.temporal| && j.table[c] !in w.cache
    requires forall c, d | 0 <= c < d < |j.table| :: j.table[c] != j.table[d]
    requires forall c, s | 0 <= c < |j.table| && 0 <= s < |w.requests| && s != j.slot ::
               j.table[c] !in LiveBlocks(l, w.requests[s])
    ensures EventOk(l, w, Batch([j]))
  {
    hide LiveBlocks;
    var jobs := [j];
    assert WindowStart(l, w.requests[j.slot]) == 0 by { DivUnique(0, l.blockSize, 0); }
  }

  /** `w'` is reached from `w` by admissible events. */
  ghost predicate Reaches(l: Layout, w: World, events: seq<Event>, w': World)
    decreases |events|
  {
    if events == [] then w' == w
    else EventOk(l, w, events[0]) && Reaches(l, Apply(l, w, events[0]), events[1..], w')
  }

  /** Safety over whole runs: however steps, admissions and evictions interleave, every
      request's next step finds exactly its committed tokens, and every cached block
      holds exactly the tokens it was published for. */
  lemma {:induction false} RunKeepsWorld(l: Layout, w: World, events: seq<Event>, w': World)
    requires WorldOk(l, w) && Reaches(l, w, events, w')
    ensures WorldOk(l, w')
    decreases |events|
  {
    if events != [] {
      EventKeepsWorld(l, w, events[0]);
      RunKeepsWorld(l, Apply(l, w, events[0]), events[1..], w');
    }
  }

  /** No event up to the end of the run evicts block `b`. */
  predicate Spared(events: seq<Event>, b: nat) {
    forall i | 0 <= i < |events| && events[i].Evict? :: b !in events[i].blocks
  }

  lemma EventKeepsCache(l: Layout, w: World, e: Event, b: nat)
    requires EventOk(l, w, e) && b in w.cache && (e.Evict? ==> b !in e.blocks)
    ensures b in Apply(l, w, e).cache && Apply(l, w, e).cache[b] == w.cache[b]
  {
    hide BatchOk, StepBatch;
    if e.Batch? { BatchKeepsCache(l, w, e.jobs, b); }
  }

  /** A block once cached stays cached under the same history until it is evicted, and all
      the while it holds that history. */
  lemma {:induction false} RunKeepsCache(l: Layout, w: World, events: seq<Event>, w': World, b: nat)
    requires WorldOk(l, w) && Reaches(l, w, events, w') && b in w.cache && Spared(events, b)
    ensures b in w'.cache && w'.cache[b] == w.cache[b]
    ensures PoolOk(l, w'.pool) && Shows(l, w'.pool, b, b, 0, w.cache[b])
    decreases |events|
  {
    hide EventOk, Apply, Shows, Ready;
    if events != [] {
      EventKeepsWorld(l, w, events[0]);
      EventKeepsCache(l, w, events[0], b);
      RunKeepsCache(l, Apply(l, w, events[0]), events[1..], w', b);
    }
  }
}
