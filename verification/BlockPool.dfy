/** The fixed-size block allocator of src/utils/mempool.cpp as a value: chunks of raw
    memory, a bump pointer into the newest chunk, and a stack of returned blocks. */
module BlockPool {
  import opened Arithmetic
  import opened Memory
  import opened Sequences

  const WORD_SIZE := 8
  const DEFAULT_ALLOC_SIZE := 100

  /** `chunks` is newest first; `pos` counts the slots already cut from chunks[0];
      `free` is the returned-block stack, top first; `live` are the blocks handed out. */
  datatype Pool = Pool(
    itemSize: nat,
    allocSize: nat,
    perChunk: nat,
    chunks: seq<Addr>,
    pos: nat,
    free: seq<Addr>,
    live: set<Addr>)

  datatype AllocResult = AllocResult(pool: Pool, block: Addr)

  /** Address of slot `k` of the chunk at `c`: the chunk's link word comes first. */
  function Slot(p: Pool, c: Addr, k: nat): (a: Addr) {
    c + WORD_SIZE + p.itemSize * k
  }

  /** How many slots of chunk number `i` have ever been cut. */
  function Used(p: Pool, i: nat): (n: nat) {
    if i == 0 then p.pos else p.perChunk
  }

  ghost predicate SlotAt(p: Pool, i: nat, k: nat, a: Addr) {
    i < |p.chunks| && k < Used(p, i) && a == Slot(p, p.chunks[i], k)
  }

  ghost predicate IsCarved(p: Pool, a: Addr) {
    exists i: nat, k: nat :: SlotAt(p, i, k, a)
  }

  /** Number of slots ever cut from all chunks. */
  function Carved(p: Pool): int {
    (|p.chunks| - 1) * p.perChunk + p.pos
  }

  predicate Apart(x: Addr, y: Addr, size: nat) {
    x + size <= y || y + size <= x
  }

  ghost predicate Geometry(p: Pool) {
    && p.itemSize >= WORD_SIZE && p.itemSize % WORD_SIZE == 0
    && p.perChunk >= 1
    && WORD_SIZE + p.itemSize * p.perChunk <= p.allocSize
  }

  ghost predicate Chunks(p: Pool) {
    && |p.chunks| >= 1
    && p.pos <= p.perChunk
    && (|p.chunks| > 1 ==> p.pos >= 1)
    && (forall i :: 0 <= i < |p.chunks| ==> p.chunks[i] > NULL)
    && (forall i, j :: 0 <= i < j < |p.chunks| ==> Apart(p.chunks[i], p.chunks[j], p.allocSize))
  }

  ghost predicate PoolInv(p: Pool) {
    && Geometry(p)
    && Chunks(p)
    && NoDup(p.free)
    && (forall a :: a in p.free ==> a !in p.live)
    && (forall a :: a in p.free || a in p.live <==> IsCarved(p, a))
    && |p.live| + |p.free| == Carved(p)
  }

  /** What malloc promises about a non-null result: a region apart from every chunk. */
  ghost predicate MallocOk(p: Pool, m: Addr) {
    m != NULL ==> m > NULL && forall i :: 0 <= i < |p.chunks| ==> Apart(m, p.chunks[i], p.allocSize)
  }

  predicate NeedsChunk(p: Pool) {
    p.free == [] && p.pos == p.perChunk
  }

  /** mempool_alloc; `m` is what malloc returns if it is called. */
  function Alloc(p: Pool, m: Addr): (r: AllocResult)
    requires |p.chunks| >= 1
  {
    if p.free != [] then
      AllocResult(p.(free := p.free[1..], live := p.live + {p.free[0]}), p.free[0])
    else if p.pos == p.perChunk then
      if m == NULL then AllocResult(p, NULL)
      else
        var a := Slot(p, m, 0);
        AllocResult(p.(chunks := [m] + p.chunks, pos := 1, live := p.live + {a}), a)
    else
      var a := Slot(p, p.chunks[0], p.pos);
      AllocResult(p.(pos := p.pos + 1, live := p.live + {a}), a)
  }

  /** mempool_free. */
  function Free(p: Pool, a: Addr): (r: Pool) {
    p.(free := [a] + p.free, live := p.live - {a})
  }

  // ---------------------------------------------------------------- geometry

  lemma SlotsInOrder(p: Pool, c: Addr, j: nat, k: nat)
    requires j < k
    ensures Slot(p, c, j) + p.itemSize <= Slot(p, c, k)
  {
    MulStep(p.itemSize, j, k);
  }

  lemma SlotBounds(p: Pool, c: Addr, k: nat)
    requires Geometry(p) && k < p.perChunk
    ensures c + WORD_SIZE <= Slot(p, c, k)
    ensures Slot(p, c, k) + p.itemSize <= c + p.allocSize
    ensures (Slot(p, c, k) - c) % WORD_SIZE == 0
  {
    SlotsInOrder(p, c, k, p.perChunk);
    var q := p.itemSize / WORD_SIZE;
    assert p.itemSize * k == WORD_SIZE * (q * k);
    assert Slot(p, c, k) - c == WORD_SIZE * (1 + q * k);
  }

  /** Two slots of the pool are the same slot or do not overlap. */
  lemma SlotsApart(p: Pool, i: nat, k: nat, i': nat, k': nat, a: Addr, b: Addr)
    requires Geometry(p) && Chunks(p)
    requires SlotAt(p, i, k, a) && SlotAt(p, i', k', b)
    ensures i == i' && k == k' ==> a == b
    ensures !(i == i' && k == k') ==> Apart(a, b, p.itemSize)
  {
    SlotBounds(p, p.chunks[i], k);
    SlotBounds(p, p.chunks[i'], k');
    if i == i' {
      if k < k' { SlotsInOrder(p, p.chunks[i], k, k'); }
      if k' < k { SlotsInOrder(p, p.chunks[i], k', k); }
    } else if i < i' {
      assert Apart(p.chunks[i], p.chunks[i'], p.allocSize);
    } else {
      assert Apart(p.chunks[i'], p.chunks[i], p.allocSize);
    }
  }

  /** A block lies wholly inside one chunk, past the chunk's link word, word-aligned. */
  ghost predicate InsideChunk(p: Pool, a: Addr) {
    exists i :: 0 <= i < |p.chunks|
      && p.chunks[i] + WORD_SIZE <= a
      && a + p.itemSize <= p.chunks[i] + p.allocSize
      && (a - p.chunks[i]) % WORD_SIZE == 0
  }

  lemma BlockInsideChunk(p: Pool, a: Addr)
    requires PoolInv(p) && (a in p.live || a in p.free)
    ensures InsideChunk(p, a)
    ensures a > NULL
    ensures forall i :: 0 <= i < |p.chunks| ==> a != p.chunks[i]
  {
    assert IsCarved(p, a);
    var i: nat, k: nat :| SlotAt(p, i, k, a);
    SlotBounds(p, p.chunks[i], k);
    forall j | 0 <= j < |p.chunks|
      ensures a != p.chunks[j]
    {
      if i < j { assert Apart(p.chunks[i], p.chunks[j], p.allocSize); }
      if j < i { assert Apart(p.chunks[j], p.chunks[i], p.allocSize); }
    }
  }

  lemma BlocksDisjoint(p: Pool, a: Addr, b: Addr)
    requires PoolInv(p) && a != b
    requires a in p.live || a in p.free
    requires b in p.live || b in p.free
    ensures Apart(a, b, p.itemSize)
  {
    assert IsCarved(p, a) && IsCarved(p, b);
    var i: nat, k: nat :| SlotAt(p, i, k, a);
    var i': nat, k': nat :| SlotAt(p, i', k', b);
    SlotsApart(p, i, k, i', k', a, b);
  }

  // ------------------------------------------------------------ preservation

  lemma AllocReuse(p: Pool)
    requires PoolInv(p) && p.free != []
    ensures PoolInv(Alloc(p, NULL).pool)
    ensures Alloc(p, NULL).block == p.free[0] && p.free[0] !in p.live
  {
    var q := Alloc(p, NULL).pool;
    var a := p.free[0];
    assert p.free == [a] + q.free;
    forall x
      ensures x in q.free || x in q.live <==> IsCarved(q, x)
    {
      CarvedSame(p, q, x);
    }
    assert |q.live| == |p.live| + 1;
  }

  lemma CarvedSame(p: Pool, q: Pool, x: Addr)
    requires p.chunks == q.chunks && p.pos == q.pos && p.perChunk == q.perChunk && p.itemSize == q.itemSize
    ensures IsCarved(p, x) <==> IsCarved(q, x)
  {
    forall i: nat, k: nat
      ensures SlotAt(p, i, k, x) <==> SlotAt(q, i, k, x)
    {
    }
  }

  lemma AllocBump(p: Pool)
    requires PoolInv(p) && p.free == [] && p.pos < p.perChunk
    ensures PoolInv(Alloc(p, NULL).pool)
    ensures Alloc(p, NULL).block !in p.live && Alloc(p, NULL).block > NULL
  {
    var q := Alloc(p, NULL).pool;
    var a := Slot(p, p.chunks[0], p.pos);
    assert SlotAt(q, 0, p.pos, a);
    SlotBounds(p, p.chunks[0], p.pos);
    forall i: nat, k: nat, x | SlotAt(p, i, k, x)
      ensures SlotAt(q, i, k, x) && x != a
    {
      SlotsApart(q, i, k, 0, p.pos, x, a);
    }
    assert !IsCarved(p, a);
    forall x
      ensures x in q.free || x in q.live <==> IsCarved(q, x)
    {
      if IsCarved(q, x) && x != a {
        var i: nat, k: nat :| SlotAt(q, i, k, x);
        assert SlotAt(p, i, k, x);
      }
      if x in p.live {
        assert IsCarved(p, x);
        var i: nat, k: nat :| SlotAt(p, i, k, x);
        assert SlotAt(q, i, k, x);
      }
    }
    assert |q.live| == |p.live| + 1;
  }

  lemma GrownChunks(p: Pool, m: Addr, q: Pool)
    requires PoolInv(p) && MallocOk(p, m) && m != NULL
    requires q == p.(chunks := [m] + p.chunks, pos := 1, live := q.live)
    requires p.pos == p.perChunk
    ensures Chunks(q) && Carved(q) == Carved(p) + 1
  {
    forall i, j | 0 <= i < j < |q.chunks|
      ensures Apart(q.chunks[i], q.chunks[j], q.allocSize)
    {
      if i > 0 { assert Apart(p.chunks[i - 1], p.chunks[j - 1], p.allocSize); }
    }
    assert |p.chunks| * p.perChunk == (|p.chunks| - 1) * p.perChunk + p.perChunk;
  }

  lemma AllocGrow(p: Pool, m: Addr)
    requires PoolInv(p) && NeedsChunk(p) && m != NULL && MallocOk(p, m)
    ensures PoolInv(Alloc(p, m).pool)
    ensures Alloc(p, m).block !in p.live && Alloc(p, m).block > NULL
  {
    var q := Alloc(p, m).pool;
    var a := Slot(p, m, 0);
    GrownChunks(p, m, q);
    assert SlotAt(q, 0, 0, a);
    forall i: nat, k: nat, x | SlotAt(p, i, k, x)
      ensures SlotAt(q, i + 1, k, x) && x != a
    {
      SlotsApart(q, i + 1, k, 0, 0, x, a);
    }
    assert !IsCarved(p, a);
    forall x
      ensures x in q.free || x in q.live <==> IsCarved(q, x)
    {
      if IsCarved(q, x) && x != a {
        var i: nat, k: nat :| SlotAt(q, i, k, x);
        assert i > 0;
        assert SlotAt(p, i - 1, k, x);
      }
      if x in p.live {
        assert IsCarved(p, x);
        var i: nat, k: nat :| SlotAt(p, i, k, x);
        assert SlotAt(q, i + 1, k, x);
      }
    }
    assert |q.live| == |p.live| + 1;
  }

  /** Allocation keeps the invariant; a non-null block is new, inside its chunk and apart
      from every live block; null comes back only when malloc was needed and failed. */
  lemma AllocCorrect(p: Pool, m: Addr)
    requires PoolInv(p)
    requires NeedsChunk(p) ==> MallocOk(p, m)
    ensures var r := Alloc(p, m);
      && PoolInv(r.pool)
      && (r.block == NULL <==> NeedsChunk(p) && m == NULL)
      && (r.block == NULL ==> r.pool == p)
      && (r.block != NULL ==>
            && r.block !in p.live
            && r.pool.live == p.live + {r.block}
            && InsideChunk(r.pool, r.block)
            && forall b :: b in p.live ==> Apart(r.block, b, p.itemSize))
  {
    var r := Alloc(p, m);
    if p.free != [] {
      AllocReuse(p);
      assert r == Alloc(p, NULL);
      BlockInsideChunk(p, p.free[0]);
    } else if p.pos == p.perChunk {
      if m != NULL { AllocGrow(p, m); }
    } else {
      AllocBump(p);
      assert r == Alloc(p, NULL);
    }
    if r.block != NULL {
      BlockInsideChunk(r.pool, r.block);
      forall b | b in p.live
        ensures Apart(r.block, b, p.itemSize)
      {
        BlocksDisjoint(r.pool, r.block, b);
      }
    }
  }

  lemma FreeCorrect(p: Pool, a: Addr)
    requires PoolInv(p) && a in p.live
    ensures PoolInv(Free(p, a))
  {
    var q := Free(p, a);
    forall x
      ensures x in q.free || x in q.live <==> IsCarved(q, x)
    {
      CarvedSame(p, q, x);
    }
  }

  /** The block returned last is the next one handed out, without a new chunk, and the pool is
      then as it was before. */
  lemma FreeThenAlloc(p: Pool, a: Addr, m: Addr)
    requires |p.chunks| >= 1 && a in p.live
    ensures !NeedsChunk(Free(p, a)) && Alloc(Free(p, a), m) == AllocResult(p, a)
  {
    assert p.live - {a} + {a} == p.live;
    assert ([a] + p.free)[1..] == p.free;
  }

  // ------------------------------------------------------------------- runs

  datatype Op = DoAlloc(m: Addr) | DoFree(a: Addr)

  ghost predicate Legal(p: Pool, op: Op) {
    match op
    case DoAlloc(m) => NeedsChunk(p) ==> MallocOk(p, m)
    case DoFree(a) => a in p.live
  }

  function Step(p: Pool, op: Op): Pool
    requires |p.chunks| >= 1
  {
    match op
    case DoAlloc(m) => Alloc(p, m).pool
    case DoFree(a) => Free(p, a)
  }

  /** A freshly created pool: one chunk, nothing cut from it. */
  ghost predicate Fresh(p: Pool) {
    Geometry(p) && p.pos == 0 && p.free == [] && p.live == {} && |p.chunks| == 1 && p.chunks[0] > NULL
  }

  /** The states a pool can pass through, first to last. */
  ghost predicate IsRun(run: seq<Pool>, ops: seq<Op>) {
    && |run| == |ops| + 1
    && Fresh(run[0])
    && forall i :: 0 <= i < |ops| ==>
         |run[i].chunks| >= 1 && Legal(run[i], ops[i]) && run[i + 1] == Step(run[i], ops[i])
  }

  /** The most blocks that were out at the same time. */
  ghost function MaxLive(run: seq<Pool>): nat {
    if run == [] then 0
    else
      var m := MaxLive(run[..|run| - 1]);
      var n := |run[|run| - 1].live|;
      if n > m then n else m
  }

  lemma {:induction false} MaxLiveIsMax(run: seq<Pool>)
    requires run != []
    ensures forall i :: 0 <= i < |run| ==> |run[i].live| <= MaxLive(run)
    ensures exists i :: 0 <= i < |run| && |run[i].live| == MaxLive(run)
    decreases |run|
  {
    var n := |run| - 1;
    if n > 0 {
      var init := run[..n];
      MaxLiveIsMax(init);
      assert forall i :: 0 <= i < n ==> init[i] == run[i];
      var j :| 0 <= j < n && |init[j].live| == MaxLive(init);
      assert |run[j].live| == MaxLive(init);
    } else {
      assert MaxLive(run[..0]) == 0;
    }
    assert |run[n].live| <= MaxLive(run);
  }

  lemma FreshInv(p: Pool)
    requires Fresh(p)
    ensures PoolInv(p)
  {
    forall x
      ensures !IsCarved(p, x)
    {
    }
  }

  lemma StepInv(p: Pool, op: Op)
    requires PoolInv(p) && Legal(p, op)
    ensures PoolInv(Step(p, op))
  {
    match op
    case DoAlloc(m) => AllocCorrect(p, m);
    case DoFree(a) => FreeCorrect(p, a);
  }

  /** One step raises the carved count exactly when it sets a new high-water mark. */
  lemma StepCarved(p: Pool, op: Op, peak: nat)
    requires PoolInv(p) && Legal(p, op) && Carved(p) == peak
    ensures var n := |Step(p, op).live|;
      Carved(Step(p, op)) == if n > peak then n else peak
  {
    StepInv(p, op);
    var q := Step(p, op);
    if op.DoAlloc? && p.free == [] && p.pos == p.perChunk && op.m != NULL {
      GrownChunks(p, op.m, q);
    }
    match op {
      case DoAlloc(m) => AllocCorrect(p, m);
      case DoFree(a) =>
    }
  }

  /** Over any run: the invariant holds in every state, and the number of slots ever cut is
      the historical maximum of simultaneously live blocks. */
  lemma {:induction false} CarvedIsHighWater(run: seq<Pool>, ops: seq<Op>)
    requires IsRun(run, ops)
    ensures var last := run[|run| - 1];
      && PoolInv(last)
      && Carved(last) == MaxLive(run)
      && Carved(last) == |last.live| + |last.free|
    decreases |ops|
  {
    var n := |ops|;
    if n == 0 {
      FreshInv(run[0]);
      assert run[..0] == [];
    } else {
      var run' := run[..n];
      CarvedIsHighWater(run', ops[..n - 1]);
      assert run[..|run| - 1] == run';
      assert run[n] == Step(run[n - 1], ops[n - 1]);
      StepInv(run[n - 1], ops[n - 1]);
      StepCarved(run[n - 1], ops[n - 1], MaxLive(run'));
    }
  }

  /** The number of chunks is determined by the carved count. */
  lemma ChunksFromCarved(p: Pool)
    requires PoolInv(p)
    ensures Carved(p) >= 0
    ensures |p.chunks| == Max(1, CeilDiv(Carved(p), p.perChunk))
  {
    ChunkArithmetic(|p.chunks|, p.perChunk, p.pos);
  }

  lemma ChunkArithmetic(n: nat, t: nat, pos: nat)
    requires n >= 1 && t >= 1 && pos <= t && (n > 1 ==> pos >= 1)
    ensures (n - 1) * t + pos >= 0
    ensures n == Max(1, CeilDiv((n - 1) * t + pos, t))
  {
    if n == 1 {
      DivBetween(pos + t - 1, t, if pos == 0 then 0 else 1);
    } else {
      assert (n - 1) * t + t == n * t;
      DivBetween((n - 1) * t + pos + t - 1, t, n);
    }
  }
}
