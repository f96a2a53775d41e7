/** The size-keyed allocator of src/utils/mempool.cpp as a value: a map from block size to
    pool, and why every block handed out finds its way back. */
module SizedPools {
  import opened Arithmetic
  import opened Memory
  import opened BlockPool
  import opened MemPools

  const U32_MODULUS: nat := 0x1_0000_0000

  type U32 = n: nat | n < U32_MODULUS

  type Pools = map<nat, Pool>

  // --------------------------------------------------------------------- keys

  /** The key var_mempool_alloc looks under: for a size that is not a whole number of words
      the size grows by itself less its odd bytes, in 32-bit arithmetic. */
  function AllocKey(size: U32): U32 {
    if size % WORD_SIZE != 0 then (size + (size - size % WORD_SIZE)) % U32_MODULUS else size
  }

  /** A whole number of words, or less than one. */
  predicate Plain(size: U32) { size % WORD_SIZE == 0 || size < WORD_SIZE }

  /** The block is at least as large as asked exactly when that sum does not wrap. */
  lemma BlockLargeEnoughIff(size: U32)
    requires size > 0
    ensures RoundItem(AllocKey(size)) >= size <==>
      size % WORD_SIZE == 0 || size + (size - size % WORD_SIZE) < U32_MODULUS
  {
    var odd := size % WORD_SIZE;
    var sum := size + (size - odd);
    if odd != 0 && sum >= U32_MODULUS {
      assert size - odd <= U32_MODULUS - WORD_SIZE by { WholeWords(size); }
      assert sum == U32_MODULUS + (sum - U32_MODULUS) && sum - U32_MODULUS < U32_MODULUS;
      assert AllocKey(size) == sum - U32_MODULUS <= size - WORD_SIZE;
    }
  }

  lemma WholeWords(size: U32)
    ensures size - size % WORD_SIZE <= U32_MODULUS - WORD_SIZE
  {
  }

  /** A size is its own key exactly when it is plain; only then does var_mempool_free look
      where var_mempool_alloc put. */
  lemma FreeKeyIff(size: U32)
    ensures AllocKey(size) == size <==> Plain(size)
  {
    var odd := size % WORD_SIZE;
    WholeWords(size);
  }

  lemma KeyPositive(size: U32)
    ensures size > 0 ==> AllocKey(size) > 0
  {
  }

  // --------------------------------------------------------------- operations

  /** What mempool_create returns, should a pool be missing: null or a new pool. */
  datatype Made = Nothing | Made(pool: Pool)

  datatype VarResult = VarResult(pools: Pools, block: Addr)

  ghost predicate NonEmpty(pools: Pools) {
    forall k :: k in pools ==> |pools[k].chunks| >= 1
  }

  /** var_mempool_alloc; `m` is what malloc returns if an existing pool is full. Key zero is
      never found, so size zero makes a new pool each time. */
  function VarAlloc(pools: Pools, size: U32, made: Made, m: Addr): VarResult
    requires AllocKey(size) in pools ==> |pools[AllocKey(size)].chunks| >= 1
    requires made.Made? ==> |made.pool.chunks| >= 1
  {
    var key := AllocKey(size);
    if key != 0 && key in pools then
      var r := Alloc(pools[key], m);
      VarResult(pools[key := r.pool], r.block)
    else if made.Nothing? then VarResult(pools, NULL)
    else
      var r := Alloc(made.pool, NULL);
      VarResult(pools[key := r.pool], r.block)
  }

  /** var_mempool_free finds a pool under exactly these sizes, and returns -1 for others. */
  predicate Finds(pools: Pools, size: U32) { size != 0 && size in pools }

  function VarFree(pools: Pools, data: Addr, size: U32): Pools {
    if Finds(pools, size) then pools[size := Free(pools[size], data)] else pools
  }

  // ---------------------------------------------------------------- invariant

  predicate Separate(x: Addr, n: nat, y: Addr, m: nat) { x + n <= y || y + m <= x }

  ghost predicate ChunksSeparate(p: Pool, q: Pool) {
    forall i, j :: 0 <= i < |p.chunks| && 0 <= j < |q.chunks| ==>
      Separate(p.chunks[i], p.allocSize, q.chunks[j], q.allocSize)
  }

  /** Every pool is sound, cuts blocks no smaller than its key, and shares no memory with another. */
  ghost predicate PoolsInv(pools: Pools) {
    && (forall k :: k in pools ==> PoolInv(pools[k]) && pools[k].itemSize >= k)
    && (forall k, l :: k in pools && l in pools && k != l ==> ChunksSeparate(pools[k], pools[l]))
  }

  /** What malloc promises of `n` bytes: they are apart from every chunk of every pool. */
  ghost predicate Clear(pools: Pools, m: Addr, n: nat) {
    m != NULL ==> m > NULL && forall k, j :: k in pools && 0 <= j < |pools[k].chunks| ==>
      Separate(m, n, pools[k].chunks[j], pools[k].allocSize)
  }

  /** Replacing one pool by one whose chunks are old ones or clear of the rest. */
  lemma Replaced(pools: Pools, key: nat, p: Pool)
    requires PoolsInv(pools) && PoolInv(p) && p.itemSize >= key
    requires forall k :: k in pools && k != key ==> ChunksSeparate(p, pools[k])
    ensures PoolsInv(pools[key := p])
  {
    hide PoolInv;
    var pools' := pools[key := p];
    forall k, l | k in pools' && l in pools' && k != l
      ensures ChunksSeparate(pools'[k], pools'[l])
    {
      if l == key {
        assert ChunksSeparate(p, pools[k]);
      } else if k != key {
        assert ChunksSeparate(pools[k], pools[l]);
      }
    }
  }

  /** Where the memory an allocation gets may lie, and what a new pool looks like. */
  ghost predicate AllocOk(pools: Pools, size: U32, made: Made, m: Addr) {
    var key := AllocKey(size);
    && (key in pools && NeedsChunk(pools[key]) ==> Clear(pools, m, pools[key].allocSize))
    && (made.Made? ==>
          && Fresh(made.pool) && made.pool.itemSize >= key
          && (key !in pools ==> Clear(pools, made.pool.chunks[0], made.pool.allocSize)))
  }

  /** Allocation of a positive size: the pool of its key gains a block it had not handed out;
      the pools of other keys stay. Null comes back exactly when a malloc failed. */
  lemma VarAllocCorrect(pools: Pools, size: U32, made: Made, m: Addr)
    requires PoolsInv(pools) && size > 0 && AllocOk(pools, size, made, m)
    ensures AllocKey(size) in pools ==> |pools[AllocKey(size)].chunks| >= 1
    ensures var key, r := AllocKey(size), VarAlloc(pools, size, made, m);
      && PoolsInv(r.pools)
      && (r.block == NULL <==> if key in pools then NeedsChunk(pools[key]) && m == NULL else made.Nothing?)
      && (r.block == NULL ==> r.pools == pools)
      && (r.block != NULL ==>
            && r.pools.Keys == pools.Keys + {key}
            && r.pools[key].live == (if key in pools then pools[key].live else {}) + {r.block}
            && (key in pools ==> r.block !in pools[key].live)
            && forall k :: k in pools && k != key ==> r.pools[k] == pools[k])
  {
    hide PoolInv, ChunksSeparate, Clear, NeedsChunk, AllocKey;
    var key := AllocKey(size);
    KeyPositive(size);
    if key in pools {
      FromPool(pools, key, m);
    } else if made.Made? {
      FromNewPool(pools, key, made.pool);
    }
  }

  lemma FromPool(pools: Pools, key: nat, m: Addr)
    requires PoolsInv(pools) && key in pools
    requires NeedsChunk(pools[key]) ==> Clear(pools, m, pools[key].allocSize)
    ensures |pools[key].chunks| >= 1
    ensures var p := pools[key]; var r := Alloc(p, m);
      && PoolsInv(pools[key := r.pool])
      && (r.block == NULL <==> NeedsChunk(p) && m == NULL)
      && (r.block == NULL ==> pools[key := r.pool] == pools)
      && (r.block != NULL ==> r.pool.live == p.live + {r.block} && r.block !in p.live)
  {
    var p := pools[key];
    assert |p.chunks| >= 1;
    MallocFromClear(pools, key, m);
    GrowthSeparate(pools, key, m);
    hide PoolInv, ChunksSeparate, Clear, NeedsChunk;
    AllocCorrect(p, m);
    Replaced(pools, key, Alloc(p, m).pool);
  }

  lemma FromNewPool(pools: Pools, key: nat, p: Pool)
    requires PoolsInv(pools) && key !in pools && Fresh(p) && p.itemSize >= key
    requires Clear(pools, p.chunks[0], p.allocSize)
    ensures var r := Alloc(p, NULL);
      PoolsInv(pools[key := r.pool]) && r.block != NULL && r.pool.live == {r.block}
  {
    FreshInv(p);
    hide PoolInv;
    AllocCorrect(p, NULL);
    var p' := Alloc(p, NULL).pool;
    forall k | k in pools && k != key
      ensures ChunksSeparate(p', pools[k])
    {
      assert p'.chunks == [p.chunks[0]];
    }
    Replaced(pools, key, p');
  }

  lemma MallocFromClear(pools: Pools, key: nat, m: Addr)
    requires PoolsInv(pools) && key in pools
    requires NeedsChunk(pools[key]) ==> Clear(pools, m, pools[key].allocSize)
    ensures NeedsChunk(pools[key]) ==> MallocOk(pools[key], m)
  {
    var p := pools[key];
    if NeedsChunk(p) && m != NULL {
      forall i | 0 <= i < |p.chunks|
        ensures Apart(m, p.chunks[i], p.allocSize)
      {
        assert Separate(m, p.allocSize, pools[key].chunks[i], pools[key].allocSize);
      }
    }
  }

  lemma GrowthSeparate(pools: Pools, key: nat, m: Addr)
    requires PoolsInv(pools) && key in pools && |pools[key].chunks| >= 1
    requires NeedsChunk(pools[key]) ==> Clear(pools, m, pools[key].allocSize)
    ensures forall k :: k in pools && k != key ==> ChunksSeparate(Alloc(pools[key], m).pool, pools[k])
  {
    hide PoolInv;
    var p, p' := pools[key], Alloc(pools[key], m).pool;
    forall k | k in pools && k != key
      ensures ChunksSeparate(p', pools[k])
    {
      var q := pools[k];
      assert ChunksSeparate(p, q);
      forall i, j | 0 <= i < |p'.chunks| && 0 <= j < |q.chunks|
        ensures Separate(p'.chunks[i], p'.allocSize, q.chunks[j], q.allocSize)
      {
        if p'.chunks == p.chunks {
          assert p'.chunks[i] == p.chunks[i];
        } else if i > 0 {
          assert p'.chunks[i] == p.chunks[i - 1];
        } else {
          assert p'.chunks[i] == m;
        }
      }
    }
  }

  /** Blocks of different pools do not overlap. */
  lemma PoolsDisjoint(pools: Pools, k: nat, l: nat, a: Addr, b: Addr)
    requires PoolsInv(pools) && k in pools && l in pools
    requires a in pools[k].live && b in pools[l].live && (k == l ==> a != b)
    ensures Separate(a, pools[k].itemSize, b, pools[l].itemSize)
  {
    hide PoolInv;
    var p, q := pools[k], pools[l];
    if k == l {
      BlocksDisjoint(p, a, b);
    } else {
      BlockInsideChunk(p, a);
      BlockInsideChunk(q, b);
      var i :| 0 <= i < |p.chunks| && p.chunks[i] + WORD_SIZE <= a && a + p.itemSize <= p.chunks[i] + p.allocSize;
      var j :| 0 <= j < |q.chunks| && q.chunks[j] + WORD_SIZE <= b && b + q.itemSize <= q.chunks[j] + q.allocSize;
      assert ChunksSeparate(p, q);
      assert Separate(p.chunks[i], p.allocSize, q.chunks[j], q.allocSize);
    }
  }

  // --------------------------------------------------------------------- runs

  /** A block out on loan and the size it was asked for under. */
  datatype Loan = Loan(block: Addr, size: U32)

  datatype State = State(pools: Pools, loans: set<Loan>)

  datatype Request = TakeBlock(size: U32, made: Made, m: Addr) | ReturnBlock(block: Addr, size: U32)

  /** Positive sizes; what is freed is on loan under the size given, which is plain, or no
      pool is found. */
  ghost predicate Legal(s: State, op: Request) {
    match op
    case TakeBlock(size, made, m) => size > 0 && AllocOk(s.pools, size, made, m)
    case ReturnBlock(b, size) => Finds(s.pools, size) ==> Loan(b, size) in s.loans && Plain(size)
  }

  function Step(s: State, op: Request): State
    requires op.TakeBlock? && AllocKey(op.size) in s.pools ==> |s.pools[AllocKey(op.size)].chunks| >= 1
    requires op.TakeBlock? && op.made.Made? ==> |op.made.pool.chunks| >= 1
  {
    match op
    case TakeBlock(size, made, m) =>
      var r := VarAlloc(s.pools, size, made, m);
      State(r.pools, if r.block == NULL then s.loans else s.loans + {Loan(r.block, size)})
    case ReturnBlock(b, size) =>
      State(VarFree(s.pools, b, size), if Finds(s.pools, size) then s.loans - {Loan(b, size)} else s.loans)
  }

  /** Each loan is a live block of the pool of its size's key, no two are one block, and every
      live block is some loan. */
  ghost predicate LoansInv(s: State) {
    && (forall x :: x in s.loans ==> Owned(s.pools, x) && x.size > 0)
    && (forall x, y :: x in s.loans && y in s.loans && x != y && AllocKey(x.size) == AllocKey(y.size) ==>
          x.block != y.block)
    && (forall k, a :: k in s.pools && a in s.pools[k].live ==> Lent(s.loans, k, a))
  }

  ghost predicate Owned(pools: Pools, x: Loan) {
    AllocKey(x.size) in pools && x.block in pools[AllocKey(x.size)].live
  }

  ghost predicate Lent(loans: set<Loan>, k: nat, a: Addr) {
    exists x :: x in loans && AllocKey(x.size) == k && x.block == a
  }

  ghost predicate Inv(s: State) { PoolsInv(s.pools) && LoansInv(s) }

  ghost predicate IsRun(run: seq<State>, ops: seq<Request>) {
    && |run| == |ops| + 1
    && run[0] == State(map[], {})
    && forall i :: 0 <= i < |ops| ==>
         NonEmpty(run[i].pools) && Legal(run[i], ops[i]) && run[i + 1] == Step(run[i], ops[i])
  }

  lemma AllocKeepsLoans(s: State, size: U32, made: Made, m: Addr)
    requires Inv(s) && Legal(s, TakeBlock(size, made, m)) && NonEmpty(s.pools)
    ensures Inv(Step(s, TakeBlock(size, made, m)))
  {
    hide PoolsInv, VarAlloc;
    var key, t, r := AllocKey(size), Step(s, TakeBlock(size, made, m)), VarAlloc(s.pools, size, made, m);
    VarAllocCorrect(s.pools, size, made, m);
    if r.block != NULL {
      var loan := Loan(r.block, size);
      forall k, a | k in t.pools && a in t.pools[k].live
        ensures Lent(t.loans, k, a)
      {
        if k == key && a == r.block {
          assert loan in t.loans;
        } else {
          assert Lent(s.loans, k, a);
          var x :| x in s.loans && AllocKey(x.size) == k && x.block == a;
          assert x in t.loans;
        }
      }
      forall x | x in s.loans
        ensures Owned(t.pools, x) && (AllocKey(x.size) == key ==> x.block != r.block)
      {
        assert Owned(s.pools, x);
      }
    }
  }

  lemma FreeKeepsLoans(s: State, b: Addr, size: U32)
    requires Inv(s) && Legal(s, ReturnBlock(b, size))
    ensures Inv(Step(s, ReturnBlock(b, size)))
  {
    hide PoolsInv, AllocKey, LoansInv, Free;
    if Finds(s.pools, size) {
      var gone := Loan(b, size);
      FreeKeyIff(size);
      assert Owned(s.pools, gone) by { LoanOwned(s, gone); }
      FreeKeepsPools(s.pools, b, size);
      FewerLoans(s, gone, Free(s.pools[size], b));
    }
  }

  lemma LoanOwned(s: State, x: Loan)
    requires LoansInv(s) && x in s.loans
    ensures Owned(s.pools, x)
  {
  }

  lemma FewerLoans(s: State, gone: Loan, p: Pool)
    requires LoansInv(s) && gone in s.loans && AllocKey(gone.size) == gone.size
    requires gone.size in s.pools && p.live == s.pools[gone.size].live - {gone.block}
    ensures LoansInv(State(s.pools[gone.size := p], s.loans - {gone}))
  {
    hide AllocKey;
    var pools, loans := s.pools[gone.size := p], s.loans - {gone};
    forall k, a | k in pools && a in pools[k].live
      ensures Lent(loans, k, a)
    {
      assert Lent(s.loans, k, a);
      var x :| x in s.loans && AllocKey(x.size) == k && x.block == a;
      assert x in loans;
    }
    forall x | x in loans
      ensures Owned(pools, x)
    {
      assert Owned(s.pools, x);
      assert AllocKey(x.size) == gone.size ==> x.block != gone.block;
    }
  }

  lemma FreeKeepsPools(pools: Pools, b: Addr, size: U32)
    requires PoolsInv(pools) && size in pools && b in pools[size].live
    ensures PoolsInv(pools[size := Free(pools[size], b)])
    ensures Free(pools[size], b).live == pools[size].live - {b}
  {
    FreeCorrect(pools[size], b);
    forall k | k in pools && k != size
      ensures ChunksSeparate(Free(pools[size], b), pools[k])
    {
      assert ChunksSeparate(pools[size], pools[k]);
    }
    Replaced(pools, size, Free(pools[size], b));
  }

  lemma {:induction false} EveryState(run: seq<State>, ops: seq<Request>, k: nat)
    requires IsRun(run, ops) && k <= |ops|
    ensures Inv(run[k])
  {
    if k > 0 {
      EveryState(run, ops, k - 1);
      assert run[k - 1 + 1] == Step(run[k - 1], ops[k - 1]);
      match ops[k - 1]
      case TakeBlock(size, made, m) => AllocKeepsLoans(run[k - 1], size, made, m);
      case ReturnBlock(b, size) => FreeKeepsLoans(run[k - 1], b, size);
    }
  }

  /** In every run each outstanding block of a plain size is live in the pool keyed by that
      size, whose blocks are that large, and freeing it there is that pool's free and touches
      no other pool. */
  lemma OutstandingReachesPool(run: seq<State>, ops: seq<Request>, k: nat, x: Loan)
    requires IsRun(run, ops) && k <= |ops| && x in run[k].loans && Plain(x.size)
    ensures var pools := run[k].pools;
      && Finds(pools, x.size)
      && x.block in pools[x.size].live
      && pools[x.size].itemSize >= x.size
      && VarFree(pools, x.block, x.size) == pools[x.size := Free(pools[x.size], x.block)]
      && Legal(run[k], ReturnBlock(x.block, x.size))
  {
    EveryState(run, ops, k);
    FreeKeyIff(x.size);
    assert Owned(run[k].pools, x);
  }

  /** No two outstanding blocks overlap, whatever sizes they were asked for under. */
  lemma OutstandingDisjoint(run: seq<State>, ops: seq<Request>, k: nat, x: Loan, y: Loan)
    requires IsRun(run, ops) && k <= |ops| && x in run[k].loans && y in run[k].loans && x != y
    ensures Owned(run[k].pools, x) && Owned(run[k].pools, y)
    ensures var p, q := run[k].pools[AllocKey(x.size)], run[k].pools[AllocKey(y.size)];
      x.block != y.block && Separate(x.block, p.itemSize, y.block, q.itemSize)
  {
    EveryState(run, ops, k);
    assert Owned(run[k].pools, x) && Owned(run[k].pools, y);
    PoolsDisjoint(run[k].pools, AllocKey(x.size), AllocKey(y.size), x.block, y.block);
  }

  /** Freeing an outstanding block under its size gives it back to its pool exactly when the
      size is plain; for any other size that pool never sees it again. */
  lemma FreedToOwnerIff(run: seq<State>, ops: seq<Request>, k: nat, x: Loan)
    requires IsRun(run, ops) && k <= |ops| && x in run[k].loans
    ensures var key, pools := AllocKey(x.size), run[k].pools; var after := VarFree(pools, x.block, x.size);
      && key in pools && key in after
      && (if Plain(x.size) then after[key] == Free(pools[key], x.block) else after[key] == pools[key])
      && (x.block !in after[key].live <==> Plain(x.size))
  {
    EveryState(run, ops, k);
    FreeKeyIff(x.size);
    assert Owned(run[k].pools, x);
  }
}
