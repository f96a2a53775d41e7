/** src/utils/mempool.cpp over explicit link words. `mem` maps an address to the pointer
    stored in the word there: the first word of a chunk holds the next older chunk, the
    first word of a returned block holds the block returned before it. */
module MemPools {
  import opened Arithmetic
  import opened Memory
  import opened Sequences
  import opened BlockPool

  /** Element `i` of a null-terminated list. */
  function Nth(s: seq<Addr>, i: nat): Addr {
    if i < |s| then s[i] else NULL
  }

  /** `s` is the list reached from `head` by following link words until null. */
  ghost predicate Chain(mem: map<Addr, Addr>, head: Addr, s: seq<Addr>) {
    && head == Nth(s, 0)
    && forall i :: 0 <= i < |s| ==>
         s[i] in mem && mem[s[i]] == Nth(s, i + 1)
  }

  lemma ChainPush(mem: map<Addr, Addr>, head: Addr, s: seq<Addr>, a: Addr)
    requires Chain(mem, head, s) && a !in s
    ensures Chain(mem[a := head], a, [a] + s)
  {
    var t, mem' := [a] + s, mem[a := head];
    forall i | 0 <= i < |t|
      ensures t[i] in mem' && mem'[t[i]] == Nth(t, i + 1)
    {
      if i > 0 { assert t[i] == s[i - 1] && Nth(t, i + 1) == Nth(s, i); }
    }
  }

  lemma ChainPop(mem: map<Addr, Addr>, head: Addr, s: seq<Addr>)
    requires Chain(mem, head, s) && s != [] && NoDup(s)
    ensures Chain(mem, mem[head], s[1..])
    ensures Chain(mem - {head}, mem[head], s[1..])
  {
    var t := s[1..];
    forall i | 0 <= i < |t|
      ensures t[i] in mem && t[i] != head && mem[t[i]] == Nth(t, i + 1)
    {
      assert t[i] == s[i + 1] && Nth(t, i + 1) == Nth(s, i + 2);
    }
  }

  /** The block size mempool_create settles on: the request rounded up to whole words. */
  function RoundItem(requested: nat): (r: nat)
    ensures r >= requested && r >= WORD_SIZE && r % WORD_SIZE == 0
    ensures r < requested + WORD_SIZE || r == WORD_SIZE
  {
    var n := if requested < WORD_SIZE then WORD_SIZE else requested;
    if n % WORD_SIZE != 0 then n + WORD_SIZE - n % WORD_SIZE else n
  }

  /** The chunk size mempool_create settles on: the least number of whole pages that holds
      what was asked, a hundred blocks and the link word, and a hundred pages. */
  function RoundAlloc(item: nat, requested: nat, page: nat): (r: nat)
    requires page > 0
    ensures r >= requested
    ensures r >= item * DEFAULT_ALLOC_SIZE + WORD_SIZE
    ensures r >= DEFAULT_ALLOC_SIZE * page
    ensures r % page == 0
    ensures r < page + Max(requested, Max(item * DEFAULT_ALLOC_SIZE + WORD_SIZE, DEFAULT_ALLOC_SIZE * page))
  {
    var floor := item * DEFAULT_ALLOC_SIZE + WORD_SIZE;
    var a := if requested <= floor then floor else requested;
    var b := if a <= DEFAULT_ALLOC_SIZE * page then DEFAULT_ALLOC_SIZE * page else a;
    RoundedUp(b, page);
    if b % page != 0 then b + page - b % page else b
  }

  /** No smaller number of whole pages would do. */
  lemma RoundAllocLeast(item: nat, requested: nat, page: nat, n: nat)
    requires page > 0 && n % page == 0
    requires n >= requested && n >= item * DEFAULT_ALLOC_SIZE + WORD_SIZE && n >= DEFAULT_ALLOC_SIZE * page
    ensures RoundAlloc(item, requested, page) <= n
  {
    hide RoundAlloc;
    var r := RoundAlloc(item, requested, page);
    if r > n { MultiplesApart(page, n, r); }
  }

  lemma RoundedUp(b: nat, page: nat)
    requires page > 0
    ensures (b + page - b % page) % page == 0
  {
    var q := b / page;
    assert b == page * q + b % page;
    assert b + page - b % page == page * (q + 1);
    MultipleMod(page, q + 1);
  }

  lemma MultipleMod(page: nat, q: nat)
    requires page > 0
    ensures (page * q) % page == 0
  {
    DivMod(page * q, page);
    DivBetween(page * q, page, q);
  }

  /** A pool straight from mempool_create. */
  function NewPool(item: nat, alloc: nat, chunk: Addr): Pool
    requires item > 0 && alloc >= WORD_SIZE
  {
    Pool(item, alloc, (alloc - WORD_SIZE) / item, [chunk], 0, [], {})
  }

  /** As many blocks as fit after the link word, and no fewer than a hundred. */
  lemma PerChunkFits(item: nat, alloc: nat)
    requires item >= WORD_SIZE && alloc >= item * DEFAULT_ALLOC_SIZE + WORD_SIZE
    ensures var t := (alloc - WORD_SIZE) / item;
      t >= DEFAULT_ALLOC_SIZE && WORD_SIZE + item * t <= alloc < WORD_SIZE + item * (t + 1)
  {
    var t := (alloc - WORD_SIZE) / item;
    DivMod(alloc - WORD_SIZE, item);
    if t < DEFAULT_ALLOC_SIZE { MulStep(item, t, DEFAULT_ALLOC_SIZE); }
  }

  class MemPool {
    var itemSize: nat
    var allocSize: nat
    var totalAllocItem: nat
    var reusePtr: Addr
    var allocPtr: Addr
    var allocPoolPos: nat
    var refCount: int
    var mem: map<Addr, Addr>
    ghost var model: Pool

    /** The word-level facts `Valid` adds to the model. */
    ghost predicate Represents()
      reads this
    {
      && itemSize == model.itemSize && allocSize == model.allocSize
      && totalAllocItem == model.perChunk && allocPoolPos == model.pos
      && refCount == |model.live|
      && Chain(mem, allocPtr, model.chunks)
      && Chain(mem, reusePtr, model.free)
    }

    ghost predicate Valid()
      reads this
    {
      PoolInv(model) && Represents()
    }

    constructor (item: nat, alloc: nat, chunk: Addr)
      requires item >= WORD_SIZE && item % WORD_SIZE == 0 && chunk > NULL
      requires alloc >= item * DEFAULT_ALLOC_SIZE + WORD_SIZE
      ensures Valid() && Fresh(model)
      ensures itemSize == item && allocSize == alloc && totalAllocItem >= DEFAULT_ALLOC_SIZE
      ensures alloc < WORD_SIZE + item * (totalAllocItem + 1)
      ensures model == NewPool(item, alloc, chunk)
    {
      PerChunkFits(item, alloc);
      var t := (alloc - WORD_SIZE) / item;
      itemSize, allocSize, totalAllocItem := item, alloc, t;
      reusePtr, allocPtr, allocPoolPos, refCount := NULL, chunk, 0, 0;
      mem := map[chunk := NULL];
      model := NewPool(item, alloc, chunk);
      new;
      FreshInv(model);
    }

    /** mempool_create; `chunk` is what the second malloc returned and `header` tells
        whether the first one succeeded. */
    static method Create(requestedItem: nat, requestedAlloc: nat, page: nat, header: bool, chunk: Addr)
      returns (p: MemPool?)
      requires page > 0 && chunk >= NULL
      ensures p == null <==> !header || chunk == NULL
      ensures p != null ==> fresh(p) && p.Valid() && Fresh(p.model)
      ensures p != null ==> p.itemSize == RoundItem(requestedItem)
      ensures p != null ==> p.allocSize == RoundAlloc(p.itemSize, requestedAlloc, page)
      ensures p != null ==> p.totalAllocItem >= DEFAULT_ALLOC_SIZE
      ensures p != null ==> p.model == NewPool(p.itemSize, p.allocSize, chunk)
    {
      if !header { return null; }
      var item := RoundItem(requestedItem);
      var alloc := RoundAlloc(item, requestedAlloc, page);
      if chunk == NULL { return null; }
      p := new MemPool(item, alloc, chunk);
    }

    /** The branch of mempool_alloc that pops the returned-block stack. */
    method PopReused() returns (p: Addr)
      requires Represents() && model.free != [] && NoDup(model.free) && model.free[0] !in model.live
      modifies this
      ensures Represents() && p == old(model.free[0]) && mem == old(mem)
      ensures model == old(model.(free := model.free[1..], live := model.live + {model.free[0]}))
    {
      ChainPop(mem, reusePtr, model.free);
      p := reusePtr;
      reusePtr := mem[p];
      refCount := refCount + 1;
      model := model.(free := model.free[1..], live := model.live + {model.free[0]});
    }

    /** The branch of mempool_alloc that cuts a slot, first adding a chunk if need be. */
    method CutSlot(m: Addr) returns (p: Addr)
      requires Represents() && model.free == [] && |model.chunks| >= 1
      requires NeedsChunk(model) ==> m !in model.chunks
      requires BlockPool.Alloc(model, m).block !in model.live
      modifies this
      ensures Represents()
      ensures AllocResult(model, p) == BlockPool.Alloc(old(model), m)
      ensures old(NeedsChunk(model)) && m == NULL ==> unchanged(this)
      ensures mem == if old(NeedsChunk(model)) && m != NULL then old(mem)[m := old(allocPtr)] else old(mem)
    {
      ghost var before := model;
      if allocPoolPos == totalAllocItem {
        if m == NULL { return NULL; }
        ChainPush(mem, allocPtr, model.chunks, m);
        mem := mem[m := allocPtr];
        allocPtr := m;
        allocPoolPos := 0;
      }
      p := allocPtr + WORD_SIZE + itemSize * allocPoolPos;
      allocPoolPos := allocPoolPos + 1;
      refCount := refCount + 1;
      model := BlockPool.Alloc(before, m).pool;
    }

    lemma ReuseNull()
      requires Valid()
      ensures reusePtr == NULL <==> model.free == []
    {
      forall i | 0 <= i < |model.free|
        ensures model.free[i] != NULL
      {
        BlockInsideChunk(model, model.free[i]);
      }
    }

    /** mempool_alloc; `m` is what malloc returns if a new chunk is needed. */
    method Alloc(m: Addr) returns (p: Addr)
      requires Valid()
      requires NeedsChunk(model) ==> MallocOk(model, m)
      modifies this
      ensures Valid()
      ensures AllocResult(model, p) == BlockPool.Alloc(old(model), m)
      ensures p == NULL ==> unchanged(this)
      ensures mem == if old(NeedsChunk(model)) && m != NULL then old(mem)[m := old(allocPtr)] else old(mem)
    {
      AllocCorrect(model, m);
      ReuseNull();
      if reusePtr != NULL {
        p := PopReused();
      } else {
        NullNotChunk(model, m);
        p := CutSlot(m);
      }
    }

    /** mempool_calloc: clears the first word of the block and no other word. */
    method Calloc(m: Addr) returns (p: Addr)
      requires Valid()
      requires NeedsChunk(model) ==> MallocOk(model, m)
      modifies this
      ensures Valid()
      ensures AllocResult(model, p) == BlockPool.Alloc(old(model), m)
      ensures var linked := if old(NeedsChunk(model)) && m != NULL then old(mem)[m := old(allocPtr)] else old(mem);
        mem == if p != NULL then linked[p := 0] else linked
    {
      AllocCorrect(model, m);
      p := Alloc(m);
      if p != NULL {
        StoreInLive(p, 0);
        mem := mem[p := 0];
      }
    }

    /** A write to the first word of a live block disturbs neither chain. */
    lemma StoreInLive(p: Addr, w: Addr)
      requires Valid() && p in model.live
      ensures Chain(mem[p := w], allocPtr, model.chunks)
      ensures Chain(mem[p := w], reusePtr, model.free)
    {
      BlockInsideChunk(model, p);
    }

    /** mempool_free. */
    method Free(data: Addr)
      requires Valid() && data in model.live
      modifies this
      ensures Valid()
      ensures model == BlockPool.Free(old(model), data)
      ensures mem == old(mem)[data := old(reusePtr)]
    {
      FreeCorrect(model, data);
      StoreInLive(data, reusePtr);
      ChainPush(mem, reusePtr, model.free, data);
      mem := mem[data := reusePtr];
      reusePtr := data;
      refCount := refCount - 1;
      model := BlockPool.Free(model, data);
    }

    /** mempool_destroy. `freed` logs the arguments of free() for chunks. A freed chunk's
        link word leaves `mem`, so no freed word is read. */
    method Destroy() returns (freed: seq<Addr>)
      requires Valid()
      modifies this
      ensures NoDup(freed)
      ensures old(model.live) == {} ==> freed == old(model.chunks) && allocPtr == NULL
      ensures old(model.live) != {} ==> freed == [] && unchanged(this)
    {
      freed := [];
      if refCount <= 0 {
        ghost var chunks := model.chunks;
        ChunksDistinct(model);
        assert chunks[..0] == [];
        while allocPtr != NULL
          invariant |freed| <= |chunks| && freed == chunks[..|freed|]
          invariant Chain(mem, allocPtr, chunks[|freed|..])
          invariant forall i :: 0 <= i < |chunks| ==> chunks[i] > NULL
          invariant NoDup(chunks)
          decreases |chunks| - |freed|
        {
          var p := allocPtr;
          ghost var rest := chunks[|freed|..];
          ChainPop(mem, allocPtr, rest);
          allocPtr := mem[allocPtr];
          freed := freed + [p];
          assert chunks[|freed|..] == rest[1..];
          mem := mem - {p};
        }
        assert chunks[|freed|..] == [];
      }
    }
  }

  lemma NullNotChunk(p: Pool, m: Addr)
    requires PoolInv(p) && p.free == []
    requires NeedsChunk(p) ==> MallocOk(p, m)
    ensures NeedsChunk(p) ==> m !in p.chunks
    ensures BlockPool.Alloc(p, m).block !in p.live
  {
    AllocCorrect(p, m);
    if NULL in p.live { BlockInsideChunk(p, NULL); }
    forall i | NeedsChunk(p) && m != NULL && 0 <= i < |p.chunks|
      ensures m != p.chunks[i]
    {
      assert Apart(m, p.chunks[i], p.allocSize);
    }
  }

  lemma ChunksDistinct(p: Pool)
    requires PoolInv(p)
    ensures NoDup(p.chunks)
  {
    assert p.allocSize > 0;
    forall i, j | 0 <= i < j < |p.chunks|
      ensures p.chunks[i] != p.chunks[j]
    {
      assert Apart(p.chunks[i], p.chunks[j], p.allocSize);
    }
  }
}
