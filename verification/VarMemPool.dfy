/** The size-keyed table of block pools in src/utils/mempool.cpp. */
module VarMemPools {
  import opened Arithmetic
  import opened Memory
  import opened Sequences
  import opened BlockPool
  import opened MemPools
  import opened SizedPools

  datatype Entry = Entry(itemSize: nat, pool: MemPool)

  /** A slot of the table: null, or a list head with its chain, newest entry first. */
  datatype Bucket = Absent | Chain(entries: seq<Entry>)

  function Entries(b: Bucket): seq<Entry> {
    if b.Absent? then [] else b.entries
  }

  /** Chain `b` of `size` chains is the part of `model` whose sizes fall there, each once. */
  ghost predicate Holds(entries: seq<Entry>, b: nat, size: nat, model: map<nat, MemPool>)
    requires size > 0
  {
    && (forall i :: 0 <= i < |entries| ==>
          && entries[i].itemSize % size == b
          && entries[i].itemSize in model && model[entries[i].itemSize] == entries[i].pool)
    && (forall i, j :: 0 <= i < j < |entries| ==> entries[i].itemSize != entries[j].itemSize)
    && (forall s :: s in model && s % size == b ==> HasEntry(entries, s))
  }

  ghost predicate HasEntry(entries: seq<Entry>, s: nat) {
    exists i :: 0 <= i < |entries| && entries[i].itemSize == s
  }

  /** What the mallocs of a call return: the header and the first chunk of a new pool, and
      the further chunk of a full one. */
  datatype Mallocs = Mallocs(header: bool, chunk: Addr, more: Addr)

  /** mempool_create(key, multiple). */
  function Creates(key: nat, multiple: nat, page: nat, m: Mallocs): Made
    requires page > 0
  {
    if !m.header || m.chunk == NULL then Nothing
    else
      var item := RoundItem(key);
      Made.Made(NewPool(item, RoundAlloc(item, multiple, page), m.chunk))
  }

  /** It is what the value-level runs take a new pool to be. */
  lemma CreatesFresh(key: nat, multiple: nat, page: nat, m: Mallocs)
    requires page > 0 && m.chunk >= NULL
    ensures var made := Creates(key, multiple, page, m);
      && (made.Nothing? <==> !m.header || m.chunk == NULL)
      && (made.Made? ==>
            && Fresh(made.pool) && made.pool.chunks == [m.chunk]
            && made.pool.itemSize == RoundItem(key) >= key && made.pool.allocSize >= multiple
            && made.pool.perChunk >= DEFAULT_ALLOC_SIZE)
  {
    PerChunkFits(RoundItem(key), RoundAlloc(RoundItem(key), multiple, page));
  }

  class VarMemPool {
    const tableSize: nat
    const multiple: nat
    const table: array<Bucket>
    /** The table as a map from block size to pool. */
    ghost var model: map<nat, MemPool>

    /** var_mempool_create, for a table size and a multiple that are not zero. */
    constructor (tableSize: nat, multiple: nat)
      requires tableSize > 0 && multiple > 0
      ensures Valid() && model == map[] && fresh(table)
      ensures this.tableSize == tableSize && this.multiple == multiple
    {
      this.tableSize, this.multiple := tableSize, multiple;
      table := new Bucket[tableSize](_ => Absent);
      model := map[];
    }

    ghost predicate Valid()
      reads this, table
    {
      && tableSize > 0 && table.Length == tableSize
      && forall b :: 0 <= b < tableSize ==> Holds(Entries(table[b]), b, tableSize, model)
    }

    /** var_mempool_get: size zero is never found. */
    method Get(itemSize: nat) returns (p: MemPool?)
      requires Valid()
      ensures p == if itemSize != 0 && itemSize in model then model[itemSize] else null
    {
      p := null;
      if itemSize == 0 { return; }
      var b := itemSize % tableSize;
      ghost var all := Entries(table[b]);
      assert Holds(all, b, tableSize, model);
      if table[b].Chain? {
        var entries := table[b].entries;
        for i := 0 to |entries|
          invariant forall j :: 0 <= j < i ==> entries[j].itemSize != itemSize
        {
          if entries[i].itemSize == itemSize {
            return entries[i].pool;
          }
        }
      }
      assert itemSize in model ==> HasEntry(all, itemSize);
    }

    /** var_mempool_put: an entry of that size gets the new pool, else one is added. */
    method Put(itemSize: nat, subPool: MemPool)
      requires Valid()
      modifies this, table
      ensures Valid() && model == old(model)[itemSize := subPool]
    {
      var b := itemSize % tableSize;
      ghost var before := Entries(table[b]);
      assert Holds(before, b, tableSize, model);
      OtherChains(itemSize, subPool);
      if table[b].Chain? {
        var entries := table[b].entries;
        for i := 0 to |entries|
          invariant forall j :: 0 <= j < i ==> entries[j].itemSize != itemSize
        {
          if entries[i].itemSize == itemSize {
            ReplacedEntry(entries, b, tableSize, model, i, subPool);
            table[b] := Chain(entries[i := Entry(itemSize, subPool)]);
            model := model[itemSize := subPool];
            return;
          }
        }
      } else {
        table[b] := Chain([]);
      }
      AddedEntry(before, b, tableSize, model, itemSize, subPool);
      table[b] := Chain([Entry(itemSize, subPool)] + table[b].entries);
      model := model[itemSize := subPool];
    }

    lemma OtherChains(itemSize: nat, subPool: MemPool)
      requires Valid()
      ensures forall b :: 0 <= b < tableSize && b != itemSize % tableSize ==>
        Holds(Entries(table[b]), b, tableSize, model[itemSize := subPool])
    {
      forall b | 0 <= b < tableSize && b != itemSize % tableSize
        ensures Holds(Entries(table[b]), b, tableSize, model[itemSize := subPool])
      {
        assert Holds(Entries(table[b]), b, tableSize, model);
      }
    }

    ghost function Pools(): set<MemPool>
      reads this
    {
      model.Values
    }

    /** Every entry's pool is sound, cuts blocks for the entry's size, and is nobody else's. */
    ghost predicate Sound()
      reads this, table, Pools()
    {
      && Valid()
      && (forall s :: s in model ==> model[s].Valid() && model[s].itemSize == RoundItem(s))
      && (forall s, t :: s in model && t in model && s != t ==> model[s] != model[t])
    }

    /** The table as a map from block size to what the pool for it holds. */
    ghost function Contents(): SizedPools.Pools
      reads this, Pools()
    {
      map s | s in model :: model[s].model
    }

    lemma PoolsHaveChunks()
      requires Sound()
      ensures Valid() && forall s :: s in model ==> |model[s].model.chunks| >= 1
    {
    }

    /** var_mempool_alloc; `m` is what the mallocs of the call return. */
    method Alloc(size: U32, page: nat, m: Mallocs) returns (p: Addr)
      requires Sound() && page > 0 && m.chunk >= NULL
      requires AllocKey(size) in model && NeedsChunk(model[AllocKey(size)].model) ==>
        MallocOk(model[AllocKey(size)].model, m.more)
      modifies this, table, Pools()
      ensures Sound()
      ensures AllocKey(size) in old(model) ==> |old(Contents())[AllocKey(size)].chunks| >= 1
      ensures VarResult(Contents(), p) == VarAlloc(old(Contents()), size, Creates(AllocKey(size), multiple, page, m), m.more)
      ensures size > 0 ==> (p == NULL <==>
        if AllocKey(size) in old(model) then NeedsChunk(old(Contents())[AllocKey(size)]) && m.more == NULL
        else !m.header || m.chunk == NULL)
      ensures forall s :: s in old(model) && (s != AllocKey(size) || s != 0) ==> s in model && model[s] == old(model[s])
    {
      hide PoolInv, MemPool.Valid, Holds, AllocKey, Creates, BlockPool.Alloc, NeedsChunk, MallocOk, Fresh, RoundItem, Sound;
      var key := AllocKey(size);
      PoolsHaveChunks();
      CreatesFresh(key, multiple, page, m);
      KeyPositive(size);
      var pool := Get(key);
      ghost var before := Contents();
      assert key in before <==> key in model;
      if pool != null {
        assert before[key] == pool.model;
        p := TakeFrom(pool, key, m.more);
        assert VarResult(Contents(), p) == VarAlloc(before, size, Creates(key, multiple, page, m), m.more);
        return;
      }
      var created := AddPool(key, page, m);
      if created == null {
        assert VarAlloc(before, size, Creates(key, multiple, page, m), m.more) == VarResult(before, NULL);
        return NULL;
      }
      p := TakeFrom(created, key, NULL);
      assert Contents() == before[key := created.model];
    }

    /** A new pool under `key`, if the mallocs for it succeed. */
    method AddPool(key: nat, page: nat, m: Mallocs) returns (created: MemPool?)
      requires Sound() && page > 0 && m.chunk >= NULL
      modifies this, table
      ensures created == null ==> unchanged(this) && Sound() && Contents() == old(Contents())
      ensures created != null ==> Sound() && fresh(created) && !NeedsChunk(created.model)
      ensures created != null ==> model == old(model)[key := created]
      ensures Creates(key, multiple, page, m) == if created == null then Nothing else Made.Made(created.model)
      ensures created != null ==> Contents() == old(Contents())[key := created.model]
    {
      hide PoolInv, MemPool.Valid, Holds, NewPool, RoundAlloc, RoundItem;
      created := MemPool.Create(key, multiple, page, m.header, m.chunk);
      if created == null { return; }
      Put(key, created);
      FreshNeedsNothing(created.model);
    }

    /** mempool_alloc on the pool for `key`; the other pools are left alone. */
    method TakeFrom(pool: MemPool, ghost key: nat, m: Addr) returns (p: Addr)
      requires Sound() && key in model && pool == model[key]
      requires NeedsChunk(pool.model) ==> MallocOk(pool.model, m)
      modifies pool
      ensures Sound() && |old(pool.model).chunks| >= 1
      ensures AllocResult(pool.model, p) == BlockPool.Alloc(old(pool.model), m)
      ensures p == NULL <==> NeedsChunk(old(pool.model)) && m == NULL
      ensures Contents() == old(Contents())[key := pool.model]
    {
      hide PoolInv, Holds;
      HasChunk(pool);
      AllocCorrect(pool.model, m);
      p := pool.Alloc(m);
    }

    /** var_mempool_free: -1 when no pool is keyed by the size given. */
    method Free(data: Addr, size: U32) returns (r: int)
      requires Sound()
      requires size != 0 && size in model ==> data in model[size].model.live
      modifies Pools()
      ensures Sound() && model == old(model)
      ensures r == if Finds(old(Contents()), size) then 0 else -1
      ensures Contents() == VarFree(old(Contents()), data, size)
    {
      hide PoolInv, MemPool.Valid, Holds, BlockPool.Free;
      var pool := Get(size);
      if pool == null { return -1; }
      GiveBack(pool, size, data);
      r := 0;
    }

    /** mempool_free on the pool for `key`; the other pools are left alone. */
    method GiveBack(pool: MemPool, ghost key: nat, data: Addr)
      requires Sound() && key in model && pool == model[key] && data in pool.model.live
      modifies pool
      ensures Sound()
      ensures Contents() == old(Contents())[key := BlockPool.Free(old(pool.model), data)]
    {
      hide PoolInv, Holds;
      pool.Free(data);
    }
  }

  lemma HasChunk(p: MemPool)
    requires p.Valid()
    ensures |p.model.chunks| >= 1
  {
  }

  lemma FreshNeedsNothing(p: Pool)
    requires Fresh(p)
    ensures !NeedsChunk(p) && PoolInv(p)
  {
    FreshInv(p);
  }

  lemma ReplacedEntry(entries: seq<Entry>, b: nat, size: nat, model: map<nat, MemPool>, i: nat, p: MemPool)
    requires size > 0 && i < |entries| && Holds(entries, b, size, model)
    ensures Holds(entries[i := Entry(entries[i].itemSize, p)], b, size, model[entries[i].itemSize := p])
  {
    var s := entries[i].itemSize;
    var entries' := entries[i := Entry(s, p)];
    forall t | t in model[s := p] && t % size == b
      ensures HasEntry(entries', t)
    {
      assert t in model && HasEntry(entries, t);
      var j :| 0 <= j < |entries| && entries[j].itemSize == t;
      assert entries'[j].itemSize == t;
    }
  }

  lemma AddedEntry(entries: seq<Entry>, b: nat, size: nat, model: map<nat, MemPool>, s: nat, p: MemPool)
    requires size > 0 && s % size == b && Holds(entries, b, size, model)
    requires forall i :: 0 <= i < |entries| ==> entries[i].itemSize != s
    ensures Holds([Entry(s, p)] + entries, b, size, model[s := p])
  {
    var entries' := [Entry(s, p)] + entries;
    forall t | t in model[s := p] && t % size == b
      ensures HasEntry(entries', t)
    {
      if t == s {
        assert entries'[0].itemSize == t;
      } else {
        assert HasEntry(entries, t);
        var j :| 0 <= j < |entries| && entries[j].itemSize == t;
        assert entries'[j + 1].itemSize == t;
      }
    }
  }
}
