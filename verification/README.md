# Request lifecycle, pools and codecs of the Thrift proxy

The proxy turns each client packet into a `ClientInfo` block from a memory pool. The block is
numbered with a wrapping 32-bit serial number and stored in a table, linked on the list of its
client descriptor and on a timer list, and handed to worker threads. It is reclaimed by timeout
or when the client goes away. This project models that bookkeeping over the hand-written data
structures it uses, and beside it the worker queue, the backend connection pool, the
configuration parser and the generated Thrift structs.

How the model is layered:

- `IntrusiveList`, `Threads` and `Links` hold the circular lists: nodes are heap objects whose
  `next` and `prev` are rewritten in place, and ghost sequences say what the rings contain. A
  node's `id` records the structure it is embedded in, which is what `list_entry` computes.
- `BlockPool` is the allocator as a value, with real addresses; `MemPools` is the allocator over
  explicit link words; `SizedPools` is the size-keyed allocator as a value and `VarMemPools` its hash table.
- `Lifecycle` is the request state machine as a value: pool, table, descriptor lists, timer.
  `Runs` proves what holds after every sequence of events. `ProxyServer.Proxy` is the program on
  linked memory: each method is proved to perform exactly one step of that machine. `Server`
  puts the two together: the callbacks driven by any sequence of events leave the memory in the
  state the run theorems speak of. Its loop stands for the framework that delivers the events.
- `Effects` says what each event changes in terms of the states before and after it alone, and
  the contracts of `ProcPkgCli` and of the callbacks repeat it.
- `ThreadPool` is a state machine whose steps are what one thread does while it holds the mutex.
- `ConnectionPools`, `ConfigParser` and `Thrift` pair an in-place implementation with a function
  on values and the laws of that function.

What comes from outside is a parameter: the result of each `malloc`, the time, whether a
connect succeeds, which sleeping thread `notify_one` picks, and the readable files.

Where something is not true without a condition, the condition is exact:

- Serial numbers wrap. In any run, on any clock, the four views agree in every state if and only
  if no packet is accepted while a live request is a whole multiple of 2^32 registrations old
  (`AlwaysAgreeIff`). When one is, the older request stays allocated and on the timer but is lost
  from the table. `CollisionReachable` gives such a run: one request stays while 2^32 - 1 others
  come and go. `EveryReachableState` and `ChunkBound` assume at most 2^32 packets in any timeout
  window; that run has one more. Disconnects and ticks are described as reclaiming the listed
  requests, which is what destroying them by number does up to the first such packet
  (`LinkDownByNumber`, `TickByNumber`), and not after it.
- The timer scan stops at the first event that has not expired. It takes exactly the expired
  events if and only if no unexpired event stands before an expired one (`TickExactIff`). A clock
  that never steps back guarantees that; `ClockStepBackMissesExpired` gives a run on a clock that
  does step back where an expired request survives a tick.
- `var_mempool_alloc` grows an odd size by itself. The block is large enough if and only if that
  sum does not wrap (`BlockLargeEnoughIff`), and `var_mempool_free` looks under the same key if
  and only if the size is a whole number of words or less than one (`FreeKeyIff`). In every run a
  free under the size asked for gives an outstanding block back to its pool exactly then
  (`FreedToOwnerIff`).
- The connection vector has `pool_size` elements, as `getConnection` assumes when it indexes it,
  if and only if the number of addresses divides `pool_size` (`ConnectionPool.Init`).
- `isFull` tests equality and `setMaxQueueSize` notifies nobody. Whatever sizes are set in
  mid-run, tasks are neither lost nor repeated nor reordered, and none waits on sleeping workers
  alone (`AlwaysSolid`). The queue stays within its size if and only if no size set is smaller
  than the queue of the moment (`QueueBoundedIff`), and producers never sleep beside more free
  slots than are being filled if and only if no size set opens such slots (`NoSlotLostIff`).
  `QueueGrowsPastAnyBound` and `SleepersBesideFreeSlots` are runs where each fails.

Where the code and its comments differ the model follows the code: a comment in `ProcPkgCli`
speaks of ten seconds where the timeout is a setting; the pool's comments speak of a checking
thread that does not exist; `last_checked_time_` is never initialised, so the model starts it at
an arbitrary value. `BOOT_LOG` is documented to end the program for a non-zero code
(src/common/log.h:351), and a repeated configuration key is modelled that way.

## Model

| member | source | states |
|---|---|---|
| `BlockPool.AllocCorrect` | src/utils/mempool.cpp:50-84 | Allocation keeps the pool sound; a block is new, word-aligned inside one chunk past its link word, and disjoint from every live block; null exactly when a chunk was needed and malloc failed, and then nothing changed. |
| `BlockPool.FreeCorrect` | src/utils/mempool.cpp:114-126 | Returning a live block keeps the pool sound: free stack without repeats, disjoint from the live blocks, the two together exactly the slots ever cut. |
| `BlockPool.FreeThenAlloc` | src/utils/mempool.cpp:50-126 | The block returned last is the next handed out, no chunk is needed for it, and the pool is then as before. |
| `BlockPool.BlocksDisjoint` | src/utils/mempool.cpp:76 | Any two different blocks, live or returned, do not overlap. |
| `BlockPool.BlockInsideChunk` | src/utils/mempool.cpp:67-76 | Every block lies inside one chunk, after its link word, at a whole number of words, and is never a chunk's own address. |
| `BlockPool.CarvedIsHighWater` | src/utils/mempool.cpp:50-126 | Over any run of allocations and frees the slots ever cut number exactly the largest count of blocks that were out at once, and live plus returned blocks. |
| `BlockPool.MaxLiveIsMax` | src/utils/mempool.cpp:102-123 | That largest count bounds the live blocks of every state of the run and is met in one. |
| `BlockPool.ChunksFromCarved` | src/utils/mempool.cpp:65-74 | The chunk count is the carved count divided by the slots per chunk, rounded up, and at least one. |
| `MemPools.RoundAlloc` | src/utils/mempool.cpp:25-34 | The chunk size is at least what was asked, holds a hundred blocks and the link word, covers a hundred pages, is whole pages, and is less than a page above the largest of these. |
| `MemPools.RoundAllocLeast` | src/utils/mempool.cpp:25-34 | No smaller number of whole pages meets those three demands. |
| `MemPools.RoundItem` | src/utils/mempool.cpp:20-24 | The block size is the least whole number of words that holds the request and the link. |
| `MemPools.MemPool.Create` | src/utils/mempool.cpp:15-48 | Null exactly when a malloc failed; otherwise a fresh sound pool with those sizes and at least a hundred slots per chunk. |
| `MemPools.MemPool.Alloc` | src/utils/mempool.cpp:50-84 | Popping the returned-block chain, or bumping, or chaining a new chunk through its first word, performs the value-level allocation and keeps both chains. |
| `MemPools.MemPool.Calloc` | src/utils/mempool.cpp:86-100 | The same allocation; the first word of the block is cleared and every other word is as allocation left it. |
| `MemPools.MemPool.Free` | src/utils/mempool.cpp:114-126 | Overwriting the block's first word with the chain performs the value-level free and disturbs neither chain. |
| `MemPools.MemPool.Destroy` | src/utils/mempool.cpp:128-147 | With no live block every chunk is freed exactly once and no freed link word is read; otherwise nothing happens. |
| `SizedPools.BlockLargeEnoughIff` | src/utils/mempool.cpp:249-252 | The blocks for a positive size are at least that large exactly when the 32-bit sum does not wrap. |
| `SizedPools.FreeKeyIff` | src/utils/mempool.cpp:242-291 | Allocation and free use the same key exactly for whole words and sizes below one word. |
| `SizedPools.VarAllocCorrect` | src/utils/mempool.cpp:242-260 | For a positive size exactly the pool of its key gains a block it had not handed out, a new pool being made when there is none; null exactly when a malloc failed, and then nothing changed; pools stay sound and share no memory. |
| `SizedPools.EveryState` | src/utils/mempool.cpp:242-291 | In every run of allocations and frees each outstanding block is live in the pool of its size's key, no two are one block, and every live block is outstanding. |
| `SizedPools.OutstandingReachesPool` | src/utils/mempool.cpp:275-291 | In every run each outstanding block of whole words, or less than one, is live in the pool keyed by its own size, and freeing it there is that pool's free and touches no other. |
| `SizedPools.FreedToOwnerIff` | src/utils/mempool.cpp:242-291 | In every run freeing an outstanding block under its size returns it to its pool exactly when the size is whole words or less than one; otherwise that pool keeps it as live. |
| `SizedPools.OutstandingDisjoint` | src/utils/mempool.cpp:242-260 | No two outstanding blocks overlap, across all sizes and pools. |
| `VarMemPools.VarMemPool.Get` | src/utils/mempool.cpp:151-174 | Scanning the chain is a map lookup; size zero is never found. |
| `VarMemPools.VarMemPool.Put` | src/utils/mempool.cpp:176-215 | Replacing or prepending an entry is a map update, and every chain keeps one entry per size. |
| `VarMemPools.VarMemPool.Alloc` | src/utils/mempool.cpp:242-260 | The lookup, creation and sub-pool allocation together perform the value-level allocation of `SizedPools` on the whole table; for a positive size null comes back exactly when the malloc that was needed failed; pools in the table stay the same objects. |
| `VarMemPools.VarMemPool.Free` | src/utils/mempool.cpp:275-291 | Performs the value-level free under the size given: that pool's free, or -1 and nothing changes; no other pool is touched. |
| `IntrusiveList.ListAddTail` | src/common/list.h:81-85 | The ring gains the node at its end, whatever the node's links held. |
| `IntrusiveList.ListAdd` | src/common/list.h:68-72 | The ring gains the node right after its head. |
| `IntrusiveList.ListDelInit` | src/common/list.h:118-123 | The node leaves its ring and points at itself; on a node that already does, nothing moves. |
| `IntrusiveList.ListEmpty` | src/common/list.h:153-157 | True exactly for the ring of the head alone. |
| `Threads.Take` | src/common/list.h:118-123 | Unlinking from one of several rings leaves every other ring and every lone node as it was. |
| `Links.Walk` | src/common/list.h:248-250 | The links from a list head lead to the first and second blocks of the list, or back to the head. |
| `Timer.EventInit` | src/utils/timer.cpp:42-55 | The event is blank and self-linked, and no ring notices. |
| `Timer.AddEvent` | src/utils/timer.cpp:57-72 | The event takes its fields and the last place of the timer. |
| `Timer.DelEvent` | src/utils/timer.cpp:96-109 | The event is blanked and off the timer, whether it was linked or already unlinked. |
| `Lifecycle.InvMeansAgreement` | src/base/proxy.cpp:215-293 | The table's values, the live blocks, the timer and the union of the descriptor lists are one set, and the four counts are equal. |
| `Lifecycle.ArriveKeepsInvIff` | src/base/proxy.cpp:215-270 | An accepted packet keeps the invariant exactly when the next serial number is unused; otherwise the older holder stays live and on the timer but leaves the table; a rejected packet or failed allocation changes nothing. |
| `Lifecycle.CollisionIff` | src/common/client_info.cpp:8-24 | The next serial number is in use exactly when some live request is a multiple of 2^32 registrations old. |
| `Lifecycle.YoungRequestsNeverCollide` | src/common/client_info.cpp:19-24 | Fewer than 2^32 registrations since the oldest live request: no live entry is overwritten. |
| `Lifecycle.ReclaimInv` | src/base/proxy.cpp:273-293 | Destroying any requests in any order, events on or off the timer, keeps the invariant. |
| `Lifecycle.LinkDownByNumber` | src/base/proxy.cpp:329-336 | A disconnect is DestroyClient on the number of each request of the descriptor in turn. |
| `Lifecycle.TickByNumber` | src/base/proxy.cpp:345-354 | A tick is DestroyClient on the number of each fired event in turn. |
| `Lifecycle.LinkDownExact` | src/base/proxy.cpp:310-337 | A disconnect destroys exactly the requests of that descriptor, empties its list and keeps every other list and the order of the timer. |
| `Lifecycle.TickExactIff` | src/utils/timer.cpp:74-94 | The scan takes exactly the expired events iff no unexpired one precedes an expired one. |
| `Lifecycle.TickInv` | src/utils/timer.cpp:74-94 | Any scan fires a prefix of the timer, each event once and in arrival order, and keeps the invariant. |
| `Lifecycle.TickExact` | src/utils/timer.cpp:74-94 | On a timer in expiry order exactly the expired requests go, from every view, and the rest keep their order. |
| `Effects.ArrivalExact` | src/base/proxy.cpp:215-259 | A packet of at most 8192 bytes, header included, is stored whenever memory was to be had: one block not in use before now holds it with its descriptor, packet, number and expiry, under its number in the table, last on the list of its descriptor and last on the timer, and nothing else moves; otherwise nothing changes. |
| `Effects.DestroyExact` | src/base/proxy.cpp:273-293 | Destroying a known number takes the request of that number, and no other, out of every view; an unknown one changes nothing. |
| `Effects.DisconnectExact` | src/base/proxy.cpp:310-337 | A disconnect takes exactly the requests of its descriptor out of pool, table, lists and timer and moves nothing else. |
| `Effects.TickPrefix` | src/utils/timer.cpp:74-94 | A tick takes out of every view the longest stretch of expired events at the front of the timer, whatever the clock does. |
| `Runs.AlwaysAgree` | src/common/client_info.cpp:8-28 | On any clock, all views agree in every reachable state while no live request is 2^32 registrations old. |
| `SerialNumbers.StepAgreesIff` | src/common/client_info.cpp:8-24 | From a good state an event leaves the views agreeing exactly unless it is an accepted packet while some live request is a multiple of 2^32 registrations old. |
| `SerialNumbers.AlwaysAgreeIff` | src/common/client_info.cpp:8-24 | In any run on any clock the views agree in every state exactly when no such packet is accepted. |
| `SerialNumbers.EventsDo` | src/common/server.cpp:165-218 | On any clock, up to the first such packet, every event of a run does what the three laws say. |
| `SerialNumbers.CollisionReachable` | src/common/client_info.cpp:19-24 | A run whose busiest window holds 2^32 + 1 packets, one more than the run theorems allow, and which ends with the views apart. |
| `Runs.EveryReachableState` | src/base/proxy.cpp:215-354 | With a clock that does not step back and at most 2^32 packets per window, every reachable state satisfies the invariant, has its timer in expiry order, holds no request the last tick should have taken, and never carved more slots than the busiest window held packets. |
| `Runs.ChunkBound` | src/utils/mempool.cpp:50-84 | The pool never has more chunks than the busiest window divided by the slots per chunk, rounded up, or one. |
| `Runs.ArrivedCounts` | src/base/proxy.cpp:215-222 | The window of a run counts, one by one, the packets of at most 8192 bytes that came since its start. |
| `Runs.TicksAreExact` | src/utils/timer.cpp:74-94 | After any such run a tick removes exactly the requests whose expiry is before now from every view and leaves the others as they were. |
| `Effects.DisconnectsAreExact` | src/common/server.cpp:210-218 | After any such run a disconnect empties the list of its descriptor, takes exactly its requests out of every view and leaves every other request as it was. |
| `Effects.ArrivalsAreStored` | src/common/server.cpp:175-182 | After any such run an arriving packet of at most 8192 bytes is stored whenever memory was to be had. |
| `Effects.LastEventDoes` | src/common/server.cpp:165-218 | After any such run every event of any kind does what the three laws say. |
| `Runs.ClockStepBackMissesExpired` | src/utils/timer.cpp:83-86 | A three-event run on a clock that steps back after which an expired request is still there. |
| `ProxyServer.InitFdList` | src/base/proxy.cpp:55-58 | One self-linked list head per descriptor. |
| `ProxyServer.Proxy.constructor` | src/base/proxy.cpp:63-84 | Over a fresh pool the proxy starts in the initial state of the state machine. |
| `ProxyServer.Proxy.ProcPkgCli` | src/base/proxy.cpp:215-259 | A packet of at most 8192 bytes, when memory was to be had, is in a block not in use before: fields, body and zeros after it, number, event and expiry as sent, found under its number, linked last on its descriptor's list and the timer; otherwise nothing changes, and a client whose packet found no memory gets status 1001. The invariant survives exactly when the number was unused. |
| `ProxyServer.Proxy.DestroyClient` | src/base/proxy.cpp:273-293 | Performs the destroy step for a known number, although the block is freed before its timer node is unlinked, and nothing for an unknown one. |
| `ProxyServer.Proxy.LinkDownCli` | src/base/proxy.cpp:310-337 | The loop that unlinks what it visits terminates and performs the disconnect step. |
| `ProxyServer.Proxy.DoServerTimeout` | src/base/proxy.cpp:345-354 | Destroys the request that owns the event. |
| `ProxyServer.Proxy.TimeEvent` | src/utils/timer.cpp:74-94 | The early-stopping scan, whose callbacks unlink again what is already unlinked, performs the tick step. |
| `ProxyServer.TimerUninit` | src/utils/timer.cpp:26-40 | Every event is blanked and self-linked and the timer is empty; when it already was, the loop writes to no event and no node. |
| `ProxyServer.Proxy.Uninit` | src/base/proxy.cpp:140-159 | Chunks are freed only when the timer is already empty, each once, and then no freed block, event or node is written to; otherwise none is freed and every event is retired. |
| `Server.Handle` | src/common/server.cpp:165-218 | Each callback takes the linked memory through exactly the step of its event, and that step does what `Effects` says: store, take the expired front of the timer, or take exactly the descriptor's requests. |
| `Server.Serve` | src/common/server.cpp:165-218 | Any orderly sequence of events delivered to a new proxy leaves its blocks, rings, table and pool in the state of that run: each event on the way did what `Effects` says, the invariant holds, the timer is in expiry order, the views agree and the chunks are within the bound of the busiest window. |
| `ThreadPool.StepKeepsInv` | src/base/thread_pool.h:51-81 | Every step of every thread, spurious wakeups included, keeps the task guarantees and the history; the queue bound and the producers' guarantee survive every step but a resize, and a resize exactly under its two conditions. |
| `ThreadPool.AlwaysSolid` | src/base/thread_pool.h:30-81 | Whatever sizes are set in mid-run, in every state tasks are conserved in order and none waits on sleeping workers alone. |
| `ThreadPool.EveryTaskAccounted` | src/base/thread_pool.h:51-81 | In every state of every run the tasks handed to put are, one for one, those taken, those queued and those of puts under way. |
| `ThreadPool.PutExact` | src/base/thread_pool.h:51-62 | A producer leaves put exactly when it runs and the queue is not at its size; then just its own task goes to the end of the queue and one sleeping worker is notified; otherwise it goes to sleep. |
| `ThreadPool.OnlyPutsPut` | src/base/thread_pool.h:51-62 | The put history grows only when a producer leaves put. |
| `ThreadPool.TakeExact` | src/base/thread_pool.h:64-81 | A worker leaves take exactly when it runs and the queue is not empty; then the front task is its own and one sleeping producer is notified; otherwise it goes to sleep. |
| `ThreadPool.OnlyTakesTake` | src/base/thread_pool.h:64-81 | The take history grows only when a worker leaves take. |
| `ThreadPool.EveryState` | src/base/thread_pool.h:51-81 | With a size that is never set, or only lowered and never below the queue: while a worker sleeps un-notified there are no more tasks than notified workers, while a producer does no more free slots than notified producers, in every state of every interleaving. |
| `ThreadPool.Fifo` | src/base/thread_pool.h:51-96 | The i-th task taken is the i-th put and the rest are queued in order, whatever sizes are set. |
| `ThreadPool.TaskHasTaker` | src/base/thread_pool.h:64-81 | With a task queued and a worker asleep, some notified worker takes the task at its next step. |
| `ThreadPool.NoDeadlock` | src/base/thread_pool.h:51-81 | Workers and producers are never all asleep un-notified against each other. |
| `ThreadPool.QueueBoundedIff` | src/base/thread_pool.h:30 | The queue stays within its size throughout a run exactly when every size set is at least the queue's length at that moment. |
| `ThreadPool.NoSlotLostIff` | src/base/thread_pool.h:30 | The producers' guarantee holds throughout a run exactly when no size set opens more slots to sleepers than are notified. |
| `ThreadPool.QueueGrowsPastAnyBound` | src/base/thread_pool.h:101 | For any n a run, on a size of two lowered to one, that ends with n queued tasks and no producer blocked. |
| `ThreadPool.SleepersBesideFreeSlots` | src/base/thread_pool.h:30 | For any n a run that ends with every producer asleep un-notified beside n free slots. |
| `ConnectionPools.FindFromFirst` | src/connection/connection_pool.cpp:81-91 | The fast scan returns the first available slot in cyclic order, or finds none exactly when there is none. |
| `ConnectionPools.OpenFromExact` | src/connection/connection_pool.cpp:94-107 | The slow scan takes the first idle connection that opens and marks dead exactly the idle ones before it. |
| `ConnectionPools.GetExact` | src/connection/connection_pool.cpp:77-110 | With a usable connection, the first from the rotation point on, and the rotation moves; else the first idle one that can be opened, now open and busy; null exactly when there is none. In the last two cases exactly the idle ones tried before are marked dead. |
| `ConnectionPools.EachConnectionOnce` | src/connection/connection_pool.cpp:81-91 | While all are available, pool_size gets in a row return each connection exactly once. |
| `ConnectionPools.EachBackendOnce` | src/connection/connection_pool.cpp:24-35 | When n addresses divide the pool, n gets in a row reach each backend exactly once. |
| `ConnectionPools.FailedReleaseExact` | src/connection/connection_pool.cpp:123-161 | After a failed release every flag of every connection is determined: only the released one stops being busy, all are closed and dead but the idle ones reopened in that call, none before the interval has passed. |
| `ConnectionPools.GoodReleaseExact` | src/connection/connection_pool.cpp:118-160 | After a good release its own connection is idle and available exactly if open or reopened; a pass, made exactly when too few are available and the interval has passed, does the same to every other idle one; otherwise no other is touched. |
| `ConnectionPools.AvailableCounts` | src/connection/connection_pool.cpp:165-176 | The count is the number of idle, live, open connections. |
| `ConnectionPools.PassesSpaced` | src/connection/connection_pool.cpp:136-159 | Over any run, on any clock, reopening passes are more than the interval apart. |
| `ConnectionPools.Connection.Init` | src/connection/connection.h:33-50 | Alive exactly when the transport opened. |
| `ConnectionPools.ConnectionPool.Init` | src/connection/connection_pool.cpp:25-39 | Slot k holds address k mod n; the vector is full exactly when n divides pool_size. |
| `ConnectionPools.ConnectionPool.GetConnection` | src/connection/connection_pool.cpp:77-110 | Both loops over the connection objects perform the value-level get, whose outcome `GetExact` determines. |
| `ConnectionPools.ConnectionPool.ReleaseConnection` | src/connection/connection_pool.cpp:114-162 | Flags, transports and the last pass time end as the value-level release says. |
| `ConnectionPools.ConnectionPool.AvailableCount` | src/connection/connection_pool.cpp:165-176 | Returns the number of idle, live, open connections. |
| `ConfigParser.ParseIsOnePass` | src/common/file_config_manager.cpp:14-105 | For every acyclic include graph the recursive parser equals one pass over the lines with includes expanded, with the same outcome on failure. |
| `ConfigParser.OnePassOkIff` | src/common/file_config_manager.cpp:63-85 | The pass succeeds exactly when every file is readable and no key repeats, and then adds exactly the settings of the lines. |
| `ConfigParser.ParseConfigFile` | src/common/file_config_manager.cpp:14-105 | Cutting lines and tokens with zeros in the buffer computes the recursive parser, whose meaning the laws below fix line by line, and terminates. |
| `ConfigParser.TwoWordLine` | src/common/file_config_manager.cpp:57-78 | A line of two words with delimiters before, between and after them is the setting of the first to the second, or an include of the second when the first is `include`. |
| `ConfigParser.BlankLine` | src/common/file_config_manager.cpp:57-61 | A comment, or a line of fewer than two words, is nothing. |
| `ConfigParser.EveryLine` | src/common/file_config_manager.cpp:57-61 | Every line has one of those two forms. |
| `ConfigParser.SettingThenRest` | src/common/file_config_manager.cpp:46-96 | A text that starts with a line of two words adds that setting, ends the program if the key is there, or parses the included file and stops if that fails, and goes on with the rest of the text. |
| `ConfigParser.BlankThenRest` | src/common/file_config_manager.cpp:46-96 | A text that starts with a comment or a line of fewer than two words means what the rest of it means. |
| `ConfigParser.FileIsItsText` | src/common/file_config_manager.cpp:20-50 | A file means its text; an empty one adds nothing, an unreadable one fails, and a line feed at the end of its one line makes no difference. |
| `ConfigParser.OneLineFile` | src/common/file_config_manager.cpp:46-96 | A file of one line of two words gives that one setting. |
| `ConfigParser.StrTok` | src/common/file_config_manager.cpp:59-60 | One in-place token cut returns the next token and leaves the rest of the buffer readable. |
| `ConfigParser.FileConfigManager.LoadConfig` | src/common/file_config_manager.cpp:107-111 | The settings become those of one pass from scratch, partial on a failure. |
| `ConfigParser.FileConfigManager.ReloadConfig` | src/common/file_config_manager.cpp:113-123 | Success installs the new settings; failure changes nothing. |
| `Thrift.SkipEncoded` | src/thrift/identity_types.cpp:334-336 | Skipping a well-typed value, nested ones included, consumes exactly its tokens. |
| `Thrift.ReadIsMeaning` | src/thrift/identity_types.cpp:233-344 | Reading any well-formed struct assigns its known, rightly typed fields in order, ignores the others, and consumes exactly the struct. |
| `Thrift.IgnoresUnknown` | src/thrift/identity_types.cpp:252-337 | Unknown ids and wrong types make no difference wherever they stand. |
| `Thrift.TruncatedFails` | src/thrift/identity_types.cpp:233-344 | Reading any proper prefix of a well-formed struct fails. |
| `Thrift.RoundTrip` | src/thrift/identity_types.cpp:233-394 | Reading what write produced, with any ignorable fields in between, restores every member, raises exactly the declared isset flags, leaves everything undeclared and the rest of the stream, and yields equal members. |
| `Thrift.WrittenRoundTrip` | src/thrift/tis_types.cpp:41-142 | The same for the writer's own output, with no assumption on its fields. |
| `Thrift.GeneratedSchemas` | src/thrift/tis_types.cpp:41-324 | The five generated structs declare distinct ids of scalar types, so the laws above apply to each. |
| `Thrift.ThriftStruct.Write` | src/thrift/identity_types.cpp:346-394 | Emits the struct's fields in declared order. |
| `Thrift.WrittenTokens` | src/thrift/identity_types.cpp:346-394 | The tokens are three a member in declared order: id and type, the member's value, end of field. |
| `Thrift.ThriftStruct.Read` | src/thrift/identity_types.cpp:233-344 | The field loop assigning members and flags computes the value-level reader, also when it stops at a protocol exception with some members assigned. |

## Left out

- Hand-over to the worker queue and the callback stored in a request (src/base/proxy.cpp:263-268): nothing ties the queue to the lifecycle, so a request may be reclaimed while queued or running.
- `ThreadPool::stop` and what happens after it: the running flag is written without the mutex.
- Exclusive use of a connection: the fast path returns it without marking it busy.
- Freeing the descriptor array in `Uninit`: nothing reads it afterwards.
- `var_mempool_destroy`, and failures of the small allocations inside `var_mempool_put`.
- Overflow of sizes near the address width, of `ref_count` and of the rotation counter.
- The rest of a block after its first word in `mempool_calloc`, object lifetimes inside blocks, and the arrival time stamp.
- ProxyServer.Proxy.ProcPkgCli: takes as a precondition that an accepted body fits the request's buffer of 4096 bytes, although the length check lets longer ones pass; what the copy then overwrites is not modelled.
- VarMemPools.VarMemPool.Free: takes as a precondition that the block is out from the pool found under the size given; a block freed under an odd size that happens to be the key of another pool would join that pool's free list, which is not modelled.
- Allocation of size zero from the size-keyed pool: modelled by `VarAlloc`, which makes and installs a new pool each time, but left out of its runs, since the replaced pool's blocks are out of reach.
- A negative queue size, which `setMaxQueueSize` would turn into a very large one, and its write of the size without the mutex: a resize is a step of its own.
- Cyclic includes, files holding zero bytes, integer settings (`atoi`) and `SetConfigMap`.
- Byte counts returned by the Thrift readers and writers, nesting limits, and the byte layout under the tokens; the five generated classes share one reader and writer driven by their declared ids and types.
- Several threads inside the connection pool at once: each call holds the pool's mutex throughout, so calls are modelled one after another.
- Packet handlers, RPC stubs, logging, archiving, sockets and process glue.
