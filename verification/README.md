# Verified models of zsim and BookSim components

This project models the main components of a coupled memory-hierarchy and network simulator and
proves what they promise. Cache, barrier and DRAM code come from zsim, flow control and routing
from BookSim. The components are independent of each other, except that `CacheSpec` and `Cache`
put the zcache array and per-line coherence entries together, `DdrControl` and `DdrMemory` put
the parts of the DDR controller together, and `Wiring` puts both kinds of routing on the same
network.

Each component comes in two layers. A specification module gives the state as a value, the
operations as functions (`None` or `ok == false` wherever the source asserts, panics or calls
`Error`), and the theorems as lemmas. Where the source works on mutable state, a class with the
same fields, arrays and loops is proved equal to those functions, method by method.

| files | component |
|---|---|
| `ZCacheSpec`, `ZArray` | the zcache array: breadth-first replacement walk and rotation of line ids |
| `CacheSpec`, `Cache` | one cache over many addresses: the array and the coherence entries together, with misses split around the eviction |
| `Mesi`, `MesiTree`, `MesiControllers` | the MESI hierarchy: invalidation, whole transactions on a tree of any depth, and the controllers as objects |
| `MesiEffects` | what a transaction does to the caches that did not ask for it, where dirty data comes from, when a reader gets the line exclusively |
| `MesiRaces`, `MesiConcurrent`, `MesiProgress` | the same with requests in flight: one parent and its children, then every level of the tree at once, and what becomes of the requests |
| `MesiOutcomes`, `MesiClean` | the effect of each event with requests in flight on each cache, and on dirty data |
| `BarrierSpec`, `BarrierFairness`, `Barrier` | the phase barrier with a parallelism cap: its invariants, what calls and phases do, and the object |
| `DdrClock`, `ActWindow`, `BankQueue`, `DdrTiming`, `DdrEarliest` | the parts of the DDR controller: clock translation, activation window, bank queues, command timing, and that commands come as early as the rules allow |
| `DdrControl`, `DdrPolicy`, `DdrMemory` | the DDR controller as a whole: arrivals, ticks and refreshes in any order, its scheduling policy, and the object |
| `CreditBook`, `CreditRoom`, `BufferState`, `CreditLoop`, `CreditOrder`, `RouterBuffer`, `Channel`, `Feedback` | credit-based flow control: the sender's book, how much it lets through, the link, and the order on it |
| `Digits`, `MeshRouting`, `TorusRouting`, `Wiring` | dimension-order routing on k-ary n-cubes, and how their routers are wired |
| `Option`, `Sums`, `Arith` | shared helpers |

`dafny verify dfyconfig.toml` checks everything.

## How to read the models

**ZCache.** The hash family is an arbitrary function; because the number of sets is a power of
two, masking a hash value is the remainder by the number of sets. The replacement policy may
return any candidate (`pick`). Address 0 means an empty line, as in the source. `Moves`,
`GoodPath` and `MinIndex` carry the argument that the path from the minimum-index candidate
repeats no position although the walk keeps no visited set.

**Cache.** The coherence controllers' work on a line is an arbitrary function of its entry
(`Action`); an eviction must leave the entry clear, which the MESI models prove of theirs
(`EvictionClears`). A miss has five phases: the victim is chosen, the levels below are emptied of
it, its entry is cleared, the array installs the new address, the access is served. Invalidations
may arrive between any two of them. The result is that a cache is a map from addresses to entries,
whatever the array moves, which is why the MESI models may look at one line at a time.

**MESI.** One cache line. A cache is a state, a directory entry (sharer count, exclusive flag, one
bit per child) and its children. Memory above the root always grants. `MesiTree` runs whole
transactions atomically (`Load`, `Store`, `Drop` at any path); a `Load` at an inner cache is what a
prefetch does. `MesiRaces` takes one parent with children that are whole subtrees, each with at
most one request under way that carries the sender's state when it was sent; the parent's own
request upwards is exposed to the same races. `MesiConcurrent` lifts that parent's step to every
place of the tree: a request waits at its sender until the parent takes it up, a parent that must
ask in turn waits as well, and so on up, while everyone who waits can be invalidated. A waiting
cache serves nobody, as its locks demand. When the top of such a chain gets its permission, each
cache down the chain relocks before the one above lets go, so the chain finishes in one step.
`Coherent` is the invariant: directory entry and children's states agree, inclusion, and
exclusivity only below exclusivity.

**Barrier.** Each of join, leave and sync is one atomic step under the scheduler lock. Waking a
thread is a state change; the shuffle's random numbers are arbitrary (`Draws`), and so is what
`lastIdx` holds before it is first written (the object's memory is not cleared). `placed` are the
threads that have been woken, or moved in the list, since they last came online: theirs is the
remembered index that is exact. `Safe` and `IndexExact` need nothing of the callers. `Orderly`
needs `OrderlyCall`: no thread leaves before it is placed. Without that the assertion at
`zsim/src/barrier.h:137` can fail; `AbortsIff` says when.

**DDR.** All timing is in memory cycles. A log of issued commands turns the timing constraints
into statements about pairs of commands in any run. `DdrControl` has the two request queues, the
bank queues their requests are linked into, the overflow queue and the pending wake-up in one
state; a stamp stands for the list node that a request is. Events come in the order of system
time; a tick comes at the system cycle its wake-up was set for. The activation window can lose its
order when an activation earlier than the second oldest entry is recorded (`OrderCanBeLost`); the
four-activate limit holds nevertheless, in every run (`WindowHolds`), because each activation is
at least tFAW later than the entry it replaces.

**Flow control.** `CreditBook` is the sender's BufferState with the private, shared, limited,
dynamic and shifting policies. `CreditLoop` puts it together with the packet source, an in-order
channel each way, the router's input buffer, and credits that carry sets of VCs, and runs all
their steps in any interleaving. The feedback policies only refuse more often than the shared
one: in `CreditLoop` they appear as the arbitrary set `blocked`, and `Feedback` proves what their
own bookkeeping means. `Reserving` says when a slot is kept for a packet under way, which is what
makes `NeverLockedOut` true.

**Routing.** Output port 2d leads one step up in dimension d, 2d+1 one step down, 2n ejects, and a
flit sent on output p arrives on input p^1. Dimension 0 is the lowest digit of a router number.
Routes are over coordinates; the methods that compute ports work on router numbers, as in the
source. Random bits are parameters. A deadlock would be a ring of packets each waiting for the
channel the next one holds; a rank that increases along every route rules it out.

## Where the code and its comments part

- The comment on `ActWindow` suggests that reordering keeps the ring in order; `AddSortedIff`
  gives the exact condition and `OrderCanBeLost` an input that breaks it.
- In `SharedBufferPolicy::SendingFlit` the loop that returns reserved slots at the tail never
  finds one: a reserved slot is always used up by the next flit (`SharedSendKeeps`).
- The injection's round-robin VC search tries only the first VC of the range whenever the last VC
  used lies outside it (`SearchFailsIff`); `SearchMissesFreeVc` is a run in which a packet waits
  although a VC of its range is free.
- The note at `zsim/src/barrier.h:151` says that a join cannot end a phase. It can, exactly when
  nobody runs and the returning thread left before it was placed, with an index beyond the list
  (`JoinEndsPhaseIff`, `StaleIndexEndsPhase`); the assertion in a join can fail (`AbortsIff`,
  `StaleIndexAborts`).
- The DDR constructor accepts queues of depth 0, with which no request is ever served
  (`WakesUpIffRoom`).
- The dynamic and shifting policies assert a positive held-slot limit; `DynamicPositiveIff` and
  `ShiftingPositiveIff` give the buffer sizes for which that holds.
- The split-VC routing functions keep their halves apart exactly for an even number of VCs
  (`HalvesKeptIffEven`, `VcTellsPartitionIffEven`).

## Model

| member | source | states |
|---|---|---|
| ZCacheSpec.FindIff | zsim/src/cache_arrays.cpp:98-116 | lookup, which probes only the address's own hash positions, returns a line id if and only if that line caches the address |
| ZCacheSpec.FindNone | zsim/src/cache_arrays.cpp:98-116 | lookup fails if and only if no line caches the address |
| ZCacheSpec.ExpansionAdds | zsim/src/cache_arrays.cpp:137-161 | expanding a valid line adds exactly ways-1 candidates, because exactly one of its hash positions holds the line itself |
| ZCacheSpec.ExpandInv | zsim/src/cache_arrays.cpp:137-161 | one expansion keeps the walk invariant: entries match the position table, parents are earlier, valid, expanded in order, and every expanded line's other positions are all present |
| ZCacheSpec.BfsInv | zsim/src/cache_arrays.cpp:119-165 | the walk ends with enough candidates or with an empty line among them, and never outgrows the cands+ways buffer |
| ZCacheSpec.EarlierTwin | zsim/src/cache_arrays.cpp:174-182 | if the parent's line also occurs earlier in the walk, then so does the child's line: the step that makes minimum-index paths simple |
| ZCacheSpec.EmptyEndsWalk | zsim/src/cache_arrays.cpp:137 | nothing is expanded once an empty line has turned up: at most the rest of its own expansion follows it |
| ZCacheSpec.EvictableIffOffered | zsim/src/cache_arrays.cpp:163-199 | the policy can have a line evicted if and only if it is among the candidates |
| ZCacheSpec.Victim | zsim/src/cache_arrays.cpp:169-199 | for every choice the line evicted is the very candidate the policy chose |
| ZCacheSpec.PathIsGood | zsim/src/cache_arrays.cpp:172-194 | from the minimum-index candidate the parent path repeats no position, starts at the victim, moves every line to one of its own positions, and ends at a position of the new address |
| ZCacheSpec.PathFrom | zsim/src/cache_arrays.cpp:187-194 | the path from walk index i has at most i/ways+1 positions |
| ZCacheSpec.SwapPath | zsim/src/cache_arrays.cpp:87 | the path of any choice fits the swap array of cands/ways+2 entries and may be rotated |
| ZCacheSpec.RotateAt | zsim/src/cache_arrays.cpp:202-210 | the swap loop gives each path position the next one's line id, the last one the victim's, and touches nothing else |
| ZCacheSpec.RotateIsPermutation | zsim/src/cache_arrays.cpp:202-210 | the position table stays a permutation of the line ids |
| ZCacheSpec.InsertInv | zsim/src/cache_arrays.cpp:202-217 | after inserting an absent address the table is a permutation, addresses are unique, and every valid line sits at one of its own hash positions |
| ZCacheSpec.InsertRefinesMap | zsim/src/cache_arrays.cpp:202-217 | afterwards lookup finds the new address at the victim's id, no longer finds the evicted one, and returns the same id as before for every other address |
| ZCacheSpec.MissImplements | zsim/src/cache_arrays.cpp:118-217 | a whole miss, for any hash family and policy choice, acts on the array as eviction of the chosen candidate's line plus insertion act on a map from address to line id |
| ZCacheSpec.EveryRunImplementsMap | zsim/src/cache_arrays.cpp:98-217 | over every run of hits and misses the array stays equal to that map |
| ZArrayModel.ZArray.constructor | zsim/src/cache_arrays.cpp:70-88 | a new array has linear position table, no valid line, and meets the invariant |
| ZArrayModel.ZArray.Lookup | zsim/src/cache_arrays.cpp:98-116 | the way-by-way loop computes the specified lookup, and fails exactly when the address is not cached |
| ZArrayModel.ZArray.Expand | zsim/src/cache_arrays.cpp:137-161 | the branch-free loop over the ways, which overwrites the rejected entry, appends exactly the children other than the line itself and keeps the validity flag exact |
| ZArrayModel.ZArray.Gather | zsim/src/cache_arrays.cpp:119-165 | seeds, expansion and truncation leave the specified candidate list in the buffer |
| ZArrayModel.ZArray.FirstMatch | zsim/src/cache_arrays.cpp:169-185 | finds the minimum index holding the policy's line |
| ZArrayModel.ZArray.FillSwapArray | zsim/src/cache_arrays.cpp:187-194 | following parent links stores exactly the specified path, within bounds |
| ZArrayModel.ZArray.Preinsert | zsim/src/cache_arrays.cpp:118-200 | the first phase changes nothing observable, returns the line of the candidate the policy chose and its address, and prepares the path for the second |
| ZArrayModel.ZArray.RotateInPlace | zsim/src/cache_arrays.cpp:203-209 | the in-place swap loop is the specified rotation |
| ZArrayModel.ZArray.Postinsert | zsim/src/cache_arrays.cpp:202-217 | the second phase completes the miss and keeps the invariant |
| CacheSpec.HeldIsFound | zsim/src/cache.cpp:167-169 | a line the level above may invalidate is always found by lookup, as the source asserts |
| CacheSpec.UpdateEntry | zsim/src/cache.cpp:121 | serving an access to one address leaves every other address's entry alone |
| CacheSpec.EmptyImplements | zsim/src/cache.cpp:104-108 | emptying the victim changes the evicted address's entry and no other, and nothing if the slot was empty |
| CacheSpec.VictimImplements | zsim/src/cache.cpp:104-108 | the same for any work on the victim's entry before it is emptied |
| CacheSpec.InstallImplements | zsim/src/cache.cpp:110 | installing the new address removes the evicted one and moves every other line's entry with its line |
| CacheSpec.ServeImplements | zsim/src/cache.cpp:121 | serving an access changes its own address's entry and no other; after a miss it starts from a clear entry |
| CacheSpec.StepImplements | zsim/src/cache.cpp:88-176 | each phase of a miss, each hit, and each invalidation between two phases acts as on a map from addresses to entries, and a miss is served from a clear entry whatever was invalidated since |
| CacheSpec.EvictionClears | zsim/src/coherence_ctrls.h:412-417 | the MESI eviction leaves an entry clear whatever it was, its invalidations keep a clear one clear, and an entry is clear exactly in state I |
| CacheSpec.EveryRunImplementsMap | zsim/src/cache.cpp:88-176 | the same over every run, with invalidations at any moment |
| CacheModel.CacheUnit.ChooseVictim | zsim/src/cache.cpp:100-104 | the first phase names the victim and prepares the array |
| CacheModel.CacheUnit.CollectBelow | zsim/src/cache.cpp:106-108 | the second phase works on the victim's entry while the levels below are emptied |
| CacheModel.CacheUnit.ProcessEviction | zsim/src/cache.cpp:106-108 | the third phase empties the victim's entry |
| CacheModel.CacheUnit.InstallLine | zsim/src/cache.cpp:110 | the fourth phase installs the address, which is still absent and whose path is still good, under the line named at first |
| CacheModel.CacheUnit.ServeLine | zsim/src/cache.cpp:121 | the last phase, and the whole of a hit, serves the access |
| CacheModel.CacheUnit.Access | zsim/src/cache.cpp:88-161 | an uninterrupted access is a hit, or the five phases in order |
| CacheModel.CacheUnit.FinishInvalidate | zsim/src/cache.cpp:167-176 | an invalidation, also in the middle of a miss, finds its line and changes it alone |
| Mesi.SendCorrect | zsim/src/coherence_ctrls.cpp:269-331 | on a coherent cache the fan-out counts exactly numSharers messages, clears or keeps the right bits, leaves no exclusivity below, and reports a writeback exactly when some copy below was dirty |
| Mesi.InvalidateCorrect | zsim/src/coherence_ctrls.h:472-478 | a recursive INV leaves the whole subtree invalid, an INVX leaves it without exclusive copies, both coherent, and the writeback flag is pulled exactly when some copy in the subtree was M |
| Mesi.Inclusion | zsim/src/coherence_ctrls.cpp:345-445 | in a coherent tree nothing below an invalid cache is valid, and nothing below a non-exclusive cache is exclusive |
| Mesi.DirtyBelowIsExclusive | zsim/src/coherence_ctrls.cpp:62-69 | dirty data below a cache lies under its one exclusive child, so a writeback from below finds the cache in E or M |
| MesiTree.TopGetsCorrect | zsim/src/coherence_ctrls.cpp:370-403 | answering a GETS fails no assertion, keeps the tree coherent apart from the requester, and reports every dirty copy it downgrades |
| MesiTree.TopGetxCorrect | zsim/src/coherence_ctrls.cpp:404-439 | answering a GETX fails no assertion, invalidates every other copy and leaves the requester the one exclusive sharer |
| MesiTree.GetCorrect | zsim/src/coherence_ctrls.h:419-452 | a GETS or GETX climbing any number of levels succeeds, keeps coherence and dirty data, and gives the requester the permission |
| MesiTree.PurgeCorrect | zsim/src/coherence_ctrls.h:412-417 | an eviction's invalidation of the levels below collects any dirty data into this cache |
| MesiTree.EvictCorrect | zsim/src/coherence_ctrls.cpp:62-100 | an eviction anywhere ends with the subtree invalid, the parent's directory exact, and the dirty data at the parent or in memory |
| MesiTree.StepCorrect | zsim/src/coherence_ctrls.cpp:62-445 | every load, store or eviction anywhere in a coherent tree of any depth fails no assertion, keeps it coherent, gives the requester its permission and loses no dirty data |
| MesiTree.EveryRunCoherent | zsim/src/coherence_ctrls.cpp:62-445 | the same over every run of transactions, and data dirty at any moment is at any later one still dirty in some cache or was written to memory in between |
| MesiEffects.InvalidatesAt | zsim/src/coherence_ctrls.h:472-478 | cache by cache: an INV takes every copy of the subtree, an INVX takes none and downgrades exactly the exclusive ones |
| MesiEffects.EffectOnOthers | zsim/src/coherence_ctrls.cpp:62-445 | cache by cache: a load takes no copy, and downgrades the exclusive ones only if its requester did not hold the line; a store takes every copy beside its requester and none below it; an eviction takes the copies below and nothing else |
| MesiEffects.GetsAbove | zsim/src/coherence_ctrls.cpp:370-403 | a load leaves the copies above its requester, one turning from E to M only to take in dirty data |
| MesiEffects.EvictsAt | zsim/src/coherence_ctrls.cpp:62-100 | an eviction turns the parent to M exactly when dirty data was evicted, and changes no other cache outside the subtree |
| MesiEffects.LoadExclusiveIff | zsim/src/coherence_ctrls.cpp:370-403 | a reader without the line gets it exclusively if and only if it did not decline that and nobody but exclusive caches above it holds the line |
| MesiEffects.DirtyIffBefore | zsim/src/coherence_ctrls.cpp:62-445 | a load or an eviction leaves dirty data, in a cache or on its way to memory, exactly when there was some |
| MesiEffects.NoWritebackBeforeStore | zsim/src/coherence_ctrls.cpp:62-100 | in a run from a clean tree nothing is written to memory before the first store |
| MesiTree.SingleWriter | zsim/src/coherence_ctrls.cpp:404-439 | a cache in E or M forces I in every cache that is neither above nor below it |
| MesiTree.InclusionOnPaths | zsim/src/coherence_ctrls.cpp:345-445 | every cache above a holder holds the line, and holds it exclusively if the holder does |
| MesiRaces.RaceCheckLegalises | zsim/src/coherence_ctrls.h:290-317 | after the race check a request is skipped only if its line is gone, and otherwise is legal: PUTX from the exclusive sharer in M, PUTS from a clean sharer, GETS from I, GETX from S or I; none of its own assertions fails |
| MesiRaces.PendSurvives | zsim/src/coherence_ctrls.h:381-397 | a pending request stays serviceable under any invalidation that hits its sender meanwhile |
| MesiRaces.ServeGetCorrect | zsim/src/coherence_ctrls.h:419-452 | serving a raced GETS or GETX fails no assertion, at this level or after the level above has answered |
| MesiRaces.ServePutCorrect | zsim/src/coherence_ctrls.cpp:350-369 | serving a raced PUTS or PUTX fails no assertion and keeps the dirty data |
| MesiRaces.AboveInvalCorrect | zsim/src/coherence_ctrls.h:472-478 | an invalidation from above may hit at any moment; it reports a writeback exactly when the subtree was dirty |
| MesiRaces.StepCorrect | zsim/src/coherence_ctrls.h:290-478 | every step of every interleaving fails no assertion, keeps the invariant and loses no dirty data |
| MesiRaces.EveryInterleavingSafe | zsim/src/coherence_ctrls.h:290-478 | the same over every run, and data dirty at any moment is at any later one still dirty in some cache or was handed to the level above in between |
| MesiConcurrent.HitAt | zsim/src/coherence_ctrls.h:472-478 | an invalidation reaches each cache below as one legal invalidation or not at all |
| MesiConcurrent.GetHitsAt | zsim/src/coherence_ctrls.cpp:345-445 | serving a GETS or GETX along any number of levels does to every cache off its way no more than one legal invalidation |
| MesiConcurrent.ChainClimbs | zsim/src/coherence_ctrls.cpp:117-168 | every cache between a waiting cache and the one its request is for waits with the same request, and none can serve it |
| MesiConcurrent.WorkKeeps | zsim/src/coherence_ctrls.h:378-478 | work of one cache on its subtree, with requests waiting above, below and beside it, keeps the whole tree coherent and every waiting request legal |
| MesiConcurrent.TakeUpGetKeeps | zsim/src/coherence_ctrls.h:378-461 | taking up a GETS or GETX that can be served here serves it for the cache it came from, however many levels below, with every assertion holding |
| MesiConcurrent.TakeUpWaits | zsim/src/coherence_ctrls.cpp:117-168 | taking up one that cannot makes this cache wait in turn |
| MesiConcurrent.TakeUpPutKeeps | zsim/src/coherence_ctrls.cpp:350-369 | taking up a writeback, raced or not, with every assertion holding |
| MesiConcurrent.StepKeeps | zsim/src/coherence_ctrls.h:290-478 | with requests under way at any number of levels, every request, eviction, service and memory answer anywhere in the tree fails no assertion, keeps coherence and every waiting request legal, and loses no dirty data |
| MesiProgress.StepAnswers | zsim/src/coherence_ctrls.cpp:345-445 | whenever a request ends, a GETS has left its sender with the line, a GETX with the line in M, a writeback without it |
| MesiProgress.NeverStuck | zsim/src/coherence_ctrls.h:381-392 | while any request waits, some parent or memory can take one up: the lock order cannot deadlock |
| MesiProgress.ServiceWorks | zsim/src/coherence_ctrls.h:378-461 | each request taken up lowers a bound computed from the requests under way and the depth of the tree |
| MesiProgress.EveryRunKeeps | zsim/src/coherence_ctrls.h:290-478 | in every run no assertion fails, the tree stays coherent, requests that end are answered, and dirty data stays in some cache or has gone to memory |
| MesiProgress.EveryoneAnswered | zsim/src/coherence_ctrls.h:378-461 | in whatever order requests are taken up, all are answered within that bound unless new ones come in |
| MesiOutcomes.NothingElsewhere | zsim/src/coherence_ctrls.h:374-478 | an event changes nothing outside the subtree of the cache that works |
| MesiOutcomes.RequestAt | zsim/src/coherence_ctrls.cpp:117-168 | a cache's own request changes the cache only, and only when a store hits |
| MesiOutcomes.VacateAt | zsim/src/coherence_ctrls.h:412-417 | an eviction takes every copy below, and turns the cache to M exactly to take in dirty data |
| MesiOutcomes.TakeUpGetAt | zsim/src/coherence_ctrls.cpp:370-439 | a raced GETS or GETX served anywhere leaves each other cache as the load or store alone would |
| MesiOutcomes.TakeUpPutAt | zsim/src/coherence_ctrls.cpp:350-369 | a raced writeback takes its sender's copy, turns the parent to M exactly if that copy is dirty, and changes nothing else |
| MesiOutcomes.MemoryAt | zsim/src/coherence_ctrls.cpp:117-168 | memory's answer changes only the chain it answers, apart from the copies a store takes |
| MesiOutcomes.TakeUpExclusiveIff | zsim/src/coherence_ctrls.cpp:370-403 | a raced reader gets the line exclusively if and only if it did not decline that and nobody in the subtree but exclusive caches on its way holds the line |
| MesiOutcomes.MemoryExclusiveIff | zsim/src/ddr_mem.cpp:243-257 | memory grants a reader the line exclusively, all the way down, exactly if that was not declined |
| MesiClean.StepClean | zsim/src/coherence_ctrls.h:290-478 | with races at one parent, only a store makes anything dirty, and nothing is handed up as dirty that was not |
| MesiClean.NoneHandedUpBeforeStore | zsim/src/coherence_ctrls.h:290-478 | the same over every run |
| MesiClean.EventClean | zsim/src/coherence_ctrls.h:290-478 | the same with requests under way at every level |
| MesiClean.NoneWrittenBeforeStore | zsim/src/coherence_ctrls.h:290-478 | and over every such run: nothing goes to memory before a store is carried out |
| MesiControllers.CacheNode.BottomProcessInval | zsim/src/coherence_ctrls.cpp:181-205 | the bottom controller's reaction, the flag only ever pulled up |
| MesiControllers.CacheNode.BottomProcessAccess | zsim/src/coherence_ctrls.cpp:102-170 | the bottom controller's state after an access, given what the level above wrote, with its assertions discharged |
| MesiControllers.CacheNode.BottomProcessWriteback | zsim/src/coherence_ctrls.cpp:172-179 | an induced writeback makes an exclusive cache dirty |
| MesiControllers.CacheNode.FanOut | zsim/src/coherence_ctrls.cpp:281-293 | the loop over the children as an object tree invalidates each sharer once and counts it |
| MesiControllers.CacheNode.SendInvalidates | zsim/src/coherence_ctrls.cpp:269-331 | the method on objects does what the function on values says, assertions included |
| MesiControllers.CacheNode.Invalidate | zsim/src/coherence_ctrls.h:472-478 | children first, then the cache's own state |
| MesiControllers.CacheNode.TopProcessGets | zsim/src/coherence_ctrls.cpp:370-403 | in-place answer to a GETS, including the write through the requester's state pointer |
| MesiControllers.CacheNode.TopProcessGetx | zsim/src/coherence_ctrls.cpp:404-439 | in-place answer to a GETX |
| MesiControllers.CacheNode.TopProcessPut | zsim/src/coherence_ctrls.cpp:350-369 | in-place handling of a writeback |
| BarrierSpec.WakeStops | zsim/src/barrier.h:256-273 | the wake-up loop ends at the cap or the end of the list, and runs somebody if anybody waits ahead of the cursor |
| BarrierSpec.WakeSafe | zsim/src/barrier.h:256-273 | the wake-up loop keeps both invariants |
| BarrierSpec.CleanSafe | zsim/src/barrier.h:212-236 | compaction removes exactly the departed threads, as the source asserts, and keeps both invariants |
| BarrierSpec.ShuffleSafe | zsim/src/barrier.h:239-252 | whatever numbers are drawn, the shuffle keeps the list's threads and their remembered indices |
| BarrierSpec.EndPhaseSafe | zsim/src/barrier.h:201-254 | ending a phase keeps both invariants, and under orderly calls happens only after every listed thread has synced or left |
| BarrierSpec.RescheduleIndices | zsim/src/barrier.h:130-146 | moving a rejoining thread back under the cursor keeps every remembered index exact and puts the thread ahead of the cursor |
| BarrierSpec.StepSafe | zsim/src/barrier.h:124-279 | every operation keeps: a duplicate-free list of exactly the online threads, exact counters, the cap, and running threads before the cursor |
| BarrierSpec.StepOrderly | zsim/src/barrier.h:124-279 | under orderly calls no join aborts, every phase ends fairly, and runList[lastIdx[t]] == t |
| BarrierSpec.StepBusy | zsim/src/barrier.h:275-279 | after every operation the cap is reached or the cursor is at the end, and someone runs unless all have left |
| BarrierSpec.JoinNeverEndsPhase | zsim/src/barrier.h:151 | under orderly calls a join only wakes threads; it cannot end a phase |
| BarrierSpec.JoinEndsPhaseIff | zsim/src/barrier.h:124-163 | whatever the callers do, a join ends a phase if and only if nobody runs and the thread returns with an index beyond the list; it then left before it was placed |
| BarrierSpec.StepExact | zsim/src/barrier.h:124-279 | whatever the callers do, every call that does not abort keeps runList[lastIdx[t]] == t for every thread woken or moved since it came online |
| BarrierSpec.AbortsIff | zsim/src/barrier.h:132-137 | a call aborts if and only if it is the join of a thread that left before it was placed, and its old index lies under the cursor and belongs to another thread |
| BarrierSpec.EveryRunSafe | zsim/src/barrier.h:124-279 | safety, exact indices and work conservation in every state of every run |
| BarrierSpec.EveryRunAbortsIff | zsim/src/barrier.h:124-279 | that condition decides every call that could follow any run |
| BarrierSpec.EveryOrderlyRunFair | zsim/src/barrier.h:124-279 | in every orderly run all phases ended fairly and no allowed next call aborts |
| BarrierSpec.CrowdedIsReached | zsim/src/barrier.h:124-163 | two threads joining under a cap of one leave the second listed, waiting and not placed |
| BarrierSpec.StaleIndexAborts | zsim/src/barrier.h:132-137 | a thread that leaves before its first wake-up can make its next join fail the assertion |
| BarrierSpec.StaleIndexEndsPhase | zsim/src/barrier.h:148-151 | with another old index its next join ends a phase |
| BarrierFairness.StepEffect | zsim/src/barrier.h:124-279 | within a phase a sync leaves its caller waiting, a leave left, a join waiting or running, and everyone else as they were unless woken; a call that ends the phase finds nobody else running, and one end in thirty-two takes exactly the departed offline |
| BarrierFairness.EndPhaseEffect | zsim/src/barrier.h:201-254 | a phase end counts the phase and takes offline exactly the departed, one time in thirty-two |
| BarrierFairness.StepSynced | zsim/src/barrier.h:124-198 | a thread that has synced in the phase stays behind the cursor, whoever calls; a sync enters its caller, a join takes it out, the end of the phase empties the record |
| BarrierFairness.PhaseEndsIff | zsim/src/barrier.h:201-206 | an orderly call ends the phase if and only if it is a sync, or a leave while running, with everyone else on the list synced or left, and somebody stays |
| BarrierFairness.NeverOver | zsim/src/barrier.h:275-279 | after every call somebody on the list still has to sync, unless all have left: a phase that can end has ended |
| BarrierFairness.RecordIsHistory | zsim/src/barrier.h:124-198 | in every run the record of who has synced is what the calls since the phase began say |
| BarrierFairness.SyncedStaysPut | zsim/src/barrier.h:181-198 | in every run a thread that has synced does not run again before the phase has ended, unless it leaves and joins |
| BarrierFairness.EveryPhaseEndsIff | zsim/src/barrier.h:201-206 | in every orderly run a sync ends the phase exactly when everyone else on the list has synced since it began or left |
| BarrierFairness.ShuffleAt | zsim/src/barrier.h:239-252 | each position gets the thread the number drawn for it names among those not settled yet |
| BarrierFairness.NextOrder | zsim/src/barrier.h:208-253 | the next phase runs in list order, without the departed after one end in thirty-two, shuffled if the list does not fit under the cap |
| BarrierModel.Barrier.constructor | zsim/src/barrier.h:105-119 | everyone starts offline, with an empty list |
| BarrierModel.Barrier.CheckRunList | zsim/src/barrier.h:256-273 | the loop is the specified wake-up |
| BarrierModel.Barrier.Cleanup | zsim/src/barrier.h:216-235 | the in-place compaction, with the assertion on the count |
| BarrierModel.Barrier.ShuffleList | zsim/src/barrier.h:239-252 | the in-place Fisher-Yates loop |
| BarrierModel.Barrier.CheckEndPhase | zsim/src/barrier.h:201-254 | the specified phase end |
| BarrierModel.Barrier.TryWakeNext | zsim/src/barrier.h:275-279 | wake, end the phase if due, wake again |
| BarrierModel.Barrier.Join | zsim/src/barrier.h:124-163 | the specified step on the tables; false exactly when the assertion on the remembered index fails |
| BarrierModel.Barrier.Leave | zsim/src/barrier.h:166-178 | the specified step on the tables |
| BarrierModel.Barrier.Sync | zsim/src/barrier.h:181-198 | the specified step on the tables |
| DdrClock.RoundTrip | zsim/src/ddr_mem.h:251-259 | when the constructor's frequency check passes, a memory cycle m >= 1 translated to a system cycle translates back to m |
| DdrClock.WakeUpMatches | zsim/src/ddr_mem.cpp:336-339 | taking the maximum with the current system cycle still translates back to m exactly when m is not yet past |
| DdrClock.BurstNotPast | zsim/src/ddr_mem.cpp:606-607 | a burst that ends in the current memory cycle or later translates to a system cycle not before now |
| DdrClock.MatchingPositive | zsim/src/ddr_mem.cpp:452-460 | no wake-up is due at system cycle 0, which would mean none |
| ActWindowSpec.AddTradesOldest | zsim/src/ddr_mem.h:59-74 | recording always trades the oldest entry for the new cycle, as multisets |
| ActWindowSpec.AddSortedIff | zsim/src/ddr_mem.h:59-74 | the ring stays in order if and only if the new cycle is not earlier than the second oldest |
| ActWindowSpec.WindowHolds | zsim/src/ddr_mem.cpp:568-575 | if each activation is at least t after the oldest entry, then among any n+1 activations two are at least t apart, ordered ring or not |
| ActWindowSpec.OrderCanBeLost | zsim/src/ddr_mem.h:59-74 | a legal activation can leave the ring out of order |
| ActWindowModel.ActWindow.MinActCycle | zsim/src/ddr_mem.h:55-57 | the oldest slot |
| ActWindowModel.ActWindow.AddActivation | zsim/src/ddr_mem.h:59-74 | the wrap-around shifting loop records the cycle as specified |
| BankQueueSpec.EnqueueFits | zsim/src/ddr_mem.cpp:384-419 | the slot chosen keeps rowHitSeq within the limit, continues its predecessor's row, splits no chain, and has no later request to the row |
| BankQueueSpec.HitIff | zsim/src/ddr_mem.cpp:384-419 | an arrival counts as a row hit and is served ahead of its turn if and only if the last request to its row has room in its chain, which it joins at the end, or the queue is empty and the open row is its own and has room, whose count it continues |
| BankQueueSpec.EnqueueOrdered | zsim/src/ddr_mem.cpp:384-419 | the queue stays in chains: a request with sequence s>0 that is not in front follows a same-row request with s-1, same-row requests stay in arrival order, and a chain is broken off only at the limit |
| BankQueueSpec.EnqueueRoom | zsim/src/ddr_mem.cpp:384-419 | an arrival either stays behind a request or uses up one unit of the room ahead of it |
| BankQueueSpec.OvertakingBounded | zsim/src/ddr_mem.cpp:384-419 | over any run of arrivals and services a request is overtaken at most (chains ahead) x rowHitLimit times |
| BankQueueModel.BankQueue.Queue | zsim/src/ddr_mem.cpp:384-419 | the scan from the back inserts as specified and keeps the order |
| BankQueueModel.BankQueue.PopFront | zsim/src/ddr_mem.cpp:627-629 | service takes the front and keeps the order |
| DdrTimingSpec.ServeGood | zsim/src/ddr_mem.cpp:547-599 | serving any ready request keeps every timing rule, and its column command is later than the bank's previous one, as asserted |
| DdrTimingSpec.RefreshGood | zsim/src/ddr_mem.cpp:634-656 | a refresh closes all banks and no later activation precedes its end |
| DdrTimingSpec.EveryRunInTime | zsim/src/ddr_mem.cpp:491-656 | over every run: bursts never overlap, reads after writes wait for tWTR, column commands come tRCD after their row's activation, activations of a bank are tRAS+tRP apart, recoveries and refreshes are respected |
| DdrTimingSpec.FourActivateWindow | zsim/src/ddr_mem.cpp:568-575 | no five activations of a rank fit into less than tFAW |
| DdrEarliest.ActIsEarliest | zsim/src/ddr_mem.cpp:556-575 | an activation comes at the least cycle that meets every rule against the commands issued before, the bank's last activation, the four-activate window, the arrival, and a precharge after it |
| DdrEarliest.ColIsEarliest | zsim/src/ddr_mem.cpp:547-584 | a column command comes at the least cycle that meets every rule against the commands issued before, the current cycle, and tRCD after an activation |
| DdrEarliest.RefreshIsEarliest | zsim/src/ddr_mem.cpp:634-645 | a refresh starts at the least cycle at which every bank is ready |
| DdrEarliest.EveryRunTight | zsim/src/ddr_mem.cpp:491-656 | in every run what bank and bus remember is exactly what the commands issued ask for, so the three above apply throughout |
| DdrControlSpec.LinkedOnce | zsim/src/ddr_mem.cpp:359-419 | no request is linked into a bank queue twice |
| DdrControlSpec.HeadIsFront | zsim/src/ddr_mem.cpp:516-531 | the request without a predecessor is the front of its bank queue, so the one served is the one popped |
| DdrControlSpec.HeadIsOldest | zsim/src/ddr_mem.cpp:384-419 | it is the oldest of its row in its bank queue |
| DdrControlSpec.SomeHead | zsim/src/ddr_mem.cpp:516-543 | a queue that is not empty has a request that may be considered |
| DdrControlSpec.QueuedOk | zsim/src/ddr_mem.cpp:345-419 | an arrival keeps request queue and bank queues in step: each entry of one stands for exactly one of the other, with the same bank and row |
| DdrControlSpec.RemoveOk | zsim/src/ddr_mem.cpp:627-629 | so does removing a request from both |
| DdrControlSpec.ScanIsLeast | zsim/src/ddr_mem.cpp:516-543 | the scan finds a ready head, or proposes the earliest cycle at which one will be |
| DdrControlSpec.NextHead | zsim/src/ddr_mem.cpp:536-543 | that cycle is later than now, and a scan then finds something |
| DdrControlSpec.IssueKeeps | zsim/src/ddr_mem.cpp:547-631 | issuing keeps both queues in step and all timing rules; the bank's column commands are in order and the response is not in the past, as asserted |
| DdrControlSpec.TryKeeps | zsim/src/ddr_mem.cpp:491-631 | an attempt finds its chosen queue not empty, as asserted, and asks to be woken, never in the past, exactly when something is left |
| DdrControlSpec.TickKeeps | zsim/src/ddr_mem.cpp:426-461 | a tick comes in the memory cycle it was set for, its assertions hold, and it loses no request |
| DdrControlSpec.ArriveCore | zsim/src/ddr_mem.cpp:296-343 | an arrival sets or keeps a wake-up that is not past and finds its cycle, and never displaces a needed one |
| DdrControlSpec.ArriveAccounts | zsim/src/ddr_mem.cpp:296-343 | an arriving request is queued in exactly one place |
| DdrControlSpec.StepKeeps | zsim/src/ddr_mem.cpp:296-656 | every event keeps all of this |
| DdrControlSpec.EveryRunKeeps | zsim/src/ddr_mem.cpp:296-656 | in every run of arrivals, ticks and refreshes no assertion fails, every request has been served or waits in exactly one place, and a wake-up is pending whenever one waits |
| DdrControlSpec.TickWorks | zsim/src/ddr_mem.cpp:426-461 | no tick is wasted: it serves a request, admits one from the overflow queue, or the next is closer to serving |
| DdrControlSpec.EverythingServed | zsim/src/ddr_mem.cpp:426-631 | left alone, the controller serves exactly what has arrived, within a bound on the ticks linear in the requests waiting |
| DdrControlSpec.WakesUpIffRoom | zsim/src/ddr_mem.cpp:300-343 | an arrival at rest sets a wake-up if and only if the queues have room for a request at all |
| DdrPolicy.ScanIsFirst | zsim/src/ddr_mem.cpp:516-534 | the request taken is the first in its queue that heads its bank queue and is ready |
| DdrPolicy.ServedFrom | zsim/src/ddr_mem.cpp:510-514 | writes are served if no read waits, if their queue is over three quarters full, or if the last command was a write and it is over one quarter full; reads otherwise |
| DdrPolicy.WritesGoOn | zsim/src/ddr_mem.cpp:510-514 | once writes are served they go on until their queue is down to a quarter |
| DdrPolicy.EveryRunSorted | zsim/src/ddr_mem.cpp:300-303 | in every run the write queue holds the deferred writes and the read queue everything else |
| DdrPolicy.BankAfterService | zsim/src/ddr_mem.cpp:586-599 | the row stays open unless the page is closed and no row hit waits next; the bank counts hits in a row, and a waiting hit carries the next number |
| DdrPolicy.ArrivalGoesTo | zsim/src/ddr_mem.cpp:300-318 | an arrival goes to the overflow queue exactly when a queue is full, and to the end of its own otherwise |
| DdrPolicy.ArrivalWakes | zsim/src/ddr_mem.cpp:321-341 | an arrival brings the wake-up forward to the cycle it can be served in exactly if it heads its bank queue and that is earlier |
| DdrPolicy.AttemptAsksFor | zsim/src/ddr_mem.cpp:506-543 | an attempt asks for the bus after a service or while it is booked, and otherwise for the least cycle at which a head of the chosen queue is ready |
| DdrPolicy.TickWakes | zsim/src/ddr_mem.cpp:426-461 | a tick sets the next wake-up for exactly that cycle, or an earlier one for a request let in from the overflow queue |
| DdrMemoryModel.DDRMemory.QueueRequest | zsim/src/ddr_mem.cpp:345-419 | puts the request into its request queue and its bank queue as specified |
| DdrMemoryModel.DDRMemory.FindMinCmdCycle | zsim/src/ddr_mem.cpp:470-489 | the earliest cycle of a request's column command |
| DdrMemoryModel.DDRMemory.Scan | zsim/src/ddr_mem.cpp:516-543 | the loop is the specified scan, minimum included |
| DdrMemoryModel.DDRMemory.TrySchedule | zsim/src/ddr_mem.cpp:491-631 | the arbitration between reads and writes, the scan, the service and the returned cycle are the specified ones |
| DdrMemoryModel.DDRMemory.IssueAndDequeue | zsim/src/ddr_mem.cpp:547-629 | issues the request and takes it out of both queues as specified |
| DdrMemoryModel.DDRMemory.IssueRequest | zsim/src/ddr_mem.cpp:547-599 | the bank, window and bus updates are the specified ones |
| DdrMemoryModel.DDRMemory.Enqueue | zsim/src/ddr_mem.cpp:296-343 | the specified arrival, wake-up included |
| DdrMemoryModel.DDRMemory.Tick | zsim/src/ddr_mem.cpp:426-461 | the specified tick; 0 is returned exactly when no wake-up is left |
| DdrMemoryModel.DDRMemory.RefreshAll | zsim/src/ddr_mem.cpp:634-656 | the two loops over all banks perform the specified refresh |
| CreditBook.DynamicPositiveIff | booksim2/src/buffer_state.cpp:322-337 | the dynamic limit is positive for every number of active VCs if and only if the buffer has a slot per VC |
| CreditBook.ShiftingPositiveIff | booksim2/src/buffer_state.cpp:345-370 | the shifting limit is, if and only if the buffer has as many slots as the least power of two covering the VCs |
| CreditBook.LimitsFit | booksim2/src/buffer_state.cpp:322-370 | the limits of all active VCs together never exceed the buffer |
| CreditBook.SharesTotal | booksim2/src/buffer_state.cpp:185-194 | splitting the VCs' slots by private buffer loses none |
| CreditBook.LedgerFits | booksim2/src/buffer_state.cpp:216-237 | private occupancies that are the sums over their VCs, and a shared occupancy that is the sum of excesses within its size, keep the total within the buffer |
| CreditBook.WithinSize | booksim2/src/buffer_state.cpp:626-635 | the flits outstanding never exceed the buffer size, under each of these policies |
| CreditBook.NeverLockedOut | booksim2/src/buffer_state.cpp:239-254 | a packet that has sent a flit but not its tail, and whose VC has no flit outstanding, is never full, under the private, shared, limited, dynamic and shifting policies |
| CreditBook.TakeKeeps | booksim2/src/buffer_state.cpp:658-670 | taking a free VC raises no error and keeps the ledger, reservations and active count |
| CreditBook.SharedSendKeeps | booksim2/src/buffer_state.cpp:216-237 | sending uses up the reserved slot or claims one, and the tail finds nothing left to give back |
| CreditBook.SendKeeps | booksim2/src/buffer_state.cpp:626-656 | sending on a held VC with a slot to spare raises no error and keeps the invariant, waiting for tail credits or not |
| CreditBook.CreditKeeps | booksim2/src/buffer_state.cpp:578-623 | a credit for a VC with flits outstanding raises no error and keeps the invariant; at most one slot is ever reserved |
| CreditBook.CreditsKeep | booksim2/src/buffer_state.cpp:582-622 | the same for a credit carrying a set of VCs |
| CreditRoom.RefusedIffNoRoom | booksim2/src/buffer_state.cpp:239-254 | a VC is refused exactly when it has no room: no slot of its own, private or shared, or no more under the held-slot limit |
| CreditRoom.SendTakesRoom | booksim2/src/buffer_state.cpp:626-656 | a flit takes one unit of room |
| CreditRoom.CreditGivesRoom | booksim2/src/buffer_state.cpp:578-623 | a credit gives one back |
| CreditRoom.BurstIsRoom | booksim2/src/buffer_state.cpp:626-656 | without a credit a packet may send exactly the room its VC has, no flit less and no flit more |
| CreditRoom.ShareFromRest | booksim2/src/buffer_state.cpp:626-670 | from rest it sends its whole share: its slots, or its private buffer and the shared part, up to the held-slot limit |
| CreditRoom.HeldIsGreatest | booksim2/src/buffer_state.cpp:322-370 | the dynamic limit is the greatest all active VCs can have at once, the shifting one the greatest for the power of two covering them |
| CreditRoom.RefusedIffError | booksim2/src/buffer_state.cpp:114-117 | without a held-slot limit a VC is refused exactly when one more flit would be an error, given room in the whole buffer |
| CreditRoom.SendFailsIff | booksim2/src/buffer_state.cpp:626-656 | in every state of a run sending on a held VC is an error exactly without a slot left; a held-slot limit refuses in addition exactly the VCs that have reached it |
| CreditRoom.TakeFailsIff | booksim2/src/buffer_state.cpp:658-670 | in every state of a run taking a VC is an error exactly when it is in use |
| CreditRoom.CreditFailsIff | booksim2/src/buffer_state.cpp:578-623 | in every state of a run a credit is an error exactly when its VC has nothing outstanding |
| BufferStateModel.BufferState.ProcessFreeSlot | booksim2/src/buffer_state.cpp:200-214 | the update of both counters, and exactly when it reports an error |
| BufferStateModel.BufferState.SharedSendingFlit | booksim2/src/buffer_state.cpp:216-237 | the shared policy's update with its loop at the tail |
| BufferStateModel.BufferState.Shift | booksim2/src/buffer_state.cpp:349-354 | the shift loop halves once per bit |
| BufferStateModel.BufferState.PolicySendingFlit | booksim2/src/buffer_state.cpp:288-297 | the policy's reaction to a flit, for each policy |
| BufferStateModel.BufferState.FreeSlotFor | booksim2/src/buffer_state.cpp:239-246 | keeps a slot for an empty VC in use, frees it otherwise |
| BufferStateModel.BufferState.TakeBuffer | booksim2/src/buffer_state.cpp:658-670 | the specified update, false exactly when the VC is in use or the policy reports an error |
| BufferStateModel.BufferState.SendingFlit | booksim2/src/buffer_state.cpp:626-656 | the specified update, false exactly on an error |
| BufferStateModel.BufferState.ProcessCredit | booksim2/src/buffer_state.cpp:578-623 | the loop over the credit's VCs performs the specified update |
| CreditLoop.SendFrontKeeps | booksim2/src/trafficmanager.cpp:1117-1212 | the source's send keeps the whole link's invariant |
| CreditLoop.InjectKeeps | booksim2/src/trafficmanager.cpp:981-1212 | an injection attempt raises no error whatever VC range it is given and whatever an additional limit refuses |
| CreditLoop.RoomToArrive | booksim2/src/buffer.cpp:66-70 | whenever a flit is on its way, the input buffer has room |
| CreditLoop.ArriveKeeps | booksim2/src/vc.cpp:80-108 | an arriving flit overflows nothing and belongs to the packet its VC expects |
| CreditLoop.DrainKeeps | booksim2/src/buffer.hpp:58-67 | a flit leaving the buffer turns into a credit under way |
| CreditLoop.ReturnKeeps | booksim2/src/buffer_state.cpp:578-623 | a returning credit is always for flits the sender has outstanding |
| CreditLoop.StepKeeps | booksim2/src/buffer_state.cpp:578-670 | every step conserves, per VC, outstanding == flits on the way + flits buffered + credits on the way |
| CreditLoop.EveryRunConserves | booksim2/src/trafficmanager.cpp:1060-1212 | in every interleaving of any length no error is raised at either end: no overflow, no unexpected packet, no negative count, no credit for an idle VC |
| CreditLoop.IdleLinkSends | booksim2/src/trafficmanager.cpp:1060-1212 | once a link has come to rest, a waiting flit is sent at the next attempt, whatever happened before |
| CreditLoop.SearchFailsIff | booksim2/src/trafficmanager.cpp:1060-1087 | the search finds a usable VC if there is one, provided the last VC used is in range; otherwise it looks at the first VC of the range only |
| CreditLoop.SearchMissesFreeVc | booksim2/src/trafficmanager.cpp:1060-1087 | from a new link, packets on the upper, the lower and again the upper two of four VCs: the third is held back although VC 3 is free and empty |
| CreditOrder.SearchIsFirst | booksim2/src/trafficmanager.cpp:1060-1087 | the search takes the first usable VC after the one used last, going round |
| CreditOrder.ChosenInTurn | booksim2/src/trafficmanager.cpp:1060-1087 | a VC that is usable at every attempt is chosen before the range has been gone through once |
| CreditOrder.InjectSendsIff | booksim2/src/trafficmanager.cpp:1014-1212 | an attempt sends the front flit if and only if there is a VC it may be sent on, and changes nothing otherwise |
| CreditOrder.StreamStep | booksim2/src/trafficmanager.cpp:1117-1212 | every step keeps each VC's flits in order from the source to the router's buffer |
| CreditOrder.EveryRunInOrder | booksim2/src/trafficmanager.cpp:1060-1212 | in every run the flits of a VC leave in the order they entered, none lost or repeated |
| CreditOrder.ArrivalRefusedIff | booksim2/src/vc.cpp:80-108 | the buffer reports an error exactly for a flit without a free place or of another packet than the one under way |
| RouterBufferModel.VirtualChannel.AddFlit | booksim2/src/vc.cpp:80-108 | accepts exactly the flits of the packet under way and tracks the expected packet |
| RouterBufferModel.VirtualChannel.RemoveFlit | booksim2/src/vc.cpp:110-123 | first in, first out; an empty VC is an error |
| RouterBufferModel.Buffer.AddFlit | booksim2/src/buffer.cpp:66-76 | the overflow check, the count and the VC's queue |
| RouterBufferModel.Buffer.RemoveFlit | booksim2/src/buffer.hpp:58-67 | the count and the VC's queue |
| RouterBufferModel.TrafficSource.SelectVc | booksim2/src/trafficmanager.cpp:1060-1087 | the loop is the specified search |
| RouterBufferModel.TrafficSource.Inject | booksim2/src/trafficmanager.cpp:1014-1212 | one attempt on the source's list and the book is the specified injection |
| ChannelModel.Channel.ReadInputs | booksim2/src/channel.hpp:101-107 | takes in what the last cycle sent, due delay-1 cycles from now |
| ChannelModel.Channel.WriteOutputs | booksim2/src/channel.hpp:114-129 | what comes out in a cycle is exactly what was sent delay cycles before; the assertion on the due time never fails |
| ChannelModel.PendingFirst | booksim2/src/channel.hpp:114-129 | the head of the queue is what was sent in the oldest open cycle, if anything was |
| FeedbackSpec.RttBetween | booksim2/src/buffer_state.cpp:401-409 | the smoothed round trip lies between the old estimate and the sample, and stays put exactly for samples from the old estimate up to, but not including, one aging step above it |
| FeedbackSpec.MaxSlotsPositive | booksim2/src/buffer_state.cpp:411-429 | the slot limit is at least one, so it never refuses an empty VC either, and at most the stored limit |
| FeedbackSpec.SampleIsOwn | booksim2/src/buffer_state.cpp:522-543 | a timed credit is timed against its own flit; any other leaves estimate and limit alone |
| FeedbackSpec.SendKeeps | booksim2/src/buffer_state.cpp:504-520 | at most one probe per VC, and pending credits count exactly the flits sent before it |
| FeedbackSpec.FreeKeeps | booksim2/src/buffer_state.cpp:431-477 | the same after a credit, and the total mapped size stays the sum of the limits |
| FeedbackSpec.EveryRunFaithful | booksim2/src/buffer_state.cpp:395-543 | over every run with in-order credits each measured round trip is that of one flit and no assertion fails, for the plain and the simple policy |
| FeedbackModel.FeedbackPolicy.SendingFlit | booksim2/src/buffer_state.cpp:504-520 | the specified update of the vectors; false exactly when a probe is sent with no flit outstanding |
| FeedbackModel.FeedbackPolicy.FreeSlotFor | booksim2/src/buffer_state.cpp:522-543 | the specified update; false exactly when a timed or a pending credit comes without a recorded flit |
| Digits.NumberOfCoords | booksim2/src/routefunc.cpp:540-569 | every router number is the number of its coordinates |
| Digits.CoordsOfNumber | booksim2/src/routefunc.cpp:540-569 | and coordinates are those of their number |
| Digits.DigitAt | booksim2/src/networks/kncube.cpp:200-229 | dividing by k^d and taking the remainder by k gives coordinate d |
| MeshRouting.HopProgress | booksim2/src/routefunc.cpp:540-569 | every hop stays in the mesh and comes one step closer |
| MeshRouting.RouteIsMinimal | booksim2/src/routefunc.cpp:540-569 | every route, ascending or descending, leads to its destination in exactly the Manhattan distance and ejects only there |
| MeshRouting.NoShorterWalk | booksim2/src/routefunc.cpp:540-569 | no sequence of hops is shorter |
| MeshRouting.RouteRanked | booksim2/src/routefunc.cpp:540-569 | a rank of the channel alone strictly increases along every route |
| MeshRouting.NoCyclicWait | booksim2/src/routefunc.cpp:540-569 | no ring of packets each waiting for the channel the next holds |
| MeshRouting.HalvesKeptIffEven | booksim2/src/routefunc.cpp:507-529 | xy_yx_mesh keeps packets in their half for all offered VCs if and only if the class has an even number of VCs |
| MeshRouting.EvenClassIsHalved | booksim2/src/routefunc.cpp:507-529 | with an even class each order is offered all VCs of its own half |
| MeshRouting.SplitRouteStaysInHalf | booksim2/src/routefunc.cpp:476-532 | with an even class a packet's route from any router on, whatever VCs it gets, is the dimension order its half stands for |
| MeshRouting.InjectedRouteKeepsItsCoin | booksim2/src/routefunc.cpp:476-532 | with an even class the order drawn at the source is the order of the packet's whole route, whatever VCs it gets |
| MeshRouting.DorNextMesh | booksim2/src/routefunc.cpp:540-569 | the computation on router numbers gives the port the coordinates call for, in both orders |
| MeshRouting.LowestDifference | booksim2/src/routefunc.cpp:556-563 | stripping low digits finds the first dimension that differs |
| MeshRouting.HighestDifference | booksim2/src/routefunc.cpp:549-568 | rotating high digits out through the router count finds the last one and its direction |
| MeshRouting.RotateDigits | booksim2/src/routefunc.cpp:549-555 | the loop stops at the last dimension that differs, with the numbers rotated so that their top digits are its coordinates |
| TorusRouting.TurnIsBound | booksim2/src/routefunc.cpp:587-627 | for every ring size the direction chosen is a shortest one and the partition keeps the packet off its forbidden link, balanced or not |
| TorusRouting.TurnFollowsCoins | booksim2/src/routefunc.cpp:587-627 | the shorter way is taken, a coin decides between equal ones; balanced, the partition is forced by the link crossed and otherwise left to a coin; unbalanced, it says whether the closing link is crossed |
| TorusRouting.LastRankIsCut | booksim2/src/routefunc.cpp:599-626 | a class's forbidden link is the one place where its ring order would close |
| TorusRouting.HopIsSafe | booksim2/src/routefunc.cpp:573-639 | every hop keeps the packet bound, one hop closer, and off the forbidden link |
| TorusRouting.RouteArrives | booksim2/src/routefunc.cpp:573-639 | every route ends at its destination after exactly the torus distance |
| TorusRouting.NoShorterWalk | booksim2/src/routefunc.cpp:573-639 | no walk is shorter |
| TorusRouting.RouteAvoidsCut | booksim2/src/routefunc.cpp:599-626 | no route crosses the wraparound link in one partition or the mid-ring link in the other; roles swap downwards when unbalanced |
| TorusRouting.RouteRanked | booksim2/src/routefunc.cpp:573-639 | a rank of channel and partition strictly increases along every route |
| TorusRouting.NoCyclicWait | booksim2/src/routefunc.cpp:1544-1562 | no ring of packets each waiting for the channel and partition the next holds |
| TorusRouting.VcTellsPartitionIffEven | booksim2/src/routefunc.cpp:1549-1562 | the VC alone tells the partition if and only if the class has an even number of VCs |
| TorusRouting.EvenClassIsHalved | booksim2/src/routefunc.cpp:1549-1562 | with an even class each partition is offered all VCs of its own half |
| TorusRouting.DorNextTorus | booksim2/src/routefunc.cpp:573-639 | the computation on router numbers is the specified decision, and the partition is left alone unless the packet starts along a new ring |
| Wiring.NodeBeyondIs | booksim2/src/networks/kncube.cpp:200-229 | the router number computed for the far end of an output port is that of the coordinates one step on, round the ring at its end |
| Wiring.LinksArePaired | booksim2/src/networks/kncube.cpp:115-155 | the port opposite to the one a link leaves by leads back |
| Wiring.FollowIsWalk | booksim2/src/networks/kncube.cpp:200-229 | following wires on router numbers is walking on coordinates |
| Wiring.MeshRouteArrives | booksim2/src/routefunc.cpp:540-569 | on a mesh the wires of any route lead from its source's number to its destination's, never round |
| Wiring.TorusRouteArrives | booksim2/src/routefunc.cpp:573-639 | on a torus the wires of any route lead there, whatever bits are drawn |

## Left out

- NoC variants of the directory code (`nocReq`, `srcId` indexing, `nocChildId`), `nonInclusiveHack`, `PUTX_KEEPEXCL`, FWD invalidations, latencies and event records.
- More than one cache line in the MESI models (`CacheSpec` shows that a cache treats its lines independently), and the last-level flag anywhere but at the root.
- MesiControllers.CacheNode.BottomProcessAccess: takes what the level above would write as an argument, because the upward call through parent pointers is modelled on values (MesiTree, MesiRaces); the object tree covers everything below.
- MesiRaces.StepCorrect: a child whose request is under way can be invalidated there but not act below itself, because that model looks at one parent; MesiConcurrent.StepKeeps has requests under way at every level.
- A cache with two requests for one line under way at once: each cache sends one at a time.
- CacheModel.CacheUnit.ProcessEviction: the controllers' work is any function that clears the entry, because what it does at other levels is in the MESI models; CacheSpec.EvictionClears ties the two together.
- CacheModel.CacheUnit.ServeLine: likewise any function of the entry.
- SetAssocArray, replacement-policy internals and hash functions.
- Futex waiting and wake-up races, the phase callback, and the scheduler around the barrier.
- DdrMemoryModel.DDRMemory.Tick: does not model recycling of event objects, statistics, responses to the requesters beyond their cycle, and 64-bit overflow.
- DdrControlSpec.EverythingServed: assumes no refresh while the queues drain, because the source sets no relation between refreshes and service; no bound holds if refreshes come faster than a request can be served.
- Address mapping: a request comes with its rank, bank and row.
- tRRD between banks of a rank: the source applies it per bank only.
- BufferStateModel.BufferState.PolicySendingFlit: one method for the policy subclasses' overrides, so dispatch through the class hierarchy is not modelled.
- The constructors' parsing of private-buffer ranges (a configuration is a map from every VC to its private buffer), `IncVcBufferSize`, and `buf_size` equal to 0.
- Several traffic classes or subnets sharing one source; look-ahead routing; packets with a creation time in the future.
- A router that puts two flits of one VC into one credit: the credit is a set, so the model lets a VC enter it once.
- CreditLoop.EveryRunConserves: lets the channels deliver after any delay; the exact delay is proved for the channel by itself.
- The routers between source and destination, and the adaptive, Valiant, tree and fat-tree routing functions.
- Overflow of 32-bit products in the port computations.
