# A verified model of go-hyperforge's algorithms and protocols

This project models, in Dafny 4.11, the parts of go-hyperforge that are algorithms or protocols rather
than adapters, and proves what they promise over all inputs and all runs. `dafny verify dfyconfig.toml`
checks everything; there are no assumptions and no unproved members.

| file | models | main result |
|---|---|---|
| `DoubleLru.dfy`, `Arc.dfy` | the Adaptive Replacement Cache | its four lists always satisfy the joint ARC invariant and refine the double LRU directory DBL(2c) |
| `Bits.dfy`, `Fnv.dfy` | the two-limb double hash | equals 128-bit FNV-1a |
| `BloomFilter.dfy` | the packed Bloom filter | any sequence of operations on any filters leaves each holding exactly what it received since its last Clear |
| `BloomCache.dfy` | the cache accelerator | answers like the plain cache over every call sequence |
| `Dedup.dfy` | the deduplicating consumer | one handler per key at a time, at most one success |
| `Semaphore.dfy` | the weighted semaphore and the bulkhead | FIFO grants, exact accounting under racing cancellations, and exactly when callers get stuck |
| `CircuitBreaker.dfy` | the circuit breaker | threshold, timeout and probe accounting under stale completions |
| `FanOut.dfy` | `Pipeline`, `FanIn`, `FanOutFanIn` | conservation of results, completeness at close, and exactly when the pipeline finishes |
| `MinHeap.dfy`, `ScatterGather.dfy` | the binary heap and the gather phase | the k best of all shards, whatever the arrival order |
| `Crdt.dfy` | the grow-only and positive-negative counters | convergence to the true total |
| `AuditChain.dfy` | the audit hash chain | tampering shows, or the two chains exhibit a digest collision |
| `Redaction.dfy` | the redacting log handler | the shortcuts change nothing, and what is forwarded does not depend on secrets |
| `Metering.dfy` | usage summaries and period buckets | conservation of quantities and counts, one bucket per event |

Form: an object that the source updates in place is a class whose methods are proved against functions
on its state; a protocol is a set of callers taking atomic steps, one step per region that the source
runs under a lock, and a run is any sequence of enabled steps. Histories (touches, grants, logs) are
recorded beside the state so that claims about whole runs can be stated.

## Properties that hold only under a condition

Each of these is proved together with the exact condition under which the property does hold.

- The breaker stores the time of opening in whole milliseconds, so a timeout that is not negative
  can be cut short by almost a millisecond (`EarlyAdmission`, `FullTimeoutIff`).
- `MaxRequests` is documented as a cap on concurrent half-open probes, but reservations are never
  returned: it caps the probes of an episode. With fewer probes than needed successes the breaker gets
  stuck half-open (`NeverWedgedIff`, `WedgedStays`).
- Cancelling an ungranted waiter at the head of the semaphore's queue does not wake its successor
  (`NeverIdleIff`, `MissedWakeup`). With weights within the limit the next release makes up for it
  and is still to come (`ReleaseServes`, `NeverStuck`); after a cancelled call for more than the limit
  nobody may be left to release anything, and the semaphore grants nothing until every waiter has given
  up (`NeverStuckIff`, `StuckForGood`). With equal weights no wake-up is missed (`UniformNeverIdle`).
- With a cancelled context and a negative filter, the accelerated cache reports a missing key instead of
  the cancellation (`BloomCache.Cache.GetKey`, `BloomCache.Cache.KeyExists`).
- Resetting the deduplicating consumer while a handler runs lets a second handler of the same key start
  (`ResetSafeIffQuiet`).
- A search limit below one returns one result if any score is positive (`NonPositiveLimit`).
- Merging counters does not copy zero entries, so merge is commutative on entries and counts but not on
  the maps (`MapsCommuteIff`).
- An event before the Unix epoch lands in a period that does not contain it, unless it is on a boundary
  (`InItsPeriodIff`, `CoveredIff`).
- `FanOutFanIn` without workers closes at once and drops the input (`ClosedMeansComplete`).
- Workers that wait for input do not watch the context: if the sender stops without closing its channel,
  cancelling does not end the pipeline (`AlwaysFinishesIff`, `StarvedStays`).
- Deduplication keys of different messages can coincide (`SameKeyIff`).

## Model

| member | source | states |
|---|---|---|
| Arc.SetValid | pkg/datastructures/arc/arc.go:62-139 | Set keeps the joint invariant (lists duplicate-free and disjoint, exactly the keys of the index with matching list and ghost flag; T1+B1, T1+T2, total and p bounded; any ghost means a full cache), moves T1+B1 and T2+B2 exactly as the DBL(2c) directory moves on a touch, and leaves the key resident with the new value |
| Arc.GetValid | pkg/datastructures/arc/arc.go:43-60 | Get keeps the invariant and is a directory touch on a hit, nothing on a miss or ghost |
| Arc.ReplaceDemotes | pkg/datastructures/arc/arc.go:141-163 | in every situation where Set calls it (a full cache, and T1 not filling it unless the key comes from B2), replace leaves exactly one slot free, so T2 is never found empty when it is needed, and T1+B1 and T2+B2 do not move |
| Arc.ReplaceLinked | pkg/datastructures/arc/arc.go:141-163 | replace keeps lists and index consistent and forgets no key |
| Arc.PromoteTouches | pkg/datastructures/arc/arc.go:58-75 | moving a known key to the front of T2 is exactly the directory touch of that key |
| Arc.MissValid | pkg/datastructures/arc/arc.go:117-139 | inserting an unknown key keeps the invariant and is a directory touch |
| Arc.SetGrows | pkg/datastructures/arc/arc.go:62-139 | the resident count grows by one exactly for an unknown key in a cache that is not full, and otherwise stays |
| Arc.TowardsTarget | pkg/datastructures/arc/arc.go:141-163 | with both resident lists non-empty: T1 gives way if it is above target, or at target on a B2 hit, else T2; the list loses its last key, which heads the matching ghost list, and the other list is untouched |
| Arc.TargetMoves | pkg/datastructures/arc/arc.go:78-84 | only ghost hits move p, by max(1, ratio of the ghost lists), up for B1 and down for B2, within 0..capacity |
| Arc.RoomMade | pkg/datastructures/arc/arc.go:117-133 | before an unknown key is inserted one slot is free and the directory dropped exactly the key DBL(2c) drops |
| Arc.GhostHit | pkg/datastructures/arc/arc.go:78-115 | a hit on B1 or B2 keeps the invariant and is a directory touch, whatever the adapted target |
| Arc.SetKeepsValues | pkg/datastructures/arc/arc.go:62-163 | setting one key never makes another resident or changes its value |
| Arc.SetIsExact | pkg/datastructures/arc/arc.go:62-163 | for every Set, told by the states before and after alone: where the key goes, what p becomes, which of T1 and T2 gives way (on a ghost hit judged by the new p), which key becomes which ghost, and which ghost is forgotten |
| Arc.GetIsExact | pkg/datastructures/arc/arc.go:43-60 | a hit moves the key to the front of T2 and changes nothing else; a miss changes nothing |
| Arc.GhostReturnsTo | pkg/datastructures/arc/arc.go:77-115 | the ghost case of that |
| Arc.NewcomerEntersAt | pkg/datastructures/arc/arc.go:117-139 | the case of an unknown key |
| Arc.WhoLeaves | pkg/datastructures/arc/arc.go:62-163 | a key stops being resident on a Set if and only if it is the last of the list that gives way, and then no other does |
| Arc.RunIsExact | pkg/datastructures/arc/arc.go:43-163 | the same for every operation of every run |
| Arc.CapacityStays | pkg/datastructures/arc/arc.go:27-41 | in every run the capacity is the one asked for, or one |
| Arc.RunFaithful | pkg/datastructures/arc/arc.go:27-163 | after every sequence of Get and Set from New the invariant holds, the directory equals DBL(2c) run on the touches, resident values are the last ones Set, and nothing was dropped while there was room |
| Arc.ResidentCount | pkg/datastructures/arc/arc.go:27-139 | in every run the number of resident entries is the smaller of the capacity asked for (at least one) and the distinct keys ever Set |
| Arc.HitsAreCurrent | pkg/datastructures/arc/arc.go:43-139 | in every run a hit returns the value last Set, and a Set is visible to the next Get |
| Arc.ListsByRecency | pkg/datastructures/arc/arc.go:14-15 | in every run T1 then B1, and T2 then B2, are ordered from most to least recently touched, and T2/B2 keys were touched at least twice |
| Arc.Cache.constructor | pkg/datastructures/arc/arc.go:27-41 | an empty valid cache of the capacity asked for, at least one |
| Arc.Cache.Get | pkg/datastructures/arc/arc.go:43-60 | a hit exactly if resident, with its value, else the zero value; the lists move as GetIsExact says |
| Arc.Cache.Set | pkg/datastructures/arc/arc.go:62-139 | the in-place update of lists and index keeps the invariant and moves the lists as SetIsExact says, for every key and value |
| Arc.Cache.Adapt | pkg/datastructures/arc/arc.go:79-84 | the new target, with the division proved safe |
| Arc.Cache.HitGhost | pkg/datastructures/arc/arc.go:77-115 | the target is stored before it decides who is demoted; the whole effect is that of GhostReturnsTo |
| Arc.Cache.Readmit | pkg/datastructures/arc/arc.go:85-115 | target stored, one resident demoted, key moved to the front of T2, in that order |
| Arc.Cache.Admit | pkg/datastructures/arc/arc.go:117-139 | room is made before the insertion at the front of T1 |
| Arc.Cache.FreeSlot | pkg/datastructures/arc/arc.go:119-133 | the eviction branches before an insertion act as MakeRoom, the subject of RoomMade, in every state |
| Arc.Cache.DemoteOne | pkg/datastructures/arc/arc.go:141-163 | acts as Replace, the subject of ReplaceDemotes and TowardsTarget, in every state, the one with an empty T2 included |
| Arc.Cache.Remove | pkg/datastructures/arc/arc.go:165-176 | takes the key off the list its entry names and no other |
| Arc.Cache.Evict | pkg/datastructures/arc/arc.go:178-186 | drops the last key of the list and its index entry; nothing on an empty list |
| DoubleLru.RecencyOrder | pkg/datastructures/arc/arc.go:14-15 | the reference directory is ordered by recency, its lists are disjoint, and its second list holds keys touched at least twice |
| DoubleLru.TouchKeepsOrder | pkg/datastructures/arc/arc.go:14-15 | one touch keeps both reference lists ordered by recency and disjoint |
| Fnv.DoubleHash | pkg/datastructures/bloomfilter/bloomfilter.go:159-183 | for every byte string the two limbs are the 128-bit FNV-1a hash computed on a single number |
| Fnv.LimbPrime | pkg/datastructures/bloomfilter/bloomfilter.go:169-179 | multiplying limb by limb with wrapping 64-bit words is multiplication by 2^88+315 modulo 2^128 |
| Fnv.LimbXor | pkg/datastructures/bloomfilter/bloomfilter.go:167 | the exclusive-or with a byte touches the low limb only |
| Bits.XorBit | pkg/datastructures/bloomfilter/bloomfilter.go:167 | exclusive-or acts bit by bit |
| Bits.OrBit | pkg/datastructures/bloomfilter/bloomfilter.go:90 | or acts bit by bit |
| Bits.MaskTests | pkg/datastructures/bloomfilter/bloomfilter.go:115 | masking with a shifted one tests exactly that bit |
| BloomFilter.Filter.constructor | pkg/datastructures/bloomfilter/bloomfilter.go:65-73 | an empty filter of any size the parameters can name; it is valid, so usable, if and only if it has at least one bit and the rounding up to words does not wrap |
| BloomFilter.Filter.Add | pkg/datastructures/bloomfilter/bloomfilter.go:76-93 | indexing in bounds; the words hold exactly the positions of the old members plus the new one; the count wraps at 64 bits |
| BloomFilter.Filter.Mark | pkg/datastructures/bloomfilter/bloomfilter.go:87-90 | or-ing a shifted one into a word adds exactly that position |
| BloomFilter.Filter.Marked | pkg/datastructures/bloomfilter/bloomfilter.go:112-117 | masking a word tells whether exactly that position is set |
| BloomFilter.Filter.Contains | pkg/datastructures/bloomfilter/bloomfilter.go:102-120 | true exactly if every position of the element is among the members' positions |
| BloomFilter.Filter.Clear | pkg/datastructures/bloomfilter/bloomfilter.go:148-155 | no members, all bits zero |
| BloomFilter.Filter.Union | pkg/datastructures/bloomfilter/bloomfilter.go:193-208 | refuses another shape unchanged; otherwise holds exactly both filters' members |
| BloomFilter.Filter.MergeWords | pkg/datastructures/bloomfilter/bloomfilter.go:203-205 | or-ing word by word gives exactly the union of the two position sets |
| BloomFilter.NoFalseNegatives | pkg/datastructures/bloomfilter/bloomfilter.go:3-5 | a member always tests as contained |
| BloomFilter.PositionsStride | pkg/datastructures/bloomfilter/bloomfilter.go:84-90 | position 0 is the high limb of the hash and each next one is the low limb further on modulo 2^64, reduced to the number of bits |
| BloomFilter.RunFleet | pkg/datastructures/bloomfilter/bloomfilter.go:76-208 | after any sequence of Add, Clear and Union on any filters that share no memory, of whatever shapes and contents, each filter is valid and holds exactly what its history says it received |
| BloomFilter.QueryFleet | pkg/datastructures/bloomfilter/bloomfilter.go:76-208 | the answer of Contains after any such sequence is the Bloom test on what the filter received, and true for everything it received |
| BloomFilter.StepFleet | pkg/datastructures/bloomfilter/bloomfilter.go:76-208 | one operation changes the contents of its filter alone, and a Union of different shapes changes none |
| BloomFilter.ReceivedIff | pkg/datastructures/bloomfilter/bloomfilter.go:76-208 | a filter has received an element if and only if it had it at the start, or some operation added it or merged a filter of the same shape holding it, and no Clear followed |
| BloomFilter.ReceivedStays | pkg/datastructures/bloomfilter/bloomfilter.go:76-208 | what a filter once received it keeps until its next Clear |
| BloomCache.Cache.constructor | pkg/cache/bloom.go:35-41 | wraps a cache in any state with an empty filter; coherent if and only if the wrapped cache is empty, so Warm is needed otherwise |
| BloomCache.Cache.GetKey | pkg/cache/bloom.go:43-53 | the plain cache's answer, if and only if the context is live or the filter may contain the key; otherwise not found |
| BloomCache.Cache.KeyExists | pkg/cache/bloom.go:67-73 | the plain cache's answer, if and only if the context is live or the filter may contain the key; otherwise no |
| BloomCache.Cache.GetKeys | pkg/cache/bloom.go:75-83 | dropping keys the filter rules out never changes the plain cache's answer, decoding errors included |
| BloomCache.SkipAbsent | pkg/cache/bloom.go:76-82 | leaving an absent key out of a multi-get changes neither result nor error |
| BloomCache.PlainKeys | pkg/cache/bloom.go:55-105 | the only keys an operation can bring into the wrapped cache are those it registers in the filter |
| BloomCache.Cache.Absent | pkg/cache/bloom.go:43-50 | in a coherent cache a key the filter rules out is not in the wrapped cache |
| BloomCache.Cache.SetKey | pkg/cache/bloom.go:55-59 | acts and answers like the plain cache and stays coherent |
| BloomCache.Cache.DeleteKey | pkg/cache/bloom.go:61-65 | acts and answers like the plain cache and stays coherent although the filter forgets nothing |
| BloomCache.Cache.SetKeys | pkg/cache/bloom.go:85-90 | acts and answers like the plain cache and stays coherent, also if encoding fails midway |
| BloomCache.Cache.IncrKey | pkg/cache/bloom.go:100-104 | acts and answers like the plain cache, 64-bit wrap-around included, and stays coherent |
| BloomCache.IncrExactIff | pkg/cache/adapters/memory/memory.go:200-232 | an increment replies the true sum if and only if it is a 64-bit integer; an expired or missing counter starts from zero |
| BloomCache.Cache.ExpireKey | pkg/cache/bloom.go:92-94 | acts and answers like the plain cache and stays coherent |
| BloomCache.Cache.Warm | pkg/cache/bloom.go:131-135 | registers the keys; if they are all the wrapped cache holds, the cache is coherent |
| BloomCache.Cache.Perform | pkg/cache/bloom.go:43-104 | any one call: the wrapped cache changes as if used directly, and with a live context so does the reply |
| BloomCache.Cache.PerformAll | pkg/cache/bloom.go:43-104 | over every sequence of calls the wrapped cache evolves as if used directly, every call with a live context gets the plain cache's reply, and that reply follows from the earlier calls as ReplyLaw says |
| BloomCache.ReplyLaw | pkg/cache/adapters/memory/memory.go:49-232 | the reply to every call of every sequence follows from the earlier calls on the keys it names: Get, Exists and MGet see the last value written and not deleted, with the deadline of its ttl or of the last successful Expire; the replies to writes likewise |
| BloomCache.StoredIsFate | pkg/cache/adapters/memory/memory.go:49-232 | after every sequence of calls what is stored under a key is determined by the calls that concern it |
| BloomCache.FateSkips | pkg/cache/adapters/memory/memory.go:49-232 | calls on other keys, reads and calls with a cancelled context do not matter |
| BloomCache.MultiGetLaw | pkg/cache/adapters/memory/memory.go:111-136 | a multi-get fails exactly if a usable value does not decode, and otherwise finds exactly the usable keys with their values |
| BloomCache.SetThenGet | pkg/cache/adapters/memory/memory.go:49-85 | a Get after the last Set of its key returns that value, or expired once its ttl has passed |
| BloomCache.GoneUntilWritten | pkg/cache/adapters/memory/memory.go:49-95 | a key deleted, or never there, is not found until it is written again |
| Dedup.Consumer.constructor | pkg/messaging/dedup.go:33-46 | nothing done, nothing in flight, and a valid empty filter |
| Dedup.Consumer.Claim | pkg/messaging/dedup.go:54-64 | admitted exactly if neither in the filter nor in flight itself, whatever else is; only then is anything changed |
| Dedup.Consumer.Complete | pkg/messaging/dedup.go:68-73 | the second critical section: the key leaves the in-flight set, and enters the filter exactly on success |
| Dedup.Consumer.Reset | pkg/messaging/dedup.go:108-113 | forgets everything, in-flight keys included |
| Dedup.SameKeyIff | pkg/messaging/dedup.go:83-88 | for all messages, exactly which share a key: equal ids; an id equal to the other topic, colon and payload; or without ids the same topic and payload, or a colon of one topic taking the place of the separator |
| Dedup.KeyTellsApart | pkg/messaging/dedup.go:83-88 | in particular messages without id and with colon-free topics share a key exactly if they agree on topic and payload |
| Dedup.KeysCanClash | pkg/messaging/dedup.go:83-88 | both kinds of clash between different messages do occur |
| Dedup.StepExclusive | pkg/messaging/dedup.go:48-77 | every step but Reset keeps each running handler in sole possession of its key |
| Dedup.StepTruthful | pkg/messaging/dedup.go:48-77 | every step but Reset keeps in-flight keys and filter in line with each key's history |
| Dedup.RunExclusive | pkg/messaging/dedup.go:48-77 | sole possession over every run without Reset |
| Dedup.RunTruthful | pkg/messaging/dedup.go:48-77 | agreement with the history over every run without Reset |
| Dedup.DoneIsNotClaimable | pkg/messaging/dedup.go:54-64 | a key whose handler succeeded is never admitted |
| Dedup.RedeliveryOverlaps | pkg/messaging/dedup.go:106-113 | redelivering a running key right after a Reset overlaps |
| Dedup.AtMostOnce | pkg/messaging/dedup.go:10-11 | in every run without Reset handlers of one key never overlap and its history is: run, fail, run again, succeed, never again |
| Dedup.StartsIff | pkg/messaging/dedup.go:48-77 | in every run without Reset, from the history alone: a delivery starts a handler if and only if its key is idle and the filter of the keys that succeeded does not claim it; one turned away changes nothing |
| Dedup.RetriedIff | pkg/messaging/dedup.go:66-77 | in every run without Reset: a success is recorded and its key never admitted again; a failure is recorded and its key admitted again unless the filter mistakes it |
| Dedup.DoneIsSuccesses | pkg/messaging/dedup.go:66-77 | the filter holds exactly the keys with a success on record |
| Dedup.NothingAfterSuccess | pkg/messaging/dedup.go:10-11 | after a success no event of that key follows |
| Dedup.ResetSafeIffQuiet | pkg/messaging/dedup.go:106-113 | with at least one hash function, no continuation of a Reset overlaps if and only if no handler was running |
| Semaphore.Sem.constructor | pkg/concurrency/semaphore.go:20-24 | nothing in use, nobody waiting |
| Semaphore.Sem.Acquire | pkg/concurrency/semaphore.go:26-36 | takes the units and says so exactly if they fit and nobody waits, else takes none and queues at the end |
| Semaphore.Sem.Cancel | pkg/concurrency/semaphore.go:39-58 | leaves the queue, and gives back and passes on a grant that raced the cancellation |
| Semaphore.Sem.RemoveWaiter | pkg/concurrency/semaphore.go:43-48 | removes exactly the waiter of that call |
| Semaphore.Sem.TryAcquire | pkg/concurrency/semaphore.go:64-72 | takes the units and says so exactly if they fit and nobody waits, else changes nothing |
| Semaphore.Sem.Release | pkg/concurrency/semaphore.go:74-83 | gives units back and wakes |
| Semaphore.Sem.NotifyWaiters | pkg/concurrency/semaphore.go:85-99 | the loop grants from the front exactly while the head fits |
| Semaphore.StepKeeps | pkg/concurrency/semaphore.go:26-99 | every step of every caller keeps: units in use = sum of granted, unreleased weights within the limit; queue = queued calls in arrival order; grants in arrival order and before everything queued |
| Semaphore.WakeKeeps | pkg/concurrency/semaphore.go:85-99 | waking waiters keeps the invariant and is the loop of the source |
| Semaphore.RunInv | pkg/concurrency/semaphore.go:26-99 | the invariant in every run |
| Semaphore.RunMore | pkg/concurrency/semaphore.go:26-99 | every enabled step extends every run, so runs are all interleavings |
| Semaphore.StepIsRegion | pkg/concurrency/semaphore.go:26-99 | each protocol step does to the semaphore exactly what the locked region does |
| Semaphore.RunIsSafe | pkg/concurrency/semaphore.go:26-99 | the above over every run with interleaved cancellations; a queued call was never granted, a granted one is never queued |
| Semaphore.NewCallIff | pkg/concurrency/semaphore.go:26-72 | in every run, from the calls alone: a TryAcquire holds its units if what is granted leaves room and nobody is queued, else is refused; an Acquire holds or queues by the same condition; the replies of both methods are that condition |
| Semaphore.StepEffects | pkg/concurrency/semaphore.go:39-83 | in every run: returning, cancelling and releasing change exactly the call they name, beyond grants to queued calls |
| Semaphore.NotifyGrantsFirst | pkg/concurrency/semaphore.go:85-99 | waking grants exactly a prefix of the queue, each call of it because it fitted in its turn, and stops because the next does not fit |
| Semaphore.NothingLeaks | pkg/concurrency/semaphore.go:49-56 | in every run, once no call is granted or holding, no unit is in use, cancelled grants included |
| Semaphore.IdleUnitsExactly | pkg/concurrency/semaphore.go:43-57 | from a state without a servable head every step avoids one, except exactly cancelling an ungranted head whose successor fits |
| Semaphore.NeverIdleIff | pkg/concurrency/semaphore.go:26-99 | over whole runs: no state has a servable head waiting if and only if the run never cancels an ungranted head whose successor fits |
| Semaphore.NeverStuck | pkg/concurrency/semaphore.go:26-99 | in every run whose calls ask for at most the limit, somebody waiting means units in use, so a call that holds or was granted them |
| Semaphore.ReleaseServes | pkg/concurrency/semaphore.go:49-99 | a release, or the withdrawal of a granted call, leaves no servable head waiting, even after a missed wake-up |
| Semaphore.GiantGetsStuck | pkg/concurrency/semaphore.go:26-58 | for every limit: a cancelled call for more than the limit leaves a later call that fits queued with all units free and nobody holding |
| Semaphore.StuckStays | pkg/concurrency/semaphore.go:26-99 | such a state grants nothing, queues every Acquire, refuses every TryAcquire, and lasts until its last waiter gives up |
| Semaphore.StuckForGood | pkg/concurrency/semaphore.go:26-99 | the same over every continuation in which the queue does not empty |
| Semaphore.NeverStuckIff | pkg/concurrency/semaphore.go:26-99 | calls of weight up to m can never leave a fitting call stuck if and only if m is within the limit |
| Semaphore.MissedWakeup | pkg/concurrency/semaphore.go:43-57 | the exception is reachable also with weights within the limit, where the next release makes up for it |
| Semaphore.UniformNeverIdle | pkg/concurrency/semaphore.go:26-99 | with equal weights no run leaves a servable head |
| Semaphore.BulkheadBound | pkg/resilience/bulkhead.go:27-66 | running executions never exceed the limit, and all slots are taken while anyone waits |
| CircuitBreaker.Breaker.constructor | pkg/resilience/circuitbreaker.go:32-49 | closed with zero counts; settings of zero become 5 failures, 2 successes, 30 seconds, others are kept |
| CircuitBreaker.Breaker.AllowRequest | pkg/resilience/circuitbreaker.go:99-125 | the in-place code is Allow, whose verdict AdmittedIff derives from the history |
| CircuitBreaker.Breaker.ReserveHalfOpen | pkg/resilience/circuitbreaker.go:127-140 | the in-place code is Reserve: below a positive cap it admits and counts the probe, at the cap it refuses; a cap that is not positive admits without counting |
| CircuitBreaker.Breaker.RecordSuccess | pkg/resilience/circuitbreaker.go:142-161 | the in-place code is Succeed, the subject of ClosesAtThreshold |
| CircuitBreaker.Breaker.RecordFailure | pkg/resilience/circuitbreaker.go:163-186 | the in-place code is Fail, the subject of OpensAtThreshold, with the time of opening cut to milliseconds |
| CircuitBreaker.Breaker.ResetBreaker | pkg/resilience/circuitbreaker.go:75-82 | closed with all counts zero; the time of the last opening is kept |
| CircuitBreaker.Breaker.ForceBreakerOpen | pkg/resilience/circuitbreaker.go:85-91 | open as of now with no probe reserved, whatever the state before; the failure and success counts are kept |
| CircuitBreaker.StepKeeps | pkg/resilience/circuitbreaker.go:52-186 | every step, stale completions included, keeps the counting, probing, timing and tally invariants |
| CircuitBreaker.RunInv | pkg/resilience/circuitbreaker.go:52-186 | those invariants in every run |
| CircuitBreaker.AdmittedIff | pkg/resilience/circuitbreaker.go:99-140 | in every run, from the history alone: a request is admitted and recorded if and only if the breaker is closed, or open with more than the timeout gone since the millisecond of the latest failure or opening, or half-open with a probe left; the verdict says which |
| CircuitBreaker.RunChronicled | pkg/resilience/circuitbreaker.go:99-196 | in every run state, last failure and reservations are what the history says |
| CircuitBreaker.HistoryIsTrue | pkg/resilience/circuitbreaker.go:52-82 | the history records every reported outcome and every Reset, in order, and no other |
| CircuitBreaker.EndedIff | pkg/resilience/circuitbreaker.go:52-67 | in every run exactly the calls reported as ended, well or badly, no longer run |
| CircuitBreaker.OpensAtThreshold | pkg/resilience/circuitbreaker.go:163-176 | in every run a closed breaker's count is its current failure streak, below the threshold, and the next failure opens it exactly if the streak reaches the threshold |
| CircuitBreaker.ClosesAtThreshold | pkg/resilience/circuitbreaker.go:149-160 | in every run a half-open breaker closes on exactly the success completing the threshold, counted since its first probe, and opens on any failure |
| CircuitBreaker.NoAdmissionBeforeTimeout | pkg/resilience/circuitbreaker.go:106-118 | in every run each admission comes after the latest opening and more than the timeout after its millisecond, unless a Reset intervened |
| CircuitBreaker.EarlyAdmission | pkg/resilience/circuitbreaker.go:88-118 | a run that admits two nanoseconds after opening with a timeout of a millisecond |
| CircuitBreaker.FullTimeoutIff | pkg/resilience/circuitbreaker.go:106-118 | over all runs, no admission comes within the timeout of an opening at time o if and only if o is a whole millisecond or the timeout is negative |
| CircuitBreaker.LastInstant | pkg/resilience/circuitbreaker.go:85-118 | for every other o and every timeout that is not negative, a run that admits at the last instant of the timeout |
| CircuitBreaker.ProbesPerEpisode | pkg/resilience/circuitbreaker.go:127-140 | in every run, for a positive MaxRequests, each half-open episode admits at most MaxRequests probes |
| CircuitBreaker.HalfOpenAccounting | pkg/resilience/circuitbreaker.go:120-161 | in every run half-open reservations are at most successes plus running probes of the episode |
| CircuitBreaker.NextProbeAdmitted | pkg/resilience/circuitbreaker.go:120-161 | with enough probes allowed, a half-open breaker with no probe running admits the next request |
| CircuitBreaker.WedgedStays | pkg/resilience/circuitbreaker.go:120-161 | a stuck breaker stays stuck until Reset or ForceOpen |
| CircuitBreaker.NeverWedgedIff | pkg/resilience/circuitbreaker.go:120-161 | no run gets stuck half-open if and only if MaxRequests is not positive or at least the success threshold |
| FanOut.Conserved | pkg/concurrency/pipeline.go:29-136 | no step creates, duplicates or forgets a copy of a result |
| FanOut.RunConserves | pkg/concurrency/pipeline.go:29-136 | in every run the copies of a result held anywhere, emitted, dropped or still to come are as many as the whole input yields |
| FanOut.RunOrderly | pkg/concurrency/pipeline.go:110-136 | in every run the merged channel closes only after every forwarder ended, and without cancellation forwarders outlive workers and workers the input |
| FanOut.EmittedWithin | pkg/concurrency/pipeline.go:93-136 | in every state of every run the emitted multiset is within the results of the whole input |
| FanOut.ClosedMeansComplete | pkg/concurrency/pipeline.go:93-136 | at an uncancelled close everything was emitted, if and only if there was a worker or nothing to emit |
| FanOut.NoSendAfterClose | pkg/concurrency/pipeline.go:114-133 | nothing is ever sent on the closed channel |
| FanOut.DeadlockIff | pkg/concurrency/pipeline.go:29-136 | in every run with an open channel: no goroutine can move if and only if the sender has delivered everything without closing and the remaining goroutines wait for it |
| FanOut.StepsRunOut | pkg/concurrency/pipeline.go:29-136 | every step but the cancellation itself lowers the remaining-work measure |
| FanOut.RunsAreFinite | pkg/concurrency/pipeline.go:29-136 | besides cancelling, a run takes at most five steps per value, two per worker, and one to close |
| FanOut.CancelEndsOutput | pkg/concurrency/pipeline.go:29-136 | every run can be cancelled at any time, and then emits at most two more results per worker |
| FanOut.CancelledStep | pkg/concurrency/pipeline.go:36-57 | after a cancellation no worker gets a new result, and nothing is emitted that was not underway |
| FanOut.CancelledNeedsNoReader | pkg/concurrency/pipeline.go:29-136 | with a closing sender a cancelled run can be finished although nobody reads any more |
| FanOut.AlwaysFinishesIff | pkg/concurrency/pipeline.go:29-136 | every run, cancelled or not, can go on until the channel closes if and only if the sender closes its channel or there is no worker |
| FanOut.CanFinish | pkg/concurrency/pipeline.go:29-136 | with a closing sender every run can be finished |
| FanOut.CanStarve | pkg/concurrency/pipeline.go:36-41 | without, a pipeline with workers can always be left waiting for ever |
| FanOut.StarvedStays | pkg/concurrency/pipeline.go:36-41 | cancelling does not end that wait, because the wait for input does not watch the context |
| FanOut.RunContinues | pkg/concurrency/pipeline.go:29-136 | going on from the state a run reached is the same as the longer run |
| FanOut.OneWorkerKeepsOrder | pkg/concurrency/pipeline.go:29-57 | a single worker emits the results in input order, a prefix of them if cancelled |
| MinHeap.RootIsLeast | pkg/datastructures/heap/heap.go:14-18 | in a heap-ordered slice the root has the least score |
| MinHeap.SwapUp | pkg/datastructures/heap/heap.go:66-75 | a swap with the parent moves the one misplaced position up |
| MinHeap.SwapDown | pkg/datastructures/heap/heap.go:78-96 | a swap with the smaller child moves the one misplaced position down |
| MinHeap.Heap.Up | pkg/datastructures/heap/heap.go:66-75 | sifting up restores heap order and permutes |
| MinHeap.Heap.Down | pkg/datastructures/heap/heap.go:78-96 | sifting down restores heap order among the first n items, leaves the rest alone and permutes |
| MinHeap.Heap.PushItem | pkg/datastructures/heap/heap.go:100-112 | adds exactly the item and keeps heap order |
| MinHeap.Heap.PopItem | pkg/datastructures/heap/heap.go:114-139 | removes exactly one item of least score and keeps heap order; nothing from an empty heap |
| MinHeap.Heap.Peek | pkg/datastructures/heap/heap.go:141-150 | shows an item of least score |
| ScatterGather.Offer | pkg/database/vector/search.go:76-89 | one result: the heap goes on holding the best of what was seen |
| ScatterGather.CollectShard | pkg/database/vector/search.go:76-89 | the inner loop: the heap holds the best of what was seen plus the shard |
| ScatterGather.Collect | pkg/database/vector/search.go:75-90 | both loops: the heap holds the best of all answers |
| ScatterGather.Drain | pkg/database/vector/search.go:94-98 | the slice filled from back to front is the heap's content, best first |
| ScatterGather.Gather | pkg/database/vector/search.go:69-110 | the result is descending and the best of the eligible results, for every limit |
| ScatterGather.LeftOutIsNoBetter | pkg/database/vector/search.go:69-90 | nothing left out beats anything kept |
| ScatterGather.ScoresAreDetermined | pkg/database/vector/search.go:69-98 | the scores of such a result are determined by the multiset of results |
| ScatterGather.ArrivalOrderIrrelevant | pkg/database/vector/search.go:75-98 | for every limit, two arrival orders of the same answers give equally long results with the same scores |
| ScatterGather.ShardsCompose | pkg/database/vector/search.go:69-90 | the k best of per-shard k best are the k best of all data |
| ScatterGather.GatherIsGlobalBest | pkg/database/vector/search.go:69-98 | so for a limit of at least one the gathered result is the best of all shard data |
| ScatterGather.NonPositiveLimit | pkg/database/vector/search.go:76-88 | for a limit below one the result is empty if and only if no score is positive |
| Crdt.GCounter.Inc | pkg/datastructures/crdt/gcounter.go:24-28 | adds to the own entry, wrapping at 64 bits |
| Crdt.GCounter.Count | pkg/datastructures/crdt/gcounter.go:31-40 | the wrapped sum, whatever the iteration order |
| Crdt.GCounter.Merge | pkg/datastructures/crdt/gcounter.go:44-59 | the entrywise maximum, whatever the iteration order; nil changes nothing |
| Crdt.JoinLaws | pkg/datastructures/crdt/gcounter.go:42-59 | merge is commutative, associative and idempotent in every entry, and the least upper bound |
| Crdt.CountCommutes | pkg/datastructures/crdt/gcounter.go:42-59 | merging either way round gives the same total |
| Crdt.MapsCommuteIff | pkg/datastructures/crdt/gcounter.go:54-58 | the maps themselves agree exactly if zero entries are shared |
| Crdt.RunConsistent | pkg/datastructures/crdt/gcounter.go:24-59 | in every run without overflow each replica's entry for an id is at most the owner's, which is exactly what the owner was asked to add |
| Crdt.AbsorbedCountsAll | pkg/datastructures/crdt/gcounter.go:24-59 | in every run without overflow, a replica that has absorbed all owners totals exactly everything asked of anyone |
| Crdt.MergingAllConverges | pkg/datastructures/crdt/gcounter.go:42-59 | merging from every replica once, in any order, after any run, does that |
| Crdt.PNCounter.Count | pkg/datastructures/crdt/pncounter.go:28-30 | the true difference if and only if it is a 64-bit integer |
| Crdt.WrapsOnce | pkg/datastructures/crdt/pncounter.go:28-30 | converting two wrapped totals to signed and subtracting wraps the true difference just once |
| Bits.WrappedIff | pkg/datastructures/crdt/pncounter.go:28-30 | wrapping is harmless exactly for 64-bit integers |
| Crdt.PNCounter.Inc | pkg/datastructures/crdt/pncounter.go:18-20 | an increment of the positive side only |
| Crdt.PNCounter.Dec | pkg/datastructures/crdt/pncounter.go:23-25 | an increment of the negative side only |
| Crdt.PNCounter.Merge | pkg/datastructures/crdt/pncounter.go:33-36 | both sides merged |
| Crdt.PNCountsNet | pkg/datastructures/crdt/pncounter.go:18-36 | in every run an absorbed replica reports total increments minus total decrements exactly if that fits 64 bits |
| AuditChain.VerifyChain | pkg/audit/chain.go:86-102 | accepts exactly the linked chains, and otherwise names the first event that does not fit and why |
| AuditChain.WalkBack | pkg/audit/chain.go:13-102 | equal hashes in two accepted chains mean equal positions and equal covered fields up to there, or a digest collision between their events |
| AuditChain.HashesDistinct | pkg/audit/chain.go:86-102 | hashes of an accepted chain are pairwise distinct, or its events collide |
| AuditChain.LastHashFixesChain | pkg/audit/chain.go:86-102 | accepted chains with the same last hash have equal length and covered fields, or collide |
| AuditChain.OnlyPrefixes | pkg/audit/chain.go:86-102 | an accepted sequence drawn from an accepted chain is a prefix of it, or its events collide |
| AuditChain.PrefixAccepted | pkg/audit/chain.go:84-102 | truncation is not detected |
| AuditChain.IdsNotCovered | pkg/audit/chain.go:13-15 | rewriting ids is not detected |
| Redaction.Handle | pkg/logger/handlers.go:171-215 | forwards the reference redaction of message and attributes, although it skips the full pass when the check pass finds nothing |
| Redaction.FirstPass | pkg/logger/handlers.go:186-197 | reports a change exactly if some attribute is worth a look; if it finds nothing, redaction changes nothing |
| Redaction.CheckReportsIff | pkg/logger/handlers.go:217-306 | the check pass reports exactly the attributes with, at some depth, a string under a sensitive key, with an at sign, or with a digit among thirteen characters |
| Redaction.FullReportsIff | pkg/logger/handlers.go:217-277 | the full pass reports exactly the attributes that change or had something to mask |
| Redaction.SecondPass | pkg/logger/handlers.go:204-209 | the full pass yields the reference redaction of every attribute |
| Redaction.CheckFindsChanges | pkg/logger/handlers.go:217-277 | whatever the full pass would change, at any depth, the check pass reports |
| Redaction.CheckFindsChangesIn | pkg/logger/handlers.go:224-249 | the same for the members of a group, early exit included |
| Redaction.FullPass | pkg/logger/handlers.go:217-277 | the full pass computes the reference, and leaves alone what it reports unchanged |
| Redaction.FullPassEach | pkg/logger/handlers.go:224-249 | the same for the members of a group |
| Redaction.RedactedIsTidy | pkg/logger/handlers.go:217-277 | redacting attributes without empty groups leaves no empty group among them |
| Redaction.NoSecretLeft | pkg/logger/handlers.go:251-277 | at no depth of a redacted attribute does a string under a sensitive key differ from the mask |
| Redaction.NoSecretForwarded | pkg/logger/handlers.go:171-277 | and so in no forwarded attribute |
| Redaction.MaskedIff | pkg/logger/handlers.go:251-328 | a string is masked if and only if its folded key contains one of the nine words; any other has its emails and then its cards replaced |
| Redaction.SensitiveIff | pkg/logger/handlers.go:279-290 | a key is sensitive if and only if one of the nine words occurs in it, with anything before and after |
| Redaction.SecretsDoNotMatter | pkg/logger/handlers.go:217-277 | attributes that differ only in strings under sensitive keys, at any depth, redact to the same: what is forwarded does not depend on them |
| Redaction.SecretsDoNotMatterIn | pkg/logger/handlers.go:224-249 | the same for whole groups and records |
| Redaction.QuickTestsLoseNothing | pkg/logger/handlers.go:292-328 | for every string, testing for an at sign, thirteen characters and a digit first gives the same as always trying both regular expressions |
| Redaction.GroupValueIsTidy | pkg/logger/handlers.go:246 | values built by the group constructor contain no empty groups |
| Metering.BucketEvents | pkg/metering/metering.go:68-110 | one bucket per key with exactly the sum and number of its events, distinct keys; starts never decrease and equal starts come in alphabetical order of resource; every event from the epoch on lies in exactly one bucket of its tenant and resource; nothing for a period that is not positive |
| Metering.Accumulate | pkg/metering/metering.go:77-98 | after any events the map holds, for each key that occurs and no other, the sum and number of its timestamped events |
| Metering.InsertKeepsOrder | pkg/metering/metering.go:104-109 | placing a bucket keeps the order by start and resource |
| Metering.OrderedIsInSequence | pkg/metering/metering.go:103-108 | the comparator orders by start and then alphabetically |
| Metering.InItsPeriodIff | pkg/metering/metering.go:83-90 | the computed period contains the event if and only if it is not before the epoch or lies on a boundary |
| Metering.OnlyPeriod | pkg/metering/metering.go:83-90 | exactly one multiple of the period starts a period containing a given time, before the epoch too |
| Metering.StartIsMultiple | pkg/metering/metering.go:83-90 | the computed start is a multiple of the period, before the epoch too |
| Metering.CoversIff | pkg/metering/metering.go:68-110 | a returned bucket covers an event exactly if it is of its tenant and resource and starts where the period containing the event starts |
| Metering.CoveredIff | pkg/metering/metering.go:68-110 | for every timestamped event: no two returned buckets cover it, and one does if and only if some event of its tenant and resource was put where its period starts |
| Metering.ExactlyOneBucket | pkg/metering/metering.go:68-110 | so every event from the epoch on is covered by exactly one returned bucket, whatever else was bucketed |
| Metering.SummarizeEvents | pkg/metering/metering.go:51-64 | total, count and per-resource totals of exactly the resources that occur |
| Metering.BucketsConserve | pkg/metering/metering.go:51-110 | bucket quantities per resource and bucket counts equal those of the timestamped events; counts equal all events exactly if all have timestamps |

## Left out

- Adapters, servers, instrumentation, configuration loading and event fan-out: no algorithm beyond plumbing.
- Everything below the stated grain of the semaphore and the breaker: individual atomic loads and stores, the retry of the compare-and-swap loop under interference, mutex debug tracking.
- Semaphore.Sem.Release: releasing more than is held panics in the source and is a precondition here. Weights are not negative, and in the run results neither is the limit.
- CircuitBreaker.Breaker.AllowRequest: takes the time as a parameter; the clock does not run backwards. The state-change callback is not modelled.
- Bulkhead's Execute and TryExecute appear as callers of weight one that hold their slot while the function runs.
- FanOut: process is a function of its input; the merged channel always has a willing reader; the sender has its next value ready until all are delivered, and then closes or does not.
- BloomFilter.Filter.constructor: the floating-point sizing and the false-positive estimate are not modelled. A filter without bits, on which the source divides by zero, is constructed but has no modelled operations. Words are 64 bits on every platform.
- BloomFilter.Filter.Union: merging a filter into itself locks a held mutex in the source and changes nothing here.
- BloomCache.Cache.IncrKey: JSON is an abstract decoding and encoding of integers. The wrapped cache behaves like the in-memory adapter (pkg/cache/adapters/memory/memory.go); Close and GetTTL are left out.
- BloomCache.Cache.constructor: the filter's sizes are parameters, restricted to the usable ones; the sizing the source uses always asks for at least one bit.
- Dedup: a false positive of the filter skips a message for good; the model says exactly when (the filter test), not how often.
- MinHeap: the Index field of an item and the thread-safety of the methods. Scores are real numbers, without NaN.
- ScatterGather: the scatter phase (concurrency limit, error propagation, a shard lost to a recovered panic) is not modelled; answers are given as sequences in arrival order.
- Crdt.GCounter.Merge: merging a counter into itself locks a held mutex in the source and changes nothing here.
- Crdt.PNCounter.Merge: requires the other counter to share no component with this one; a nil argument, on which the source panics, is not modelled.
- AuditChain: JSON, time formatting and SHA-256 are one function from previous hash and content to an optional string of 64 characters.
- Redaction: whether the regular expressions match is modelled; what replacing the matches yields, and case folding, are functions left open. Records satisfy what slog's constructors guarantee, no empty groups inside groups or records. Strings are byte sequences.
- Metering.BucketEvents: quantities are real numbers; timestamps are unbounded integers of nanoseconds; the library sort is an insertion, so ties of start and resource come in one of the orders the source may produce.
- GSet and LWWRegister, singleflight, and the remaining data structures: their claims are smaller copies of ones proved here, or not promised by the source.
