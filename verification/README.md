# as-cache: a verified model

as-cache is a cache that holds several eviction policies ("arms") over the same keys, serves from one of
them, measures the others on miniatures that hold no real values, and lets a bandit switch which arm
serves. A fleet of such caches can pool its measurements through a shared store and elect a leader per
epoch that decides for everybody. The model covers four parts.

**The adaptive cache** (`AdaptiveCache.dfy`, over `ArmContract.dfy`, `ArmLoops.dfy`, `Contents.dfy`,
`CacheHistory.dfy`, `Sampling.dfy`, `Stability.dfy`; `Construction.dfy` builds it and `CacheRuns.dfy` drives
it). A class with the source's fields over a map of arm objects; every public operation and every epoch is
one method that keeps `Valid()`. An arm may drop entries whenever it likes; `steady` marks arms that only
evict to make room. The run is recorded as a history of events that knows nothing of the cache's workings,
every operation says exactly how it extends that record, and `Valid()` contains `Sound(history)`: every
answer is the value last added, every report is on exactly the evidence due, every switch is justified.
`CacheRuns.Run` then states what a caller who sees only calls and answers can rely on, for any bandit, any
evictions, any epochs in between and any migration strategy number; `Transparency.dfy` that with room a
gradual window cannot be noticed at all; `StrayArm.dfy` is about the one arm that can leave its role.

**The O(1) LFU and the random policy** (`LfuRing.dfy`, `Lfu.dfy`, `RandomCache.dfy`). The LFU is modelled
on the heap: linked rings with a sentinel, a map of rings by frequency, a key index and a cached minimum
frequency. It refines a sequence ordered by frequency and then age (`LfuOrder.dfy`). `LfuHistory.dfy`
explains that sequence from the operations alone, `LfuDemotion.dfy` runs the cache's demotion loop on it,
and `LfuArm.dfy` wraps it as a policy that meets the whole contract of a steady arm.

**The fleet** (`MemStore.dfy`, `Distributed.dfy`, `Window.dfy`, `Coordination.dfy`; `Fleet.dfy` and the
`Fleet*` modules). The in-memory store and a replica's buffer are classes proved against functions on
values; `Fleet` interleaves those functions over any number of replicas, with refused calls, lost replies,
expiry and a monotone clock in nanoseconds, and `Coordination` shows that the code's own round is a run of
that machine. `RedisFields.dfy` and `RedisCounters.dfy` model the second representation of the counters as
text fields of a hash.

**The request clock** (`RequestClock.dfy`). The atomic counter that starts an epoch every so many
requests, under every interleaving of its two atomic operations.

## Findings

- The comment at `epoch.go:30-36` promises exactly one epoch per `limit` requests for any number of
  callers. If `limit` other calls arrive between the call that reaches the limit and its subtraction, the
  counter ends at or above the limit and no call ever equals it again: the epochs stop for good. At
  `limit` 1 a single overlapping call is enough. `RequestClock.ExactEpochs` states exactly when the promise
  holds, `RequestClock.PromiseFails` builds the failing schedule at every limit.
- A gradual window that is still open at an epoch is closed, and its source demoted with its counters
  reset, before the epoch's statistics are collected (`epoch.go:60-66`, `shadow.go:41-44`). That arm then
  reports no evidence at all for the epoch, while every other arm reports every sampled request
  (`CacheHistory.ClosingReport`; `CacheRuns.UnequalEpoch` shows it in every open window with more than one
  key to migrate). In general the totals of a report are equal if and only if no window has closed and
  demoted its source since the report before it, or none after a sampled request
  (`CacheHistory.ReportsAreEqual`), so a window that drains or is purged in mid-epoch makes them differ too
  if a sampled request came before.
- During a gradual window an Add of a sampled key is first mirrored into the source (`cache.go:194-203`). If
  the source is full, that evicts one of its entries, which may be one still to be migrated: its value is
  lost although the active arm has room. For an LFU source this happens if and only if the key is new
  there, the source is full, and its next victim is pending and not yet active
  (`LfuArm.MirrorLosesPending`; `LfuArm.MirrorLosesOne` is the smallest case). Whenever the mirroring
  evicts nothing, `AdaptiveCache.Add` loses only what the active arm evicts.
- A window whose source is an arm of kind 0 closes without demoting it (`shadow.go:117`): the arm keeps its
  full size, its values and its counts while it is measured as a shadow. The roles then hold if and only if
  the arm's two capacities agree and it held nothing but sampled zeros
  (`AdaptiveCache.CloseMigrationLocked`); every other source leaves them as they were. `StrayArm.Strays`
  reaches the failure from a cache as built in three calls, and `AdaptiveCache.RolesExactly` says for every
  run when all arms are in their roles. Nothing else of the invariant depends on it: the answers, reports and
  statistics of such a cache are as right as any other's.
- Leadership is unique in every run exactly when the claim's lifetime reaches the last instant of its
  bucket. A coordination epoch of at least a millisecond gives that; under one shorter than half a
  millisecond a bucket can be granted twice, because buckets round up to a millisecond and lifetimes do
  not (`FleetLeadership.AtMostOneLeader`).
- Under the same hypothesis a leader's Sync never carries a decision in any run, so what
  `bandit/coordinate.go:75-81` keeps of the Sync's answer for a leader is always empty
  (`FleetLeadership.GrantTellsNothing`).
- `codemaps/data.md:39` numbers the migration strategies from 0; the code numbers them from 1
  (`models.go:41`) and treats every unknown number as cold. The model follows the code.

## Model

| member | source | states |
|---|---|---|
| `Construction.NewAdaptiveCache` | settings.go:110-196 | succeeds exactly when there are policies, none missing and no kind twice, settings, an epoch clock, and a bandit unless only observing; otherwise the error names the first thing wrong and no policy has been touched; the cache then is valid, holds every policy under its kind, serves from the first and has its order ascending |
| `Construction.FilePolicies` | settings.go:139-153 | the loop files every policy under its kind in ascending order, or stops at the first that is missing or of a kind already taken |
| `AdaptiveCache.AdaptiveCache.constructor` | shadow.go:126-153 | from arms of any kinds, sizes and contents, the cache starts in a valid state: every arm but the active one on shadow duty at a miniature that simulates it at one common rate, which is the one the smallest capacity settles on, the active arm untouched |
| `AdaptiveCache.AdaptiveCache.SmallestCapacity` | shadow.go:130-140 | the loop records every capacity and finds the smallest positive one, or 0 when no arm has one |
| `AdaptiveCache.AdaptiveCache.MiniaturesFit` | shadow.go:142-148 | at the one rate derived from the smallest arm, every arm's miniature simulates that arm |
| `AdaptiveCache.AdaptiveCache.DemoteLocked` | shadow.go:22-45 | a demoted arm holds only sampled keys it held before, all with the zero value, at the miniature capacity, with no counts; a steady arm with room keeps every sampled key |
| `AdaptiveCache.AdaptiveCache.CloseMigrationLocked` | shadow.go:113-120 | closing a window touches nothing the active arm holds, adds no key anywhere and demotes the source, unless that is of kind 0, which is left as it is; afterwards every arm is in its role exactly as before if the source is not of kind 0, and if it is, if and only if its two capacities agree and it held nothing but sampled zeros |
| `AdaptiveCache.AdaptiveCache.RolesExactly` | shadow.go:117 | at every point of every run: all arms are in their roles if and only if no window over the arm of kind 0 has closed since a switch last went to it, or that arm is at its miniature size and holds nothing but sampled zeros all the same, or it is on duty |
| `StrayArm.Strays` | shadow.go:117 | a cache as built over an arm of kind 0, one Add, a gradual switch and the next epoch: the roles no longer hold |
| `AdaptiveCache.AdaptiveCache.MoveKey` | migration.go:88-95 | moving or giving up a pending key changes the logical contents only by the arms' own evictions, and leaves the key served with its logical value |
| `AdaptiveCache.AdaptiveCache.PromoteLocked` | migration.go:114-126 | afterwards the key answers its logical value from the active arm, the window is open exactly when something is pending, and nothing is lost but what the active arm evicted |
| `AdaptiveCache.AdaptiveCache.DrainOneKey` | migration.go:77-106 | strictly shortens the queue; with steady arms nothing is lost but what the active arm evicted, so no pending key is abandoned when the queue runs out; the window is open exactly when something is pending |
| `ArmLoops.MirrorGet` | cache.go:143-151 | every arm but the active one counts exactly one more request and gains or changes no entry |
| `ArmLoops.MirrorAdd` | cache.go:194-203 | every arm but the active one takes the key with the zero value as a write of its own, evicting only what that arm evicts |
| `AdaptiveCache.AdaptiveCache.Get` | cache.go:139-188 | keeps the invariant; an answer is the value last added; the key is no longer pending and the window is open exactly while something is; with steady arms the answer is exactly the logical value, nothing is lost but keys the active arm held, and nothing at all if it has room; the active arm counts one result |
| `AdaptiveCache.AdaptiveCache.Add` | cache.go:190-219 | keeps the invariant; the value becomes the last one added, other keys are untouched; during a window the queue strictly shrinks; if the source can take what is mirrored, nothing is lost but keys the active arm held before the call or when it took the value, and all it gained in between is the one pending key drained; with room the logical contents change by the caller's own write alone; every steady shadow but a retiring source holds a sampled key; outside a window a steady active arm tells truly whether it dropped an entry |
| `AdaptiveCache.AdaptiveCache.Remove` | cache.go:235-256 | keeps the invariant; the key is gone from every arm, from an open window and from the record; with steady arms exactly the key goes from what can be served and the answer tells truly whether the active arm held it |
| `AdaptiveCache.AdaptiveCache.Purge` | cache.go:258-266 | keeps the invariant; every arm is empty, no window is open, nothing counts as added |
| `AdaptiveCache.AdaptiveCache.Resize` | cache.go:277-300 | keeps every arm in its role also during a window, which stays as it is, and down to nothing; never changes a value; a steady arm ends within its capacity, and with steady arms the count returned is exactly how many entries the arms lost together |
| `ArmLoops.ResizeAll` | cache.go:284-297 | the loop sets both capacities of every arm and resizes it to the one its role asks for, every steady arm ends within it, and with steady arms the count returned is the sum of what they lost |
| `AdaptiveCache.AdaptiveCache.MiniatureAgrees` | cache.go:281-291 | the miniature of the new size still simulates it at the old rate, without the floor |
| `AdaptiveCache.AdaptiveCache.GetStats` | cache.go:224-233 | equals the total of hits and misses on record; `CacheRuns.Run` ties that record to the calls made |
| `AdaptiveCache.AdaptiveCache.RecordActiveSample` | cache.go:113-123 | counts exactly the sampled results |
| `AdaptiveCache.AdaptiveCache.Peek` | cache.go:330-337 | shows nothing but the value last added |
| `AdaptiveCache.AdaptiveCache.PromoteLockedCapacity` | shadow.go:52-61 | the incoming arm ends at its nominal capacity |
| `AdaptiveCache.AdaptiveCache.MigrateData` | migration.go:12-64 | the target ends with entries of the active arm only; cold and unknown strategies leave it empty; a warm copy with room is exact; a gradual window opens exactly when there is something to migrate, with every key pending and queued |
| `ArmLoops.CopyEntries` | migration.go:35-42 | the copying loop carries every value when both arms are steady and the target has room |
| `AdaptiveCache.AdaptiveCache.SwitchLocked` | shadow.go:89-106 | an earlier window is closed first; every arm gets its role; a gradual switch, or a warm one with room, lets callers see all the active arm held; any other strategy starts empty; a gradual switch opens a window over exactly the outgoing arm's keys, unless it has none; right after a report all counts stay in order too |
| `ArmLoops.CollectEach` | epoch.go:154-194 | every arm reports once, its own counters or the sampled ones of the active arm, all counters restart, and what was served moves to the global totals |
| `AdaptiveCache.AdaptiveCache.ReportEpoch` | epoch.go:141-203 | the report is on exactly the evidence due to each arm, and the cache stays valid with all counters at zero |
| `AdaptiveCache.AdaptiveCache.SelectPolicyLocked` | epoch.go:121-207 | an epoch reports exactly when it may evict early, only observes, or its steady active arm is full; if not it resets nothing and keeps its policy, else it returns the bandit's choice right after a fair report |
| `AdaptiveCache.AdaptiveCache.AllowSwitchLocked` | stability.go:29-60 | true exactly when no gate is set or the cooldown is over and this epoch's evidence of both arms passes |
| `AdaptiveCache.AdaptiveCache.RunEpoch` | epoch.go:56-89 | keeps the invariant for any choice; the record goes on by exactly the closing of an open window, a report of all arms unless the epoch is gated, and the decision; the active arm becomes the chosen one exactly when it is another held arm, the cache does not only observe, the epoch reported and the gates let it through; without a switch callers see what the active arm held, after one what the strategy carries over; a window open afterwards was opened by this very epoch over the outgoing arm's keys |
| `CacheRuns.UntilClosed` | migration.go:75-106 | whatever a caller does, an open window closes at the latest with the Add that makes as many Adds as there were keys queued |
| `CacheRuns.Run` | cache.go:132-300 | for any calls with any epochs in between: the record goes on by exactly those calls; every answer is a miss or the value those calls last added and have not removed or purged since; every statistic told is the totals at the start plus the answers given since; the serving arm changes only at epochs, never when only observing, and changes are a cooldown apart |
| `CacheRuns.Perform` | cache.go:132-300 | any one call or epoch: what it adds to the record, and that what comes back is right for the record so far |
| `CacheRuns.ExplainsValue` | cache.go:190-266 | after any run the value last added under a key can be worked out from the calls alone, whatever windows, reports and switches lie between |
| `CacheRuns.UnequalEpoch` | epoch.go:60-69 | in any open window with another key to migrate, a lookup of a sampled key and then an epoch: if it reports, the source's total is zero, unless it is of kind 0, and every other arm's counts that lookup |
| `Transparency.Transparent` | migration.go:75-126 | any calls but a resize, in a window or not, with steady arms and room for what they add: every Get answers exactly what one plain map would, and that map is what can be served at the end |
| `Transparency.MapHoldsLast` | cache.go:139-219 | what such a map answers is the value last added and neither removed nor purged since |
| `CacheHistory.EveryAnswerWasAdded` | cache.go:139-188 | no answer anywhere in a run is a shadow's zero or stale: an Add stored that value, or it was there from the start, and until the answer nothing wrote, removed or purged the key |
| `CacheHistory.LastAddedWasAdded` | cache.go:190-266 | the value last added was added, or there from the start, with no Remove, Purge or other Add of the key since |
| `CacheHistory.EqualEvidence` | cache.go:143-188 | at every point of a run every arm is due the sampled requests since the last report, less, for a source demoted by a window closed since, those before the closing |
| `CacheHistory.ReportsAreEqual` | epoch.go:121-194 | the exact total of every arm in every report of a run; all totals are equal if and only if no sampled request came between the previous report and the last closing since that demoted its source |
| `CacheHistory.ClosingReport` | epoch.go:60-69 | a report right after closing a window gives the source nothing, unless it is of kind 0, and every other arm all the sampled requests |
| `CacheHistory.UnequalReport` | epoch.go:60-69 | a run in which a report tells two arms apart by a request both were shown |
| `CacheHistory.SwitchSpacing` | stability.go:34-37 | with a cooldown of C > 0, k switches need k * C <= n - 1 after n epochs |
| `CacheHistory.SpacedSwitches` | epoch.go:83-88 | k switches with cooldown C put the last one at epoch k * C or later |
| `CacheHistory.ObserverNeverSwitches` | epoch.go:69-75 | an observing cache has switched zero times after any run |
| `Stability.HitRate` | stability.go:5-12 | lies between 0 and 1 and times the total gives the hits |
| `Sampling.OneRateForAll` | sampling.go:111-129 | at the rate the smallest capacity settles on, the second pass neither fires the floor nor moves the rate, and every capacity n gets c with r * n <= c < r * n + 1 and 1 <= c <= n |
| `Sampling.FirstPass` | sampling.go:116-128 | the first pass ends at a capacity that is the ceiling at its own rate and clears the floor |
| `Sampling.SecondPass` | sampling.go:116-128 | at a larger capacity the pass is the plain ceiling at the same rate |
| `Sampling.ScaledSimulates` | sampling.go:85-99 | the miniature on resize keeps the same identity with the fixed rate |
| `Sampling.ScaledMonotone` | sampling.go:85-99 | a larger size never gets a smaller miniature |
| `Sampling.FloorWouldBreakIdentity` | sampling.go:75-84 | applying the floor on resize would break the identity exactly where it would fire |
| `ArmContract.Arm.Add` | interfaces.go:10 | what is assumed of an arm: the key maps to the value if resident, other values never change; a steady arm keeps the key, evicts only when full and tells whether it did |
| `ArmContract.Arm.Get` | wrapper.go:35-43 | what is assumed of an arm: the answer is the entry, and exactly one hit or miss is counted |
| `ArmContract.Arm.Resize` | wrapper.go:52-57 | what is assumed of an arm: a subset of the entries remains and the capacity is the new one; a steady arm keeps everything that fits, ends within the size and counts exactly what it lost |
| `LfuRing.LfuList.InsertFront` | lfu/internal/list.go:82-91 | the ring of linked entries gains the entry at its front, keeps its order and stays closed over the sentinel |
| `LfuRing.LfuList.Remove` | lfu/internal/list.go:98-108 | the ring loses exactly that entry, the others keep their order, the entry's links are cleared |
| `LfuRing.LfuList.Back` | lfu/internal/list.go:67-73 | the oldest entry, or null when the ring is empty |
| `LfuRing.Entry.PrevEntry` | lfu/internal/list.go:37-43 | the entry inserted next after this one in the ring's order, null for the newest and outside any ring |
| `Lfu.Lfu.NewLFU` | lfu/simplelfu/lfu.go:24-37 | a size that is not positive is refused; otherwise an empty cache refines the empty order of that size |
| `Lfu.Lfu.Add` | lfu/simplelfu/lfu.go:39-73 | on the heap refines Add on the order, for hits, new keys, full caches and size zero, and reports an eviction exactly when one happened |
| `Lfu.Lfu.Get` | lfu/simplelfu/lfu.go:75-82 | refines a use of the key on the order and returns its value |
| `Lfu.Lfu.Contains` | lfu/simplelfu/lfu.go:84-87 | true exactly for the keys of the order |
| `Lfu.Lfu.Peek` | lfu/simplelfu/lfu.go:89-95 | the value in the order, which stays as it is |
| `Lfu.Lfu.Remove` | lfu/simplelfu/lfu.go:97-103 | refines removal from the order and tells whether the key was there |
| `Lfu.Lfu.Len` | lfu/simplelfu/lfu.go:105-107 | the size of the index is the length of the order |
| `Lfu.Lfu.Keys` | lfu/simplelfu/lfu.go:110-128 | the walk over sorted frequencies and ring back-links fills the slice, never out of bounds, with the keys of the order |
| `Lfu.Lfu.Values` | lfu/simplelfu/lfu.go:131-149 | the same walk yields the values of the order, aligned with Keys |
| `Lfu.Lfu.SortedFreqs` | lfu/simplelfu/lfu.go:111-116 | the live frequencies, each once, ascending |
| `Lfu.Lfu.Resize` | lfu/simplelfu/lfu.go:153-167 | drops exactly the excess from the head of the order and reports how many |
| `Lfu.Lfu.GetOldest` | lfu/simplelfu/lfu.go:170-176 | the head of the order |
| `Lfu.Lfu.Oldest` | lfu/simplelfu/lfu.go:181-192 | the entry at the back of the minimum ring is the head of the order; null exactly when empty |
| `Lfu.Lfu.EvictOldest` | lfu/simplelfu/lfu.go:200-216 | evicts and returns the head of the order |
| `Lfu.Lfu.Purge` | lfu/simplelfu/lfu.go:218-228 | leaves the empty order and the size |
| `Lfu.Lfu.UpdateFreq` | lfu/simplelfu/lfu.go:230-249 | moves the entry to the next ring and repairs the cached minimum: a use on the order |
| `Lfu.Lfu.RemoveElement` | lfu/simplelfu/lfu.go:252-258 | removes the entry's key from the order |
| `Lfu.Lfu.Detach` | lfu/simplelfu/lfu.go:264-279 | unlinks the entry, drops an empty ring and repairs the minimum |
| `Lfu.Lfu.RecomputeMinFreq` | lfu/simplelfu/lfu.go:283-290 | the scan ends at the least live frequency, 0 when there is none |
| `LfuOrder.InsertOrdered` | lfu/simplelfu/lfu.go:67-70 | inserting the newest item keeps the order by frequency, then age |
| `LfuOrder.LeastAfterUse` | lfu/simplelfu/lfu.go:234-239 | the rule that repairs the cached minimum on a use is right |
| `LfuOrder.LeastAfterRemove` | lfu/simplelfu/lfu.go:275-278 | how the minimum moves when an item leaves |
| `LfuOrder.LeastIsMinimum` | lfu/simplelfu/lfu.go:260-263 | the cached minimum is the least frequency of the order |
| `LfuOrder.AddKeepsValid` | lfu/simplelfu/lfu.go:39-73 | Add keeps the order sorted, keys unique and the length within the size |
| `LfuOrder.UseKeepsValid` | lfu/simplelfu/lfu.go:230-249 | a use keeps the order valid |
| `LfuOrder.Segment` | lfu/simplelfu/lfu.go:120-125 | the items of one frequency are one contiguous run of the order |
| `LfuOrder.InsertAtFreq` | lfu/simplelfu/lfu.go:247 | inserting adds to one ring only, at its front |
| `LfuOrder.RemoveAtFreq` | lfu/simplelfu/lfu.go:270 | removing touches one ring only |
| `LfuHistory.RunExplained` | lfu/simplelfu/lfu.go:39-249 | after any run each entry's frequency is its uses since it became resident, and its age the time of its last use |
| `LfuHistory.VictimIsLeastUsed` | lfu/simplelfu/lfu.go:181-216 | after any run the victim is the least used resident entry and, among those, the one used longest ago |
| `LfuDemotion.RewriteAll` | shadow.go:29-35 | rewriting sampled keys and removing the others leaves exactly the sampled items, in order, each used once more with the zero value |
| `LfuDemotion.DemotionKeepsOrder` | shadow.go:10-17 | demotion leaves the last min(count, shadowCap) sampled keys in their old order, each with one more use and the zero value |
| `LfuDemotion.Demote` | shadow.go:22-39 | the loop on the linked LFU computes that demotion |
| `LfuArm.AddMeetsContract` | lfu/simplelfu/lfu.go:39-73 | the LFU's Add is a steady write of the arm contract, and its eviction flag is true exactly when an entry goes |
| `LfuArm.GetMeetsContract` | lfu/simplelfu/lfu.go:75-82 | a use of the LFU leaves every entry and value a caller sees; `LfuArm.LfuPolicy.Get` adds the answer |
| `LfuArm.RemoveMeetsContract` | lfu/simplelfu/lfu.go:97-103 | removal from the order drops that key's entry only; `LfuArm.LfuPolicy.Remove` adds the flag |
| `LfuArm.ResizeMeetsContract` | lfu/simplelfu/lfu.go:153-167 | the LFU's Resize drops entries only when they no longer fit, and exactly as many as it reports |
| `LfuArm.KeysMeetContract` | lfu/simplelfu/lfu.go:110-128 | the keys of the order are the resident keys, each once |
| `LfuArm.LfuPolicy.Add` | lfu/simplelfu/lfu.go:39-73 | on the heap and behind the wrapper, Add meets the contract of a steady arm: the key stays, others go only when full, the flag is true exactly when one goes |
| `LfuArm.LfuPolicy.Get` | wrapper.go:35-43 | nothing shown changes, the answer is the entry, and exactly one hit or miss is counted |
| `LfuArm.LfuPolicy.Peek` | lfu/simplelfu/lfu.go:89-95 | the answer is the entry, and nothing changes |
| `LfuArm.LfuPolicy.Keys` | lfu/simplelfu/lfu.go:110-128 | the resident keys, each once |
| `LfuArm.LfuPolicy.Remove` | lfu/simplelfu/lfu.go:97-103 | that entry goes and no other, and the flag tells whether it was there |
| `LfuArm.LfuPolicy.Purge` | lfu/simplelfu/lfu.go:218-228 | nothing is left |
| `LfuArm.LfuPolicy.Resize` | wrapper.go:52-57 | everything that fits stays, no more than fits, the count is exact, and the capacity told follows |
| `LfuArm.MirrorLosesPending` | cache.go:194-203 | mirroring an Add into a window's source loses a key still to be migrated if and only if it evicts the head of a full source and that head is pending and not yet active |
| `LfuArm.MirrorLosesOne` | cache.go:194-203 | a source of size one loses the only key still to be migrated to any new key mirrored |
| `RandomCache.RandomCache.constructor` | policies/random.go:41-55 | starts empty with a size of at least zero |
| `RandomCache.RandomCache.UntrackLocked` | policies/random.go:65-80 | swap-remove keeps keys free of duplicates and index their exact inverse; an untracked key changes nothing |
| `RandomCache.RandomCache.RemoveLocked` | policies/random.go:83-92 | drops that entry only, keeping data, keys and index in step |
| `RandomCache.RandomCache.Add` | policies/random.go:114-141 | for any random draws: the new key is stored, at most one other entry goes and only when full, the flag is true exactly when one goes, and this is a steady write of the arm contract |
| `RandomCache.RandomCache.Remove` | policies/random.go:170-175 | drops that entry only and tells whether it was there |
| `RandomCache.RandomCache.Purge` | policies/random.go:178-188 | leaves the cache empty and consistent |
| `RandomCache.RandomCache.Keys` | policies/random.go:192-200 | the resident keys, each once |
| `RandomCache.RandomCache.Values` | policies/random.go:203-213 | the values aligned with the keys |
| `RandomCache.RandomCache.Resize` | policies/random.go:225-235 | evicts and returns exactly max(0, length - size), keeping the rest |
| `RequestClock.Accounting` | epoch.go:37-49 | under every interleaving, calls = counter + limit * subtractions, at most one caller is between crossing and subtracting, and every subtraction has had or will have its epoch |
| `RequestClock.ExactEpochs` | epoch.go:30-36 | at rest, epochs = floor(calls / limit) if and only if no gap took in limit or more calls, if and only if the counter is below the limit |
| `RequestClock.StuckForever` | epoch.go:43-46 | after one such gap no call ever crosses again |
| `RequestClock.PromiseFails` | epoch.go:30-36 | at every limit a schedule of 2 * limit calls runs one epoch and then never another |
| `Window.PoolBucket` | bandit/window.go:58-67 | the inner loop adds one weighted bucket to every policy it mentions, in any map order |
| `Window.Aggregate` | bandit/window.go:38-73 | pools exactly the posterior of every policy the window mentions with a weight, and no other |
| `MemStore.DepositAt` | bandit/memstore.go:113-119 | folding a request into a bucket adds, per arm and role, what the request lists |
| `MemStore.WindowLists` | bandit/memstore.go:158-170 | a window holds exactly the stored buckets of its range, each once, in order |
| `MemStore.MemStore.DropExpired` | bandit/memstore.go:226-242 | each loop keeps exactly the entries not past their lifetime |
| `MemStore.MemStore.ExpireLocked` | bandit/memstore.go:226-242 | counters, claims and decisions past their lifetime go, nothing else |
| `MemStore.MemStore.Sync` | bandit/memstore.go:85-136 | on an error nothing changes; otherwise the counts land in the bucket of the store's clock, the claim is first-come, and the answer tells the bucket, the claim and any decision |
| `MemStore.MemStore.Window` | bandit/memstore.go:141-173 | returns the stored buckets of the range and changes nothing but expiry |
| `MemStore.MemStore.Decide` | bandit/memstore.go:177-208 | a published decision stays and is what is returned |
| `Distributed.ListingKeeps` | bandit/distributed.go:203-208 | listing a buffer in any order loses and invents no counts |
| `Distributed.Distributed.RecordStats` | bandit/distributed.go:152-160 | one report goes to the shadow role of its arm, before any regime is known too |
| `Distributed.Distributed.RecordEpoch` | bandit/distributed.go:166-201 | a report is added entry by entry in its role; a change of regime first empties the buffer and replaces the known arms |
| `Distributed.Distributed.Drain` | bandit/coordinate.go:90-118 | without a regime nothing is taken; otherwise the buffer is listed, each arm once, and emptied |
| `Distributed.Distributed.ApplyResult` | bandit/coordinate.go:202-230 | the selection changes only to a decided, known arm |
| `Coordination.RecordFailure` | bandit/coordinate.go:249-271 | a stale replica takes its local choice if it names a known arm, otherwise nothing changes |
| `Coordination.ReadPooled` | bandit/coordinate.go:126-145 | on success the pooled arms and their evidence are those of the window that stops one bucket short of the current one |
| `Coordination.SyncRound` | bandit/coordinate.go:51-85 | an uninterrupted round of the code, whatever fails in it, is a run of the fleet machine from idle to idle |
| `Coordination.Choose` | bandit/coordinate.go:67-84 | from the store's answer the round reaches exactly the decision the machine applies |
| `Fleet.BucketBounds` | bandit/memstore.go:248-254 | an instant lies in its bucket, from the bucket's start up to the next one's |
| `Fleet.BucketMonotone` | bandit/memstore.go:244-254 | a later instant never falls in an earlier bucket |
| `Fleet.CountersOutlive` | bandit/config.go:248-253 | with an epoch of a millisecond or more, a counter outlives every window that can still ask for it |
| `Fleet.ClaimLasts` | bandit/config.go:255-260 | a claim, made at any instant of a bucket, is still alive at the bucket's last instant |
| `FleetLeadership.AtMostOneLeader` | bandit/store.go:93-95 | no bucket is granted twice in any run if and only if a claim's lifetime reaches the last instant of its bucket |
| `FleetLeadership.TwoLeaders` | bandit/config.go:255-260 | for any shorter lifetime, a run of two replicas in which one bucket is granted twice |
| `FleetLeadership.AnswerTells` | bandit/memstore.go:122-133 | a granted bucket has no decision yet, and a decision that is told is the published one |
| `FleetLeadership.GrantTellsNothing` | bandit/coordinate.go:75-81 | in any run, a Sync that is granted a bucket carries no decision, and a decision carried is the published one |
| `FleetLeadership.Agreement` | bandit/coordinate.go:162-180 | over all interleavings, replicas that obtain a decision for one bucket, by Sync or as leader, obtain the same policy |
| `FleetLeadership.AppliesTheDecision` | bandit/coordinate.go:202-230 | what a replica is about to apply is its bucket's published decision, and two replicas never lead one bucket |
| `FleetLeadership.DecisionStands` | bandit/memstore.go:198-203 | however the run goes on, a published decision is never replaced |
| `FleetLeadership.SharedNeverDecides` | bandit/coordinate.go:70-73 | in shared-posterior mode nobody leads and no decision is ever written or told |
| `FleetEvidence.BucketIsSum` | bandit/memstore.go:103-120 | in every reachable state a stored bucket is the sum of its accepted Syncs, and is still stored until its horizon |
| `FleetEvidence.PastIsFrozen` | bandit/coordinate.go:123-125 | once a bucket is over, no continuation of the run adds to it |
| `FleetWindow.CompleteWindow` | bandit/coordinate.go:126-145 | a reader before the next-but-one bucket pools exactly the sum over every accepted report of decay^age times its counts, however many replicas sent them |
| `FleetWindow.WindowIsFinal` | bandit/coordinate.go:123-125 | that sum never changes afterwards: the window was frozen when it was read |
| `FleetWindow.DrawsTheHeard` | bandit/window.go:112-133 | the arms that can be drawn are exactly those some accepted report in the window named |
| `FleetWindow.WindowIntact` | bandit/config.go:248-253 | no written bucket of the window has expired before the next-but-one bucket begins |
| `FleetWindow.PooledByBucket` | bandit/window.go:31-37 | summing by report and summing by bucket agree, whatever the number of writers |
| `FleetBalance.EvidenceConserved` | bandit/distributed.go:166-208 | per replica, arm and role, everything reported is pending, in flight, accepted once, or given up to a failed Sync or a change of regime |
| `RedisFields.FieldRoundTrip` | bandit/redis/keys.go:46-93 | parsing a printed counter field gives the counter back for every 64-bit policy number, both roles and both kinds |
| `RedisFields.ParsedIsPrinted` | bandit/redis/keys.go:63-93 | nothing else parses, but for leading zeros of the number |
| `RedisFields.FieldInjective` | bandit/redis/keys.go:46-58 | two counters never share a field |
| `RedisFields.IntRoundTrip` | bandit/redis/store.go:88-94 | a printed amount parses back exactly when it fits in 64 bits |
| `RedisCounters.Encode` | bandit/redis/store.go:81-96 | the loop sends each non-zero amount under its field, in order |
| `RedisCounters.ParseArms` | bandit/redis/store.go:197-222 | per arm and role the totals of the fields that read as it, in any map order; an arm appears exactly when some field reads as it |
| `RedisCounters.RequestAgrees` | bandit/redis/scripts.go:33-41 | one request folded by HINCRBY leaves the hash representing what the in-memory store holds |
| `RedisCounters.StoresAgree` | bandit/redis/store.go:146-193 | after any requests, reading the hash back gives the in-memory store's counts, which are the sums of what was listed, leaving out exactly the arms whose total is zero |

## Left out

- Tickers, goroutines, contexts, jitter, Close and SetClock are not modelled: each locked section is one atomic step, and any step may come next. Two Gets outside a window can overlap in the source; here each Get is atomic.
- The bandit's selection, Thompson sampling and every random draw are arbitrary inputs. A draw may also yield nothing although evidence exists, which is more than the source does.
- Key hashing is a fixed predicate on keys, the regime's fingerprint is taken to be injective, and the sample rate in a regime is an integer number of ten-thousandths.
- Rates, weights and capacities are exact reals; floating-point rounding is not modelled. Counters and times are unbounded integers; the in-memory counters' 64-bit wrap-around is not modelled.
- Construction.NewAdaptiveCache: the sampler and the zero value are inputs, and the bandit is only there or not.
- AdaptiveCache.AdaptiveCache.SwitchLocked: with counts outstanding, which its only caller has just reported, it does not say what becomes of them; the outgoing arm's are lost.
- Transparency.Transparent: asks for room for two entries more than what is served and added, because a lookup in a window may move one key and an Add two.
- Third-party arms (LRU, 2Q, ARC, W-TinyLFU, TTL) are represented by a class that drops arbitrary entries at any call; that a given arm meets the contract is proved for the LFU and the random policy only. Classes cannot share an interface here, so the cache runs over that class and the LFU's wrapper repeats its contract.
- The cache's Contains, Keys, Values, Len and ActivePolicy, and Advice with its tenure statistics and reporting counter, would only add easy members.
- The LFU's eviction callbacks, the expiry fields of its entries and the locking wrapper in lfu/lfu.go are not modelled. The sentinel embedded in a list is a separate object here. Sorting the frequencies is an insertion into a sorted sequence.
- The list's move and its expirable insertions are not used by the LFU and are not modelled.
- RequestClock.Accounting: the counter's 64-bit wrap-around is not modelled; a limit of zero or less switches the clock off and is not counted.
- FleetWindow.CompleteWindow: is about the evidence before the cap; capEvidence only rescales it.
- The fleet's hypotheses: one shared configuration as validation leaves it, a coordination epoch of at least a millisecond where stated, a store clock that never goes back and does not precede 1970. A replica that crashes is one that takes no further step.
- Distributed.Distributed.RecordEpoch: the local fallback bandit is fed by every report in the source; here its choice is an arbitrary known arm.
- A replica's counters and timestamps for its snapshot, and Config.validate's defaults, are not modelled.
- Redis is modelled as one hash of text fields per bucket with HINCRBY; networking, clustering, the claim and decision scripts (which do what the in-memory store does) and key names are not.
- RedisCounters.StoresAgree: for counts that are not negative and totals within 64 bits, beyond which HINCRBY fails and the in-memory store wraps.
