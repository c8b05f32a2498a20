# doomsday: a Dafny model

doomsday watches storage backends for X.509 certificates and reports when they expire. This project models the
parts of it where several goroutines, a mutable cache or a mutable document make it hard to see that they are
right, and proves what those parts are for. To verify: `dafny verify dfyconfig.toml` (Dafny 4.11).

**The task scheduler** (`Scheduler`, `SchedulerInvariant`, `SchedulerTheorems`, `Tasks`, `TaskQueues`). Workers
wait on one queue of authentications and refreshes. `Scheduler` is a step machine: each section under the queue's
lock is one step, timers may fire at any moment after they are armed, ad-hoc refreshes come at any moment, and the
outcome of an attempt is arbitrary. `Signal` wakes one parked worker if there is one; `Wait` parks and unlocks
atomically. `SchedulerInvariant` gives what every step keeps and `SchedulerTheorems` what follows for every state of
every run. The machine sees the queue as a map from ids; `TaskQueues` has the class with the slices, and its
methods are proved to do what the machine's steps do. The comment above `enqueue` (server/scheduler.go:123-125)
promises that an equal task is replaced; the code adds the new one beside it, and so does the model.

**The certificate cache** (`Paths`, `Caches`, `Sources`, `RefreshSystem`, `Populate`). A refresh reads a source's old
cache, populates a new one and applies the difference to the global cache. `Paths` has the two-index loops over sorted
path lists, `Caches` the class `Cache` and the algebra of one diff, `Sources` the class `Source` whose `Refresh` hands
old and new over. `RefreshSystem` is the product of the scheduler's machine with refreshes in progress: its main
theorem, `IncrementalEqualsRecomputed`, needs no assumption that refreshes of one source do not overlap, because that
follows from the scheduler's mutual exclusion. `Populate` shows that a pool of workers fills a source's cache with the
same contents in every interleaving, and in the form the refresh theorem assumes: a certificate is found at most once
at one place in one populate, and its key determines its metadata.

**Source names** (`RefreshSystem`, `SharedNames`). The theorem asks that names differ, which the configuration does not
ensure. For any names `UnionThroughoutIff` gives the exact condition over whole runs: no source stops listing a path
that another source lists, and what a source newly lists of what is listed already comes first on both sides, which is
what `addNewFrom` can find. `SetUnionThroughoutIff` is about the sets of paths alone, for which the first half is exact.
`SharedNames` builds two runs with two sources of one name, from the start of the scheduler: in one the global cache
loses a path, in the other it lists one twice.

**Shared arrays** (`Slices`, `SharedPaths`, `SharedCaches`, `Refreshes`, `SharedRuns`). In the modules above a path list
is a value. In the code it is a slice, and `addNewFrom` stores the one it is given (server/cache.go:166-168), so that
every run that introduces a key makes the global cache and a source's own cache share an array, which later refreshes
shift, append to and sort. `SharedCaches` has the cache on slices: while only whole lists are shared, `ApplyDiff` does to
what is shown what it does to values. `Refreshes` shows that every run of `RefreshSystem` does to the caches what a
sequence of whole refreshes does. `SharedRuns` follows such sequences on slices: if, wherever two sources ever find one
key, their lists for it are full (as long as their array, as the lists of one path are that `Populate` merges) and have
no path in common (as is so if names differ), the global cache shows throughout what it would if lists were
values. Where a list has room it can fail: `SharedPaths` follows an entry through two short stories on slices, in which a
second source adds to a list that the first source's cache shares and the first source is then refreshed without change,
or no longer has the key, and says for each exactly when the entry ends as it should.

**The tree diff of the web page** (`Dom`, `Lens`, `LensTheorems`, `LensPlaces`, `LensEditing`). `diff` computes an edit
script for live nodes and `patch` runs it on them. `Dom` has the nodes and what each operation does to a heap of nodes,
`Lens` the script as a function and the induction that it runs through, `LensTheorems` what it achieves, `LensPlaces`
which nodes are kept and what is replaced and set, place by place, and `LensEditing` the loops over node objects. The
promise that the patched tree equals the target is false for some attribute names: `diffa` asks `attr in _b` of a plain
object, which is also true for what every object inherits, and assigning to `__proto__` stores nothing.
`AttributesSafe` is the exact condition, and it holds for all other names.

**Arithmetic and round trips** (`Times`, `Powers`, `Doubles`, `Floats`, `Numerals`, `Sources`, `Durations`, `YamlKeys`,
`Expiry`). The back-off of failing authentications and its bound, the path buffer that the YAML recursion shares between
siblings, the windows of the dashboard, and the duration printer and parser. The printer goes through double precision,
which `Doubles` has as a function: shortly before a whole hour or minute, from 170 days on, it prints the next one, and
the round trip through the parser fails exactly there and for durations of minus one minute or less.

## Model

| member | source | states |
|---|---|---|
| `Tasks.BeforeIsStrictTotalOrder` | server/scheduler.go:173-194 | the comparator of the queue is irreflexive, asymmetric, transitive, and decides any two entries whose ids differ |
| `Sorting.SortedUnique` | server/scheduler.go:178-194 | two sorted arrangements of the same elements are equal, so the outcome of `sort.Slice` does not depend on how it sorts |
| `TaskQueues.TaskQueue.Enqueue` | server/scheduler.go:126-133 | the queue gains exactly the new entry under the next id, stays sorted, and shows the step machine's state after `enqueue` |
| `TaskQueues.TaskQueue.IdxWithID` | server/scheduler.go:161-171 | the first index with the id, or -1 exactly when no entry has it |
| `TaskQueues.TaskQueue.SameTaskExistsAndReady` | server/scheduler.go:208-222 | true exactly when some entry of the list has the same source name, the same kind and the state ready |
| `TaskQueues.TaskQueue.TimerFires` | server/scheduler.go:135-158 | the timer callback changes only the state of the entry with the id: to skip if the queue or the running list has a ready entry of its source name and kind, and to ready otherwise; it re-sorts, and signals exactly when the entry is there |
| `TaskQueues.TaskQueue.DequeueNoLock` | server/scheduler.go:232-239 | swap-with-last, shrink and sort remove exactly one entry and leave the rest sorted: entries to be skipped leave before ready ones and those before pending ones, then auths before refreshes, then the earlier run time, then the smaller id |
| `TaskQueues.TaskQueue.DeleteRunning` | server/scheduler.go:224-230 | removal by id takes out exactly that entry, nothing if it is not listed, and is the step machine's removal for the worker that ran it |
| `TaskQueues.TaskQueue.RunNextLocked` | server/task_worker.go:93-111 | the locked part of `runNext`: a worker waits exactly when every entry is pending, and otherwise takes the foremost one, which it lists as running under its own number unless it is to be skipped; both are steps of the machine |
| `SchedulerInvariant.InitKeeps` | server/source_manager.go:41-53 | the state before anything is enqueued satisfies the scheduler's invariant |
| `SchedulerInvariant.StepKeeps` | server/scheduler.go:126-159 | every step (enqueue, arming and firing of timers, park, dequeue, run, removal, rescheduling, ad-hoc refresh, start) keeps ids, holders, workers, timers, readiness, wakeups and chains in order |
| `SchedulerInvariant.RunKeeps` | server/task_worker.go:82-153 | the invariant holds in every state of every run |
| `SchedulerTheorems.NoLostWakeup` | server/task_worker.go:93-100 | while a worker is parked there are at least as many signalled workers as runnable entries; if all workers are parked nothing is runnable |
| `SchedulerTheorems.MutualExclusion` | server/scheduler.go:146-154 | of the ready entries in queue and running list together no two have the same source name and kind, running entries are ready, and no two workers run entries of one source name and kind |
| `SchedulerTheorems.MarkedAsPromised` | server/scheduler.go:135-158 | over every run an entry in the queue changes only from pending, to skip if a ready entry of its source name and kind is in the queue or running, and otherwise to ready |
| `SchedulerTheorems.EntersAs` | server/task_worker.go:126-153 | exactly which steps add an entry to the queue, and its id, kind, source, time, reason and state: ad-hoc work and a skipped auth are not scheduled again, everything else is |
| `SchedulerTheorems.ScheduleConservation` | server/task_worker.go:126-153 | each source has exactly one scheduled refresh, and exactly one scheduled auth unless its auth chain was retired |
| `SchedulerTheorems.ChainEndsOnlyBySkip` | server/task_worker.go:126-153 | over every run a source's scheduled refreshes never become fewer, and its scheduled auths only in a step in which a worker skips scheduling the next one |
| `SchedulerTheorems.TimersMatchPending` | server/scheduler.go:135-144 | timers still to fire and pending entries correspond one to one, so the branch for an entry removed pre-emptively is never taken |
| `SchedulerTheorems.IdsUnique` | server/scheduler.go:127-131 | ids are unique across queue, running list and workers' hands, and below the next id |
| `SchedulerTheorems.WorkerAccounting` | server/task_worker.go:108-121 | every running entry has a worker of its own, so running entries never exceed the workers; a worker shows running exactly while it runs an entry, scheduling until it has taken it off the list, and idle otherwise |
| `SchedulerTheorems.DumpAgrees` | server/scheduler.go:288-328 | a dump agrees with itself although worker states are read later than the lists and without the queue's lock |
| `SchedulerTheorems.LeavesInPriorityOrder` | server/task_worker.go:96-106 | over every run pending entries never leave the queue, no other entry leaves while one to be skipped is in it, no ready refresh while a ready auth is in it, and of entries of one state and kind the one with the earlier run time, then the smaller id, leaves first |
| `Paths.LessThanIsStrictTotalOrder` | server/cache.go:214-220 | `LessThan` is a strict total order on path objects |
| `Paths.LessThanIff` | server/cache.go:214-220 | by source, then by location, each compared where the two texts first differ or where one ends |
| `Paths.PathListDiff` | server/cache.go:93-118 | for all sorted lists, duplicates allowed, the two results are the exact multiset differences, both sorted |
| `Paths.DeleteSorted` | server/cache.go:127-147 | the two-index loop leaves exactly the entries not listed for deletion, in order |
| `Paths.MergeSorted` | server/cache.go:171-189 | the scan drops exactly the longest common prefix of the two lists and sorts the rest in |
| `Caches.MergedHasUnion` | server/cache.go:171-190 | the merged list has exactly the paths of both lists, whatever the lists |
| `Caches.MergedStrictIff` | server/cache.go:171-190 | the merge of two duplicate-free lists is duplicate-free exactly when nothing past their common prefix is on both sides |
| `Caches.MergedMayDuplicate` | server/cache.go:181-185 | a path that is already listed, but not first, gets listed twice |
| `Caches.Cache.CalcDiff` | server/cache.go:64-91 | for every key the paths to delete and the object to add, sorted, and for no other key |
| `Caches.Cache.DeletePaths` | server/cache.go:120-156 | the entry keeps the paths not listed, disappears if none is left, and no other entry changes |
| `Caches.Cache.AddNewFrom` | server/cache.go:164-191 | the entry becomes the merge, or the object itself if the key is new, and no other entry changes |
| `Caches.Cache.Merge` | server/cache.go:158-162 | the store changes at the one key, to the merge |
| `Caches.Cache.ApplyDiff` | server/cache.go:48-62 | for every visiting order of the keys each entry ends as the diff of that entry |
| `Caches.DiffEntrySet` | server/cache.go:48-91 | the set of paths of an entry after the diff is (entry minus (old minus new)) plus (new minus old), for any entry |
| `Caches.DiffEntryMetadata` | server/cache.go:164-191 | an entry keeps its metadata through additions, and takes those of the new cache exactly when it was not there or lost all its paths before |
| `Caches.DiffEntryAlgebra` | server/cache.go:48-91 | if moreover the entry contains the old paths and shares none of its others with the new ones, it is strictly sorted, and present exactly if that set is not empty |
| `Caches.DiffEntryStrictIff` | server/cache.go:48-91 | exactly when the entry is in order after the diff, with no path listed twice: if anything is added, something is there, and what is added of what is there already comes first on both sides |
| `Caches.SharedFirstIff` | server/cache.go:173-189 | the scan of `addNewFrom` recognises all that two lists have in common exactly if that comes first in both |
| `Caches.EmptyEntryIff` | server/cache.go:73-79 | exactly when `ApplyDiff` leaves an entry without any path |
| `SharedPaths.AppendNew` | server/cache.go:171-187 | on slices: the scan appends what is past the common prefix, in place if there is room, and leaves the slice that was there as it was |
| `SharedPaths.AddInPlace` | server/cache.go:171-190 | on slices: the result is the merge; the slice that was there before shows the front of the merge if the array has room, and is unchanged otherwise |
| `SharedPaths.DeleteInPlace` | server/cache.go:121-156 | on slices: an exact deletion if the list to delete has an array of its own; if it is the array being shifted, everything goes; either way every place freed keeps showing the last path |
| `SharedPaths.DeletionSparesHolderIff` | server/cache.go:134-141 | another holder of the array sees its list unchanged by a deletion exactly if none of its paths is taken away, but for the last path of the array |
| `SharedPaths.ViewSurvivesIff` | server/cache.go:171-190 | another holder of the array sees its list unchanged by an addition exactly if nothing added past the common prefix sorts before a path of that holder's list |
| `SharedPaths.UnchangedRefreshKeepsUnionIff` | server/source.go:36-61 | one source's list `e`, an addition `a` in the same array, a refresh that finds `e` again: the union is kept exactly if nothing of `a` sorts before something of `e` |
| `SharedPaths.UnchangedRefreshLoses` | server/source.go:36-61 | a losing input: three places of the source `vault` and one of the source `alpha`, which the refresh of `vault` takes away |
| `SharedPaths.AddThenRefresh` | server/source.go:36-61 | the same run on slices, from the shared array to the end: the entry ends with the union exactly if the addition did not fit into the array or nothing added sorts before something of the source's list |
| `SharedPaths.AddThenVanish` | server/cache.go:69-71 | the run on slices in which the key is then gone from the first source: what the other source added is all that is left exactly if it did not fit, or was nothing |
| `SharedCaches.SliceCache.CalcDiff` | server/cache.go:64-91 | on slices: lists in arrays of their own, but the old cache's own list for a key that is gone and the new cache's own object for a key that is new |
| `SharedCaches.SliceCache.DeletePaths` | server/cache.go:120-156 | on slices: one entry changes, in the array it was in; it goes altogether if the list to delete is in that array |
| `SharedCaches.SliceCache.AddNewFrom` | server/cache.go:164-191 | on slices: a new key gets the object itself, and with it the caller's array; an entry that is there is merged into, in place or in a new array |
| `SharedCaches.SliceCache.ApplyDiff` | server/cache.go:48-62 | on slices, if only whole lists of one key are shared with the old cache: what is shown changes as values would, no other key's array is written to, and every entry ends in its own array, a new one, or as the new cache's own object |
| `SharedCaches.SliceCache.ApplyKnowing` | server/cache.go:48-62 | moreover no full list that the old cache has no part in is written to, whoever else holds it: its entry stays as it is or moves to a new array |
| `SharedRuns.Run` | server/source.go:33-64 | for every sequence of refreshes in which, wherever two sources ever find one key, their lists for it are full and have no path in common: the global cache, sharing arrays as the code does, shows what it would if lists were values, which is the union of what the sources found last, strictly sorted |
| `SharedRuns.RefreshOne` | server/source.go:36-61 | one such refresh: what the global cache shows changes as values would, it again shares whole lists only, and what all other stores show stays as it was |
| `SharedRuns.HistoryCompatible` | server/source.go:33-64 | the refreshes of every run of the system satisfy those conditions if names differ and lists are full where two sources meet, and lead to the system's global cache |
| `Refreshes.RunIsRefreshes` | server/source.go:33-64 | for every run of scheduler and refreshes, however interleaved, there is a sequence of whole refreshes that leads to the same global cache and the same last applied caches |
| `Refreshes.StepIsRefresh` | server/source.go:33-64 | that sequence is made of the `ApplyDiff` steps: each adds one refresh, every other step none |
| `Sources.Core.Populate` | server/core.go:41-55 | a failed populate leaves the cache that was there, a successful one installs the new one |
| `Sources.Source.Refresh` | server/source.go:33-64 | success replaces the source's contribution by the diff of old and new in the global cache; failure changes neither cache and is recorded |
| `Sources.Source.Auth` | server/source.go:66-93 | success moves the expiry to the start of the attempt plus the lifetime; failure keeps lifetime, last success and metadata; what is left until expiry always fits into a duration |
| `Sources.Source.CalcNextAuth` | server/source.go:95-116 | never again exactly for an infinite lifetime; otherwise, after the last run, half of what is left if that is ten seconds or more, five seconds if five are left, and five minutes if less |
| `Sources.BackoffBound` | server/source.go:102-113 | with at most five seconds times 2^k left, only the first k+1 attempts of a failing row are scheduled at or before expiry, whatever attempts and dispatches take |
| `Sources.BackoffBoundIsTight` | server/source.go:102-113 | that bound is attained for every k by prompt attempts |
| `Sources.PromptRowFails` | server/source.go:102-113 | the row of prompt attempts is such a failing row |
| `RefreshSystem.IncrementalEqualsRecomputed` | server/source.go:33-64 | if source names differ: at every moment of every run the global cache has for each key exactly the union of the paths the sources last applied, strictly sorted, and no other keys |
| `RefreshSystem.UnionThroughoutIff` | server/source.go:33-64 | for any names: the global cache was the union, strictly sorted, at every moment of a run exactly if in no step a source stopped listing a path that another source lists, and whatever a source newly listed of what was listed already came first on both sides |
| `RefreshSystem.SetUnionThroughoutIff` | server/source.go:33-64 | for any names: the sets of paths were the union at every moment of a run exactly if in no step a source stopped listing a path that another source lists |
| `RefreshSystem.StepUnionIff` | server/source.go:33-64 | a step from a moment at which the global cache is the union, strictly sorted, leads to another such moment exactly under those two conditions |
| `RefreshSystem.StepSetUnionIff` | server/source.go:33-64 | the same for the sets of paths, exactly under the first condition |
| `RefreshSystem.ApplyAtIff` | server/cache.go:48-62 | applying the diff of one source keeps the union at a key exactly if no other source lists a path that this one stops listing |
| `RefreshSystem.ApplyStrictAtIff` | server/cache.go:48-62 | and where it does, the entry is strictly sorted exactly if what the source newly lists of what stays listed comes first on both sides |
| `RefreshSystem.ApplyIff` | server/cache.go:48-62 | so applying the diff of one source keeps the union in full exactly if it drops nothing shared and adds in order |
| `RefreshSystem.ApplyUnion` | server/cache.go:48-62 | with different names both conditions hold, and applying the diff of one source's last applied and current cache to the union gives the new union, strictly sorted |
| `RefreshSystem.SystemStepKeeps` | server/source.go:33-64 | every step of scheduler and refreshes, interleaved freely, keeps the hand-over of old caches: a refresh under way holds what its source last applied |
| `RefreshSystem.OneRefreshPerSource` | server/scheduler.go:146-154 | two workers never execute a refresh of the same source, a consequence of the scheduler's invariant |
| `SharedNames.ReachRefresh` | server/task_worker.go:93-124 | from any quiet reachable moment a pending refresh can run to its end with any answer of the backend, step by step |
| `SharedNames.SharedNameLosesPath` | server/server.go:44-55 | a whole run with two sources of one name (two unnamed backends of one type) that ends with an empty global cache although one source still lists a path |
| `SharedNames.SharedNameListsTwice` | server/server.go:44-55 | a whole run with two sources of one name in which nothing shared is dropped, and which ends with a path that the global cache lists twice |
| `Populate.PopulateIsDetermined` | server/core.go:62-153 | for every number of workers and every interleaving: a key lists exactly the places it was found at, under the source's name; the failed paths are exactly the errors; successes and errors add up to the paths, and every find was counted; and how many workers there are |
| `Populate.PoolStepKeeps` | server/core.go:91-136 | every step of a worker keeps what was merged, noted and counted in agreement |
| `Populate.PopulateIsFoundBy` | server/core.go:114-127 | if no certificate is found twice at one place and metadata follows the key, the cache is strictly sorted and carries the source's name, as the refresh theorem assumes |
| `Slices.Append` | server/core.go:235-239 | `append`: in place if there is room, else in a new array of any larger capacity; either way the old slice keeps its contents |
| `Slices.RemoveAt` | server/cache.go:135-140 | deleting one element by `append` shifts the rest in place and leaves the array past the new end as it was |
| `YamlKeys.RecurseTree` | server/core.go:213-244 | for every growth policy and order of mappings the recursion over the shared buffer finds every string in the tree exactly once, wherever it is, under the texts of the keys and the list indices on the way to it |
| `YamlKeys.RecurseMapping` | server/core.go:220-236 | the same for the entries of a mapping, visited in any order |
| `YamlKeys.RecurseListing` | server/core.go:237-240 | the same for the items of a list, in order |
| `YamlKeys.TakeEntry` | server/core.go:221-236 | the reference result of a mapping does not depend on the order of its entries |
| `YamlKeys.LeavesFindAll` | server/core.go:213-244 | what recursion over copied paths finds, by addresses: one result for each address that leads to a string, with that string and the path of texts along the address |
| `YamlKeys.PathTexts` | server/core.go:246-252 | the path of the root is `(root)`, of one key that key, and each further key follows after a dot |
| `YamlKeys.KeyTexts` | server/core.go:221-236 | the text of string, integer, boolean and other keys |
| `LensEditing.DiffAndPatch` | web/include/lens.js:141-192 | on live nodes: the first tree's root keeps its payload and has the target's children, structurally, exactly when the attribute names are safe; the old nodes stay wherever both trees have elements of one name, or texts, on the whole way, and everywhere else are the target's; nodes outside both trees do not change |
| `LensEditing.DiffAttributes` | web/include/lens.js:43-85 | the loops over objects used as dictionaries, which visit array indices first and other names as they were inserted, push the specified attribute operations |
| `LensEditing.ToDictionary` | web/include/lens.js:50-55 | copying attributes into an object keeps all but the names whose assignment has no effect |
| `LensEditing.DiffNode` | web/include/lens.js:105-139 | the comparison of two live nodes gives the script specified for the trees they stand for; it is a single replacement exactly if they are neither elements of one name nor both texts |
| `LensEditing.Diff` | web/include/lens.js:141-171 | the paired, appended and removed children give the script specified for the trees |
| `LensEditing.PatchOne` | web/include/lens.js:178-190 | one operation changes the nodes as the heap function says, or throws exactly when it is undefined |
| `LensEditing.Patch` | web/include/lens.js:176-192 | the operations run in order up to the first that throws |
| `LensTheorems.DiffThenPatch` | web/include/lens.js:141-192 | for all finite trees without common nodes the script runs without throwing, and the patched children agree with the target's exactly when the names are safe |
| `Lens.RunKidsOps` | web/include/lens.js:141-171 | each operation finds its target attached where it expects it, and only the two trees' nodes change |
| `LensTheorems.PatchedKidsIff` | web/include/lens.js:126-171 | the patched children have the target's shapes exactly when every pair of elements compared has safe names |
| `LensPlaces.NodesKept` | web/include/lens.js:126-171 | place by place: the patched tree has the old node exactly where both trees have elements of one local name, or texts, there and at every place on the way, and the target's node everywhere else |
| `LensPlaces.ReplacedIff` | web/include/lens.js:87-139 | a node is replaced exactly where the two trees first have neither elements of one local name nor texts |
| `LensPlaces.AttributeOpsIff` | web/include/lens.js:43-85 | an attribute is set exactly if the old element does not have it with that value, and removed exactly if only the old element has it, but for the names listed |
| `LensPlaces.EnumeratedOrder` | web/include/lens.js:60-79 | keys that are array indices are visited first and by size, the others in the order of the attributes |
| `LensTheorems.PatchedAttributesIff` | web/include/lens.js:43-85 | patched attributes are the target's exactly when every name to be removed is one that plain objects do not inherit, and the unassignable name agrees already |
| `LensTheorems.InheritedNameSurvives` | web/include/lens.js:60-68 | an attribute called `constructor` is not removed |
| `LensTheorems.AttributeOpsEmptyIff` | web/include/lens.js:43-85 | no attribute operations, and safe names, exactly when the attribute maps agree |
| `LensTheorems.NodeOpsEmptyIff` | web/include/lens.js:105-139 | no operations for a pair of comment-free nodes, and safe names, exactly when they agree |
| `LensTheorems.KidsOpsEmptyIff` | web/include/lens.js:141-171 | for comment-free trees the script is empty, and the names are safe, exactly when the children already agree |
| `LensTheorems.KidsOpsOrderly` | web/include/lens.js:141-171 | no operation mentions a node that an earlier operation removed or replaced |
| `Floats.FloatsIff` | duration/duration.go:20-27 | the floating-point days, hours and minutes of every 64-bit duration: the exact quotients, or the next hour or minute exactly if less is left until then than half the distance of two numbers of double precision there |
| `Doubles.SumCarries` | duration/duration.go:20-27 | rounding the sum of a whole number and a fraction gives the next whole number exactly if at most half a digit is missing, and otherwise stays at least a whole digit below |
| `Doubles.DoubleNearest` | duration/duration.go:20-27 | rounding to double precision gives a number that no other with as many digits is nearer than, and the even one of two that are equally near |
| `Durations.Format` | duration/duration.go:12-29 | the printed parts of any 64-bit duration, computed in double precision; they are the exact ones wherever nothing is carried into the next hour or minute |
| `Durations.PartsShown` | duration/duration.go:15-28 | years are shown from 365 days on, days from a day on, hours from an hour on and minutes always, in this order, each less than the next larger unit |
| `Durations.Tokenize` | duration/duration.go:70-94 | the tokens of the input, or an error exactly where the specification has none |
| `Durations.TokensIff` | duration/duration.go:70-94 | for any text: the tokens are the numbers and units of which it is a row, spaces and digits at the end left out, and there is an error exactly if it is no such row |
| `Durations.Parse` | duration/duration.go:31-68 | the sum of the tokens with 64-bit wrap-around; malformed input is an error, a number beyond 64 bits a panic |
| `Durations.ParseIff` | duration/duration.go:31-68 | for any text: malformed exactly if it is no row of numbers and units, and otherwise the sum of the amounts in nanoseconds with wrap-around, or a panic exactly if a number exceeds 64 bits |
| `Durations.RoundTripIff` | duration/duration.go:13-68 | for every 64-bit duration: what is printed reads back as the duration cut to the minute exactly if the duration is above minus one minute and nothing is carried |
| `Durations.RoundTripMostly` | duration/duration.go:13-68 | for whole seconds, and for less than 4096 hours either way, exactly if it is above minus one minute |
| `Durations.NanosecondBefore` | duration/duration.go:20-28 | one nanosecond before 170 days and 17 hours prints `170d 17h 59m` |
| `Durations.PartsAddUpIff` | duration/duration.go:15-27 | the printed parts add up to the duration cut to the minute exactly if nothing is carried |
| `Durations.SummedWraps` | duration/duration.go:51-65 | what is read is the sum of the parts modulo 2^64 |
| `Durations.SummedExactly` | duration/duration.go:51-65 | if the whole fits into 64 bits, so does every product and partial sum |
| `Durations.Split` | duration/duration.go:15-27 | years, days, hours and minutes add up to the duration cut to the minute |
| `Expiry.Filter` | client/doomsday/client.go:120-148 | whatever the order of the list, it is cut where a certificate first expires, in nanoseconds, later than the clock reading and the given span; `Beyond` keeps everything if none does; on a sorted list exactly what lies between the cutoffs is left |
| `Expiry.Dashboard` | cmd/dashboard.go:16-113 | the five lists, cut at 0, 3, 14 and 28 days, with a clock reading for each cutoff |
| `Expiry.TilesIff` | cmd/dashboard.go:21-113 | for a clock that moves between its eight readings: exactly when the first four lists are disjoint and make up the last one |
| `Expiry.WindowsTileIff` | cmd/dashboard.go:21-113 | if the clock stands still, that is exactly if the list is empty or something expires later than two weeks from now |

## Left out

- RefreshSystem.IncrementalEqualsRecomputed: path lists are values and names differ; `UnionThroughoutIff` is about any names, `SharedRuns.Run` about lists that share arrays.
- RefreshSystem.ApplyUnion: the same; `ApplyIff` asks nothing of names.
- RefreshSystem.SystemStepKeeps: the same, as to values.
- SharedRuns.Run: where two sources find one key and a list for it has room, only the stories `AddThenRefresh` and `AddThenVanish` are followed, not whole runs; a refresh is one step, which `Refreshes.RunIsRefreshes` justifies.
- SharedRuns.RefreshOne: one refresh under the same conditions.
- SharedCaches.SliceCache.ApplyDiff: for an old cache that shares whole lists with the global one, which is how `addNewFrom` makes it and `SharedRuns` shows it stays.
- SharedPaths.UnchangedRefreshKeepsUnionIff: by the diff of what the slices show; `AddThenRefresh` is about the slices.
- SharedPaths.AddInPlace: the list to be added is in another array than the entry's, as it is wherever the code calls it.
- Caches.Cache.CalcDiff: lists are values; `SharedCaches.SliceCache.CalcDiff` says whose slices they are.
- Caches.Cache.DeletePaths: lists are values; `SharedCaches.SliceCache.DeletePaths` is about slices.
- Caches.Cache.AddNewFrom: lists are values; `SharedCaches.SliceCache.AddNewFrom` is about slices.
- Caches.Cache.Merge: lists are values; it is `AddNewFrom` under the cache's lock.
- Caches.Cache.ApplyDiff: lists are values; `SharedCaches.SliceCache.ApplyDiff` is about slices.
- Sources.Core.Populate: listing and fetching are one given answer, since either error has the same effect; the fetching itself is in `Populate`.
- Populate.PopulateIsDetermined: which certificates an answer holds, and the texts of their places, are given with the answer.
- Doubles.DoubleNearest: exponents are not bounded; the numbers that occur are between 2^-42 and 2^42.
- SchedulerTheorems.NoLostWakeup: safety only; nothing is said about fairness, about spurious wakeups (Go has none), or about when a timer fires.
- SchedulerTheorems.DumpAgrees: states agreement of the lists and worker states a dump reads; the JSON lists it builds from them are not modelled.
- Sources.Source.Refresh: one call from start to end; what other goroutines may do in between is in `RefreshSystem`.
- TaskQueues.TaskQueue.Enqueue: ids are unbounded integers; the code's `uint` ids wrap around after 2^64 tasks.
- LensTheorems.DiffThenPatch: attributes form a map by name; namespaces, invalid attribute names, properties and events are not modelled, nor is the check that a node is not appended below itself, which two trees without common nodes cannot trigger.
- Expiry.Dashboard: the tables it prints are left out.
- YamlKeys.RecurseTree: the tree is inductive; decoding YAML text is left out.
- `sort.Slice` stands as a function with the same outcome on lists its comparator orders totally; the algorithm is not modelled.
- `CalcNextRefresh` and a claim that the next refresh lies in the future: it reads a finish time that is zero while another refresh of the source runs, so its outcome is arbitrary in the step machine.
- The locks of caches and cores, and the exchange of locks in `SetCache`: each cache operation is one atomic step.
- The initial authentications of `BackgroundScheduler`: the machine starts where they have all succeeded.
- `Data`, `SchedulerState`, `Keys`, `Read`, `Map` and the sorting `Store`: reports and accessors with nothing hard in them.
- Storage accessors and their `List`, `Get` and `Authenticate`: arbitrary answers.
- PEM and X.509 decoding and SHA-1: a certificate is a key with metadata.
- HTTP server and client, sessions, notifications, command line, tables, colours, templates and `strftime`.
