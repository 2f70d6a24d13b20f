# Verified model of torrentd's stateful core

torrentd searches torrent indexers, caches what it fetches, and stores what it finds. This project models the parts of
it that keep state over many calls, and proves what those parts keep:

- **The keyed record store** (`storage/`): bolt buckets and cursors (`Buckets`, `Cursors`), the unique index and the list
  index (`UniqueIndexes`, `ListIndexes`), the values of free fields in an index and after storing (`Fields`), keys and index
  values (`IndexKeys`), records and transactions (`Records`, `RecordStore`), the ring of latest results (`LatestResults`,
  `LatestOrder`), going over all records (`RecordOrder`, `CreationOrder`, `MixedOrder`), and `KeyedStorage.Add` as an upsert
  (`KeyedStorages`), which `UpsertRefinement` proves to be a plain map from key values to data and `MixedRefinement` one
  that also holds items without a key by their UUID, the loop that stores what a search found (`Discovery`), workers that
  add at the same time (`ConcurrentAdds`), what the unique index says after updates (`UniqueValues`), and the store when
  all ids are given (`FullStore`).
- **The caches** (`indexer/cache/`): the doubly linked recency list (`EvictionList`), the LRU cache on it (`Lru`), the
  ordered sequence both stand for (`RecencyOrder`), and the cache with expiry and its sweeper (`TtlLru`).
- **The timer heap** (`indexer/cache/heapTimer.go`): sift-up and sift-down over the slice (`HeapOrder`, `TimerHeap`), the
  course of turns that a tick takes (`TickCourse`), and the tick that runs callbacks with the lock released (`TimerTick`).
- **The search worker pool** (`indexer/workpool.go`): range fields and page iterators (`RangeField`, `SearchIterator`), and the
  feeder, the workers, the channels and the closer as interleaved atomic steps (`WorkPool`, `WorkPoolBound`,
  `WorkPoolExact`, `WorkPoolSafety`), and how the pool comes to its end (`WorkPoolEnds`).
- **The torznab query** (`indexer/search/query.go`): writing it as parameters and reading it back (`QueryCodec`).

Code that changes things in place is a class whose methods are proved against functions of the old state; the laws are
lemmas about those functions, over all inputs, runs or schedules. A Go string or byte slice is a Dafny string whose
characters stand for bytes. Times, random ids and search results are parameters; the order in which Go ranges over a map
is an arbitrary choice. A step that would panic in Go is excluded by a precondition that says so. `Decimal`, `Joins` and
`Sequences` hold the printing, parsing and joining, and the facts on sequences, that several parts share.

Where the code does not do what its names, comments or callers suggest, the model follows the code, and a lemma says when
the expected law holds:

- the ring "of the latest 20" has 22 slots, read in the order of their names as texts, so that a count below 22 of a full ring
  gives the newest only when the last push went to one slot, and for 3 to 14 never (`LatestOrder.NewestExactly`);
- a reverse range scan starts in the wrong place when no key reaches the maximum, or the first that does properly extends it
  (`Cursors.RangeReverse`);
- a list index confuses a value that contains `__`, or ends in `_`, with a shorter one (`ListIndexes.UnsafeKeysConfuse`),
  and answers other ids too exactly when one of those has a key with the prefix of the value (`ListIndexes.IdsOfValue`);
- a query on a key of several fields looks into another index than the one that is written, so that a second item with the
  same key is refused instead of updated (`IndexKeys.SameIndexExactly`, `UpsertRefinement.CompositeRun`);
- a unique key with the fields of the primary key refuses every new record (`UpsertRefinement.UniqueLikePrimaryRefuses`);
- a torrent item that is found always counts as changed, and any other item that is added again unchanged does if one of its
  values does not come back from JSON as it was: a number that is no float64, a time, a list, or a text that is not UTF-8
  (`UpsertRefinement.ReaddedIsSameExactly`);
- a torrent item that is stored loses the links behind its own (`Records.ReadAsItselfExactly`);
- an update leaves the unique index as it was, so the value that a record has now leads to it exactly if it was created with it
  (`UniqueValues.LeadsExactly`);
- when workers add at the same time, an item is refused, or updated to what is there, exactly if another worker's write for
  its key came between (`ConcurrentAdds.WriteAgreesExactly`);
- ids are cut to 32 bits: the 2^32nd record still gets an id of its own, the next one takes the place of the first, whose key
  then leads to it (`FullStore.BijectionEndsExactly`); and going over all records stops below id 0x5F5F696F
  (`RecordOrder.ReadsAllExactly`);
- a range field whose end does not fit an int, or is not above its start, may never be exhausted (`RangeField.ExhaustedExactlyWhen`);
- the sweeper deletes a fresh entry exactly if its key was added again between the sweeper's two critical sections, with a time
  that is not expired (`TtlLru.SweeperLosesExactly`);
- with a page limit P the worker pool searches at most P - 1 pages of an index, and with a limit of 1 none, because the job of the
  last page finds its iterator complete (`WorkPoolEnds.SearchedBelowLimit`);
- reading a query back gives it the default limit for a limit of 0, and loses the Trakt id (`QueryCodec.RoundTripExactly`).

## Model

| member | source | states |
|---|---|---|
| RecencyOrder.StepKeepsShape | indexer/cache/lru.go:49-120 | no operation repeats a key or lets the order outgrow the size |
| RecencyOrder.AddKeepsIncluded | indexer/cache/lru.go:51-69 | adding the same entry to a small and a bigger cache keeps the small order a subsequence of the big one, through every combination of hits and evictions |
| RecencyOrder.Inclusion | indexer/cache/lru.go:38-120 | for any one trace on caches of sizes s <= b, the small order is a subsequence of the big one with equal values: a bigger cache never turns a hit into a miss |
| RecencyOrder.OrderedByUse | indexer/cache/lru.go:49-120 | after any trace the entries stand in the order of their last Add or Get, so that what is dropped was not used for longest, and each has the value added last under its key |
| RecencyOrder.AddedIsInFront | indexer/cache/lru.go:51-69 | with room for one, what was just added is cached, in front of all others |
| EvictionList.List.Attach | indexer/cache/lru.go:60 | linking an element behind the sentinel keeps the ring closed both ways and puts it in front of the others |
| EvictionList.List.Detach | indexer/cache/lru.go:174 | linking an element's neighbours keeps the ring closed and drops exactly that element |
| EvictionList.List.MoveToFront | indexer/cache/lru.go:54 | the element and its content go to the front, all others keep their order |
| EvictionList.List.PushFront | indexer/cache/lru.go:60 | a new element holding the entry stands in front of the old ones |
| EvictionList.List.Unlink | indexer/cache/lru.go:174 | the element and its content go, all others keep their order |
| Lru.IndexedAt | indexer/cache/lru.go:53-56 | the map leads a key to the element at the very place of its entry in the recency order |
| Lru.IndexedMove | indexer/cache/lru.go:53-56 | moving an element to the front and the entry to the front keeps map, list and order in agreement |
| Lru.IndexedCount | indexer/cache/lru.go:135 | the map has exactly as many keys as the order has entries, so Keys fills its array exactly |
| Lru.NewLRU | indexer/cache/lru.go:25-35 | a cache for every size that is not negative, empty and well formed; none for a negative size |
| Lru.LRU.Add | indexer/cache/lru.go:51-69 | the order becomes the added-to one; true exactly if a new key made it too long; then the least recently used entry, and only it, is reported; fresh insertions are counted |
| Lru.LRU.Get | indexer/cache/lru.go:73-82 | answers the cached value and moves its entry to the front; a miss changes nothing |
| Lru.LRU.Contains | indexer/cache/lru.go:86-89 | true exactly for cached keys |
| Lru.LRU.Peek | indexer/cache/lru.go:93-99 | answers the cached value and changes nothing |
| Lru.LRU.Remove | indexer/cache/lru.go:103-109 | takes out the entry of the key, reports it, and tells whether there was one |
| Lru.LRU.RemoveOldest | indexer/cache/lru.go:112-120 | takes out and answers the least recently used entry, and reports it |
| Lru.LRU.GetOldest | indexer/cache/lru.go:123-130 | answers the least recently used entry |
| Lru.LRU.Keys | indexer/cache/lru.go:133-141 | the keys from the oldest to the newest entry, one for each |
| Lru.LRU.EvictOldest | indexer/cache/lru.go:163-169 | drops and reports the least recently used entry, if there is one |
| Lru.LRU.RemoveElement | indexer/cache/lru.go:172-181 | list and map lose the same entry, which is reported |
| Lru.LRU.Resize | indexer/cache/lru.go:150-161 | keeps the most recent entries that fit, answers how far the size was exceeded, and reports the dropped entries, oldest first |
| Lru.LRU.Clear | indexer/cache/lru.go:38-47 | reports every entry exactly once, in whatever order the map yields them, and leaves nothing |
| TtlLru.FreshIsExactlyUnexpired | indexer/cache/ttledLru.go:142-150 | the survivors of a sweep are exactly the entries that were added at most the TTL ago, in their old order |
| TtlLru.SweepStep | indexer/cache/ttledLru.go:142-150 | at each key, the sweeper's read that touches it and its removal leave the swept entries in front in their old order |
| TtlLru.WithTTL.Add | indexer/cache/ttledLru.go:45-53 | stores the value with the time of the call, and reports to the eviction callback exactly the entry that is pushed out, if one is |
| TtlLru.WithTTL.Get | indexer/cache/ttledLru.go:57-73 | answers a value that was added at most the TTL ago and touches it; an older one is removed, reported and not answered |
| TtlLru.GetLeaves | indexer/cache/ttledLru.go:57-73 | a Get takes out the entry of its key if that is older than the TTL, and otherwise moves it to the front; the others stay as they are |
| TtlLru.WithTTL.ReadForSweep | indexer/cache/ttledLru.go:144-146 | the sweeper's first critical section answers what is cached, expired or not, and touches it |
| TtlLru.WithTTL.Peek | indexer/cache/ttledLru.go:78-87 | answers the value, expired or not, and changes nothing |
| TtlLru.WithTTL.Remove | indexer/cache/ttledLru.go:105-109 | takes out and reports the entry of the key, and tells whether there was one |
| TtlLru.WithTTL.Keys | indexer/cache/ttledLru.go:119-123 | the keys from the oldest to the newest entry |
| TtlLru.WithTTL.Sweep | indexer/cache/ttledLru.go:142-150 | an undisturbed sweep removes and reports exactly the entries older than the TTL, oldest first, and leaves the recency order of the others as it was, although it touches each of them |
| TtlLru.FreshOrExpired | indexer/cache/ttledLru.go:142-150 | every entry either survives a sweep or is reported by it, and none is both |
| TtlLru.CachedIsLastAdd | indexer/cache/ttledLru.go:45-53 | after any trace of critical sections, what is cached under a key is the value and time of its last Add |
| TtlLru.GetExactly | indexer/cache/ttledLru.go:57-73 | after any trace, Get answers a value if and only if its key is cached, it is the one last added, and that was at most the TTL ago |
| TtlLru.AddIsAnswered | indexer/cache/ttledLru.go:45-73 | after any trace, what was just added is answered until the TTL is over |
| TtlLru.SweeperRemovesFreshExactly | indexer/cache/ttledLru.go:143-149 | the entry that the sweeper's second critical section removes is not expired if and only if the last Add of its key since the first section is not |
| TtlLru.SweeperLosesExactly | indexer/cache/ttledLru.go:143-149 | after any history, the second section takes away a value that Get would have answered if and only if the key is cached and was last added in between with a time that is not expired |
| TtlLru.SweeperLosesFreshAdd | indexer/cache/ttledLru.go:143-149 | such a loss happens: right after an Add, Get finds nothing |
| HeapOrder.RootIsLeast | indexer/cache/heapTimer.go:130 | in a heap no timer is before the one at index 0 |
| HeapOrder.UpStep | indexer/cache/heapTimer.go:94 | swapping with the parent moves the only violation of the heap order up |
| HeapOrder.DownStep | indexer/cache/heapTimer.go:136 | swapping with the smaller child moves the only violation of the heap order down |
| TimerHeap.Heap.Push | indexer/cache/heapTimer.go:60-62 | adds the timer and leaves a heap of the same timers plus it |
| TimerHeap.Heap.Pop | indexer/cache/heapTimer.go:64-68 | takes out the timer at index 0 and leaves a heap of the others |
| TimerHeap.Heap.Up | indexer/cache/heapTimer.go:42-58 | sifting up restores the heap order and keeps the timers |
| TimerHeap.Heap.Down | indexer/cache/heapTimer.go:42-58 | sifting down restores the heap order of a prefix, keeps the timers and does not touch the rest |
| TimerHeap.Timer.Cancel | indexer/cache/heapTimer.go:26-28 | the timer has no callback any more |
| TimerTick.Timers.AddCallback | indexer/cache/heapTimer.go:83-97 | a single-shot timer due after the duration, with the next sequence number, joins the heap |
| TimerTick.Timers.AddTimer | indexer/cache/heapTimer.go:100-118 | a repeating timer joins the heap, with an interval of at least a millisecond |
| TimerTick.Timers.PopDue | indexer/cache/heapTimer.go:130-136 | the timer that is popped is the earliest of those that wait or were added and had no turn, so its turn is the next of the course |
| TimerTick.Timers.Rearm | indexer/cache/heapTimer.go:151-160 | a repeating timer is put back strictly after now, with a new sequence number |
| TickCourse.OneTurnEach | indexer/cache/heapTimer.go:121-163 | no timer has two turns in a tick |
| TickCourse.WaitingInOrder | indexer/cache/heapTimer.go:121-163 | the timers that waited when the tick began have their turns in the order of fire time and addition, whatever is added between |
| TickCourse.WaitingRunsExactly | indexer/cache/heapTimer.go:138-148 | at its turn such a timer runs if and only if it had a callback and no callback that ran before in this tick cancelled it |
| TickCourse.SpentOnce | indexer/cache/heapTimer.go:143-145 | a timer that ran and does not repeat has no callback any more |
| TickCourse.DueHadTurns | indexer/cache/heapTimer.go:125-134 | after a settled course every timer that was due had its turn |
| TickCourse.AddedRunsExactly | indexer/cache/heapTimer.go:138-148 | at its turn a timer that was added in the tick runs if and only if none of the effects after it was added cancelled it |
| TickCourse.AddedInOrder | indexer/cache/heapTimer.go:121-163 | of two timers added in the tick, one that was there at the turn of the other and comes later fires later, or at the same time and was added later |
| TickCourse.WaitingBeforeAdded | indexer/cache/heapTimer.go:121-163 | timers that waited and timers added in the tick have their turns in the order of fire time, and at the same time those that waited come first |
| TickCourse.AddedHadTurns | indexer/cache/heapTimer.go:125-134 | after a settled course every timer that was added in the tick and is due had its turn |
| TickCourse.HistoryIsUnique | indexer/cache/heapTimer.go:121-163 | what was due, what had a callback and what the callbacks do determine all turns of a tick and their order |
| TimerTick.Timers.Tick | indexer/cache/heapTimer.go:121-163 | a tick whose callbacks add timers, also ones that are due at once, and cancel any timers, ends; its turns are a course in which the earliest due timer always comes next, and nothing due is left; a timer that ran and repeats is back in the heap strictly after now, one that does not repeat has no callback any more, and one that had no turn waits as it did; added ones are as they were asked for, and cancelled ones have no callback |
| Decimal.AtoiOfItoa | indexer/search/query.go:182-186 | parsing a printed 64-bit integer gives it back |
| Decimal.AtoiOfPadded | indexer/search/rangeFieldState.go:56-58 | parsing a number printed with leading zeros gives it back |
| Decimal.NumeralIsPadded | indexer/search/rangeFieldState.go:54-58 | a digit string is its value printed at its own width |
| Decimal.NumeralsInOrder | indexer/search/rangeFieldState.go:54-58 | digit strings of one width are ordered as texts like the numbers they stand for |
| Decimal.AtoiExactly | indexer/search/query.go:182-186 | a text is read as a number if and only if that fits 64 bits and the text is its decimal form, with any leading zeros and with a plus sign or none |
| RangeField.RangeFieldState.Next | indexer/search/rangeFieldState.go:22-32 | the first call answers the start, later ones the next text, and the end for ever |
| RangeField.Ascends | indexer/search/rangeFieldState.go:50-59 | for digit strings of equal width with start < end, k steps show start + min(k, end - start), padded, and exhaust the field exactly after end - start |
| RangeField.NeverBack | indexer/search/rangeFieldState.go:46-59 | a range that does not ascend, of at most 19 digits, is never exhausted |
| RangeField.WideWalk | indexer/search/rangeFieldState.go:50-59 | a wide range walks through all 64-bit integers, wrapping around |
| RangeField.ExhaustedExactlyWhen | indexer/search/rangeFieldState.go:46-59 | for digit strings of equal width, a field is ever exhausted if and only if the end fits an int and lies above the start or is at least 20 digits wide |
| SearchIterator.SearchStateIterator.constructor | indexer/search/searchIterator.go:38-48 | a fresh iterator at the page of the query, whose fields run from the first to the second value of the ranges of the query, and no others |
| SearchIterator.SearchStateIterator.HasNextFieldState | indexer/search/searchIterator.go:65-75 | true exactly if some range field is not at its end |
| SearchIterator.SearchStateIterator.Next | indexer/search/searchIterator.go:77-89 | answers the page and the shown value of every range field, and steps all of them |
| SearchIterator.SearchStateIterator.UpdateIteratorState | indexer/search/searchIterator.go:122-133 | counts the results, and notes that one was stale if and only if searches stop on stale results and some result is not new |
| SearchIterator.SearchStateIterator.IsComplete | indexer/search/searchIterator.go:135-153 | true exactly if the page limit is reached, all range fields are exhausted, or a stale result ends the search |
| SearchIterator.Schedule | indexer/search/searchIterator.go:77-89 | the k-th call of Next yields page start + k and each field's start + min(k, end - start) at the field's width |
| SearchIterator.CompletesExactly | indexer/search/searchIterator.go:135-153 | without stale results, the search is complete exactly from min(page limit, the longest field's span) calls on |
| SearchIterator.CompleteStays | indexer/search/searchIterator.go:122-153 | a complete search stays complete through further pages and results |
| SearchIterator.ResultsEndExactly | indexer/search/searchIterator.go:122-153 | results complete a search if and only if it stops on stale results and one of them is not new |
| SearchIterator.SearchEndsExactly | indexer/search/searchIterator.go:77-153 | for any mix of jobs and results: the search is complete if and only if it made as many jobs as the page limit, or as its longest field spans, or it stops on stale results and some result was not new |
| SearchIterator.NextJob | indexer/search/searchIterator.go:77-133 | and whatever results came between, job k is for page start + k with each field's start + min(k, end - start), and the results add up |
| Runner.ProcessScrapedItems | indexer/runner.go:324-340 | the first rows that can be extracted, up to the limit: a search yields at most the limit |
| Runner.ExtractedInOrder | indexer/runner.go:324-340 | what is extracted of rows is what is extracted of each, in their order |
| WorkPoolBound.DiscoveredBound | indexer/workpool.go:64-119 | with limit L and W workers, no schedule of feeder, workers and closer discovers more than (W + 1) * L - 1 items, even though isComplete reads the counters one by one |
| WorkPoolExact.BoundIsReached | indexer/workpool.go:64-119 | for every limit and every positive number of workers some schedule discovers (W + 1) * L - 1 items: the bound is exact |
| WorkPoolBound.NextKeepsBounded | indexer/workpool.go:64-119 | every step keeps the count, together with what searches under way may still add, below the bound |
| WorkPoolSafety.NextKeepsChannels | indexer/workpool.go:45-62 | no step sends on a closed channel, closes one twice, or takes the wait group below zero |
| WorkPoolSafety.NextKeepsJobs | indexer/workpool.go:52-55 | jobs are taken in the order they were fed, those of one index carry its consecutive pages, and none is made twice |
| WorkPoolSafety.SearchedOnce | indexer/workpool.go:96-101 | no job is searched for twice, and only jobs that were fed |
| WorkPoolSafety.NextKeepsStorage | indexer/workpool.go:107-115 | every item of a batch that is sent, or about to be, was added to the storage before |
| WorkPoolSafety.NextKeepsCounters | indexer/workpool.go:111-115 | an iterator has counted exactly the items of its batches sent or about to be sent |
| WorkPoolSafety.RunIsSafe | indexer/workpool.go:45-160 | all of this holds after every schedule of every length |
| WorkPoolEnds.FinishedIsFedNoMore | indexer/workpool.go:45-62 | from any state on in which an iterator is complete and the feeder is not past its check, no schedule makes another job for the index |
| WorkPoolEnds.PagesBelowLimit | indexer/workpool.go:45-62 | with a page limit P, no page at or behind the first page + P is made, in any schedule |
| WorkPoolEnds.SearchedBelowLimit | indexer/workpool.go:45-101 | and at most P - 1 pages are searched for, with P = 1 none: the job of the last page always finds its iterator complete |
| WorkPoolEnds.ClosedOnlyWhenDone | indexer/workpool.go:45-119 | in every schedule the work channel is closed only when all iterators are complete or enough was found, and a worker leaves only then or when some iterator is complete |
| WorkPoolEnds.DoneIsFedNoMore | indexer/workpool.go:45-85 | once all iterators are complete or enough was found, and the feeder is not past a check of that, no schedule makes a job |
| WorkPoolEnds.DoneIsClosed | indexer/workpool.go:45-85 | a feeder that then begins to evaluate isComplete starts no round any more, so that it can only close the channel |
| WorkPoolEnds.DoneWorkerLeaves | indexer/workpool.go:64-99 | and a worker that then begins to evaluate it takes and searches for no job any more |
| WorkPoolEnds.FinishedWorkerLeaves | indexer/workpool.go:96-122 | a worker that has a job of a complete iterator, and is not searching for it, takes and searches for no job any more |
| WorkPoolEnds.ResultsInOrder | indexer/workpool.go:113-115 | the results channel holds the batches that were sent last, in order, and no empty one is ever sent |
| WorkPoolEnds.StaleResultsEnd | indexer/workpool.go:111-119 | an index whose search stops on stale results has seen one if and only if one of its batches with an item that is not new was sent or is about to be, and then it is complete |
| WorkPoolEnds.RoundFeedsEach | indexer/workpool.go:47-61 | in every round of the feeder each index gets exactly one job, unless its iterator is complete or enough was found |
| ByteStrings.PrefixConvex | storage/bolt/cursors.go:128 | between a prefix and a key that has it, every key has it |
| ByteStrings.LessExactly | storage/bolt/uniqueIndex.go:114 | one byte string is below another if and only if at the first difference it ends or has the smaller byte |
| ByteStrings.SortedKeys | storage/bolt/uniqueIndex.go:109-110 | a cursor meets the keys of a bucket in strictly increasing order, each once |
| Cursors.Cursor.Seek | storage/bolt/cursors.go:84-87 | the first key that is not below the sought one, or nothing |
| Cursors.ScanCursor.First | storage/bolt/cursors.go:55-135 | where a scan of everything, of a range, or of a prefix starts, forwards or backwards |
| Cursors.ScanCursor.LastMatch | storage/bolt/cursors.go:127-134 | running over the matches ends on the last of them, also when it is the last key, and in front of them when there is none |
| Cursors.ScanIds | storage/bolt/uniqueIndex.go:158-174 | the ids under the keys a cursor visits, first skipped and then limited, for any options and none |
| Cursors.RangeForward | storage/bolt/cursors.go:82-109 | a forward range scan visits exactly the keys within the bounds, in order |
| Cursors.RangeReverse | storage/bolt/cursors.go:82-109 | a reverse range scan visits exactly these keys backwards if and only if the first key that is not below the maximum exists and does not properly extend it, or nothing is in reach |
| Cursors.PrefixBothWays | storage/bolt/cursors.go:118-148 | for every bucket and prefix the scan visits exactly the keys with the prefix, and the reverse scan is its exact reverse |
| UniqueIndexes.UniqueIndex.Add | storage/bolt/uniqueIndex.go:48-63 | a missing value or id, a value that another id has, and a value that is empty or longer than 32768 bytes are refused and change nothing; otherwise the value leads to the id and nothing else changes |
| UniqueIndexes.UniqueIndex.Remove | storage/bolt/uniqueIndex.go:66-68 | the value leads nowhere, all others stay |
| UniqueIndexes.UniqueIndex.RemoveByID | storage/bolt/uniqueIndex.go:71-79 | the smallest value that leads to the id goes, and no other; without one nothing changes |
| UniqueIndexes.UniqueIndex.All | storage/bolt/uniqueIndex.go:88-94 | the one id under a value, or none |
| UniqueIndexes.UniqueIndex.AllRecords | storage/bolt/uniqueIndex.go:97-104 | all ids in key order or backwards, skipped and limited |
| UniqueIndexes.UniqueIndex.Range | storage/bolt/uniqueIndex.go:107-117 | skip, then limit, of the ids whose keys lie within the bounds, in key order; of the reversed list where the reverse scan starts well |
| UniqueIndexes.UniqueIndex.AllWithPrefix | storage/bolt/uniqueIndex.go:120-127 | skip, then limit, of the ids whose keys have the prefix, in key order or backwards |
| UniqueIndexes.RangeIds | storage/bolt/uniqueIndex.go:107-117 | the ids a range scan visits are those of the keys within the bounds, forwards, and backwards where it starts well |
| UniqueIndexes.PrefixIds | storage/bolt/uniqueIndex.go:120-127 | the ids a prefix scan visits are those of the keys with the prefix, forwards and backwards |
| UniqueIndexes.FoundExactly | storage/bolt/uniqueIndex.go:107-127 | the ids of a range are those under a key between its bounds, both included, and those of a prefix those under a key that begins with it |
| ListIndexes.GeneratePrefix | storage/bolt/listIndex.go:77-86 | the value followed by two underscores, for every value that is not empty |
| ListIndexes.SafeKeysMatch | storage/bolt/listIndex.go:134-158 | between values without inner `__` and final `_`, the prefix of one finds exactly its own keys |
| ListIndexes.UnsafeKeysConfuse | storage/bolt/listIndex.go:77-86 | exactly the other values have keys that are also found under a shorter value |
| ListIndexes.SafeIsUnmixed | storage/bolt/listIndex.go:77-86 | where all values are safe, only the ids under a value have keys with its prefix, so that Get and All answer exactly these |
| ListIndexes.ListIndex.Add | storage/bolt/listIndex.go:50-74 | moves the id under the value, and says what both buckets hold afterwards in every case; they are mutually inverse exactly if it succeeded and no other id has the key that the id got; refused ids change nothing |
| ListIndexes.OneWidthNeverCollides | storage/bolt/listIndex.go:68-69 | ids of one width never get the key of another id |
| ListIndexes.UnmixedNeverCollides | storage/bolt/listIndex.go:68-69 | nor does an id under a value whose prefix only its own keys have |
| ListIndexes.ListIndex.RemoveByID | storage/bolt/listIndex.go:108-121 | takes the id out of both buckets, and keeps them mutually inverse |
| ListIndexes.ListIndex.Get | storage/bolt/listIndex.go:124-131 | the id under the first key with the prefix of the value; that is the smallest id under the value, or none, unless another value has keys with the prefix |
| ListIndexes.ListIndex.All | storage/bolt/listIndex.go:134-173 | the ids under the keys with the prefix of the value, in key order or backwards, skipped and limited; those are exactly the ids under the value unless another value has keys with the prefix |
| ListIndexes.IdsOfValue | storage/bolt/listIndex.go:141-170 | a scan of the prefix of a value finds exactly the ids under the value, in order, if and only if no id of another value has a key with the prefix |
| IndexKeys.JoinInjective | storage/indexing/indexing.go:89-103 | index values are injective on parts without a zero byte, whatever their number |
| IndexKeys.ZeroConfuses | storage/indexing/indexing.go:89-103 | and on no more: with a zero byte in a part, other parts give the same value |
| IndexKeys.Key.constructor | storage/indexing/query.go:23-37 | the field names in order, each once |
| IndexKeys.Key.Add | storage/indexing/query.go:55-62 | adds a name that is not there yet at the end |
| IndexKeys.Key.AddKeys | storage/indexing/query.go:40-52 | adds the names that are not noted yet at the end, in order, to any key; a key without notes takes names a second time |
| IndexKeys.AddedOnce | storage/indexing/query.go:23-62 | adding keeps the old names in front and every name once |
| IndexKeys.AddedTwice | storage/indexing/query.go:40-52 | adding names that are there changes nothing |
| IndexKeys.AppendedOnceExactly | storage/indexing/query.go:40-52 | AddKeys leaves every name once if and only if the fields were once each and none of them that was not noted is added |
| IndexKeys.KeyHasValue | storage/indexing/query.go:65-92 | true exactly if every key field of the item is a text that is not empty |
| IndexKeys.GetKeyQueryFromItem | storage/indexing/query.go:108-132 | a query with the key fields the item has, in key order, each with the item's value |
| IndexKeys.GetIndexNameFromQuery | storage/indexing/indexing.go:42-53 | the joined names, with an underscore too many for several names |
| IndexKeys.SameIndexExactly | storage/indexing/indexing.go:42-53 | the query looks into the index of the key exactly for keys of at most one field |
| IndexKeys.NamesJoin | storage/indexing/indexing.go:42-53 | a one-field key and its query have the field as name of the index; with each further field an underscore and the field follow, and for the query one more underscore at the end |
| IndexKeys.GetIndexValueFromItem | storage/indexing/indexing.go:56-91 | the printed key fields of the item, joined: a struct field under the full name, then a method, then a free field |
| IndexKeys.GetIndexValueFromQuery | storage/indexing/indexing.go:94-104 | the printed values of the query, joined in its order |
| IndexKeys.FieldsByName | storage/indexing/indexing.go:56-91 | behind `ModelData.` a name is a free field, unless it is that of a method for the item, or of a struct field for the query; without it struct fields come first |
| IndexKeys.ItemValueJoins | storage/indexing/indexing.go:56-91 | the value of an item is its printed fields in the order of the key with a zero byte between them |
| Fields.PrintedPlainly | storage/indexing/indexing.go:106-135 | texts are printed as they are, flags as true and false, integers and the seconds of a time in decimal |
| Fields.ShortFloats | storage/indexing/indexing.go:122-125 | whole floats of at most six digits are printed in decimal |
| Fields.LongFloats | storage/indexing/indexing.go:122-125 | longer ones are printed as a mantissa and an exponent of at least two digits, which stand for the number |
| Fields.RunesArePrinted | storage/indexing/indexing.go:126-127 | a code point is printed as the one UTF-8 sequence that stands for it; what is none is replaced |
| IndexKeys.ValuesAgreeExactly | storage/indexing/indexing.go:56-104 | the index value of an item is the one of the query made from it, for all items with given struct fields and methods that have the key, if and only if no name of the key clashes with a struct field under the prefix or with a method |
| RecordIds.OrderKept | storage/bolt/boltStorageBacking.go:474-481 | big-endian numbers of one width compare as byte strings like the numbers |
| RecordIds.BelowIndexes | storage/bolt/index.go:14-16 | the key of a record comes before an index bucket exactly up to id 0x5F5F696E |
| LatestResults.PushToLatestItems | storage/bolt/latestResults.go:23-48 | the ring that held the last 22 pushes holds the last 22 with the new one, each in the slot of its turn, and nothing else but the number of the last slot |
| LatestResults.PushHolds | storage/bolt/latestResults.go:31-47 | writing the next slot and its number drops exactly the oldest of 22 |
| LatestResults.RingHolds | storage/bolt/latestResults.go:23-48 | each of the last 22 pushes is under its number modulo 22 in decimal, the number of the last one under `__index`, and nothing else is there |
| LatestResults.FilteredCursor.Next | storage/bolt/cursors.go:35-44 | the next key that is not the number's, or nothing |
| LatestResults.GetLatest | storage/bolt/latestResults.go:64-88 | the records in the order of the slot keys, up to a positive count; nothing without a bucket |
| RecordStore.Storage.GetLatest | storage/bolt/latestResults.go:64-88 | the i-th record is the push in the slot whose name comes i-th, read as the type that the storage was built for |
| LatestResults.LatestAreLastPushed | storage/bolt/latestResults.go:64-88 | for every count the answer is a part of the last min(n, 22) pushes, as long as the count and they allow; with a count of at least 22, or none, all of them |
| LatestOrder.KeysAreSlotNames | storage/bolt/latestResults.go:64-88 | the kept pushes are read in the order of the names of their slots as texts |
| LatestOrder.LatestByPosition | storage/bolt/latestResults.go:64-88 | for every number of pushes and every count, the i-th record of the answer is the push in the slot whose name comes i-th |
| LatestOrder.NewestExactly | storage/bolt/latestResults.go:64-88 | for every number of pushes and every count, the answer is the newest pushes if and only if it is all that are kept, or the ring is full and the last push went to slot count - 1, for a count of 1 or 2, or count - 13, for one of 15 to 21 |
| LatestOrder.TwentyAreNewestExactly | indexer/statusReportGenerator.go:30 | the callers' count of 20 gives the newest 20 pushes if and only if there are at most 20, or the ring is full and the last push went to slot 7 |
| LatestOrder.OneIsNewestExactly | storage/bolt/latestResults.go:64-88 | a count of one answers the push in slot 0, the newest if and only if the last push went there |
| RecordStore.Storage.GetIndex | storage/bolt/index.go:38-56 | the index exists afterwards, a new one is empty and noted in the metadata, all else stays |
| RecordStore.Storage.CreateWithAutoIncrementingID | storage/bolt/boltStorageBacking.go:267-291 | the item gets the next id cut to 32 bits; unless the value is refused or the item cannot be written, the record is stored under it and the primary index leads to it; what a failure leaves in the bucket is stated |
| RecordStore.Storage.AddUniqueIndexRecord | storage/bolt/boltStorageBacking.go:293-326 | a value that is taken, or no key, is refused and leaves the bucket with the index; a free one leads to the id, and nothing else changes |
| RecordStore.Storage.CreateWithID | storage/bolt/boltStorageBacking.go:236-265 | a record is created with all its index entries and pushed to the latest ones, or every bucket stays as it was; under a unique key its printed fields, or a placeholder where they are empty, then lead to it |
| RecordStore.PlaceholderExactly | storage/bolt/boltStorageBacking.go:237-241 | on fields without a zero byte, the unique value is the placeholder if and only if the one field is empty or the three fields are empty, a semicolon and empty |
| RecordStore.CollideExactly | storage/bolt/boltStorageBacking.go:237-241 | and two items have the same unique value if and only if they have the same fields |
| RecordStore.Storage.Create | storage/bolt/boltStorageBacking.go:179-206 | a record is created under its UUID; a further key leads to the UUID in a second transaction, whose failure leaves the record in place |
| RecordStore.Storage.Find | storage/bolt/boltStorageBacking.go:126-150 | the record the index leads to, directly or through the UUID index; a missing index is created and noted, nothing else changes |
| RecordStore.FindLeaves | storage/bolt/boltStorageBacking.go:126-150 | finding leaves all records and all rows of all indexes as they are; the index is there afterwards, unless nothing was ever stored |
| RecordStore.Storage.Update | storage/bolt/boltStorageBacking.go:152-176 | the item, with the id it carries, replaces what is stored where the index leads, unless it cannot be written; then every bucket stays as it was |
| RecordStore.Storage.ForEach | storage/bolt/boltStorageBacking.go:329-342 | the callback gets the values, read as the type that the storage was built for, in key order up to the first index bucket |
| RecordOrder.ReadsInOrder | storage/bolt/boltStorageBacking.go:329-342 | going over the records gives the first min(n, 0x5F5F696E) of n, once each, in the order they were created, and no metadata |
| RecordOrder.ReadsAllExactly | storage/bolt/boltStorageBacking.go:329-342 | it gives all records exactly while no id is above 0x5F5F696E |
| CreationOrder.ReadsNewInOrder | storage/bolt/boltStorageBacking.go:329-342 | after every run of adds, going over the records gives the items that were new, in the order in which they came, each with the data last added under its key, up to record 0x5F5F696E |
| UpsertRefinement.FoundIsPlain | storage/bolt/index.go:86-114 | in every reachable store, finding by key finds a record exactly if the plain map has the key, with that data as it comes back from JSON |
| UpsertRefinement.CreateRefines | storage/bolt/boltStorageBacking.go:236-326 | a create with a new key value succeeds exactly if its values are keys, the record can be written and the unique value is free; it adds one entry, keeps ids 1 to n and keeps the primary index a bijection |
| UpsertRefinement.UpdateRefines | storage/bolt/boltStorageBacking.go:152-176 | an update changes the data of its key value only, and keeps the same invariants |
| UpsertRefinement.AddRefines | storage/keyedStorage.go:73-115 | one add, of a scraped or of a torrent item, is the step of a plain map from key values to data: new, same, changed or refused alike, where what is compared is what JSON makes of the stored data, and a torrent item is never the same; a refused one leaves the buckets as finding left them |
| UpsertRefinement.RunRefines | storage/keyedStorage.go:73-115 | every run of fewer than 2^32 adds with a one-field key has the outcomes and entries of the plain map, exactly the ids 1 to the number of new items, and a primary index that is a bijection onto them |
| MixedRefinement.OneMoreIsOwned | storage/bolt/boltStorageBacking.go:267-291 | a new record, found by its key value or, without one, by its UUID, keeps the two indexes together a bijection onto the records |
| MixedRefinement.UuidAddShows | storage/bolt/boltStorageBacking.go:179-206 | creating an item without its key is the step of the plain map: refused for a UUID that is there, and kept even if its unique value is refused afterwards |
| MixedRefinement.UuidIsFound | storage/bolt/index.go:79-114 | an item that was created without its key is then found, with all it has, by its UUID, and through the UUID by its unique value |
| MixedRefinement.AnyAddSteps | storage/keyedStorage.go:73-115 | one add, of an item with its key or without, is the step of the plain map from key values and UUIDs to data |
| MixedRefinement.MixedRunRefines | storage/keyedStorage.go:73-115 | every run of fewer than 2^32 adds of items with and without their key has the outcomes and entries of that map; the primary and the UUID index together stay a bijection onto the records, and each unique value leads to one of them |
| MixedOrder.ReadsAnyInOrder | storage/bolt/boltStorageBacking.go:329-342 | after every run of adds of items with and without their key, going over the records gives those that were created, in the order in which they came, each with the data last added for its key value or UUID, up to record 0x5F5F696E |
| UniqueValues.LeadsExactly | storage/bolt/boltStorageBacking.go:152-176 | after every run a unique value is taken exactly if some record was created with it, and the value that a record was last stored with leads to it if and only if it was created with that one |
| UniqueValues.LastLeadsExactly | storage/bolt/boltStorageBacking.go:152-176 | of a record that one add of a run created and another one stored last, the unique value of the last leads to it if and only if it is that of the first |
| UniqueValues.CreatedIsFound | storage/bolt/index.go:79-114 | a created item is found, with all it has, by its key and by its unique value |
| UniqueValues.UpdatedIsFound | storage/bolt/boltStorageBacking.go:152-176 | an item that replaced another is found with all it has, and every other key leads to what it did |
| ConcurrentAdds.RunKeeps | storage/keyedStorage.go:73-115 | for every number of workers and every interleaving of the transactions of their Adds, the ids are 1 to n, the primary index is a bijection, and the buckets stand for what the Adds did in the order in which they were done |
| ConcurrentAdds.NewOnce | storage/keyedStorage.go:73-115 | whatever the interleaving, no key value is new twice |
| ConcurrentAdds.WriteAgreesExactly | storage/keyedStorage.go:90-109 | a create or update has the outcome and the effect of a sequential Add at that moment if and only if, since the worker looked, no other created the record or stored what equals the item |
| ConcurrentAdds.SequentialExactly | storage/keyedStorage.go:73-115 | a schedule has the outcomes and effects of a sequential run after each of its steps if and only if none of its writes is overtaken like this |
| UpsertRefinement.ReaddedIsSameExactly | indexer/search/result.go:134-155 | adding the stored data again is no change if and only if the item is no torrent item and every field comes back from JSON as it was |
| UpsertRefinement.CompositeStep | storage/keyedStorage.go:73-115 | with a key of several fields, and nothing in the index that queries look into, an add creates or refuses, refuses what is there, and keeps that index empty |
| UpsertRefinement.CompositeRun | storage/keyedStorage.go:73-115 | so in every run from the empty store with such a key nothing is ever found or updated, and an item whose value was created before is refused |
| UpsertRefinement.UniqueLikePrimaryRefuses | storage/bolt/boltStorageBacking.go:313-326 | a unique key with the name of the primary one refuses every new record |
| FullStore.IdZeroIsNew | storage/bolt/boltStorageBacking.go:307-311 | from a store with 2^32 - 1 records, the next new one gets id 0, and the primary index is a bijection still |
| FullStore.IdsWrap | storage/bolt/boltStorageBacking.go:307-311 | and the one after that gets id 1: it replaces the first record, whose key value then leads to it, and the primary index is no bijection any more |
| FullStore.NumbersFill | storage/keyedStorage.go:73-115 | a run of adds gets there: n items whose keys are the numbers below n, for any n below 2^32, are all new |
| FullStore.BijectionEndsExactly | storage/bolt/boltStorageBacking.go:307-311 | after this run the primary index is a bijection if and only if n is at most 2^32 |
| UpsertRefinement.OneFieldAgrees | storage/keyedStorage.go:81-97 | a one-field key whose name does not clash gives the query and the item the same index and the same value, as the run theorem takes them |
| Fields.SanitizedExactly | storage/serializers/json/json.go:12-18 | JSON keeps a text exactly if it is UTF-8, and makes any other longer |
| Fields.ComesBackExactly | storage/serializers/json/json.go:12-18 | a value comes back from JSON as it was exactly if it is nil, a flag, a float64, a text in UTF-8, or itself read from JSON |
| Fields.DataBackExactly | storage/serializers/json/json.go:12-18 | data comes back as it was exactly if each of its fields does |
| Fields.ReadBackAs | storage/serializers/json/json.go:12-18 | numbers, runes and floats come back as float64s of the same number, times as their text, lists and other values as what JSON makes of them |
| Fields.ReadBackTwice | storage/serializers/json/json.go:12-18 | what came back once comes back as it is |
| Fields.DataEquals | indexer/search/result.go:139-155 | true exactly for equal data, with the types of the values, in whatever order the fields are compared |
| Records.Equals | indexer/search/result.go:134-155 | a found item equals another exactly if that is no torrent item and has the same data |
| Records.ScrapedFields | indexer/search/result.go:16-56 | under each name a scraped item has the value of its own field |
| Records.TorrentTexts | indexer/search/torrent.go:10-45 | so has a torrent item under its own names, links among them |
| Records.TorrentHides | indexer/search/torrent.go:10-45 | which hide those of the scraped item that it holds |
| Records.AnsweringMethods | indexer/search/result.go:78-159 | UUID, IsNew, IsUpdate and String answer the UUID, the two states and how the item is shown |
| Records.WritableExactly | storage/serializers/json/json.go:12-18 | a record can be written if and only if no float of it is NaN or infinite |
| Records.FoundAs | storage/bolt/index.go:82-101 | what is found is no torrent item: it has the links that a torrent item shows, its free fields as they come back, and all else as it was stored |
| Records.ReadAsItselfExactly | storage/serializers/json/json.go:12-18 | a record that is read into the type it had comes back as it was exactly if its free values do and, as a torrent item, it has no links behind its own |
| KeyedStorages.KeyedStorage.Add | storage/keyedStorage.go:73-115 | an item with its key, scraped or torrent, takes the step that the run theorem is about, its state says new exactly for created and update exactly for changed ones and stays as it was on failure, and only where nothing is found it is given an id; any other item is created under a new UUID |
| Discovery.SaveItem | storage/keyedStorage.go:73-115 | on a storage with a one-field key, Add of an item with or without its key is the step of the plain map that the buckets show, and gives the item the state of its outcome |
| Discovery.NewExactly | storage/keyedStorage.go:73-115 | an item with a new key is new if and only if it can be written, its key fits, and under a unique key its printed fields, or the placeholder for empty ones, fit and are not taken; then they are taken |
| Discovery.NewTextIsNew | storage/keyedStorage.go:73-115 | so an item with a new key and a text for a one-field unique key that no created item had is new |
| Discovery.NewWithoutKeyExactly | storage/keyedStorage.go:73-115 | an item without its key is new if and only if its UUID is, it can be written, and under a unique key its printed fields are not empty, fit and are not taken |
| Discovery.SaveDiscoveredItems | indexer/workpool.go:125-133 | one worker's loop: storing the items of a search one by one, scraped or torrent, with and without their key, is a run of the plain map: the entries afterwards, and the state of every item; failures do not stop it |
| KeyedStorages.KeyedStorage.SetKey | storage/keyedStorage.go:64-70 | an empty key is refused and changes nothing, any other replaces the primary key |
| KeyedStorages.KeyedStorage.AddUniqueIndex | storage/keyedStorage.go:118-120 | the new names join the unique key, each once |
| QueryCodec.SplitOfJoin | indexer/search/query.go:252-261 | splitting undoes joining for parts without the separator |
| QueryCodec.SplitInts | indexer/search/query.go:252-261 | the numbers of all parts, or those in front of the first part that is none and a failure |
| QueryCodec.NumbersRoundTrip | indexer/search/query.go:384-392 | a list of integers, printed and joined by commas, is read back as the same list |
| QueryCodec.ListsAppend | indexer/search/query.go:208-217 | the lists of several values of a parameter are put one behind the other |
| QueryCodec.ListIsRead | indexer/search/query.go:208-217 | a list that was written is accepted and read as it was |
| QueryCodec.Encode | indexer/search/query.go:335-415 | exactly the parameters that the query has a value for, one value each, a missing type as "search" |
| QueryCodec.TermsWrittenByName | indexer/search/query.go:338-366 | what stands under t, q, ep, season, movie, year and series |
| QueryCodec.NumbersWrittenByName | indexer/search/query.go:368-392 | what stands under offset, limit, extended, apikey and cat |
| QueryCodec.IdsWrittenByName | indexer/search/query.go:394-412 | what stands under tvdbid, rid, tvmazeid, traktid and imdbid |
| QueryCodec.OnlyWritten | indexer/search/query.go:335-415 | nothing is written under any other name |
| QueryCodec.ReadOneMore | indexer/search/query.go:135-247 | one parameter more changes only what it stands for, so the order of reading does not matter |
| QueryCodec.NewQueryFromUrl | indexer/search/query.go:132-250 | in whatever order the parameters come, reading succeeds exactly if every one is accepted, and then gives the query they stand for; a failure answers the query of the parameters read before the refused one, and none when the categories are refused |
| QueryCodec.TextsByName | indexer/search/query.go:135-247 | what is read from t, apikey, year, ep, season, q, series, movie and the ids, by these names; several values of q, series and movie are joined by blanks |
| QueryCodec.NumbersByName | indexer/search/query.go:123-219 | what is read from limit, offset, p, extended and cat, by these names; a negative number wraps around, and without a limit it is 20 |
| QueryCodec.FlagWords | indexer/search/query.go:202 | the words that stand for true and for false |
| QueryCodec.AcceptedByName | indexer/search/query.go:135-247 | parameters are accepted if and only if all but p, q, series, movie and cat are given at most once, limit and offset are numbers, extended is a word for a flag, and all values of cat are lists of numbers |
| QueryCodec.DecodedOfEncoded | indexer/search/query.go:132-415 | what was written is accepted, and read back with the default type and limit and without what is not written |
| QueryCodec.RoundTripExactly | indexer/search/query.go:132-415 | reading what was written gives the same query if and only if it has a type and a limit, no Trakt id, and none of the fields that are not written |
| QueryCodec.SameParametersExactly | indexer/search/query.go:335-424 | two queries have the same parameters, and so the same unique key, exactly if they agree in all that is written |

## Left out

- Bolt's pages, files and locks: buckets are maps with sorted cursors, and a transaction works on a copy that is committed or dropped.
- JSON and gob: JSON is modelled by what it makes of the values of free fields (`Fields.ReadBack`); the other fields of a record come back as they were. Whole numbers are not rounded to 53 bits, names of free fields and the texts of struct fields are taken to be UTF-8, nil and empty data are one, and values of further types are known by an identity only.
- Reflection: an item is its struct fields, its methods without parameters and its free fields by name; a value of a type without an index value panics, which a precondition excludes. The printed date of a torrent item depends on the time zone and is not used as an index value.
- The string form of url.Values: the model ends at the map of parameters; that its encoding is injective is trusted.
- Counters of items and pages are unbounded; in the source they wrap around after 2^64.
- TimerTick.Timers.Tick: only finitely many callbacks of a tick do something, for with others it may not end; and the clock does not go back by the minimal interval between the beginning of a tick and its callbacks, so that a repeating timer is not due when it is added.
- UniqueIndexes.UniqueIndex.Range: for a reverse scan that starts in the wrong place it answers what the cursor visits, which is not the range; when that happens is stated by Cursors.RangeReverse.
- Discovery.SaveDiscoveredItems: is about different items and a one-field key that is not the UUID; a key that clashes (`IndexKeys.ValuesAgreeExactly`) is left out, and so is a list among the values of a scraped item that was itself read from JSON, because comparing it with a stored list panics.
- MixedRefinement.MixedRunRefines: UUIDs are not four bytes long, so that none can be mistaken for an id; those that are made have 36.
- ListIndex.Remove, ListIndex.Range, ListIndex.Prefix and NewListIndex: the first removes ids by value, the second compares cut keys, and the last creates its bucket only when it exists; they keep none of the invariants.
- ConcurrentAdds.RunKeeps: the index names in memory are read and written without a lock; here each transaction updates them at once. Each transaction is one step, and workers that store items without a key are not part of it.
- Storage.AddAll, Truncate, GetStats, namespaces, category buckets and the Firestore backing.
- The metadata bucket is written but never loaded; SetNamespace and setupMetadata are not part of this model.
- WithTTL.Contains, Len, Clear, RemoveOldest and Dispose are the calls of the inner cache under the lock; the thread-safe and connectivity caches are wrappers alike.
- The worker pool promises no progress: workers leave their loop early, and liveness is not modelled. Each update of an iterator's counters is one atomic step.
- Scraping, selectors, logins, fuzzy times, templates, the HTTP server, feeds, bots and configuration: I/O, library calls or thin wrappers.
- NewQueryFromQueryString and the pattern syntax of queries: range fields enter the model as values of an iterator.
