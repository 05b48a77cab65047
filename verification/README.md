# zim-tools: models and proofs

A Dafny model of the algorithms inside zim-tools that carry real invariants, and proofs about them. The parts are
independent of each other except where one builds on another:

- `RedirectionTable.dfy`: redirect-loop detection by two cursors over a memo table that every query extends.
- `TaskStream.dfy`, `TaskDispatcher.dfy`, `DispatchedStreams.dfy`: the bounded work queue whose two ends share one
  condition variable, as a transition system with program counters; the dispatcher that feeds several such queues; and
  the one dispatching thread together with all its queues and workers.
- `LruCache.dfy`, `LruHistory.dfy`, `ConcurrentCache.dfy`, `CacheGuarantees.dfy`, `CacheHits.dfy`: the
  least-recently-used cache as a list of nodes and a map, and above it the promise and shared-future protocol of the
  concurrent cache, as a transition system over any number of threads.
- `UrlCoding.dfy`, `PathSegments.dfy`, `LinkResolver.dfy`, `Rfc3986.dfy`, `RawLinks.dfy`, `RelativePaths.dfy`,
  `AbsolutePaths.dfy`: percent-coding, the link resolver against sections 2.4, 5.2.3 and 5.2.4 of RFC 3986 (the last on
  text, as the standard has it), and relative and absolute paths.
- `JsonText.dfy`, `JsonParser.dfy`, `JsonRoundTrip.dfy`, `JsonLayout.dfy`, `JsonPrefixes.dfy`, `JsonPrinter.dfy`,
  `ErrorLogger.dfy`, `ZimcheckRun.dfy`: the pushdown JSON printer against a reference parser for RFC 8259, the report that the logger of
  zimcheck writes through it, and the order in which zimcheck does so.
- `ZimSplitter.dfy`: greedy splitting of an archive file at cluster offsets.
- `ArticleChecker.dfy`: the search for redundant articles in hash buckets.
- `LineLists.dfy`, `ZimArchives.dfy`, `ZimDiff.dfy`, `ZimPatch.dfy`: making a diff of two archives and patching with it.

Objects that the code updates in place are classes, loops are methods with invariants, and each method is proved against
a function or predicate about which the theorems are lemmas. Protocols whose steps interleave (the queue, the
dispatched queues, the concurrent cache) are step relations, and their theorems hold for every run. What the specification functions compute is in turn said without them: in the fields of
the archive, in the characters of the text, in the steps of a standard, or by what a reader of the output finds.

## Where the code does less than one would expect

Each of these is a theorem here: the exact condition under which the code is right, and an input for which it is not.
(For links with escapes, a condition that is sufficient.)

- The queue's worker waits under an `if`, so the comment beside the condition variable (src/zimcheck/checks.cpp:627-635)
  holds only when `wait` returns after a notification only. A single spurious wakeup can lose tasks
  (`SpuriousWakeupLosesTask`); nothing is lost exactly when the worker leaves after the last push (`NothingLostIff`).
  When it leaves earlier, `finish()` returns exactly when the remaining tasks fit into the queue (`FinishesIffRoom`).
- The concurrent cache removes its placeholder for `std::exception` only. Failures are never cached exactly when every
  other exception comes after the placeholder was evicted or dropped (`FailuresNeverCachedIff`); otherwise later callers
  of the key get a broken promise (`OtherExceptionPoisons`).
- With `get` in the history a smaller cache is not always a prefix of a larger one (`GetBreaksInclusion`). It stays one
  throughout exactly when no `get` hits only the larger cache while the smaller one holds something
  (`SmallerIsPrefixIff`).
- `urlEncode` pads with a space instead of a zero, so bytes below 16 are not decoded again. The table of reserved
  characters has one initialiser fewer than places, which makes NUL a reserved character (`RoundTripIff`,
  `TabIsNotDecoded`).
- The resolver keeps its segment stack as a string in which "" and "/" are ambiguous; for the decoded link it differs
  from RFC 3986 exactly when a dot segment (or the base) meets such a stack, and then by leading slashes or by being out
  of bounds (`ResolverMatchesRfc`, `DoubleSlashIsMisread`). It cuts at the last '#' or '?' instead of the first (`StripsToPathIff`,
  `QueryStaysBeforeFragment`). The relative path between two paths that begin "//" can inherit the ambiguity
  (`RelativeRoundTrip`, `DoubleSlashIsNotRestored`, `DoubleSlashIsNotItself`, `DoubleSlashHasNoParent`).
- The resolver decodes a link before it splits it into segments, where section 2.4 of RFC 3986 asks for the opposite
  order. Splitting is the same exactly when no segment decodes to text with a slash (`SplitDecodedIff`). The target is
  the same when, besides, none decodes to a dot segment that it was not, or when the decoded link has no dot segment
  (`ResolverMatchesRawRfc`); not always otherwise (`HiddenDotsAreResolved`, `HiddenSlashSurvives`). That is no exact
  condition for the target: later dot segments can remove all that an escape has changed.
- The JSON printer does not count a boolean as data of an array, so a boolean at the head of an array loses the comma
  after it; control characters other than the newline are not escaped; and strings are cut at a NUL. What it writes is
  JSON exactly when neither of the first two occurs, and then that of the value with its strings cut
  (`PrintedIsParsedIff`, `BooleanLosesComma`, `TabIsNotEscaped`).
- The logger does not check that messages come while its log array is open and other information while it is not. For
  any sequence of operations, the report is JSON exactly when each comes in its place and writes something readable in
  that sense (`IsJsonIff`, `MessageOutsideLog`, `TabInMessage`). zimcheck itself keeps the order wherever it stops, so
  its report is JSON exactly when the text it is given is readable (`EveryStopIsInOrder`).
- The splitter exits while it computes the 676th suffix, so it completes exactly when some way of cutting at chunk
  boundaries needs at most 675 parts (`Run`, `EnoughPartsIff`, `SplitOneBytePerPart`).
- zimpatch keeps a redirect that became an item, and drops new entries under six reserved paths (`DiffPatchRoundTrip`,
  `WhatIsLost`, `ItemInPlaceOfRedirect`, `ReservedPathIsDropped`); it loses a main path without an entry
  (`MainPathIsLost`).

## Model

| member | source | states |
|---|---|---|
| RedirectionTables.RedirectionTable.AddRedirectionEntry | src/zimcheck/checks.cpp:721-725 | the entry is appended with unknown status; a table ready for queries stays ready, even after queries, when the target is in range |
| RedirectionTables.RedirectionTable.AddItem | src/zimcheck/checks.cpp:727-731 | an item is stored as a redirect to itself with status "no loop"; the table stays ready |
| RedirectionTables.MemoAfterAdding | src/zimcheck/checks.cpp:721-731 | adding an entry changes no verdict already memoised |
| RedirectionTables.RedirectionTable.UnqueriedIsReady | src/zimcheck/checks.cpp:789-796 | after any adds with targets in range the memo invariant holds, items included |
| RedirectionTables.RedirectionTable.IsInRedirectionLoop | src/zimcheck/checks.cpp:735-743 | the answer is true iff following redirects never reaches an item; the memo stays correct; exactly the unresolved stretch of the chain is resolved, at a cost of at most 2u-1 moves for u entries |
| RedirectionTables.RedirectionTable.DetectLoopStatus | src/zimcheck/checks.cpp:746-767 | terminates with the right verdict within 2u-1 moves of the fast cursor |
| RedirectionTables.RedirectionTable.ResolveLoopStatus | src/zimcheck/checks.cpp:769-776 | marks exactly the u unresolved entries of the chain, all with the right verdict |
| RedirectionTables.LoopAlongChain | src/zimcheck/checks.cpp:754-767 | all entries of a chain before an item share one verdict |
| RedirectionTables.CycleHasNoItem | src/zimcheck/checks.cpp:761-762 | cursors that meet without seeing an item are in or before a real loop |
| RedirectionTables.UnresolvedIsStretch | src/zimcheck/checks.cpp:769-776 | the unresolved entries are the distinct prefix of the chain, and what follows it is known or already in it |
| RedirectionTables.CursorsMeet | src/zimcheck/checks.cpp:748-762 | on a stretch of u entries that closes on itself the cursors meet before 2u-1 moves |
| RedirectionTables.FastCursorLimit | src/zimcheck/checks.cpp:754-767 | in either case a position of the fast cursor within 2u-1 moves ends the search |
| RedirectionTables.MarkedIsCorrect | src/zimcheck/checks.cpp:769-776 | marking the whole stretch with its verdict keeps every memoised status correct |
| RedirectionTables.TestRedirectLoop | src/zimcheck/checks.cpp:785-804 | exactly the entries that never reach an item are reported, in index order, and all queries together make fewer than 2n fast moves |
| RedirectionTables.LoopIffNoPath | src/zimcheck/checks.cpp:746-767 | an entry never reaches an item iff there is no finite path of redirects from it to one |
| RedirectionTables.AnswerAll | src/zimcheck/checks.cpp:735-776 | any queries in any order, repeated or not, on a table in any state: each answer is true iff its entry never reaches an item, and together they make fewer than two moves for each entry that they resolve |
| RedirectionTables.BuildAndAnswer | src/zimcheck/checks.cpp:785-804 | so any number of queries on an archive of n entries makes fewer than 2n fast moves |
| TaskStreams.NotifyOne | src/zimcheck/checks.cpp:595-603 | one un-notified waiter is released if there is any, and nothing else changes |
| TaskStreams.StepKeepsPhases | src/zimcheck/checks.cpp:541-619 | every step of either thread, spurious wakeups included, keeps the mutex with the thread inside its critical section, the queue within MAX_SIZE, and the program counters in agreement with the data |
| TaskStreams.StepMovesTasks | src/zimcheck/checks.cpp:541-619 | what any step does to the tasks: nothing, one push, one take, or one task checked |
| TaskStreams.StepConserves | src/zimcheck/checks.cpp:549-571 | each of these keeps processed, in-hand and queued tasks equal to the added ones in order |
| TaskStreams.RunConserves | src/zimcheck/checks.cpp:533-619 | in every reachable state processed, in hand and queued tasks are together the added ones in order |
| TaskStreams.CheckedIsPrefix | src/zimcheck/checks.cpp:564-619 | even with spurious wakeups the checked tasks are a prefix of the given ones, once each, and the queue never exceeds 1000 |
| TaskStreams.StepKeepsSignalled | src/zimcheck/checks.cpp:541-619 | without spurious wakeups, a waiter stays un-notified only while its reason to wait lasts |
| TaskStreams.RunIsSignalled | src/zimcheck/checks.cpp:627-636 | that holds in every state of every such run |
| TaskStreams.NeverBothBlocked | src/zimcheck/checks.cpp:627-636 | the two ends are never blocked together; unless the other thread is just about to notify, a blocked worker means an empty queue with more promised, and a blocked producer a full queue |
| TaskStreams.SomeStepEnabled | src/zimcheck/checks.cpp:533-619 | no deadlock: until finish() has returned a run can be continued |
| TaskStreams.StepSpends | src/zimcheck/checks.cpp:541-619 | every step lowers the bound on the steps still to come |
| TaskStreams.RunIsBounded | src/zimcheck/checks.cpp:533-619 | so runs are bounded by the number of tasks |
| TaskStreams.EveryRunChecksEverything | src/zimcheck/checks.cpp:533-573 | every run has at most 18n+10 steps, a run that cannot go on has finished, and then processed equals added |
| TaskStreams.ExitIsFinal | src/zimcheck/checks.cpp:564-573 | once the worker has left its loop nothing more is processed |
| TaskStreams.NothingLostIff | src/zimcheck/checks.cpp:605-619 | with or without spurious wakeups, a finished run has exactly one step at which the worker leaves, and everything is checked iff the last task had been pushed by then |
| TaskStreams.SpuriousWakeupLosesTask | src/zimcheck/checks.cpp:608-609 | a concrete run in which one spurious wakeup loses a task |
| TaskStreams.RunWaitsWhenFull | src/zimcheck/checks.cpp:541-558 | with spurious wakeups too, a producer stays un-notified only while the queue is full |
| TaskStreams.LeftAfterExit | src/zimcheck/checks.cpp:605-619 | what is queued or still to be pushed after the worker has left is what was still to be pushed then |
| TaskStreams.FinishesIffRoom | src/zimcheck/checks.cpp:533-558 | a run that can go on only by further spurious wakeups, in which the worker has left, has returned from finish() iff at most MAX_SIZE tasks remained when it left; otherwise the producer waits for ever |
| TaskDispatchers.RunOfNext | src/zimcheck/checks.cpp:661-666 | the run number steps by one exactly where the cluster changes |
| TaskDispatchers.RunInFields | src/zimcheck/checks.cpp:642-667 | an entry begins a new run iff its cluster differs from that of the entry before, a redirect counting as cluster 0 and the entry before the first as cluster 2^32 - 1 |
| TaskDispatchers.ShareNext | src/zimcheck/checks.cpp:661-668 | a further entry is added at the end of the share of its run, modulo n, and of no other |
| TaskDispatchers.RunStaysTogether | src/zimcheck/checks.cpp:657-668 | entries of one maximal run are never split between streams |
| TaskDispatchers.SharesPartition | src/zimcheck/checks.cpp:657-668 | the shares of the n streams partition the entries |
| DispatchedStreams.MoveKeepsInv | src/zimcheck/checks.cpp:657-675 | every move of the dispatching thread or of a worker keeps each stream sound, told exactly its share of the entries dispatched so far, and at most one stream in a call |
| DispatchedStreams.MoveSpends | src/zimcheck/checks.cpp:541-619 | every move lowers the bound on the moves to come |
| DispatchedStreams.SomeMoveEnabled | src/zimcheck/checks.cpp:657-675 | no deadlock of one dispatching thread and n workers, whichever stream it is blocked on |
| DispatchedStreams.ReturnedHasChecked | src/zimcheck/checks.cpp:672-675 | when all calls have returned, each worker has checked its share in order, and together every entry once |
| DispatchedStreams.EveryEntryCheckedOnce | src/zimcheck/checks.cpp:684-693 | any interleaving ends within 18 steps an entry and 10 a stream, can be continued until every finish() has returned, and then every entry was checked exactly once |
| DispatchedStreams.FinishedInOrder | src/zimcheck/checks.cpp:672-675 | the streams are finished in the order of the rotated list |
| TaskDispatchers.NextTurn | src/zimcheck/checks.cpp:662-667 | the rotation of the list follows the run number modulo n |
| TaskDispatchers.TaskDispatcher.constructor | src/zimcheck/checks.cpp:650-655 | n streams, no task given |
| TaskDispatchers.TaskDispatcher.AddTask | src/zimcheck/checks.cpp:657-668 | the entry goes to the stream of its run, and each stream holds exactly its share |
| TaskDispatchers.Dispatch | src/zimcheck/checks.cpp:684-693 | dispatching all entries feeds stream k exactly the runs k modulo n |
| LruCaches.LruCache.GetOrPut | src/lrucache.h:89-98 | list and map stay in bijection; the contents change as in the recency sequence; the value and whether it was a hit |
| LruCaches.LruCache.Put | src/lrucache.h:100-108 | the same for put: the value is replaced and moved to the front, or inserted with eviction |
| LruCaches.LruCache.Get | src/lrucache.h:110-118 | the same for get: a hit moves to the front, a miss changes nothing |
| LruCaches.LruCache.Drop | src/lrucache.h:120-129 | removes the pair of the key, and reports whether there was one |
| LruCaches.LruCache.Exists | src/lrucache.h:131-133 | whether the key is in the recency sequence |
| LruCaches.LruCache.Size | src/lrucache.h:135-137 | the length of the recency sequence |
| LruCaches.LruCache.PutMissing | src/lrucache.h:140-148 | pushes to the front and evicts the least recent pair of an overfull cache, capacity 0 included |
| LruCaches.LruCache.MoveToFront | src/lrucache.h:92 | a splice to the front keeps the bijection and moves one pair |
| LruCaches.KeysOfApply | src/lrucache.h:89-148 | what each operation does to the order of keys |
| LruCaches.RunIsSound | src/lrucache.h:89-148 | after any history keys are distinct and the size is at most the capacity |
| LruCaches.FetchKeepsPrefixIff | src/lrucache.h:110-118 | a get keeps the keys of the smaller cache a prefix iff it hits both caches, or misses the larger one, or the smaller one is empty |
| LruCaches.SmallerIsPrefixIff | src/lrucache.h:89-148 | for any history, inclusion holds after each of its parts iff every get in it finds such caches |
| LruCaches.SmallerIsPrefix | src/lrucache.h:89-148 | in particular for equal histories of put, getOrPut and drop |
| LruCaches.GetBreaksInclusion | src/lrucache.h:110-118 | with get that fails: a concrete history |
| LruCaches.HoldsMostRecent | src/lrucache.h:89-148 | without drops a cache of capacity n holds exactly the n most recently used keys in order |
| LruHistory.HoldsEntry | src/lrucache.h:131-133 | a lookup finds a value iff some pair has the key, and then that of such a pair |
| LruHistory.OrderIsLastUse | src/lrucache.h:89-148 | after any history the keys are in the order of the last operations on them, the latest first |
| LruHistory.WhatStays | src/lrucache.h:89-148 | which keys any operation leaves: its own, unless dropped or missed by a get; of the others all, except the last one of a full cache into which a new key is put |
| LruHistory.ValueIsLastWritten | src/lrucache.h:89-148 | the value of a cached key is that of the last put of it, or of the getOrPut that missed, if that came later; hits, gets and operations on other keys leave it alone |
| ConcurrentCaches.HitKeepsInv | src/concurrent_cache.h:64-67 | joining a cached placeholder keeps the protocol invariant (what the call does then: CacheHits.HitJoins) |
| ConcurrentCaches.MissKeepsInv | src/concurrent_cache.h:64-67 | publishing a placeholder, with a possible eviction, keeps it |
| ConcurrentCaches.SucceedKeepsInv | src/concurrent_cache.h:70 | so does fulfilling the promise with a value of f |
| ConcurrentCaches.DropKeepsInv | src/concurrent_cache.h:71-74 | so does the drop after a failure, whosever entry it removes |
| ConcurrentCaches.AbandonKeepsInv | src/concurrent_cache.h:75 | so does abandoning the promise when an exception leaves, caught before or not |
| ConcurrentCaches.StepKeepsInv | src/concurrent_cache.h:61-80 | so does every step of every thread |
| ConcurrentCaches.RunKeepsInv | src/concurrent_cache.h:61-80 | it holds after every interleaving of any number of threads, whatever f throws |
| CacheGuarantees.ReturnsComputedValues | src/concurrent_cache.h:61-80 | every call that returned has a value that f returned for its key |
| CacheGuarantees.StaysUnabandonedIff | src/concurrent_cache.h:68-79 | a step leaves no abandoned placeholder in the cache iff it is no uncaught exception with its own placeholder still cached; a drop may remove another thread's entry |
| CacheGuarantees.FailuresNeverCachedIff | src/concurrent_cache.h:68-79 | in a run no abandoned placeholder is ever cached iff every exception other than std::exception comes when its own placeholder is no longer cached, as when there is none |
| CacheGuarantees.OneProducer | src/concurrent_cache.h:66-77 | every unfulfilled placeholder has exactly one live producer |
| CacheGuarantees.SingleFlight | src/concurrent_cache.h:56-67 | two threads compute one key at the same time only if the earlier one's placeholder was evicted or dropped before the later one's was made |
| CacheGuarantees.StepAdvances | src/concurrent_cache.h:61-80 | every step but a new call brings some call closer to its end |
| CacheGuarantees.WaitersProgress | src/concurrent_cache.h:61-80 | while any thread is in a call some such step is possible, and at most four per thread remain |
| CacheGuarantees.CallsAccounted | src/concurrent_cache.h:61-80 | a call takes at most five steps, and is in progress or has one outcome |
| CacheGuarantees.EveryCallEnds | src/concurrent_cache.h:61-80 | a run with c calls has at most 5c steps, and one in which only new calls are possible has every thread idle and one outcome a call |
| CacheGuarantees.RunKeepsBlame | src/concurrent_cache.h:68-79 | every abandoned placeholder and every broken promise is due to a call of the same key in which f threw |
| CacheGuarantees.BrokenOnlyAfterThrow | src/concurrent_cache.h:68-79 | a call gets a broken promise only if f threw in a call of its key; when f never throws, every call that ended returned a value |
| CacheGuarantees.OtherExceptionPoisons | src/concurrent_cache.h:71 | a concrete run: f throws something other than std::exception, and the next call of the key gets a broken promise |
| CacheHits.HitJoins | src/concurrent_cache.h:64-67 | in any run, a call of a cached key leaves its thread waiting on the cached placeholder; promises, computed values, removals and outcomes stay, and the entry moves to the front |
| CacheHits.MissPublishes | src/concurrent_cache.h:64-69 | a call of a key that is not cached publishes a pending placeholder of its own and computes; only a full cache loses an entry, its last |
| CacheHits.CacheIsBounded | src/concurrent_cache.h:48-66 | the cache never outgrows its capacity |
| CacheHits.DropRemoves | src/concurrent_cache.h:71-74 | the handler removes the entry that its key has by then, whosever it is, and nothing else |
| CacheHits.RemovedOnlyThen | src/concurrent_cache.h:64-74 | a placeholder leaves the cache only at a miss that finds the cache full, being its last entry, or at a drop of its key |
| CacheHits.OncePerRemoval | src/concurrent_cache.h:64-69 | the computations begun for a key are at most one more than its placeholders evicted or dropped |
| CacheHits.OneValuePerPlaceholder | src/concurrent_cache.h:70 | the values that f returned for a key are as many as its fulfilled placeholders |
| CacheHits.ComputedOncePerRemoval | src/concurrent_cache.h:61-80 | so f returns for a key at most once more than a placeholder of the key is evicted or dropped |
| CacheHits.SameValueWhileKept | src/concurrent_cache.h:49-60 | as long as none is, at most one thread ever computed the key, and all calls of it that returned have the same value |
| CacheHits.SettledStays | src/concurrent_cache.h:70 | a placeholder that is fulfilled or abandoned stays so |
| CacheHits.GetEnds | src/concurrent_cache.h:79 | a call waiting on a placeholder ends with what that was fulfilled with, or with a broken promise if it was abandoned, and computes nothing |
| CacheHits.HitReturns | src/concurrent_cache.h:64-79 | a hit, from call to end: it returns the value of the cached placeholder |
| CacheHits.ComputedIsReturned | src/concurrent_cache.h:68-79 | a call whose own f returned a value returns that value |
| UrlCoding.DecodeUrl | src/tools.cpp:146-160 | the in-place loop computes the one-pass decoding that never looks again at its output; of any text written as single characters and escapes, with digits of either case, it gives what is meant |
| UrlCoding.DecodeSpelling | src/tools.cpp:138-160 | an escape decodes to the byte whose hexadecimal digits it has, in either case; a percent sign without two digits and all other characters stay |
| UrlCoding.SpellingExists | src/tools.cpp:146-160 | every text is such a spelling |
| UrlCoding.UrlEncode | src/tools.cpp:665-679 | the loop computes the encoding byte by byte |
| UrlCoding.EscapedIff | src/tools.cpp:641-679 | which bytes stay (letters, digits, ten marks, and the reserved ones unless encoded), and that any other becomes a percent sign and two upper-case digits, the first a space below 16 |
| UrlCoding.EncodeConcat | src/tools.cpp:665-679 | each byte is encoded by itself |
| UrlCoding.DecodeEncodedChar | src/tools.cpp:665-679 | one encoded byte in front of any text decodes to itself |
| UrlCoding.RoundTripIff | src/tools.cpp:641-679 | decoding undoes encoding iff every byte is at least 16, or is NUL with reserved characters left alone |
| UrlCoding.TabIsNotDecoded | src/tools.cpp:675 | the escape of a tab is not decoded |
| PathSegments.SplitPath | src/tools.cpp:182-196 | the loop gives the pieces between delimiters |
| PathSegments.JoinSplit | src/tools.cpp:182-196 | joining what was split gives the text |
| PathSegments.SplitJoin | src/tools.cpp:182-196 | splitting what was joined gives the segments, when they hold no delimiter |
| LinkResolvers.ResolveLinkTarget | src/tools.cpp:523-561 | the loop computes the resolution of the model, all exceptions included; a link is refused as absolute iff its first character is a slash, and leads to the entry itself when nothing precedes its last '#' or '?' |
| LinkResolvers.BranchesOfResolve | src/tools.cpp:523-532 | the same of the resolution, with the walk never refusing a link as absolute |
| LinkResolvers.StripsAtLastMark | src/tools.cpp:506-513 | what is left of a link ends before its last '#' or '?', if there is one |
| LinkResolvers.DropsOneSegment | src/tools.cpp:478-498 | a path that is not empty is cut at its last slash, which stays only when it is the leading one; without a slash, and for "/" alone, nothing is left |
| LinkResolvers.BasePathRepresents | src/tools.cpp:470-476 | the base path stands for the segments of the entry's path but the last |
| LinkResolvers.PopRepresents | src/tools.cpp:478-498 | dropping the last segment of the string drops the last segment of the stack, except that two empty segments that remain become one |
| LinkResolvers.WalkIsWalkStack | src/tools.cpp:536-560 | the loop over string, separator and terminator is a walk over segment stacks in which ambiguous stacks are read again |
| LinkResolvers.UnambiguousWalk | src/tools.cpp:536-560 | without an ambiguous stack that walk is section 5.2.4 of RFC 3986 on stacks |
| LinkResolvers.StaysBehind | src/tools.cpp:501-504 | once a leading empty segment is lost the result never agrees again |
| LinkResolvers.ResolverMatchesRfc | src/tools.cpp:523-561 | for a relative URL with a path the result (or OutOfBoundsURL) is what RFC 3986 gives for the decoded link, iff that is out of bounds or no dot segment meets an ambiguous stack; otherwise it is that without some leading slashes, or out of bounds |
| Rfc3986.RemoveDotsIsOnStacks | src/tools.cpp:536-560 | removing dot segments on stacks is steps 2A to 2E of section 5.2.4 of RFC 3986 on its two buffers, and is out of bounds iff these climb beyond the root |
| Rfc3986.TargetIsRemoveDots | src/tools.cpp:470-476 | the target of the model is that of the algorithm, begun with the directories of the entry in the output buffer |
| Rfc3986.TargetIsMergedAndRemoved | src/tools.cpp:470-476 | with no dot segment in the entry's path, it is sections 5.2.3 and 5.2.4 together: merge, then remove dot segments |
| LinkResolvers.OrdinaryLinksAreUnambiguous | src/tools.cpp:523-561 | no ambiguity arises when neither the entry's path begins with "//" nor the link has an empty segment before its last |
| LinkResolvers.DoubleSlashIsMisread | src/tools.cpp:501-504 | a concrete link that leads to "/b" instead of "//b" |
| LinkResolvers.StripsToPathIff | src/tools.cpp:506-513 | cutting at the last '#' or '?' leaves the path component iff at most one of them occurs |
| LinkResolvers.QueryStaysBeforeFragment | src/tools.cpp:509 | a concrete link whose query stays in the path |
| RawLinks.DecodeAcrossSlash | src/tools.cpp:146-160 | no percent-escape reaches across a slash |
| RawLinks.SplitDecodedIff | src/tools.cpp:534-539 | decoding and then splitting gives the decoded segments iff no segment decodes to text with a slash |
| RawLinks.RawDotsRemoved | src/tools.cpp:536-560 | when no segment decodes to a dot segment that it was not, removing dot segments before decoding, as section 2.4 of RFC 3986 asks, gives the same stack |
| RawLinks.NoDotsSameTarget | src/tools.cpp:534-560 | when the decoded link has no dot segment, escaped slashes do not change the target |
| RawLinks.ResolverMatchesRawRfc | src/tools.cpp:523-561 | in either case the result is what RFC 3986 gives for the link as it stands, iff that is out of bounds or no dot segment meets an ambiguous stack |
| RawLinks.HiddenDotsAreResolved | src/tools.cpp:534 | a concrete link with an escaped slash before ".." that leads to the directory instead of the name |
| RawLinks.HiddenSlashSurvives | src/tools.cpp:534 | a concrete link in which ".." removes half of a segment |
| RelativePaths.Common | src/tools.cpp:201-205 | the longest common prefix of the target with the directories of the base |
| RelativePaths.GetRelativePath | src/tools.cpp:198-221 | the loops give one ".." per directory left, then the rest of the target, joined with the slashes of the code |
| RelativePaths.EmptySegmentsVanish | src/tools.cpp:209-219 | for any segments the text separates them by single slashes; empty ones vanish, but that a final one leaves its slash |
| RelativePaths.RelativeIsShortest | src/tools.cpp:201-219 | no other ".." segments and clean names that lead from the base to a target that is no ancestor are fewer |
| RelativePaths.ComputeRelativePath | src/tools.cpp:225-236 | the path computed, by the cases of a trailing slash: "./" from a directory to itself, and a slash at the end exactly as the target has one |
| RelativePaths.RelativeStack | src/tools.cpp:198-221 | on stacks, the relative path leads from the base to the target |
| RelativePaths.RelativeRoundTrip | src/tools.cpp:225-236 | for a target that is no ancestor of the base with clean names past the common ones, resolving its relative path gives it back iff not both the base begins with "//" and at most two segments are shared |
| RelativePaths.DoubleSlashIsNotRestored | src/tools.cpp:225-236 | a concrete base and target that are not restored |
| RelativePaths.AncestorResolvesToParent | src/tools.cpp:225-236 | for an ancestor target the resolver gives the target's parent, with the like exception |
| RelativePaths.SelfRoundTrip | src/tools.cpp:229-230 | "./" leads a directory to itself iff that is not "//" |
| RelativePaths.DoubleSlashIsNotItself | src/tools.cpp:229-230 | "//" does not lead to itself |
| RelativePaths.DoubleSlashHasNoParent | src/tools.cpp:225-236 | from "//a" the path of "//" does not lead to its parent |
| AbsolutePaths.ComputeAbsolutePath | src/tools.cpp:239-264 | the loop descends from the directory of the path, element by element |
| AbsolutePaths.EmptyItemsVanish | src/tools.cpp:256 | empty elements make no difference |
| AbsolutePaths.DescendIsRemoveDots | src/tools.cpp:253-259 | for the others the directory reached is that of section 5.2.4 of RFC 3986, ".." at the root ignored |
| AbsolutePaths.AbsoluteIsRfc | src/tools.cpp:239-260 | together: the relative path without its empty elements, resolved against the directory of the path |
| AbsolutePaths.LastElementRemoved | src/tools.cpp:162-177 | removing the last path element with any of its flags |
| AbsolutePaths.Popped | src/tools.cpp:162-177 | removing the last path element removes the last segment of a directory |
| AbsolutePaths.AbsoluteRoundTrip | src/tools.cpp:239-264 | by this route the relative path of a target without trailing slash leads back to it, or to its parent for an ancestor |
| JsonPrinters.OutputStream.OutputString | src/zimcheck/json_tools.cpp:48-64 | quotes, backslashes and newlines are escaped and the text stops at the first NUL |
| JsonPrinters.OutputStream.PutString | src/zimcheck/json_tools.h:90-99 | separator and indentation before an array element, then the string |
| JsonPrinters.OutputStream.PutBool | src/zimcheck/json_tools.cpp:43-46 | a boolean is written without marking data |
| JsonPrinters.OutputStream.PutStartObject | src/zimcheck/json_tools.cpp:66-72 | opens a scope without data |
| JsonPrinters.OutputStream.PutEndObject | src/zimcheck/json_tools.cpp:74-87 | closes it and marks data in the scope around it, or ends the line at the root |
| JsonPrinters.OutputStream.PutStartArray | src/zimcheck/json_tools.cpp:89-95 | opens an array scope |
| JsonPrinters.OutputStream.PutEndArray | src/zimcheck/json_tools.cpp:97-110 | closes it, on a line of its own only when it has data |
| JsonPrinters.OutputStream.PutKey | src/zimcheck/json_tools.h:101-108 | separator, indentation, key and colon of a property |
| JsonPrinters.ValueWritten | src/zimcheck/json_tools.h:90-110 | the pushdown printer, driven over any value in any state that accepts it, writes the text of the value and restores the scopes |
| JsonPrinters.ElemsWritten | src/zimcheck/json_tools.h:90-99 | the same for the elements of an array |
| JsonPrinters.PropsWritten | src/zimcheck/json_tools.h:101-110 | the same for the members of an object |
| JsonParsers.QuotedChars | src/zimcheck/json_tools.cpp:48-64 | a printed string is read back, by section 7 of RFC 8259, iff it has no control character but the newline |
| JsonText.CStringEnds | src/zimcheck/json_tools.cpp:48-64 | what is printed of a string ends before its first NUL |
| JsonText.EscapedChars | src/zimcheck/json_tools.cpp:54-62 | quotes, backslashes and newlines are written with a backslash, all other characters as they are |
| JsonText.CleanStringMeans | src/zimcheck/json_tools.cpp:54-62 | clean means that no character is below the space but newlines |
| JsonText.CleanIff | src/zimcheck/json_tools.cpp:48-64 | a value is clean iff it is readable (no control character but the newline before a NUL, no boolean before further elements) and cutting its strings at the NUL changes nothing |
| JsonRoundTrips.ValueRead | src/zimcheck/json_tools.cpp:30-110 | the text of any value followed by anything is read as the value with its strings cut, and the rest, if it is readable, and as nothing otherwise |
| JsonRoundTrips.DocumentRead | src/zimcheck/json_tools.cpp:30-110 | the text of a whole value is JSON iff the value is readable, and then that of the value with its strings cut |
| JsonRoundTrips.RoundTripIff | src/zimcheck/json_tools.cpp:30-110 | it is parsed to the value itself iff that is clean |
| JsonLayout.ValueIsLines | src/zimcheck/json_tools.cpp:66-110 | unless an array with more elements begins with a boolean, the text of a value is one line for each element or member and each bracket, indented by two spaces a scope, with a comma at the end of all but the last |
| JsonLayout.DocumentLines | src/zimcheck/json_tools.cpp:66-110 | so it is for a whole document |
| JsonPrinters.PrintedIsParsedIff | src/zimcheck/json_tools.cpp:30-110 | every run of the printer over an object or array is accepted and closes all scopes; its text is JSON iff no string has a control character but the newline before its first NUL and no array with more elements begins with a boolean, and then that of the value with its strings cut; so it is parsed to the value itself iff that is clean |
| JsonPrinters.BooleanLosesComma | src/zimcheck/json_tools.cpp:43-46 | a concrete array whose text is no JSON |
| JsonPrinters.TabIsNotEscaped | src/zimcheck/json_tools.cpp:54-62 | a concrete string whose text is no JSON |
| JsonPrinters.WriteElems | src/zimcheck/checks.cpp:110-115 | driving the stream over a list leaves the state of the token run |
| JsonPrinters.WriteProps | src/zimcheck/json_tools.h:101-110 | driving it over the members of an object likewise |
| JsonPrinters.Print | src/zimcheck/json_tools.h:90-110 | the text written for a whole document is that of the value with its strings cut if it is readable and no JSON otherwise; it is parsed back to the value iff that is clean; and it is laid out line by line |
| ErrorLoggers.ErrorLogger.constructor | src/zimcheck/checks.cpp:149-156 | all tests passed, and in JSON mode an open object |
| ErrorLoggers.ErrorLogger.StartLogStream | src/zimcheck/checks.cpp:174-179 | the log array is opened once |
| ErrorLoggers.ErrorLogger.EndLogStream | src/zimcheck/checks.cpp:181-186 | and closed once |
| ErrorLoggers.ErrorLogger.SetTestResult | src/zimcheck/checks.cpp:188-190 | the last status recorded for a test |
| ErrorLoggers.ErrorLogger.AddInfo | src/zimcheck/checks.h:108-113 | writes a property wherever it comes: a member of the report outside the log array |
| ErrorLoggers.ErrorLogger.AddMsg | src/zimcheck/checks.cpp:192-224 | records a failure and, in JSON mode, writes one log object wherever it comes (what that object tells: ErrorLoggers.ReportIsRead) |
| ErrorLoggers.ErrorLogger.OverallStatus | src/zimcheck/checks.cpp:226-235 | true iff every failure of a test other than the redundancy and empty-link tests was followed by a success of it |
| ErrorLoggers.LastStatusIff | src/zimcheck/checks.cpp:188-196 | the status of a test is true iff each of its failures, recorded or by message, was followed by a recorded success |
| ErrorLoggers.ErrorLogger.Finish | src/zimcheck/checks.cpp:158-166 | wherever the run stops and whatever the operations were: the output is parsed as the report of the operations with its strings cut when each came in its place and was readable, and is no JSON otherwise; who reads it finds what each operation told, in order; with each in its place it is the report itself iff that is clean; without JSON mode there is none |
| ErrorLoggers.LogObjectIs | src/zimcheck/checks.cpp:213-224 | a log object has the name of the test under "check", "WARNING" for the redundancy and empty-link tests and "ERROR" for all others under "level", the text up to its NUL under "message", and then the parameters |
| ErrorLoggers.ReportIsRead | src/zimcheck/checks.cpp:158-224 | read against the operations, the report has a member for each piece of information, a member "logs" for each opening of the closed log array with one log object for each message up to its end, and nothing else |
| ErrorLoggers.ReportTells | src/zimcheck/checks.cpp:158-224 | when no information is called "logs": the i-th log object is that of the i-th message, and the i-th other member that of the i-th piece of information |
| ErrorLoggers.OpGoesOn | src/zimcheck/checks.cpp:174-224 | in its place a readable operation leaves a document that some text completes, and which texts do; one that is not readable leaves a document that no text completes |
| ErrorLoggers.OpBreaks | src/zimcheck/checks.cpp:192-224 | out of its place any operation leaves one that no text completes |
| ErrorLoggers.IsJsonIff | src/zimcheck/checks.cpp:158-224 | for all operations, the closed output is JSON iff each came in its place and is readable |
| ErrorLoggers.MessageOutsideLog | src/zimcheck/checks.cpp:213-215 | a concrete message out of its place that makes the output no JSON |
| ErrorLoggers.TabInMessage | src/zimcheck/checks.cpp:192-204 | a concrete message in its place, with a tab, that makes the output no JSON |
| JsonPrefixes.MemberAdded | src/zimcheck/json_tools.h:101-110 | a printed readable member keeps an open object completable by the same texts as any other with members |
| JsonPrefixes.ElemAdded | src/zimcheck/json_tools.h:90-99 | a printed readable element does the same for an open array |
| JsonPrefixes.BrokenByMember | src/zimcheck/json_tools.h:101-110 | after a printed member that is not readable no text completes the document |
| JsonPrefixes.BrokenByElem | src/zimcheck/json_tools.h:90-99 | nor after such an element |
| JsonPrefixes.BrokenByBrace | src/zimcheck/json_tools.cpp:66-72 | an object begun where a member is due cannot be completed |
| JsonPrefixes.BrokenByComma | src/zimcheck/json_tools.h:93-104 | nor can a separator printed twice |
| ErrorLoggers.OnwardIsReport | src/zimcheck/checks.cpp:174-224 | the tokens of the operations, in order, are those of the report |
| ErrorLoggers.ClosedIsReport | src/zimcheck/checks.cpp:158-166 | however a run stops, closing the array and the object completes the report |
| ErrorLoggers.OneObjectPerMessage | src/zimcheck/checks.cpp:192-204 | the log objects of the report are those of the messages, none lost, repeated or reordered |
| ErrorLoggers.CleanReport | src/zimcheck/checks.cpp:213-224 | the report is clean when everything given to the operations is |
| ZimcheckRuns.AllOpsKeepProtocol | src/zimcheck/zimcheck.cpp:204-296 | the calls of a whole zimcheck run, with or without the full tests, each come in their place |
| ZimcheckRuns.EveryStopIsInOrder | src/zimcheck/zimcheck.cpp:204-296 | so do those of a run that stops anywhere, whose report is therefore well-formed iff every operation is readable |
| ZimcheckRuns.RunTells | src/zimcheck/zimcheck.cpp:204-296 | the information of a whole run in order, from the version to the status, which is true iff no failure of an error-level test stands; its messages are those of the tests, if these were made |
| ZimSplitters.SortAscends | src/zimsplit.cpp:132 | the offsets are sorted and are the same offsets |
| ZimSplitters.ZimSplitter.GetOffsets | src/zimsplit.cpp:125-134 | cluster offsets and file size in order; the last is the file size iff no cluster lies past the end |
| ZimSplitters.ZimSplitter.GetNewSuffix | src/zimsplit.cpp:80-91 | the k-th suffix, and giving up on the 676th |
| ZimSplitters.ZimSplitter.NewFile | src/zimsplit.cpp:101-107 | one more, empty part under the next name |
| ZimSplitters.ZimSplitter.CopyOut | src/zimsplit.cpp:109-123 | copies the next bytes to the part, whatever the buffer, or fails at the end of the file |
| ZimSplitters.ZimSplitter.Run | src/zimsplit.cpp:136-150 | with all clusters in the file and at most 675 groups, the parts hold one group of chunks each and joined are the file; otherwise the run ends early; with no oversized chunk it completes iff some cut at chunk boundaries into fitting parts has at most 675 |
| ZimSplitters.ZimSplitter.Check | src/zimsplit.cpp:152-169 | an error iff some chunk is bigger than a part may be |
| ZimSplitters.GroupsKeepChunks | src/zimsplit.cpp:136-150 | no chunk is lost, repeated or split between parts |
| ZimSplitters.ChunksAreDistances | src/zimsplit.cpp:142-148 | each chunk is the distance from the offset before, the first one from the beginning of the file |
| ZimSplitters.ChunksReachOffset | src/zimsplit.cpp:142-148 | the first chunks together reach up to an offset, so parts end at offsets |
| ZimSplitters.GroupsAreGreedy | src/zimsplit.cpp:144-146 | a part is closed exactly when it is not empty and the next chunk does not fit into it |
| ZimSplitters.GroupsAcceptable | src/zimsplit.cpp:144-146 | a part exceeds the limit only when it holds one nonempty, oversized chunk |
| ZimSplitters.GreedyStaysAhead | src/zimsplit.cpp:141-149 | compared with any other cut of the same chunks, the greedy one is never behind |
| ZimSplitters.GroupsAreCut | src/zimsplit.cpp:136-170 | when no chunk is oversized the parts are a cut at chunk boundaries into fitting parts |
| ZimSplitters.GroupsAreOptimal | src/zimsplit.cpp:136-170 | and no such cut has fewer |
| ZimSplitters.EnoughPartsIff | src/zimsplit.cpp:136-170 | the greedy cut needs at most n parts iff some such cut does |
| ZimSplitters.OneBytePerPart | src/zimsplit.cpp:136-150 | n one-byte clusters and parts of one byte need n parts |
| ZimSplitters.SplitOneBytePerPart | src/zimsplit.cpp:86-89 | on such a file the split completes iff n is at most 675 |
| ZimSplitters.SuffixesAscend | src/zimsplit.cpp:80-91 | later parts have later names |
| ZimSplitters.SuffixIsPairOfLetters | src/zimsplit.cpp:80-91 | the k-th suffix is two small letters that read as k in base 26 |
| ArticleCheckers.ArticleChecker.Check | src/zimcheck/checks.cpp:348-380 | exactly the items that are not empty, and of archives with the old namespaces not in 'M', are appended to the bucket of their hash |
| ArticleCheckers.ArticleChecker.SearchBucket | src/zimcheck/checks.cpp:482-509 | the two loops over one bucket report what the scan of the bucket defines |
| ArticleCheckers.ArticleChecker.DetectRedundantArticles | src/zimcheck/checks.cpp:473-511 | for any hash and any order of buckets, the reported pairs are exactly those of the first compared item with some content and a compared item with the same content in another cluster or blob; representatives, silent aliases and reports are together the items |
| ArticleCheckers.DuplicateInFields | src/zimcheck/checks.cpp:96-99 | duplicates in the archive's fields: equal content, the first one with it, and another cluster or blob index |
| ArticleCheckers.FindingsInFields | src/zimcheck/checks.cpp:482-509 | any exact search reports exactly these |
| ArticleCheckers.FirstIsFirst | src/zimcheck/checks.cpp:484 | the first item with given data is the one before which no item has it |
| ArticleCheckers.FirstInBucket | src/zimcheck/checks.cpp:380 | it is also the first in its bucket |
| ArticleCheckers.ScanExact | src/zimcheck/checks.cpp:482-509 | the scan of a bucket finds exactly its duplicates and representatives |
| ArticleCheckers.ScanAccounts | src/zimcheck/checks.cpp:482-509 | and accounts for each of its items once |
| ArticleCheckers.SearchStep | src/zimcheck/checks.cpp:479-510 | one more bucket keeps the findings exact for all buckets searched |
| ArticleCheckers.SearchIsExact | src/zimcheck/checks.cpp:479-510 | searching the buckets of any hash in any order finds exactly the duplicates and accounts for each item once |
| ArticleCheckers.HashDoesNotMatter | src/zimcheck/checks.cpp:380 | two searches with different hash functions and bucket orders report the same pairs, each once |
| ArticleCheckers.ReportedOnce | src/zimcheck/checks.cpp:505 | no item is reported twice |
| LineLists.SplitLines | src/zimpatch.cpp:114-125 | the character loop reads the lines of a text |
| LineLists.LinesRoundTrip | src/zimpatch.cpp:114-125 | a newline-separated list of newline-free strings is read back |
| LineLists.EveryLineIsRead | src/zimpatch.cpp:114-125 | of any text every ended line is read, and only what follows the last newline is not |
| LineLists.NumberRoundTrip | src/zimpatch.cpp:78 | atoi undoes NumberToString, for negative numbers too |
| LineLists.NumberIsCanonical | src/zimdiff.cpp:75-97 | a number is written with a minus sign iff it is negative, and without leading zeros |
| LineLists.AtoiMeans | src/zimpatch.cpp:78 | atoi of white space, a sign, digits and anything after them |
| ZimDiffs.DeleteList | src/zimdiff.cpp:52-63 | the paths of the start archive that the end archive lacks, in order |
| ZimDiffs.RedirectList | src/zimdiff.cpp:65-73 | each redirect of the end archive with its target |
| ZimDiffs.UuidText | src/zimdiff.cpp:75-97 | the sixteen bytes as signed decimal numbers |
| ZimDiffs.AddChanged | src/zimdiff.cpp:106-132 | the diff has exactly the new entries and the items with changed data, each told to the creator once |
| ZimDiffs.Create | src/zimdiff.cpp:43-134 | the whole diff: its entries are those of the end archive that are new there or are items in both with different data; its metadata are the five texts |
| ZimPatches.DecodeUuid | src/zimpatch.cpp:70-87 | the loop that fills the sixteen-byte array |
| ZimPatches.DecodeRedirects | src/zimpatch.cpp:97-112 | the map of redirects read from the list |
| ZimPatches.MarkDeleted | src/zimpatch.cpp:127-138 | exactly the indices of the deleted paths are marked, or a deleted path is unknown |
| ZimPatches.AddKept | src/zimpatch.cpp:142-168 | the first loop over the start archive |
| ZimPatches.AddNew | src/zimpatch.cpp:170-192 | the second loop over the diff, no path told twice |
| ZimPatches.Create | src/zimpatch.cpp:61-195 | the patched archive for any start archive and diff, or failure on missing metadata or an unknown deleted path |
| ZimPatches.PatchedInFields | src/zimpatch.cpp:142-192 | for any two archives, which paths the patched archive has, and that each is the redirect of the list, or else the diff's entry, or else the old one |
| ZimPatches.RedirectMapMeans | src/zimpatch.cpp:97-112 | the target of a path is that of the last pair in the list that has it |
| ZimPatches.BytesAre | src/zimpatch.cpp:70-87 | each byte of the UUID is the number of its line as a signed char |
| ZimPatches.DeletesReadBack | src/zimpatch.cpp:114-138 | the delete list of a diff decodes to the deleted paths |
| ZimPatches.RedirectsReadBack | src/zimpatch.cpp:97-112 | the redirect list decodes to the end archive's redirects |
| ZimPatches.UuidReadsBack | src/zimpatch.cpp:70-90 | the signed-byte list decodes to the end archive's UUID |
| ZimPatches.EntriesRestored | src/zimpatch.cpp:142-192 | patching gives back exactly the end archive's map iff no path turns from a redirect into an item and no new path is reserved |
| ZimPatches.DiffPatchRoundTrip | src/zimpatch.cpp:61-195 | patching with the diff succeeds and always gives back the UUID; it gives back the entries iff no path turns from a redirect into an item and no new path is one of the six "M/" paths, and the main path iff that path, or the empty one when there is none, is known |
| ZimPatches.WhatIsLost | src/zimpatch.cpp:155-177 | otherwise the old redirect stays, and the reserved path is missing |
| ZimPatches.EveryEntryIsNeeded | src/zimdiff.cpp:106-132 | a diff has no entry too many: without any one of them its path is not restored |
| ZimPatches.StartUuidReadsBack | src/zimdiff.cpp:75-85 | the diff tells the UUID of the start archive |
| ZimPatches.DiffArchiveIsDiff | src/zimdiff.cpp:43-134 | any two archives have a diff |
| ZimPatches.ItemInPlaceOfRedirect | src/zimdiff.cpp:114-117 | the smallest archives in which a redirect that became an item stays, with their diff |
| ZimPatches.ReservedPathIsDropped | src/zimpatch.cpp:175-177 | the smallest archives that lose a new entry, with their diff |
| ZimPatches.MainPathIsLost | src/zimpatch.cpp:92-95 | the smallest archives whose main path is not set again, and those that gain one, with their diffs |

## Left out

- libzim, Gumbo, zlib, libmagic, ICU, docopt and mustache rendering: an archive is a sequence or map of entries, a message is its rendered text.
- zimdump, zimrecreate, zimbench, zimsearch, zimwriterfs, progress bars, argument parsing and console output: plumbing.
- `generic_getLinks`, metadata tables, URI kinds, `adler32`, `base64_encode` and case or file-extension helpers: simple or table-like; `adler32` is any function of the data.
- `checkDiffFile` of src/zimpatch.cpp: tied to path namespaces of libzim.
- Titles and MIME types of entries in diffs and patches.
- Integer widths: indices, sizes and offsets are natural numbers; none of the loops depends on wrap-around.
- Behaviour outside the C++ rules: redirect targets beyond the table, `isxdigit` on negative characters, a UUID list of other than sixteen lines, an odd number of redirect lines.
- RedirectionTables.RedirectionTable.IsInRedirectionLoop: requires all targets in range, as the code indexes its vectors by them.
- TaskStreams.EveryRunChecksEverything: assumes that `wait` returns only after a notification; what remains without that is stated by CheckedIsPrefix, NothingLostIff and FinishesIffRoom.
- DispatchedStreams.EveryEntryCheckedOnce: makes the same assumption, and takes the list of streams to be cleared from front to back. The first cluster need not differ from the initial value; a run that equals it goes to the stream that is first from the start.
- TaskDispatchers.TaskDispatcher.AddTask: a stream is here only the sequence of tasks it was given; its blocking is that of DispatchedStreams.
- ConcurrentCaches.RunKeepsInv: each critical section is one step, as the mutex makes it, and `f` is a value or an exception that comes at any time.
- LinkResolvers.ResolverMatchesRfc: the link is any text without a scheme; which links are resolved at all is not part of this model.
- RawLinks.ResolverMatchesRawRfc: only sufficient; when neither case applies, whether the results agree depends on which of the changed segments the dot segments remove.
- JsonParsers.QuotedChars: the reference parser does not accept numbers, null and `\u` escapes, which the printer never writes.
- JsonLayout.ValueIsLines: not for an array with more elements that begins with a boolean, whose text is no JSON.
- ErrorLoggers.ReportTells: only when no information is called "logs"; ErrorLoggers.ReportIsRead has no such condition.
- ErrorLoggers.ErrorLogger.AddMsg: the mutex makes the messages of several workers a sequence; any interleaving is some sequence of operations.
- ZimcheckRuns.EveryStopIsInOrder: what the tests find is a parameter; during the full tests they only report messages.
- ZimSplitters.ZimSplitter.Run: write errors and the printed warning are not modelled; `std::sort` is an insertion sort.
- ArticleCheckers.ArticleChecker.Check: one worker and the redundancy test enabled; with several workers the code appends to the buckets without a lock. The link checks of the same function are not modelled.
- ArticleCheckers.ArticleChecker.DetectRedundantArticles: items of one blob have one content, as in any archive; an item is its index in the archive; the message with the two paths is left to the logger.
- ZimPatches.DiffPatchRoundTrip: paths and redirect targets have no newline, since the lists are separated by newlines; the creator stores what it is told and adds no metadata of its own.
- Windows branches and file-system access.
