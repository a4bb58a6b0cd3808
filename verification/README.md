# Verified model of the vono web framework

A Dafny model of the parts of the framework that keep state or transform data, with proofs of what they
promise. `dafny verify dfyconfig.toml` checks everything.

- **Red-black tree** (`RbModel`, `RbFixup`, `RbTree`): node objects with parent pointers, the loops of the
  C macros, and a ghost zipper (the path to the current node and the subtree at it). Insertion and removal
  are proved to change exactly the element sequence they should, and to restore colours, black heights and
  every pointer; the height bound and the traversals follow.
- **Multipart upload** (`UploadArith`, `UploadModel`, `UploadProof`, `UploadLife`, `UploadExact`,
  `UploadSteps`, `UploadObjects`, `UploadManager`): the chunk manager over the two tables and local storage, as
  classes that refine a state machine, each step with its exact conditions, and theorems over all runs: what is
  stored is the file, byte for byte, exactly when the last store of every part carried its bytes, and uploads
  to different places do not disturb each other.
- **LRU cache with TTL** (`LruSpec`, `LruCache`, `LruProof`, `LruRecent`, `LruFresh`): the doubly linked list and
  the hash map refine a list ordered by recency; recency, eviction, expiry and capacity are proved over all runs.
- **Routing** (`Sorting`, `Settling`, `Complexity`, `RouteModel`, `RouteCaches`, `RoutePattern`, `FastRouting`,
  `HybridRouting`): both routers with their caches agree with a plain scan of the sorted table, and cached
  answers survive a change of the table under an exact condition. The regular-expression engine is a
  parameter; with an engine that gives patterns of whole segments their meaning (`Faithful`), the parameters
  of an answer, put back into the route's pattern, give the path.
- **Rate limiter** (`RateLimit`): the store and safety over all timed runs.
- **OpenAPI** (`JsonKeys`, `JsonTree`, `OpenApi`, `OpenApiProof`, `OpenApiDocument`, `OpenApiNormal`,
  `OpenApiNames`, `OpenApiWritten`, `OpenApiRead`): records to and from JSON trees; every member is written and
  read under its own name; reading back what was written gives a trimmed record, for every document, and the
  documents that come back unchanged are described field by field.
- **Tokens** (`Base64`, `Hmac`, `Decimals`, `JsonText`, `JwtPayload`, `JsonReader`, `Jwt`,
  `TokenTexts`): signing and verifying, with hashes and the JSON library as parameters; what a forgery takes; a
  reader for the JSON text of a token, and what a library must read.
- **Menu forest** (`Menus`) and **query strings** (`Query`, `Splitting`).
- `Options`, `VInt`: optional values; V's 32-bit `int` and 64-bit `i64`.

Where V's arithmetic wraps round, the model says so. Clocks, random ids and every outside failure are
inputs of the calls. A code branch that the C macros write out twice, for left and right, is one method with
a side parameter.

## What turned out differently from the documentation

- A file of more than 2^31 - 1 chunks is accepted: the chunk count wraps round. A file of 2^32 chunks counts
  as having no parts, can be completed at once, and is stored empty (`OversizedStoresNothing`). `EndToEnd`
  gives the exact condition.
- A part upload that is reported as failed, because recording it failed, has replaced the part file all the
  same (`ReportedSuccessIsNotEnough`). What counts is the last call for each part that reached the part file:
  if the chunk count fits and stored parts have the lengths of their ranges, a completion stores the file if
  and only if the last of them carried the bytes of its range, for every part (`LastStoreDecides`).
- An LRU entry under the empty key is never evicted or expired, because the empty key marks removed nodes
  (`EmptyKeyBreaksBound`). The cache stays within its capacity in all timely runs over a set of keys if and
  only if the capacity is at least 1 and the set does not hold the empty key or fits as a whole
  (`CapacityByKeys`).
- A rate-limit window that sees more than 2^31 - 1 requests lets some through again, because the count wraps
  round (`WindowExact`, `BurstBreaksLimit`).
- A route added after the first request can leave a wrong answer in the caches when the table is sorted
  (`SortMakesStale`). All cached answers survive, whatever the sort does with ties, if and only if for each of
  them some matching route gives that answer, no matching route has a lower score, and those of equal score
  give the same answer (`SortExact`); for a route put at a given place the condition is on that place
  (`InsertGood`). With sorting off, with empty caches, or for a static route nothing can go wrong
  (`FastRouter.AddRoute`). `clear_cache` of the fast router does not clear the fast cache.
- A token payload with a custom claim named like a standard one does not come back as it was
  (`SignVerify`). Control characters other than tab, newline and carriage return are written into JSON
  strings unescaped, so a payload text is readable JSON if and only if it has none of them (`PayloadRead`);
  the signature is accepted all the same (`SignatureAccepted`).

## Model

| member | source | states |
|---|---|---|
| RbModel.HeightBound | usockets/include/uv/tree.h:37-48 | a red-black tree of n elements has height h with 2^h <= (n+1)^2, that is at most 2 lg(n+1) |
| RbModel.RBHeightUnique | usockets/include/uv/tree.h:37-48 | all paths of a red-black tree have the same number of black nodes |
| RbModel.BlackHeightBounds | usockets/include/uv/tree.h:37-48 | black height bounds the element count from below and the height from above |
| RbModel.RotatedSame | usockets/include/uv/tree.h:95-138 | a rotation keeps the in-order sequence |
| RbModel.PlugRB | usockets/include/uv/tree.h:37-48 | a subtree of the right black height fits into a path with that height and gives a red-black tree |
| RbModel.UnplugRB | usockets/include/uv/tree.h:37-48 | conversely, a red-black tree falls apart into path and subtree of matching black height |
| RbModel.SuccessorAround | usockets/include/uv/tree.h:290-327 | moving the successor into the place of the removed node leaves the in-order sequence without that node |
| RbModel.PredSucc | usockets/include/uv/tree.h:421-462 | predecessor and successor undo one another on every element |
| RbModel.AtGap | usockets/include/uv/tree.h:399-418 | at the end of a search the elements before the gap are smaller and those after it larger than the key |
| RbModel.AscendingWith | usockets/include/uv/tree.h:351-379 | an element put into the gap of its key keeps the order strict |
| RbFixup.SiblingExists | usockets/include/uv/tree.h:204-281 | in the removal loop the sibling is never null, and a red sibling has two children |
| RbFixup.InsertRoundOk | usockets/include/uv/tree.h:160-202 | recolouring in the insertion loop moves the only violation two levels up |
| RbFixup.InsertDone | usockets/include/uv/tree.h:160-202 | when the insertion loop ends, blackening the root gives a red-black tree |
| RbFixup.ShiftUpOk | usockets/include/uv/tree.h:204-281 | a black sibling with black children: recolouring moves the missing black one level up |
| RbFixup.FarRedOk | usockets/include/uv/tree.h:204-281 | a red inner nephew is rotated to the outside without harm to any black height |
| RbFixup.RepairedOk | usockets/include/uv/tree.h:204-281 | a red outer nephew: one rotation restores all black heights |
| RbFixup.RedSiblingOk | usockets/include/uv/tree.h:204-281 | a red sibling is turned into a black one |
| RbFixup.ShortDone | usockets/include/uv/tree.h:204-281 | when the removal loop ends, blackening the current node gives a red-black tree |
| RbFixup.SuccessorRB | usockets/include/uv/tree.h:290-327 | black heights around the successor's old place after it took over position and colour |
| RbTree.RedBlackTree.Rotate | usockets/include/uv/tree.h:95-138 | the pointers after a rotation represent the rotated tree at the same place |
| RbTree.RedBlackTree.Splice | usockets/include/uv/tree.h:300-309 | a node with at most one child is unlinked, the child taking its place |
| RbTree.RedBlackTree.Attach | usockets/include/uv/tree.h:366-377 | the new red node hangs at the empty place that the search found |
| RbTree.RedBlackTree.InsertColor | usockets/include/uv/tree.h:160-202 | ends, and makes a red-black tree of the same elements out of one with a red node under a red parent |
| RbTree.RedBlackTree.RemoveColor | usockets/include/uv/tree.h:204-281 | ends, and makes a red-black tree of the same elements out of one that lacks a black node on one side |
| RbTree.RedBlackTree.Insert | usockets/include/uv/tree.h:351-379 | returns the node with an equal key and changes nothing at all, or adds exactly the new node at its place; the tree stays valid |
| RbTree.RedBlackTree.Remove | usockets/include/uv/tree.h:283-348 | takes exactly the given node out of the sequence; the tree stays valid |
| RbTree.RedBlackTree.RemoveDouble | usockets/include/uv/tree.h:292-329 | removal with two children: the successor takes over the node's fields, and all pointers agree afterwards |
| RbTree.RedBlackTree.MoveUp | usockets/include/uv/tree.h:310-329 | the whole-field copy: parent, children and root point to the successor |
| RbTree.RedBlackTree.Find | usockets/include/uv/tree.h:381-397 | the element with the key, or null exactly if there is none, after at most 2 lg(n+1) steps |
| RbTree.RedBlackTree.NFind | usockets/include/uv/tree.h:399-418 | the least element not below the key, or null exactly if there is none |
| RbTree.RedBlackTree.Next | usockets/include/uv/tree.h:421-441 | the next element in order, or null after the last |
| RbTree.RedBlackTree.Prev | usockets/include/uv/tree.h:443-462 | the previous element in order, or null before the first |
| RbTree.RedBlackTree.MinMax | usockets/include/uv/tree.h:464-477 | the first or the last element, null on the empty tree |
| RbTree.RedBlackTree.ForEach | usockets/include/uv/tree.h:491-494 | visits every element exactly once, in strictly ascending order |
| UploadArith.TotalChunksExact | chunk_manager.v:440-446 | the chunk count is the exact ceiling if and only if that fits in 32 bits |
| UploadArith.PartRangeCovers | chunk_manager.v:475-491 | part ranges are non-empty, at most a chunk long, contiguous, and cover the file |
| UploadArith.SizesSum | chunk_manager.v:494-497 | expected part sizes add up to the file size |
| UploadArith.SlicesWhole | chunk_manager.v:475-491 | the first k parts, joined, are the file if and only if k is the exact number of chunks |
| UploadManager.DatabaseManager.GetUploadedParts | database.v:508-526 | exactly the rows of the upload, by ascending part number |
| UploadManager.LocalStorage.UploadPart | local_storage.v:422-447 | writes the part file and the session entry, if there is a session |
| UploadManager.LocalStorage.CompleteMultipart | local_storage.v:450-498 | stores the part files one after the other in the given order, or fails on a missing one and stores nothing |
| UploadManager.ChunkManager.InitMultipart | chunk_manager.v:92-134 | is the initialisation step, with all its errors and partial effects |
| UploadManager.ChunkManager.UploadPart | chunk_manager.v:137-200 | is the part step, with all its errors and partial effects |
| UploadManager.ChunkManager.CompleteMultipart | chunk_manager.v:202-252 | is the completion step, with all its errors and partial effects |
| UploadManager.ChunkManager.AbortMultipart | chunk_manager.v:256-275 | is the abort step, with all its errors and partial effects |
| UploadSteps.ChunkNearest | chunk_manager.v:429-437 | the chunk size is the one within the limits nearest to what was asked for, or the default |
| UploadSteps.InitExact | chunk_manager.v:92-134 | exactly when the initialisation fails, and how; the record and the session it makes, and what it leaves alone |
| UploadSteps.PutExact | chunk_manager.v:137-200 | the same for a part: the part file, the recorded size and tag, and what stays when a later stage fails |
| UploadSteps.CompleteExact | chunk_manager.v:202-252 | the same for a completion: it stores under bucket, slash and key if and only if every part is recorded and has its file |
| UploadSteps.AbortExact | chunk_manager.v:256-275 | a successful abort leaves no record, no parts and no session of the id, and touches nothing else; exactly when it fails, and how far it got |
| UploadManager.ChunkManager.GetUploadProgress | chunk_manager.v:279-324 | counts, bytes, the percentage and the ascending list of pending parts |
| UploadManager.PercentFull | chunk_manager.v:303-307 | the percentage is in proportion to the parts uploaded, lies between 0 and 100 and is 100 if and only if every part is there |
| UploadSteps.ProgressBytes | chunk_manager.v:285-290 | when all parts are recorded with the sizes of their ranges, the bytes reported are the file size |
| UploadManager.ChunkManager.CanComplete | chunk_manager.v:586-589 | true exactly for an upload in progress with nothing pending |
| UploadManager.ChunkManager.RetryUploadPart | chunk_manager.v:348-383 | tries again while the error is retryable, at most retry_count + 1 times; the effect is that of the attempts made |
| UploadManager.AttemptsAreOne | chunk_manager.v:348-383 | any number of attempts at a part has the effect of one call |
| UploadManager.ChunkManager.UploadPendingParts | chunk_manager.v:393-421 | successes hold the provided bytes, other parts stay, and if all succeed nothing is pending |
| UploadProof.RunInv | chunk_manager.v:92-275 | in every reachable state records, sessions, recorded parts and part files agree |
| UploadProof.NextKeeps | chunk_manager.v:92-275 | each of the four calls keeps that invariant, whatever fails |
| UploadProof.FileFrom | local_storage.v:422-447 | a part file is an old one or the one just stored |
| UploadProof.UploadFixed | database.v:380-452 | of an upload record only the status ever changes |
| UploadProof.CountMeansAll | chunk_manager.v:212-217 | as many recorded parts as chunks means parts 1, 2, ..., n (pigeonhole) |
| UploadProof.CompletedIs | chunk_manager.v:202-252 | what a successful completion stores, for every file set |
| UploadProof.EndToEnd | chunk_manager.v:137-252 | after any run whose stored parts carry the right bytes, a successful completion stores the file byte for byte, if and only if the chunk count fits in 32 bits |
| UploadLife.Forward | database.v:435-440 | the lifecycle of an id only moves forward: it never returns to uploading |
| UploadLife.CompletedIsFinal | chunk_manager.v:202-275 | after a successful completion no call with that id changes a stored object |
| UploadLife.StoredIsFinal | chunk_manager.v:202-275 | the same after any call that changed a stored object, whatever it reported; such a call is a completion |
| UploadLife.PendingCount | chunk_manager.v:294-300 | recorded and pending parts add up to the total |
| UploadLife.ProgressExact | chunk_manager.v:212-217 | recorded numbers are in range, and the count guard agrees with an empty pending list if and only if the total is not negative |
| UploadLife.NegativeTotalIsOversized | chunk_manager.v:440-446 | such a total means more than 2^31 - 1 chunks |
| UploadLife.OversizedStoresNothing | chunk_manager.v:92-134 | a file of 2^32 chunks completes at once and is stored empty |
| UploadLife.ReportedSuccessIsNotEnough | chunk_manager.v:166-187 | a run in which a call that fails to record its part has replaced the part file, so that right bytes in the reported successes are not enough |
| UploadExact.FilesAreLast | local_storage.v:422-447 | in every run, while the session lives, a part file holds what the last call that reached it carried |
| UploadExact.StoresLast | chunk_manager.v:202-252 | in every run a successful completion stores exactly the last stored bytes of each part, in order |
| UploadExact.LastStoreDecides | chunk_manager.v:137-252 | if the chunk count fits in 32 bits and stored parts have the lengths of their ranges, what is stored is the file if and only if the last store of each part carried its range |
| UploadObjects.PlainPaths | local_storage.v:42-44 | for buckets without a slash, equal places mean equal bucket and key |
| UploadObjects.PathsInjective | local_storage.v:42-44 | places are unambiguous for a set of buckets if and only if none is another one followed by a slash |
| UploadObjects.OthersStay | local_storage.v:450-498 | a call leaves every object alone that has not the bucket and key of its upload |
| UploadObjects.ObjectsAreLast | local_storage.v:450-498 | in every run, what is found under a bucket and key is what the last completion for just these stored |
| UploadObjects.TwoFiles | chunk_manager.v:202-252 | two uploads to different places, both completed: at the end of the run both files are there, byte for byte |
| LruCache.ContextLRUCache.Get | cache.v:55-72 | list, map and pointers refine the lookup of the recency list |
| LruCache.ContextLRUCache.Put | cache.v:75-104 | the same for insertion, update and eviction |
| LruCache.ContextLRUCache.MoveToFront | cache.v:107-130 | the node moves to the front, the order of the others stays, all links agree |
| LruCache.ContextLRUCache.AddToFront | cache.v:133-147 | the node becomes the head, all links agree |
| LruCache.ContextLRUCache.RemoveNode | cache.v:161-195 | the node leaves list and map, unless its key is empty |
| LruCache.ContextLRUCache.Unlink | cache.v:161-195 | taking a node out of the doubly linked list keeps both chains of links |
| LruCache.ContextLRUCache.RemoveTail | cache.v:150-158 | the least recent entry goes, unless its key is empty |
| LruCache.ContextLRUCache.CleanupExpiredEntries | cache.v:289-309 | exactly the expired entries with a key go |
| LruCache.ContextLRUCache.ForceCleanupExpired | cache.v:312-314 | the same at once |
| LruCache.ContextLRUCache.Clear | cache.v:317-338 | the cache is empty, nodes are cut loose |
| LruCache.ContextLRUCache.IsHealthy | cache.v:240-268 | true in every reachable state |
| LruCache.KeyCount | cache.v:240-268 | as many keys in the map as nodes in the list |
| LruProof.RunOk | cache.v:55-195 | in every run keys stay distinct and the list is sorted by falling last access |
| LruProof.ExpiredSuffix | cache.v:271-309 | expired entries are a suffix of the list |
| LruProof.KeptIsPrefix | cache.v:289-309 | cleaning up cuts the list at one point |
| LruProof.GetIsFresh | cache.v:55-72 | get never returns an expired value |
| LruFresh.FoundInTime | cache.v:55-72 | in every run a value is only found if the time to live is off or the key was put or found no longer ago than that |
| LruFresh.KeptExact | cache.v:289-309 | a cleanup keeps an entry with a key if and only if the time to live is off or it was used no longer ago than that |
| LruFresh.TidyExact | cache.v:280-287 | a cleanup takes place when the interval is over, and takes only what has expired |
| LruProof.GetIsLastPut | cache.v:55-104 | in every run get returns nothing but the value last put under the key |
| LruRecent.RecentlyUsedIsFound | cache.v:55-104 | a key at the front is still found after any run without clearing that uses fewer than `capacity` other keys, as long as it has not expired |
| LruRecent.UsedIsFound | cache.v:55-104 | over all runs from an empty cache: a key put or found is found later, with the value last put, if it has not expired, nothing was cleared since and fewer than `capacity` other keys were used since |
| LruProof.EvictsLeastRecent | cache.v:75-104 | the entry evicted was used least recently |
| LruProof.CapacityKept | cache.v:75-104 | with capacity at least 1 and no empty key the cache never exceeds its capacity |
| LruProof.CapacityExact | cache.v:75-104 | without empty keys the bound holds in all runs if and only if the capacity is at least 1 |
| LruProof.EmptyKeyBreaksBound | cache.v:161-195 | the input that breaks the bound at capacity 1; `CapacityByKeys` gives all of them |
| LruProof.CapacityByKeys | cache.v:75-195 | for any non-empty set of keys the bound holds in all timely runs over them if and only if the capacity is at least 1 and the empty key is not among them or they all fit |
| LruProof.StepBound | cache.v:55-104 | no operation makes up an association |
| FastRouting.FastRouteCache.Put | cache.v:379-387 | stores the result, after emptying a full cache |
| RouteCaches.FastPutBound | cache.v:379-387 | no put takes the fast cache over its capacity, or over 1 if that is less, and the result put is in it |
| FastRouting.FastRouter.AddRoute | fast_router.v:65-93 | static routes replace; a dynamic route joins the table once, with the method, the compiled expression, its names and the score of its path, and the table is sorted; cached answers stay right for a static route, with empty caches, with sorting off, and with sorting on if the new table settles them |
| FastRouting.FastRouter.MatchRoute | fast_router.v:181-237 | a static route answers with its handler; with coherent caches and a method without colon every other answer comes from the first route of the method whose expression matches, with all its named groups, and is that of the plain scan; the answer is remembered in the cache that is on, the caches stay coherent, and their contents are given in every case |
| FastRouting.FastRouter.ScanRoutes | fast_router.v:203-232 | answers if and only if some route has the method and its expression matches, and then from the first such route with its pattern and named groups |
| FastRouting.FastRouter.SetCacheEnabled | fast_router.v:304-309 | switching the cache keeps it coherent |
| FastRouting.FastRouter.SetSortEnabled | fast_router.v:312-317 | the table is permuted, and sorted when sorting goes on; cached answers are right afterwards if sorting goes off, the caches are empty or the table settles them |
| FastRouting.FastRouter.ClearCache | fast_router.v:289-291 | clears the LRU cache only: afterwards all cached answers are right if and only if those of the fast cache are |
| FastRouting.FastRouter.WarmupCache | fast_router.v:335-343 | the caches after the requests, one by one; they stay coherent |
| FastRouting.WarmHolds | fast_router.v:335-343 | a fast cache with room for all the paths holds an answer for each that has one |
| FastRouting.WarmHoldsLast | fast_router.v:335-343 | the LRU cache holds the answer of the last path that has one |
| FastRouting.FastRouter.AnswerLeastComplex | fast_router.v:95-105 | with sorting on a dynamic answer comes from a route of the method whose path has the least score among all that match |
| FastRouting.SortMakesStale | fast_router.v:65-93 | for any two matching routes of one method the simpler one, added second, makes the cached answer wrong; `SortExact` gives the exact condition |
| FastRouting.FastRouter.AnswerGivesPath | fast_router.v:130-232 | with a faithful engine every scanned answer from a whole-segment route gives the path back |
| FastRouting.RouteAnswersExactly | fast_router.v:130-232 | such a route answers exactly the paths that are its pattern with some parameter values |
| Settling.SettledExact | fast_router.v:95-105 | all sorted permutations of a table give an answer if and only if it is settled: some route of least score among those that match gives it, and all of that score do |
| Settling.InsertExact | fast_router.v:83-105 | a route put at a place changes a request's answer unless an earlier one answers, it does not match, or it answers as the rest does: if and only if |
| RouteCaches.InsertGood | fast_router.v:83-105 | right caches stay right when a route is put at a place if and only if none of the cached requests is affected |
| RouteCaches.SortExact | fast_router.v:95-105 | caches are right for every sorted order of a table if and only if the table settles each cached answer |
| RouteCaches.GoodAppend | fast_router.v:83-92 | a route added at the end makes no cached answer wrong |
| RouteModel.ExtractParams | fast_router.v:209-214 | the loop collects every named group |
| RouteModel.ScanFirst | fast_router.v:203-232 | the scan answers from the first route that matches |
| RouteModel.ScanIs | fast_router.v:203-232 | the scan answers if and only if some route has the method and its expression matches, and then from the first such route, with its pattern and all named groups |
| RouteModel.OtherMethod | fast_router.v:203-206 | no route answers a request of another method |
| RouteModel.LeastComplex | fast_router.v:95-105 | in a sorted table that route has least complexity among all that match |
| RouteModel.OrderIrrelevant | fast_router.v:95-105 | two sorted tables of the same routes answer the same requests, from routes of equal complexity |
| RouteModel.ScanAppend | fast_router.v:83-92 | a route added at the end changes no answer that was given before |
| RouteModel.KeyTells | fast_router.v:183-183 | a cache key tells method and path when the method has no colon |
| RouteModel.KeysInjective | fast_router.v:183-183 | keys are unambiguous for a set of methods if and only if none is another one followed by a colon |
| RouteCaches.GoodStep | cache.v:55-104 | no cache operation brings in a wrong answer |
| Complexity.Calculate | fast_router.v:108-127 | the counts add up to one plus the weight of every character |
| Complexity.ScoreIs | router.v:181-200 | the score character by character equals the score by counts |
| Complexity.SpecialsAre | fast_router.v:108-127 | the special characters that count are these twelve |
| Sorting.SortBy | fast_router.v:96-105 | an ordered permutation |
| HybridRouting.ContextHybridRouter.AddRoute | router.v:153-162 | static routes replace and keep cached answers right; others join the sorted handlers once, and cached answers stay right if the cache is empty or the new table settles them |
| HybridRouting.ContextHybridRouter.MatchPathWithRegex | router.v:70-150 | the memo of compiled patterns answers what compiling anew would |
| HybridRouting.CompileIs | router.v:70-150 | two stars in a row, a star, or named parameters: which expression a pattern gets, and that only the last has names |
| HybridRouting.ContextHybridRouter.MatchRoute | router.v:218-234 | a static route answers with its handler; with a coherent cache and a method without colon every other answer comes from the first handler whose expression matches, with all its named groups; it is remembered in the cache |
| HybridRouting.ContextHybridRouter.MatchDynamicRouteWithKey | router.v:237-265 | cached answer or scan, and the cache contents afterwards |
| HybridRouting.HandlerScanIs | router.v:237-265 | the scan answers if and only if the expression of some handler matches, and then from the first such handler, with its path and all named groups |
| HybridRouting.ContextHybridRouter.WarmupRegexCache | router.v:310-324 | afterwards every pattern that compiles is in the memo |
| HybridRouting.LeastScore | router.v:165-178 | the handler that answers has the least score among those that match; no answer means none matches |
| HybridRouting.HandlerGivesPath | router.v:70-150 | with a faithful engine the answer of a whole-segment handler gives the path back |
| RoutePattern.SubstGroups | fast_router.v:130-178 | for a pattern of whole segments with distinct names the groups are its parameters, none is empty or holds a slash, and put back they give the path |
| RoutePattern.RouteExact | fast_router.v:130-178 | for texts whose segments are a literal or a parameter, with distinct names: a path matches if and only if it is the pattern with some parameter values, and those are unique |
| RoutePattern.CompiledExact | fast_router.v:130-232 | the same of what a faithful engine compiles: it matches exactly those paths, and the parameters read from its groups give the path back |
| RoutePattern.FaithfulExists | fast_router.v:130-178 | there is an engine with that meaning, so the statements about faithful engines are not empty |
| RateLimit.MemoryStore.Increment | rate_limit.v:40-72 | the new store, count and reset time |
| RateLimit.MemoryStore.CleanupExpired | rate_limit.v:91-107 | exactly the expired entries go |
| RateLimit.MemoryStore.Admit | rate_limit.v:147-176 | the decision and the number reported as remaining |
| RateLimit.CleanupInvisible | rate_limit.v:91-107 | cleanups anywhere in a run change no later count or reset time |
| RateLimit.WindowRule | rate_limit.v:40-72 | in every run a request gets the next number in the window of the last request of its key while that lasts, and otherwise number one in a new window |
| RateLimit.WindowExact | rate_limit.v:40-72 | a window admits at most the limit if and only if it sees at most 2^31 - 1 requests |
| RateLimit.BurstBreaksLimit | rate_limit.v:40-72 | the input that fails: 2^31 requests at one time let one more through than the limit |
| RateLimit.IntervalBound | rate_limit.v:40-72 | in every run, what an interval as long as the window admits, two windows one after the other admit; at most twice the limit unless one of the two sees more than 2^31 - 1 requests |
| JsonKeys.NamesDiffer | openapi.v:221-724 | no two members of OpenAPI objects share a name |
| JsonTree.RowAt | openapi.v:221-724 | what is assigned under a key is read under it, and what is skipped is absent |
| JsonTree.FillMap | openapi.v:420-437 | the loops that fill a map convert every value and no other |
| JsonTree.FillArray | openapi.v:496-509 | the loops that append to an array convert every element in order |
| OpenApiProof.SchemaToJson | openapi.v:306-385 | the recursion over properties and items writes the schema's JSON |
| OpenApiProof.SchemaFromJson | openapi.v:802-863 | the recursion reads the schema of any JSON value |
| OpenApiProof.SchemaBack | openapi.v:306-385 | reading a written schema gives its trimmed form, at every depth |
| OpenApiProof.SchemaSame | openapi.v:306-385 | trimming a schema changes nothing in what is written |
| OpenApiWritten.ReferenceWritten | openapi.v:306-385 | a reference is written as nothing but `$ref` |
| OpenApiWritten.SchemaTextsWritten | openapi.v:306-385 | every text of a schema under its own name, exactly when it is not empty |
| OpenApiWritten.SchemaPartsWritten | openapi.v:306-385 | the same for lists, nested schemas and bounds |
| OpenApiWritten.SchemaFlagsWritten | openapi.v:306-385 | the same for lengths, pattern and flags |
| OpenApiWritten.SchemaOnly | openapi.v:306-385 | a schema has no other members |
| OpenApiWritten.ContactWritten | openapi.v:221-233 | each field of the record under its own name, exactly when it is to be written; no other members |
| OpenApiWritten.LicenseWritten | openapi.v:236-244 | each field of the record under its own name, exactly when it is to be written; no other members |
| OpenApiWritten.InfoWritten | openapi.v:247-267 | each field of the record under its own name, exactly when it is to be written; no other members |
| OpenApiWritten.LinkWritten | openapi.v:270-278 | each field of the record under its own name, exactly when it is to be written; no other members |
| OpenApiWritten.TagWritten | openapi.v:292-303 | each field of the record under its own name, exactly when it is to be written; no other members |
| OpenApiWritten.HeaderWritten | openapi.v:388-401 | each field of the record under its own name, exactly when it is to be written; no other members |
| OpenApiWritten.MediaTypeWritten | openapi.v:404-414 | each field of the record under its own name, exactly when it is to be written; no other members |
| OpenApiWritten.ResponseWritten | openapi.v:417-436 | each field of the record under its own name, exactly when it is to be written; no other members |
| OpenApiWritten.RequestBodyWritten | openapi.v:439-456 | each field of the record under its own name, exactly when it is to be written; no other members |
| OpenApiWritten.ParameterWritten | openapi.v:459-482 | each field of the record under its own name, exactly when it is to be written; no other members |
| OpenApiWritten.OperationWritten | openapi.v:485-541 | each field of the record under its own name, exactly when it is to be written; no other members |
| OpenApiWritten.PathItemWritten | openapi.v:549-587 | each field of the record under its own name, exactly when it is to be written; no other members |
| OpenApiWritten.SecuritySchemeWritten | openapi.v:590-613 | each field of the record under its own name, exactly when it is to be written; no other members |
| OpenApiWritten.ComponentsWritten | openapi.v:623-668 | each field of the record under its own name, exactly when it is to be written; no other members |
| OpenApiWritten.DocumentWritten | openapi.v:671-724 | each field of the record under its own name, exactly when it is to be written; no other members |
| OpenApiWritten.OperationsWritten | openapi.v:549-587 | an operation is under the name of its method, if and only if it has responses |
| OpenApiWritten.RequirementWritten | openapi.v:525-538 | scopes under the name of their scheme |
| OpenApiRead.ContactRead | openapi.v:742-749 | each field is read from its own name in any JSON value |
| OpenApiRead.LicenseRead | openapi.v:752-758 | each field is read from its own name in any JSON value |
| OpenApiRead.InfoRead | openapi.v:761-771 | each field is read from its own name in any JSON value |
| OpenApiRead.LinkRead | openapi.v:774-780 | each field is read from its own name in any JSON value |
| OpenApiRead.TagRead | openapi.v:792-799 | each field is read from its own name in any JSON value |
| OpenApiRead.HeaderRead | openapi.v:866-873 | each field is read from its own name in any JSON value |
| OpenApiRead.MediaTypeRead | openapi.v:876-882 | each field is read from its own name in any JSON value |
| OpenApiRead.ResponseRead | openapi.v:885-911 | each field is read from its own name in any JSON value |
| OpenApiRead.RequestBodyRead | openapi.v:914-931 | each field is read from its own name in any JSON value |
| OpenApiRead.ParameterRead | openapi.v:934-945 | each field is read from its own name in any JSON value |
| OpenApiRead.OperationRead | openapi.v:948-1004 | each field is read from its own name in any JSON value |
| OpenApiRead.PathItemRead | openapi.v:1007-1030 | each field is read from its own name in any JSON value |
| OpenApiRead.SecuritySchemeRead | openapi.v:1033-1043 | each field is read from its own name in any JSON value |
| OpenApiRead.ComponentsRead | openapi.v:1046-1111 | each field is read from its own name in any JSON value |
| OpenApiRead.DocumentRead | openapi.v:1114-1169 | each field is read from its own name in any JSON value |
| OpenApiRead.SchemaTextsRead | openapi.v:807-863 | the texts of a schema, each from its own name |
| OpenApiRead.SchemaPartsRead | openapi.v:807-863 | its lists, bounds, lengths and flags, each from its own name |
| OpenApiRead.SchemaNestedRead | openapi.v:807-863 | its nested schemas, from `items` and `properties` |
| OpenApiDocument.HeaderBack | openapi.v:388-401 | the same for headers, whose schema needs a type or a reference |
| OpenApiDocument.MediaTypeBack | openapi.v:404-414 | the same for media types |
| OpenApiDocument.ResponseBack | openapi.v:417-437 | the same for responses, with their maps |
| OpenApiDocument.ResponseToJson | openapi.v:417-437 | the writing loops over headers and content give the JSON that the round trip is about |
| OpenApiDocument.ResponseFromJson | openapi.v:885-911 | the reading loops give the record that the round trip is about, for any JSON value |
| OpenApiDocument.ParameterBack | openapi.v:459-482 | the same for parameters |
| OpenApiDocument.OperationBack | openapi.v:485-541 | the same for operations, whose request body needs content |
| OpenApiDocument.PathItemBack | openapi.v:549-587 | the same for path items, whose operations need responses |
| OpenApiDocument.ComponentsBack | openapi.v:623-668 | the same for components |
| OpenApiDocument.RequirementBack | openapi.v:528-541 | security requirements come back as they were |
| OpenApiDocument.DocumentBack | openapi.v:671-724 | reading a written document gives its trimmed form, for every document |
| OpenApiDocument.DocumentSame | openapi.v:671-724 | trimming a document changes nothing in what is written |
| OpenApiDocument.DocumentRetraction | openapi.v:671-724 | write, read, write gives the JSON of the first write, for every document |
| OpenApiDocument.DocumentRoundTrip | openapi.v:1114-1169 | a document comes back unchanged if and only if trimming does not change it |
| OpenApiNormal.DocumentNormal | openapi.v:221-724 | trimming changes nothing if and only if the document is normal at every depth: a reference holds nothing else, a license without a name no url, and so on |
| OpenApiNormal.NormalRoundTrip | openapi.v:1114-1169 | a document comes back unchanged if and only if it is normal |
| Base64.EncodeDecode | jwt.v:63-79 | standard base64 (section 4 of RFC 4648) decodes to the bytes encoded |
| Base64.UrlDecode | jwt.v:70-79 | replaces, pads and decodes |
| Base64.UrlRoundTrip | jwt.v:63-79 | re-padding restores the standard encoding and decoding the bytes; the text stays in the URL alphabet |
| TokenTexts.LetterIs | jwt.v:63-79 | the base64 alphabet, letter by letter |
| TokenTexts.EncodeIs | jwt.v:63-67 | every letter of encoded text: the six bits it stands for, or `=` behind the end |
| TokenTexts.UrlIs | jwt.v:63-67 | the URL form: `-` for `+`, `_` for `/`, and the same text without `=` at the end |
| Hmac.ComputeHmac | jwt.v:82-132 | the loops compute the keyed hash of section 2 of RFC 2104, for each of the three hashes |
| Hmac.HmacIs | jwt.v:82-132 | the keyed hash with both pads written out byte by byte |
| Hmac.SecretsCollide | jwt.v:82-132 | one keyed hash under secrets with different key blocks gives two texts with the same hash |
| Hmac.MessagesCollide | jwt.v:82-132 | so does one keyed hash of two messages |
| JsonText.EscapeJsonString | jwt.v:333-346 | the loop escapes every byte that needs it |
| JsonText.EscapeExact | jwt.v:333-346 | escaped text reads back as the string, whatever follows, if and only if no other control character is in it |
| JwtPayload.EncodePayload | jwt.v:299-330 | the text of exactly the members that are not empty, then the claims |
| JwtPayload.ParsePayload | jwt.v:364-408 | the payload of the object that the JSON library reads |
| JwtPayload.PayloadExact | jwt.v:299-408 | reading the members written gives the payload back if and only if no claim has a standard name |
| TokenTexts.HeaderNames | jwt.v:269-296 | the header text, with its names |
| TokenTexts.PayloadNames | jwt.v:299-330 | each field of the payload under its own name, exactly when it is not empty, and the claims; nothing else |
| TokenTexts.PayloadReads | jwt.v:364-408 | each field is read from its own name in any object, and the claims are the rest |
| JsonReader.ObjectRead | jwt.v:299-346 | an RFC 8259 reader of objects of strings and 64-bit whole numbers gets the members of a written object back if their strings have an escape for every control character in them, and fails otherwise |
| JsonReader.PayloadRead | jwt.v:299-346 | the text of a payload reads back as its members if no string in it has another control character than tab, newline or carriage return, and otherwise not at all |
| JsonReader.PayloadParsed | jwt.v:364-408 | what a conforming library parses a payload text to, and that a strict one refuses a bare control character |
| JsonReader.ConformingExists | jwt.v:364-408 | there is a conforming and strict library, whichever strings it takes |
| Decimals.DecimalRead | jwt.v:311-319 | an `i64` written in decimal reads back as itself and ends where it should, under the number grammar of RFC 8259 |
| Jwt.SignMessage | jwt.v:239-245 | the keyed hash of the message under the secret, with the hash and the block size of the algorithm, byte by byte |
| Jwt.SignatureIs | jwt.v:239-245 | the same of every signature that signing and verifying speak of |
| Jwt.AlgRoundTrip | jwt.v:248-264 | names of algorithms read back |
| Jwt.SignJwt | jwt.v:269-296 | the token, or the missing-secret error |
| Jwt.ThreeParts | jwt.v:412-420 | a token splits into exactly its three parts |
| Jwt.PartsDecode | jwt.v:350-361 | header and payload are restored byte for byte |
| Jwt.ConstantTimeCompare | jwt.v:486-497 | true exactly on equal strings |
| Jwt.VerifyJwt | jwt.v:412-451 | the verdict with all its errors, in the order of the checks |
| Jwt.VerdictExact | jwt.v:412-451 | exactly when each error is answered, and when the payload |
| Jwt.TwoSecrets | jwt.v:434-444 | a token accepted under two secrets with different key blocks gives two texts with the same hash |
| Jwt.SignedUnderAnother | jwt.v:434-444 | so does a token signed under one secret and accepted under another of the same length, at most a block |
| Jwt.TwoMessages | jwt.v:434-444 | so do two tokens accepted with one signature |
| Jwt.SignatureAccepted | jwt.v:269-451 | for every payload and every non-empty secret the signature of a signed token is accepted under the same secret and algorithm, the verdict being that of its payload, and rejected under another algorithm |
| Jwt.SignVerify | jwt.v:269-451 | if the library also reads the payload back, the token is accepted, and gives its payload back if and only if no claim has a standard name |
| Jwt.SignVerifyConforming | jwt.v:269-451 | for any library that reads objects of strings and 64-bit numbers as jwt.v writes them: the token of a payload whose strings can be read gives that payload back if and only if no claim has a standard name; a library that refuses bare control characters refuses the other payloads |
| Jwt.AcceptedIsSigned | jwt.v:434-444 | whatever is accepted is a message followed by its own signature |
| Menus.ChainUnique | auth.v:380-392 | a menu has one parent chain |
| Menus.ChainShort | auth.v:380-392 | a parent chain visits no menu twice: the recursion ends even beside cycles |
| Menus.GetChildren | auth.v:380-392 | ends, and collects the children with all that is below them |
| Menus.BuildMenuTree | auth.v:357-377 | the forest of the menu list |
| Menus.ForestExact | auth.v:357-392 | each menu whose parent chain reaches 0 appears exactly once, directly under its parent, and nothing else appears |
| Menus.ForestInOrder | auth.v:357-392 | siblings come in the order of the list, at every depth |
| Query.ParseQueryStringApp | app.v:641-678 | the one-pass scanner equals: split on '&', then at the first '=', drop empty keys, last value wins |
| Query.ParsePathAndQuery | picoev_server.v:386-441 | for every p and every q without '?', p?q gives p and the map of q; without '?' the path and no map |
| Query.FindMark | picoev_server.v:396-404 | the position of the last '?', or -1 |
| Query.PieceDone | app.v:659-674 | at each separator the scanner's map is that of the text read so far |
| Query.PairsRead | app.v:641-678 | a query string written from pairs is read as their map, the last value of a key winning |
| Query.PieceIs | app.v:659-674 | a piece with a value, a key alone, a piece without key |
| Splitting.SplitJoin | jwt.v:416-420 | pieces without separators, joined, split back into the pieces |
| Splitting.JoinSplit | jwt.v:416-420 | the pieces of a split, joined, are the text |

## Left out

- The red-black tree compares integer keys; `cmp` of the header is any total order. `RB_AUGMENT` does nothing.
- Menus.BuildMenuTree: for lists with distinct ids other than 0, which the table's primary key gives; without that the recursion of the source need not end.
- Jwt.SignVerify: the JSON library is a parameter, assumed to read header and payload back. `SignVerifyConforming` only assumes it of objects of strings and 64-bit numbers with different names, without bare control characters, and with strings that the library takes (all of them, or only valid UTF-8). That json2 is such a library is an assumption: its own parser is not part of this model.
- UploadManager.ChunkManager.GetUploadProgress: the percentage is a real number, without rounding; file name, uuid and time stamps are not part of the record.
- OpenApiProof.SchemaFromJson: conversions of JSON values of another kind than expected (a number where a text should be) give the empty value; json2's own conversions are not part of this model. Numbers are exact.
- OpenApiDocument.ResponseFromJson: the same for a value of another kind where an object or a text should be.
- OpenAPI: `to_json` and `from_json` of all records but schemas and responses are expressions over the values of the loops that `JsonTree.FillMap` and `JsonTree.FillArray` compute; the order of members, the builders and the validation functions are not modelled.
- Object paths: the key of a stored object is bucket, slash and key, without the normalisation of file paths; file names of parts and the collision of a bucket with the directory of part files are not modelled, nor are partial writes. Removing the temporary directory always succeeds.
- Upload records: file names, uuids, content types, time stamps, the file table and the resume, report and stale-upload helpers. Error texts are constructors. Pauses between retries are left out.
- LRU cache: the value type is any type; creation times and statistics are left out, and an operation reads the clock once.
- FastRouting.FastRouter.MatchRoute: says nothing about coherence for a method with a colon, which no HTTP token has (section 5.6.2 of RFC 9110).
- Routing: the regular-expression engine is a parameter; that V's engine is `Faithful`, giving patterns of whole segments the meaning of `RoutePattern`, is an assumption of the results that name it. Names next to other text in a segment, as in `:a-b`, and stars have no meaning there. The stored base path is always empty. For `ContextHybridRouter` nothing is said about methods of dynamic routes, because the scan does not look at them.
- Rate limiter: locking, headers and responses; `now + window` does not overflow.
- Tokens: the hash functions and decoding of text that is not base64 are parameters; the checks of time and issuer after verification, the middleware and cookies are left out.
- Menu items: path, icon, permissions and times are carried by the name field.
- Everything else: HTTP serving, WebSockets, S3 and other cloud clients, SQL text, multipart forms, configuration, logging, listing and copying of files.
