# Remote outputs cache and sync scopes, modelled in Dafny

This project models two pieces of the Bazel IntelliJ plugin's sync machinery.

- `RemoteOutputsCache` is a project-level cache that keeps local copies of remote build
  outputs in one directory. Each cached file is named by a *cache key*. The key is the
  artifact's base name, `_`, the hexadecimal Java hash of the artifact's key, `.`, and the
  extension of the key. During sync the cache does the following:
  - it picks the outputs the language providers want;
  - it builds the new state, keyed by cache key;
  - it re-reads the cache directory;
  - it asks a differ which entries need copying;
  - it deletes the listed files the differ did not report;
  - it copies the reported ones, both as asynchronous units;
  - it waits, and publishes the new in-memory index only when the whole batch succeeded.

  `resolveOutput` reads that index.
- `SyncScope` runs a sync operation in a fresh child `BlazeContext`. It maps the way the
  operation ends onto the context: cancelled, has-error, rethrown or logged. It always ends
  the scope. `runWithTiming` first pushes a timing scope.

Modules:

| module | file | what |
|---|---|---|
| `Wrappers` | `wrappers.dfy` | `Option`, `Result` |
| `JavaString` | `java_string.dfy` | Java `int` wrap-around, UTF-16 `String.hashCode`, `lastIndexOf`, `Integer.toHexString` |
| `IdePaths` | `ide_paths.dfy` | the three path helpers the cache key uses |
| `CacheKeys` | `cache_key.dfy` | `getCacheKey` and what can be read back from a key |
| `FileSystem` | `file_system.dfy` | directories and files, and a `Disk` class with `mkdirs`, copy and `deleteIfExists` |
| `Outputs` | `outputs.dfy` | artifacts, locations, `findRemoteOutput` |
| `CacheSelection` | `cache_selection.dfy` | the provider selection pipeline of the public `updateCache` |
| `CachePlan` | `cache_plan.dfy` | the pure specification of one update (`UpdateSpec`) and its properties |
| `RemoteOutputs` | `remote_outputs_cache.dfy` | the `RemoteOutputsCache` class; its methods are proved against `UpdateSpec` |
| `BlazeScope` | `blaze_context.dfy` | the slice of `BlazeContext` both classes use, as a class |
| `SyncScope` | `sync_scope.dfy` | `push` and `runWithTiming`, proved against the pure `PushResult` |

Decisions about the environment:

- Everything the world decides is an input of the model, held in `Environment`. That covers
  whether `mkdirs` succeeds, how each copy or delete unit ends, and whether the wait is
  interrupted.
- A unit ends in one of three ways:
  - it completes;
  - it throws an `IOException`, which the unit logs and swallows, so its future succeeds and
    the disk is unchanged;
  - it throws an unchecked exception, which fails its future and so makes the wait throw
    `ExecutionException`.
- An interrupted wait takes precedence over a failed future.
- The differ (`FileCacheDiffer.findUpdatedOutputs`) is an uninterpreted function parameter.
- A `ScopedSyncOperation` is given as the sequence of context calls it makes, followed by how
  it ends.
- `toCache` is an ImmutableSet in the source. Here it is a sequence without repeats, in
  iteration order, because `toImmutableMap` reports the first repeated key in that order.

## Model

| member | source | states |
|---|---|---|
| `JavaString.HashCode` | base/src/com/google/idea/blaze/base/filecache/RemoteOutputsCache.java:202 | `key.hashCode()` is exactly the documented polynomial over the UTF-16 code units, taken modulo 2^32 |
| `JavaString.ToHexString` | base/src/com/google/idea/blaze/base/filecache/RemoteOutputsCache.java:202 | `Integer.toHexString` gives one to eight lower-case hex digits with no leading zero (unless the value is zero) that read back as the unsigned value of the hash |
| `JavaString.HashIsPolynomial` | base/src/com/google/idea/blaze/base/filecache/RemoteOutputsCache.java:202 | the 32-bit `h = 31*h + c` recurrence of `key.hashCode()` equals the documented polynomial over the UTF-16 code units, modulo 2^32 |
| `JavaString.Utf16` | base/src/com/google/idea/blaze/base/filecache/RemoteOutputsCache.java:202 | the hash runs over UTF-16 code units; there are at least as many as characters, each below 2^16, and exactly as many when no character is supplementary |
| `JavaString.Utf16Bmp` | base/src/com/google/idea/blaze/base/filecache/RemoteOutputsCache.java:202 | with no supplementary character, the k-th code unit the hash runs over is the k-th character itself |
| `JavaString.DecodeLast` | base/src/com/google/idea/blaze/base/filecache/RemoteOutputsCache.java:202 | decoding the code units of one more character gives back exactly that character after the rest |
| `JavaString.Utf16RoundTrip` | base/src/com/google/idea/blaze/base/filecache/RemoteOutputsCache.java:202 | decoding the UTF-16 code units the hash runs over gives back the key string |
| `JavaString.Utf16Injective` | base/src/com/google/idea/blaze/base/filecache/RemoteOutputsCache.java:202 | two keys with the same code units are the same key, so the units `hashCode` reads determine the key |
| `JavaString.CodeUnitsDecode` | base/src/com/google/idea/blaze/base/filecache/RemoteOutputsCache.java:202 | a supplementary character becomes a high and a low surrogate that decode back to it |
| `JavaString.WrapUnsigned` | base/src/com/google/idea/blaze/base/filecache/RemoteOutputsCache.java:202 | `int` wrap-around keeps exactly the low 32 bits, and the unsigned reading agrees with them |
| `JavaString.HexRoundTrip` | base/src/com/google/idea/blaze/base/filecache/RemoteOutputsCache.java:202 | reading back the digits `Integer.toHexString` writes gives the unsigned value |
| `JavaString.HexNoLeadingZero` | base/src/com/google/idea/blaze/base/filecache/RemoteOutputsCache.java:202 | the hex rendering has no leading zero; it is "0" exactly for zero |
| `JavaString.ToHexStringWidth` | base/src/com/google/idea/blaze/base/filecache/RemoteOutputsCache.java:202 | `toHexString` gives one to eight digits, not a fixed width; a negative hash gives eight |
| `JavaString.LastIndexOf` | base/src/com/google/idea/blaze/base/filecache/RemoteOutputsCache.java:200-201 | the result is -1 or a position holding the character, with none after it |
| `IdePaths.FileName` | base/src/com/google/idea/blaze/base/filecache/RemoteOutputsCache.java:200 | the file name is a suffix of the path that holds no separator |
| `IdePaths.FileNameAfterLastSeparator` | base/src/com/google/idea/blaze/base/filecache/RemoteOutputsCache.java:200 | the file name is the whole path or starts right after a separator; with no separator inside it, that is the last one |
| `IdePaths.NameWithoutExtension` | base/src/com/google/idea/blaze/base/filecache/RemoteOutputsCache.java:200 | the name without extension is a prefix; it is the whole name exactly when there is no '.' |
| `IdePaths.NameWithoutExtensionAtLastDot` | base/src/com/google/idea/blaze/base/filecache/RemoteOutputsCache.java:200 | with a '.' in the name, the name without extension stops right at a '.' after which no '.' follows, so at the last one |
| `IdePaths.Extension` | base/src/com/google/idea/blaze/base/filecache/RemoteOutputsCache.java:201 | the extension holds no '.'; it is empty when there is no '.', and otherwise the key ends in '.' followed by it |
| `CacheKeys.CacheKey` | base/src/com/google/idea/blaze/base/filecache/RemoteOutputsCache.java:198-203 | the cache key splits, at its last '.' and then at its last '_', back into the base name, hex hash and extension it was built from |
| `CachePlan.KeyOf` | base/src/com/google/idea/blaze/base/filecache/RemoteOutputsCache.java:198-203 | an artifact's cache key parses back into the parts of its `getKey()` |
| `CacheKeys.CacheKeyEquality` | base/src/com/google/idea/blaze/base/filecache/RemoteOutputsCache.java:198-203 | two keys collide exactly when base name, Java hash and extension all agree |
| `CacheKeys.CacheKeyLayout` | base/src/com/google/idea/blaze/base/filecache/RemoteOutputsCache.java:198-203 | the hash part is 1-8 lower-case hex digits reading back as the unsigned hash; with an empty extension the key still ends in '.' |
| `CacheKeys.ExtensionOfWholeKey` | base/src/com/google/idea/blaze/base/filecache/RemoteOutputsCache.java:200-202 | the extension comes from the whole key, so a '.' in a directory name puts the rest of the path into the cache key |
| `Outputs.FindRemoteOutput` | base/src/com/google/idea/blaze/base/filecache/RemoteOutputsCache.java:133-134 | `findRemoteOutput` is non-null exactly for a known location and then gives its artifact |
| `CacheSelection.Selected` | base/src/com/google/idea/blaze/base/filecache/RemoteOutputsCache.java:129-130 | the flat-mapped selection holds exactly the locations some provider chose |
| `CacheSelection.Collect` | base/src/com/google/idea/blaze/base/filecache/RemoteOutputsCache.java:131-135 | the collected set has no repeats and holds exactly the artifacts of generated, resolvable locations |
| `CacheSelection.ToCache` | base/src/com/google/idea/blaze/base/filecache/RemoteOutputsCache.java:128-135 | `toCache` holds each artifact some provider chose, generated and resolvable, exactly once |
| `CacheSelection.SelectedCacheable` | base/src/com/google/idea/blaze/base/filecache/RemoteOutputsCache.java:128-135 | what the filters keep from the flattened selection is exactly what some provider chose |
| `CachePlan.KeysOfAt` | base/src/com/google/idea/blaze/base/filecache/RemoteOutputsCache.java:144-145 | position i of the key sequence is the cache key of the i-th artifact |
| `CachePlan.NewState` | base/src/com/google/idea/blaze/base/filecache/RemoteOutputsCache.java:143-145 | `toImmutableMap` succeeds exactly when no two artifacts share a cache key, then maps each key to its artifact; on failure it names a key that occurs twice |
| `CachePlan.IndexBy` | base/src/com/google/idea/blaze/base/filecache/RemoteOutputsCache.java:145 | the same for any key sequence, as the collector builds it element by element |
| `CachePlan.ReadCachedFiles` | base/src/com/google/idea/blaze/base/filecache/RemoteOutputsCache.java:186-192 | a null listing gives the empty map; otherwise one entry per listed name, each the file of that name in the cache directory |
| `FileSystem.Listing` | base/src/com/google/idea/blaze/base/filecache/RemoteOutputsCache.java:187-188 | `listFiles` is null exactly when the directory does not exist, and otherwise names exactly the files in it |
| `CachePlan.Removed` | base/src/com/google/idea/blaze/base/filecache/RemoteOutputsCache.java:152-156 | the delete list is exactly the cached files whose key the differ did not report |
| `CachePlan.PlanDisjoint` | base/src/com/google/idea/blaze/base/filecache/RemoteOutputsCache.java:147-156 | the delete list is exactly the files in the existing cache directory whose name was not reported, so no file is both copied and deleted |
| `CachePlan.PublishedIndex` | base/src/com/google/idea/blaze/base/filecache/RemoteOutputsCache.java:172-174 | the published index has exactly the new state's keys, each mapped to `cacheDir/key` |
| `CachePlan.FutureOf` | base/src/com/google/idea/blaze/base/filecache/RemoteOutputsCache.java:219-223 | a unit's future fails exactly when it throws something other than the `IOException` it catches |
| `CachePlan.Written` | base/src/com/google/idea/blaze/base/filecache/RemoteOutputsCache.java:213-224 | the completed copies write exactly `cacheDir/key` for each reported key, with that artifact's bytes |
| `CachePlan.AfterCopies` | base/src/com/google/idea/blaze/base/filecache/RemoteOutputsCache.java:211-226 | after the copies a file exists exactly when it existed or its copy completed, and a completed copy replaces the old contents |
| `CachePlan.AfterDeletes` | base/src/com/google/idea/blaze/base/filecache/RemoteOutputsCache.java:228-241 | after the deletes a file exists exactly when it existed and its delete did not complete; contents are untouched |
| `CachePlan.WrittenStep` | base/src/com/google/idea/blaze/base/filecache/RemoteOutputsCache.java:213-224 | one more copy unit adds its own file, with its bytes, only if it completes |
| `CachePlan.AfterCopiesStep` | base/src/com/google/idea/blaze/base/filecache/RemoteOutputsCache.java:213-224 | one more copy unit updates exactly its destination, only if it completes |
| `CachePlan.AfterDeletesStep` | base/src/com/google/idea/blaze/base/filecache/RemoteOutputsCache.java:229-240 | one more delete unit removes exactly its file, only if it completes |
| `CachePlan.SomeFailsStep` | base/src/com/google/idea/blaze/base/filecache/RemoteOutputsCache.java:167-170 | a batch grown by one unit fails exactly when it failed before or the new unit fails |
| `CachePlan.CopiesStep` | base/src/com/google/idea/blaze/base/filecache/RemoteOutputsCache.java:213-224 | taking one more key out of the remaining ones adds exactly its copy and its failure to the state of `copyLocally` |
| `CachePlan.DeletesStep` | base/src/com/google/idea/blaze/base/filecache/RemoteOutputsCache.java:229-240 | taking one more file out of the remaining ones adds exactly its delete and its failure to the state of `deleteCacheFiles` |
| `CachePlan.CompletesIff` | base/src/com/google/idea/blaze/base/filecache/RemoteOutputsCache.java:139-184 | an update completes exactly when the cache keys are distinct, the directory exists or is created, the wait is not interrupted and no unit throws unchecked; swallowed IOExceptions do not stop it |
| `CachePlan.PublishedIndexIsNewState` | base/src/com/google/idea/blaze/base/filecache/RemoteOutputsCache.java:139-184 | after a completed update the index holds exactly the cache keys of `toCache`, each naming `cacheDir/key`, copied or not; on every other exit the index is unchanged |
| `CachePlan.UpdateWithIndex` | base/src/com/google/idea/blaze/base/filecache/RemoteOutputsCache.java:158-183 | once the new state is built, the index is published only on completion and is otherwise left as it was |
| `CachePlan.UpdateKeepsNaming` | base/src/com/google/idea/blaze/base/filecache/RemoteOutputsCache.java:139-184 | an index whose entries are `cacheDir/key` stays so across an update, whatever its outcome |
| `CachePlan.DiskEffect` | base/src/com/google/idea/blaze/base/filecache/RemoteOutputsCache.java:143-183 | a repeated key or a failed `mkdirs` leaves the disk untouched; on every later exit the disk is the one every unit of the batch leaves once it has finished, nothing rolled back and the directory existing |
| `CachePlan.TransferredFiles` | base/src/com/google/idea/blaze/base/filecache/RemoteOutputsCache.java:152-168 | after the batch a cache-directory file is present exactly when its copy completed, or it was there and its delete did not complete; a completed copy holds the artifact's bytes |
| `CachePlan.UnreportedWantedFileIsDeleted` | base/src/com/google/idea/blaze/base/filecache/RemoteOutputsCache.java:152-156 | the delete list filters on the differ's output, not on the new state: a wanted key the differ did not report gets published while its file was deleted |
| `FileSystem.Disk.Mkdirs` | base/src/com/google/idea/blaze/base/filecache/RemoteOutputsCache.java:159-160 | `mkdirs` reports the environment's decision and adds the directory exactly when it succeeds |
| `FileSystem.Disk.Write` | base/src/com/google/idea/blaze/base/filecache/RemoteOutputsCache.java:220 | a copy with REPLACE_EXISTING sets the destination to the bytes, whether or not it existed, and touches no other file |
| `FileSystem.Disk.DeleteIfExists` | base/src/com/google/idea/blaze/base/filecache/RemoteOutputsCache.java:235 | `deleteIfExists` removes the file and no other; a missing file leaves the disk as it was |
| `RemoteOutputs.CopyUnit` | base/src/com/google/idea/blaze/base/filecache/RemoteOutputsCache.java:217-223 | one copy unit writes the destination only when it completes; its future fails only on an unchecked exception |
| `RemoteOutputs.DeleteUnit` | base/src/com/google/idea/blaze/base/filecache/RemoteOutputsCache.java:233-238 | one delete unit removes the file only when it completes; its future fails only on an unchecked exception |
| `RemoteOutputs.RemoteOutputsCache.constructor` | base/src/com/google/idea/blaze/base/filecache/RemoteOutputsCache.java:93-98 | a new cache has the given directory and the empty index |
| `RemoteOutputs.RemoteOutputsCache.Initialize` | base/src/com/google/idea/blaze/base/filecache/RemoteOutputsCache.java:104-106 | the index becomes what `readCachedFiles` finds on disk |
| `RemoteOutputs.RemoteOutputsCache.ResolveOutput` | base/src/com/google/idea/blaze/base/filecache/RemoteOutputsCache.java:110-113 | the result is present exactly when the artifact's cache key is indexed, and is then `cacheDir/key` |
| `RemoteOutputs.RemoteOutputsCache.ClearCache` | base/src/com/google/idea/blaze/base/filecache/RemoteOutputsCache.java:243-253 | the index becomes empty |
| `RemoteOutputs.RemoteOutputsCache.CopyLocally` | base/src/com/google/idea/blaze/base/filecache/RemoteOutputsCache.java:211-226 | the disk ends as `AfterCopies` says; one future per entry; a future failed exactly when some copy threw unchecked |
| `RemoteOutputs.RemoteOutputsCache.DeleteCacheFiles` | base/src/com/google/idea/blaze/base/filecache/RemoteOutputsCache.java:228-241 | the disk ends as `AfterDeletes` says; one future per file; a future failed exactly when some delete threw unchecked |
| `RemoteOutputs.RemoteOutputsCache.RunBatch` | base/src/com/google/idea/blaze/base/filecache/RemoteOutputsCache.java:167-168 | the copies then the deletes: the disk is the deletes applied after the copies, and some future failed exactly when the batch fails |
| `RemoteOutputs.RemoteOutputsCache.AwaitBatch` | base/src/com/google/idea/blaze/base/filecache/RemoteOutputsCache.java:170-183 | interrupted takes precedence over a failed future, then completion; only completion publishes the index; cancel, warning or nothing reaches the context |
| `RemoteOutputs.RemoteOutputsCache.Synchronize` | base/src/com/google/idea/blaze/base/filecache/RemoteOutputsCache.java:147-183 | result, index and disk are exactly `UpdateWith`'s; a failed `mkdirs` submits the error issue and sets the error flag |
| `RemoteOutputs.RemoteOutputsCache.UpdateCacheFromSet` | base/src/com/google/idea/blaze/base/filecache/RemoteOutputsCache.java:139-184 | result, index and disk are exactly `UpdateSpec`'s, and the context hears just what the outcome calls for |
| `RemoteOutputs.RemoteOutputsCache.UpdateCache` | base/src/com/google/idea/blaze/base/filecache/RemoteOutputsCache.java:115-137 | `UpdateSpec` over the selected `toCache`, starting from the empty index when `clearCache` is set |
| `RemoteOutputs.ResolveAfterClear` | base/src/com/google/idea/blaze/base/filecache/RemoteOutputsCache.java:243-253 | after `clearCache` nothing resolves |
| `RemoteOutputs.ResolveAfterUpdate` | base/src/com/google/idea/blaze/base/filecache/RemoteOutputsCache.java:110-113 | after a completed update every artifact of `toCache` resolves to `cacheDir/key`, and an artifact whose key is not among theirs resolves to nothing |
| `BlazeScope.Context.constructor` | base/src/com/google/idea/blaze/base/sync/SyncScope.java:54 | a new context has the given parent and nothing pushed, marked or submitted |
| `BlazeScope.Context.Push` | base/src/com/google/idea/blaze/base/sync/SyncScope.java:44 | pushing a scope appends it to the scopes and records the push as the next event |
| `BlazeScope.Context.SetCancelled` | base/src/com/google/idea/blaze/base/sync/SyncScope.java:58-62 | `setCancelled` sets the cancelled flag and records the call as the next event |
| `BlazeScope.Context.SetHasError` | base/src/com/google/idea/blaze/base/filecache/RemoteOutputsCache.java:161-162 | `setHasError` sets the error flag and records the call as the next event |
| `BlazeScope.Context.Submit` | base/src/com/google/idea/blaze/base/filecache/RemoteOutputsCache.java:181-182 | submitting an issue appends it to the issues and records the submission as the next event |
| `BlazeScope.Context.EndScope` | base/src/com/google/idea/blaze/base/sync/SyncScope.java:68-70 | `endScope` records the end of the scope as the next event and changes nothing else |
| `SyncScope.Handler` | base/src/com/google/idea/blaze/base/sync/SyncScope.java:57-67 | the catch blocks cancel on the sync-cancel and process-cancel exceptions and flag an error on sync failure and any other throwable |
| `SyncScope.RunEffect` | base/src/com/google/idea/blaze/base/sync/SyncScope.java:56 | running an operation appends its events, scopes and issues, and sets each flag exactly when some step sets it |
| `SyncScope.CatchEffect` | base/src/com/google/idea/blaze/base/sync/SyncScope.java:57-67 | a catch block only sets its flag and records that one call |
| `SyncScope.PushEffect` | base/src/com/google/idea/blaze/base/sync/SyncScope.java:53-71 | the new context holds the operation's scopes and issues; it is cancelled exactly when the operation cancelled it or ended with the sync-cancel or process-cancel exception, and has an error exactly when the operation set one, failed, or threw anything else |
| `SyncScope.EndScopeOnce` | base/src/com/google/idea/blaze/base/sync/SyncScope.java:68-70 | `endScope` runs exactly once, as the last call, whatever the outcome |
| `SyncScope.RunCons` | base/src/com/google/idea/blaze/base/sync/SyncScope.java:42-46 | running a step in front of an operation is running the operation from the state that step leaves |
| `SyncScope.RunPrefix` | base/src/com/google/idea/blaze/base/sync/SyncScope.java:42-46 | scopes and events already on the context stay underneath what an operation adds |
| `SyncScope.TimingScopeFirst` | base/src/com/google/idea/blaze/base/sync/SyncScope.java:38-48 | with `runWithTiming` the context is what `push` alone leaves, with the timing scope at the bottom and its push as the first event |
| `SyncScope.ApplyStep` | base/src/com/google/idea/blaze/base/sync/SyncScope.java:56 | one context call changes the context as `Apply` says |
| `SyncScope.Execute` | base/src/com/google/idea/blaze/base/sync/SyncScope.java:56 | the operation's calls, in order, change the context as `Run` says |
| `SyncScope.Push` | base/src/com/google/idea/blaze/base/sync/SyncScope.java:53-71 | a fresh context with the given parent ends as `PushResult`; only the process-cancel exception and other throwables are rethrown, and only the latter are logged |
| `SyncScope.RunWithTiming` | base/src/com/google/idea/blaze/base/sync/SyncScope.java:38-48 | `push` of the operation that first pushes the timing scope; same rethrow and logging |

## Left out

- `FileCacheDiffer.findUpdatedOutputs` is not part of this model. It is an arbitrary function
  parameter, so every property here holds for whatever map it reports.
- `CachePlan.DiskEffect`, `RemoteOutputs.RemoteOutputsCache.Synchronize`,
  `RemoteOutputs.RemoteOutputsCache.UpdateCacheFromSet`, `RemoteOutputs.RemoteOutputsCache.UpdateCache`:
  on the Interrupted and ExecutionFailed exits they state the disk once every unit of the
  batch has finished. That is not the disk at return. `Futures.allAsList(...).get()` throws as
  soon as one unit fails or the thread is interrupted, and the units still running go on
  after `updateCache` returns.
- The executor, futures and their order are not modelled. The units run one after another.
  The outcome does not depend on their order, because each unit touches its own file.
- A copy that fails half-way is not modelled: an `IOException` leaves the destination as it
  was.
- `volatile` and concurrent readers of `cachedFiles` are not modelled.
- A listing that fails with an I/O error while the directory exists is not modelled.
- A `cacheDir` that exists as a regular file is not modelled.
- The disk is flat: a file is a directory and a name. A key holding '/' names a file
  `cacheDir/key` in that flat space, not a nested path.
- `JavaString.HashCode`, `CacheKeys.CacheKey`: a Java `String` can hold unpaired
  surrogates and a Dafny `string` cannot, so the hash and the cache key are modelled only for
  well-formed keys.
- `IdePaths.FileName`, `IdePaths.NameWithoutExtension`, `IdePaths.Extension`: the IntelliJ
  helpers `PathUtil.getFileName`, `FileUtil.getNameWithoutExtension` and
  `FileUtilRt.getExtension` are not part of this model. They are given the plain
  last-separator and last-dot definitions.
- The `isUnitTestMode` early return of the public `updateCache` is not modelled.
- The ServiceManager lookup, `getCacheDir`, the project data directory and extension-point
  discovery are not modelled. The directory and the providers are parameters.
- `ClearCache`, `RemoteOutputs.RemoteOutputsCache.UpdateCache`: the asynchronous delete of
  the old cache files is not modelled. Nothing waits for that delete, so `ClearCache` states
  only the emptied index. As a result, `UpdateCache` with `clearCache` set lists, diffs and
  deletes against the disk as it was before the clear.
- `RemoteOutputs.RemoteOutputsCache.AwaitBatch` has the following gaps:
  - the thread's interrupt flag is not modelled;
  - the warning's text does not include `e.getMessage()`;
  - the `logger.warn` calls inside the units are not modelled.
- `SyncScope.Push` reports a logger call as a boolean. The Logger is not modelled.
- The `BlazeContext` of this model records only what the two classes call on it. The rest of
  `BlazeContext`, and `TimingScope`'s timing, are not part of this model.
- `SyncScope.Operation` gives an operation's code as the sequence of context calls it makes
  and the way it ends. Calls to other code are not modelled. The calls cover pushing a scope,
  cancelling, flagging an error and submitting an issue. An operation cannot end its own
  context, so `SyncScope.EndScopeOnce` counts every end-of-scope event. It holds partly
  because `push` is the only caller of `endScope` here.
