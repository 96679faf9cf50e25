/**
 * `RemoteOutputsCache`: a flat directory of locally copied remote outputs and the published
 * index `cachedFiles` from cache key to local file. The index is only ever replaced whole:
 * by `Initialize` from the directory listing, by a completed update, and by `ClearCache`.
 */
module RemoteOutputs {
  import opened Wrappers
  import opened FileSystem
  import opened Outputs
  import opened CacheKeys
  import opened CacheSelection
  import opened CachePlan
  import opened BlazeScope

  const DIRECTORY_ERROR: string := "Could not create remote outputs cache directory"
  const SYNC_WARNING: string := "Remote outputs synchronization didn't complete: "

  /** One unit of `copyLocally`: an IOException is logged and swallowed inside the unit. */
  method CopyUnit(disk: Disk, destination: File, artifact: Artifact, event: UnitEvent) returns (future: FutureResult)
    modifies disk`files
    ensures future == FutureOf(event)
    ensures disk.files == if event == Completes then old(disk.files)[destination := artifact.data] else old(disk.files)
  {
    match event
    case Completes =>
      disk.Write(destination, artifact.data);
      future := Succeeded;
    case ThrowsIOException =>
      future := Succeeded;
    case ThrowsUnchecked =>
      future := Failed;
  }

  /** One unit of `deleteCacheFiles`: an IOException is logged and swallowed inside the unit. */
  method DeleteUnit(disk: Disk, file: File, event: UnitEvent) returns (future: FutureResult)
    modifies disk`files
    ensures future == FutureOf(event)
    ensures disk.files == if event == Completes then old(disk.files) - {file} else old(disk.files)
  {
    match event
    case Completes =>
      disk.DeleteIfExists(file);
      future := Succeeded;
    case ThrowsIOException =>
      future := Succeeded;
    case ThrowsUnchecked =>
      future := Failed;
  }

  class RemoteOutputsCache {
    const cacheDir: string
    const disk: Disk
    var cachedFiles: map<string, File>

    /** Every index entry is the file in the cache directory named by its key. */
    ghost predicate Valid()
      reads this
    {
      NamedByKey(cachedFiles, cacheDir)
    }

    constructor (cacheDir: string, disk: Disk)
      ensures this.cacheDir == cacheDir && this.disk == disk
      ensures cachedFiles == map[] && Valid()
    {
      this.cacheDir, this.disk := cacheDir, disk;
      cachedFiles := map[];
    }

    /** `initialize()`: the index becomes what `readCachedFiles()` finds on disk. */
    method Initialize()
      modifies this`cachedFiles
      ensures cachedFiles == ReadCachedFiles(cacheDir, Listing(disk.State(), cacheDir))
      ensures Valid()
    {
      cachedFiles := ReadCachedFiles(cacheDir, Listing(disk.State(), cacheDir));
    }

    /**
     * `resolveOutput(output)`: the index entry for the artifact's cache key, or `None`; under
     * `Valid()` that entry is the cache-directory file named by the key.
     */
    function ResolveOutput(output: Artifact): (r: Option<File>)
      reads this
      ensures r.Some? <==> KeyOf(output) in cachedFiles
      ensures r.Some? ==> r.value == cachedFiles[KeyOf(output)]
      ensures Valid() && r.Some? ==> r.value == File(cacheDir, KeyOf(output))
    {
      var key := KeyOf(output);
      if key in cachedFiles then Some(cachedFiles[key]) else None
    }

    /** `clearCache()`: publishes the empty index (the asynchronous delete is not modelled). */
    method ClearCache()
      modifies this`cachedFiles
      ensures cachedFiles == map[] && Valid()
    {
      cachedFiles := map[];
    }

    /** `copyLocally(updated)`: one copy unit per entry, to `cacheDir/key`. */
    method CopyLocally(updated: map<string, Artifact>, event: string -> UnitEvent) returns (futures: seq<FutureResult>)
      modifies disk`files
      ensures disk.files == AfterCopies(old(disk.files), cacheDir, updated, event)
      ensures |futures| == |updated.Keys|
      ensures Failed in futures <==> SomeFails(updated.Keys, event)
    {
      futures := [];
      var remaining := updated.Keys;
      CopiesStart(old(disk.files), cacheDir, updated, event);
      while remaining != {}
        invariant remaining <= updated.Keys
        invariant |futures| + |remaining| == |updated.Keys|
        invariant disk.files == AfterCopies(old(disk.files), cacheDir, updated - remaining, event)
        invariant Failed in futures <==> SomeFails(updated.Keys - remaining, event)
        decreases remaining
      {
        var k :| k in remaining;
        CopiesStep(old(disk.files), cacheDir, updated, remaining, k, event);
        var future := CopyUnit(disk, File(cacheDir, k), updated[k], event(k));
        futures := futures + [future];
        remaining := remaining - {k};
      }
    }

    /** `deleteCacheFiles(files)`: one delete unit per file. */
    method DeleteCacheFiles(files: set<File>, event: File -> UnitEvent) returns (futures: seq<FutureResult>)
      modifies disk`files
      ensures disk.files == AfterDeletes(old(disk.files), files, event)
      ensures |futures| == |files|
      ensures Failed in futures <==> SomeFails(files, event)
    {
      futures := [];
      var remaining := files;
      DeletesStart(old(disk.files), files, event);
      while remaining != {}
        invariant remaining <= files
        invariant |futures| + |remaining| == |files|
        invariant disk.files == AfterDeletes(old(disk.files), files - remaining, event)
        invariant Failed in futures <==> SomeFails(files - remaining, event)
        decreases remaining
      {
        var f :| f in remaining;
        DeletesStep(old(disk.files), files, remaining, f, event);
        var future := DeleteUnit(disk, f, event(f));
        futures := futures + [future];
        remaining := remaining - {f};
      }
    }

    /** The copy futures of `updated` followed by the delete futures of `removed`. */
    method RunBatch(p: Plan, env: Environment) returns (futures: seq<FutureResult>)
      modifies disk`files
      ensures disk.files == AfterDeletes(AfterCopies(old(disk.files), cacheDir, p.updated, env.copyEvent), p.removed, env.deleteEvent)
      ensures Failed in futures <==> BatchFails(p, env)
    {
      var copies := CopyLocally(p.updated, env.copyEvent);
      var deletes := DeleteCacheFiles(p.removed, env.deleteEvent);
      futures := copies + deletes;
    }

    /** What an update's result tells the context. */
    twostate predicate Reported(context: Context, result: UpdateResult)
      reads context
    {
      && context.scopes == old(context.scopes)
      && match result
         case DirectoryNotCreated =>
           && context.issues == old(context.issues) + [IssueError(DIRECTORY_ERROR)]
           && context.events == old(context.events) + [Submitted(IssueError(DIRECTORY_ERROR)), MarkedError]
           && context.hasError && context.cancelled == old(context.cancelled)
         case Interrupted =>
           && context.issues == old(context.issues)
           && context.events == old(context.events) + [MarkedCancelled]
           && context.cancelled && context.hasError == old(context.hasError)
         case ExecutionFailed =>
           && context.issues == old(context.issues) + [IssueWarning(SYNC_WARNING)]
           && context.events == old(context.events) + [Submitted(IssueWarning(SYNC_WARNING))]
           && context.cancelled == old(context.cancelled) && context.hasError == old(context.hasError)
         case _ =>
           && context.issues == old(context.issues) && context.events == old(context.events)
           && context.cancelled == old(context.cancelled) && context.hasError == old(context.hasError)
    }

    /**
     * The private `updateCache(context, toCache, previousOutputs)`: exactly `UpdateSpec` on
     * the index and disk before it, reporting to the context as `Reported` says.
     */
    method UpdateCacheFromSet(context: Context, toCache: seq<Artifact>, previous: RemoteOutputs,
                              differ: Differ, env: Environment) returns (result: UpdateResult)
      requires Valid() && Distinct(toCache)
      modifies this`cachedFiles, disk, context
      ensures Valid()
      ensures var s := UpdateSpec(cacheDir, old(cachedFiles), old(disk.State()), toCache, previous, differ, env);
        result == s.result && cachedFiles == s.index && disk.State() == s.disk
      ensures Reported(context, result)
    {
      var ns := NewState(toCache);
      if ns.Failure? {
        return DuplicateKeyThrown(ns.error);
      }
      result := Synchronize(context, ns.value, previous, differ, env);
    }

    /**
     * The private `updateCache` once `newState` is built: re-list the directory, ask the
     * differ, create the directory, run the copy and delete batch, wait, and publish.
     */
    method Synchronize(context: Context, newState: map<string, Artifact>, previous: RemoteOutputs,
                       differ: Differ, env: Environment) returns (result: UpdateResult)
      requires Valid()
      modifies this`cachedFiles, disk, context
      ensures Valid()
      ensures var s := UpdateWith(cacheDir, old(cachedFiles), old(disk.State()), newState, previous, differ, env);
        result == s.result && cachedFiles == s.index && disk.State() == s.disk
      ensures Reported(context, result)
    {
      var cached := ReadCachedFiles(cacheDir, Listing(disk.State(), cacheDir));
      var updated := differ(newState, cached, previous);
      var p := Plan(cached, updated, Removed(cached, updated));
      assert p == PlanOf(cacheDir, disk.State(), newState, previous, differ);
      ghost var before := disk.State();
      ghost var s := UpdateWith(cacheDir, cachedFiles, before, newState, previous, differ, env);

      if cacheDir !in disk.dirs {
        var created := disk.Mkdirs(cacheDir, env.mkdirsSucceeds);
        if !created {
          context.Submit(IssueError(DIRECTORY_ERROR));
          context.SetHasError();
          assert s == UpdateStep(DirectoryNotCreated, cachedFiles, before);
          return DirectoryNotCreated;
        }
      }
      assert disk.dirs == before.dirs + {cacheDir};

      var futures := RunBatch(p, env);
      assert disk.State() == Transferred(cacheDir, before, p, env);
      assert s.disk == disk.State();
      result := AwaitBatch(context, futures, newState, env.waitInterrupted);
    }

    /**
     * The `Futures.allAsList(futures).get()` of the private `updateCache` and its two catch
     * blocks: publish the new state's keys when the wait returns, mark the context cancelled
     * when it is interrupted, warn when a unit failed.
     */
    method AwaitBatch(context: Context, futures: seq<FutureResult>, newState: map<string, Artifact>,
                      interrupted: bool) returns (result: UpdateResult)
      modifies this`cachedFiles, context
      ensures result == if interrupted then Interrupted else if Failed in futures then ExecutionFailed else Completed
      ensures cachedFiles == if result == Completed then PublishedIndex(cacheDir, newState.Keys) else old(cachedFiles)
      ensures Reported(context, result)
    {
      if interrupted {
        context.SetCancelled();
        return Interrupted;
      }
      if Failed in futures {
        context.Submit(IssueWarning(SYNC_WARNING));
        return ExecutionFailed;
      }
      cachedFiles := PublishedIndex(cacheDir, newState.Keys);
      result := Completed;
    }

    /**
     * The public `updateCache`: clears the index first when asked, selects `toCache` through
     * the providers, then runs the private update on it.
     */
    method UpdateCache<T, L>(context: Context, providers: seq<Provider<T, L>>, targetMap: T, settings: L,
                             outputs: RemoteOutputs, previous: RemoteOutputs, clearCache: bool,
                             differ: Differ, env: Environment) returns (result: UpdateResult)
      requires Valid()
      modifies this`cachedFiles, disk, context
      ensures Valid()
      ensures var s := UpdateSpec(cacheDir, if clearCache then map[] else old(cachedFiles), old(disk.State()),
                                  ToCache(providers, outputs, targetMap, settings), previous, differ, env);
        result == s.result && cachedFiles == s.index && disk.State() == s.disk
      ensures Reported(context, result)
    {
      if clearCache {
        ClearCache();
      }
      var toCache := ToCache(providers, outputs, targetMap, settings);
      result := UpdateCacheFromSet(context, toCache, previous, differ, env);
    }
  }

  /** After `clearCache()` nothing resolves, until the next completed update. */
  lemma ResolveAfterClear(cache: RemoteOutputsCache, output: Artifact)
    requires cache.cachedFiles == map[]
    ensures cache.ResolveOutput(output) == None
  {
  }

  /**
   * After a completed update every artifact of `toCache` resolves to `cacheDir/key`, and an
   * artifact whose cache key no artifact of `toCache` has resolves to nothing.
   */
  lemma ResolveAfterUpdate(cache: RemoteOutputsCache, toCache: seq<Artifact>, output: Artifact)
    requires NewState(toCache).Success?
    requires cache.cachedFiles == PublishedIndex(cache.cacheDir, NewState(toCache).value.Keys)
    ensures output in toCache ==> cache.ResolveOutput(output) == Some(File(cache.cacheDir, KeyOf(output)))
    ensures KeyOf(output) !in KeysOf(toCache) ==> cache.ResolveOutput(output) == None
  {
    var newState := NewState(toCache).value;
    var key := KeyOf(output);
    if output in toCache {
      var i :| 0 <= i < |toCache| && toCache[i] == output;
      KeysOfAt(toCache, i);
      assert key in newState;
    }
    if key !in KeysOf(toCache) {
      assert key !in newState;
    }
  }
}
