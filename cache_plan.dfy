/**
 * The pure part of the private `updateCache`: the new state, the cached-file index read from
 * disk, the delete list, the effect of the copy and delete units on the disk, and the whole
 * update as a function from the old index and disk to the result, new index and new disk.
 */
module CachePlan {
  import opened Wrappers
  import opened FileSystem
  import opened Outputs
  import opened CacheKeys

  /** `getCacheKey(output)`: a cache key that parses back into the artifact key's parts. */
  function KeyOf(a: Artifact): (k: string)
    ensures ParseCacheKey(k) == Some(PartsOf(a.key))
  {
    CacheKey(a.key)
  }

  /** The cache keys of `toCache`, position by position. */
  function KeysOf(toCache: seq<Artifact>): (keys: seq<string>)
    ensures |keys| == |toCache|
  {
    if toCache == [] then [] else KeysOf(toCache[..|toCache| - 1]) + [KeyOf(toCache[|toCache| - 1])]
  }

  lemma {:induction false} KeysOfAt(toCache: seq<Artifact>, i: nat)
    requires i < |toCache|
    ensures KeysOf(toCache)[i] == KeyOf(toCache[i])
  {
    if i < |toCache| - 1 {
      KeysOfAt(toCache[..|toCache| - 1], i);
    }
  }

  /**
   * `newState`: `toCache` collected with `toImmutableMap(getCacheKey, identity)`. It fails,
   * naming the key, when two artifacts share a cache key; otherwise its keys are exactly the
   * cache keys of `toCache`, each mapped to its artifact.
   */
  function NewState(toCache: seq<Artifact>): (r: Result<map<string, Artifact>, string>)
    ensures r.Success? <==> Distinct(KeysOf(toCache))
    ensures r.Success? ==> forall k :: k in r.value <==> k in KeysOf(toCache)
    ensures r.Success? ==> forall i :: 0 <= i < |toCache| ==> r.value[KeysOf(toCache)[i]] == toCache[i]
    ensures r.Failure? ==> exists i, j :: 0 <= i < j < |toCache| && KeysOf(toCache)[i] == r.error && KeysOf(toCache)[j] == r.error
  {
    IndexBy(toCache, KeysOf(toCache))
  }

  /** `toImmutableMap` over artifacts with the given keys, in order. */
  function IndexBy(arts: seq<Artifact>, keys: seq<string>): (r: Result<map<string, Artifact>, string>)
    requires |keys| == |arts|
    ensures r.Success? <==> Distinct(keys)
    ensures r.Success? ==> forall k :: k in r.value <==> k in keys
    ensures r.Success? ==> forall i :: 0 <= i < |arts| ==> r.value[keys[i]] == arts[i]
    ensures r.Failure? ==> exists i, j :: 0 <= i < j < |keys| && keys[i] == r.error && keys[j] == r.error
  {
    if arts == [] then Success(map[])
    else
      var n := |arts| - 1;
      assert keys == keys[..n] + [keys[n]];
      match IndexBy(arts[..n], keys[..n])
      case Failure(k) => Failure(k)
      case Success(m) => if keys[n] in m then Failure(keys[n]) else Success(m[keys[n] := arts[n]])
  }

  /**
   * `readCachedFiles()`: empty when the listing is null, otherwise one entry per file in the
   * directory, from its name to the file.
   */
  function ReadCachedFiles(cacheDir: string, listing: Option<set<string>>): (r: map<string, File>)
    ensures listing.None? ==> r == map[]
    ensures listing.Some? ==> r.Keys == listing.value
    ensures NamedByKey(r, cacheDir)
  {
    match listing
    case None => map[]
    case Some(names) => map n | n in names :: File(cacheDir, n)
  }

  /** Every entry of an index is the file in the cache directory named by its key. */
  ghost predicate NamedByKey(index: map<string, File>, cacheDir: string)
  {
    forall k :: k in index ==> index[k] == File(cacheDir, k)
  }

  /** `removed`: the cached files whose key the differ did not report. */
  function Removed(cached: map<string, File>, updated: map<string, Artifact>): (r: set<File>)
    ensures forall f :: f in r <==> exists k :: k in cached && k !in updated && cached[k] == f
  {
    set k | k in cached && k !in updated :: cached[k]
  }

  /** The index published after a completed batch: `{k -> new File(cacheDir, k)}`. */
  function PublishedIndex(cacheDir: string, keys: set<string>): (r: map<string, File>)
    ensures r.Keys == keys && NamedByKey(r, cacheDir)
  {
    map k | k in keys :: File(cacheDir, k)
  }

  // ---------------------------------------------------------------------------
  // Transfer units

  /** How one copy or delete unit ends. */
  datatype UnitEvent = Completes | ThrowsIOException | ThrowsUnchecked

  /** How the future of one unit ends. */
  datatype FutureResult = Succeeded | Failed

  /** A unit catches its IOException, so only an unchecked exception fails its future. */
  function FutureOf(e: UnitEvent): (r: FutureResult)
    ensures r == Failed <==> e == ThrowsUnchecked
  {
    if e == ThrowsUnchecked then Failed else Succeeded
  }

  /** Some unit of the batch, over the given keys, fails its future. */
  predicate SomeFails<K>(keys: set<K>, event: K -> UnitEvent)
  {
    exists k :: k in keys && FutureOf(event(k)) == Failed
  }

  /** Running one more unit fails the batch exactly when it or an earlier one fails. */
  lemma SomeFailsStep<K>(keys: set<K>, k: K, event: K -> UnitEvent)
    ensures SomeFails(keys + {k}, event) <==> SomeFails(keys, event) || FutureOf(event(k)) == Failed
  {
    if FutureOf(event(k)) == Failed {
      assert k in keys + {k};
    }
  }

  /** The copy unit for `f`'s name exists and completes, so it writes `f`. */
  predicate Copies(cacheDir: string, updated: map<string, Artifact>, event: string -> UnitEvent, f: File)
  {
    f.dir == cacheDir && f.name in updated && event(f.name) == Completes
  }

  /** The files the completed copy units wrote, with the bytes each wrote. */
  function Written(cacheDir: string, updated: map<string, Artifact>, event: string -> UnitEvent): (w: map<File, Bytes>)
    ensures forall f :: f in w <==> Copies(cacheDir, updated, event, f)
    ensures forall f :: Copies(cacheDir, updated, event, f) ==> f in w && w[f] == updated[f.name].data
  {
    var written := set k | k in updated && event(k) == Completes :: File(cacheDir, k);
    assert forall f :: f in written <==> Copies(cacheDir, updated, event, f);
    map f | f in written :: updated[f.name].data
  }

  /** The files after the copy units: each completed copy wrote `cacheDir/key`, replacing it. */
  function AfterCopies(files: map<File, Bytes>, cacheDir: string, updated: map<string, Artifact>,
                       event: string -> UnitEvent): (r: map<File, Bytes>)
    ensures forall f :: f in r <==> f in files || Copies(cacheDir, updated, event, f)
    ensures forall f :: f in r ==> r[f] == if Copies(cacheDir, updated, event, f) then updated[f.name].data else files[f]
  {
    files + Written(cacheDir, updated, event)
  }

  /** The files after the delete units: each completed delete removed its file if it was there. */
  function AfterDeletes(files: map<File, Bytes>, removed: set<File>, event: File -> UnitEvent): (r: map<File, Bytes>)
    ensures forall f :: f in r <==> f in files && !(f in removed && event(f) == Completes)
    ensures forall f :: f in r ==> r[f] == files[f]
  {
    files - set f | f in removed && event(f) == Completes
  }

  /** Copying one more entry adds that entry's file to the written ones, if it completes. */
  lemma WrittenStep(cacheDir: string, done: map<string, Artifact>, k: string, a: Artifact, event: string -> UnitEvent)
    requires k !in done
    ensures Written(cacheDir, done[k := a], event) ==
      if event(k) == Completes then Written(cacheDir, done, event)[File(cacheDir, k) := a.data]
      else Written(cacheDir, done, event)
  {
    var before, after := Written(cacheDir, done, event), Written(cacheDir, done[k := a], event);
    var expected := if event(k) == Completes then before[File(cacheDir, k) := a.data] else before;
    forall f
      ensures f in after <==> f in expected
      ensures f in after ==> after[f] == expected[f]
    {
      assert Copies(cacheDir, done[k := a], event, f) <==>
        Copies(cacheDir, done, event, f) || (f == File(cacheDir, k) && event(k) == Completes);
    }
  }

  /** Copying one more entry extends the copied files by that entry's file, if it completes. */
  lemma AfterCopiesStep(files: map<File, Bytes>, cacheDir: string, done: map<string, Artifact>,
                        k: string, a: Artifact, event: string -> UnitEvent)
    requires k !in done
    ensures AfterCopies(files, cacheDir, done[k := a], event) ==
      if event(k) == Completes then AfterCopies(files, cacheDir, done, event)[File(cacheDir, k) := a.data]
      else AfterCopies(files, cacheDir, done, event)
  {
    WrittenStep(cacheDir, done, k, a, event);
    var w := Written(cacheDir, done, event);
    if event(k) == Completes {
      MergeUpdate(files, w, File(cacheDir, k), a.data);
    }
  }

  lemma MergeUpdate<K, V>(m: map<K, V>, w: map<K, V>, x: K, v: V)
    ensures m + w[x := v] == (m + w)[x := v]
  {
  }

  /**
   * The state of `copyLocally` after the entries outside `remaining` have been copied. Before
   * the first unit nothing is copied; taking one more key `k` out of `remaining` adds its copy.
   */
  lemma CopiesStart(files: map<File, Bytes>, cacheDir: string, updated: map<string, Artifact>, event: string -> UnitEvent)
    ensures AfterCopies(files, cacheDir, updated - updated.Keys, event) == files
    ensures !SomeFails(updated.Keys - updated.Keys, event)
    ensures updated - {} == updated && updated.Keys - {} == updated.Keys
  {
    assert updated - updated.Keys == map[];
  }

  lemma CopiesStep(files: map<File, Bytes>, cacheDir: string, updated: map<string, Artifact>,
                   remaining: set<string>, k: string, event: string -> UnitEvent)
    requires k in remaining && remaining <= updated.Keys
    ensures AfterCopies(files, cacheDir, updated - (remaining - {k}), event) ==
      if event(k) == Completes
      then AfterCopies(files, cacheDir, updated - remaining, event)[File(cacheDir, k) := updated[k].data]
      else AfterCopies(files, cacheDir, updated - remaining, event)
    ensures SomeFails(updated.Keys - (remaining - {k}), event) <==>
      SomeFails(updated.Keys - remaining, event) || FutureOf(event(k)) == Failed
  {
    assert updated - (remaining - {k}) == (updated - remaining)[k := updated[k]];
    AfterCopiesStep(files, cacheDir, updated - remaining, k, updated[k], event);
    assert updated.Keys - (remaining - {k}) == (updated.Keys - remaining) + {k};
    SomeFailsStep(updated.Keys - remaining, k, event);
  }

  /** The state of `deleteCacheFiles` after the files outside `remaining` have been deleted. */
  lemma DeletesStart(files: map<File, Bytes>, removed: set<File>, event: File -> UnitEvent)
    ensures AfterDeletes(files, removed - removed, event) == files
    ensures !SomeFails(removed - removed, event)
    ensures removed - {} == removed
  {
    assert removed - removed == {};
  }

  lemma DeletesStep(files: map<File, Bytes>, removed: set<File>, remaining: set<File>, f: File, event: File -> UnitEvent)
    requires f in remaining && remaining <= removed
    ensures AfterDeletes(files, removed - (remaining - {f}), event) ==
      if event(f) == Completes then AfterDeletes(files, removed - remaining, event) - {f}
      else AfterDeletes(files, removed - remaining, event)
    ensures SomeFails(removed - (remaining - {f}), event) <==>
      SomeFails(removed - remaining, event) || FutureOf(event(f)) == Failed
  {
    assert removed - (remaining - {f}) == (removed - remaining) + {f};
    AfterDeletesStep(files, removed - remaining, f, event);
    SomeFailsStep(removed - remaining, f, event);
  }

  /** Deleting one more file removes it from the remaining files, if it completes. */
  lemma AfterDeletesStep(files: map<File, Bytes>, done: set<File>, f: File, event: File -> UnitEvent)
    ensures AfterDeletes(files, done + {f}, event) ==
      if event(f) == Completes then AfterDeletes(files, done, event) - {f} else AfterDeletes(files, done, event)
  {
    var after := AfterDeletes(files, done + {f}, event);
    var expected := if event(f) == Completes then AfterDeletes(files, done, event) - {f} else AfterDeletes(files, done, event);
    assert after.Keys == expected.Keys;
  }

  // ---------------------------------------------------------------------------
  // The whole update

  /** `FileCacheDiffer.findUpdatedOutputs(newState, cachedFiles, previousOutputs)`; not modelled. */
  type Differ = (map<string, Artifact>, map<string, File>, RemoteOutputs) -> map<string, Artifact>

  /** What the world decides during one update. */
  datatype Environment = Environment(
    mkdirsSucceeds: bool,
    copyEvent: string -> UnitEvent,
    deleteEvent: File -> UnitEvent,
    waitInterrupted: bool)

  /** How an update ends. */
  datatype UpdateResult =
    | Completed
    | DuplicateKeyThrown(key: string)   // toImmutableMap's IllegalArgumentException escapes
    | DirectoryNotCreated               // error issue, context has an error
    | Interrupted                       // context cancelled
    | ExecutionFailed                   // warning issue

  datatype UpdateStep = UpdateStep(result: UpdateResult, index: map<string, File>, disk: DiskState)

  /** The intermediate values of one update. */
  datatype Plan = Plan(listed: map<string, File>, updated: map<string, Artifact>, removed: set<File>)

  function PlanOf(cacheDir: string, disk: DiskState, newState: map<string, Artifact>,
                  previous: RemoteOutputs, differ: Differ): Plan
  {
    var listed := ReadCachedFiles(cacheDir, Listing(disk, cacheDir));
    var updated := differ(newState, listed, previous);
    Plan(listed, updated, Removed(listed, updated))
  }

  predicate BatchFails(p: Plan, env: Environment)
  {
    SomeFails(p.updated.Keys, env.copyEvent) || SomeFails(p.removed, env.deleteEvent)
  }

  /** The disk once every unit of the batch has run. */
  function Transferred(cacheDir: string, disk: DiskState, p: Plan, env: Environment): DiskState
  {
    DiskState(disk.dirs + {cacheDir},
              AfterDeletes(AfterCopies(disk.files, cacheDir, p.updated, env.copyEvent), p.removed, env.deleteEvent))
  }

  /** One run of the private `updateCache`, from the index and disk before it. */
  function UpdateSpec(cacheDir: string, index: map<string, File>, disk: DiskState, toCache: seq<Artifact>,
                      previous: RemoteOutputs, differ: Differ, env: Environment): UpdateStep
  {
    match NewState(toCache)
    case Failure(k) => UpdateStep(DuplicateKeyThrown(k), index, disk)
    case Success(newState) => UpdateWith(cacheDir, index, disk, newState, previous, differ, env)
  }

  /** The part of an update after the new state is built: directory, batch, wait, publish. */
  function UpdateWith(cacheDir: string, index: map<string, File>, disk: DiskState, newState: map<string, Artifact>,
                      previous: RemoteOutputs, differ: Differ, env: Environment): UpdateStep
  {
    var p := PlanOf(cacheDir, disk, newState, previous, differ);
    if cacheDir !in disk.dirs && !env.mkdirsSucceeds then UpdateStep(DirectoryNotCreated, index, disk)
    else
      var disk' := Transferred(cacheDir, disk, p, env);
      if env.waitInterrupted then UpdateStep(Interrupted, index, disk')
      else if BatchFails(p, env) then UpdateStep(ExecutionFailed, index, disk')
      else UpdateStep(Completed, PublishedIndex(cacheDir, newState.Keys), disk')
  }

  // ---------------------------------------------------------------------------
  // Properties of one update

  /**
   * The delete list is exactly the files of the cache directory whose name the differ did not
   * report, so no file is both copied and deleted.
   */
  lemma PlanDisjoint(cacheDir: string, disk: DiskState, newState: map<string, Artifact>,
                     previous: RemoteOutputs, differ: Differ)
    ensures var p := PlanOf(cacheDir, disk, newState, previous, differ);
      && (forall f :: f in p.removed <==>
            cacheDir in disk.dirs && f.dir == cacheDir && f in disk.files && f.name !in p.updated)
      && (forall k :: k in p.updated ==> File(cacheDir, k) !in p.removed)
  {
    var p := PlanOf(cacheDir, disk, newState, previous, differ);
    forall f: File | cacheDir in disk.dirs && f.dir == cacheDir && f in disk.files && f.name !in p.updated
      ensures f in p.removed
    {
      assert f == File(cacheDir, f.name);
      assert f.name in p.listed;
    }
  }

  /**
   * An update completes exactly when the new state has no repeated key, the directory exists
   * or is created, the wait is not interrupted and no unit throws an unchecked exception;
   * copies and deletes that fail with an IOException do not stop it.
   */
  lemma CompletesIff(cacheDir: string, index: map<string, File>, disk: DiskState, toCache: seq<Artifact>,
                     previous: RemoteOutputs, differ: Differ, env: Environment)
    ensures var s := UpdateSpec(cacheDir, index, disk, toCache, previous, differ, env);
      s.result == Completed <==>
        && NewState(toCache).Success?
        && (cacheDir in disk.dirs || env.mkdirsSucceeds)
        && !env.waitInterrupted
        && (forall k :: k in PlanOf(cacheDir, disk, NewState(toCache).value, previous, differ).updated ==>
              env.copyEvent(k) != ThrowsUnchecked)
        && (forall f :: f in PlanOf(cacheDir, disk, NewState(toCache).value, previous, differ).removed ==>
              env.deleteEvent(f) != ThrowsUnchecked)
  {
  }

  /**
   * After a completed update the index holds exactly the cache keys of `toCache`, each mapped
   * to `cacheDir/key`, whether or not that key was copied; on every other exit the index is
   * the one before the update.
   */
  lemma PublishedIndexIsNewState(cacheDir: string, index: map<string, File>, disk: DiskState, toCache: seq<Artifact>,
                                 previous: RemoteOutputs, differ: Differ, env: Environment)
    ensures var s := UpdateSpec(cacheDir, index, disk, toCache, previous, differ, env);
      && (s.result == Completed ==>
            && (forall k :: k in s.index <==> k in KeysOf(toCache))
            && (forall k :: k in s.index ==> s.index[k] == File(cacheDir, k)))
      && (s.result != Completed ==> s.index == index)
  {
    match NewState(toCache)
    case Failure(_) =>
    case Success(newState) =>
      UpdateWithIndex(cacheDir, index, disk, newState, previous, differ, env);
  }

  /** After a completed update the index is the published one; otherwise it is unchanged. */
  lemma UpdateWithIndex(cacheDir: string, index: map<string, File>, disk: DiskState, newState: map<string, Artifact>,
                        previous: RemoteOutputs, differ: Differ, env: Environment)
    ensures var s := UpdateWith(cacheDir, index, disk, newState, previous, differ, env);
      s.index == if s.result == Completed then PublishedIndex(cacheDir, newState.Keys) else index
  {
  }

  /** An index named by its keys stays so across an update, whatever the outcome. */
  lemma UpdateKeepsNaming(cacheDir: string, index: map<string, File>, disk: DiskState, toCache: seq<Artifact>,
                          previous: RemoteOutputs, differ: Differ, env: Environment)
    requires NamedByKey(index, cacheDir)
    ensures NamedByKey(UpdateSpec(cacheDir, index, disk, toCache, previous, differ, env).index, cacheDir)
  {
  }

  /**
   * A repeated key or a directory that cannot be created leaves the disk as it was; on every
   * later exit all units have run, completed transfers are not rolled back, and the directory
   * exists.
   */
  lemma DiskEffect(cacheDir: string, index: map<string, File>, disk: DiskState, toCache: seq<Artifact>,
                   previous: RemoteOutputs, differ: Differ, env: Environment)
    ensures var s := UpdateSpec(cacheDir, index, disk, toCache, previous, differ, env);
      && (s.result.DuplicateKeyThrown? || s.result.DirectoryNotCreated? ==> s.disk == disk)
      && (s.result.Completed? || s.result.Interrupted? || s.result.ExecutionFailed? ==>
            s.disk == Transferred(cacheDir, disk, PlanOf(cacheDir, disk, NewState(toCache).value, previous, differ), env))
  {
  }

  /**
   * After the batch, a file of the cache directory is there exactly when its copy completed,
   * or it was there before and was not deleted; a completed copy holds the artifact's bytes.
   * The delete list filters on what the differ reported, so a file that the new state still
   * wants but the differ did not report is deleted (when its delete completes).
   */
  lemma TransferredFiles(cacheDir: string, disk: DiskState, newState: map<string, Artifact>,
                         previous: RemoteOutputs, differ: Differ, env: Environment, f: File)
    requires f.dir == cacheDir
    ensures var p := PlanOf(cacheDir, disk, newState, previous, differ);
      var after := Transferred(cacheDir, disk, p, env).files;
      && (f in after <==>
            || (f.name in p.updated && env.copyEvent(f.name) == Completes)
            || (f in disk.files && !(cacheDir in disk.dirs && f.name !in p.updated && env.deleteEvent(f) == Completes)))
      && (f.name in p.updated && env.copyEvent(f.name) == Completes ==> after[f] == p.updated[f.name].data)
  {
    PlanDisjoint(cacheDir, disk, newState, previous, differ);
    assert f == File(cacheDir, f.name);
  }

  /**
   * The index can name a file that the same update deleted: a wanted key that is on disk but
   * not reported by the differ is published while its file is gone.
   */
  lemma UnreportedWantedFileIsDeleted(cacheDir: string, index: map<string, File>, disk: DiskState,
                                      toCache: seq<Artifact>, previous: RemoteOutputs, differ: Differ,
                                      env: Environment, k: string)
    requires NewState(toCache).Success?
    requires k in KeysOf(toCache) && cacheDir in disk.dirs && File(cacheDir, k) in disk.files
    requires k !in PlanOf(cacheDir, disk, NewState(toCache).value, previous, differ).updated
    requires env.deleteEvent(File(cacheDir, k)) == Completes
    ensures var s := UpdateSpec(cacheDir, index, disk, toCache, previous, differ, env);
      s.result == Completed ==> k in s.index && s.index[k] == File(cacheDir, k) && File(cacheDir, k) !in s.disk.files
  {
    TransferredFiles(cacheDir, disk, NewState(toCache).value, previous, differ, env, File(cacheDir, k));
    PublishedIndexIsNewState(cacheDir, index, disk, toCache, previous, differ, env);
    DiskEffect(cacheDir, index, disk, toCache, previous, differ, env);
  }
}
