/**
 * The selection pipeline of the public `updateCache`: every provider's chosen locations,
 * kept when generated and found among the remote outputs, resolved to artifacts and
 * collected into a set (here: a sequence without repeats, in the order first met).
 */
module CacheSelection {
  import opened Outputs

  /**
   * An `OutputsProvider.selectOutputsToCache`, given the remote outputs, the target map and
   * the language settings (both of which only the providers look at).
   */
  type Provider<!T, !L> = (RemoteOutputs, T, L) -> seq<Location>

  /** The `flatMap` over all providers. */
  function Selected<T, L>(providers: seq<Provider<T, L>>, outputs: RemoteOutputs, targetMap: T, settings: L)
    : (r: seq<Location>)
    ensures forall loc :: loc in r <==>
      exists i :: 0 <= i < |providers| && loc in providers[i](outputs, targetMap, settings)
  {
    if providers == [] then []
    else providers[0](outputs, targetMap, settings) + Selected(providers[1..], outputs, targetMap, settings)
  }

  /** Passes `filter(ArtifactLocation::isGenerated)` and then `filter(Objects::nonNull)`. */
  predicate Cacheable(outputs: RemoteOutputs, loc: Location)
  {
    loc.isGenerated && FindRemoteOutput(outputs, loc).Some?
  }

  /** `filter(isGenerated).distinct().map(findRemoteOutput).filter(nonNull).collect(toImmutableSet())`. */
  function Collect(locs: seq<Location>, outputs: RemoteOutputs): (r: seq<Artifact>)
    ensures Distinct(r)
    ensures forall a :: a in r <==>
      exists k :: 0 <= k < |locs| && Cacheable(outputs, locs[k]) && outputs[locs[k]] == a
  {
    if locs == [] then []
    else
      var r := Collect(locs[..|locs| - 1], outputs);
      var loc := locs[|locs| - 1];
      if Cacheable(outputs, loc) && outputs[loc] !in r then r + [outputs[loc]] else r
  }

  /** Some provider chose a generated location that the remote outputs resolve to `a`. */
  predicate Chosen<T, L>(providers: seq<Provider<T, L>>, outputs: RemoteOutputs, targetMap: T, settings: L, a: Artifact)
  {
    exists i, loc :: 0 <= i < |providers| && loc in providers[i](outputs, targetMap, settings)
      && Cacheable(outputs, loc) && outputs[loc] == a
  }

  /** `toCache`: exactly the artifacts some provider chose, each once. */
  function ToCache<T, L>(providers: seq<Provider<T, L>>, outputs: RemoteOutputs, targetMap: T, settings: L)
    : (r: seq<Artifact>)
    ensures Distinct(r)
    ensures forall a :: a in r <==> Chosen(providers, outputs, targetMap, settings, a)
  {
    SelectedCacheable(providers, outputs, targetMap, settings);
    Collect(Selected(providers, outputs, targetMap, settings), outputs)
  }

  /** What `Collect` keeps from the flattened selection is exactly what some provider chose. */
  lemma SelectedCacheable<T, L>(providers: seq<Provider<T, L>>, outputs: RemoteOutputs, targetMap: T, settings: L)
    ensures forall a :: a in Collect(Selected(providers, outputs, targetMap, settings), outputs) <==>
      Chosen(providers, outputs, targetMap, settings, a)
  {
    var sel := Selected(providers, outputs, targetMap, settings);
    forall a | Chosen(providers, outputs, targetMap, settings, a)
      ensures a in Collect(sel, outputs)
    {
      var i, loc :| 0 <= i < |providers| && loc in providers[i](outputs, targetMap, settings)
        && Cacheable(outputs, loc) && outputs[loc] == a;
      assert loc in sel;
      var k :| 0 <= k < |sel| && sel[k] == loc;
    }
    forall a | a in Collect(sel, outputs)
      ensures Chosen(providers, outputs, targetMap, settings, a)
    {
      var k :| 0 <= k < |sel| && Cacheable(outputs, sel[k]) && outputs[sel[k]] == a;
      assert sel[k] in sel;
      var i :| 0 <= i < |providers| && sel[k] in providers[i](outputs, targetMap, settings);
    }
  }
}
