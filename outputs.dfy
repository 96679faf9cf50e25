/**
 * Remote output artifacts, artifact locations and the lookup from one to the other
 * (`RemoteOutputArtifact`, `ArtifactLocation`, `RemoteOutputArtifacts`).
 */
module Outputs {
  import opened Wrappers
  import opened FileSystem

  /** A remote output: its `getKey()` and the bytes its input stream yields. */
  datatype Artifact = Artifact(key: string, data: Bytes)

  /** An artifact location: a path and whether it names a generated output. */
  datatype Location = Location(relativePath: string, isGenerated: bool)

  /** `RemoteOutputArtifacts`, seen through `findRemoteOutput`: a finite lookup. */
  type RemoteOutputs = map<Location, Artifact>

  /** `outputs.findRemoteOutput(location)`, null becoming `None`. */
  function FindRemoteOutput(outputs: RemoteOutputs, loc: Location): (r: Option<Artifact>)
    ensures r.Some? <==> loc in outputs
    ensures r.Some? ==> r.value == outputs[loc]
  {
    if loc in outputs then Some(outputs[loc]) else None
  }

  /** No element occurs twice: what makes a sequence the iteration order of a set. */
  predicate Distinct<T(==)>(s: seq<T>)
  {
    forall i, j :: 0 <= i < j < |s| ==> s[i] != s[j]
  }
}
