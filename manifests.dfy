/** The digests of the platform images a manifest list refers to
    (`GithubContainer.platform_digests`). */
module Manifests {
  import opened Types

  /** The `digest` of each entry, in document order. */
  function DigestsOf(entries: seq<Descriptor>): (r: seq<Digest>)
    ensures |r| == |entries|
    ensures forall i :: 0 <= i < |entries| ==> r[i] == entries[i].digest
  {
    if entries == [] then [] else [entries[0].digest] + DigestsOf(entries[1..])
  }

  /** The platform digests of a parsed manifest document: those of its
      `manifests` array, or none when the document has no such array. */
  function PlatformDigests(m: Manifest): (r: seq<Digest>)
    ensures m.Single? ==> r == []
    ensures m.Index? ==> |r| == |m.manifests|
    ensures m.Index? ==> forall i :: 0 <= i < |r| ==> r[i] == m.manifests[i].digest
  {
    match m
    case Index(entries) => DigestsOf(entries)
    case Single => []
  }

  /** Fetches the manifest of `reference` in `repo` and extracts its platform
      digests; a failed fetch raises. */
  function FetchPlatformDigests(api: Api, repo: string, reference: Digest): (r: Result<seq<Digest>>)
    ensures r.Ok? <==> api.manifest(repo, reference).Some?
    ensures r.Ok? ==> r.value == PlatformDigests(api.manifest(repo, reference).value)
    ensures r.Err? ==> r.error == ManifestUnavailable(repo, reference)
  {
    match api.manifest(repo, reference)
    case Some(m) => Ok(PlatformDigests(m))
    case None => Err(ManifestUnavailable(repo, reference))
  }

  /** The digests a reference protects through the registry: its platform
      digests when its manifest can be fetched, nothing otherwise. */
  function Referenced(api: Api, repo: string, reference: Digest): set<Digest>
  {
    match api.manifest(repo, reference)
    case Some(m) => Elems(PlatformDigests(m))
    case None => {}
  }
}
