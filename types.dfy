/** Values shared by the pruning model: package versions, manifest documents,
    the errors that end a run, the observable events of a run, and the remote
    services (package API and container registry) as oracles. */
module Types {

  datatype Option<+T> = None | Some(value: T)

  /** A step that either yields a value or raises one of the run's errors. */
  datatype Result<+T> = Ok(value: T) | Err(error: PruneError)

  /** Instants in microseconds, the resolution at which creation times are
      compared with the cutoff. */
  type Timestamp = int

  /** Content digest of a manifest, used as the version's `name`. */
  type Digest = string

  /** Numeric identifier of a package version, used in the delete URL. */
  type VersionId = int

  /** One entry of a container package's version list. */
  datatype Version = Version(id: VersionId, name: Digest, created: Timestamp, tags: seq<string>)

  /** One element of a manifest list's `manifests` array; only its digest is read. */
  datatype Descriptor = Descriptor(digest: Digest)

  /** A parsed manifest document: an image index / manifest list (it has a
      `manifests` array) or a single-platform image manifest (it has none). */
  datatype Manifest = Index(manifests: seq<Descriptor>) | Single

  /** Reply to the version-list request: the versions, or a non-success status. */
  datatype Listing = Page(versions: seq<Version>) | Refused(status: int)

  /** The errors that abort a run. */
  datatype PruneError =
    | UnknownContainer(container: string)
    | HttpError(status: int)
    | ManifestUnavailable(repo: string, reference: Digest)
    | InsufficientPrivileges(version: Digest)

  /** What a run does that can be observed: the lines it prints and the
      DELETE requests it issues, in order. */
  datatype Event =
    | Pruning(container: string)                        // "Pruning images of <container>..."
    | Header(dryRun: bool)                              // "  Would delete:" or "  Deleted:"
    | Listed(name: Digest)                              // "  <digest>"
    | DeleteRequest(container: string, id: VersionId)   // DELETE .../container/<container>/versions/<id>

  /** The remote services. Each field answers one kind of request:
      - listVersions(container): the version-list GET of the package API;
      - manifest(repo, reference): the registry's manifest GET, None when that
        request (or the token exchange before it) fails or its body is not JSON;
      - deleteStatus(container, id): the status returned by the DELETE of a version;
      - probeStatus(container, id): the status of the GET on the same URL that
        follows a 404 from that DELETE. */
  datatype Api = Api(
    listVersions: string -> Listing,
    manifest: (string, Digest) -> Option<Manifest>,
    deleteStatus: (string, VersionId) -> int,
    probeStatus: (string, VersionId) -> int)

  /** A response status that the HTTP client does not treat as an error
      (client and server errors are 400 through 599). */
  predicate IsOk(status: int)
  {
    !(400 <= status < 600)
  }

  /** The set of elements of a list. */
  function Elems<T>(s: seq<T>): set<T>
  {
    set x | x in s
  }
}
