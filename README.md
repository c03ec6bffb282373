# ghcr_prune: retention and deletion of container-image versions

`ghcr_prune.py` removes old, untagged versions of container packages on the
GitHub Container Registry. For each container it does four things:

1. It fetches the package's version list.
2. It computes a *keep set* of digests that must survive (`keep_versions`):
   - a version created before the cutoff that carries a tag keeps its own
     digest and the platform digests of its manifest list;
   - a version created in the hour after the cutoff keeps its platform
     digests, which covers multi-platform pushes still in progress.
3. It walks the versions in ascending id order. Every version created before
   the cutoff whose digest is not kept is listed under a one-time header and,
   unless dry-running, deleted.
4. If a request fails, or a delete is refused, an exception is raised and the
   whole run stops.

The model is split into five modules:

- `Types` holds the data:
  - version records;
  - manifest documents (`Index` with a `manifests` array, or `Single`);
  - the errors that end a run;
  - the observable events of a run: the printed lines and the DELETE
    requests, in order;
  - `Api`, the remote services as oracles: the version-list GET, the
    registry's manifest GET, and the status of a DELETE and of the GET that
    follows a 404.
- `Manifests` extracts platform digests from a manifest
  (`GithubContainer.platform_digests`).
- `Retention` models `keep_versions`:
  - an imperative loop over a mutable set, `KeepVersions`;
  - its specification, a left fold `KeepFrom` of one loop iteration
    `KeepStep`;
  - the lemmas about that fold.
- `Deletion` models the rest of a container's pass:
  - the classification of a DELETE response (`del_package_version`);
  - the sort by id;
  - the candidate filter;
  - the report of printed lines and requests;
  - the deletion loop `DeletePass`, proved equal to the specification
    `PassSpec`.
- `Prune` models the outer loop of `container_prune`:
  - `ContainerPrune` and one iteration of it, `PruneContainer`;
  - their specifications `PruneAll` and `PruneOne`;
  - the end-to-end safety and liveness lemmas.

Timestamps are integers in microseconds, and the grace window is
`3600 * 1000000`. Creation times and the cutoff are compared with a strict
`<`, as in the source. A status is a failure when it is in 400..599, which
is how `resp.ok` and `raise_for_status` of the HTTP client decide.

### Behaviour worth noting

- **The keep set depends on the order of the version list.** Line 149
  reads the set built so far. A grace-window version whose own digest was
  already added by an earlier tagged version does not get its platform
  digests kept. `Retention.OrderMatters` exhibits two orders of the same
  versions that give different keep sets, so the keep set is not the union
  of a per-version decision. The model follows the loop.
- **An error is not confined to its package.** Any error aborts the whole
  run. This covers an unknown container, a failed listing or manifest
  fetch, and a refused or failed delete. The containers after the failing
  one are never listed (`Prune.RunAll`, `Prune.VisitsInOrder`).
- **Tags are not checked again at deletion.** The deletion loop tests only
  the creation time and keep-set membership. Tagged versions are protected
  solely through the keep set, and `Prune.TaggedNeverDeleted` proves that
  this suffices.

## Model

| member | source | states |
|---|---|---|
| Manifests.DigestsOf | ghcr_prune.py:122 | the result has one digest per `manifests` entry, in document order |
| Manifests.PlatformDigests | ghcr_prune.py:121-125 | a document without a `manifests` array gives no digests; a manifest list gives the digest of each entry, in order |
| Manifests.FetchPlatformDigests | ghcr_prune.py:118-120 | succeeds exactly when the manifest can be fetched, with that manifest's platform digests; otherwise raises an error naming repository and reference |
| Retention.KeepStep | ghcr_prune.py:141-150 | one iteration never shrinks the set; an old tagged version adds its digest and its platform digests; a grace-window version not yet kept adds its platform digests; nothing else is added; a version outside both windows, or a grace-window version already kept, leaves the set unchanged without a fetch; the iteration fails exactly when one of the first two branches fetches a manifest and the fetch fails |
| Retention.KeepVersions | ghcr_prune.py:138-151 | the loop computes the fold of the iteration over the list from the empty set, stopping at the first failed fetch; an empty list yields the empty set |
| Retention.KeepSplit | ghcr_prune.py:140-150 | running the loop over a list is running it over a prefix and then over the rest from the set the prefix built |
| Retention.KeepGrows | ghcr_prune.py:139-151 | the keep set only grows during the loop |
| Retention.TaggedKept | ghcr_prune.py:144-147 | for every old tagged version in the list, its manifest is fetched, and its digest and all its platform digests are in the final keep set |
| Retention.GraceKept | ghcr_prune.py:148-150 | a grace-window version whose digest is not yet kept when the loop reaches it has all its platform digests in the final keep set |
| Retention.GraceSkipped | ghcr_prune.py:148-150 | a grace-window version whose digest the versions before it already keep can be removed from the list without changing the outcome of the loop |
| Retention.Early | ghcr_prune.py:148 | keeps exactly the versions created before the end of the grace window |
| Retention.LateIgnored | ghcr_prune.py:143-150 | versions created at or after the end of the grace window do not affect the outcome |
| Retention.KeepSound | ghcr_prune.py:139-151 | every digest the loop adds is the digest of an old tagged version or a platform digest of an old tagged or grace-window version |
| Retention.KeepOnlyJustified | ghcr_prune.py:139-151 | the keep set of a list holds only such justified digests, so a non-empty keep set needs a non-empty list |
| Retention.OrderMatters | ghcr_prune.py:148-150 | two orders of the same two versions give different keep sets: reading the partial set makes the decision order-dependent |
| Deletion.ClassifyDelete | ghcr_prune.py:129-135 | insufficient privileges exactly on 403 or on 404 with a successful follow-up GET; no error exactly on a success status; every other failure is an HTTP error carrying the DELETE status |
| Deletion.DelPackageVersion | ghcr_prune.py:126-135 | the failure it returns is exactly the classification of the DELETE status and, after a 404, of the follow-up GET's status |
| Deletion.InsertSorted | ghcr_prune.py:191 | inserting into a list sorted by id keeps it sorted |
| Deletion.InsertPerm | ghcr_prune.py:191 | inserting adds exactly the inserted version |
| Deletion.SortByIdSpec | ghcr_prune.py:191 | the versions come out in ascending id order, as a permutation of the input |
| Deletion.CandidatesSpec | ghcr_prune.py:193-194 | a version is a candidate exactly when it is in the list, was created before the cutoff and its digest is not kept; each qualifying version is a candidate as often as it occurs in the list, and no other is |
| Deletion.CandidatesAppend | ghcr_prune.py:191-194 | filtering a concatenation filters each part, so the candidates keep the list's order |
| Deletion.CandidatesSorted | ghcr_prune.py:191-194 | filtering a list sorted by id leaves it sorted |
| Deletion.SortedMembers | ghcr_prune.py:191-194 | the candidates of the sorted list are exactly the qualifying versions of the input |
| Deletion.SortedCandidates | ghcr_prune.py:191-194 | the candidates visited are exactly the qualifying versions of the input, in ascending id order, each as often as it occurs in the input; so a completed pass's `del_cnt` is the number of qualifying versions |
| Deletion.BlocksNoHeader | ghcr_prune.py:196-203 | the lines for the candidates contain no header |
| Deletion.BlocksListed | ghcr_prune.py:197 | each candidate's digest is printed once, in order |
| Deletion.BlocksRequests | ghcr_prune.py:198-203 | each candidate is deleted, in order, unless dry-running, and nothing is deleted in a dry run |
| Deletion.ReportShape | ghcr_prune.py:195-203 | the header is printed exactly once, first, and only when there is a candidate; the digests printed and the deletes requested are those of the candidates, in order |
| Deletion.FirstFailure | ghcr_prune.py:199-203 | the index of the first candidate whose delete fails: every earlier delete succeeds, and the delete at that index fails |
| Deletion.PassOutcome | ghcr_prune.py:191-204 | a pass ends without error exactly in a dry run or when every delete succeeds, and then `del_cnt` counts every candidate; otherwise it stops at the first failing delete, with that error, after printing and requesting the candidates up to it |
| Deletion.CompletedPassShows | ghcr_prune.py:195-203 | a pass that ends without error has printed every candidate's digest, and has requested its deletion unless dry-running |
| Deletion.PassTouchesOnly | ghcr_prune.py:192-203 | the pass prints only digests of candidates, and requests deletion only of candidates, never in a dry run |
| Deletion.PassInIdOrder | ghcr_prune.py:191-203 | the printed digests and the requested deletes are those of a prefix of the candidates, in ascending id order: all of them, or up to the one whose delete failed |
| Deletion.DeletePass | ghcr_prune.py:187-204 | the loop over the sorted versions produces exactly the events, count and error of the pass specification |
| Prune.PruneOneVisits | ghcr_prune.py:176 | pruning a container first announces that container and announces no other |
| Prune.PruneContainer | ghcr_prune.py:175-204 | one iteration of the outer loop: a 404 listing gives the unknown-container error, any other failed listing an HTTP error, then the keep set and the pass |
| Prune.ContainerPrune | ghcr_prune.py:172-204 | the outer loop produces exactly the events and the error of the sequential run, in which the first error ends the run |
| Prune.RunAllNext | ghcr_prune.py:174-204 | one iteration of the outer loop: the next container's error ends the run with the events so far and that container's events; otherwise the run goes on with the rest |
| Prune.RunAllAppend | ghcr_prune.py:174-204 | after a failed container, the containers that follow are never touched; otherwise the run continues with them |
| Prune.FirstFailed | ghcr_prune.py:174-204 | the position of the first container whose pruning fails: every earlier one succeeds, and the one at that position fails |
| Prune.StepVisits | ghcr_prune.py:176 | pruning any container announces that container and no other |
| Prune.RunAllVisits | ghcr_prune.py:174-204 | the containers are announced in order up to and including the first failing one, whose error ends the run; there is no error exactly when none fails |
| Prune.VisitsInOrder | ghcr_prune.py:174-204 | the same facts for `container_prune` itself, with the error being that of the first failing container's pruning |
| Prune.TouchesOnlyCandidates | ghcr_prune.py:189-203 | every printed digest and every requested delete belongs to a version of that container that was created before the cutoff and whose digest is not kept; no delete is requested in a dry run |
| Prune.TaggedNeverDeleted | ghcr_prune.py:189-194 | a tagged version created before the cutoff is never printed or deleted |
| Prune.ReferencedNeverDeleted | ghcr_prune.py:189-194 | a platform image referenced by an old tagged version's manifest list is never printed or deleted, even when untagged and old |
| Prune.UnprotectedDeleted | ghcr_prune.py:191-203 | when a container's pruning completes, every version created before the cutoff whose digest nothing justifies keeping is printed, and deleted unless dry-running |

## Left out

- Authentication is left out: the token exchange and its caching in `GithubContainer.auth` (ghcr_prune.py:86-100). The same goes for the manifest GET with its `Accept` header (ghcr_prune.py:102-116). Both are folded into the oracle `Api.manifest`, which answers None when the request or the token exchange fails, or when the body is not JSON.
- JSON decoding and `dateutil` parsing of `created_at` are left out. So is the conversion of the fractional `--prune-age` in days into a cutoff (ghcr_prune.py:173). Each version's creation time is an integer, and the cutoff is a parameter.
- Argument parsing, the user lookup and the `all` package listing are left out (ghcr_prune.py:157-170). So are the error-message rewriting and the exit codes of the command-line entry point (ghcr_prune.py:207-229). `Prune.ContainerPrune` starts with the owner and the container names already known.
- Pagination is left out. The code reads a single page of at most 100 versions (ghcr_prune.py:179-181), and the model takes that page as the whole list.
- The follow-up GET after a 404 from a DELETE is not recorded as an event. Its status feeds only the classification.
- A `manifests` entry without a `digest` key raises a `KeyError` in the source. That is not modelled: an entry always has a digest.
- `actions_prune.py` is not part of this model.
- Prune.ListingError: a `Refused` listing stands for a failure status. The model does not check that the status carried is one `raise_for_status` rejects.
- Prune.TaggedNeverDeleted: the half about delete requests assumes that version ids identify versions, as the package API guarantees. The list type does not enforce unique ids. The half about printed digests needs no such assumption.
- Prune.ReferencedNeverDeleted: the half about delete requests assumes, in the same way, that version ids identify versions. The half about printed digests needs no such assumption.
- The remote services are one fixed snapshot for the whole run: `Api` answers every request the same way however often it is made, and a DELETE does not change later answers. A container named twice on the command line (ghcr_prune.py:71 accepts any list of names, repeats included) is therefore pruned twice from the same listing, and its DELETE requests are issued again. Against the real registry, the second listing would no longer contain the versions the first pass deleted.
