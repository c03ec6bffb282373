/** One run of `container_prune` over a list of containers, and what it
    guarantees about the images it lists and deletes. */
module Prune {
  import opened Types
  import opened Manifests
  import opened Retention
  import opened Deletion

  /** The registry repository of a container owned by `owner`. */
  function Repository(owner: string, container: string): string
  {
    owner + "/" + container
  }

  /** The error raised when the version list cannot be had. */
  function ListingError(container: string, status: int): PruneError
  {
    if status == 404 then UnknownContainer(container) else HttpError(status)
  }

  /** What a run leaves behind: its events and the error that ended it, if any. */
  datatype RunResult = RunResult(trace: seq<Event>, error: Option<PruneError>)

  /** Pruning one container: announce it, fetch its versions, compute the
      keep set, then run the deletion pass. */
  function PruneOne(api: Api, owner: string, container: string, cutoff: Timestamp, dryRun: bool): RunResult
  {
    match api.listVersions(container)
    case Refused(status) => RunResult([Pruning(container)], Some(ListingError(container, status)))
    case Page(versions) =>
      match KeepFrom(api, Repository(owner, container), versions, cutoff, {})
      case Err(e) => RunResult([Pruning(container)], Some(e))
      case Ok(keep) =>
        var pass := PassSpec(api, container, Candidates(SortById(versions), cutoff, keep), dryRun);
        RunResult([Pruning(container)] + pass.trace, pass.error)
  }

  /** Pruning a container announces it first and no other container after. */
  lemma PruneOneVisits(api: Api, owner: string, container: string, cutoff: Timestamp, dryRun: bool)
    ensures var r := PruneOne(api, owner, container, cutoff, dryRun);
            r.trace != [] && r.trace[0] == Pruning(container) && Visited(r.trace) == [container]
  {
    var announce := [Pruning(container)];
    assert Visited(announce) == [container];
    var listing := api.listVersions(container);
    if listing.Page? {
      var keep := KeepFrom(api, Repository(owner, container), listing.versions, cutoff, {});
      if keep.Ok? {
        var pass := PassSpec(api, container, Candidates(SortById(listing.versions), cutoff, keep.value), dryRun);
        assert PruneOne(api, owner, container, cutoff, dryRun).trace == announce + pass.trace;
        PassVisitsNothing(api, container, Candidates(SortById(listing.versions), cutoff, keep.value), dryRun);
        VisitedAppend(announce, pass.trace);
      }
    }
  }

  /** Pruning, as a function of the container name. */
  function Step(api: Api, owner: string, cutoff: Timestamp, dryRun: bool): string -> RunResult
  {
    container => PruneOne(api, owner, container, cutoff, dryRun)
  }

  /** The containers handled one after another by `step`; the first error
      ends the run, and the containers after it are not handled. */
  function RunAll(step: string -> RunResult, containers: seq<string>): RunResult
  {
    if containers == [] then RunResult([], None)
    else
      var one := step(containers[0]);
      if one.error.Some? then one
      else
        var rest := RunAll(step, containers[1..]);
        RunResult(one.trace + rest.trace, rest.error)
  }

  /** The containers pruned one after another; the first error ends the run. */
  function PruneAll(api: Api, owner: string, containers: seq<string>, cutoff: Timestamp, dryRun: bool): RunResult
  {
    RunAll(Step(api, owner, cutoff, dryRun), containers)
  }

  /** One iteration of the loop of `container_prune`: announce the container,
      fetch its versions (a 404 means an unknown container, any other failure
      status raises), compute the keep set and run the deletion pass. */
  method PruneContainer(api: Api, owner: string, container: string, cutoff: Timestamp, dryRun: bool)
    returns (trace: seq<Event>, error: Option<PruneError>)
    ensures RunResult(trace, error) == PruneOne(api, owner, container, cutoff, dryRun)
  {
    trace, error := [Pruning(container)], None;
    var listing := api.listVersions(container);
    if listing.Refused? {
      error := Some(ListingError(container, listing.status));
      return;
    }
    var keep := KeepVersions(api, Repository(owner, container), listing.versions, cutoff);
    if keep.Err? {
      error := Some(keep.error);
      return;
    }
    var passTrace, delCnt, passError := DeletePass(api, container, listing.versions, cutoff, keep.value, dryRun);
    trace, error := trace + passTrace, passError;
  }

  /** `container_prune` after the owner and the container names are known
      and the cutoff is computed. */
  method ContainerPrune(api: Api, owner: string, containers: seq<string>, cutoff: Timestamp, dryRun: bool)
    returns (trace: seq<Event>, error: Option<PruneError>)
    ensures RunResult(trace, error) == PruneAll(api, owner, containers, cutoff, dryRun)
  {
    ghost var step := Step(api, owner, cutoff, dryRun);
    trace, error := [], None;
    var i := 0;
    while i < |containers|
      invariant 0 <= i <= |containers|
      invariant var rest := RunAll(step, containers[i..]);
                RunAll(step, containers) == RunResult(trace + rest.trace, rest.error)
    {
      RunAllNext(step, containers, i, trace);
      var one, failure := PruneContainer(api, owner, containers[i], cutoff, dryRun);
      assert step(containers[i]) == RunResult(one, failure);
      trace := trace + one;
      if failure.Some? {
        error := failure;
        return;
      }
      i := i + 1;
    }
    assert containers[i..] == [];
    assert trace + [] == trace;
  }

  /** One iteration of the run: handling the next container either ends the
      run with its error or appends its events and goes on with the rest. */
  lemma RunAllNext(step: string -> RunResult, containers: seq<string>, i: nat, trace: seq<Event>)
    requires i < |containers|
    requires var rest := RunAll(step, containers[i..]);
             RunAll(step, containers) == RunResult(trace + rest.trace, rest.error)
    ensures var one := step(containers[i]);
            one.error.Some? ==> RunAll(step, containers) == RunResult(trace + one.trace, one.error)
    ensures var one := step(containers[i]);
            var rest := RunAll(step, containers[i + 1..]);
            one.error.None? ==> RunAll(step, containers) == RunResult(trace + one.trace + rest.trace, rest.error)
  {
    assert containers[i..][0] == containers[i];
    assert containers[i..][1..] == containers[i + 1..];
    var one := step(containers[i]);
    var rest := RunAll(step, containers[i + 1..]);
    assert RunAll(step, containers[i..]) == if one.error.Some? then one else RunResult(one.trace + rest.trace, rest.error);
  }

  /** Once a run has failed, the containers after the failing one are never
      touched; if it has not, the run continues with the remaining ones. */
  lemma {:induction false} RunAllAppend(step: string -> RunResult, containers: seq<string>, more: seq<string>)
    ensures var first := RunAll(step, containers);
            var rest := RunAll(step, more);
            RunAll(step, containers + more) ==
              if first.error.Some? then first else RunResult(first.trace + rest.trace, rest.error)
  {
    if containers == [] {
      assert containers + more == more;
    } else {
      assert (containers + more)[0] == containers[0];
      assert (containers + more)[1..] == containers[1..] + more;
      RunAllAppend(step, containers[1..], more);
    }
  }

  /** The position of the first container whose handling fails, or the
      number of containers when none fails. */
  function FirstFailed(step: string -> RunResult, containers: seq<string>): (k: nat)
    ensures k <= |containers|
    ensures forall j :: 0 <= j < k ==> step(containers[j]).error.None?
    ensures k < |containers| ==> step(containers[k]).error.Some?
  {
    if containers == [] then 0
    else if step(containers[0]).error.Some? then 0
    else 1 + FirstFailed(step, containers[1..])
  }

  /** When each container's handling announces that container alone, a run
      announces the containers in the given order up to and including the
      first one that fails, whose error ends the run; it ends without error
      exactly when no container fails, and then announces all of them. */
  lemma {:induction false} RunAllVisits(step: string -> RunResult, containers: seq<string>)
    requires forall c :: Visited(step(c).trace) == [c]
    ensures var run := RunAll(step, containers);
            var k := FirstFailed(step, containers);
            && (run.error.None? <==> k == |containers|)
            && (k == |containers| ==> Visited(run.trace) == containers)
            && (k < |containers| ==> Visited(run.trace) == containers[..k + 1] && run.error == step(containers[k]).error)
  {
    if containers != [] {
      var one := step(containers[0]);
      var rest := RunAll(step, containers[1..]);
      RunAllVisits(step, containers[1..]);
      VisitedAppend(one.trace, rest.trace);
      var k := FirstFailed(step, containers[1..]);
      if one.error.Some? {
        assert containers[..1] == [containers[0]];
      } else if k < |containers[1..]| {
        assert [containers[0]] + containers[1..][..k + 1] == containers[..k + 2];
      } else {
        assert [containers[0]] + containers[1..] == containers;
      }
    }
  }

  /** Pruning any container announces that container alone. */
  lemma StepVisits(api: Api, owner: string, cutoff: Timestamp, dryRun: bool)
    ensures forall c :: Visited(Step(api, owner, cutoff, dryRun)(c).trace) == [c]
  {
    forall c ensures Visited(Step(api, owner, cutoff, dryRun)(c).trace) == [c] {
      PruneOneVisits(api, owner, c, cutoff, dryRun);
    }
  }

  /** A run of `container_prune` announces the containers in the given order
      up to and including the first one whose pruning fails, and that error
      ends it; it ends without error exactly when no pruning fails, and then
      it has announced every container. */
  lemma VisitsInOrder(api: Api, owner: string, containers: seq<string>, cutoff: Timestamp, dryRun: bool)
    ensures var run := PruneAll(api, owner, containers, cutoff, dryRun);
            var k := FirstFailed(Step(api, owner, cutoff, dryRun), containers);
            && (run.error.None? <==> k == |containers|)
            && (k == |containers| ==> Visited(run.trace) == containers)
            && (k < |containers| ==> Visited(run.trace) == containers[..k + 1]
                                     && run.error == PruneOne(api, owner, containers[k], cutoff, dryRun).error)
  {
    var step := Step(api, owner, cutoff, dryRun);
    StepVisits(api, owner, cutoff, dryRun);
    RunAllVisits(step, containers);
    var k := FirstFailed(step, containers);
    if k < |containers| {
      assert step(containers[k]) == PruneOne(api, owner, containers[k], cutoff, dryRun);
    }
  }

  /** The announcement of a container prints no digest and requests no delete. */
  lemma Announced(container: string, t: seq<Event>)
    ensures ListedNames([Pruning(container)] + t) == ListedNames(t)
    ensures Requests([Pruning(container)] + t) == Requests(t)
  {
    ProjectionsAppend([Pruning(container)], t);
  }

  /** The pass over one container lists and deletes only candidates: versions
      of that container created before the cutoff whose digest is not kept. */
  lemma TouchesOnlyCandidates(api: Api, owner: string, container: string, cutoff: Timestamp, dryRun: bool)
    requires api.listVersions(container).Page?
    ensures var versions := api.listVersions(container).versions;
            var keep := KeepFrom(api, Repository(owner, container), versions, cutoff, {});
            var trace := PruneOne(api, owner, container, cutoff, dryRun).trace;
            forall name :: name in ListedNames(trace) ==>
              keep.Ok? && exists w :: w in versions && w.name == name && IsCandidate(w, cutoff, keep.value)
    ensures var versions := api.listVersions(container).versions;
            var keep := KeepFrom(api, Repository(owner, container), versions, cutoff, {});
            var trace := PruneOne(api, owner, container, cutoff, dryRun).trace;
            forall id :: id in Requests(trace) ==>
              !dryRun && keep.Ok? && exists w :: w in versions && w.id == id && IsCandidate(w, cutoff, keep.value)
  {
    var versions := api.listVersions(container).versions;
    var keep := KeepFrom(api, Repository(owner, container), versions, cutoff, {});
    var trace := PruneOne(api, owner, container, cutoff, dryRun).trace;
    if keep.Ok? {
      var sorted := SortById(versions);
      var cands := Candidates(sorted, cutoff, keep.value);
      var pass := PassSpec(api, container, cands, dryRun);
      assert trace == [Pruning(container)] + pass.trace;
      Announced(container, pass.trace);
      PassTouchesOnly(api, container, cands, dryRun);
      SortedMembers(versions, cutoff, keep.value);
    } else {
      assert trace == [Pruning(container)] + [];
      Announced(container, []);
    }
  }

  /** A version created before the cutoff that carries a tag is never listed
      or deleted; nor is any other version with its digest, and, when
      version ids identify versions, no request deletes it. */
  lemma TaggedNeverDeleted(api: Api, owner: string, container: string, cutoff: Timestamp, dryRun: bool, v: Version)
    requires api.listVersions(container).Page?
    requires v in api.listVersions(container).versions && OldTagged(v, cutoff)
    ensures v.name !in ListedNames(PruneOne(api, owner, container, cutoff, dryRun).trace)
    ensures (forall w :: w in api.listVersions(container).versions && w.id == v.id ==> w.name == v.name) ==>
              v.id !in Requests(PruneOne(api, owner, container, cutoff, dryRun).trace)
  {
    var versions := api.listVersions(container).versions;
    var keep := KeepFrom(api, Repository(owner, container), versions, cutoff, {});
    TouchesOnlyCandidates(api, owner, container, cutoff, dryRun);
    if keep.Ok? {
      TaggedKept(api, Repository(owner, container), versions, cutoff, {}, v);
    }
  }

  /** A platform image referenced by the manifest list of a tagged version
      older than the cutoff is never listed or deleted, even when it is
      itself untagged and older than the cutoff. */
  lemma ReferencedNeverDeleted(api: Api, owner: string, container: string, cutoff: Timestamp, dryRun: bool, v: Version, w: Version)
    requires api.listVersions(container).Page?
    requires v in api.listVersions(container).versions && OldTagged(v, cutoff)
    requires w in api.listVersions(container).versions && w.name in Referenced(api, Repository(owner, container), v.name)
    ensures w.name !in ListedNames(PruneOne(api, owner, container, cutoff, dryRun).trace)
    ensures (forall u :: u in api.listVersions(container).versions && u.id == w.id ==> u.name == w.name) ==>
              w.id !in Requests(PruneOne(api, owner, container, cutoff, dryRun).trace)
  {
    var versions := api.listVersions(container).versions;
    var keep := KeepFrom(api, Repository(owner, container), versions, cutoff, {});
    TouchesOnlyCandidates(api, owner, container, cutoff, dryRun);
    if keep.Ok? {
      TaggedKept(api, Repository(owner, container), versions, cutoff, {}, v);
    }
  }

  /** Conversely, when the pass over a container completes, every version
      created before the cutoff whose digest no tagged or grace-window
      version protects is listed, and deleted unless dry-running. */
  lemma UnprotectedDeleted(api: Api, owner: string, container: string, cutoff: Timestamp, dryRun: bool, w: Version)
    requires PruneOne(api, owner, container, cutoff, dryRun).error.None?
    requires api.listVersions(container).Page?
    requires w in api.listVersions(container).versions && w.created < cutoff
    requires !Justified(api, Repository(owner, container), api.listVersions(container).versions, cutoff, w.name)
    ensures w.name in ListedNames(PruneOne(api, owner, container, cutoff, dryRun).trace)
    ensures !dryRun ==> w.id in Requests(PruneOne(api, owner, container, cutoff, dryRun).trace)
  {
    var versions := api.listVersions(container).versions;
    var repo := Repository(owner, container);
    var keep := KeepFrom(api, repo, versions, cutoff, {});
    assert keep.Ok?;
    if w.name in keep.value {
      KeepOnlyJustified(api, repo, versions, cutoff, w.name);
    }
    var sorted := SortById(versions);
    var cands := Candidates(sorted, cutoff, keep.value);
    SortedMembers(versions, cutoff, keep.value);
    CompletedPassShows(api, container, cands, dryRun, w);
    var pass := PassSpec(api, container, cands, dryRun);
    Announced(container, pass.trace);
  }
}
