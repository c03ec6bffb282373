/** The retention decision (`keep_versions`): which digests of one package
    must survive this run. */
module Retention {
  import opened Types
  import opened Manifests

  /** The grace window after the cutoff, one hour in microseconds. */
  const GraceWindow: int := 3600 * 1000000

  /** Created before the cutoff and carrying at least one tag. */
  predicate OldTagged(v: Version, cutoff: Timestamp)
  {
    v.created < cutoff && |v.tags| > 0
  }

  /** Created in the hour that starts at the cutoff: possibly part of a
      multi-platform push still in progress. */
  predicate InGrace(v: Version, cutoff: Timestamp)
  {
    cutoff <= v.created < cutoff + GraceWindow
  }

  /** One iteration of the loop over the versions, from the keep set built so far. */
  function KeepStep(api: Api, repo: string, keep: set<Digest>, v: Version, cutoff: Timestamp): (r: Result<set<Digest>>)
    ensures r.Ok? ==> keep <= r.value
    ensures r.Ok? && OldTagged(v, cutoff) ==> v.name in r.value && Referenced(api, repo, v.name) <= r.value
    ensures r.Ok? && InGrace(v, cutoff) && v.name !in keep ==> Referenced(api, repo, v.name) <= r.value
    ensures r.Ok? ==> r.value - keep <= (if OldTagged(v, cutoff) then {v.name} else {}) + Referenced(api, repo, v.name)
    ensures r.Ok? && !OldTagged(v, cutoff) && !InGrace(v, cutoff) ==> r.value == keep
    ensures InGrace(v, cutoff) && v.name in keep ==> r == Ok(keep)
    ensures r.Err? <==> (OldTagged(v, cutoff) || (InGrace(v, cutoff) && v.name !in keep)) && api.manifest(repo, v.name).None?
  {
    if v.created < cutoff then
      if |v.tags| > 0 then
        match FetchPlatformDigests(api, repo, v.name)
        case Ok(ds) => Ok(keep + {v.name} + Elems(ds))
        case Err(e) => Err(e)
      else
        Ok(keep)
    else if v.created < cutoff + GraceWindow && v.name !in keep then
      match FetchPlatformDigests(api, repo, v.name)
      case Ok(ds) => Ok(keep + Elems(ds))
      case Err(e) => Err(e)
    else
      Ok(keep)
  }

  /** The loop over `versions` in list order, starting from the keep set `keep`;
      the first failed manifest fetch ends it. */
  function KeepFrom(api: Api, repo: string, versions: seq<Version>, cutoff: Timestamp, keep: set<Digest>): Result<set<Digest>>
    decreases |versions|
  {
    if versions == [] then Ok(keep)
    else
      match KeepStep(api, repo, keep, versions[0], cutoff)
      case Err(e) => Err(e)
      case Ok(next) => KeepFrom(api, repo, versions[1..], cutoff, next)
  }

  /** `keep_versions`: the digests of one package that the deletion pass must not touch. */
  method KeepVersions(api: Api, repo: string, versions: seq<Version>, cutoff: Timestamp) returns (r: Result<set<Digest>>)
    ensures r == KeepFrom(api, repo, versions, cutoff, {})
    ensures versions == [] ==> r == Ok({})
  {
    var keep: set<Digest> := {};
    var i := 0;
    while i < |versions|
      invariant 0 <= i <= |versions|
      invariant KeepFrom(api, repo, versions, cutoff, {}) == KeepFrom(api, repo, versions[i..], cutoff, keep)
    {
      var v := versions[i];
      assert versions[i..][1..] == versions[i + 1..];
      if v.created < cutoff {
        if |v.tags| > 0 {
          var fetched := FetchPlatformDigests(api, repo, v.name);
          if fetched.Err? {
            return Err(fetched.error);
          }
          keep := keep + {v.name} + Elems(fetched.value);
        }
      } else if v.created < cutoff + GraceWindow && v.name !in keep {
        var fetched := FetchPlatformDigests(api, repo, v.name);
        if fetched.Err? {
          return Err(fetched.error);
        }
        keep := keep + Elems(fetched.value);
      }
      i := i + 1;
    }
    return Ok(keep);
  }

  /** Running the loop over a list is running it over a prefix and then over
      the rest, from the set the prefix built. */
  lemma {:induction false} KeepSplit(api: Api, repo: string, versions: seq<Version>, cutoff: Timestamp, keep: set<Digest>, i: nat)
    requires i <= |versions|
    ensures KeepFrom(api, repo, versions, cutoff, keep) ==
              match KeepFrom(api, repo, versions[..i], cutoff, keep)
              case Err(e) => Err(e)
              case Ok(mid) => KeepFrom(api, repo, versions[i..], cutoff, mid)
  {
    if i == 0 {
      assert versions[..0] == [];
      assert versions[0..] == versions;
    } else {
      assert versions[..i][0] == versions[0];
      assert versions[..i][1..] == versions[1..][..i - 1];
      assert versions[1..][i - 1..] == versions[i..];
      match KeepStep(api, repo, keep, versions[0], cutoff)
      case Err(e) =>
      case Ok(next) =>
        KeepSplit(api, repo, versions[1..], cutoff, next, i - 1);
    }
  }

  /** The keep set only grows while the loop runs. */
  lemma {:induction false} KeepGrows(api: Api, repo: string, versions: seq<Version>, cutoff: Timestamp, keep: set<Digest>)
    requires KeepFrom(api, repo, versions, cutoff, keep).Ok?
    ensures keep <= KeepFrom(api, repo, versions, cutoff, keep).value
  {
    if versions != [] {
      var next := KeepStep(api, repo, keep, versions[0], cutoff).value;
      KeepGrows(api, repo, versions[1..], cutoff, next);
    }
  }

  /** A version created before the cutoff with a tag keeps its own digest and
      every platform digest its manifest lists; its manifest must be fetchable,
      otherwise the loop fails. */
  lemma {:induction false} TaggedKept(api: Api, repo: string, versions: seq<Version>, cutoff: Timestamp, keep: set<Digest>, v: Version)
    requires v in versions && OldTagged(v, cutoff)
    requires KeepFrom(api, repo, versions, cutoff, keep).Ok?
    ensures api.manifest(repo, v.name).Some?
    ensures v.name in KeepFrom(api, repo, versions, cutoff, keep).value
    ensures Elems(PlatformDigests(api.manifest(repo, v.name).value)) <= KeepFrom(api, repo, versions, cutoff, keep).value
  {
    var next := KeepStep(api, repo, keep, versions[0], cutoff).value;
    if versions[0] == v {
      KeepGrows(api, repo, versions[1..], cutoff, next);
    } else {
      TaggedKept(api, repo, versions[1..], cutoff, next, v);
    }
  }

  /** A version in the grace window whose digest is not yet kept when the loop
      reaches it gets all its platform digests kept. */
  lemma GraceKept(api: Api, repo: string, versions: seq<Version>, cutoff: Timestamp, i: nat)
    requires i < |versions| && InGrace(versions[i], cutoff)
    requires KeepFrom(api, repo, versions, cutoff, {}).Ok?
    ensures KeepFrom(api, repo, versions[..i], cutoff, {}).Ok?
    ensures versions[i].name !in KeepFrom(api, repo, versions[..i], cutoff, {}).value ==>
              api.manifest(repo, versions[i].name).Some? &&
              Elems(PlatformDigests(api.manifest(repo, versions[i].name).value)) <= KeepFrom(api, repo, versions, cutoff, {}).value
  {
    KeepSplit(api, repo, versions, cutoff, {}, i);
    var mid := KeepFrom(api, repo, versions[..i], cutoff, {}).value;
    var next := KeepStep(api, repo, mid, versions[i], cutoff).value;
    assert versions[i..][1..] == versions[i + 1..];
    KeepGrows(api, repo, versions[i + 1..], cutoff, next);
  }

  /** A grace-window version whose digest the versions before it already
      keep is skipped: the loop without it ends exactly as the loop with it. */
  lemma GraceSkipped(api: Api, repo: string, versions: seq<Version>, cutoff: Timestamp, i: nat)
    requires i < |versions| && InGrace(versions[i], cutoff)
    requires KeepFrom(api, repo, versions[..i], cutoff, {}).Ok?
    requires versions[i].name in KeepFrom(api, repo, versions[..i], cutoff, {}).value
    ensures KeepFrom(api, repo, versions, cutoff, {}) == KeepFrom(api, repo, versions[..i] + versions[i + 1..], cutoff, {})
  {
    var rest := versions[..i] + versions[i + 1..];
    KeepSplit(api, repo, versions, cutoff, {}, i);
    KeepSplit(api, repo, rest, cutoff, {}, i);
    assert rest[..i] == versions[..i];
    assert rest[i..] == versions[i + 1..];
    assert versions[i..][1..] == versions[i + 1..];
  }

  /** The versions created before the end of the grace window. */
  function Early(versions: seq<Version>, cutoff: Timestamp): (r: seq<Version>)
    ensures forall v :: v in r <==> v in versions && v.created < cutoff + GraceWindow
  {
    if versions == [] then []
    else if versions[0].created < cutoff + GraceWindow then [versions[0]] + Early(versions[1..], cutoff)
    else Early(versions[1..], cutoff)
  }

  /** Versions created at or after the end of the grace window contribute
      nothing: dropping them changes neither the keep set nor the failure. */
  lemma {:induction false} LateIgnored(api: Api, repo: string, versions: seq<Version>, cutoff: Timestamp, keep: set<Digest>)
    ensures KeepFrom(api, repo, versions, cutoff, keep) == KeepFrom(api, repo, Early(versions, cutoff), cutoff, keep)
  {
    if versions != [] {
      var e := Early(versions[1..], cutoff);
      if versions[0].created < cutoff + GraceWindow {
        assert ([versions[0]] + e)[0] == versions[0];
        assert ([versions[0]] + e)[1..] == e;
        match KeepStep(api, repo, keep, versions[0], cutoff)
        case Err(_) =>
        case Ok(next) => LateIgnored(api, repo, versions[1..], cutoff, next);
      } else {
        LateIgnored(api, repo, versions[1..], cutoff, keep);
      }
    }
  }

  /** Why a digest may be kept: it names a tagged version older than the
      cutoff, or it is a platform digest of such a version or of a version in
      the grace window. */
  ghost predicate Justified(api: Api, repo: string, versions: seq<Version>, cutoff: Timestamp, d: Digest)
  {
    exists v :: v in versions &&
      ((OldTagged(v, cutoff) && d == v.name) ||
       ((OldTagged(v, cutoff) || InGrace(v, cutoff)) && d in Referenced(api, repo, v.name)))
  }

  /** Everything the loop adds to the keep set is justified by some version. */
  lemma {:induction false} KeepSound(api: Api, repo: string, versions: seq<Version>, cutoff: Timestamp, keep: set<Digest>, d: Digest)
    requires KeepFrom(api, repo, versions, cutoff, keep).Ok?
    requires d in KeepFrom(api, repo, versions, cutoff, keep).value
    ensures d in keep || Justified(api, repo, versions, cutoff, d)
  {
    if versions != [] {
      var v := versions[0];
      var next := KeepStep(api, repo, keep, v, cutoff).value;
      KeepSound(api, repo, versions[1..], cutoff, next, d);
      if d in next && d !in keep {
        assert v in versions;
      } else if d !in next {
        var w :| w in versions[1..] &&
          ((OldTagged(w, cutoff) && d == w.name) ||
           ((OldTagged(w, cutoff) || InGrace(w, cutoff)) && d in Referenced(api, repo, w.name)));
        assert w in versions;
      }
    }
  }

  /** The keep set of the whole list holds only justified digests; an empty
      list keeps nothing. */
  lemma KeepOnlyJustified(api: Api, repo: string, versions: seq<Version>, cutoff: Timestamp, d: Digest)
    requires KeepFrom(api, repo, versions, cutoff, {}).Ok?
    requires d in KeepFrom(api, repo, versions, cutoff, {}).value
    ensures Justified(api, repo, versions, cutoff, d)
    ensures versions != []
  {
    KeepSound(api, repo, versions, cutoff, {}, d);
  }

  /** A registry in which a tagged manifest list refers to a nested manifest
      list, which refers to one platform image. */
  function NestedManifest(repo: string, d: Digest): Option<Manifest>
  {
    if d == "sha256:list" then Some(Index([Descriptor("sha256:nested")]))
    else if d == "sha256:nested" then Some(Index([Descriptor("sha256:leaf")]))
    else Some(Single)
  }

  function NoPackage(container: string): Listing
  {
    Refused(404)
  }

  function NoContent(container: string, id: VersionId): int
  {
    204
  }

  /** The result depends on the order of the list: a version in the grace
      window that is itself a platform image of an older tagged manifest list
      is skipped when that list precedes it, and consulted when it comes first. */
  lemma OrderMatters()
    ensures
      var api := Api(NoPackage, NestedManifest, NoContent, NoContent);
      var list := Version(1, "sha256:list", -1, ["latest"]);
      var nested := Version(2, "sha256:nested", 1, []);
      && KeepFrom(api, "owner/image", [list, nested], 0, {}) == Ok({"sha256:list", "sha256:nested"})
      && KeepFrom(api, "owner/image", [nested, list], 0, {}) == Ok({"sha256:list", "sha256:nested", "sha256:leaf"})
  {
    var api := Api(NoPackage, NestedManifest, NoContent, NoContent);
    var list := Version(1, "sha256:list", -1, ["latest"]);
    var nested := Version(2, "sha256:nested", 1, []);
    assert DigestsOf([Descriptor("sha256:nested")]) == ["sha256:nested"];
    assert DigestsOf([Descriptor("sha256:leaf")]) == ["sha256:leaf"];
    assert Elems(["sha256:nested"]) == {"sha256:nested"};
    assert Elems(["sha256:leaf"]) == {"sha256:leaf"};
    assert FetchPlatformDigests(api, "owner/image", "sha256:list") == Ok(["sha256:nested"]);
    assert FetchPlatformDigests(api, "owner/image", "sha256:nested") == Ok(["sha256:leaf"]);
    // list first: the nested list is already kept when the loop reaches it
    var both: set<Digest> := {"sha256:list", "sha256:nested"};
    assert {} + {"sha256:list"} + Elems(["sha256:nested"]) == both;
    assert KeepStep(api, "owner/image", {}, list, 0) == Ok(both);
    assert KeepStep(api, "owner/image", both, nested, 0) == Ok(both);
    assert [nested][1..] == [];
    assert KeepFrom(api, "owner/image", [nested], 0, both) == Ok(both);
    assert [list, nested][1..] == [nested];
    // nested list first: its platform image is kept as well
    var leaf: set<Digest> := {"sha256:leaf"};
    var all: set<Digest> := {"sha256:list", "sha256:nested", "sha256:leaf"};
    assert {} + Elems(["sha256:leaf"]) == leaf;
    assert leaf + {"sha256:list"} + Elems(["sha256:nested"]) == all;
    assert KeepStep(api, "owner/image", {}, nested, 0) == Ok(leaf);
    assert KeepStep(api, "owner/image", leaf, list, 0) == Ok(all);
    assert [list][1..] == [];
    assert KeepFrom(api, "owner/image", [list], 0, leaf) == Ok(all);
    assert [nested, list][1..] == [list];
  }
}
