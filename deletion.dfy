/** The deletion pass over one package (`container_prune`, its inner loop) and
    the classification of a delete response (`del_package_version`). */
module Deletion {
  import opened Types

  /** The outcome of deleting version `name` from the DELETE status and the
      status of the GET that follows a 404: None when the version is gone,
      otherwise the error that aborts the run. */
  function ClassifyDelete(name: Digest, status: int, probe: int): (r: Option<PruneError>)
    ensures r == Some(InsufficientPrivileges(name)) <==> status == 403 || (status == 404 && IsOk(probe))
    ensures r == None <==> IsOk(status)
    ensures r.Some? && r != Some(InsufficientPrivileges(name)) ==> r == Some(HttpError(status))
  {
    if status == 403 || (status == 404 && IsOk(probe)) then Some(InsufficientPrivileges(name))
    else if !IsOk(status) then Some(HttpError(status))
    else None
  }

  /** Deleting version `v` of `container` through the API. */
  function Attempt(api: Api, container: string, v: Version): Option<PruneError>
  {
    ClassifyDelete(v.name, api.deleteStatus(container, v.id), api.probeStatus(container, v.id))
  }

  /** `del_package_version`: send the DELETE, and after a 404 probe the
      version with a GET to tell a missing version from missing rights. */
  method DelPackageVersion(api: Api, container: string, v: Version) returns (failure: Option<PruneError>)
    ensures failure == Attempt(api, container, v)
  {
    var status := api.deleteStatus(container, v.id);
    if status == 403 {
      return Some(InsufficientPrivileges(v.name));
    }
    if status == 404 {
      var probe := api.probeStatus(container, v.id);
      if IsOk(probe) {
        return Some(InsufficientPrivileges(v.name));
      }
    }
    failure := if IsOk(status) then None else Some(HttpError(status));
  }

  // ---------------------------------------------------------------------------
  // Ordering by identifier (`sorted(versions, key=lambda k: k["id"])`)

  predicate SortedById(s: seq<Version>)
  {
    forall i, j :: 0 <= i < j < |s| ==> s[i].id <= s[j].id
  }

  /** In a list sorted by id, no element after the first has a smaller id. */
  lemma SortedHead(s: seq<Version>)
    requires s != []
    ensures SortedById(s) ==> forall x :: x in s[1..] ==> s[0].id <= x.id
  {
  }

  /** A version no later in id order than every element of a sorted list can lead it. */
  lemma ConsSorted(x: Version, s: seq<Version>)
    requires SortedById(s)
    requires forall y :: y in s ==> x.id <= y.id
    ensures SortedById([x] + s)
  {
  }

  /** Inserts `v` before the first element whose id is not smaller, so that
      it stays ahead of the versions with an equal id that followed it. */
  function Insert(v: Version, s: seq<Version>): seq<Version>
  {
    if s == [] || v.id <= s[0].id then [v] + s
    else [s[0]] + Insert(v, s[1..])
  }

  /** Insertion adds exactly `v`. */
  lemma {:induction false} InsertPerm(v: Version, s: seq<Version>)
    ensures multiset(Insert(v, s)) == multiset(s) + multiset{v}
  {
    if s != [] && v.id > s[0].id {
      InsertPerm(v, s[1..]);
      assert s == [s[0]] + s[1..];
    }
  }

  /** Inserting into a sorted list keeps it sorted. */
  lemma {:induction false} InsertSorted(v: Version, s: seq<Version>)
    requires SortedById(s)
    ensures SortedById(Insert(v, s))
  {
    if s == [] || v.id <= s[0].id {
      if s != [] {
        SortedHead(s);
        assert s == [s[0]] + s[1..];
      }
      ConsSorted(v, s);
    } else {
      var rest := Insert(v, s[1..]);
      assert s == [s[0]] + s[1..];
      SortedHead(s);
      InsertSorted(v, s[1..]);
      InsertPerm(v, s[1..]);
      assert forall y :: y in rest ==> y in multiset(rest);
      ConsSorted(s[0], rest);
    }
  }

  /** Insertion sort by id (`sorted(versions, key=lambda k: k["id"])`). */
  function SortById(versions: seq<Version>): seq<Version>
  {
    if versions == [] then [] else Insert(versions[0], SortById(versions[1..]))
  }

  /** The versions come out in ascending id order, as a permutation of the input. */
  lemma {:induction false} SortByIdSpec(versions: seq<Version>)
    ensures SortedById(SortById(versions))
    ensures multiset(SortById(versions)) == multiset(versions)
  {
    if versions != [] {
      SortByIdSpec(versions[1..]);
      InsertSorted(versions[0], SortById(versions[1..]));
      InsertPerm(versions[0], SortById(versions[1..]));
      assert versions == [versions[0]] + versions[1..];
    }
  }

  // ---------------------------------------------------------------------------
  // Which versions the pass deletes

  /** A version is deleted when it was created before the cutoff and the
      retention decision did not keep its digest. */
  predicate IsCandidate(v: Version, cutoff: Timestamp, keep: set<Digest>)
  {
    v.created < cutoff && v.name !in keep
  }

  /** The candidates of `s`, in the order of `s`. */
  function Candidates(s: seq<Version>, cutoff: Timestamp, keep: set<Digest>): seq<Version>
  {
    if s == [] then []
    else if IsCandidate(s[0], cutoff, keep) then [s[0]] + Candidates(s[1..], cutoff, keep)
    else Candidates(s[1..], cutoff, keep)
  }

  /** The candidates are exactly the versions of `s` that qualify, each as
      often as it occurs in `s`. */
  lemma {:induction false} CandidatesSpec(s: seq<Version>, cutoff: Timestamp, keep: set<Digest>)
    ensures forall v :: v in Candidates(s, cutoff, keep) <==> v in s && IsCandidate(v, cutoff, keep)
    ensures forall v :: multiset(Candidates(s, cutoff, keep))[v] == if IsCandidate(v, cutoff, keep) then multiset(s)[v] else 0
  {
    if s != [] {
      CandidatesSpec(s[1..], cutoff, keep);
      assert s == [s[0]] + s[1..];
    }
  }

  /** Filtering a list sorted by id leaves it sorted. */
  lemma {:induction false} CandidatesSorted(s: seq<Version>, cutoff: Timestamp, keep: set<Digest>)
    requires SortedById(s)
    ensures SortedById(Candidates(s, cutoff, keep))
  {
    if s != [] {
      CandidatesSorted(s[1..], cutoff, keep);
      CandidatesSpec(s[1..], cutoff, keep);
      SortedHead(s);
      if IsCandidate(s[0], cutoff, keep) {
        ConsSorted(s[0], Candidates(s[1..], cutoff, keep));
      }
    }
  }

  /** Filtering a concatenation filters each part: the filter keeps the
      order of the list. */
  lemma {:induction false} CandidatesAppend(a: seq<Version>, b: seq<Version>, cutoff: Timestamp, keep: set<Digest>)
    ensures Candidates(a + b, cutoff, keep) == Candidates(a, cutoff, keep) + Candidates(b, cutoff, keep)
  {
    if a != [] {
      assert (a + b)[0] == a[0];
      assert (a + b)[1..] == a[1..] + b;
      CandidatesAppend(a[1..], b, cutoff, keep);
    } else {
      assert a + b == b;
    }
  }

  /** The versions the pass visits as candidates are exactly the versions
      that qualify. */
  lemma SortedMembers(versions: seq<Version>, cutoff: Timestamp, keep: set<Digest>)
    ensures forall v :: v in Candidates(SortById(versions), cutoff, keep) <==> v in versions && IsCandidate(v, cutoff, keep)
  {
    var sorted := SortById(versions);
    SortByIdSpec(versions);
    CandidatesSpec(sorted, cutoff, keep);
    assert forall v :: v in sorted <==> v in multiset(sorted);
    assert forall v :: v in versions <==> v in multiset(versions);
  }

  /** Moreover they come in ascending id order, each as often as it occurs
      in the unsorted list, so their number is the number of qualifying
      versions. */
  lemma SortedCandidates(versions: seq<Version>, cutoff: Timestamp, keep: set<Digest>)
    ensures forall v :: v in Candidates(SortById(versions), cutoff, keep) <==> v in versions && IsCandidate(v, cutoff, keep)
    ensures multiset(Candidates(SortById(versions), cutoff, keep)) == multiset(Candidates(versions, cutoff, keep))
    ensures |Candidates(SortById(versions), cutoff, keep)| == |Candidates(versions, cutoff, keep)|
    ensures SortedById(Candidates(SortById(versions), cutoff, keep))
  {
    var sorted := SortById(versions);
    SortedMembers(versions, cutoff, keep);
    SortByIdSpec(versions);
    CandidatesSorted(sorted, cutoff, keep);
    CandidatesSpec(sorted, cutoff, keep);
    CandidatesSpec(versions, cutoff, keep);
    assert multiset(Candidates(sorted, cutoff, keep)) == multiset(Candidates(versions, cutoff, keep));
  }

  // ---------------------------------------------------------------------------
  // What the pass prints and requests

  function Names(cs: seq<Version>): (r: seq<Digest>)
    ensures |r| == |cs| && forall i :: 0 <= i < |cs| ==> r[i] == cs[i].name
  {
    if cs == [] then [] else [cs[0].name] + Names(cs[1..])
  }

  function Ids(cs: seq<Version>): (r: seq<VersionId>)
    ensures |r| == |cs| && forall i :: 0 <= i < |cs| ==> r[i] == cs[i].id
  {
    if cs == [] then [] else [cs[0].id] + Ids(cs[1..])
  }

  /** The digests printed as version lines, in order. */
  function ListedNames(t: seq<Event>): seq<Digest>
  {
    if t == [] then []
    else (if t[0].Listed? then [t[0].name] else []) + ListedNames(t[1..])
  }

  /** The versions whose deletion was requested, in order. */
  function Requests(t: seq<Event>): seq<VersionId>
  {
    if t == [] then []
    else (if t[0].DeleteRequest? then [t[0].id] else []) + Requests(t[1..])
  }

  /** The containers whose pruning was announced, in order. */
  function Visited(t: seq<Event>): seq<string>
  {
    if t == [] then []
    else (if t[0].Pruning? then [t[0].container] else []) + Visited(t[1..])
  }

  lemma {:induction false} ListedAppend(t: seq<Event>, u: seq<Event>)
    ensures ListedNames(t + u) == ListedNames(t) + ListedNames(u)
  {
    if t == [] {
      assert t + u == u;
    } else {
      assert (t + u)[0] == t[0];
      assert (t + u)[1..] == t[1..] + u;
      ListedAppend(t[1..], u);
    }
  }

  lemma {:induction false} RequestsAppend(t: seq<Event>, u: seq<Event>)
    ensures Requests(t + u) == Requests(t) + Requests(u)
  {
    if t == [] {
      assert t + u == u;
    } else {
      assert (t + u)[0] == t[0];
      assert (t + u)[1..] == t[1..] + u;
      RequestsAppend(t[1..], u);
    }
  }

  lemma {:induction false} VisitedAppend(t: seq<Event>, u: seq<Event>)
    ensures Visited(t + u) == Visited(t) + Visited(u)
  {
    if t == [] {
      assert t + u == u;
    } else {
      assert (t + u)[0] == t[0];
      assert (t + u)[1..] == t[1..] + u;
      VisitedAppend(t[1..], u);
    }
  }

  /** The three projections distribute over concatenation. */
  lemma ProjectionsAppend(t: seq<Event>, u: seq<Event>)
    ensures ListedNames(t + u) == ListedNames(t) + ListedNames(u)
    ensures Requests(t + u) == Requests(t) + Requests(u)
    ensures Visited(t + u) == Visited(t) + Visited(u)
  {
    ListedAppend(t, u);
    RequestsAppend(t, u);
    VisitedAppend(t, u);
  }

  /** The lines for one candidate: its digest, then its DELETE unless dry-running. */
  function Block(container: string, v: Version, dryRun: bool): seq<Event>
  {
    [Listed(v.name)] + (if dryRun then [] else [DeleteRequest(container, v.id)])
  }

  /** The lines for a list of candidates, one block after another. */
  function Blocks(container: string, cs: seq<Version>, dryRun: bool): seq<Event>
  {
    if cs == [] then [] else Block(container, cs[0], dryRun) + Blocks(container, cs[1..], dryRun)
  }

  /** The candidate lines hold no header. */
  lemma {:induction false} BlocksNoHeader(container: string, cs: seq<Version>, dryRun: bool)
    ensures forall i :: 0 <= i < |Blocks(container, cs, dryRun)| ==> !Blocks(container, cs, dryRun)[i].Header?
  {
    if cs != [] {
      var b := Block(container, cs[0], dryRun);
      var rest := Blocks(container, cs[1..], dryRun);
      BlocksNoHeader(container, cs[1..], dryRun);
      assert forall i :: |b| <= i < |b + rest| ==> (b + rest)[i] == rest[i - |b|];
    }
  }

  /** Each digest is listed once, in order. */
  lemma {:induction false} BlocksListed(container: string, cs: seq<Version>, dryRun: bool)
    ensures ListedNames(Blocks(container, cs, dryRun)) == Names(cs)
  {
    if cs != [] {
      var b := Block(container, cs[0], dryRun);
      BlocksListed(container, cs[1..], dryRun);
      ListedAppend(b, Blocks(container, cs[1..], dryRun));
      if !dryRun {
        assert b[1..] == [DeleteRequest(container, cs[0].id)];
        assert b[1..][1..] == [];
      }
    }
  }

  /** Each candidate is deleted, in order, unless dry-running. */
  lemma {:induction false} BlocksRequests(container: string, cs: seq<Version>, dryRun: bool)
    ensures Requests(Blocks(container, cs, dryRun)) == if dryRun then [] else Ids(cs)
  {
    if cs != [] {
      var b := Block(container, cs[0], dryRun);
      BlocksRequests(container, cs[1..], dryRun);
      RequestsAppend(b, Blocks(container, cs[1..], dryRun));
      if !dryRun {
        assert b[1..] == [DeleteRequest(container, cs[0].id)];
        assert b[1..][1..] == [];
      }
    }
  }

  /** The candidate lines announce no container. */
  lemma {:induction false} BlocksVisited(container: string, cs: seq<Version>, dryRun: bool)
    ensures Visited(Blocks(container, cs, dryRun)) == []
  {
    if cs != [] {
      var b := Block(container, cs[0], dryRun);
      BlocksVisited(container, cs[1..], dryRun);
      VisitedAppend(b, Blocks(container, cs[1..], dryRun));
      if !dryRun {
        assert b[1..] == [DeleteRequest(container, cs[0].id)];
        assert b[1..][1..] == [];
      }
    }
  }

  lemma {:induction false} BlocksAppend(container: string, a: seq<Version>, b: seq<Version>, dryRun: bool)
    ensures Blocks(container, a + b, dryRun) == Blocks(container, a, dryRun) + Blocks(container, b, dryRun)
  {
    if a != [] {
      assert (a + b)[0] == a[0];
      assert (a + b)[1..] == a[1..] + b;
      BlocksAppend(container, a[1..], b, dryRun);
    } else {
      assert a + b == b;
    }
  }

  /** What the pass prints and requests for its candidates: a header, then
      each candidate's lines; nothing at all when there is no candidate. */
  function Report(container: string, cs: seq<Version>, dryRun: bool): seq<Event>
  {
    if cs == [] then [] else [Header(dryRun)] + Blocks(container, cs, dryRun)
  }

  /** The header comes once, first, and only when there is a candidate; the
      candidates are listed in order, and deleted in order unless dry-running. */
  lemma ReportShape(container: string, cs: seq<Version>, dryRun: bool)
    ensures Report(container, cs, dryRun) == [] <==> cs == []
    ensures cs != [] ==> Report(container, cs, dryRun)[0] == Header(dryRun)
    ensures forall i :: 0 < i < |Report(container, cs, dryRun)| ==> !Report(container, cs, dryRun)[i].Header?
    ensures ListedNames(Report(container, cs, dryRun)) == Names(cs)
    ensures Requests(Report(container, cs, dryRun)) == if dryRun then [] else Ids(cs)
    ensures Visited(Report(container, cs, dryRun)) == []
  {
    if cs != [] {
      var body := Blocks(container, cs, dryRun);
      BlocksNoHeader(container, cs, dryRun);
      BlocksListed(container, cs, dryRun);
      BlocksRequests(container, cs, dryRun);
      BlocksVisited(container, cs, dryRun);
      ProjectionsAppend([Header(dryRun)], body);
      assert forall i :: 0 < i < |body| + 1 ==> ([Header(dryRun)] + body)[i] == body[i - 1];
    }
  }

  // ---------------------------------------------------------------------------
  // The pass

  /** The index of the first candidate whose deletion fails, or the number of
      candidates when none fails. */
  function FirstFailure(api: Api, container: string, cs: seq<Version>): (k: nat)
    ensures k <= |cs|
    ensures forall j :: 0 <= j < k ==> Attempt(api, container, cs[j]).None?
    ensures k < |cs| ==> Attempt(api, container, cs[k]).Some?
  {
    if cs == [] then 0
    else if Attempt(api, container, cs[0]).Some? then 0
    else 1 + FirstFailure(api, container, cs[1..])
  }

  /** What a pass leaves behind: its events, the count of handled candidates
      (`del_cnt`), and the error that stopped it, if any. */
  datatype PassResult = PassResult(trace: seq<Event>, deleted: nat, error: Option<PruneError>)

  /** The pass over candidates `cs`: in dry-run mode every candidate is
      listed; otherwise the candidates are listed and deleted up to and
      including the first whose deletion fails, and that failure ends it. */
  function PassSpec(api: Api, container: string, cs: seq<Version>, dryRun: bool): PassResult
  {
    if dryRun then PassResult(Report(container, cs, true), |cs|, None)
    else
      var k := FirstFailure(api, container, cs);
      if k == |cs| then PassResult(Report(container, cs, false), |cs|, None)
      else PassResult(Report(container, cs[..k + 1], false), k, Attempt(api, container, cs[k]))
  }

  /** A pass ends without error exactly when it is a dry run or every delete
      succeeds, and then it has handled every candidate; otherwise it stops at
      the first candidate whose delete fails, after deleting all before it. */
  lemma PassOutcome(api: Api, container: string, cs: seq<Version>, dryRun: bool)
    ensures var r := PassSpec(api, container, cs, dryRun);
            r.error.None? <==> dryRun || forall j :: 0 <= j < |cs| ==> Attempt(api, container, cs[j]).None?
    ensures var r := PassSpec(api, container, cs, dryRun);
            r.error.None? ==> r.deleted == |cs| && r.trace == Report(container, cs, dryRun)
    ensures var r := PassSpec(api, container, cs, dryRun);
            r.error.Some? ==> && !dryRun && r.deleted < |cs|
                              && (forall j :: 0 <= j < r.deleted ==> Attempt(api, container, cs[j]).None?)
                              && r.error == Attempt(api, container, cs[r.deleted])
                              && r.trace == Report(container, cs[..r.deleted + 1], false)
  {
  }

  /** A pass that ends without error has listed every candidate, and has
      requested its deletion unless dry-running. */
  lemma CompletedPassShows(api: Api, container: string, cs: seq<Version>, dryRun: bool, w: Version)
    requires PassSpec(api, container, cs, dryRun).error.None?
    requires w in cs
    ensures w.name in ListedNames(PassSpec(api, container, cs, dryRun).trace)
    ensures !dryRun ==> w.id in Requests(PassSpec(api, container, cs, dryRun).trace)
  {
    PassOutcome(api, container, cs, dryRun);
    ReportShape(container, cs, dryRun);
    var j :| 0 <= j < |cs| && cs[j] == w;
    assert Names(cs)[j] == w.name;
    assert !dryRun ==> Ids(cs)[j] == w.id;
  }

  /** A pass lists only digests of its candidates, and requests the deletion
      only of candidates, and of none when dry-running. */
  lemma PassTouchesOnly(api: Api, container: string, cs: seq<Version>, dryRun: bool)
    ensures forall name :: name in ListedNames(PassSpec(api, container, cs, dryRun).trace) ==>
              exists v :: v in cs && v.name == name
    ensures forall id :: id in Requests(PassSpec(api, container, cs, dryRun).trace) ==>
              !dryRun && exists v :: v in cs && v.id == id
  {
    var r := PassSpec(api, container, cs, dryRun);
    PassOutcome(api, container, cs, dryRun);
    var shown := if r.error.Some? then cs[..r.deleted + 1] else cs;
    assert r.trace == Report(container, shown, dryRun);
    ReportShape(container, shown, dryRun);
    forall name | name in ListedNames(r.trace)
      ensures exists v :: v in cs && v.name == name
    {
      var j :| 0 <= j < |Names(shown)| && Names(shown)[j] == name;
      assert shown[j] == cs[j];
    }
    forall id | id in Requests(r.trace)
      ensures !dryRun && exists v :: v in cs && v.id == id
    {
      var j :| 0 <= j < |Ids(shown)| && Ids(shown)[j] == id;
      assert shown[j] == cs[j];
    }
  }

  /** The pass over the candidates of `versions` lists them, and deletes them
      unless dry-running, in ascending id order: all of them, or those up to
      and including the one whose delete failed. */
  lemma PassInIdOrder(api: Api, container: string, versions: seq<Version>, cutoff: Timestamp, keep: set<Digest>, dryRun: bool)
    ensures var cs := Candidates(SortById(versions), cutoff, keep);
            var r := PassSpec(api, container, cs, dryRun);
            var n := if r.error.None? then |cs| else r.deleted + 1;
            && n <= |cs|
            && SortedById(cs[..n])
            && ListedNames(r.trace) == Names(cs[..n])
            && Requests(r.trace) == (if dryRun then [] else Ids(cs[..n]))
  {
    var cs := Candidates(SortById(versions), cutoff, keep);
    var r := PassSpec(api, container, cs, dryRun);
    PassOutcome(api, container, cs, dryRun);
    SortByIdSpec(versions);
    CandidatesSorted(SortById(versions), cutoff, keep);
    var n := if r.error.None? then |cs| else r.deleted + 1;
    assert cs[..n] == (if r.error.Some? then cs[..r.deleted + 1] else cs);
    ReportShape(container, cs[..n], dryRun);
  }

  /** A pass announces no container. */
  lemma PassVisitsNothing(api: Api, container: string, cs: seq<Version>, dryRun: bool)
    ensures Visited(PassSpec(api, container, cs, dryRun).trace) == []
  {
    var r := PassSpec(api, container, cs, dryRun);
    PassOutcome(api, container, cs, dryRun);
    ReportShape(container, if r.error.Some? then cs[..r.deleted + 1] else cs, dryRun);
  }

  /** Appending a candidate appends its lines, after the header if it is the first. */
  lemma ReportSnoc(container: string, cs: seq<Version>, v: Version, dryRun: bool)
    ensures Report(container, cs + [v], dryRun) ==
              Report(container, cs, dryRun) + (if cs == [] then [Header(dryRun)] else []) + Block(container, v, dryRun)
  {
    BlocksAppend(container, cs, [v], dryRun);
    assert [v][1..] == [];
    assert Blocks(container, [v], dryRun) == Block(container, v, dryRun);
  }

  lemma CandidatesSnoc(s: seq<Version>, i: nat, cutoff: Timestamp, keep: set<Digest>)
    requires i < |s|
    ensures Candidates(s[..i + 1], cutoff, keep) ==
              Candidates(s[..i], cutoff, keep) + (if IsCandidate(s[i], cutoff, keep) then [s[i]] else [])
  {
    assert s[..i + 1] == s[..i] + [s[i]];
    CandidatesAppend(s[..i], [s[i]], cutoff, keep);
    assert [s[i]][1..] == [];
  }

  lemma FirstFailureSnoc(api: Api, container: string, cs: seq<Version>, v: Version)
    requires FirstFailure(api, container, cs) == |cs| && Attempt(api, container, v).None?
    ensures FirstFailure(api, container, cs + [v]) == |cs| + 1
  {
  }

  /** One step of the pass: how the candidates seen so far, and what has been
      printed and requested for them, grow when the next version is examined. */
  lemma PassAdvance(container: string, s: seq<Version>, i: nat, cutoff: Timestamp, keep: set<Digest>, dryRun: bool, done: seq<Version>)
    requires i < |s| && done == Candidates(s[..i], cutoff, keep)
    ensures !IsCandidate(s[i], cutoff, keep) ==> Candidates(s[..i + 1], cutoff, keep) == done
    ensures IsCandidate(s[i], cutoff, keep) ==> Candidates(s[..i + 1], cutoff, keep) == done + [s[i]]
    ensures var header := if done == [] then [Header(dryRun)] else [];
            var shown := Report(container, done, dryRun) + header + [Listed(s[i].name)];
            Report(container, done + [s[i]], dryRun) ==
              if dryRun then shown else shown + [DeleteRequest(container, s[i].id)]
  {
    CandidatesSnoc(s, i, cutoff, keep);
    assert done + [] == done;
    ReportSnoc(container, done, s[i], dryRun);
    var header := if done == [] then [Header(dryRun)] else [];
    var before := Report(container, done, dryRun) + header;
    if dryRun {
      assert Block(container, s[i], dryRun) == [Listed(s[i].name)];
    } else {
      assert before + Block(container, s[i], dryRun) == before + [Listed(s[i].name)] + [DeleteRequest(container, s[i].id)];
    }
  }

  /** When every candidate before `s[i]` was deleted and deleting candidate
      `s[i]` fails, the pass over all of `s` ends there with that failure. */
  lemma PassStops(api: Api, container: string, s: seq<Version>, i: nat, cutoff: Timestamp, keep: set<Digest>)
    requires i < |s| && IsCandidate(s[i], cutoff, keep)
    requires FirstFailure(api, container, Candidates(s[..i], cutoff, keep)) == |Candidates(s[..i], cutoff, keep)|
    requires Attempt(api, container, s[i]).Some?
    ensures var done := Candidates(s[..i], cutoff, keep);
            PassSpec(api, container, Candidates(s, cutoff, keep), false) ==
              PassResult(Report(container, done + [s[i]], false), |done|, Attempt(api, container, s[i]))
  {
    var done := Candidates(s[..i], cutoff, keep);
    var cands := Candidates(s, cutoff, keep);
    CandidatesSnoc(s, i, cutoff, keep);
    assert s == s[..i + 1] + s[i + 1..];
    CandidatesAppend(s[..i + 1], s[i + 1..], cutoff, keep);
    assert cands[..|done| + 1] == done + [s[i]];
    assert cands[|done|] == s[i];
    var k := FirstFailure(api, container, cands);
    assert forall j :: 0 <= j < |done| ==> cands[j] == done[j];
    assert k == |done|;
  }

  /** The inner loop of `container_prune`: walk the versions in ascending id
      order, print the header before the first candidate, list each candidate,
      delete it unless dry-running, and count it; a failed delete raises. */
  method DeletePass(api: Api, container: string, versions: seq<Version>, cutoff: Timestamp, keep: set<Digest>, dryRun: bool)
    returns (trace: seq<Event>, delCnt: nat, error: Option<PruneError>)
    ensures PassResult(trace, delCnt, error) == PassSpec(api, container, Candidates(SortById(versions), cutoff, keep), dryRun)
  {
    var sorted := SortById(versions);
    trace, delCnt, error := [], 0, None;
    ghost var done: seq<Version> := [];
    var i := 0;
    while i < |sorted|
      invariant 0 <= i <= |sorted|
      invariant done == Candidates(sorted[..i], cutoff, keep)
      invariant trace == Report(container, done, dryRun)
      invariant delCnt == |done|
      invariant !dryRun ==> FirstFailure(api, container, done) == delCnt
    {
      var v := sorted[i];
      PassAdvance(container, sorted, i, cutoff, keep, dryRun, done);
      if v.created < cutoff && v.name !in keep {
        var header := if delCnt == 0 then [Header(dryRun)] else [];
        trace := trace + header + [Listed(v.name)];
        if !dryRun {
          trace := trace + [DeleteRequest(container, v.id)];
          var failure := DelPackageVersion(api, container, v);
          if failure.Some? {
            error := failure;
            PassStops(api, container, sorted, i, cutoff, keep);
            return;
          }
          FirstFailureSnoc(api, container, done, v);
        }
        done := done + [v];
        delCnt := delCnt + 1;
      }
      i := i + 1;
    }
    assert sorted[..i] == sorted;
  }
}
