/** The queryable catalog: indexes by path and by package, and reverse dependency edges. */
module CatalogQuery {
  import opened Wrappers
  import opened CatalogText
  import opened CatalogModel
  import opened CatalogValidation

  datatype QueryError = PathNotFound | PackageNotFound

  /** One reverse edge: `artifact` depends on the queried path with this kind of dependency. */
  datatype CargoDependent = CargoDependent(artifact: CatalogArtifact, kind: DependencyKind)

  // ---------- reverse edges as a function ----------

  function RankOf(kind: DependencyKind): nat {
    match kind
    case Normal => 0
    case Development => 1
    case Build => 2
  }

  /** The order of the final sort: by path, then by kind. */
  predicate DependentBefore(a: CargoDependent, b: CargoDependent) {
    || Less(a.artifact.path, b.artifact.path)
    || (a.artifact.path == b.artifact.path && RankOf(a.kind) < RankOf(b.kind))
  }

  predicate DependsOn(a: CatalogArtifact, kind: DependencyKind, path: string) {
    path in Dependencies(kind, a.dependencies)
  }

  function EdgeIf(a: CatalogArtifact, kind: DependencyKind, path: string): seq<CargoDependent> {
    if DependsOn(a, kind, path) then [CargoDependent(a, kind)] else []
  }

  /** The edges of one artifact, kinds in their order. */
  function EdgesOf(a: CatalogArtifact, path: string): seq<CargoDependent> {
    EdgeIf(a, Normal, path) + EdgeIf(a, Development, path) + EdgeIf(a, Build, path)
  }

  function Dependents(artifacts: seq<CatalogArtifact>, path: string): seq<CargoDependent> {
    if artifacts == [] then []
    else Dependents(artifacts[..|artifacts| - 1], path) + EdgesOf(artifacts[|artifacts| - 1], path)
  }

  /** Each artifact and kind occurs exactly when, and as often as, the artifact declares the edge. */
  lemma {:induction false} DependentsAreTheEdges(artifacts: seq<CatalogArtifact>, path: string, d: CargoDependent)
    ensures multiset(Dependents(artifacts, path))[d]
         == if DependsOn(d.artifact, d.kind, path) then multiset(artifacts)[d.artifact] else 0
  {
    if artifacts != [] {
      var front, last := artifacts[..|artifacts| - 1], artifacts[|artifacts| - 1];
      DependentsAreTheEdges(front, path, d);
      EdgesOfOne(last, path, d);
      MultisetOfTwo(Dependents(front, path), EdgesOf(last, path), d);
      MultisetOfLast(artifacts, d.artifact);
    }
  }

  lemma MultisetOfLast<T>(s: seq<T>, x: T)
    requires s != []
    ensures multiset(s)[x] == multiset(s[..|s| - 1])[x] + if x == s[|s| - 1] then 1 else 0
  {
    assert s == s[..|s| - 1] + [s[|s| - 1]];
  }

  lemma EdgeIfOne(a: CatalogArtifact, kind: DependencyKind, path: string, d: CargoDependent)
    ensures multiset(EdgeIf(a, kind, path))[d]
         == if d == CargoDependent(a, kind) && DependsOn(a, kind, path) then 1 else 0
  {
  }

  lemma EdgesOfOne(a: CatalogArtifact, path: string, d: CargoDependent)
    ensures multiset(EdgesOf(a, path))[d] == if a == d.artifact && DependsOn(a, d.kind, path) then 1 else 0
  {
    var n, v, b := EdgeIf(a, Normal, path), EdgeIf(a, Development, path), EdgeIf(a, Build, path);
    EdgeIfOne(a, Normal, path, d);
    EdgeIfOne(a, Development, path, d);
    EdgeIfOne(a, Build, path, d);
    MultisetOfThree(n, v, b, d);
    assert EdgesOf(a, path) == n + v + b;
  }

  lemma MultisetOfThree<T>(a: seq<T>, b: seq<T>, c: seq<T>, x: T)
    ensures multiset(a + b + c)[x] == multiset(a)[x] + multiset(b)[x] + multiset(c)[x]
  {
  }

  lemma MultisetOfTwo<T>(a: seq<T>, b: seq<T>, x: T)
    ensures multiset(a + b)[x] == multiset(a)[x] + multiset(b)[x]
  {
  }

  /** On a validated catalog every edge is listed exactly once, whatever its position. */
  lemma EachEdgeOnce(index: CatalogIndex, path: string, a: CatalogArtifact, kind: DependencyKind)
    requires WellFormedIndex(index)
    ensures multiset(Dependents(index.artifacts, path))[CargoDependent(a, kind)]
         == if a in index.artifacts && DependsOn(a, kind, path) then 1 else 0
  {
    DependentsAreTheEdges(index.artifacts, path, CargoDependent(a, kind));
    DistinctArtifacts(index.artifacts, a);
  }

  lemma {:induction false} DistinctArtifacts(artifacts: seq<CatalogArtifact>, a: CatalogArtifact)
    requires PathsIncrease(artifacts)
    ensures multiset(artifacts)[a] == if a in artifacts then 1 else 0
  {
    if artifacts != [] {
      var front, last := artifacts[..|artifacts| - 1], artifacts[|artifacts| - 1];
      DistinctArtifacts(front, a);
      assert artifacts == front + [last];
      if last in front {
        var k :| 0 <= k < |front| && front[k] == last;
        assert Less(artifacts[k].path, last.path);
        LessIsTotal(last.path, last.path);
        assert false;
      }
    }
  }

  // ---------- the final sort ----------

  ghost predicate InOrder(s: seq<CargoDependent>) {
    forall i, j :: 0 <= i < j < |s| ==> DependentBefore(s[i], s[j])
  }

  lemma EdgesInOrder(a: CatalogArtifact, path: string)
    ensures InOrder(EdgesOf(a, path))
    ensures forall i :: 0 <= i < |EdgesOf(a, path)| ==> EdgesOf(a, path)[i].artifact == a
  {
  }

  lemma OrderAppends(a: seq<CargoDependent>, b: seq<CargoDependent>)
    requires InOrder(a) && InOrder(b)
    requires forall i, j :: 0 <= i < |a| && 0 <= j < |b| ==> DependentBefore(a[i], b[j])
    ensures InOrder(a + b)
  {
  }

  /** Reverse edges of a validated catalog come out strictly ordered by path, then kind. */
  lemma {:induction false} DependentsInOrder(artifacts: seq<CatalogArtifact>, path: string)
    requires PathsIncrease(artifacts)
    ensures InOrder(Dependents(artifacts, path))
    ensures forall i :: 0 <= i < |Dependents(artifacts, path)| ==> Dependents(artifacts, path)[i].artifact in artifacts
  {
    if artifacts != [] {
      var front, last := artifacts[..|artifacts| - 1], artifacts[|artifacts| - 1];
      DependentsInOrder(front, path);
      EdgesInOrder(last, path);
      assert artifacts == front + [last];
      forall a | a in front
        ensures Less(a.path, last.path)
      {
        var k :| 0 <= k < |front| && front[k] == a;
        assert artifacts[k] == a;
      }
      OrderAppends(Dependents(front, path), EdgesOf(last, path));
    }
  }

  /** The sort at the end of the query changes nothing. */
  lemma FinalSortIsIdentity(artifacts: seq<CatalogArtifact>, path: string)
    requires PathsIncrease(artifacts)
    ensures SortBy(Dependents(artifacts, path), DependentBefore) == Dependents(artifacts, path)
  {
    var s := Dependents(artifacts, path);
    DependentsInOrder(artifacts, path);
    forall i | 0 < i < |s|
      ensures !DependentBefore(s[i], s[i - 1])
    {
      LessIsTotal(s[i].artifact.path, s[i - 1].artifact.path);
    }
    SortByKeepsSorted(s, DependentBefore);
  }

  // ---------- double counting ----------

  function DependencyCount(a: CatalogArtifact): nat {
    |a.dependencies.normal| + |a.dependencies.development| + |a.dependencies.build|
  }

  /** All dependency entries of all artifacts. */
  function TotalDependencies(artifacts: seq<CatalogArtifact>): nat {
    if artifacts == [] then 0
    else TotalDependencies(artifacts[..|artifacts| - 1]) + DependencyCount(artifacts[|artifacts| - 1])
  }

  function Paths(artifacts: seq<CatalogArtifact>): seq<string> {
    seq(|artifacts|, i requires 0 <= i < |artifacts| => artifacts[i].path)
  }

  /** All reverse edges over `paths`. */
  function TotalDependents(artifacts: seq<CatalogArtifact>, paths: seq<string>): nat {
    if paths == [] then 0
    else TotalDependents(artifacts, paths[..|paths| - 1]) + |Dependents(artifacts, paths[|paths| - 1])|
  }

  /** How many of the paths occur in `group`. */
  function Hits(group: seq<string>, paths: seq<string>): nat {
    if paths == [] then 0
    else Hits(group, paths[..|paths| - 1]) + if paths[|paths| - 1] in group then 1 else 0
  }

  lemma {:induction false} DependentsOfOneMore(front: seq<CatalogArtifact>, last: CatalogArtifact,
                                               paths: seq<string>)
    ensures TotalDependents(front + [last], paths)
         == TotalDependents(front, paths) + Hits(last.dependencies.normal, paths)
            + Hits(last.dependencies.development, paths) + Hits(last.dependencies.build, paths)
  {
    if paths != [] {
      DependentsOfOneMore(front, last, paths[..|paths| - 1]);
      assert (front + [last])[..|front|] == front;
    }
  }

  function Elements(s: seq<string>): set<string> {
    set x | x in s
  }

  lemma LastIsNew(s: seq<string>)
    requires Increasing(s) && s != []
    ensures s[|s| - 1] !in s[..|s| - 1]
    ensures Elements(s) == Elements(s[..|s| - 1]) + {s[|s| - 1]}
  {
    var front, last := s[..|s| - 1], s[|s| - 1];
    assert s == front + [last];
    if last in front {
      var k :| 0 <= k < |front| && front[k] == last;
      assert Less(s[k], s[|s| - 1]);
      LessIsTotal(last, last);
      assert false;
    }
  }

  lemma {:induction false} IncreasingSize(s: seq<string>)
    requires Increasing(s)
    ensures |Elements(s)| == |s|
  {
    if s != [] {
      IncreasingSize(s[..|s| - 1]);
      LastIsNew(s);
    }
  }

  lemma MeetOneMore(group: set<string>, seen: set<string>, x: string)
    requires x !in seen
    ensures |group * (seen + {x})| == |group * seen| + if x in group then 1 else 0
  {
    assert group * (seen + {x}) == if x in group then group * seen + {x} else group * seen;
  }

  lemma {:induction false} HitsAreIntersection(group: seq<string>, paths: seq<string>)
    requires Increasing(paths)
    ensures Hits(group, paths) == |Elements(group) * Elements(paths)|
  {
    if paths == [] {
      assert Elements(group) * Elements(paths) == {};
    } else {
      var front, last := paths[..|paths| - 1], paths[|paths| - 1];
      HitsAreIntersection(group, front);
      LastIsNew(paths);
      MeetOneMore(Elements(group), Elements(front), last);
    }
  }

  lemma ResolvedGroupHits(group: seq<string>, paths: seq<string>)
    requires Increasing(paths) && Increasing(group) && forall x :: x in group ==> x in paths
    ensures Hits(group, paths) == |group|
  {
    HitsAreIntersection(group, paths);
    IncreasingSize(group);
    assert Elements(group) * Elements(paths) == Elements(group);
  }

  /** All groups of `a` are increasing and stay within `paths`. */
  ghost predicate Within(a: CatalogArtifact, paths: seq<string>) {
    forall kind ::
      && Increasing(Dependencies(kind, a.dependencies))
      && forall x :: x in Dependencies(kind, a.dependencies) ==> x in paths
  }

  lemma GroupsHit(a: CatalogArtifact, paths: seq<string>)
    requires Increasing(paths) && Within(a, paths)
    ensures Hits(a.dependencies.normal, paths) + Hits(a.dependencies.development, paths)
            + Hits(a.dependencies.build, paths) == DependencyCount(a)
  {
    var n, v, b := Dependencies(Normal, a.dependencies), Dependencies(Development, a.dependencies),
                   Dependencies(Build, a.dependencies);
    ResolvedGroupHits(n, paths);
    ResolvedGroupHits(v, paths);
    ResolvedGroupHits(b, paths);
  }

  lemma OneMoreArtifact(front: seq<CatalogArtifact>, last: CatalogArtifact, paths: seq<string>)
    requires Increasing(paths) && Within(last, paths)
    requires TotalDependents(front, paths) == TotalDependencies(front)
    ensures TotalDependents(front + [last], paths) == TotalDependencies(front + [last])
  {
    DependentsOfOneMore(front, last, paths);
    GroupsHit(last, paths);
    assert (front + [last])[..|front|] == front;
  }

  lemma {:induction false} CountBothWays(artifacts: seq<CatalogArtifact>, paths: seq<string>)
    requires Increasing(paths) && forall i :: 0 <= i < |artifacts| ==> Within(artifacts[i], paths)
    ensures TotalDependents(artifacts, paths) == TotalDependencies(artifacts)
  {
    if artifacts == [] {
      NoDependents(paths);
    } else {
      var front, last := artifacts[..|artifacts| - 1], artifacts[|artifacts| - 1];
      CountBothWays(front, paths);
      OneMoreArtifact(front, last, paths);
      assert artifacts == front + [last];
    }
  }

  lemma {:induction false} NoDependents(paths: seq<string>)
    ensures TotalDependents([], paths) == 0
  {
    if paths != [] {
      NoDependents(paths[..|paths| - 1]);
    }
  }

  /** On a validated catalog there are as many reverse edges, over all paths, as dependency entries. */
  lemma EdgesCountedBothWays(index: CatalogIndex)
    requires WellFormedIndex(index)
    ensures TotalDependents(index.artifacts, Paths(index.artifacts)) == TotalDependencies(index.artifacts)
  {
    var artifacts, paths := index.artifacts, Paths(index.artifacts);
    assert Increasing(paths);
    forall i | 0 <= i < |artifacts|
      ensures Within(artifacts[i], paths)
    {
      forall kind, x | x in Dependencies(kind, artifacts[i].dependencies)
        ensures x in paths
      {
        ResolvedEntry(artifacts, Dependencies(kind, artifacts[i].dependencies), x);
      }
      assert forall kind :: GroupResolves(artifacts, Dependencies(kind, artifacts[i].dependencies));
    }
    CountBothWays(artifacts, paths);
  }

  lemma ResolvedEntry(artifacts: seq<CatalogArtifact>, group: seq<string>, x: string)
    requires GroupResolves(artifacts, group) && x in group
    ensures x in Paths(artifacts)
  {
    var n :| 0 <= n < |group| && group[n] == x;
    var k :| 0 <= k < |artifacts| && artifacts[k].path == group[n];
    assert Paths(artifacts)[k] == x;
  }

  // ---------- the catalog ----------

  lemma OnePerPath(artifacts: seq<CatalogArtifact>, i: nat)
    requires PathsIncrease(artifacts) && i < |artifacts|
    ensures forall a :: a in artifacts && a.path == artifacts[i].path ==> a == artifacts[i]
  {
    LessIsTotal(artifacts[i].path, artifacts[i].path);
  }

  lemma OnePerPackage(artifacts: seq<CatalogArtifact>, i: nat)
    requires PackagesDiffer(artifacts) && i < |artifacts|
    ensures forall a :: a in artifacts && a.cargoPackage == artifacts[i].cargoPackage ==> a == artifacts[i]
  {
  }

  class Catalog {
    const index: CatalogIndex
    var byPath: map<string, nat>
    var byPackage: map<string, nat>

    /** Both maps agree with a linear search of the artifacts. */
    ghost predicate Valid()
      reads this
    {
      && PathsIncrease(index.artifacts)
      && PackagesDiffer(index.artifacts)
      && (forall p :: p in byPath ==> byPath[p] < |index.artifacts| && index.artifacts[byPath[p]].path == p)
      && (forall n :: n in byPackage ==>
            byPackage[n] < |index.artifacts| && index.artifacts[byPackage[n]].cargoPackage == n)
      && (forall i :: 0 <= i < |index.artifacts| ==>
            index.artifacts[i].path in byPath && index.artifacts[i].cargoPackage in byPackage)
    }

    constructor FromValidated(index: CatalogIndex)
      requires WellFormedIndex(index)
      ensures Valid() && this.index == index
    {
      this.index := index;
      byPath := map[];
      byPackage := map[];
      new;
      for position := 0 to |index.artifacts|
        invariant this.index == index
        invariant forall p :: p in byPath ==> byPath[p] < position && index.artifacts[byPath[p]].path == p
        invariant forall n :: n in byPackage ==>
                    byPackage[n] < position && index.artifacts[byPackage[n]].cargoPackage == n
        invariant forall i :: 0 <= i < position ==>
                    index.artifacts[i].path in byPath && index.artifacts[i].cargoPackage in byPackage
      {
        var artifact := index.artifacts[position];
        byPath := byPath[artifact.path := position];
        byPackage := byPackage[artifact.cargoPackage := position];
      }
    }

    /** The one artifact at a path, or an error when there is none. */
    method ArtifactByPath(path: string) returns (r: Result<CatalogArtifact, QueryError>)
      requires Valid()
      ensures r.Ok? <==> HasPath(index.artifacts, path)
      ensures r.Ok? ==> r.value.path == path && r.value in index.artifacts
      ensures r.Ok? ==> forall a :: a in index.artifacts && a.path == path ==> a == r.value
      ensures r.Err? ==> r.error == PathNotFound
    {
      if path !in byPath {
        return Err(PathNotFound);
      }
      r := Ok(index.artifacts[byPath[path]]);
      OnePerPath(index.artifacts, byPath[path]);
    }

    /** The one artifact of a Cargo package, or an error when there is none. */
    method ArtifactByCargoPackage(name: string) returns (r: Result<CatalogArtifact, QueryError>)
      requires Valid()
      ensures r.Ok? <==> HasPackage(index.artifacts, name)
      ensures r.Ok? ==> r.value.cargoPackage == name && r.value in index.artifacts
      ensures r.Ok? ==> forall a :: a in index.artifacts && a.cargoPackage == name ==> a == r.value
      ensures r.Err? ==> r.error == PackageNotFound
    {
      if name !in byPackage {
        assert !HasPackage(index.artifacts, name);
        return Err(PackageNotFound);
      }
      OnePerPackage(index.artifacts, byPackage[name]);
      r := Ok(index.artifacts[byPackage[name]]);
    }

    method DirectDependencies(path: string) returns (r: Result<CatalogDependencies, QueryError>)
      requires Valid()
      ensures r.Ok? <==> HasPath(index.artifacts, path)
      ensures r.Ok? ==> forall a :: a in index.artifacts && a.path == path ==> a.dependencies == r.value
    {
      var artifact := ArtifactByPath(path);
      r := if artifact.Ok? then Ok(artifact.value.dependencies) else Err(artifact.error);
    }

    /** The reverse edges of a path, ordered by dependent path and then kind. */
    method DirectDependents(path: string) returns (r: Result<seq<CargoDependent>, QueryError>)
      requires Valid()
      ensures r == if HasPath(index.artifacts, path) then Ok(Dependents(index.artifacts, path)) else Err(PathNotFound)
      ensures r.Ok? ==> InOrder(r.value)
    {
      var known := ArtifactByPath(path);
      if known.Err? {
        return Err(known.error);
      }
      var dependents := Collect(index.artifacts, path);
      FinalSortIsIdentity(index.artifacts, path);
      DependentsInOrder(index.artifacts, path);
      r := Ok(SortBy(dependents, DependentBefore));
    }

    /** The loop over the artifacts. */
    static method Collect(artifacts: seq<CatalogArtifact>, path: string) returns (dependents: seq<CargoDependent>)
      ensures dependents == Dependents(artifacts, path)
    {
      dependents := [];
      for i := 0 to |artifacts|
        invariant dependents == Dependents(artifacts[..i], path)
      {
        var edges := Edges(artifacts[i], path);
        assert artifacts[..i + 1][..i] == artifacts[..i];
        dependents := dependents + edges;
      }
      assert artifacts[..|artifacts|] == artifacts;
    }

    /** The inner loop over the dependency kinds. */
    static method Edges(artifact: CatalogArtifact, path: string) returns (edges: seq<CargoDependent>)
      ensures edges == EdgesOf(artifact, path)
    {
      edges := [];
      for n := 0 to 3
        invariant edges == (if n >= 1 then EdgeIf(artifact, Normal, path) else [])
                           + (if n >= 2 then EdgeIf(artifact, Development, path) else [])
                           + (if n >= 3 then EdgeIf(artifact, Build, path) else [])
      {
        var kind := ALL_KINDS[n];
        if path in Dependencies(kind, artifact.dependencies) {
          edges := edges + [CargoDependent(artifact, kind)];
        }
      }
    }
  }
}
