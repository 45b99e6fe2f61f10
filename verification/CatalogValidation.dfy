/** The strict validator of catalog documents, and the declarative rule it decides. */
module CatalogValidation {
  import opened Wrappers
  import opened CatalogText
  import opened CatalogModel

  datatype CatalogSchema = V1 | V2

  datatype CatalogError =
    | UnsupportedVersion
    | DuplicatePath
    | UnsortedPaths
    | DuplicatePackage
    | InvalidPath
    | InvalidTopology
    | KindMismatch
    | CategoryMismatch
    | MissingCategory
    | UnexpectedCategory
    | EmptyPackage
    | EmptyVersion
    | BlankDescription
    | WrongReadme
    | DuplicateDependency
    | UnsortedDependencies
    | DanglingDependency

  function FromVersion(version: nat): Result<CatalogSchema, CatalogError> {
    if version == CATALOG_V1 then Ok(V1) else if version == CATALOG_V2 then Ok(V2) else Err(UnsupportedVersion)
  }

  // ---------- the declarative rule ----------

  ghost predicate WellFormedArtifact(schema: CatalogSchema, a: CatalogArtifact) {
    && IsArtifactPath(a.kind, a.category, a.path)
    && (a.kind.Instance? ==> schema == V2)
    && a.cargoPackage != ""
    && a.version != ""
    && !IsBlank(a.description)
    && (a.readme.Some? ==> a.readme.value == a.path + "/README.md")
  }

  ghost predicate PathsIncrease(artifacts: seq<CatalogArtifact>) {
    forall i, j :: 0 <= i < j < |artifacts| ==> Less(artifacts[i].path, artifacts[j].path)
  }

  ghost predicate PackagesDiffer(artifacts: seq<CatalogArtifact>) {
    forall i, j :: 0 <= i < j < |artifacts| ==> artifacts[i].cargoPackage != artifacts[j].cargoPackage
  }

  ghost predicate HasPath(artifacts: seq<CatalogArtifact>, path: string) {
    exists i :: 0 <= i < |artifacts| && artifacts[i].path == path
  }

  ghost predicate HasPackage(artifacts: seq<CatalogArtifact>, name: string) {
    exists i :: 0 <= i < |artifacts| && artifacts[i].cargoPackage == name
  }

  /** A dependency group is strictly increasing and every entry is the path of an artifact. */
  ghost predicate GroupResolves(artifacts: seq<CatalogArtifact>, group: seq<string>) {
    Increasing(group) && forall i :: 0 <= i < |group| ==> HasPath(artifacts, group[i])
  }

  ghost predicate WellFormedIndex(index: CatalogIndex) {
    && FromVersion(index.schemaVersion).Ok?
    && PathsIncrease(index.artifacts)
    && PackagesDiffer(index.artifacts)
    && (forall i :: 0 <= i < |index.artifacts| ==>
          WellFormedArtifact(FromVersion(index.schemaVersion).value, index.artifacts[i]))
    && forall i, kind :: 0 <= i < |index.artifacts| ==>
         GroupResolves(index.artifacts, Dependencies(kind, index.artifacts[i].dependencies))
  }

  // ---------- paths ----------

  predicate CanonicalText(path: string) {
    && path != ""
    && path[0] != '/'
    && path[|path| - 1] != '/'
    && '\\' !in path
    && forall i :: 0 <= i < |Segments(path)| ==>
         Segments(path)[i] != "" && Segments(path)[i] != "." && Segments(path)[i] != ".."
  }

  /** `classify_catalog_path`: canonical text, then topology; V1 knows no instances. */
  function ClassifyCatalogPath(schema: CatalogSchema, path: string)
    : Result<(ArtifactKind, Option<string>), CatalogError>
  {
    if !CanonicalText(path) then Err(InvalidPath)
    else
      match Classify(Segments(path))
      case None => Err(InvalidTopology)
      case Some((kind, category)) =>
        if kind.Instance? && schema != V2 then Err(InvalidTopology) else Ok((kind, category))
  }

  lemma {:induction false} JoinEnds(segments: seq<string>)
    requires segments != [] && forall i :: 0 <= i < |segments| ==> Plain(segments[i])
    ensures var path := Join(segments); path != "" && path[0] != '/' && path[|path| - 1] != '/'
    ensures '\\' !in Join(segments)
  {
    if |segments| > 1 {
      JoinEnds(segments[1..]);
    }
  }

  lemma PlainSegments(path: string)
    requires CanonicalText(path)
    ensures forall i :: 0 <= i < |Segments(path)| ==> Plain(Segments(path)[i])
  {
    JoinOfSegments(path);
    CharInJoin(Segments(path), '\\');
  }

  lemma ClassifiedIsArtifactPath(path: string, kind: ArtifactKind, category: Option<string>)
    requires CanonicalText(path) && Classify(Segments(path)) == Some((kind, category))
    ensures IsArtifactPath(kind, category, path)
  {
    var parts := Segments(path);
    ClassifyInvertsLayout(parts, kind, category);
    JoinOfSegments(path);
    PlainSegments(path);
    var name :| parts == PathSegments(kind, category, name);
    assert name == parts[|parts| - 1] && (category.Some? ==> category.value == parts[1]);
    assert Plain(name) && path == Join(PathSegments(kind, category, name));
  }

  lemma ArtifactPathIsClassified(path: string, kind: ArtifactKind, category: Option<string>)
    requires IsArtifactPath(kind, category, path)
    ensures CanonicalText(path) && Classify(Segments(path)) == Some((kind, category))
  {
    var name :| Plain(name) && path == Join(PathSegments(kind, category, name));
    var segments := PathSegments(kind, category, name);
    PlainLayout(kind, category, name);
    SegmentsOfJoin(segments);
    JoinEnds(segments);
    ClassifyInvertsLayout(segments, kind, category);
  }

  lemma PlainLayout(kind: ArtifactKind, category: Option<string>, name: string)
    requires Plain(name) && (category.Some? ==> Plain(category.value))
    ensures var segments := PathSegments(kind, category, name);
      segments != [] && forall i :: 0 <= i < |segments| ==> Plain(segments[i])
  {
  }

  /** The validator's classification succeeds exactly on the canonical artifact paths. */
  lemma ClassificationIsExact(schema: CatalogSchema, path: string, kind: ArtifactKind, category: Option<string>)
    ensures ClassifyCatalogPath(schema, path) == Ok((kind, category))
            <==> IsArtifactPath(kind, category, path) && (kind.Instance? ==> schema == V2)
  {
    if ClassifyCatalogPath(schema, path) == Ok((kind, category)) {
      ClassifiedIsArtifactPath(path, kind, category);
    }
    if IsArtifactPath(kind, category, path) {
      ArtifactPathIsClassified(path, kind, category);
    }
  }

  // ---------- the validator ----------

  /** The path is that of an artifact the schema knows, of this kind and category. */
  ghost predicate PathSays(schema: CatalogSchema, path: string, kind: ArtifactKind, category: Option<string>) {
    IsArtifactPath(kind, category, path) && (kind.Instance? ==> schema == V2)
  }

  /** What is wrong with an artifact that is refused for this reason. */
  ghost predicate ArtifactBreaks(schema: CatalogSchema, a: CatalogArtifact, error: CatalogError) {
    match error
    case InvalidPath => !CanonicalText(a.path)
    case InvalidTopology => CanonicalText(a.path) && forall kind, category :: !PathSays(schema, a.path, kind, category)
    case KindMismatch => exists kind, category :: PathSays(schema, a.path, kind, category) && kind != a.kind
    case CategoryMismatch =>
      exists category ::
        PathSays(schema, a.path, a.kind, Some(category)) && a.category.Some? && a.category.value != category
    case MissingCategory => a.category.None? && HasCategory(a.kind)
    case UnexpectedCategory => a.category.Some? && !HasCategory(a.kind)
    case EmptyPackage => a.cargoPackage == ""
    case EmptyVersion => a.version == ""
    case BlankDescription => IsBlank(a.description)
    case WrongReadme => a.readme.Some? && a.readme.value != a.path + "/README.md"
    case _ => false
  }

  /** A path the validator refuses is not canonical text, or has no shape the schema knows. */
  lemma RefusedPath(schema: CatalogSchema, a: CatalogArtifact)
    requires ClassifyCatalogPath(schema, a.path).Err?
    ensures ArtifactBreaks(schema, a, ClassifyCatalogPath(schema, a.path).error)
  {
    forall kind, category
      ensures !PathSays(schema, a.path, kind, category)
    {
      ClassificationIsExact(schema, a.path, kind, category);
    }
  }

  method ValidateArtifact(schema: CatalogSchema, artifact: CatalogArtifact) returns (r: Result<(), CatalogError>)
    ensures r.Ok? <==> WellFormedArtifact(schema, artifact)
    ensures r.Err? ==> ArtifactBreaks(schema, artifact, r.error)
  {
    ClassificationIsExact(schema, artifact.path, artifact.kind, artifact.category);
    var path := ClassifyCatalogPath(schema, artifact.path);
    if path.Err? {
      RefusedPath(schema, artifact);
      return Err(path.error);
    }
    var (kind, category) := path.value;
    ClassificationIsExact(schema, artifact.path, kind, category);
    assert PathSays(schema, artifact.path, kind, category);
    if kind != artifact.kind {
      return Err(KindMismatch);
    }
    match (category, artifact.category) {
      case (Some(expected), Some(actual)) =>
        if actual != expected {
          return Err(CategoryMismatch);
        }
      case (Some(_), None) => return Err(MissingCategory);
      case (None, Some(_)) => return Err(UnexpectedCategory);
      case (None, None) =>
    }
    if artifact.cargoPackage == "" {
      return Err(EmptyPackage);
    }
    if artifact.version == "" {
      return Err(EmptyVersion);
    }
    if IsBlank(artifact.description) {
      return Err(BlankDescription);
    }
    if artifact.readme.Some? && artifact.readme.value != artifact.path + "/README.md" {
      return Err(WrongReadme);
    }
    r := Ok(());
  }

  /** What is wrong with a group that is refused for this reason. */
  ghost predicate GroupBreaks(artifacts: seq<CatalogArtifact>, group: seq<string>, error: CatalogError) {
    match error
    case DuplicateDependency => exists i, j :: 0 <= i < j < |group| && group[i] == group[j]
    case UnsortedDependencies => exists i, j :: 0 <= i < j < |group| && Less(group[j], group[i])
    case DanglingDependency => exists i :: 0 <= i < |group| && !HasPath(artifacts, group[i])
    case _ => false
  }

  method ValidateDependencyGroup(artifact: CatalogArtifact, kind: DependencyKind, paths: set<string>,
                                 ghost artifacts: seq<CatalogArtifact>)
    returns (r: Result<(), CatalogError>)
    requires forall p :: p in paths <==> HasPath(artifacts, p)
    ensures r.Ok? <==> GroupResolves(artifacts, Dependencies(kind, artifact.dependencies))
    ensures r.Err? ==> GroupBreaks(artifacts, Dependencies(kind, artifact.dependencies), r.error)
  {
    var group := Dependencies(kind, artifact.dependencies);
    var previous: Option<string> := None;
    for i := 0 to |group|
      invariant previous == if i == 0 then None else Some(group[i - 1])
      invariant forall k :: 0 < k < i ==> Less(group[k - 1], group[k])
      invariant forall k :: 0 <= k < i ==> HasPath(artifacts, group[k])
    {
      var dependency := group[i];
      if previous.Some? {
        LessIsTotal(previous.value, dependency);
        if previous.value == dependency {
          return Err(DuplicateDependency);
        }
        if Less(dependency, previous.value) {
          return Err(UnsortedDependencies);
        }
      }
      previous := Some(dependency);
      if dependency !in paths {
        return Err(DanglingDependency);
      }
    }
    NeighboursSuffice(group);
    r := Ok(());
  }

  predicate StepsUp(artifacts: seq<CatalogArtifact>, i: int)
    requires 0 < i < |artifacts|
  {
    Less(artifacts[i - 1].path, artifacts[i].path)
  }

  lemma PathNeighboursSuffice(artifacts: seq<CatalogArtifact>)
    requires forall i :: 0 < i < |artifacts| ==> StepsUp(artifacts, i)
    ensures PathsIncrease(artifacts)
  {
    var paths := seq(|artifacts|, i requires 0 <= i < |artifacts| => artifacts[i].path);
    forall i | 0 < i < |paths|
      ensures Less(paths[i - 1], paths[i])
    {
      assert StepsUp(artifacts, i);
    }
    NeighboursSuffice(paths);
    forall i, j | 0 <= i < j < |artifacts|
      ensures Less(artifacts[i].path, artifacts[j].path)
    {
      assert Less(paths[i], paths[j]);
    }
  }

  /** What the first loop checks. */
  ghost predicate ArtifactsFit(schema: CatalogSchema, artifacts: seq<CatalogArtifact>) {
    && PathsIncrease(artifacts)
    && PackagesDiffer(artifacts)
    && forall k :: 0 <= k < |artifacts| ==> WellFormedArtifact(schema, artifacts[k])
  }

  /** What is wrong with a list of artifacts that the first loop refuses for this reason. */
  ghost predicate ListBreaks(schema: CatalogSchema, artifacts: seq<CatalogArtifact>, error: CatalogError) {
    match error
    case DuplicatePath => exists i, j :: 0 <= i < j < |artifacts| && artifacts[i].path == artifacts[j].path
    case UnsortedPaths => exists i, j :: 0 <= i < j < |artifacts| && Less(artifacts[j].path, artifacts[i].path)
    case DuplicatePackage => !PackagesDiffer(artifacts)
    case _ => exists a :: a in artifacts && ArtifactBreaks(schema, a, error)
  }

  /** What is wrong with an index that is refused for this reason. */
  ghost predicate IndexBreaks(index: CatalogIndex, error: CatalogError) {
    var schema := FromVersion(index.schemaVersion);
    || (error == UnsupportedVersion && index.schemaVersion != 1 && index.schemaVersion != 2)
    || (schema.Ok? && ListBreaks(schema.value, index.artifacts, error))
    || (schema.Ok? && exists a, kind ::
          a in index.artifacts && GroupBreaks(index.artifacts, Dependencies(kind, a.dependencies), error))
  }

  /** The loop has passed the first `i` artifacts and collected their paths and packages. */
  ghost predicate Passed(schema: CatalogSchema, artifacts: seq<CatalogArtifact>, i: nat,
                         paths: set<string>, packages: set<string>)
    requires i <= |artifacts|
  {
    && (forall k :: 0 < k < i ==> StepsUp(artifacts, k))
    && (forall k :: 0 <= k < i ==> WellFormedArtifact(schema, artifacts[k]))
    && PackagesDiffer(artifacts[..i])
    && Collected(artifacts[..i], paths, packages)
  }

  lemma PassOneMore(schema: CatalogSchema, artifacts: seq<CatalogArtifact>, i: nat,
                    paths: set<string>, packages: set<string>)
    requires i < |artifacts| && Passed(schema, artifacts, i, paths, packages)
    requires (i > 0 ==> StepsUp(artifacts, i)) && WellFormedArtifact(schema, artifacts[i])
    requires artifacts[i].cargoPackage !in packages
    ensures Passed(schema, artifacts, i + 1, paths + {artifacts[i].path}, packages + {artifacts[i].cargoPackage})
  {
    TakeOneMore(artifacts, i);
    CollectOneMore(artifacts[..i], artifacts[i], paths, packages);
  }

  lemma TakeOneMore(artifacts: seq<CatalogArtifact>, i: nat)
    requires i < |artifacts|
    ensures artifacts[..i + 1] == artifacts[..i] + [artifacts[i]]
  {
  }

  lemma PackageTwice(artifacts: seq<CatalogArtifact>, i: nat, paths: set<string>, packages: set<string>)
    requires i < |artifacts| && Collected(artifacts[..i], paths, packages)
    requires artifacts[i].cargoPackage in packages
    ensures !PackagesDiffer(artifacts)
  {
  }

  lemma PassedAll(schema: CatalogSchema, artifacts: seq<CatalogArtifact>, paths: set<string>, packages: set<string>)
    requires Passed(schema, artifacts, |artifacts|, paths, packages)
    ensures ArtifactsFit(schema, artifacts) && forall p :: p in paths <==> HasPath(artifacts, p)
  {
    assert artifacts[..|artifacts|] == artifacts;
    PathNeighboursSuffice(artifacts);
  }

  /** The first loop: order, artifacts and package names; it collects the paths. */
  method ValidateArtifacts(schema: CatalogSchema, artifacts: seq<CatalogArtifact>)
    returns (r: Result<set<string>, CatalogError>)
    ensures r.Ok? <==> ArtifactsFit(schema, artifacts)
    ensures r.Err? ==> ListBreaks(schema, artifacts, r.error)
    ensures r.Ok? ==> forall p :: p in r.value <==> HasPath(artifacts, p)
  {
    var artifactPaths: set<string> := {};
    var cargoPackages: set<string> := {};
    var previousPath: Option<string> := None;
    for i := 0 to |artifacts|
      invariant previousPath == if i == 0 then None else Some(artifacts[i - 1].path)
      invariant Passed(schema, artifacts, i, artifactPaths, cargoPackages)
    {
      var artifact := artifacts[i];
      if previousPath.Some? {
        LessIsTotal(previousPath.value, artifact.path);
        if previousPath.value == artifact.path {
          return Err(DuplicatePath);
        }
        if Less(artifact.path, previousPath.value) {
          return Err(UnsortedPaths);
        }
      }
      previousPath := Some(artifact.path);
      var valid := ValidateArtifact(schema, artifact);
      if valid.Err? {
        assert artifact in artifacts;
        return Err(valid.error);
      }
      if artifact.cargoPackage in cargoPackages {
        PackageTwice(artifacts, i, artifactPaths, cargoPackages);
        return Err(DuplicatePackage);
      }
      PassOneMore(schema, artifacts, i, artifactPaths, cargoPackages);
      artifactPaths := artifactPaths + {artifact.path};
      cargoPackages := cargoPackages + {artifact.cargoPackage};
    }
    PassedAll(schema, artifacts, artifactPaths, cargoPackages);
    r := Ok(artifactPaths);
  }

  /** The validator accepts exactly the well-formed indexes. */
  method ValidateCatalogIndex(index: CatalogIndex) returns (r: Result<(), CatalogError>)
    ensures r.Ok? <==> WellFormedIndex(index)
    ensures r.Err? ==> IndexBreaks(index, r.error)
  {
    var version := FromVersion(index.schemaVersion);
    if version.Err? {
      return Err(version.error);
    }
    var artifacts := index.artifacts;
    var paths := ValidateArtifacts(version.value, artifacts);
    if paths.Err? {
      return Err(paths.error);
    }
    for i := 0 to |artifacts|
      invariant forall k, kind :: 0 <= k < i ==>
                  GroupResolves(artifacts, Dependencies(kind, artifacts[k].dependencies))
    {
      for n := 0 to 3
        invariant forall m :: 0 <= m < n ==>
                    GroupResolves(artifacts, Dependencies(ALL_KINDS[m], artifacts[i].dependencies))
      {
        var valid := ValidateDependencyGroup(artifacts[i], ALL_KINDS[n], paths.value, artifacts);
        if valid.Err? {
          return valid;
        }
      }
      assert ALL_KINDS[0] == Normal && ALL_KINDS[1] == Development && ALL_KINDS[2] == Build;
    }
    r := Ok(());
  }

  ghost predicate Collected(artifacts: seq<CatalogArtifact>, paths: set<string>, packages: set<string>) {
    && (forall p :: p in paths <==> HasPath(artifacts, p))
    && (forall n :: n in packages <==> HasPackage(artifacts, n))
  }

  lemma CollectOneMore(front: seq<CatalogArtifact>, last: CatalogArtifact, paths: set<string>, packages: set<string>)
    requires Collected(front, paths, packages)
    ensures Collected(front + [last], paths + {last.path}, packages + {last.cargoPackage})
    ensures PackagesDiffer(front + [last]) <==> PackagesDiffer(front) && last.cargoPackage !in packages
  {
    var all := front + [last];
    assert all[|front|] == last && all[..|front|] == front;
    forall p
      ensures p in paths + {last.path} <==> HasPath(all, p)
    {
      OneMorePath(front, last, p);
    }
    forall n
      ensures n in packages + {last.cargoPackage} <==> HasPackage(all, n)
    {
      OneMorePackage(front, last, n);
    }
    if last.cargoPackage in packages {
      var k :| 0 <= k < |front| && front[k].cargoPackage == last.cargoPackage;
      assert all[k].cargoPackage == all[|front|].cargoPackage;
    }
  }

  lemma OneMorePackage(front: seq<CatalogArtifact>, last: CatalogArtifact, n: string)
    ensures HasPackage(front + [last], n) <==> HasPackage(front, n) || n == last.cargoPackage
  {
    var all := front + [last];
    assert all[|front|] == last;
    if HasPackage(front, n) {
      var k :| 0 <= k < |front| && front[k].cargoPackage == n;
      assert all[k] == front[k];
    }
  }

  lemma OneMorePath(front: seq<CatalogArtifact>, last: CatalogArtifact, p: string)
    ensures HasPath(front + [last], p) <==> HasPath(front, p) || p == last.path
  {
    var all := front + [last];
    assert all[|front|] == last;
    if HasPath(front, p) {
      var k :| 0 <= k < |front| && front[k].path == p;
      assert all[k] == front[k];
    }
  }
}
