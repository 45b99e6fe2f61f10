/** The catalog document and the paths its artifacts may have. */
module CatalogModel {
  import opened Wrappers
  import opened CatalogText

  const CATALOG_V1: nat := 1
  const CATALOG_V2: nat := 2
  const CURRENT_SCHEMA_VERSION: nat := CATALOG_V2

  datatype ArtifactKind = Package | Host | Composition | Instance | Example

  datatype DependencyKind = Normal | Development | Build

  datatype CatalogDependencies = CatalogDependencies(
    normal: seq<string>,
    development: seq<string>,
    build: seq<string>)

  datatype CatalogArtifact = CatalogArtifact(
    kind: ArtifactKind,
    category: Option<string>,
    path: string,
    cargoPackage: string,
    version: string,
    description: string,
    publishable: bool,
    readme: Option<string>,
    dependencies: CatalogDependencies)

  datatype CatalogIndex = CatalogIndex(schemaVersion: nat, artifacts: seq<CatalogArtifact>)

  function Dependencies(kind: DependencyKind, dependencies: CatalogDependencies): seq<string> {
    match kind
    case Normal => dependencies.normal
    case Development => dependencies.development
    case Build => dependencies.build
  }

  const ALL_KINDS: seq<DependencyKind> := [Normal, Development, Build]

  /** The catalog root a kind of artifact lives under. */
  function RootOf(kind: ArtifactKind): string {
    match kind
    case Package => "packages"
    case Host => "hosts"
    case Composition => "compositions"
    case Instance => "instances"
    case Example => "examples"
  }

  predicate HasCategory(kind: ArtifactKind) {
    kind.Package? || kind.Composition? || kind.Instance?
  }

  /** The segments of the path of an artifact called `name`. */
  function PathSegments(kind: ArtifactKind, category: Option<string>, name: string): seq<string> {
    if category.Some? then [RootOf(kind), category.value, name] else [RootOf(kind), name]
  }

  /** A usable path segment. */
  predicate Plain(segment: string) {
    segment != "" && segment != "." && segment != ".." && '/' !in segment && '\\' !in segment
  }

  /** `path` is the canonical path of an artifact of this kind and category. */
  ghost predicate IsArtifactPath(kind: ArtifactKind, category: Option<string>, path: string) {
    && (category.Some? <==> HasCategory(kind))
    && (category.Some? ==> Plain(category.value))
    && exists name :: Plain(name) && path == Join(PathSegments(kind, category, name))
  }

  /** The kind and category a list of segments stands for, by shape alone. */
  function Classify(parts: seq<string>): Option<(ArtifactKind, Option<string>)> {
    if |parts| == 3 && parts[0] == "packages" then Some((Package, Some(parts[1])))
    else if |parts| == 2 && parts[0] == "hosts" then Some((Host, None))
    else if |parts| == 3 && parts[0] == "compositions" then Some((Composition, Some(parts[1])))
    else if |parts| == 3 && parts[0] == "instances" then Some((Instance, Some(parts[1])))
    else if |parts| == 2 && parts[0] == "examples" then Some((Example, None))
    else None
  }

  /** Classification by shape inverts the layout of artifact paths. */
  lemma ClassifyInvertsLayout(parts: seq<string>, kind: ArtifactKind, category: Option<string>)
    ensures Classify(parts) == Some((kind, category)) <==>
              && (category.Some? <==> HasCategory(kind))
              && exists name :: parts == PathSegments(kind, category, name)
  {
    if Classify(parts) == Some((kind, category)) {
      assert parts == PathSegments(kind, category, parts[|parts| - 1]);
    }
  }
}
