/** The catalog generator: which workspaces it accepts and which index it makes of them. */
module CatalogDiscovery {
  import opened Wrappers
  import opened CatalogText
  import opened CatalogModel
  import opened CatalogValidation

  // ---------- the workspace ----------

  /** The name in a `Component::Normal`. */
  type ComponentName = s: string | s != "" && s != "." && s != ".." && '/' !in s witness "a"

  datatype Component = Root | Current | Up | Named(name: ComponentName)

  /** A path as its components. */
  type FilePath = seq<Component>

  datatype CargoDependency = CargoDependency(name: string, kind: Option<string>)

  datatype CargoPackage = CargoPackage(
    name: string,
    version: string,
    description: Option<string>,
    publish: Option<seq<string>>,
    manifestPath: FilePath,
    dependencies: seq<CargoDependency>)

  /**
   The workspace, with what the file system says about it: the `Cargo.toml` files below the catalog
   roots (`None` when a directory cannot be read) and the artifact paths with a README.
   */
  datatype Workspace = Workspace(
    root: FilePath,
    packages: seq<CargoPackage>,
    manifests: Option<seq<FilePath>>,
    readmes: set<string>)

  datatype DiscoveryError =
    | DuplicateName
    | NoParent
    | OutsideRoot
    | UnsupportedPath
    | DuplicateArtifactPath
    | Unreadable
    | NotAMember
    | MissingDescription

  datatype Classification = Cataloged(kind: ArtifactKind, category: Option<string>) | Ignored

  function Parent(path: FilePath): Option<FilePath> {
    if path == [] || path[|path| - 1] == Root then None else Some(path[..|path| - 1])
  }

  function StripPrefix(path: FilePath, prefix: FilePath): Option<FilePath> {
    if prefix <= path then Some(path[|prefix|..]) else None
  }

  function Names(path: FilePath): seq<string> {
    if path == [] then []
    else (if path[0].Named? then [path[0].name] else []) + Names(path[1..])
  }

  /** `path_to_slash_string`. */
  function SlashString(path: FilePath): string {
    Join(Names(path))
  }

  function ArtifactPath(root: FilePath, manifest: FilePath): Result<string, DiscoveryError> {
    match Parent(manifest)
    case None => Err(NoParent)
    case Some(dir) =>
      match StripPrefix(dir, root)
      case None => Err(OutsideRoot)
      case Some(relative) => Ok(SlashString(relative))
  }

  /** `classify_path`: a catalog root with an unsupported depth is an error, anything else is ignored. */
  function ClassifyPath(path: string): Result<Classification, DiscoveryError> {
    var parts := Segments(path);
    match Classify(parts)
    case Some((kind, category)) => Ok(Cataloged(kind, category))
    case None =>
      if exists kind :: RootOf(kind) == parts[0] then Err(UnsupportedPath) else Ok(Ignored)
  }

  /** Where a package lives and what that makes it. */
  function Place(root: FilePath, p: CargoPackage): Result<(string, Classification), DiscoveryError> {
    match ArtifactPath(root, p.manifestPath)
    case Err(error) => Err(error)
    case Ok(path) =>
      match ClassifyPath(path)
      case Err(error) => Err(error)
      case Ok(classification) => Ok((path, classification))
  }

  predicate Listed(root: FilePath, p: CargoPackage) {
    Place(root, p).Ok? && Place(root, p).value.1.Cataloged?
  }

  function PathOf(root: FilePath, p: CargoPackage): string
    requires Listed(root, p)
  {
    Place(root, p).value.0
  }

  predicate SamePath(root: FilePath, p: CargoPackage, q: CargoPackage) {
    Listed(root, p) && Listed(root, q) && PathOf(root, p) == PathOf(root, q)
  }

  // ---------- what discovery promises ----------

  ghost predicate NamesDiffer(packages: seq<CargoPackage>) {
    forall i, j :: 0 <= i < j < |packages| ==> packages[i].name != packages[j].name
  }

  /** Every package has a place and no two cataloged ones share it. */
  ghost predicate Placed(root: FilePath, packages: seq<CargoPackage>) {
    && (forall p :: p in packages ==> Place(root, p).Ok?)
    && (forall p, q :: p in packages && q in packages && SamePath(root, p, q) ==> p == q)
  }

  /** A `Cargo.toml` below a catalog root must belong to a cataloged workspace member. */
  ghost predicate Represented(ws: Workspace, manifest: FilePath) {
    && ArtifactPath(ws.root, manifest).Ok?
    && var path := ArtifactPath(ws.root, manifest).value;
       && ClassifyPath(path).Ok?
       && (ClassifyPath(path).value.Cataloged? ==>
             exists p :: p in ws.packages && Listed(ws.root, p) && PathOf(ws.root, p) == path)
  }

  predicate Described(p: CargoPackage) {
    p.description.Some? && !IsBlank(p.description.value)
  }

  ghost predicate Discoverable(ws: Workspace) {
    && NamesDiffer(ws.packages)
    && Placed(ws.root, ws.packages)
    && ws.manifests.Some?
    && (forall m :: m in ws.manifests.value ==> Represented(ws, m))
    && (forall p :: p in ws.packages && Listed(ws.root, p) ==> Described(p))
  }

  /** A place that cannot be worked out, for this reason. */
  predicate PlaceFails(root: FilePath, manifest: FilePath, error: DiscoveryError) {
    match ArtifactPath(root, manifest)
    case Err(e) => e == error
    case Ok(path) => ClassifyPath(path) == Err(error)
  }

  /** What is wrong with packages that cannot be classified for this reason. */
  ghost predicate PlacementBreaks(root: FilePath, packages: seq<CargoPackage>, error: DiscoveryError) {
    || (exists p :: p in packages && PlaceFails(root, p.manifestPath, error))
    || (error == DuplicateArtifactPath
        && exists p, q :: p in packages && q in packages && p != q && SamePath(root, p, q))
  }

  /** What is wrong with a manifest that is refused for this reason. */
  ghost predicate ManifestBreaks(ws: Workspace, manifest: FilePath, error: DiscoveryError) {
    || PlaceFails(ws.root, manifest, error)
    || (error == NotAMember && ArtifactPath(ws.root, manifest).Ok?
        && forall p :: p in ws.packages && Listed(ws.root, p) ==>
                         Ok(PathOf(ws.root, p)) != ArtifactPath(ws.root, manifest))
  }

  /** What is wrong with a workspace that discovery refuses for this reason. */
  ghost predicate WorkspaceBreaks(ws: Workspace, error: DiscoveryError) {
    || (error == DuplicateName && !NamesDiffer(ws.packages))
    || PlacementBreaks(ws.root, ws.packages, error)
    || (error == Unreadable && ws.manifests.None?)
    || (ws.manifests.Some? && exists m :: m in ws.manifests.value && ManifestBreaks(ws, m, error))
    || (error == MissingDescription && exists p :: p in ws.packages && Listed(ws.root, p) && !Described(p))
  }

  function KindOf(d: CargoDependency): Option<DependencyKind> {
    if d.kind == None then Some(Normal)
    else if d.kind == Some("dev") then Some(Development)
    else if d.kind == Some("build") then Some(Build)
    else None
  }

  /** `p` declares a dependency of this kind on the cataloged member at `path`. */
  ghost predicate LinksTo(ws: Workspace, p: CargoPackage, kind: DependencyKind, path: string) {
    exists d, q ::
      && d in p.dependencies && KindOf(d) == Some(kind)
      && q in ws.packages && Listed(ws.root, q) && q.name == d.name && PathOf(ws.root, q) == path
  }

  /** The group lists the linked paths, increasing. */
  ghost predicate IsGroupOf(ws: Workspace, p: CargoPackage, kind: DependencyKind, group: seq<string>) {
    Increasing(group) && forall x :: x in group <==> LinksTo(ws, p, kind, x)
  }

  /** `a` is the catalog entry of the package `p`. */
  ghost predicate Describes(ws: Workspace, p: CargoPackage, a: CatalogArtifact) {
    && Listed(ws.root, p)
    && Described(p)
    && a.path == PathOf(ws.root, p)
    && Place(ws.root, p).value.1 == Cataloged(a.kind, a.category)
    && a.cargoPackage == p.name
    && a.version == p.version
    && a.description == p.description.value
    && (a.publishable <==> p.publish.None? || p.publish.value != [])
    && a.readme == (if a.path in ws.readmes then Some(a.path + "/README.md") else None)
    && forall kind {:trigger IsGroupOf(ws, p, kind, Dependencies(kind, a.dependencies))} ::
         IsGroupOf(ws, p, kind, Dependencies(kind, a.dependencies))
  }

  /** Some member of the workspace is described by `a`. */
  ghost predicate HasMember(ws: Workspace, a: CatalogArtifact) {
    exists p :: p in ws.packages && Describes(ws, p, a)
  }

  /** Some artifact describes `p`. */
  ghost predicate HasEntry(ws: Workspace, p: CargoPackage, artifacts: seq<CatalogArtifact>) {
    exists a :: a in artifacts && Describes(ws, p, a)
  }

  /** The index lists exactly the entries of the cataloged members, in path order. */
  ghost predicate IsCatalogOf(ws: Workspace, index: CatalogIndex) {
    && index.schemaVersion == CURRENT_SCHEMA_VERSION
    && PathsIncrease(index.artifacts)
    && (forall a {:trigger HasMember(ws, a)} :: a in index.artifacts ==> HasMember(ws, a))
    && (forall p {:trigger HasEntry(ws, p, index.artifacts)} ::
          p in ws.packages && Listed(ws.root, p) ==> HasEntry(ws, p, index.artifacts))
  }

  // ---------- the generator ----------

  /** The paths of one kind that a dependency list stands for, in list order. */
  function Pushed(dependencies: seq<CargoDependency>, pathByName: map<string, string>, kind: DependencyKind)
    : seq<string>
  {
    if dependencies == [] then []
    else
      var d := dependencies[|dependencies| - 1];
      var front := Pushed(dependencies[..|dependencies| - 1], pathByName, kind);
      if KindOf(d) == Some(kind) && d.name in pathByName then front + [pathByName[d.name]] else front
  }

  lemma {:induction false} PushedElements(dependencies: seq<CargoDependency>, pathByName: map<string, string>,
                                          kind: DependencyKind)
    ensures forall x :: x in Pushed(dependencies, pathByName, kind) <==>
              exists d :: d in dependencies && KindOf(d) == Some(kind) && d.name in pathByName
                          && pathByName[d.name] == x
  {
    if dependencies != [] {
      var front, last := dependencies[..|dependencies| - 1], dependencies[|dependencies| - 1];
      PushedElements(front, pathByName, kind);
      assert dependencies == front + [last];
    }
  }

  /** All groups, sorted and without duplicates. */
  function Projection(dependencies: seq<CargoDependency>, pathByName: map<string, string>): CatalogDependencies {
    CatalogDependencies(Dedup(Sort(Pushed(dependencies, pathByName, Normal))),
                        Dedup(Sort(Pushed(dependencies, pathByName, Development))),
                        Dedup(Sort(Pushed(dependencies, pathByName, Build))))
  }

  lemma OnePush(dependencies: seq<CargoDependency>, i: nat, pathByName: map<string, string>, kind: DependencyKind)
    requires i < |dependencies|
    ensures var d := dependencies[i];
      Pushed(dependencies[..i + 1], pathByName, kind)
      == if KindOf(d) == Some(kind) && d.name in pathByName
         then Pushed(dependencies[..i], pathByName, kind) + [pathByName[d.name]]
         else Pushed(dependencies[..i], pathByName, kind)
  {
    assert dependencies[..i + 1][..i] == dependencies[..i];
  }

  method DependencyProjection(package: CargoPackage, pathByName: map<string, string>)
    returns (r: CatalogDependencies)
    ensures r == Projection(package.dependencies, pathByName)
  {
    var normal: seq<string>, development: seq<string>, build: seq<string> := [], [], [];
    for i := 0 to |package.dependencies|
      invariant normal == Pushed(package.dependencies[..i], pathByName, Normal)
      invariant development == Pushed(package.dependencies[..i], pathByName, Development)
      invariant build == Pushed(package.dependencies[..i], pathByName, Build)
    {
      var dependency := package.dependencies[i];
      OnePush(package.dependencies, i, pathByName, Normal);
      OnePush(package.dependencies, i, pathByName, Development);
      OnePush(package.dependencies, i, pathByName, Build);
      if dependency.name !in pathByName {
        continue;
      }
      var path := pathByName[dependency.name];
      match KindOf(dependency) {
        case Some(Normal) => normal := normal + [path];
        case Some(Development) => development := development + [path];
        case Some(Build) => build := build + [path];
        case None =>
      }
    }
    assert package.dependencies[..|package.dependencies|] == package.dependencies;
    r := CatalogDependencies(Dedup(Sort(normal)), Dedup(Sort(development)), Dedup(Sort(build)));
  }

  /** No two of the packages share a name. */
  method CheckNames(packages: seq<CargoPackage>) returns (ok: bool)
    ensures ok <==> NamesDiffer(packages)
  {
    var names: set<string> := {};
    for i := 0 to |packages|
      invariant forall n :: n in names <==> exists k :: 0 <= k < i && packages[k].name == n
      invariant forall j, k :: 0 <= j < k < i ==> packages[j].name != packages[k].name
    {
      if packages[i].name in names {
        return false;
      }
      names := names + {packages[i].name};
    }
    ok := true;
  }

  /** A cataloged package called `name` lives at `path`. */
  ghost predicate Provides(root: FilePath, packages: seq<CargoPackage>, name: string, path: string) {
    exists p :: p in packages && Listed(root, p) && p.name == name && PathOf(root, p) == path
  }

  /** Packages are filed under their own paths. */
  ghost predicate Keyed(root: FilePath, byPath: map<string, CargoPackage>) {
    forall x {:trigger byPath[x]} :: x in byPath ==> Listed(root, byPath[x]) && PathOf(root, byPath[x]) == x
  }

  ghost predicate PathsClassified(root: FilePath, packages: seq<CargoPackage>, byPath: map<string, CargoPackage>) {
    && (forall p {:trigger Listed(root, p)} :: p in packages && Listed(root, p) ==>
          PathOf(root, p) in byPath && byPath[PathOf(root, p)] == p)
    && Keyed(root, byPath)
    && (forall x {:trigger byPath[x]} :: x in byPath ==> byPath[x] in packages)
  }

  ghost predicate NamesClassified(root: FilePath, packages: seq<CargoPackage>, pathByName: map<string, string>) {
    && (forall p {:trigger Listed(root, p)} :: p in packages && Listed(root, p) ==>
          p.name in pathByName && pathByName[p.name] == PathOf(root, p))
    && (forall n {:trigger Provides(root, packages, n, pathByName[n])} ::
          n in pathByName ==> Provides(root, packages, n, pathByName[n]))
  }

  /** The two maps of the classification loop describe exactly the listed packages. */
  ghost predicate Classified(root: FilePath, packages: seq<CargoPackage>,
                             byPath: map<string, CargoPackage>, pathByName: map<string, string>)
  {
    PathsClassified(root, packages, byPath) && NamesClassified(root, packages, pathByName)
  }

  /** The classification loop: place every package and fill both maps. */
  method ClassifyPackages(root: FilePath, packages: seq<CargoPackage>)
    returns (r: Result<(map<string, CargoPackage>, map<string, string>), DiscoveryError>)
    requires NamesDiffer(packages)
    ensures r.Ok? <==> Placed(root, packages)
    ensures r.Err? ==> PlacementBreaks(root, packages, r.error)
    ensures r.Ok? ==> Classified(root, packages, r.value.0, r.value.1)
  {
    var byPath: map<string, CargoPackage> := map[];
    var pathByName: map<string, string> := map[];
    for i := 0 to |packages|
      invariant forall p :: p in packages[..i] ==> Place(root, p).Ok?
      invariant Classified(root, packages[..i], byPath, pathByName)
    {
      var package := packages[i];
      assert packages[..i + 1] == packages[..i] + [package];
      var path := ArtifactPath(root, package.manifestPath);
      if path.Err? {
        Misplaced(root, packages, i);
        assert package in packages && PlaceFails(root, package.manifestPath, path.error);
        return Err(path.error);
      }
      var classification := ClassifyPath(path.value);
      if classification.Err? {
        Misplaced(root, packages, i);
        assert package in packages && PlaceFails(root, package.manifestPath, classification.error);
        return Err(classification.error);
      }
      if classification.value.Ignored? {
        ClassifyIgnored(root, packages[..i], package, byPath, pathByName);
        continue;
      }
      if path.value in byPath {
        Clash(root, packages, i, byPath);
        return Err(DuplicateArtifactPath);
      }
      NewName(packages, i);
      ClassifyOnePath(root, packages[..i], package, byPath);
      ClassifyOneName(root, packages[..i], package, pathByName);
      byPath := byPath[path.value := package];
      pathByName := pathByName[package.name := path.value];
    }
    assert packages[..|packages|] == packages;
    r := Ok((byPath, pathByName));
  }

  lemma Misplaced(root: FilePath, packages: seq<CargoPackage>, i: nat)
    requires i < |packages| && Place(root, packages[i]).Err?
    ensures !Placed(root, packages)
  {
  }

  lemma Clash(root: FilePath, packages: seq<CargoPackage>, i: nat, byPath: map<string, CargoPackage>)
    requires NamesDiffer(packages) && i < |packages| && Listed(root, packages[i])
    requires PathsClassified(root, packages[..i], byPath)
    requires PathOf(root, packages[i]) in byPath
    ensures !Placed(root, packages) && PlacementBreaks(root, packages, DuplicateArtifactPath)
  {
    var p, q := packages[i], byPath[PathOf(root, packages[i])];
    NewName(packages, i);
    assert p in packages && q in packages && p != q && SamePath(root, p, q);
  }

  lemma ProvidesMore(root: FilePath, seen: seq<CargoPackage>, p: CargoPackage)
    ensures forall n, x :: Provides(root, seen, n, x) ==> Provides(root, seen + [p], n, x)
    ensures Listed(root, p) ==> Provides(root, seen + [p], p.name, PathOf(root, p))
  {
  }

  lemma ClassifyIgnored(root: FilePath, seen: seq<CargoPackage>, p: CargoPackage,
                        byPath: map<string, CargoPackage>, pathByName: map<string, string>)
    requires !Listed(root, p) && Classified(root, seen, byPath, pathByName)
    ensures Classified(root, seen + [p], byPath, pathByName)
  {
    ProvidesMore(root, seen, p);
  }

  lemma NewName(packages: seq<CargoPackage>, i: nat)
    requires NamesDiffer(packages) && i < |packages|
    ensures forall q :: q in packages[..i] ==> q.name != packages[i].name
  {
  }

  lemma ClassifyOnePath(root: FilePath, seen: seq<CargoPackage>, p: CargoPackage, byPath: map<string, CargoPackage>)
    requires Listed(root, p) && PathOf(root, p) !in byPath && PathsClassified(root, seen, byPath)
    ensures PathsClassified(root, seen + [p], byPath[PathOf(root, p) := p])
  {
  }

  lemma ClassifyOneName(root: FilePath, seen: seq<CargoPackage>, p: CargoPackage, pathByName: map<string, string>)
    requires Listed(root, p) && (forall q :: q in seen ==> q.name != p.name)
    requires NamesClassified(root, seen, pathByName)
    ensures NamesClassified(root, seen + [p], pathByName[p.name := PathOf(root, p)])
  {
    ProvidesMore(root, seen, p);
  }

  /** Every `Cargo.toml` below the catalog roots belongs to a cataloged member. */
  method CheckManifests(ws: Workspace, represented: set<string>, manifests: seq<FilePath>)
    returns (r: Result<(), DiscoveryError>)
    requires forall x :: x in represented <==>
               exists p :: p in ws.packages && Listed(ws.root, p) && PathOf(ws.root, p) == x
    ensures r.Ok? <==> forall m :: m in manifests ==> Represented(ws, m)
    ensures r.Err? ==> exists m :: m in manifests && ManifestBreaks(ws, m, r.error)
  {
    for i := 0 to |manifests|
      invariant forall k :: 0 <= k < i ==> Represented(ws, manifests[k])
    {
      var path := ArtifactPath(ws.root, manifests[i]);
      if path.Err? {
        assert !Represented(ws, manifests[i]) && ManifestBreaks(ws, manifests[i], path.error);
        return Err(path.error);
      }
      var classification := ClassifyPath(path.value);
      if classification.Err? {
        assert !Represented(ws, manifests[i]) && ManifestBreaks(ws, manifests[i], classification.error);
        return Err(classification.error);
      }
      if classification.value.Cataloged? && path.value !in represented {
        assert !Represented(ws, manifests[i]) && ManifestBreaks(ws, manifests[i], NotAMember);
        return Err(NotAMember);
      }
    }
    r := Ok(());
  }

  lemma ProjectionGroup(ws: Workspace, p: CargoPackage, byPath: map<string, CargoPackage>,
                        pathByName: map<string, string>, kind: DependencyKind)
    requires Classified(ws.root, ws.packages, byPath, pathByName)
    ensures IsGroupOf(ws, p, kind, Dependencies(kind, Projection(p.dependencies, pathByName)))
  {
    var pushed := Pushed(p.dependencies, pathByName, kind);
    SortDedup(pushed);
    PushedElements(p.dependencies, pathByName, kind);
    assert Dependencies(kind, Projection(p.dependencies, pathByName)) == Dedup(Sort(pushed));
    forall x
      ensures x in pushed <==> LinksTo(ws, p, kind, x)
    {
      if x in pushed {
        var d :| d in p.dependencies && KindOf(d) == Some(kind) && d.name in pathByName && pathByName[d.name] == x;
        assert Provides(ws.root, ws.packages, d.name, x);
      }
    }
  }

  predicate PathBefore(a: CatalogArtifact, b: CatalogArtifact) {
    Less(a.path, b.path)
  }

  /** `a` describes the package filed under its path. */
  ghost predicate IsEntry(ws: Workspace, byPath: map<string, CargoPackage>, a: CatalogArtifact) {
    a.path in byPath && Describes(ws, byPath[a.path], a)
  }

  ghost predicate EntryAt(ws: Workspace, byPath: map<string, CargoPackage>, path: string, a: CatalogArtifact) {
    a.path == path && IsEntry(ws, byPath, a)
  }

  /** One round of the last loop. */
  method BuildArtifact(ws: Workspace, path: string, byPath: map<string, CargoPackage>,
                       pathByName: map<string, string>)
    returns (r: Result<CatalogArtifact, DiscoveryError>)
    requires Classified(ws.root, ws.packages, byPath, pathByName) && path in byPath
    ensures r.Ok? <==> Described(byPath[path])
    ensures r.Err? ==> r.error == MissingDescription
    ensures r.Ok? ==> EntryAt(ws, byPath, path, r.value)
  {
    var package := byPath[path];
    if package.description.None? || IsBlank(package.description.value) {
      return Err(MissingDescription);
    }
    var place := Place(ws.root, package).value.1;
    var readme := if path in ws.readmes then Some(path + "/README.md") else None;
    var publishable := package.publish.None? || package.publish.value != [];
    var dependencies := DependencyProjection(package, pathByName);
    forall kind {
      ProjectionGroup(ws, package, byPath, pathByName, kind);
    }
    r := Ok(CatalogArtifact(place.kind, place.category, path, package.name, package.version,
                            package.description.value, publishable, readme, dependencies));
  }

  ghost predicate AllDescribed(byPath: map<string, CargoPackage>) {
    forall x :: x in byPath ==> Described(byPath[x])
  }

  /** One entry for every filed package, in path order. */
  ghost predicate AreEntries(ws: Workspace, byPath: map<string, CargoPackage>, artifacts: seq<CatalogArtifact>) {
    && PathsIncrease(artifacts)
    && (forall a :: a in artifacts ==> IsEntry(ws, byPath, a))
    && (forall x :: x in byPath ==> HasPath(artifacts, x))
  }

  /** The last loop: one entry per cataloged path, in key order. */
  method BuildArtifacts(ws: Workspace, byPath: map<string, CargoPackage>, pathByName: map<string, string>)
    returns (r: Result<seq<CatalogArtifact>, DiscoveryError>)
    requires Classified(ws.root, ws.packages, byPath, pathByName)
    ensures r.Ok? <==> AllDescribed(byPath)
    ensures r.Err? ==> r.error == MissingDescription
    ensures r.Ok? ==> AreEntries(ws, byPath, r.value)
  {
    var paths := Ascending(byPath.Keys);
    var artifacts: seq<CatalogArtifact> := [];
    for i := 0 to |paths|
      invariant Paired(ws, byPath, paths[..i], artifacts)
    {
      assert paths[i] in byPath;
      var artifact := BuildArtifact(ws, paths[i], byPath, pathByName);
      if artifact.Err? {
        return Err(artifact.error);
      }
      PairOneMore(ws, byPath, paths, i, artifacts, artifact.value);
      artifacts := artifacts + [artifact.value];
    }
    assert paths[..|paths|] == paths;
    EntriesInOrder(ws, byPath, paths, artifacts);
    r := Ok(SortBy(artifacts, PathBefore));
  }

  ghost predicate Paired(ws: Workspace, byPath: map<string, CargoPackage>, paths: seq<string>,
                         artifacts: seq<CatalogArtifact>) {
    && |artifacts| == |paths|
    && forall k :: 0 <= k < |paths| ==> EntryAt(ws, byPath, paths[k], artifacts[k])
  }

  lemma PairOneMore(ws: Workspace, byPath: map<string, CargoPackage>, paths: seq<string>, i: nat,
                    artifacts: seq<CatalogArtifact>, a: CatalogArtifact)
    requires i < |paths| && Paired(ws, byPath, paths[..i], artifacts) && EntryAt(ws, byPath, paths[i], a)
    ensures Paired(ws, byPath, paths[..i + 1], artifacts + [a])
  {
  }

  lemma EntriesInOrder(ws: Workspace, byPath: map<string, CargoPackage>, paths: seq<string>,
                       artifacts: seq<CatalogArtifact>)
    requires Increasing(paths) && Paired(ws, byPath, paths, artifacts) && forall x :: x in paths <==> x in byPath
    ensures AllDescribed(byPath) && AreEntries(ws, byPath, artifacts)
    ensures SortBy(artifacts, PathBefore) == artifacts
  {
    PairedIncreases(ws, byPath, paths, artifacts);
    forall a | a in artifacts
      ensures IsEntry(ws, byPath, a)
    {
      PairedIsEntry(ws, byPath, paths, artifacts, a);
    }
    forall x | x in byPath
      ensures Described(byPath[x]) && HasPath(artifacts, x)
    {
      PairedCovers(ws, byPath, paths, artifacts, x);
    }
    AlreadySorted(artifacts);
  }

  lemma AlreadySorted(artifacts: seq<CatalogArtifact>)
    requires PathsIncrease(artifacts)
    ensures SortBy(artifacts, PathBefore) == artifacts
  {
    LessIsAsymmetric(artifacts);
    SortByKeepsSorted(artifacts, PathBefore);
  }

  lemma PairedIsEntry(ws: Workspace, byPath: map<string, CargoPackage>, paths: seq<string>,
                      artifacts: seq<CatalogArtifact>, a: CatalogArtifact)
    requires Paired(ws, byPath, paths, artifacts) && a in artifacts
    ensures IsEntry(ws, byPath, a)
  {
  }

  lemma PairedCovers(ws: Workspace, byPath: map<string, CargoPackage>, paths: seq<string>,
                     artifacts: seq<CatalogArtifact>, x: string)
    requires Paired(ws, byPath, paths, artifacts) && x in paths && x in byPath
    ensures Described(byPath[x]) && HasPath(artifacts, x)
  {
  }

  lemma PairedIncreases(ws: Workspace, byPath: map<string, CargoPackage>, paths: seq<string>,
                        artifacts: seq<CatalogArtifact>)
    requires Increasing(paths) && Paired(ws, byPath, paths, artifacts)
    ensures PathsIncrease(artifacts)
  {
  }

  lemma LessIsAsymmetric(artifacts: seq<CatalogArtifact>)
    requires PathsIncrease(artifacts)
    ensures forall i :: 0 < i < |artifacts| ==> !PathBefore(artifacts[i], artifacts[i - 1])
  {
    forall i | 0 < i < |artifacts|
      ensures !PathBefore(artifacts[i], artifacts[i - 1])
    {
      LessIsTotal(artifacts[i].path, artifacts[i - 1].path);
    }
  }

  /** The generator succeeds exactly on discoverable workspaces, and then returns their catalog. */
  method DiscoverCatalog(ws: Workspace) returns (r: Result<CatalogIndex, DiscoveryError>)
    ensures r.Ok? <==> Discoverable(ws)
    ensures r.Err? ==> WorkspaceBreaks(ws, r.error)
    ensures r.Ok? ==> IsCatalogOf(ws, r.value)
  {
    var distinct := CheckNames(ws.packages);
    if !distinct {
      return Err(DuplicateName);
    }
    var maps := ClassifyPackages(ws.root, ws.packages);
    if maps.Err? {
      return Err(maps.error);
    }
    var (byPath, pathByName) := maps.value;
    if ws.manifests.None? {
      return Err(Unreadable);
    }
    var members := CheckManifests(ws, byPath.Keys, ws.manifests.value);
    if members.Err? {
      return Err(members.error);
    }
    var artifacts := BuildArtifacts(ws, byPath, pathByName);
    MembersDescribed(ws, byPath, pathByName);
    if artifacts.Err? {
      return Err(artifacts.error);
    }
    CatalogFromEntries(ws, byPath, artifacts.value);
    r := Ok(CatalogIndex(CURRENT_SCHEMA_VERSION, artifacts.value));
  }

  lemma MembersDescribed(ws: Workspace, byPath: map<string, CargoPackage>, pathByName: map<string, string>)
    requires Classified(ws.root, ws.packages, byPath, pathByName)
    ensures AllDescribed(byPath)
            <==> (forall p :: p in ws.packages && Listed(ws.root, p) ==> Described(p))
  {
  }

  lemma CatalogFromEntries(ws: Workspace, byPath: map<string, CargoPackage>, artifacts: seq<CatalogArtifact>)
    requires PathsClassified(ws.root, ws.packages, byPath) && AreEntries(ws, byPath, artifacts)
    ensures IsCatalogOf(ws, CatalogIndex(CURRENT_SCHEMA_VERSION, artifacts))
  {
    forall a | a in artifacts
      ensures HasMember(ws, a)
    {
      assert IsEntry(ws, byPath, a);
    }
    forall p | p in ws.packages && Listed(ws.root, p)
      ensures HasEntry(ws, p, artifacts)
    {
      var i :| 0 <= i < |artifacts| && artifacts[i].path == PathOf(ws.root, p);
      assert IsEntry(ws, byPath, artifacts[i]);
    }
  }
}
