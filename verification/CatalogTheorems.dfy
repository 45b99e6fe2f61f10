/** How the generator, the validator and the order of the workspace fit together. */
module CatalogTheorems {
  import opened Wrappers
  import opened CatalogText
  import opened CatalogModel
  import opened CatalogValidation
  import opened CatalogDiscovery

  // ---------- one catalog per workspace ----------

  lemma {:induction false} PathsDetermine(a: seq<CatalogArtifact>, b: seq<CatalogArtifact>)
    requires PathsIncrease(a) && PathsIncrease(b)
    requires forall x :: x in a <==> x in b
    ensures a == b
  {
    var s := seq(|a|, i requires 0 <= i < |a| => a[i].path);
    var t := seq(|b|, i requires 0 <= i < |b| => b[i].path);
    forall x
      ensures x in s <==> x in t
    {
      if x in s {
        var i :| 0 <= i < |a| && s[i] == x;
        assert a[i] in b;
        var j :| 0 <= j < |b| && b[j] == a[i];
        assert t[j] == x;
      }
      if x in t {
        var j :| 0 <= j < |b| && t[j] == x;
        assert b[j] in a;
        var i :| 0 <= i < |a| && a[i] == b[j];
        assert s[i] == x;
      }
    }
    IncreasingIsUnique(s, t);
    forall i | 0 <= i < |a|
      ensures a[i] == b[i]
    {
      assert a[i] in b;
      var j :| 0 <= j < |b| && b[j] == a[i];
      assert s[i] == t[j] == t[i];
      LessIsTotal(t[i], t[j]);
      assert i == j;
    }
  }

  lemma DescriptionsAgree(ws: Workspace, p: CargoPackage, a: CatalogArtifact, b: CatalogArtifact)
    requires Describes(ws, p, a) && Describes(ws, p, b)
    ensures a == b
  {
    forall kind
      ensures Dependencies(kind, a.dependencies) == Dependencies(kind, b.dependencies)
    {
      assert IsGroupOf(ws, p, kind, Dependencies(kind, a.dependencies));
      assert IsGroupOf(ws, p, kind, Dependencies(kind, b.dependencies));
      IncreasingIsUnique(Dependencies(kind, a.dependencies), Dependencies(kind, b.dependencies));
    }
    assert Dependencies(Normal, a.dependencies) == Dependencies(Normal, b.dependencies);
    assert Dependencies(Development, a.dependencies) == Dependencies(Development, b.dependencies);
    assert Dependencies(Build, a.dependencies) == Dependencies(Build, b.dependencies);
  }

  /** A workspace has at most one catalog. */
  lemma CatalogIsUnique(ws: Workspace, a: CatalogIndex, b: CatalogIndex)
    requires IsCatalogOf(ws, a) && IsCatalogOf(ws, b)
    ensures a == b
  {
    forall x
      ensures x in a.artifacts <==> x in b.artifacts
    {
      if x in a.artifacts {
        EntryIsShared(ws, a, b, x);
      }
      if x in b.artifacts {
        EntryIsShared(ws, b, a, x);
      }
    }
    PathsDetermine(a.artifacts, b.artifacts);
  }

  lemma EntryIsShared(ws: Workspace, a: CatalogIndex, b: CatalogIndex, x: CatalogArtifact)
    requires IsCatalogOf(ws, a) && IsCatalogOf(ws, b) && x in a.artifacts
    ensures x in b.artifacts
  {
    assert HasMember(ws, x);
    var p :| p in ws.packages && Describes(ws, p, x);
    assert HasEntry(ws, p, b.artifacts);
    var y :| y in b.artifacts && Describes(ws, p, y);
    DescriptionsAgree(ws, p, x, y);
  }

  // ---------- the order of the workspace does not matter ----------

  predicate SameButOrder(p: CargoPackage, q: CargoPackage) {
    && multiset(p.dependencies) == multiset(q.dependencies)
    && q == p.(dependencies := q.dependencies)
  }

  /** The packages are permuted, then the dependencies within each package. */
  ghost predicate Reordered(v: Workspace, w: Workspace) {
    && v.root == w.root && v.readmes == w.readmes
    && (v.manifests.Some? <==> w.manifests.Some?)
    && (v.manifests.Some? ==> multiset(v.manifests.value) == multiset(w.manifests.value))
    && exists ps: seq<CargoPackage> :: PermutedThenPointwise(v.packages, ps, w.packages)
  }

  ghost predicate PermutedThenPointwise(a: seq<CargoPackage>, b: seq<CargoPackage>, c: seq<CargoPackage>) {
    && multiset(a) == multiset(b)
    && |b| == |c|
    && forall i :: 0 <= i < |b| ==> SameButOrder(b[i], c[i])
  }

  /** Each package of `v` has its counterpart in `w`. */
  ghost predicate Covers(v: Workspace, w: Workspace) {
    forall p {:trigger HasCounterpart(p, w)} :: p in v.packages ==> HasCounterpart(p, w)
  }

  ghost predicate HasCounterpart(p: CargoPackage, w: Workspace) {
    exists q :: q in w.packages && SameButOrder(p, q)
  }

  /** All that discovery looks at is the same on both sides. */
  ghost predicate Corresponds(v: Workspace, w: Workspace) {
    && v.root == w.root && v.readmes == w.readmes
    && (v.manifests.Some? <==> w.manifests.Some?)
    && (v.manifests.Some? ==> forall m :: m in v.manifests.value <==> m in w.manifests.value)
    && (NamesDiffer(v.packages) <==> NamesDiffer(w.packages))
    && Covers(v, w) && Covers(w, v)
  }

  /** Distinct names, told from the multiset alone. */
  ghost predicate NamesDifferIn(m: multiset<CargoPackage>) {
    && (forall p :: p in m ==> m[p] == 1)
    && (forall p, q :: p in m && q in m && p.name == q.name ==> p == q)
  }

  lemma NamesDifferAppend(front: seq<CargoPackage>, last: CargoPackage)
    ensures NamesDiffer(front + [last]) <==>
              NamesDiffer(front) && forall q :: q in multiset(front) ==> q.name != last.name
  {
    var s := front + [last];
    if NamesDiffer(s) {
      assert forall i :: 0 <= i < |front| ==> s[i] == front[i];
      forall q | q in multiset(front)
        ensures q.name != last.name
      {
        var k :| 0 <= k < |front| && front[k] == q;
        assert s[k].name != s[|front|].name;
      }
    }
    if NamesDiffer(front) && forall q :: q in multiset(front) ==> q.name != last.name {
      assert forall i :: 0 <= i < |front| ==> front[i] in multiset(front);
    }
  }

  lemma NamesDifferInAppend(m: multiset<CargoPackage>, last: CargoPackage)
    ensures NamesDifferIn(m + multiset{last}) <==>
              NamesDifferIn(m) && forall q :: q in m ==> q.name != last.name
  {
    var all := m + multiset{last};
    assert last in all && forall q :: q in m ==> q in all;
    if NamesDifferIn(all) {
      assert all[last] == 1 && last !in m;
      forall q | q in m
        ensures m[q] == 1
      {
        assert all[q] == 1;
      }
    }
  }

  lemma {:induction false} NamesDifferByMultiset(s: seq<CargoPackage>)
    ensures NamesDiffer(s) <==> NamesDifferIn(multiset(s))
  {
    if s != [] {
      var front, last := s[..|s| - 1], s[|s| - 1];
      assert s == front + [last];
      NamesDifferByMultiset(front);
      NamesDifferAppend(front, last);
      NamesDifferInAppend(multiset(front), last);
    }
  }

  lemma PointwiseNames(ps: seq<CargoPackage>, qs: seq<CargoPackage>)
    requires |ps| == |qs| && forall i :: 0 <= i < |ps| ==> ps[i].name == qs[i].name
    ensures NamesDiffer(ps) <==> NamesDiffer(qs)
  {
  }

  lemma PermutedIsCovered(v: Workspace, w: Workspace, ps: seq<CargoPackage>)
    requires PermutedThenPointwise(v.packages, ps, w.packages)
    ensures Covers(v, w) && Covers(w, v)
  {
    forall p | p in v.packages
      ensures HasCounterpart(p, w)
    {
      assert p in multiset(ps);
      var i :| 0 <= i < |ps| && ps[i] == p;
      assert w.packages[i] in w.packages;
    }
    forall q | q in w.packages
      ensures HasCounterpart(q, v)
    {
      var i :| 0 <= i < |w.packages| && w.packages[i] == q;
      assert ps[i] in multiset(v.packages);
      assert SameButOrder(q, ps[i]);
    }
  }

  lemma ReorderedCorresponds(v: Workspace, w: Workspace)
    requires Reordered(v, w)
    ensures Corresponds(v, w)
  {
    var ps: seq<CargoPackage> :| PermutedThenPointwise(v.packages, ps, w.packages);
    NamesDifferByMultiset(v.packages);
    NamesDifferByMultiset(ps);
    PointwiseNames(ps, w.packages);
    PermutedIsCovered(v, w, ps);
    if v.manifests.Some? {
      assert forall m :: m in v.manifests.value <==> m in multiset(v.manifests.value);
      assert forall m :: m in w.manifests.value <==> m in multiset(w.manifests.value);
    }
  }

  lemma LinksCarryOver(v: Workspace, w: Workspace, p: CargoPackage, q: CargoPackage, kind: DependencyKind, x: string)
    requires v.root == w.root && Covers(v, w) && SameButOrder(p, q) && LinksTo(v, p, kind, x)
    ensures LinksTo(w, q, kind, x)
  {
    var d, o :| d in p.dependencies && KindOf(d) == Some(kind)
      && o in v.packages && Listed(v.root, o) && o.name == d.name && PathOf(v.root, o) == x;
    assert d in multiset(q.dependencies);
    assert HasCounterpart(o, w);
    var u :| u in w.packages && SameButOrder(o, u);
    assert Listed(w.root, u) && PathOf(w.root, u) == x;
  }

  lemma DescriptionCarriesOver(v: Workspace, w: Workspace, p: CargoPackage, q: CargoPackage, a: CatalogArtifact)
    requires Corresponds(v, w) && SameButOrder(p, q) && Describes(v, p, a)
    ensures Describes(w, q, a)
  {
    forall kind
      ensures IsGroupOf(w, q, kind, Dependencies(kind, a.dependencies))
    {
      assert IsGroupOf(v, p, kind, Dependencies(kind, a.dependencies));
      forall x
        ensures LinksTo(v, p, kind, x) <==> LinksTo(w, q, kind, x)
      {
        if LinksTo(v, p, kind, x) {
          LinksCarryOver(v, w, p, q, kind, x);
        }
        if LinksTo(w, q, kind, x) {
          LinksCarryOver(w, v, q, p, kind, x);
        }
      }
    }
  }

  lemma PlacesCarryOver(v: Workspace, w: Workspace, q: CargoPackage)
    requires Corresponds(v, w) && Discoverable(v) && q in w.packages
    ensures Place(w.root, q).Ok? && (Listed(w.root, q) ==> Described(q))
  {
    assert HasCounterpart(q, v);
    var p :| p in v.packages && SameButOrder(q, p);
  }

  lemma SamePathCarriesOver(v: Workspace, w: Workspace, q: CargoPackage, u: CargoPackage)
    requires Corresponds(v, w) && Discoverable(v)
    requires q in w.packages && u in w.packages && SamePath(w.root, q, u)
    ensures q == u
  {
    assert HasCounterpart(q, v);
    var p :| p in v.packages && SameButOrder(q, p);
    assert HasCounterpart(u, v);
    var o :| o in v.packages && SameButOrder(u, o);
    assert SamePath(v.root, p, o);
    SameNameSamePackage(w.packages, q, u);
  }

  lemma RepresentedCarriesOver(v: Workspace, w: Workspace, m: FilePath)
    requires Corresponds(v, w) && Represented(v, m)
    ensures Represented(w, m)
  {
    var path := ArtifactPath(v.root, m).value;
    if ClassifyPath(path).value.Cataloged? {
      var p :| p in v.packages && Listed(v.root, p) && PathOf(v.root, p) == path;
      assert HasCounterpart(p, w);
      var q :| q in w.packages && SameButOrder(p, q);
      assert Listed(w.root, q) && PathOf(w.root, q) == path;
    }
  }

  lemma DiscoverableCarriesOver(v: Workspace, w: Workspace)
    requires Corresponds(v, w) && Discoverable(v)
    ensures Discoverable(w)
  {
    forall q | q in w.packages
      ensures Place(w.root, q).Ok? && (Listed(w.root, q) ==> Described(q))
    {
      PlacesCarryOver(v, w, q);
    }
    forall q, u | q in w.packages && u in w.packages && SamePath(w.root, q, u)
      ensures q == u
    {
      SamePathCarriesOver(v, w, q, u);
    }
    forall m | m in w.manifests.value
      ensures Represented(w, m)
    {
      RepresentedCarriesOver(v, w, m);
    }
  }

  lemma SameNameSamePackage(packages: seq<CargoPackage>, p: CargoPackage, q: CargoPackage)
    requires NamesDiffer(packages) && p in packages && q in packages && p.name == q.name
    ensures p == q
  {
  }

  lemma CatalogCarriesOver(v: Workspace, w: Workspace, index: CatalogIndex)
    requires Corresponds(v, w) && IsCatalogOf(v, index)
    ensures IsCatalogOf(w, index)
  {
    forall a | a in index.artifacts
      ensures HasMember(w, a)
    {
      assert HasMember(v, a);
      var p :| p in v.packages && Describes(v, p, a);
      assert HasCounterpart(p, w);
      var q :| q in w.packages && SameButOrder(p, q);
      DescriptionCarriesOver(v, w, p, q, a);
    }
    forall q | q in w.packages && Listed(w.root, q)
      ensures HasEntry(w, q, index.artifacts)
    {
      assert HasCounterpart(q, v);
      var p :| p in v.packages && SameButOrder(q, p);
      assert Listed(v.root, p) && HasEntry(v, p, index.artifacts);
      var a :| a in index.artifacts && Describes(v, p, a);
      DescriptionCarriesOver(v, w, p, q, a);
    }
  }

  /**
   Permuting the packages, the dependencies of each package and the files found changes neither
   whether discovery succeeds nor the index it returns.
   */
  lemma DiscoveryIgnoresOrder(v: Workspace, w: Workspace, a: CatalogIndex, b: CatalogIndex)
    requires Reordered(v, w)
    ensures Discoverable(v) <==> Discoverable(w)
    ensures IsCatalogOf(v, a) && IsCatalogOf(w, b) ==> a == b
  {
    ReorderedCorresponds(v, w);
    if Discoverable(v) {
      DiscoverableCarriesOver(v, w);
    }
    if Discoverable(w) {
      DiscoverableCarriesOver(w, v);
    }
    if IsCatalogOf(v, a) && IsCatalogOf(w, b) {
      CatalogCarriesOver(v, w, a);
      CatalogIsUnique(w, a, b);
    }
  }

  // ---------- generated catalogs are valid ----------

  /** What the validator asks of Cargo metadata beyond what the generator checks. */
  predicate Presentable(ws: Workspace, p: CargoPackage)
    requires Listed(ws.root, p)
  {
    p.name != "" && p.version != "" && '\\' !in PathOf(ws.root, p)
  }

  lemma {:induction false} NamesAreSegments(path: FilePath)
    ensures SlashFree(Names(path))
    ensures forall i :: 0 <= i < |Names(path)| ==>
              Names(path)[i] != "" && Names(path)[i] != "." && Names(path)[i] != ".."
  {
    if path != [] {
      NamesAreSegments(path[1..]);
    }
  }

  /** The path of a cataloged member is a canonical artifact path unless a segment has a backslash. */
  lemma ListedPathsAreCanonical(ws: Workspace, p: CargoPackage)
    requires Listed(ws.root, p)
    ensures var c := Place(ws.root, p).value.1;
      IsArtifactPath(c.kind, c.category, PathOf(ws.root, p)) <==> '\\' !in PathOf(ws.root, p)
  {
    var path, c := PathOf(ws.root, p), Place(ws.root, p).value.1;
    var names := Names(StripPrefix(Parent(p.manifestPath).value, ws.root).value);
    NamesAreSegments(StripPrefix(Parent(p.manifestPath).value, ws.root).value);
    assert Classify(Segments(path)) == Some((c.kind, c.category));
    if names != [] {
      SegmentsOfJoin(names);
      if '\\' !in path {
        CharInJoin(names, '\\');
        JoinEnds(names);
        ClassifiedIsArtifactPath(path, c.kind, c.category);
      }
    }
    if IsArtifactPath(c.kind, c.category, path) {
      ArtifactPathIsClassified(path, c.kind, c.category);
    }
  }

  lemma DependenciesResolve(ws: Workspace, index: CatalogIndex, p: CargoPackage, a: CatalogArtifact,
                            kind: DependencyKind)
    requires IsCatalogOf(ws, index) && Describes(ws, p, a)
    ensures GroupResolves(index.artifacts, Dependencies(kind, a.dependencies))
  {
    var group := Dependencies(kind, a.dependencies);
    assert IsGroupOf(ws, p, kind, group);
    forall i | 0 <= i < |group|
      ensures HasPath(index.artifacts, group[i])
    {
      assert group[i] in group;
      assert LinksTo(ws, p, kind, group[i]);
      var d, q :| d in p.dependencies && KindOf(d) == Some(kind)
        && q in ws.packages && Listed(ws.root, q) && q.name == d.name && PathOf(ws.root, q) == group[i];
      assert HasEntry(ws, q, index.artifacts);
      var b :| b in index.artifacts && Describes(ws, q, b);
      var k :| 0 <= k < |index.artifacts| && index.artifacts[k] == b;
    }
  }

  /** Entries of different members name different Cargo packages. */
  lemma CatalogPackagesDiffer(ws: Workspace, index: CatalogIndex)
    requires NamesDiffer(ws.packages) && IsCatalogOf(ws, index)
    ensures PackagesDiffer(index.artifacts)
  {
    var artifacts := index.artifacts;
    forall i, j | 0 <= i < j < |artifacts|
      ensures artifacts[i].cargoPackage != artifacts[j].cargoPackage
    {
      assert artifacts[i] in artifacts && artifacts[j] in artifacts;
      assert HasMember(ws, artifacts[i]) && HasMember(ws, artifacts[j]);
      var p :| p in ws.packages && Describes(ws, p, artifacts[i]);
      var q :| q in ws.packages && Describes(ws, q, artifacts[j]);
      if p.name == q.name {
        SameNameSamePackage(ws.packages, p, q);
        LessIsTotal(artifacts[i].path, artifacts[j].path);
        assert false;
      }
    }
  }

  lemma EntryIsValid(ws: Workspace, p: CargoPackage, a: CatalogArtifact)
    requires Describes(ws, p, a)
    ensures WellFormedArtifact(V2, a) <==> Presentable(ws, p)
  {
    ListedPathsAreCanonical(ws, p);
  }

  /**
   A generated index passes the validator if and only if every cataloged member has a non-empty
   name and version and no backslash in its path.
   */
  lemma GeneratedIsValidExactly(ws: Workspace, index: CatalogIndex)
    requires Discoverable(ws) && IsCatalogOf(ws, index)
    ensures WellFormedIndex(index)
            <==> forall p :: p in ws.packages && Listed(ws.root, p) ==> Presentable(ws, p)
  {
    var artifacts := index.artifacts;
    CatalogPackagesDiffer(ws, index);
    forall i, kind | 0 <= i < |artifacts|
      ensures GroupResolves(artifacts, Dependencies(kind, artifacts[i].dependencies))
    {
      assert artifacts[i] in artifacts && HasMember(ws, artifacts[i]);
      var p :| p in ws.packages && Describes(ws, p, artifacts[i]);
      DependenciesResolve(ws, index, p, artifacts[i], kind);
    }
    EntriesAreValidExactly(ws, index);
  }

  lemma EntriesAreValidExactly(ws: Workspace, index: CatalogIndex)
    requires IsCatalogOf(ws, index)
    ensures (forall i :: 0 <= i < |index.artifacts| ==> WellFormedArtifact(V2, index.artifacts[i]))
            <==> forall p :: p in ws.packages && Listed(ws.root, p) ==> Presentable(ws, p)
  {
    var artifacts := index.artifacts;
    if forall i :: 0 <= i < |artifacts| ==> WellFormedArtifact(V2, artifacts[i]) {
      forall p | p in ws.packages && Listed(ws.root, p)
        ensures Presentable(ws, p)
      {
        assert HasEntry(ws, p, artifacts);
        var a :| a in artifacts && Describes(ws, p, a);
        var i :| 0 <= i < |artifacts| && artifacts[i] == a;
        EntryIsValid(ws, p, a);
      }
    }
    if forall p :: p in ws.packages && Listed(ws.root, p) ==> Presentable(ws, p) {
      forall i | 0 <= i < |artifacts|
        ensures WellFormedArtifact(V2, artifacts[i])
      {
        assert artifacts[i] in artifacts && HasMember(ws, artifacts[i]);
        var p :| p in ws.packages && Describes(ws, p, artifacts[i]);
        EntryIsValid(ws, p, artifacts[i]);
      }
    }
  }

  // ---------- a catalog that is generated and not valid ----------

  /** A host in the directory `name`. */
  function HostIn(name: ComponentName): CargoPackage {
    CargoPackage("gate", "1.0.0", Some("A host."), None, [Root, Named("hosts"), Named(name), Named("Cargo.toml")], [])
  }

  function WorkspaceOf(p: CargoPackage): Workspace {
    Workspace([Root], [p], Some([]), {})
  }

  lemma SlashStringOfTwo(a: ComponentName, b: ComponentName)
    ensures SlashString([Named(a), Named(b)]) == a + "/" + b
  {
    var path: FilePath := [Named(a), Named(b)];
    assert path[1..] == [Named(b)] && path[1..][1..] == [];
    assert Names(path[1..]) == [b];
    assert Names(path) == [a, b];
    assert [a, b][1..] == [b];
    assert Join([a, b][1..]) == b;
  }

  lemma HostPath(name: ComponentName)
    ensures ArtifactPath([Root], HostIn(name).manifestPath) == Ok("hosts" + "/" + name)
  {
    var manifest, root := HostIn(name).manifestPath, [Root];
    var relative: FilePath := [Named("hosts"), Named(name)];
    assert Parent(manifest) == Some(root + relative) by {
      assert manifest[..3] == root + relative;
    }
    assert StripPrefix(root + relative, root) == Some(relative) by {
      assert (root + relative)[1..] == relative;
    }
    SlashStringOfTwo("hosts", name);
  }

  lemma HostIsListed(name: ComponentName)
    ensures Listed([Root], HostIn(name)) && PathOf([Root], HostIn(name)) == "hosts" + "/" + name
  {
    HostPath(name);
    assert SlashFree(["hosts", name]) && ["hosts", name][1..] == [name];
    SegmentsOfJoin(["hosts", name]);
  }

  lemma HostIsDiscoverable(name: ComponentName)
    ensures Discoverable(WorkspaceOf(HostIn(name)))
  {
    HostIsListed(name);
    var ws := WorkspaceOf(HostIn(name));
    assert "A host."[0] == 'A' && !IsWhitespace('A');
    assert Described(HostIn(name));
    assert forall p :: p in ws.packages ==> p == HostIn(name);
    assert Placed(ws.root, ws.packages);
  }

  /**
   Discovery succeeds on a workspace with one host, in a directory whose name has a backslash, and
   no catalog it could return passes the validator.
   */
  lemma BackslashIsDiscoveredNotValid(name: ComponentName, index: CatalogIndex)
    requires '\\' in name && IsCatalogOf(WorkspaceOf(HostIn(name)), index)
    ensures Discoverable(WorkspaceOf(HostIn(name))) && !WellFormedIndex(index)
  {
    var ws := WorkspaceOf(HostIn(name));
    HostIsListed(name);
    HostIsDiscoverable(name);
    GeneratedIsValidExactly(ws, index);
    assert HostIn(name) in ws.packages && !Presentable(ws, HostIn(name));
  }

  // ---------- what discovery computes, told from its inputs ----------

  /** `p` has a dependency of exactly this kind on the cataloged member at `path`. */
  ghost predicate DependsAs(ws: Workspace, p: CargoPackage, kind: Option<string>, path: string) {
    exists d, q ::
      && d in p.dependencies && d.kind == kind
      && q in ws.packages && q.name == d.name && Listed(ws.root, q) && PathOf(ws.root, q) == path
  }

  lemma LinksAsKind(ws: Workspace, p: CargoPackage, kind: DependencyKind, path: string)
    ensures LinksTo(ws, p, kind, path) <==>
              DependsAs(ws, p, if kind.Normal? then None else if kind.Development? then Some("dev") else Some("build"),
                        path)
  {
    var k := if kind.Normal? then None else if kind.Development? then Some("dev") else Some("build");
    assert "dev" != "build";
    if LinksTo(ws, p, kind, path) {
      var d, q :| d in p.dependencies && KindOf(d) == Some(kind)
        && q in ws.packages && Listed(ws.root, q) && q.name == d.name && PathOf(ws.root, q) == path;
      assert d.kind == k;
    }
    if DependsAs(ws, p, k, path) {
      var d, q :| d in p.dependencies && d.kind == k
        && q in ws.packages && q.name == d.name && Listed(ws.root, q) && PathOf(ws.root, q) == path;
      assert KindOf(d) == Some(kind);
    }
  }

  /**
   In every catalog of a workspace with distinct names, the groups of an entry are told by the kinds
   its package gives its dependencies: none, `dev` or `build`; every other kind adds nothing.
   */
  lemma GroupsFollowKinds(ws: Workspace, index: CatalogIndex, p: CargoPackage, a: CatalogArtifact, path: string)
    requires NamesDiffer(ws.packages) && IsCatalogOf(ws, index)
    requires p in ws.packages && a in index.artifacts && a.cargoPackage == p.name
    ensures path in a.dependencies.normal <==> DependsAs(ws, p, None, path)
    ensures path in a.dependencies.development <==> DependsAs(ws, p, Some("dev"), path)
    ensures path in a.dependencies.build <==> DependsAs(ws, p, Some("build"), path)
  {
    assert HasMember(ws, a);
    var q :| q in ws.packages && Describes(ws, q, a);
    SameNameSamePackage(ws.packages, p, q);
    assert IsGroupOf(ws, p, Normal, Dependencies(Normal, a.dependencies));
    assert IsGroupOf(ws, p, Development, Dependencies(Development, a.dependencies));
    assert IsGroupOf(ws, p, Build, Dependencies(Build, a.dependencies));
    LinksAsKind(ws, p, Normal, path);
    LinksAsKind(ws, p, Development, path);
    LinksAsKind(ws, p, Build, path);
  }

  /** A package lies at `path` when that is the text of what leads from the root to its directory. */
  lemma ArtifactPathExactly(root: FilePath, manifest: FilePath, path: string)
    ensures ArtifactPath(root, manifest) == Ok(path) <==>
              exists relative: FilePath, last: Component ::
                last != Root && manifest == root + relative + [last] && path == SlashString(relative)
    ensures ArtifactPath(root, manifest) == Err(NoParent) <==> manifest == [] || manifest[|manifest| - 1] == Root
    ensures ArtifactPath(root, manifest) == Err(OutsideRoot) <==>
              manifest != [] && manifest[|manifest| - 1] != Root && !(root <= manifest[..|manifest| - 1])
  {
    if ArtifactPath(root, manifest) == Ok(path) {
      var relative := manifest[|root|..|manifest| - 1];
      var last := manifest[|manifest| - 1];
      assert manifest == manifest[..|root|] + relative + [last];
      assert manifest[..|manifest| - 1][|root|..] == relative;
    }
    if exists relative: FilePath, last: Component ::
         last != Root && manifest == root + relative + [last] && path == SlashString(relative)
    {
      var relative: FilePath, last: Component :|
        last != Root && manifest == root + relative + [last] && path == SlashString(relative);
      assert manifest[..|manifest| - 1] == root + relative;
      assert (root + relative)[|root|..] == relative;
    }
  }

  /** The text of a path joins its ordinary components and skips all others. */
  lemma {:induction false} NamesAppend(a: FilePath, b: FilePath)
    ensures Names(a + b) == Names(a) + Names(b)
  {
    if a == [] {
      assert a + b == b;
    } else {
      assert (a + b)[1..] == a[1..] + b;
      NamesAppend(a[1..], b);
    }
  }

  lemma NameOfOne(c: Component)
    ensures Names([c]) == if c.Named? then [c.name] else []
  {
    assert [c][1..] == [];
  }

  lemma SlashStringExactly(a: FilePath, c: Component, b: FilePath)
    ensures Names([]) == []
    ensures Names(a + [c] + b) == Names(a) + (if c.Named? then [c.name] else []) + Names(b)
    ensures SlashString(a + [c] + b) == Join(Names(a) + (if c.Named? then [c.name] else []) + Names(b))
  {
    NamesAppend(a + [c], b);
    NamesAppend(a, [c]);
    NameOfOne(c);
  }

  /** The path is a directory, or lies in it. */
  predicate Under(path: string, directory: string) {
    path == directory || directory + "/" <= path
  }

  predicate UnderCatalogRoot(path: string) {
    || Under(path, "packages") || Under(path, "hosts") || Under(path, "compositions")
    || Under(path, "instances") || Under(path, "examples")
  }

  lemma UnderExactly(path: string, directory: string)
    requires '/' !in directory
    ensures Under(path, directory) <==> Segments(path)[0] == directory
  {
    var first := BeforeSlash(path);
    assert Segments(path)[0] == first;
    if directory + "/" <= path {
      assert path == directory + "/" + path[|directory| + 1..];
      BeforeSlashOf(directory, path[|directory| + 1..]);
    } else if path == directory {
      BeforeSlashOf(directory, "");
    }
    if first == directory && |first| < |path| {
      assert path[..|first| + 1] == first + "/";
    }
  }

  ghost predicate HasShape(path: string, kind: ArtifactKind, category: Option<string>) {
    (category.Some? <==> HasCategory(kind)) && exists name :: Segments(path) == PathSegments(kind, category, name)
  }

  /**
   A path of the shape of an artifact is cataloged as such; any other path below a catalog root is an
   error, and everything else is ignored.
   */
  lemma ClassifyPathExactly(path: string, kind: ArtifactKind, category: Option<string>)
    ensures ClassifyPath(path) == Ok(Cataloged(kind, category)) <==> HasShape(path, kind, category)
    ensures ClassifyPath(path) == Ok(Ignored) <==> !UnderCatalogRoot(path)
    ensures ClassifyPath(path).Ok? || ClassifyPath(path) == Err(UnsupportedPath)
  {
    var parts := Segments(path);
    ClassifyInvertsLayout(parts, kind, category);
    UnderRootExactly(path);
    ShapesHaveRoots(parts);
  }

  lemma ShapesHaveRoots(parts: seq<string>)
    ensures Classify(parts).Some? ==> parts != [] && exists kind :: RootOf(kind) == parts[0]
  {
    if Classify(parts).Some? {
      assert RootOf(Classify(parts).value.0) == parts[0];
    }
  }

  lemma UnderRootExactly(path: string)
    ensures UnderCatalogRoot(path) <==> exists kind :: RootOf(kind) == Segments(path)[0]
  {
    UnderExactly(path, "packages");
    UnderExactly(path, "hosts");
    UnderExactly(path, "compositions");
    UnderExactly(path, "instances");
    UnderExactly(path, "examples");
    RootsAreFive(Segments(path)[0]);
  }

  lemma RootsAreFive(s: string)
    ensures (exists kind :: RootOf(kind) == s) <==> s in ["packages", "hosts", "compositions", "instances", "examples"]
  {
    if s in ["packages", "hosts", "compositions", "instances", "examples"] {
      assert RootOf(Package) == "packages" && RootOf(Host) == "hosts" && RootOf(Composition) == "compositions"
          && RootOf(Instance) == "instances" && RootOf(Example) == "examples";
    }
  }

  /** Versions 1 and 2 differ exactly in instances, and no other version is valid. */
  lemma VersionsDifferInInstances(index: CatalogIndex)
    ensures WellFormedIndex(index) ==> index.schemaVersion == 1 || index.schemaVersion == 2
    ensures WellFormedIndex(index.(schemaVersion := 1)) <==>
              && WellFormedIndex(index.(schemaVersion := 2))
              && forall a :: a in index.artifacts ==> !a.kind.Instance?
  {
    var one, two := index.(schemaVersion := 1), index.(schemaVersion := 2);
    if forall a :: a in index.artifacts ==> !a.kind.Instance? {
      assert forall i :: 0 <= i < |index.artifacts| ==> index.artifacts[i] in index.artifacts;
    }
    if WellFormedIndex(one) {
      forall a | a in index.artifacts
        ensures !a.kind.Instance?
      {
        var i :| 0 <= i < |index.artifacts| && index.artifacts[i] == a;
        assert WellFormedArtifact(V1, one.artifacts[i]);
      }
      assert forall i :: 0 <= i < |index.artifacts| ==> WellFormedArtifact(V1, one.artifacts[i]);
    }
  }
}
