/** Packaging a release: binaries, attestations and supplemental files, their manifest and checksums. */
module ReleasePackage {
  import opened Text
  import opened Release
  import opened ReleasePlan
  import Checksums
  import Paths

  datatype PackageError =
    | NameTaken(name: string)
    | BuildFailed(target: Target)
    | NoSelectorMatch
    | InvalidFileName(name: string)
    | SourceUnreadable(name: string)
    | ManifestInvalid

  // ----- what the directory holds -----

  /** A file name of one segment. */
  ghost predicate PlainFile(n: string) {
    Paths.NormalSeg(n) && n != ".."
  }

  ghost predicate AllPlain(names: set<string>) {
    forall n :: n in names ==> PlainFile(n)
  }

  lemma {:induction false} PlainIsClean(n: string)
    requires PlainFile(n)
    ensures Paths.Clean(n) == n && !Paths.IsAbs(n)
  {
    assert Paths.Normal(false, [n]);
    Paths.RenderRoundTrip(false, [n]);
  }

  function Written(dir: Directory, name: string, contents: string): Directory {
    dir[Paths.Clean(name) := contents]
  }

  predicate Stored(path: string, sha256: string, size: nat, dir: Directory, o: Outside) {
    var clean := Paths.Clean(path);
    clean in dir && o.digest(dir[clean]) == sha256 && |dir[clean]| == size
  }

  predicate ItemsStored(items: seq<Item>, dir: Directory, o: Outside) {
    forall i :: 0 <= i < |items| ==> Stored(items[i].path, items[i].sha256, items[i].sizeBytes, dir, o)
  }

  predicate ArtifactStored(a: Artifact, dir: Directory, o: Outside) {
    Stored(a.path, a.sha256, a.sizeBytes, dir, o) && ItemsStored(a.attestations, dir, o)
  }

  predicate ArtifactsStored(artifacts: seq<Artifact>, dir: Directory, o: Outside) {
    forall i :: 0 <= i < |artifacts| ==> ArtifactStored(artifacts[i], dir, o)
  }

  // ----- the names in use -----

  function ItemPaths(items: seq<Item>): (paths: seq<string>)
    ensures |paths| == |items|
  {
    seq(|items|, i requires 0 <= i < |items| => items[i].path)
  }

  function ArtifactBag(a: Artifact): multiset<string> {
    multiset{a.path} + multiset(ItemPaths(a.attestations))
  }

  function Bag(artifacts: seq<Artifact>): multiset<string> {
    if artifacts == [] then multiset{}
    else Bag(artifacts[..|artifacts| - 1]) + ArtifactBag(artifacts[|artifacts| - 1])
  }

  function AllPaths(artifacts: seq<Artifact>, supplementals: seq<Item>): multiset<string> {
    Bag(artifacts) + multiset(ItemPaths(supplementals))
  }

  /** Each occupied name belongs to exactly one file, and there are no others. */
  ghost predicate Occupies(paths: multiset<string>, occupied: set<string>) {
    forall p :: paths[p] == if p in occupied then 1 else 0
  }

  ghost predicate Packed(artifacts: seq<Artifact>, supplementals: seq<Item>, dir: Directory, occupied: set<string>, o: Outside) {
    && Occupies(AllPaths(artifacts, supplementals), occupied)
    && (forall a :: a in artifacts ==> a.name == a.path)
    && (AllPlain(occupied) ==> ArtifactsStored(artifacts, dir, o) && ItemsStored(supplementals, dir, o))
  }

  lemma {:induction false} BagSnoc(artifacts: seq<Artifact>, a: Artifact)
    ensures Bag(artifacts + [a]) == Bag(artifacts) + ArtifactBag(a)
  {
    assert (artifacts + [a])[..|artifacts|] == artifacts;
  }

  lemma {:induction false} ItemPathsSnoc(items: seq<Item>, t: Item)
    ensures multiset(ItemPaths(items + [t])) == multiset(ItemPaths(items)) + multiset{t.path}
  {
    assert ItemPaths(items + [t]) == ItemPaths(items) + [t.path];
  }

  lemma {:induction false} BagContains(artifacts: seq<Artifact>, i: nat)
    requires i < |artifacts|
    ensures ArtifactBag(artifacts[i]) <= Bag(artifacts)
  {
    var n := |artifacts| - 1;
    if i < n {
      BagContains(artifacts[..n], i);
    }
  }

  lemma {:induction false} ItemBagContains(items: seq<Item>, i: nat)
    requires i < |items|
    ensures items[i].path in multiset(ItemPaths(items))
  {
    assert ItemPaths(items)[i] == items[i].path;
  }

  function Attach(a: Artifact, t: Item): Artifact {
    a.(attestations := a.attestations + [t])
  }

  lemma {:induction false} AttachBag(a: Artifact, t: Item)
    ensures ArtifactBag(Attach(a, t)) == ArtifactBag(a) + multiset{t.path}
  {
    ItemPathsSnoc(a.attestations, t);
  }

  lemma {:induction false} BagSplits(artifacts: seq<Artifact>)
    requires artifacts != []
    ensures Bag(artifacts) == Bag(artifacts[..|artifacts| - 1]) + ArtifactBag(artifacts[|artifacts| - 1])
  {
    var n := |artifacts| - 1;
    assert artifacts == artifacts[..n] + [artifacts[n]];
    hide Bag, ArtifactBag;
    BagSnoc(artifacts[..n], artifacts[n]);
  }

  lemma {:induction false} UpdatedFront<T>(s: seq<T>, i: nat, x: T)
    requires i < |s|
    ensures var n, next := |s| - 1, s[i := x];
            && next[..n] == (if i < n then s[..n][i := x] else s[..n])
            && next[n] == (if i < n then s[n] else x) && (i < n ==> s[..n][i] == s[i])
  {
  }

  lemma {:induction false} BagAttach(artifacts: seq<Artifact>, i: nat, t: Item)
    requires i < |artifacts|
    ensures Bag(artifacts[i := Attach(artifacts[i], t)]) == Bag(artifacts) + multiset{t.path}
  {
    hide *;
    var n := |artifacts| - 1;
    BagSplits(artifacts);
    BagSplits(artifacts[i := Attach(artifacts[i], t)]);
    UpdatedFront(artifacts, i, Attach(artifacts[i], t));
    if i < n {
      BagAttach(artifacts[..n], i, t);
    } else {
      AttachBag(artifacts[n], t);
    }
  }

  // ----- writing a new file keeps the others -----

  lemma {:induction false} StoredStays(path: string, sha256: string, size: nat, dir: Directory, o: Outside, name: string, contents: string)
    requires PlainFile(path) && PlainFile(name) && path != name
    ensures Stored(path, sha256, size, Written(dir, name, contents), o) <==> Stored(path, sha256, size, dir, o)
  {
    PlainIsClean(path);
    PlainIsClean(name);
  }

  lemma {:induction false} ItemsStay(items: seq<Item>, dir: Directory, occupied: set<string>, o: Outside, name: string, contents: string)
    requires AllPlain(occupied) && PlainFile(name) && name !in occupied
    requires forall i :: 0 <= i < |items| ==> items[i].path in occupied
    requires ItemsStored(items, dir, o)
    ensures ItemsStored(items, Written(dir, name, contents), o)
  {
    forall i | 0 <= i < |items|
      ensures Stored(items[i].path, items[i].sha256, items[i].sizeBytes, Written(dir, name, contents), o)
    {
      StoredStays(items[i].path, items[i].sha256, items[i].sizeBytes, dir, o, name, contents);
    }
  }

  lemma {:induction false} ArtifactPathsOccupied(artifacts: seq<Artifact>, supplementals: seq<Item>, occupied: set<string>, i: nat)
    requires Occupies(AllPaths(artifacts, supplementals), occupied) && i < |artifacts|
    ensures artifacts[i].path in occupied
    ensures forall k :: 0 <= k < |artifacts[i].attestations| ==> artifacts[i].attestations[k].path in occupied
  {
    BagContains(artifacts, i);
    assert AllPaths(artifacts, supplementals)[artifacts[i].path] >= ArtifactBag(artifacts[i])[artifacts[i].path] > 0;
    forall k | 0 <= k < |artifacts[i].attestations| ensures artifacts[i].attestations[k].path in occupied {
      ItemBagContains(artifacts[i].attestations, k);
      var p := artifacts[i].attestations[k].path;
      assert AllPaths(artifacts, supplementals)[p] >= ArtifactBag(artifacts[i])[p] > 0;
    }
  }

  lemma {:induction false} ItemPathsOccupied(artifacts: seq<Artifact>, supplementals: seq<Item>, occupied: set<string>, i: nat)
    requires Occupies(AllPaths(artifacts, supplementals), occupied) && i < |supplementals|
    ensures supplementals[i].path in occupied
  {
    ItemBagContains(supplementals, i);
    assert AllPaths(artifacts, supplementals)[supplementals[i].path] > 0;
  }

  lemma {:induction false} PackedStays(
    artifacts: seq<Artifact>, supplementals: seq<Item>, dir: Directory, occupied: set<string>, o: Outside, name: string, contents: string)
    requires Packed(artifacts, supplementals, dir, occupied, o) && name !in occupied
    requires AllPlain(occupied + {name})
    ensures ArtifactsStored(artifacts, Written(dir, name, contents), o)
    ensures ItemsStored(supplementals, Written(dir, name, contents), o)
    ensures Stored(name, o.digest(contents), |contents|, Written(dir, name, contents), o)
  {
    assert name in occupied + {name};
    assert AllPlain(occupied) by {
      forall n | n in occupied ensures PlainFile(n) {
        assert n in occupied + {name};
      }
    }
    forall i | 0 <= i < |artifacts| ensures ArtifactStored(artifacts[i], Written(dir, name, contents), o) {
      var a := artifacts[i];
      ArtifactPathsOccupied(artifacts, supplementals, occupied, i);
      assert ArtifactStored(a, dir, o);
      StoredStays(a.path, a.sha256, a.sizeBytes, dir, o, name, contents);
      ItemsStay(a.attestations, dir, occupied, o, name, contents);
    }
    forall i | 0 <= i < |supplementals| ensures supplementals[i].path in occupied {
      ItemPathsOccupied(artifacts, supplementals, occupied, i);
    }
    ItemsStay(supplementals, dir, occupied, o, name, contents);
  }

  lemma {:induction false} OccupyMore(paths: multiset<string>, occupied: set<string>, name: string)
    requires Occupies(paths, occupied) && name !in occupied
    ensures Occupies(paths + multiset{name}, occupied + {name})
  {
  }

  lemma {:induction false} PackArtifact(artifacts: seq<Artifact>, dir: Directory, occupied: set<string>, o: Outside, a: Artifact, contents: string)
    requires Packed(artifacts, [], dir, occupied, o) && a.path !in occupied
    requires a.name == a.path && a.sha256 == o.digest(contents) && a.sizeBytes == |contents| && a.attestations == []
    ensures Packed(artifacts + [a], [], Written(dir, a.path, contents), occupied + {a.path}, o)
  {
    OccupyMore(AllPaths(artifacts, []), occupied, a.path);
    PathsWithArtifact(artifacts, a);
    if AllPlain(occupied + {a.path}) {
      PackedStays(artifacts, [], dir, occupied, o, a.path, contents);
      StoredWithArtifact(artifacts, a, Written(dir, a.path, contents), o);
    }
  }

  lemma {:induction false} PathsWithArtifact(artifacts: seq<Artifact>, a: Artifact)
    requires a.attestations == []
    ensures AllPaths(artifacts + [a], []) == AllPaths(artifacts, []) + multiset{a.path}
  {
    BagSnoc(artifacts, a);
    assert ItemPaths(a.attestations) == [];
    assert ArtifactBag(a) == multiset{a.path};
  }

  lemma {:induction false} StoredWithArtifact(artifacts: seq<Artifact>, a: Artifact, dir: Directory, o: Outside)
    requires ArtifactsStored(artifacts, dir, o) && Stored(a.path, a.sha256, a.sizeBytes, dir, o) && a.attestations == []
    ensures ArtifactsStored(artifacts + [a], dir, o)
  {
  }

  lemma {:induction false} PackAttestation(
    artifacts: seq<Artifact>, dir: Directory, occupied: set<string>, o: Outside, i: nat, t: Item, contents: string)
    requires Packed(artifacts, [], dir, occupied, o) && i < |artifacts| && t.path !in occupied
    requires t.sha256 == o.digest(contents) && t.sizeBytes == |contents|
    ensures Packed(artifacts[i := Attach(artifacts[i], t)], [], Written(dir, t.path, contents), occupied + {t.path}, o)
  {
    var next, written := artifacts[i := Attach(artifacts[i], t)], Written(dir, t.path, contents);
    BagAttach(artifacts, i, t);
    OccupyMore(AllPaths(artifacts, []), occupied, t.path);
    assert AllPaths(next, []) == AllPaths(artifacts, []) + multiset{t.path};
    NamesKept(artifacts, i, t);
    if AllPlain(occupied + {t.path}) {
      PackedStays(artifacts, [], dir, occupied, o, t.path, contents);
      AttachStored(artifacts, i, t, written, o);
    }
  }

  lemma {:induction false} NamesKept(artifacts: seq<Artifact>, i: nat, t: Item)
    requires i < |artifacts| && forall a :: a in artifacts ==> a.name == a.path
    ensures forall a :: a in artifacts[i := Attach(artifacts[i], t)] ==> a.name == a.path
  {
    var next := artifacts[i := Attach(artifacts[i], t)];
    forall a | a in next ensures a.name == a.path {
      var k :| 0 <= k < |next| && next[k] == a;
      assert artifacts[k] in artifacts;
    }
  }

  lemma {:induction false} AttachStored(artifacts: seq<Artifact>, i: nat, t: Item, dir: Directory, o: Outside)
    requires i < |artifacts| && ArtifactsStored(artifacts, dir, o) && Stored(t.path, t.sha256, t.sizeBytes, dir, o)
    ensures ArtifactsStored(artifacts[i := Attach(artifacts[i], t)], dir, o)
  {
    var next := artifacts[i := Attach(artifacts[i], t)];
    assert ArtifactStored(artifacts[i], dir, o);
    forall k | 0 <= k < |next| ensures ArtifactStored(next[k], dir, o) {
      assert k != i ==> ArtifactStored(artifacts[k], dir, o);
    }
  }

  lemma {:induction false} PackSupplemental(
    artifacts: seq<Artifact>, supplementals: seq<Item>, dir: Directory, occupied: set<string>, o: Outside, t: Item, contents: string)
    requires Packed(artifacts, supplementals, dir, occupied, o) && t.path !in occupied
    requires t.sha256 == o.digest(contents) && t.sizeBytes == |contents|
    ensures Packed(artifacts, supplementals + [t], Written(dir, t.path, contents), occupied + {t.path}, o)
  {
    ItemPathsSnoc(supplementals, t);
    OccupyMore(AllPaths(artifacts, supplementals), occupied, t.path);
    assert AllPaths(artifacts, supplementals + [t]) == AllPaths(artifacts, supplementals) + multiset{t.path};
    if AllPlain(occupied + {t.path}) {
      PackedStays(artifacts, supplementals, dir, occupied, o, t.path, contents);
    }
  }

  // ----- packaging -----

  lemma {:induction false} PackedNothing(o: Outside)
    ensures Packed([], [], map[], {}, o)
  {
  }

  /** The name at position i is in use, or it is the name of an earlier position. */
  predicate TakenAt(names: seq<string>, i: nat, occupied: set<string>, name: string) {
    i < |names| && names[i] == name && (name in occupied || name in names[..i])
  }

  ghost predicate Clashes(names: seq<string>, occupied: set<string>, name: string) {
    exists i: nat :: TakenAt(names, i, occupied, name)
  }

  lemma {:induction false} ClashAt(names: seq<string>, i: nat, occupied: set<string>)
    requires i < |names| && names[i] in occupied + NameSet(names[..i])
    ensures Clashes(names, occupied, names[i])
  {
    assert TakenAt(names, i, occupied, names[i]);
  }

  ghost predicate BuildFails(e: PackageError, opts: Options) {
    match e
    case NameTaken(name) => Clashes(BinaryNames(opts), {}, name)
    case BuildFailed(target) => target in opts.targets && opts.build(target).None?
    case _ => false
  }

  /** One of these files cannot be copied under its name. */
  ghost predicate CopyFails(e: PackageError, sources: seq<FileSource>) {
    match e
    case InvalidFileName(name) => !UsableName(name) && exists f :: f in sources && f.name == name
    case SourceUnreadable(name) => exists f :: f in sources && f.name == name && f.contents.None?
    case _ => false
  }

  ghost predicate AttachFails(e: PackageError, artifacts: seq<Artifact>, sources: seq<AttestationSource>, occupied: set<string>) {
    match e
    case NameTaken(name) => Clashes(Destinations(artifacts, sources), occupied, name)
    case NoSelectorMatch => exists s :: s in sources && FirstMatch(artifacts, s.selector).None?
    case InvalidFileName(name) => !UsableName(name) && exists s :: s in sources && s.file.name == name
    case SourceUnreadable(name) => exists s :: s in sources && s.file.name == name && s.file.contents.None?
    case _ => false
  }

  /** Why one attestation cannot be attached. */
  predicate OneFails(e: PackageError, artifacts: seq<Artifact>, s: AttestationSource, occupied: set<string>) {
    match e
    case NoSelectorMatch => FirstMatch(artifacts, s.selector).None?
    case InvalidFileName(name) => name == s.file.name && !UsableName(name)
    case NameTaken(name) => name == Destination(artifacts, s) && name in occupied
    case SourceUnreadable(name) => name == s.file.name && s.file.contents.None?
    case _ => false
  }

  lemma {:induction false} SameFailure(
    e: PackageError, a: seq<Artifact>, b: seq<Artifact>, s: AttestationSource, occupied: set<string>)
    requires FirstMatch(a, s.selector) == FirstMatch(b, s.selector) && Destination(a, s) == Destination(b, s)
    ensures OneFails(e, a, s, occupied) <==> OneFails(e, b, s, occupied)
  {
    hide FirstMatch, Destination, UsableName;
  }

  ghost predicate AddFails(e: PackageError, sources: seq<FileSource>, occupied: set<string>) {
    CopyFails(e, sources) || (e.NameTaken? && Clashes(FileNames(sources), occupied, e.name))
  }

  method BuildArtifacts(opts: Options, o: Outside)
    returns (r: Result<seq<Artifact>, PackageError>, dir: Directory, occupied: set<string>)
    ensures r.Err? ==> BuildFails(r.error, opts)
    ensures r.Ok? <==> AllBuilt(opts) && NewNames(BinaryNames(opts), {})
    ensures r.Ok? ==>
              && r.value == Binaries(opts, o) && Packed(r.value, [], dir, occupied, o)
              && occupied == NameSet(BinaryNames(opts))
  {
    dir, occupied := map[], {};
    var artifacts: seq<Artifact> := [];
    ghost var names := BinaryNames(opts);
    NoNames(names, {});
    PackedNothing(o);
    hide Packed, NewNames, NameSet, Written, Clashes;
    for i := 0 to |opts.targets|
      invariant |artifacts| == i && Packed(artifacts, [], dir, occupied, o)
      invariant forall j :: 0 <= j < i ==>
                  opts.build(opts.targets[j]).Some? && artifacts[j] == Binary(opts, opts.targets[j], o)
      invariant NewNames(names[..i], {}) && occupied == NameSet(names[..i])
    {
      var target := opts.targets[i];
      var name := ArtifactName(opts.version, target);
      NewNamesStep(names, {}, i);
      if name in occupied {
        ClashAt(names, i, {});
        return Err(NameTaken(name)), dir, occupied;
      }
      var built := opts.build(target);
      if built.None? {
        assert target in opts.targets;
        return Err(BuildFailed(target)), dir, occupied;
      }
      var a := Artifact(name, target, name, o.digest(built.value), |built.value|, []);
      PackArtifact(artifacts, dir, occupied, o, a, built.value);
      dir, occupied, artifacts := Written(dir, name, built.value), occupied + {name}, artifacts + [a];
    }
    assert names[..|opts.targets|] == names;
    assert AllBuilt(opts);
    assert artifacts == Binaries(opts, o);
    r := Ok(artifacts);
  }

  method MatchAttestationSelector(artifacts: seq<Artifact>, selector: string) returns (index: Option<nat>)
    ensures index == FirstMatch(artifacts, selector)
  {
    for i := 0 to |artifacts|
      invariant forall j :: 0 <= j < i ==> !Selects(selector, artifacts[j])
    {
      if Selects(selector, artifacts[i]) {
        return Some(i);
      }
    }
    index := None;
  }

  /** No artifact has attestations yet. */
  ghost predicate AllBare(artifacts: seq<Artifact>) {
    forall a :: a in artifacts ==> a.attestations == []
  }

  lemma {:induction false} NoAttestationsYet(artifacts: seq<Artifact>, sources: seq<AttestationSource>, o: Outside)
    requires AllBare(artifacts)
    ensures AllAttachable(artifacts, sources[..0]) && WithAttestations(artifacts, sources[..0], o) == artifacts
  {
    assert sources[..0] == [];
    var r := WithAttestations(artifacts, [], o);
    forall k: nat | k < |artifacts| ensures r[k] == artifacts[k] {
      assert artifacts[k] in artifacts;
      assert AttestationsFor(artifacts, [], k, o) == [];
    }
    assert r == artifacts;
  }

  /** Copies one attestation next to the artifact that its selector names. */
  method AttachOne(s: AttestationSource, artifacts: seq<Artifact>, dir: Directory, occupied: set<string>, o: Outside)
    returns (r: Result<seq<Artifact>, PackageError>, written: Directory)
    requires Packed(artifacts, [], dir, occupied, o)
    ensures r.Ok? <==> Attachable(artifacts, s) && Destination(artifacts, s) !in occupied
    ensures r.Err? ==> OneFails(r.error, artifacts, s, occupied)
    ensures r.Ok? ==>
              && (var k := FirstMatch(artifacts, s.selector).value;
                  r.value == artifacts[k := Attach(artifacts[k], Attestation(artifacts, s, o))])
              && Packed(r.value, [], written, occupied + {Destination(artifacts, s)}, o)
  {
    hide Packed, Written, Selects;
    written := dir;
    var index := MatchAttestationSelector(artifacts, s.selector);
    if index.None? {
      return Err(NoSelectorMatch), written;
    }
    if s.file.name == "." || s.file.name == "/" {
      return Err(InvalidFileName(s.file.name)), written;
    }
    var destination := artifacts[index.value].name + "." + s.file.name;
    if destination in occupied {
      return Err(NameTaken(destination)), written;
    }
    if s.file.contents.None? {
      return Err(SourceUnreadable(s.file.name)), written;
    }
    var contents := s.file.contents.value;
    var t := Item(s.kind, s.file.name, destination, o.digest(contents), |contents|);
    PackAttestation(artifacts, dir, occupied, o, index.value, t, contents);
    written := Written(dir, destination, contents);
    r := Ok(artifacts[index.value := Attach(artifacts[index.value], t)]);
  }

  lemma {:induction false} DestinationAt(artifacts: seq<Artifact>, sources: seq<AttestationSource>, i: nat)
    requires i < |sources|
    ensures Destinations(artifacts, sources)[i] == Destination(artifacts, sources[i])
  {
  }

  /** The error is the source's at position i, so it is the files' as a whole. */
  lemma {:induction false} AttachStops(
    e: PackageError, artifacts: seq<Artifact>, sources: seq<AttestationSource>, i: nat, occupied: set<string>)
    requires i < |sources|
    requires OneFails(e, artifacts, sources[i], occupied + NameSet(Destinations(artifacts, sources)[..i]))
    ensures AttachFails(e, artifacts, sources, occupied)
  {
    hide FirstMatch, Clashes, NameSet, Destinations, UsableName;
    assert sources[i] in sources;
    if e.NameTaken? {
      DestinationAt(artifacts, sources, i);
      ClashAt(Destinations(artifacts, sources), i, occupied);
    }
  }

  /** The sources before position i are attached, under new names. */
  ghost predicate AttachedSoFar(
    artifacts0: seq<Artifact>, artifacts: seq<Artifact>, sources: seq<AttestationSource>, i: nat, occupied0: set<string>, o: Outside)
  {
    && i <= |sources| && AllAttachable(artifacts0, sources[..i]) && artifacts == WithAttestations(artifacts0, sources[..i], o)
    && NewNames(Destinations(artifacts0, sources)[..i], occupied0)
  }

  lemma {:induction false} AttachStopped(
    e: PackageError, artifacts0: seq<Artifact>, artifacts: seq<Artifact>, sources: seq<AttestationSource>, i: nat,
    occupied0: set<string>, o: Outside)
    requires i < |sources| && AttachedSoFar(artifacts0, artifacts, sources, i, occupied0, o)
    requires var s, occupied := sources[i], occupied0 + NameSet(Destinations(artifacts0, sources)[..i]);
             && OneFails(e, artifacts, s, occupied)
             && !(Attachable(artifacts, s) && Destination(artifacts, s) !in occupied)
    ensures AttachFails(e, artifacts0, sources, occupied0)
    ensures !(AllAttachable(artifacts0, sources) && NewNames(Destinations(artifacts0, sources), occupied0))
  {
    var names := Destinations(artifacts0, sources);
    AttachIgnoresAttestations(artifacts0, artifacts, sources[i], o);
    NewNamesStep(names, occupied0, i);
    hide *;
    DestinationAt(artifacts0, sources, i);
    SameFailure(e, artifacts0, artifacts, sources[i], occupied0 + NameSet(names[..i]));
    AttachStops(e, artifacts0, sources, i, occupied0);
    if AllAttachable(artifacts0, sources) {
      AttachableAt(artifacts0, sources, i);
    }
  }

  lemma {:induction false} AttachStepped(
    artifacts0: seq<Artifact>, artifacts: seq<Artifact>, next: seq<Artifact>, sources: seq<AttestationSource>, i: nat,
    occupied0: set<string>, o: Outside)
    requires i < |sources| && AttachedSoFar(artifacts0, artifacts, sources, i, occupied0, o)
    requires Attachable(artifacts, sources[i])
    requires Destination(artifacts, sources[i]) !in occupied0 + NameSet(Destinations(artifacts0, sources)[..i])
    requires var k := FirstMatch(artifacts, sources[i].selector).value;
             next == artifacts[k := Attach(artifacts[k], Attestation(artifacts, sources[i], o))]
    ensures AttachedSoFar(artifacts0, next, sources, i + 1, occupied0, o)
    ensures var names := Destinations(artifacts0, sources);
            NameSet(names[..i + 1]) == NameSet(names[..i]) + {Destination(artifacts, sources[i])}
  {
    AttachIgnoresAttestations(artifacts0, artifacts, sources[i], o);
    DestinationAt(artifacts0, sources, i);
    NewNamesStep(Destinations(artifacts0, sources), occupied0, i);
    hide FirstMatch, Attestation, Destination, Destinations, NameSet, NewNames, WithAttestations, AllAttachable, Attachable;
    AttachAt(artifacts0, sources, i, o);
  }

  method AttachAttestations(
    sources: seq<AttestationSource>, artifacts0: seq<Artifact>, dir0: Directory, occupied0: set<string>, o: Outside)
    returns (r: Result<seq<Artifact>, PackageError>, dir: Directory, occupied: set<string>)
    requires Packed(artifacts0, [], dir0, occupied0, o) && AllBare(artifacts0)
    ensures r.Ok? <==> AllAttachable(artifacts0, sources) && NewNames(Destinations(artifacts0, sources), occupied0)
    ensures r.Err? ==> AttachFails(r.error, artifacts0, sources, occupied0)
    ensures r.Ok? ==>
              && r.value == WithAttestations(artifacts0, sources, o) && Packed(r.value, [], dir, occupied, o)
              && occupied == occupied0 + NameSet(Destinations(artifacts0, sources))
  {
    dir, occupied := dir0, occupied0;
    var artifacts := artifacts0;
    ghost var names := Destinations(artifacts0, sources);
    NoAttestationsYet(artifacts0, sources, o);
    NoNames(names, occupied0);
    hide *;
    for i := 0 to |sources|
      invariant AttachedSoFar(artifacts0, artifacts, sources, i, occupied0, o)
      invariant Packed(artifacts, [], dir, occupied, o) && occupied == occupied0 + NameSet(names[..i])
    {
      r, dir := AttachOne(sources[i], artifacts, dir, occupied, o);
      if r.Err? {
        AttachStopped(r.error, artifacts0, artifacts, sources, i, occupied0, o);
        return;
      }
      AttachStepped(artifacts0, artifacts, r.value, sources, i, occupied0, o);
      occupied := occupied + {Destination(artifacts, sources[i])};
      artifacts := r.value;
    }
    AllAttached(artifacts0, artifacts, sources, occupied0, o);
    r := Ok(artifacts);
  }

  lemma {:induction false} AllAttached(
    artifacts0: seq<Artifact>, artifacts: seq<Artifact>, sources: seq<AttestationSource>, occupied0: set<string>, o: Outside)
    requires AttachedSoFar(artifacts0, artifacts, sources, |sources|, occupied0, o)
    ensures AllAttachable(artifacts0, sources) && artifacts == WithAttestations(artifacts0, sources, o)
    ensures var names := Destinations(artifacts0, sources);
            NewNames(names, occupied0) && names[..|sources|] == names
  {
    var names := Destinations(artifacts0, sources);
    assert sources[..|sources|] == sources && names[..|sources|] == names;
    hide AllAttachable, WithAttestations, NewNames, Destinations;
  }

  /** Adds the files of one kind after those already there. */
  method AddSupplementals(
    kind: string, sources: seq<FileSource>, artifacts: seq<Artifact>, items0: seq<Item>, dir0: Directory,
    occupied0: set<string>, o: Outside)
    returns (r: Result<seq<Item>, PackageError>, dir: Directory, occupied: set<string>)
    requires Packed(artifacts, items0, dir0, occupied0, o)
    ensures r.Ok? <==> AllUsable(sources) && NewNames(FileNames(sources), occupied0)
    ensures r.Err? ==> AddFails(r.error, sources, occupied0)
    ensures r.Ok? ==>
              && r.value == items0 + Supplements(kind, sources, o) && Packed(artifacts, r.value, dir, occupied, o)
              && occupied == occupied0 + NameSet(FileNames(sources))
  {
    dir, occupied := dir0, occupied0;
    var items := items0;
    ghost var names := FileNames(sources);
    NoNames(names, occupied0);
    hide Packed, NewNames, NameSet, Written, Clashes;
    for i := 0 to |sources|
      invariant Packed(artifacts, items, dir, occupied, o)
      invariant |items| == |items0| + i && items0 <= items
      invariant forall j :: 0 <= j < i ==> Usable(sources[j]) && items[|items0| + j] == Supplement(kind, sources[j], o)
      invariant NewNames(names[..i], occupied0) && occupied == occupied0 + NameSet(names[..i])
    {
      var s := sources[i];
      assert s in sources;
      NewNamesStep(names, occupied0, i);
      if s.name == "." || s.name == "/" {
        return Err(InvalidFileName(s.name)), dir, occupied;
      }
      if s.name in occupied {
        ClashAt(names, i, occupied0);
        return Err(NameTaken(s.name)), dir, occupied;
      }
      if s.contents.None? {
        return Err(SourceUnreadable(s.name)), dir, occupied;
      }
      var contents := s.contents.value;
      var t := Item(kind, s.name, s.name, o.digest(contents), |contents|);
      PackSupplemental(artifacts, items, dir, occupied, o, t, contents);
      dir, occupied, items := Written(dir, s.name, contents), occupied + {s.name}, items + [t];
    }
    assert names[..|sources|] == names;
    assert AllUsable(sources);
    assert items == items0 + Supplements(kind, sources, o);
    r := Ok(items);
  }

  // ----- the checksum file -----

  function ItemLines(items: seq<Item>): seq<string> {
    seq(|items|, i requires 0 <= i < |items| => Checksums.Line(items[i].sha256, items[i].path))
  }

  function ArtifactLines(a: Artifact): seq<string> {
    [Checksums.Line(a.sha256, a.name)] + ItemLines(a.attestations)
  }

  function ArtifactsLines(artifacts: seq<Artifact>): seq<string> {
    if artifacts == [] then []
    else ArtifactsLines(artifacts[..|artifacts| - 1]) + ArtifactLines(artifacts[|artifacts| - 1])
  }

  function ManifestLines(m: Manifest): seq<string> {
    ArtifactsLines(m.artifacts) + ItemLines(m.supplementals)
  }

  lemma {:induction false} SumTextSnoc(lines: seq<string>, line: string)
    ensures Checksums.SumText(lines + [line]) == Checksums.SumText(lines) + line + "\n"
  {
    assert (lines + [line])[..|lines|] == lines;
  }

  method WriteItemLines(items: seq<Item>, text0: string, ghost lines0: seq<string>) returns (text: string)
    requires text0 == Checksums.SumText(lines0)
    ensures text == Checksums.SumText(lines0 + ItemLines(items))
  {
    text := text0;
    assert lines0 + [] == lines0;
    for i := 0 to |items|
      invariant text == Checksums.SumText(lines0 + ItemLines(items)[..i])
    {
      var line := Checksums.Line(items[i].sha256, items[i].path);
      SumTextSnoc(lines0 + ItemLines(items)[..i], line);
      assert lines0 + ItemLines(items)[..i + 1] == (lines0 + ItemLines(items)[..i]) + [line];
      text := text + line + "\n";
    }
    assert ItemLines(items)[..|items|] == ItemLines(items);
  }

  method WriteArtifactLines(a: Artifact, text0: string, ghost lines0: seq<string>) returns (text: string)
    requires text0 == Checksums.SumText(lines0)
    ensures text == Checksums.SumText(lines0 + ArtifactLines(a))
  {
    var line := Checksums.Line(a.sha256, a.name);
    SumTextSnoc(lines0, line);
    text := text0 + line + "\n";
    text := WriteItemLines(a.attestations, text, lines0 + [line]);
    assert (lines0 + [line]) + ItemLines(a.attestations) == lines0 + ArtifactLines(a);
  }

  method WriteChecksums(m: Manifest) returns (text: string)
    ensures text == Checksums.SumText(ManifestLines(m))
  {
    text := "";
    for i := 0 to |m.artifacts|
      invariant text == Checksums.SumText(ArtifactsLines(m.artifacts[..i]))
    {
      assert m.artifacts[..i + 1][..i] == m.artifacts[..i];
      text := WriteArtifactLines(m.artifacts[i], text, ArtifactsLines(m.artifacts[..i]));
    }
    assert m.artifacts[..|m.artifacts|] == m.artifacts;
    text := WriteItemLines(m.supplementals, text, ArtifactsLines(m.artifacts));
  }

  /** The directory with its manifest, checksums and signature. */
  function Finished(dir: Directory, m: Manifest, signed: bool, o: Outside): Directory {
    var listed := dir[o.names.manifest := o.encode(m)][o.names.sums := Checksums.SumText(ManifestLines(m))];
    if signed then listed[o.names.signature := o.sign(o.encode(m))] else listed
  }

  /** What a successful packaging leaves: the planned manifest, and the files it records under distinct names. */
  ghost predicate IsPackage(m: Manifest, files: Directory, occupied: set<string>, opts: Options, o: Outside) {
    IsGathered(m, files, occupied, opts, o) && ManifestValid(m)
  }

  ghost predicate IsGathered(m: Manifest, files: Directory, occupied: set<string>, opts: Options, o: Outside) {
    && Gatherable(opts, o) && m == ManifestOf(opts, o) && occupied == NameSet(ReleaseNames(opts, o))
    && Packed(m.artifacts, m.supplementals, files, occupied, o)
  }

  /** The names of the four groups are new one after the other exactly when all are new together. */
  lemma {:induction false} FourGroups(a: seq<string>, b: seq<string>, c: seq<string>, d: seq<string>)
    ensures NewNames(a + b + c + d, {}) <==>
            && NewNames(a, {}) && NewNames(b, NameSet(a)) && NewNames(c, NameSet(a) + NameSet(b))
            && NewNames(d, NameSet(a) + NameSet(b) + NameSet(c))
    ensures NameSet(a + b + c + d) == NameSet(a) + NameSet(b) + NameSet(c) + NameSet(d)
  {
    NewNamesJoin(a, b, {});
    NewNamesJoin(a + b, c, {});
    NewNamesJoin(a + b + c, d, {});
    assert {} + NameSet(a) == NameSet(a) && {} + NameSet(a + b) == NameSet(a + b)
        && {} + NameSet(a + b + c) == NameSet(a + b + c);
  }

  /** The first thing that keeps the files of a release from being gathered. */
  ghost predicate GatheringFails(e: PackageError, opts: Options, o: Outside) {
    if !(AllBuilt(opts) && NewNames(BinaryNames(opts), {})) then BuildFails(e, opts)
    else
      var binaries, names := Binaries(opts, o), NameSet(BinaryNames(opts));
      var attached := names + NameSet(Destinations(binaries, opts.attestations));
      var added := attached + NameSet(FileNames(opts.sboms));
      if !(AllAttachable(binaries, opts.attestations) && NewNames(Destinations(binaries, opts.attestations), names)) then
        AttachFails(e, binaries, opts.attestations, names)
      else if !(AllUsable(opts.sboms) && NewNames(FileNames(opts.sboms), attached)) then AddFails(e, opts.sboms, attached)
      else AddFails(e, opts.provenance, added)
  }

  method Package(opts: Options, o: Outside)
    returns (r: Result<Manifest, PackageError>, dir: Directory, ghost files: Directory, ghost occupied: set<string>)
    requires o.names.manifest != o.names.sums
    ensures r.Ok? <==> Packageable(opts, o)
    ensures r.Ok? ==> IsPackage(r.value, files, occupied, opts, o) && dir == Finished(files, r.value, opts.signed, o)
    ensures r.Err? ==>
              if Gatherable(opts, o) then r.error.ManifestInvalid? && !ManifestValid(ManifestOf(opts, o))
              else GatheringFails(r.error, opts, o)
  {
    var built;
    built, dir, files, occupied := PackFiles(opts, o);
    if built.Err? {
      return Err(built.error), dir, files, occupied;
    }
    var m := Manifest(opts.version, opts.commit, opts.date, built.value.0, built.value.1);
    if !ManifestValid(m) {
      return Err(ManifestInvalid), dir, files, occupied;
    }
    dir := dir[o.names.manifest := o.encode(m)];
    var text := WriteChecksums(m);
    dir := dir[o.names.sums := text];
    if opts.signed {
      dir := dir[o.names.signature := o.sign(dir[o.names.manifest])];
    }
    r := Ok(m);
  }

  /** The first part of Package: binaries, attestations, SBOMs and provenance files. */
  method PackFiles(opts: Options, o: Outside)
    returns (r: Result<(seq<Artifact>, seq<Item>), PackageError>, dir: Directory, ghost files: Directory, ghost occupied: set<string>)
    ensures r.Ok? <==> Gatherable(opts, o)
    ensures r.Err? ==> GatheringFails(r.error, opts, o)
    ensures r.Ok? ==>
              && files == dir
              && IsGathered(Manifest(opts.version, opts.commit, opts.date, r.value.0, r.value.1), files, occupied, opts, o)
  {
    hide Packed, NewNames, NameSet, BuildFails, AttachFails, AddFails;
    var built, items, names;
    built, dir, names := BuildArtifacts(opts, o);
    files, occupied := dir, names;
    if built.Err? {
      Unpackageable(opts, o);
      return Err(built.error), dir, files, occupied;
    }
    ghost var binaries := built.value;
    FourGroups(BinaryNames(opts), Destinations(binaries, opts.attestations), FileNames(opts.sboms), FileNames(opts.provenance));
    built, dir, names := AttachAttestations(opts.attestations, built.value, dir, names, o);
    if built.Err? {
      return Err(built.error), dir, files, occupied;
    }
    items, dir, names := AddSupplementals(SBOM, opts.sboms, built.value, [], dir, names, o);
    if items.Err? {
      return Err(items.error), dir, files, occupied;
    }
    items, dir, names := AddSupplementals(PROVENANCE, opts.provenance, built.value, items.value, dir, names, o);
    if items.Err? {
      return Err(items.error), dir, files, occupied;
    }
    files, occupied := dir, names;
    r := Ok((built.value, items.value));
  }

  /** Without distinct binaries there is no release. */
  lemma {:induction false} Unpackageable(opts: Options, o: Outside)
    requires !(AllBuilt(opts) && NewNames(BinaryNames(opts), {}))
    ensures !Gatherable(opts, o)
  {
    if AllBuilt(opts) {
      FourGroups(BinaryNames(opts), Destinations(Binaries(opts, o), opts.attestations),
                 FileNames(opts.sboms), FileNames(opts.provenance));
    }
  }
}
