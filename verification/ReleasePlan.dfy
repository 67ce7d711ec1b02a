/** What packaging is asked for: the files it will write, their names, and the manifest that describes them. */
module ReleasePlan {
  import opened Text
  import opened Release
  import Checksums

  /** A file to copy, by its base name; its contents are missing when it cannot be read. */
  datatype FileSource = FileSource(name: string, contents: Option<string>)

  datatype AttestationSource = AttestationSource(selector: string, kind: string, file: FileSource)

  datatype Options = Options(
    version: string,
    commit: string,
    date: string,
    targets: seq<Target>,
    build: Target -> Option<string>,
    attestations: seq<AttestationSource>,
    sboms: seq<FileSource>,
    provenance: seq<FileSource>,
    signed: bool)

  const BINARY_PREFIX := "ao-covenant_"

  function ArtifactName(version: string, t: Target): string {
    BINARY_PREFIX + version + "_" + t.os + "_" + t.arch + if t.os == "windows" then ".exe" else ""
  }

  // ----- names that are still free -----

  /** The names differ from each other and from those in use. */
  ghost predicate NewNames(names: seq<string>, occupied: set<string>) {
    && (forall i :: 0 <= i < |names| ==> names[i] !in occupied)
    && (forall i, j :: 0 <= i < j < |names| ==> names[i] != names[j])
  }

  function NameSet(names: seq<string>): set<string> {
    set n | n in names
  }

  lemma {:induction false} NoNames(names: seq<string>, occupied: set<string>)
    ensures NewNames(names[..0], occupied) && NameSet(names[..0]) == {}
  {
  }

  lemma {:induction false} NewNamesJoin(a: seq<string>, b: seq<string>, occupied: set<string>)
    ensures NewNames(a + b, occupied) <==> NewNames(a, occupied) && NewNames(b, occupied + NameSet(a))
    ensures NameSet(a + b) == NameSet(a) + NameSet(b)
  {
    var all := a + b;
    if NewNames(all, occupied) {
      forall i | 0 <= i < |a| ensures a[i] !in occupied { assert all[i] == a[i]; }
      forall i, j | 0 <= i < j < |a| ensures a[i] != a[j] { assert all[i] != all[j]; }
      forall i | 0 <= i < |b| ensures b[i] !in occupied + NameSet(a) {
        assert all[|a| + i] == b[i];
        forall k | 0 <= k < |a| ensures a[k] != b[i] { assert all[k] != all[|a| + i]; }
      }
      forall i, j | 0 <= i < j < |b| ensures b[i] != b[j] { assert all[|a| + i] != all[|a| + j]; }
    }
  }

  /** One more name: free exactly when it is not among those given out so far. */
  lemma {:induction false} NewNamesStep(names: seq<string>, occupied: set<string>, i: nat)
    requires i < |names| && NewNames(names[..i], occupied)
    ensures NewNames(names[..i + 1], occupied) <==> names[i] !in occupied + NameSet(names[..i])
    ensures NameSet(names[..i + 1]) == NameSet(names[..i]) + {names[i]}
    ensures !NewNames(names[..i + 1], occupied) ==> !NewNames(names, occupied)
  {
    assert names[..i + 1] == names[..i] + [names[i]];
    NewNamesJoin(names[..i], [names[i]], occupied);
    NewNamesJoin(names[..i + 1], names[i + 1..], occupied);
    assert names == names[..i + 1] + names[i + 1..];
  }

  // ----- binaries -----

  ghost predicate AllBuilt(opts: Options) {
    forall t :: t in opts.targets ==> opts.build(t).Some?
  }

  function BinaryNames(opts: Options): (names: seq<string>)
    ensures |names| == |opts.targets|
  {
    seq(|opts.targets|, i requires 0 <= i < |opts.targets| => ArtifactName(opts.version, opts.targets[i]))
  }

  function Binary(opts: Options, t: Target, o: Outside): Artifact
    requires opts.build(t).Some?
  {
    var contents := opts.build(t).value;
    var name := ArtifactName(opts.version, t);
    Artifact(name, t, name, o.digest(contents), |contents|, [])
  }

  ghost function Binaries(opts: Options, o: Outside): (artifacts: seq<Artifact>)
    requires AllBuilt(opts)
    ensures |artifacts| == |opts.targets|
  {
    seq(|opts.targets|, i requires 0 <= i < |opts.targets| =>
      (assert opts.targets[i] in opts.targets; Binary(opts, opts.targets[i], o)))
  }

  // ----- attestations -----

  datatype SelectorKind = ByName | ByTarget | ByPath | Bare

  /** strings.Cut at the first colon. */
  function CutColon(s: string): Option<(string, string)> {
    if s == "" then None
    else if s[0] == ':' then Some(("", s[1..]))
    else match CutColon(s[1..])
      case None => None
      case Some((before, after)) => Some(([s[0]] + before, after))
  }

  function ParseSelector(selector: string): (SelectorKind, string) {
    match CutColon(selector)
    case Some((before, after)) =>
      if before == "name" then (ByName, after)
      else if before == "target" then (ByTarget, after)
      else if before == "path" then (ByPath, after)
      else (Bare, selector)
    case None => (Bare, selector)
  }

  function TargetKey(t: Target): string {
    t.os + "/" + t.arch
  }

  predicate Selects(selector: string, a: Artifact) {
    var (kind, value) := ParseSelector(selector);
    match kind
    case ByName => value == a.name
    case ByTarget => value == TargetKey(a.target)
    case ByPath => value == a.path
    case Bare => value == a.name || value == TargetKey(a.target)
  }

  /** The first artifact that the selector matches. */
  function FirstMatch(artifacts: seq<Artifact>, selector: string): (k: Option<nat>)
    ensures k.Some? ==>
              && k.value < |artifacts| && Selects(selector, artifacts[k.value])
              && forall j :: 0 <= j < k.value ==> !Selects(selector, artifacts[j])
    ensures k.None? ==> forall j :: 0 <= j < |artifacts| ==> !Selects(selector, artifacts[j])
  {
    if artifacts == [] then None
    else
      var n := |artifacts| - 1;
      match FirstMatch(artifacts[..n], selector)
      case Some(k) => Some(k)
      case None => if Selects(selector, artifacts[n]) then Some(n) else None
  }

  /** Two lists whose artifacts differ at most in their attestations. */
  ghost predicate SameBinaries(a: seq<Artifact>, b: seq<Artifact>) {
    |a| == |b| && forall k :: 0 <= k < |a| ==> b[k] == a[k].(attestations := b[k].attestations)
  }

  /** Attaching attestations does not change what later selectors match. */
  lemma {:induction false} MatchIgnoresAttestations(a: seq<Artifact>, b: seq<Artifact>, selector: string)
    requires SameBinaries(a, b)
    ensures FirstMatch(a, selector) == FirstMatch(b, selector)
  {
    assert forall k :: 0 <= k < |a| ==> (Selects(selector, a[k]) <==> Selects(selector, b[k]));
  }

  predicate UsableName(name: string) {
    name != "." && name != "/"
  }

  predicate Usable(f: FileSource) {
    UsableName(f.name) && f.contents.Some?
  }

  predicate Attachable(artifacts: seq<Artifact>, s: AttestationSource) {
    FirstMatch(artifacts, s.selector).Some? && Usable(s.file)
  }

  function Destination(artifacts: seq<Artifact>, s: AttestationSource): string {
    match FirstMatch(artifacts, s.selector)
    case Some(k) => artifacts[k].name + "." + s.file.name
    case None => ""
  }

  function Destinations(artifacts: seq<Artifact>, sources: seq<AttestationSource>): (names: seq<string>)
    ensures |names| == |sources|
  {
    seq(|sources|, i requires 0 <= i < |sources| => Destination(artifacts, sources[i]))
  }

  function Attestation(artifacts: seq<Artifact>, s: AttestationSource, o: Outside): Item
    requires Attachable(artifacts, s)
  {
    var contents := s.file.contents.value;
    Item(s.kind, s.file.name, Destination(artifacts, s), o.digest(contents), |contents|)
  }

  ghost predicate AllAttachable(artifacts: seq<Artifact>, sources: seq<AttestationSource>) {
    forall s :: s in sources ==> Attachable(artifacts, s)
  }

  /** The attestations of artifact k: those of the sources that select it, in order. */
  ghost function AttestationsFor(artifacts: seq<Artifact>, sources: seq<AttestationSource>, k: nat, o: Outside): seq<Item>
    requires AllAttachable(artifacts, sources)
  {
    if sources == [] then []
    else
      var n := |sources| - 1;
      AttestationsFor(artifacts, sources[..n], k, o)
      + if FirstMatch(artifacts, sources[n].selector) == Some(k) then [Attestation(artifacts, sources[n], o)] else []
  }

  ghost function WithAttestations(artifacts: seq<Artifact>, sources: seq<AttestationSource>, o: Outside): (r: seq<Artifact>)
    requires AllAttachable(artifacts, sources)
    ensures SameBinaries(artifacts, r)
  {
    seq(|artifacts|, (k: nat) requires k < |artifacts| =>
      artifacts[k].(attestations := AttestationsFor(artifacts, sources, k, o)))
  }

  /** Attaching is planned on the bare binaries and done on those with the attestations so far: it is the same. */
  lemma {:induction false} AttachIgnoresAttestations(a: seq<Artifact>, b: seq<Artifact>, s: AttestationSource, o: Outside)
    requires SameBinaries(a, b)
    ensures FirstMatch(a, s.selector) == FirstMatch(b, s.selector)
    ensures Attachable(a, s) <==> Attachable(b, s)
    ensures Destination(a, s) == Destination(b, s)
    ensures Attachable(a, s) ==> Attestation(a, s, o) == Attestation(b, s, o)
  {
    MatchIgnoresAttestations(a, b, s.selector);
  }

  lemma {:induction false} AttachNext(artifacts: seq<Artifact>, sources: seq<AttestationSource>, s: AttestationSource, o: Outside)
    requires AllAttachable(artifacts, sources) && Attachable(artifacts, s)
    ensures AllAttachable(artifacts, sources + [s])
    ensures var k := FirstMatch(artifacts, s.selector).value;
            var before := WithAttestations(artifacts, sources, o);
            WithAttestations(artifacts, sources + [s], o) ==
            before[k := before[k].(attestations := before[k].attestations + [Attestation(artifacts, s, o)])]
  {
    var k, before := FirstMatch(artifacts, s.selector).value, WithAttestations(artifacts, sources, o);
    var after := WithAttestations(artifacts, sources + [s], o);
    assert (sources + [s])[..|sources|] == sources;
    var expected := before[k := before[k].(attestations := before[k].attestations + [Attestation(artifacts, s, o)])];
    forall j: nat | j < |artifacts| ensures after[j] == expected[j] {
      assert AttestationsFor(artifacts, sources + [s], j, o)
          == AttestationsFor(artifacts, sources, j, o) + if j == k then [Attestation(artifacts, s, o)] else [];
    }
    assert after == expected;
  }

  lemma {:induction false} AttachableAt(artifacts: seq<Artifact>, sources: seq<AttestationSource>, i: nat)
    requires i < |sources| && AllAttachable(artifacts, sources)
    ensures Attachable(artifacts, sources[i])
  {
    assert sources[i] in sources;
  }

  lemma {:induction false} AttachAt(artifacts: seq<Artifact>, sources: seq<AttestationSource>, i: nat, o: Outside)
    requires i < |sources| && AllAttachable(artifacts, sources[..i]) && Attachable(artifacts, sources[i])
    ensures AllAttachable(artifacts, sources[..i + 1])
    ensures var k := FirstMatch(artifacts, sources[i].selector).value;
            var before := WithAttestations(artifacts, sources[..i], o);
            WithAttestations(artifacts, sources[..i + 1], o) ==
            before[k := before[k].(attestations := before[k].attestations + [Attestation(artifacts, sources[i], o)])]
  {
    assert sources[..i + 1] == sources[..i] + [sources[i]];
    AttachNext(artifacts, sources[..i], sources[i], o);
  }

  // ----- supplemental files -----

  ghost predicate AllUsable(sources: seq<FileSource>) {
    forall s :: s in sources ==> Usable(s)
  }

  function FileNames(sources: seq<FileSource>): (names: seq<string>)
    ensures |names| == |sources|
  {
    seq(|sources|, i requires 0 <= i < |sources| => sources[i].name)
  }

  function Supplement(kind: string, s: FileSource, o: Outside): Item
    requires s.contents.Some?
  {
    Item(kind, s.name, s.name, o.digest(s.contents.value), |s.contents.value|)
  }

  ghost function Supplements(kind: string, sources: seq<FileSource>, o: Outside): (items: seq<Item>)
    requires AllUsable(sources)
    ensures |items| == |sources|
  {
    seq(|sources|, i requires 0 <= i < |sources| => (assert sources[i] in sources; Supplement(kind, sources[i], o)))
  }

  const SBOM := "sbom"
  const PROVENANCE := "provenance"

  // ----- the whole release -----

  /** The names of all files of the release, in the order in which they are claimed. */
  ghost function ReleaseNames(opts: Options, o: Outside): seq<string>
    requires AllBuilt(opts)
  {
    BinaryNames(opts) + Destinations(Binaries(opts, o), opts.attestations)
    + FileNames(opts.sboms) + FileNames(opts.provenance)
  }

  /** Every binary builds, every attestation finds its artifact, every file can be read, and no name is used twice. */
  ghost predicate Gatherable(opts: Options, o: Outside) {
    && AllBuilt(opts) && AllAttachable(Binaries(opts, o), opts.attestations)
    && AllUsable(opts.sboms) && AllUsable(opts.provenance)
    && NewNames(ReleaseNames(opts, o), {})
  }

  ghost function ManifestOf(opts: Options, o: Outside): Manifest
    requires Gatherable(opts, o)
  {
    Manifest(opts.version, opts.commit, opts.date,
             WithAttestations(Binaries(opts, o), opts.attestations, o),
             Supplements(SBOM, opts.sboms, o) + Supplements(PROVENANCE, opts.provenance, o))
  }

  // ----- the manifest schema -----

  predicate RecordValid(name: string, path: string, sha256: string, size: nat) {
    name != "" && path != "" && Checksums.IsHexDigest(sha256) && size >= 1
  }

  predicate ItemsValid(items: seq<Item>) {
    forall t :: t in items ==> RecordValid(t.name, t.path, t.sha256, t.sizeBytes)
  }

  predicate ArtifactValid(a: Artifact) {
    RecordValid(a.name, a.path, a.sha256, a.sizeBytes) && a.target.os != "" && a.target.arch != "" && ItemsValid(a.attestations)
  }

  /** What the schema asks of a manifest before it is written: nothing empty, no empty file among those recorded. */
  predicate ManifestValid(m: Manifest) {
    && m.version != "" && m.commit != "" && m.date != "" && m.artifacts != []
    && (forall a :: a in m.artifacts ==> ArtifactValid(a))
    && ItemsValid(m.supplementals) && forall t :: t in m.supplementals ==> t.kind == SBOM || t.kind == PROVENANCE
  }

  /** Everything can be gathered, and the manifest that describes it passes its schema. */
  ghost predicate Packageable(opts: Options, o: Outside) {
    Gatherable(opts, o) && ManifestValid(ManifestOf(opts, o))
  }
}
