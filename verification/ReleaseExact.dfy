/** Exactly which packaged releases verify. */
module ReleaseExact {
  import opened Text
  import opened Release
  import opened ReleasePlan
  import opened ReleasePackage
  import opened ReleaseVerify
  import opened ReleaseRoundTrip
  import Checksums

  // ----- a checksum file lists no names with spaces -----

  lemma {:induction false} WordHasNoSpaces(s: string)
    ensures Checksums.NoSpaces(Checksums.Word(s))
  {
    if s != "" && !IsSpace(s[0]) {
      WordHasNoSpaces(s[1..]);
    }
  }

  lemma {:induction false} FieldsHaveNoSpaces(s: string)
    ensures forall i :: 0 <= i < |Checksums.Fields(s)| ==> Checksums.NoSpaces(Checksums.Fields(s)[i])
    decreases |s|
  {
    if s != "" {
      if IsSpace(s[0]) {
        FieldsHaveNoSpaces(s[1..]);
      } else {
        Checksums.WordIsPrefix(s);
        WordHasNoSpaces(s);
        FieldsHaveNoSpaces(s[|Checksums.Word(s)|..]);
      }
    }
  }

  lemma {:induction false} ParsedKeysHaveNoSpaces(lines: seq<string>)
    requires ParseLines(lines).Some?
    ensures forall k :: k in ParseLines(lines).value ==> Checksums.NoSpaces(k)
  {
    if lines != [] {
      ParsedKeysHaveNoSpaces(lines[..|lines| - 1]);
      FieldsHaveNoSpaces(TrimSpace(lines[|lines| - 1]));
    }
  }

  // ----- what a clean release says of its package -----

  lemma {:induction false} SoundIsStored(
    path: string, name: string, sha256: string, size: nat, dir: Directory, checksums: map<string, string>, o: Outside)
    requires FileSound(path, name, sha256, size, dir, checksums, o)
    requires forall k :: k in checksums ==> Checksums.NoSpaces(k)
    ensures Stored(path, sha256, size, dir, o) && (Checksums.NoSpaces(path) || Checksums.NoSpaces(name))
  {
  }

  lemma {:induction false} SoundIsStillStored(m: Manifest, dir: Directory, checksums: map<string, string>, o: Outside)
    requires ArtifactsSound(m.artifacts, m, dir, checksums, o) && ItemsSound(m.supplementals, dir, checksums, o)
    ensures StillStored(m, dir, o)
  {
    forall i | 0 <= i < |m.artifacts| ensures ArtifactStored(m.artifacts[i], dir, o) {
      var a := m.artifacts[i];
      assert a in m.artifacts && ArtifactSound(a, m, dir, checksums, o);
      ItemsSoundStored(a.attestations, dir, checksums, o);
    }
    ItemsSoundStored(m.supplementals, dir, checksums, o);
  }

  lemma {:induction false} ItemsSoundStored(items: seq<Item>, dir: Directory, checksums: map<string, string>, o: Outside)
    requires ItemsSound(items, dir, checksums, o)
    ensures ItemsStored(items, dir, o)
  {
    forall i | 0 <= i < |items| ensures Stored(items[i].path, items[i].sha256, items[i].sizeBytes, dir, o) {
      assert items[i] in items && ItemSound(items[i], dir, checksums, o);
    }
  }

  lemma {:induction false} SoundMetadata(
    m: Manifest, files: Directory, dir: Directory, checksums: map<string, string>, occupied: set<string>, o: Outside)
    requires ArtifactsSound(m.artifacts, m, dir, checksums, o)
    requires Packed(m.artifacts, m.supplementals, files, occupied, o) && AllPlain(occupied)
    ensures MetadataOk(m, dir, o)
  {
    forall a | a in m.artifacts && a.path in dir ensures o.metadataProblems(m, a, dir[a.path]) == 0 {
      assert ArtifactSound(a, m, dir, checksums, o);
      var i :| 0 <= i < |m.artifacts| && m.artifacts[i] == a;
      ArtifactPathsOccupied(m.artifacts, m.supplementals, occupied, i);
      PlainIsClean(a.path);
    }
  }

  // ----- every name in use is some file's -----

  /** The attestation that a source yields is among its artifact's. */
  lemma {:induction false} AttestationListed(artifacts: seq<Artifact>, sources: seq<AttestationSource>, i: nat, o: Outside)
    requires AllAttachable(artifacts, sources) && i < |sources|
    ensures Attachable(artifacts, sources[i])
    ensures Attestation(artifacts, sources[i], o) in
            AttestationsFor(artifacts, sources, FirstMatch(artifacts, sources[i].selector).value, o)
  {
    var n := |sources| - 1;
    AttachableAt(artifacts, sources, i);
    if i < n {
      assert AllAttachable(artifacts, sources[..n]);
      AttestationListed(artifacts, sources[..n], i, o);
    }
  }

  lemma {:induction false} SolidConcat(a: string, b: string)
    requires Checksums.NoSpaces(a) && Checksums.NoSpaces(b)
    ensures Checksums.NoSpaces(a + "." + b)
  {
  }

  lemma {:induction false} DestinationIsSolid(
    opts: Options, m: Manifest, i: nat, dir: Directory, checksums: map<string, string>, o: Outside)
    requires Gatherable(opts, o) && m == ManifestOf(opts, o) && i < |opts.attestations|
    requires ArtifactsSound(m.artifacts, m, dir, checksums, o) && forall k :: k in checksums ==> Checksums.NoSpaces(k)
    requires forall a :: a in m.artifacts ==> a.name == a.path
    ensures Checksums.NoSpaces(Destinations(Binaries(opts, o), opts.attestations)[i])
  {
    var bare, s := Binaries(opts, o), opts.attestations[i];
    AttestationListed(bare, opts.attestations, i, o);
    var k := FirstMatch(bare, s.selector).value;
    var a, t := m.artifacts[k], Attestation(bare, s, o);
    assert a in m.artifacts && a.name == bare[k].name && t in a.attestations;
    assert ArtifactSound(a, m, dir, checksums, o) && ItemSound(t, dir, checksums, o);
    SoundIsStored(a.path, a.name, a.sha256, a.sizeBytes, dir, checksums, o);
    SoundIsStored(t.path, t.name, t.sha256, t.sizeBytes, dir, checksums, o);
    if Checksums.NoSpaces(t.name) {
      SolidConcat(a.name, t.name);
    }
  }

  lemma {:induction false} SupplementIsSolid(
    m: Manifest, t: Item, dir: Directory, checksums: map<string, string>, o: Outside)
    requires ItemsSound(m.supplementals, dir, checksums, o) && forall k :: k in checksums ==> Checksums.NoSpaces(k)
    requires t in m.supplementals && t.name == t.path
    ensures Checksums.NoSpaces(t.path)
  {
    SoundIsStored(t.path, t.name, t.sha256, t.sizeBytes, dir, checksums, o);
  }

  lemma {:induction false} BinaryIsSolid(
    opts: Options, m: Manifest, i: nat, dir: Directory, checksums: map<string, string>, o: Outside)
    requires Gatherable(opts, o) && m == ManifestOf(opts, o) && i < |opts.targets|
    requires ArtifactsSound(m.artifacts, m, dir, checksums, o) && forall k :: k in checksums ==> Checksums.NoSpaces(k)
    ensures Checksums.NoSpaces(BinaryNames(opts)[i])
  {
    var a := m.artifacts[i];
    assert a in m.artifacts && ArtifactSound(a, m, dir, checksums, o);
    SoundIsStored(a.path, a.name, a.sha256, a.sizeBytes, dir, checksums, o);
  }

  lemma {:induction false} SuppliedIsSolid(
    opts: Options, m: Manifest, i: nat, dir: Directory, checksums: map<string, string>, o: Outside)
    requires Gatherable(opts, o) && m == ManifestOf(opts, o)
    requires ItemsSound(m.supplementals, dir, checksums, o) && forall k :: k in checksums ==> Checksums.NoSpaces(k)
    ensures i < |opts.sboms| ==> Checksums.NoSpaces(FileNames(opts.sboms)[i])
    ensures i < |opts.provenance| ==> Checksums.NoSpaces(FileNames(opts.provenance)[i])
  {
    if i < |opts.sboms| {
      assert m.supplementals[i] == Supplements(SBOM, opts.sboms, o)[i];
      SupplementIsSolid(m, m.supplementals[i], dir, checksums, o);
    }
    if i < |opts.provenance| {
      assert m.supplementals[|opts.sboms| + i] == Supplements(PROVENANCE, opts.provenance, o)[i];
      SupplementIsSolid(m, m.supplementals[|opts.sboms| + i], dir, checksums, o);
    }
  }

  lemma {:induction false} SoundNamesAreSolid(
    opts: Options, m: Manifest, files: Directory, occupied: set<string>, dir: Directory, checksums: map<string, string>, o: Outside)
    requires IsPackage(m, files, occupied, opts, o)
    requires ArtifactsSound(m.artifacts, m, dir, checksums, o) && ItemsSound(m.supplementals, dir, checksums, o)
    requires forall k :: k in checksums ==> Checksums.NoSpaces(k)
    ensures AllSolid(occupied)
  {
    assert AllBuilt(opts);
    hide Gatherable, ManifestOf, ManifestValid, ArtifactsSound, ItemsSound, BinaryNames, Destinations, FileNames, Checksums.NoSpaces;
    var a, b, c, d := BinaryNames(opts), Destinations(Binaries(opts, o), opts.attestations), FileNames(opts.sboms),
                      FileNames(opts.provenance);
    forall n | n in occupied ensures Checksums.NoSpaces(n) {
      assert n in a || n in b || n in c || n in d;
      if n in a {
        var i: nat :| i < |a| && a[i] == n;
        BinaryIsSolid(opts, m, i, dir, checksums, o);
      } else if n in b {
        var i: nat :| i < |b| && b[i] == n;
        DestinationIsSolid(opts, m, i, dir, checksums, o);
      } else if n in c {
        var i: nat :| i < |c| && c[i] == n;
        SuppliedIsSolid(opts, m, i, dir, checksums, o);
      } else {
        var i: nat :| i < |d| && d[i] == n;
        SuppliedIsSolid(opts, m, i, dir, checksums, o);
      }
    }
  }

  // ----- what the generated files leave of the others -----

  /** Unless the record has the name, the text has its digest and size. */
  predicate Matches(path: string, sha256: string, size: nat, name: string, text: string, o: Outside) {
    path == name ==> o.digest(text) == sha256 && |text| == size
  }

  /** The record's name is none of the generated files', the signature's only where one is made, or the generated text
      has the recorded digest and size. */
  predicate Survives(path: string, sha256: string, size: nat, m: Manifest, signed: bool, o: Outside) {
    && Matches(path, sha256, size, o.names.manifest, o.encode(m), o)
    && Matches(path, sha256, size, o.names.sums, Checksums.SumText(ManifestLines(m)), o)
    && (signed ==> Matches(path, sha256, size, o.names.signature, o.sign(o.encode(m)), o))
  }

  predicate ItemsSurvive(items: seq<Item>, m: Manifest, signed: bool, o: Outside) {
    forall i :: 0 <= i < |items| ==> Survives(items[i].path, items[i].sha256, items[i].sizeBytes, m, signed, o)
  }

  predicate ArtifactSurvives(a: Artifact, m: Manifest, signed: bool, o: Outside) {
    Survives(a.path, a.sha256, a.sizeBytes, m, signed, o) && ItemsSurvive(a.attestations, m, signed, o)
  }

  /** No record of the manifest is overwritten by something else. */
  predicate RecordsSurvive(m: Manifest, signed: bool, o: Outside) {
    && (forall i :: 0 <= i < |m.artifacts| ==> ArtifactSurvives(m.artifacts[i], m, signed, o))
    && ItemsSurvive(m.supplementals, m, signed, o)
  }

  lemma {:induction false} StoredExactly(
    path: string, sha256: string, size: nat, files: Directory, m: Manifest, signed: bool, o: Outside)
    requires PlainFile(path) && Stored(path, sha256, size, files, o) && GeneratedApart(o.names)
    ensures Stored(path, sha256, size, Finished(files, m, signed, o), o) <==> Survives(path, sha256, size, m, signed, o)
  {
    PlainIsClean(path);
  }

  lemma {:induction false} ItemsStoredExactly(items: seq<Item>, files: Directory, occupied: set<string>, m: Manifest, signed: bool, o: Outside)
    requires ItemsStored(items, files, o) && AllPlain(occupied) && GeneratedApart(o.names)
    requires forall i :: 0 <= i < |items| ==> items[i].path in occupied
    ensures ItemsStored(items, Finished(files, m, signed, o), o) <==> ItemsSurvive(items, m, signed, o)
  {
    var dir := Finished(files, m, signed, o);
    forall i | 0 <= i < |items|
      ensures Stored(items[i].path, items[i].sha256, items[i].sizeBytes, dir, o) <==>
              Survives(items[i].path, items[i].sha256, items[i].sizeBytes, m, signed, o)
    {
      StoredExactly(items[i].path, items[i].sha256, items[i].sizeBytes, files, m, signed, o);
    }
    hide Stored, Survives, Finished;
  }

  lemma {:induction false} StillStoredExactly(m: Manifest, files: Directory, occupied: set<string>, signed: bool, o: Outside)
    requires Packed(m.artifacts, m.supplementals, files, occupied, o) && AllPlain(occupied) && GeneratedApart(o.names)
    ensures StillStored(m, Finished(files, m, signed, o), o) <==> RecordsSurvive(m, signed, o)
  {
    var dir := Finished(files, m, signed, o);
    forall i | 0 <= i < |m.artifacts|
      ensures ArtifactStored(m.artifacts[i], dir, o) <==> ArtifactSurvives(m.artifacts[i], m, signed, o)
    {
      var a := m.artifacts[i];
      ArtifactPathsOccupied(m.artifacts, m.supplementals, occupied, i);
      assert ArtifactStored(a, files, o);
      StoredExactly(a.path, a.sha256, a.sizeBytes, files, m, signed, o);
      ItemsStoredExactly(a.attestations, files, occupied, m, signed, o);
    }
    forall i | 0 <= i < |m.supplementals| ensures m.supplementals[i].path in occupied {
      ItemPathsOccupied(m.artifacts, m.supplementals, occupied, i);
    }
    ItemsStoredExactly(m.supplementals, files, occupied, m, signed, o);
    hide ArtifactStored, ArtifactSurvives, ItemsStored, ItemsSurvive, Finished;
  }

  lemma {:induction false} BinaryIsPrefixed(opts: Options, o: Outside, i: nat)
    requires Gatherable(opts, o) && i < |ManifestOf(opts, o).artifacts|
    ensures HasPrefix(ManifestOf(opts, o).artifacts[i].path, BINARY_PREFIX)
  {
    assert ManifestOf(opts, o).artifacts[i].path == ArtifactName(opts.version, opts.targets[i]);
  }

  /** No generated file has a binary's name, so the binaries stay as they were built. */
  lemma {:induction false} MetadataStays(opts: Options, m: Manifest, files: Directory, o: Outside)
    requires Gatherable(opts, o) && m == ManifestOf(opts, o) && GeneratedApart(o.names)
    ensures MetadataOk(m, Finished(files, m, opts.signed, o), o) <==> MetadataOk(m, files, o)
  {
    hide Gatherable, ManifestOf, ManifestLines, Checksums.SumText;
    var dir := Finished(files, m, opts.signed, o);
    forall a | a in m.artifacts ensures (a.path in dir <==> a.path in files) && (a.path in dir ==> dir[a.path] == files[a.path]) {
      var i :| 0 <= i < |m.artifacts| && m.artifacts[i] == a;
      BinaryIsPrefixed(opts, o, i);
    }
    hide Finished;
  }

  /** What a key is held against: the signature that is made, or a packaged file of that name. */
  function SignatureText(files: Directory, m: Manifest, signed: bool, o: Outside): Option<string> {
    if signed then Some(o.sign(o.encode(m)))
    else if o.names.signature in files then Some(files[o.names.signature])
    else None
  }

  predicate SignatureHolds(files: Directory, m: Manifest, signed: bool, key: bool, o: Outside) {
    key ==> o.signatureOk(o.encode(m), SignatureText(files, m, signed, o))
  }

  // ----- the exact condition -----

  lemma {:induction false} CleanReleaseMeans(
    opts: Options, m: Manifest, files: Directory, occupied: set<string>, key: bool, o: Outside)
    requires IsPackage(m, files, occupied, opts, o) && AllPlain(occupied) && Encodes(m, o)
    requires var dir := Finished(files, m, opts.signed, o);
             Legible(dir, o) && Clean(dir, key, o)
    ensures AllSolid(occupied) && StillStored(m, Finished(files, m, opts.signed, o), o)
    ensures MetadataOk(m, Finished(files, m, opts.signed, o), o)
  {
    var dir := Finished(files, m, opts.signed, o);
    FinishedIsLegible(m, files, opts.signed, o);
    hide Finished;
    var checksums := ChecksumsOf(dir[o.names.sums]).value;
    CleanExactly(dir, key, o);
    ParsedKeysHaveNoSpaces(Split(TrimSpace(dir[o.names.sums]), '\n'));
    SoundIsStillStored(m, dir, checksums, o);
    SoundMetadata(m, files, dir, checksums, occupied, o);
    SoundNamesAreSolid(opts, m, files, occupied, dir, checksums, o);
  }

  lemma {:induction false} SignatureIsText(files: Directory, m: Manifest, signed: bool, key: bool, o: Outside)
    requires GeneratedApart(o.names)
    ensures o.names.manifest in Finished(files, m, signed, o)
    ensures SignatureHolds(files, m, signed, key, o) <==> key ==> SignatureAccepted(Finished(files, m, signed, o), o)
  {
  }

  /** A package with names of one segment verifies exactly when no name holds a space, no record is overwritten by a
      generated file that differs from it, the metadata of the binaries agrees, and a demanded signature holds. */
  lemma {:induction false} PackagedExactly(
    opts: Options, m: Manifest, files: Directory, occupied: set<string>, key: bool, o: Outside)
    requires IsPackage(m, files, occupied, opts, o) && AllPlain(occupied) && Encodes(m, o)
    ensures var dir := Finished(files, m, opts.signed, o);
            Legible(dir, o) && Clean(dir, key, o) <==>
            && AllSolid(NameSet(ReleaseNames(opts, o))) && RecordsSurvive(m, opts.signed, o)
            && MetadataOk(m, files, o) && SignatureHolds(files, m, opts.signed, key, o)
  {
    var dir := Finished(files, m, opts.signed, o);
    StillStoredExactly(m, files, occupied, opts.signed, o);
    MetadataStays(opts, m, files, o);
    SignatureIsText(files, m, opts.signed, key, o);
    FinishedIsLegible(m, files, opts.signed, o);
    hide Finished, StillStored, RecordsSurvive, MetadataOk, SignatureHolds, AllPlain, Packed, Gatherable, ManifestOf, SignatureAccepted;
    if Legible(dir, o) && Clean(dir, key, o) {
      CleanReleaseMeans(opts, m, files, occupied, key, o);
    }
    if AllSolid(occupied) && RecordsSurvive(m, opts.signed, o) && MetadataOk(m, files, o)
       && SignatureHolds(files, m, opts.signed, key, o) {
      SolidReleaseVerifies(opts, m, files, occupied, key, o);
    }
  }

  /** The names that releases use for their generated files. */
  lemma {:induction false} StandardIsApart()
    ensures GeneratedApart(STANDARD)
  {
    assert STANDARD.manifest[0] == 'm' && STANDARD.sums[0] == 'S' && STANDARD.signature[0] == 'r' && BINARY_PREFIX[0] == 'a';
  }

  // ----- packages that do not verify -----

  /** What identifies a release. */
  datatype Label = Label(version: string, commit: string, date: string, target: Target)

  predicate GoodLabel(l: Label) {
    l.version != "" && l.commit != "" && l.date != "" && l.target.os != "" && l.target.arch != ""
  }

  function BinaryName(l: Label): string {
    ArtifactName(l.version, l.target)
  }

  /** One binary and one SBOM. */
  function OneSbom(l: Label, binary: string, name: string, sbom: string): Options {
    Options(l.version, l.commit, l.date, [l.target], _ => Some(binary), [], [FileSource(name, Some(sbom))], [], false)
  }

  function OneSbomManifest(l: Label, binary: string, name: string, sbom: string, o: Outside): Manifest {
    Manifest(l.version, l.commit, l.date,
             [Artifact(BinaryName(l), l.target, BinaryName(l), o.digest(binary), |binary|, [])],
             [Item(SBOM, name, name, o.digest(sbom), |sbom|)])
  }

  /** The files are not empty and the names are plain and differ. */
  ghost predicate GoodSbom(l: Label, binary: string, name: string, sbom: string) {
    && GoodLabel(l) && binary != "" && sbom != ""
    && PlainFile(name) && UsableName(name) && PlainFile(BinaryName(l)) && name != BinaryName(l)
  }

  lemma {:induction false} OneSbomPlan(l: Label, binary: string, name: string, sbom: string, o: Outside)
    requires UsableName(name) && name != BinaryName(l)
    ensures var opts := OneSbom(l, binary, name, sbom);
            && Gatherable(opts, o) && ManifestOf(opts, o) == OneSbomManifest(l, binary, name, sbom, o)
            && NameSet(ReleaseNames(opts, o)) == {BinaryName(l), name}
  {
    var opts := OneSbom(l, binary, name, sbom);
    assert BinaryNames(opts) == [BinaryName(l)] && FileNames(opts.sboms) == [name] && FileNames([]) == [];
    assert Destinations(Binaries(opts, o), []) == [];
    assert ReleaseNames(opts, o) == [BinaryName(l), name];
    var m := ManifestOf(opts, o);
    assert m.artifacts == OneSbomManifest(l, binary, name, sbom, o).artifacts;
    assert m.supplementals == OneSbomManifest(l, binary, name, sbom, o).supplementals;
  }

  lemma {:induction false} OneSbomIsValid(l: Label, binary: string, name: string, sbom: string, o: Outside)
    requires GoodSbom(l, binary, name, sbom) && forall text: string :: Checksums.IsHexDigest(o.digest(text))
    ensures ManifestValid(OneSbomManifest(l, binary, name, sbom, o))
  {
    assert BinaryName(l) != "";
  }

  lemma {:induction false} OneSbomPacks(l: Label, binary: string, name: string, sbom: string, o: Outside) returns (files: Directory)
    requires GoodSbom(l, binary, name, sbom) && Encodes(OneSbomManifest(l, binary, name, sbom, o), o)
    ensures IsPackage(OneSbomManifest(l, binary, name, sbom, o), files, {BinaryName(l), name}, OneSbom(l, binary, name, sbom), o)
  {
    var m := OneSbomManifest(l, binary, name, sbom, o);
    OneSbomPlan(l, binary, name, sbom, o);
    OneSbomIsValid(l, binary, name, sbom, o);
    var a, s := m.artifacts[0], m.supplementals[0];
    PackedNothing(o);
    PackArtifact([], map[], {}, o, a, binary);
    var dir := Written(map[], a.path, binary);
    PackSupplemental([a], [], dir, {a.path}, o, s, sbom);
    files := Written(dir, name, sbom);
    assert [] + [a] == [a] && [] + [s] == [s] && {} + {a.path} == {a.path} && {a.path} + {name} == {a.path, name};
  }

  /** A release that the package leaves and that does not verify, whether or not a key is given. */
  ghost predicate NeverVerifies(m: Manifest, files: Directory, o: Outside) {
    forall key :: !(Legible(Finished(files, m, false, o), o) && Clean(Finished(files, m, false, o), key, o))
  }

  /** A file name with a space inside is packaged like any other, and the release never verifies. */
  lemma {:induction false} SpacedNameIsReported(l: Label, binary: string, name: string, sbom: string, o: Outside)
    returns (files: Directory)
    requires GoodSbom(l, binary, name, sbom) && Encodes(OneSbomManifest(l, binary, name, sbom, o), o)
    requires !Checksums.NoSpaces(name)
    ensures var m := OneSbomManifest(l, binary, name, sbom, o);
            IsPackage(m, files, {BinaryName(l), name}, OneSbom(l, binary, name, sbom), o) && NeverVerifies(m, files, o)
  {
    files := OneSbomPacks(l, binary, name, sbom, o);
    var opts, m := OneSbom(l, binary, name, sbom), OneSbomManifest(l, binary, name, sbom, o);
    OneSbomPlan(l, binary, name, sbom, o);
    assert name in {BinaryName(l), name};
    hide IsPackage, Gatherable, ManifestOf, Encodes, Finished, Clean, Legible, ReleaseNames;
    forall key: bool ensures !(Legible(Finished(files, m, false, o), o) && Clean(Finished(files, m, false, o), key, o)) {
      PackagedExactly(opts, m, files, {BinaryName(l), name}, key, o);
    }
  }

  /** An SBOM that is called like the manifest is packaged, overwritten by the manifest and reported, unless the two
      happen to have one digest and size. */
  lemma {:induction false} ReservedNameIsReported(l: Label, binary: string, sbom: string, o: Outside)
    returns (files: Directory)
    requires GoodSbom(l, binary, o.names.manifest, sbom)
    requires var m := OneSbomManifest(l, binary, o.names.manifest, sbom, o);
             Encodes(m, o) && (o.digest(o.encode(m)) != o.digest(sbom) || |o.encode(m)| != |sbom|)
    ensures var name := o.names.manifest;
            var m := OneSbomManifest(l, binary, name, sbom, o);
            IsPackage(m, files, {BinaryName(l), name}, OneSbom(l, binary, name, sbom), o) && NeverVerifies(m, files, o)
  {
    var name := o.names.manifest;
    files := OneSbomPacks(l, binary, name, sbom, o);
    var opts, m := OneSbom(l, binary, name, sbom), OneSbomManifest(l, binary, name, sbom, o);
    assert !Survives(m.supplementals[0].path, m.supplementals[0].sha256, m.supplementals[0].sizeBytes, m, false, o);
    assert !RecordsSurvive(m, false, o);
    hide IsPackage, Gatherable, ManifestOf, Encodes, Finished, Clean, Legible, ReleaseNames, RecordsSurvive;
    forall key: bool ensures !(Legible(Finished(files, m, false, o), o) && Clean(Finished(files, m, false, o), key, o)) {
      PackagedExactly(opts, m, files, {BinaryName(l), name}, key, o);
    }
  }
}
