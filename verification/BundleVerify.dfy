/** Bundle verification: the archive's entries, their extraction, and the run checks on what was extracted. */
module BundleVerify {
  import opened Text
  import opened Evidence
  import opened Bundle
  import Paths

  // ----- names and where they land -----

  /** A normal relative name that stays inside the archive. */
  ghost predicate GoodName(n: string) {
    && Paths.ValidateBundlePath(n) == Ok(n)
    && !Paths.IsAbs(n) && Paths.Clean(n) == n && ".." !in Paths.Segments(n)
  }

  lemma {:induction false} AcceptedIsGood(raw: string)
    requires Paths.ValidateBundlePath(raw).Ok?
    ensures GoodName(Paths.ValidateBundlePath(raw).value)
  {
    var n := Paths.SlashClean(raw);
    Paths.NoBackslashAfterClean(raw);
    Paths.CleanIdempotent(Paths.Slashed(raw));
    Paths.EscapesExactly(n);
    assert HasPrefix(n, "//") ==> Paths.IsAbs(n);
  }

  ghost predicate IsRootDir(dir: string) {
    Paths.IsAbs(dir) && Paths.Clean(dir) == dir
  }

  lemma {:induction false} LandsApart(tmpDir: string, a: string, b: string)
    requires IsRootDir(tmpDir) && GoodName(a) && GoodName(b)
    requires Paths.JoinPath(tmpDir, a) == Paths.JoinPath(tmpDir, b)
    ensures a == b
  {
    Paths.JoinPathSegments(tmpDir, a);
    Paths.JoinPathSegments(tmpDir, b);
    var base := Paths.Segments(tmpDir);
    assert (base + Paths.Segments(a))[|base|..] == Paths.Segments(a);
    assert (base + Paths.Segments(b))[|base|..] == Paths.Segments(b);
  }

  ghost predicate GoodNames(entries: map<string, string>) {
    forall name :: name in entries ==> GoodName(name)
  }

  lemma {:induction false} ZipNamesAreGood(archive: seq<BundleFile>)
    requires ReadZip(archive).Some?
    ensures GoodNames(ReadZip(archive).value)
  {
    if archive != [] {
      var n := |archive| - 1;
      ZipNamesAreGood(archive[..n]);
      AcceptedIsGood(archive[n].path);
    }
  }

  lemma {:induction false} GoodNamesLandApart(tmpDir: string, entries: map<string, string>, n: Names)
    requires IsRootDir(tmpDir) && GoodNames(entries)
    ensures CleanExtraction(tmpDir, entries, n)
  {
    forall a, b, t | PlacedAt(tmpDir, entries, n, a, t) && PlacedAt(tmpDir, entries, n, b, t) ensures a == b {
      LandsApart(tmpDir, a, b);
    }
  }

  /** The entry that the extraction puts at this path has this digest. */
  ghost predicate LandedWith(tmpDir: string, entries: map<string, string>, target: string, digest: string, o: Outside) {
    exists name :: PlacedAt(tmpDir, entries, o.names, name, target) && o.digest(entries[name]) == digest
  }

  lemma {:induction false} ExtractionHas(
    files: map<string, string>, tmpDir: string, entries: map<string, string>, target: string, digest: string, o: Outside)
    requires IsExtraction(files, tmpDir, entries, o.names)
    ensures FileHas(Lookup(files), o, target, digest) <==> LandedWith(tmpDir, entries, target, digest, o)
  {
    if target in files {
      var name :| PlacedAt(tmpDir, entries, o.names, name, target);
      assert files[target] == entries[name];
    }
  }

  // ----- the files of the run, as extracted -----

  ghost predicate SnapshotLanded(tmpDir: string, entries: map<string, string>, s: Snapshot, o: Outside) {
    var target := Paths.InputSnapshotPath(tmpDir, s.snapshotPath);
    target.Ok? && LandedWith(tmpDir, entries, target.value, s.digest, o)
  }

  ghost predicate ArtifactLanded(tmpDir: string, entries: map<string, string>, a: ArtifactRef, o: Outside) {
    var target := Paths.WorkspaceArtifactPath(Paths.JoinPath(tmpDir, "artifacts"), a.path);
    && a.uri == "covenant-artifact://sha256/" + a.digest
    && target.Ok? && LandedWith(tmpDir, entries, target.value, a.digest, o)
  }

  ghost predicate AllSnapshotsLanded(tmpDir: string, entries: map<string, string>, l: Listing, o: Outside) {
    forall s :: s in l.snapshots ==> SnapshotLanded(tmpDir, entries, s, o)
  }

  ghost predicate AllArtifactsLanded(tmpDir: string, entries: map<string, string>, l: Listing, o: Outside) {
    forall a :: a in l.artifacts ==> ArtifactLanded(tmpDir, entries, a, o)
  }

  lemma {:induction false} SnapshotAsExtracted(
    files: map<string, string>, tmpDir: string, entries: map<string, string>, s: Snapshot, o: Outside)
    requires IsExtraction(files, tmpDir, entries, o.names)
    ensures SnapshotAccepted(tmpDir, s, Lookup(files), o) <==> SnapshotLanded(tmpDir, entries, s, o)
  {
    var target := Paths.InputSnapshotPath(tmpDir, s.snapshotPath);
    if target.Ok? {
      ExtractionHas(files, tmpDir, entries, target.value, s.digest, o);
    }
  }

  lemma {:induction false} ArtifactAsExtracted(
    files: map<string, string>, tmpDir: string, entries: map<string, string>, a: ArtifactRef, o: Outside)
    requires IsExtraction(files, tmpDir, entries, o.names)
    ensures ArtifactAccepted(Paths.JoinPath(tmpDir, "artifacts"), a, Lookup(files), o) <==> ArtifactLanded(tmpDir, entries, a, o)
  {
    var target := Paths.WorkspaceArtifactPath(Paths.JoinPath(tmpDir, "artifacts"), a.path);
    if target.Ok? {
      ExtractionHas(files, tmpDir, entries, target.value, a.digest, o);
    }
  }

  lemma {:induction false} SnapshotsAsExtracted(
    files: map<string, string>, tmpDir: string, entries: map<string, string>, l: Listing, o: Outside)
    requires IsExtraction(files, tmpDir, entries, o.names)
    ensures SnapshotsAccepted(tmpDir, l.snapshots, Lookup(files), o) <==> AllSnapshotsLanded(tmpDir, entries, l, o)
  {
    forall s | s in l.snapshots
      ensures SnapshotAccepted(tmpDir, s, Lookup(files), o) <==> SnapshotLanded(tmpDir, entries, s, o)
    {
      SnapshotAsExtracted(files, tmpDir, entries, s, o);
    }
  }

  lemma {:induction false} ArtifactsAsExtracted(
    files: map<string, string>, tmpDir: string, entries: map<string, string>, l: Listing, o: Outside)
    requires IsExtraction(files, tmpDir, entries, o.names)
    ensures ArtifactsAccepted(Paths.JoinPath(tmpDir, "artifacts"), l.artifacts, Lookup(files), o) <==>
            AllArtifactsLanded(tmpDir, entries, l, o)
  {
    var dir := Paths.JoinPath(tmpDir, "artifacts");
    forall a | a in l.artifacts
      ensures ArtifactAccepted(dir, a, Lookup(files), o) <==> ArtifactLanded(tmpDir, entries, a, o)
    {
      ArtifactAsExtracted(files, tmpDir, entries, a, o);
    }
  }

  // ----- bundled revocations -----

  const REVOCATIONS := "revocations/"

  /** A file directly in the bundle's revocations folder. */
  predicate IsRevocation(name: string) {
    HasPrefix(name, REVOCATIONS) && '/' !in name[|REVOCATIONS|..]
  }

  /** What lies at the revocations folder can be read as a folder. */
  predicate FolderReadable(entries: map<string, string>, n: Names) {
    !("revocations" in entries && Extractable("revocations", n))
  }

  predicate ListsReadable(entries: map<string, string>, o: Outside) {
    forall name :: name in entries && IsRevocation(name) ==> o.isRevocationList(entries[name])
  }

  function BundledRevoked(entries: map<string, string>, o: Outside): set<string> {
    set name, id | name in entries && IsRevocation(name) && id in o.revokes(entries[name]) :: id
  }

  method ReadBundledRevocations(entries: map<string, string>, o: Outside) returns (ids: Option<set<string>>)
    ensures ids == if FolderReadable(entries, o.names) && ListsReadable(entries, o) then Some(BundledRevoked(entries, o)) else None
  {
    if "revocations" in entries && Extractable("revocations", o.names) {
      return None;
    }
    var found: set<string> := {};
    var left := entries.Keys;
    while left != {}
      invariant left <= entries.Keys
      invariant forall name :: name in entries && name !in left && IsRevocation(name) ==> o.isRevocationList(entries[name])
      invariant found == set name, id | name in entries && name !in left && IsRevocation(name) && id in o.revokes(entries[name]) :: id
      decreases |left|
    {
      var name :| name in left;
      left := left - {name};
      if IsRevocation(name) {
        if !o.isRevocationList(entries[name]) {
          assert name in entries && !ListsReadable(entries, o);
          return None;
        }
        found := found + o.revokes(entries[name]);
      }
    }
    assert ListsReadable(entries, o);
    assert found == BundledRevoked(entries, o);
    ids := Some(found);
  }

  // ----- verification -----

  /** The extracted run is the one that the run verifier accepts. */
  ghost predicate LandingAccepted(entries: map<string, string>, tmpDir: string, revoked: set<string>, o: Outside)
    requires HasRequired(entries, o.names)
  {
    var text := entries[o.names.evidence];
    && o.decode(text).Some? && o.contractMatches(entries[o.names.contract], text)
    && !FolderIsFile(entries, o.names) && FolderReadable(entries, o.names) && ListsReadable(entries, o)
    && o.ledgerAccepted(entries[o.names.ledger], text)
    && AllSnapshotsLanded(tmpDir, entries, o.decode(text).value, o)
    && AllArtifactsLanded(tmpDir, entries, o.decode(text).value, o)
    && o.tickets(text) !! (revoked + BundledRevoked(entries, o))
  }

  /** With a public key the manifest's signature is demanded and checked. */
  predicate SignatureAccepted(entries: map<string, string>, key: Option<string>, o: Outside)
    requires HasRequired(entries, o.names)
  {
    key.Some? ==>
      && o.names.signature in entries
      && o.signatureOk(key.value, entries[o.names.manifest], entries[o.names.signature])
  }

  ghost predicate BundleAccepted(
    archive: seq<BundleFile>, key: Option<string>, tmpDir: string, revoked: set<string>, o: Outside)
  {
    && ReadZip(archive).Some?
    && var entries := ReadZip(archive).value;
       && HasRequired(entries, o.names) && ChecksumsAccepted(entries, o) && SignatureAccepted(entries, key, o)
       && LandingAccepted(entries, tmpDir, revoked, o)
  }

  datatype VerifyProblem =
    | BadEntry
    | MissingEntry
    | BadChecksum(line: string)
    | BadSignature
    | FileIsFolder
    | BadEvidence
    | ContractDigestMismatch
    | BadRevocationList
    | RunNotAccepted
    | SnapshotProblem(snapshot: Snapshot)
    | ArtifactProblem(artifact: ArtifactRef)
    | RevokedTicketUsed

  /** The first thing that keeps the landed run from being accepted. */
  ghost predicate LandingFails(
    problem: VerifyProblem, entries: map<string, string>, tmpDir: string, revoked: set<string>, o: Outside)
    requires HasRequired(entries, o.names)
  {
    var text := entries[o.names.evidence];
    var matches := o.decode(text).Some? && o.contractMatches(entries[o.names.contract], text);
    var readable := FolderReadable(entries, o.names) && ListsReadable(entries, o);
    var accepted := matches && readable && o.ledgerAccepted(entries[o.names.ledger], text);
    match problem
    case BadEvidence => o.decode(text).None?
    case ContractDigestMismatch => o.decode(text).Some? && !matches
    case BadRevocationList => matches && !readable
    case RunNotAccepted => matches && readable && !accepted
    case SnapshotProblem(s) => accepted && s in o.decode(text).value.snapshots && !SnapshotLanded(tmpDir, entries, s, o)
    case ArtifactProblem(a) =>
      && accepted && AllSnapshotsLanded(tmpDir, entries, o.decode(text).value, o)
      && a in o.decode(text).value.artifacts && !ArtifactLanded(tmpDir, entries, a, o)
    case RevokedTicketUsed =>
      && accepted && AllSnapshotsLanded(tmpDir, entries, o.decode(text).value, o)
      && AllArtifactsLanded(tmpDir, entries, o.decode(text).value, o)
      && exists id :: id in o.tickets(text) && (id in revoked || id in BundledRevoked(entries, o))
    case _ => false
  }

  /** The first thing that keeps a bundle from being accepted. */
  ghost predicate BundleFails(
    problem: VerifyProblem, archive: seq<BundleFile>, key: Option<string>, tmpDir: string, revoked: set<string>, o: Outside)
  {
    if ReadZip(archive).None? then problem.BadEntry?
    else
      var entries := ReadZip(archive).value;
      if !HasRequired(entries, o.names) then problem.MissingEntry?
      else if !ChecksumsAccepted(entries, o) then problem.BadChecksum? && BadSumLine(problem.line, entries, o)
      else if !SignatureAccepted(entries, key, o) then problem.BadSignature?
      else if FolderIsFile(entries, o.names) then problem.FileIsFolder?
      else LandingFails(problem, entries, tmpDir, revoked, o)
  }

  /** The files of the run are not among the ones left out of the extraction. */
  predicate NamesApart(n: Names) {
    Extractable(n.contract, n) && Extractable(n.ledger, n) && Extractable(n.evidence, n)
  }

  method VerifyExtracted(
    files: map<string, string>, entries: map<string, string>, tmpDir: string, revoked: set<string>, o: Outside)
    returns (problem: Option<VerifyProblem>)
    requires IsExtraction(files, tmpDir, entries, o.names) && HasRequired(entries, o.names) && NamesApart(o.names)
    requires !FolderIsFile(entries, o.names)
    ensures problem.None? <==> LandingAccepted(entries, tmpDir, revoked, o)
    ensures problem.Some? ==> LandingFails(problem.value, entries, tmpDir, revoked, o)
  {
    assert PlacedAt(tmpDir, entries, o.names, o.names.evidence, Paths.JoinPath(tmpDir, o.names.evidence));
    assert PlacedAt(tmpDir, entries, o.names, o.names.contract, Paths.JoinPath(tmpDir, o.names.contract));
    assert PlacedAt(tmpDir, entries, o.names, o.names.ledger, Paths.JoinPath(tmpDir, o.names.ledger));
    var text := files[Paths.JoinPath(tmpDir, o.names.evidence)];
    var decoded := o.decode(text);
    if decoded.None? {
      return Some(BadEvidence);
    }
    if !o.contractMatches(files[Paths.JoinPath(tmpDir, o.names.contract)], text) {
      return Some(ContractDigestMismatch);
    }
    var bundled := ReadBundledRevocations(entries, o);
    if bundled.None? {
      return Some(BadRevocationList);
    }
    if !o.ledgerAccepted(files[Paths.JoinPath(tmpDir, o.names.ledger)], text) {
      return Some(RunNotAccepted);
    }
    var badSnapshot := VerifyInputSnapshots(tmpDir, decoded.value.snapshots, Lookup(files), o);
    SnapshotsAsExtracted(files, tmpDir, entries, decoded.value, o);
    if badSnapshot.Some? {
      SnapshotAsExtracted(files, tmpDir, entries, badSnapshot.value, o);
      return Some(SnapshotProblem(badSnapshot.value));
    }
    var badArtifact := VerifyArtifacts(Paths.JoinPath(tmpDir, "artifacts"), decoded.value.artifacts, Lookup(files), o);
    ArtifactsAsExtracted(files, tmpDir, entries, decoded.value, o);
    if badArtifact.Some? {
      ArtifactAsExtracted(files, tmpDir, entries, badArtifact.value, o);
      return Some(ArtifactProblem(badArtifact.value));
    }
    problem := if o.tickets(text) !! (revoked + bundled.value) then None else Some(RevokedTicketUsed);
  }

  method VerifyBundle(archive: seq<BundleFile>, key: Option<string>, tmpDir: string, revoked: set<string>, o: Outside)
    returns (problem: Option<VerifyProblem>)
    requires IsRootDir(tmpDir) && NamesApart(o.names)
    ensures problem.None? <==> BundleAccepted(archive, key, tmpDir, revoked, o)
    ensures problem.Some? ==> BundleFails(problem.value, archive, key, tmpDir, revoked, o)
  {
    var entries := ReadZipEntries(archive);
    if entries.None? {
      return Some(BadEntry);
    }
    if !HasRequired(entries.value, o.names) {
      return Some(MissingEntry);
    }
    var bad := VerifyBundleChecksums(entries.value, o);
    if bad.Some? {
      return Some(BadChecksum(bad.value));
    }
    if !SignatureAccepted(entries.value, key, o) {
      return Some(BadSignature);
    }
    ZipNamesAreGood(archive);
    GoodNamesLandApart(tmpDir, entries.value, o.names);
    var files := Extract(tmpDir, entries.value, o.names);
    if files.None? {
      return Some(FileIsFolder);
    }
    problem := VerifyExtracted(files.value, entries.value, tmpDir, revoked, o);
  }
}
