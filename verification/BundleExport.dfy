/** Exactly which exports Verify accepts. */
module BundleExport {
  import opened Text
  import opened Evidence
  import opened Bundle
  import opened BundleVerify
  import opened BundleNames
  import opened BundleRoundTrip
  import Checksums
  import Paths

  // ----- what Export gathers is a gathering -----

  ghost predicate Loaded(plans: seq<Plan>, files: seq<BundleFile>, read: Reader) {
    |files| == |plans| && forall i :: 0 <= i < |plans| ==> NewBundleFile(plans[i], read) == Some(files[i])
  }

  lemma {:induction false} LoadLoads(plans: seq<Plan>, read: Reader)
    requires Load(plans, read).Some?
    ensures Loaded(plans, Load(plans, read).value, read)
  {
    LoadAt(plans, read);
  }

  lemma {:induction false} FixedFile(name: string, source: string, read: Reader, f: BundleFile)
    requires PlainName(name) && NewBundleFile(Plan(name, source), read) == Some(f)
    ensures f.path == name && read(source) == Some(f.contents)
  {
    SingleName(name);
  }

  lemma {:induction false} SnapshotFile(runDir: string, s: Snapshot, read: Reader, o: Outside, f: BundleFile)
    requires NewBundleFile(SnapshotPlan(runDir, s), read) == Some(f) && SnapshotAccepted(runDir, s, read, o)
    ensures SnapshotIn(f, s) && read(Paths.JoinPath(runDir, s.snapshotPath)) == Some(f.contents)
  {
    SnapshotPath(runDir, s);
    SnapshotAnywhere(runDir, s);
  }

  lemma {:induction false} SnapshotAnywhere(runDir: string, s: Snapshot)
    requires Paths.InputSnapshotPath(runDir, s.snapshotPath).Ok?
    ensures Paths.InputSnapshotPath("/", s.snapshotPath).Ok?
  {
  }

  lemma {:induction false} ArtifactFile(workspaceDir: string, a: ArtifactRef, read: Reader, o: Outside, f: BundleFile)
    requires NewBundleFile(ArtifactPlan(workspaceDir, a), read) == Some(f)
    requires ArtifactAccepted(workspaceDir, a, read, o)
    ensures ArtifactIn(f, a, o)
  {
    ArtifactPath(workspaceDir, a);
    ArtifactAnywhere(workspaceDir, a);
  }

  lemma {:induction false} ArtifactAnywhere(workspaceDir: string, a: ArtifactRef)
    requires Paths.WorkspaceArtifactPath(workspaceDir, a.path).Ok?
    ensures Paths.WorkspaceArtifactPath("/", a.path).Ok?
  {
  }

  lemma {:induction false} RevocationFile(p: string, read: Reader, o: Outside, f: BundleFile)
    requires NewBundleFile(RevocationPlan(p), read) == Some(f) && RevocationReadable(p, read, o)
    ensures RevocationIn(f, read(p).value, o) && (f.path == "revocations" <==> Nameless(p))
  {
    RevocationPath(p);
    if !Nameless(p) {
      assert |f.path| > |"revocations"|;
    }
  }

  /** The texts of the revocation lists given to Export. */
  function Lists(r: Request, read: Reader, o: Outside): seq<string>
    requires RevocationsReadable(r, read, o)
  {
    seq(|r.revocations|, i requires 0 <= i < |r.revocations| => (assert r.revocations[i] in r.revocations; read(r.revocations[i]).value))
  }

  lemma {:induction false} LoadedTwo(a: seq<Plan>, b: seq<Plan>, files: seq<BundleFile>, read: Reader)
    requires Loaded(a + b, files, read)
    ensures |files| == |a| + |b| && Loaded(a, files[..|a|], read) && Loaded(b, files[|a|..], read)
  {
    forall i | 0 <= i < |a| ensures NewBundleFile(a[i], read) == Some(files[..|a|][i]) {
      assert (a + b)[i] == a[i];
    }
    forall i | 0 <= i < |b| ensures NewBundleFile(b[i], read) == Some(files[|a|..][i]) {
      assert (a + b)[|a| + i] == b[i];
    }
  }

  lemma {:induction false} LoadedParts(
    a: seq<Plan>, b: seq<Plan>, c: seq<Plan>, d: seq<Plan>, files: seq<BundleFile>, read: Reader)
    requires Loaded(a + b + c + d, files, read)
    ensures var i, j, k := |a|, |a| + |b|, |a| + |b| + |c|;
            && |files| == k + |d|
            && Loaded(a, files[..i], read) && Loaded(b, files[i..j], read)
            && Loaded(c, files[j..k], read) && Loaded(d, files[k..], read)
  {
    var i, j, k := |a|, |a| + |b|, |a| + |b| + |c|;
    LoadedTwo(a + b + c, d, files, read);
    LoadedTwo(a + b, c, files[..k], read);
    LoadedTwo(a, b, files[..k][..j], read);
    assert files[..k][..j][..i] == files[..i] && files[..k][..j][i..] == files[i..j] && files[..k][j..] == files[j..k];
  }

  lemma {:induction false} FixedGathered(r: Request, n: Names, files: seq<BundleFile>, read: Reader)
    requires Loaded(FixedPlans(r, n), files, read) && PlainNames(n)
    ensures files[0].path == n.contract && files[1].path == n.ledger && files[2].path == n.evidence
    ensures read(r.contractPath) == Some(files[0].contents) && read(r.ledgerPath) == Some(files[1].contents)
            && read(r.evidencePath) == Some(files[2].contents)
  {
    var plans := FixedPlans(r, n);
    assert plans[0] == Plan(n.contract, r.contractPath) && plans[1] == Plan(n.ledger, r.ledgerPath)
        && plans[2] == Plan(n.evidence, r.evidencePath);
    FixedFile(n.contract, r.contractPath, read, files[0]);
    FixedFile(n.ledger, r.ledgerPath, read, files[1]);
    FixedFile(n.evidence, r.evidencePath, read, files[2]);
  }

  /** What Export read for each snapshot. */
  ghost predicate SnapshotsRead(r: Request, l: Listing, files: seq<BundleFile>, read: Reader) {
    && |files| == |l.snapshots|
    && forall k :: 0 <= k < |files| ==> read(Paths.JoinPath(r.runDir, l.snapshots[k].snapshotPath)) == Some(files[k].contents)
  }

  /** Which lists Export stored as the revocations folder. */
  ghost predicate NamelessAlike(r: Request, files: seq<BundleFile>) {
    |files| == |r.revocations| && forall k :: 0 <= k < |files| ==> (files[k].path == "revocations" <==> Nameless(r.revocations[k]))
  }

  lemma {:induction false} SnapshotsGathered(r: Request, l: Listing, files: seq<BundleFile>, read: Reader, o: Outside)
    requires Loaded(SnapshotPlans(r, l), files, read) && SnapshotsAccepted(r.runDir, l.snapshots, read, o)
    ensures SnapshotsIn(files, l.snapshots) && SnapshotsRead(r, l, files, read)
  {
    forall k | 0 <= k < |l.snapshots|
      ensures SnapshotIn(files[k], l.snapshots[k])
      ensures read(Paths.JoinPath(r.runDir, l.snapshots[k].snapshotPath)) == Some(files[k].contents)
    {
      assert l.snapshots[k] in l.snapshots;
      SnapshotFile(r.runDir, l.snapshots[k], read, o, files[k]);
    }
  }

  lemma {:induction false} ArtifactsGathered(r: Request, l: Listing, files: seq<BundleFile>, read: Reader, o: Outside)
    requires Loaded(ArtifactPlans(r, l), files, read) && ArtifactsAccepted(r.workspaceDir, l.artifacts, read, o)
    ensures ArtifactsIn(files, l.artifacts, o)
  {
    forall k | 0 <= k < |l.artifacts| ensures ArtifactIn(files[k], l.artifacts[k], o) {
      assert l.artifacts[k] in l.artifacts;
      ArtifactFile(r.workspaceDir, l.artifacts[k], read, o, files[k]);
    }
  }

  lemma {:induction false} RevocationsGathered(r: Request, files: seq<BundleFile>, read: Reader, o: Outside)
    requires Loaded(RevocationPlans(r), files, read) && RevocationsReadable(r, read, o)
    ensures RevocationsIn(files, Lists(r, read, o), o) && NamelessAlike(r, files)
  {
    forall k | 0 <= k < |r.revocations|
      ensures RevocationIn(files[k], Lists(r, read, o)[k], o) && (files[k].path == "revocations" <==> Nameless(r.revocations[k]))
    {
      assert r.revocations[k] in r.revocations;
      RevocationFile(r.revocations[k], read, o, files[k]);
    }
  }

  lemma {:induction false} LoadedGathers(r: Request, l: Listing, files: seq<BundleFile>, read: Reader, o: Outside)
    requires Loaded(Plans(r, l, o.names), files, read) && PlainNames(o.names)
    requires FilesAccepted(r.runDir, r.workspaceDir, l, read, o) && RevocationsReadable(r, read, o)
    ensures Gathering(files, l, Lists(r, read, o), o)
    ensures var a, b := 3 + |l.snapshots|, 3 + |l.snapshots| + |l.artifacts|;
            a <= b <= |files| && SnapshotsRead(r, l, files[3..a], read) && NamelessAlike(r, files[b..])
    ensures read(r.contractPath) == Some(files[0].contents) && read(r.ledgerPath) == Some(files[1].contents)
            && read(r.evidencePath) == Some(files[2].contents)
  {
    hide Loaded, SnapshotsIn, ArtifactsIn, RevocationsIn, SnapshotsAccepted, ArtifactsAccepted, RevocationsReadable,
      SnapshotsRead, NamelessAlike, PlainNames, FixedPlans, SnapshotPlans, ArtifactPlans, RevocationPlans, Gathering, Lists;
    var a, b := 3 + |l.snapshots|, 3 + |l.snapshots| + |l.artifacts|;
    PlanSizes(r, l, o.names);
    LoadedParts(FixedPlans(r, o.names), SnapshotPlans(r, l), ArtifactPlans(r, l), RevocationPlans(r), files, read);
    FixedGathered(r, o.names, files[..3], read);
    assert files[..3][0] == files[0] && files[..3][1] == files[1] && files[..3][2] == files[2];
    SnapshotsGathered(r, l, files[3..a], read, o);
    ArtifactsGathered(r, l, files[a..b], read, o);
    RevocationsGathered(r, files[b..], read, o);
    PartsGather(files, l, Lists(r, read, o), o);
  }

  lemma {:induction false} PlanSizes(r: Request, l: Listing, n: Names)
    ensures |FixedPlans(r, n)| == 3 && |SnapshotPlans(r, l)| == |l.snapshots| && |ArtifactPlans(r, l)| == |l.artifacts|
    ensures |RevocationPlans(r)| == |r.revocations|
  {
  }

  lemma {:induction false} PartsGather(files: seq<BundleFile>, l: Listing, lists: seq<string>, o: Outside)
    requires |files| >= 3 + |l.snapshots| + |l.artifacts|
    requires files[0].path == o.names.contract && files[1].path == o.names.ledger && files[2].path == o.names.evidence
    requires SnapshotsIn(files[3..3 + |l.snapshots|], l.snapshots)
    requires ArtifactsIn(files[3 + |l.snapshots|..3 + |l.snapshots| + |l.artifacts|], l.artifacts, o)
    requires RevocationsIn(files[3 + |l.snapshots| + |l.artifacts|..], lists, o)
    ensures Gathering(files, l, lists, o)
  {
    hide SnapshotIn, ArtifactIn, RevocationIn;
  }

  lemma {:induction false} LoadedIsGood(plans: seq<Plan>, files: seq<BundleFile>, read: Reader)
    requires Loaded(plans, files, read)
    ensures GoodFiles(files)
  {
    forall f | f in files ensures ValidatesAsItself(f.path) {
      var i :| 0 <= i < |files| && files[i] == f;
      AcceptedIsGood(plans[i].path);
    }
  }

  // ----- the condition, on the files and on the request -----

  ghost predicate Digests(o: Outside) {
    forall text: string :: Checksums.IsHexDigest(o.digest(text))
  }

  /** The run of the evidence is one that the rest of run verification accepts. */
  ghost predicate RunTexts(files: seq<BundleFile>, l: Listing, o: Outside) {
    && |files| >= 3 && o.decode(files[2].contents) == Some(l)
    && o.contractMatches(files[0].contents, files[2].contents) && o.ledgerAccepted(files[1].contents, files[2].contents)
  }

  /** A gathering is accepted exactly when its snapshots are found, its lists have names, no file would be the folder
      of another, its checksum lines read back, a demanded signature is given, and no used ticket is revoked. */
  lemma {:induction false} GatheringExactly(
    files: seq<BundleFile>, l: Listing, lists: seq<string>, o: Outside, signed: bool, key: Option<string>,
    tmpDir: string, revoked: set<string>)
    requires Gathering(files, l, lists, o) && GoodFiles(files) && PlainNames(o.names) && Digests(o)
    requires DistinctPaths(Signed(files, o, signed)) && IsRootDir(tmpDir) && RunTexts(files, l, o)
    ensures var archive := Archive(files, o, signed);
            && ReadZip(archive).Some?
            && (BundleAccepted(archive, key, tmpDir, revoked, o) <==>
                  && SnapshotsFound(files, l, o) && ListsNamed(files) && !Nested(files)
                  && LinesReadBack(files, ReadZip(archive).value, o) && SignatureGiven(files, signed, key, o)
                  && o.tickets(files[2].contents) !! (revoked + RevokedBy(lists, o)))
  {
    var archive := Archive(files, o, signed);
    ArchiveZips(files, l, lists, o, signed);
    ZipReadsMap(archive);
    ZipNamesAreGood(archive);
    var entries := ReadZip(archive).value;
    assert archive[0] == files[0] && archive[1] == files[1] && archive[2] == files[2];
    assert files[0] in archive && files[1] in archive && files[2] in archive;
    assert entries[o.names.evidence] == files[2].contents && entries[o.names.ledger] == files[1].contents
        && entries[o.names.contract] == files[0].contents;
    hide Gathering, PlainNames, IsMapOf, Archive, Digests, Zippable, GoodNames, DistinctPaths, GoodFiles, ReadZip, IsRootDir;
    ArchiveIsSound(files, l, lists, o, signed, entries);
    SignatureIsGiven(files, l, lists, o, signed, entries, key);
    SnapshotsLand(files, l, lists, o, signed, entries, tmpDir);
    ArtifactsLand(files, l, lists, o, signed, entries, tmpDir);
    NestedExactly(files, l, lists, o, signed, entries);
    FolderReadableExactly(files, l, lists, o, signed, entries);
    RevocationsLand(files, l, lists, o, signed, entries);
  }

  // ----- the round trip -----

  /** Export bundled the file that the snapshot's digest is of, at the place where Verify looks. */
  ghost predicate SnapshotKept(r: Request, s: Snapshot, read: Reader, o: Outside) {
    !NamesFolder(s) && FileHas(read, o, Paths.JoinPath(r.runDir, s.snapshotPath), s.digest)
  }

  ghost predicate SnapshotsKept(r: Request, l: Listing, read: Reader, o: Outside) {
    forall s :: s in l.snapshots ==> SnapshotKept(r, s, read, o)
  }

  ghost predicate RevocationsNamed(r: Request) {
    forall p :: p in r.revocations ==> !Nameless(p)
  }

  lemma {:induction false} KeptIsFound(r: Request, l: Listing, files: seq<BundleFile>, read: Reader, o: Outside)
    requires |files| >= 3 + |l.snapshots| && SnapshotsRead(r, l, files[3..3 + |l.snapshots|], read)
    ensures SnapshotsFound(files, l, o) <==> SnapshotsKept(r, l, read, o)
  {
    forall k: nat | k < |l.snapshots|
      ensures SnapshotFound(files[3 + k], l.snapshots[k], o) <==> SnapshotKept(r, l.snapshots[k], read, o)
    {
      assert files[3..3 + |l.snapshots|][k] == files[3 + k];
    }
    hide SnapshotFound, SnapshotKept, SnapshotsRead;
    if SnapshotsFound(files, l, o) {
      forall s | s in l.snapshots ensures SnapshotKept(r, s, read, o) {
        var k :| 0 <= k < |l.snapshots| && l.snapshots[k] == s;
        assert SnapshotFound(files[3 + k], l.snapshots[k], o);
      }
    }
    if SnapshotsKept(r, l, read, o) {
      forall k: nat | k < |l.snapshots| ensures SnapshotFound(files[3 + k], l.snapshots[k], o) {
        assert l.snapshots[k] in l.snapshots;
      }
    }
  }

  lemma {:induction false} NamedIsNamed(
    r: Request, l: Listing, files: seq<BundleFile>, lists: seq<string>, o: Outside)
    requires Gathering(files, l, lists, o) && PlainNames(o.names)
    requires NamelessAlike(r, files[3 + |l.snapshots| + |l.artifacts|..])
    ensures ListsNamed(files) <==> RevocationsNamed(r)
  {
    var b := 3 + |l.snapshots| + |l.artifacts|;
    var tail := files[b..];
    if ListsNamed(files) {
      forall p | p in r.revocations ensures !Nameless(p) {
        var k :| 0 <= k < |r.revocations| && r.revocations[k] == p;
        assert tail[k] == files[b + k] && files[b + k] in files;
      }
    }
    if RevocationsNamed(r) {
      forall f | f in files ensures f.path != "revocations" {
        var i :| 0 <= i < |files| && files[i] == f;
        FileKind(files, l, lists, o, i);
        if i >= b {
          assert tail[i - b] == f && r.revocations[i - b] in r.revocations;
        }
      }
    }
  }

  /** Every successful export is accepted by Verify, in any extraction directory, exactly when each snapshot lies below
      its folder and Export read the file that its digest is of, each revocation list has a file name, no bundled file
      would be the folder of another, every checksum line reads back, a demanded signature was made and holds, and no
      decision of the run used a ticket that a bundled list or the caller revokes. */
  lemma {:induction false} ExportedExactly(
    r: Request, read: Reader, o: Outside, key: Option<string>, tmpDir: string, revoked: set<string>)
    requires Exportable(r, read, o) && PlainNames(o.names) && Digests(o) && IsRootDir(tmpDir)
    ensures var l, files := ListingOf(r, read, o).value, Gathered(r, read, o);
            var archive := Archive(files, o, r.signed);
            && ReadZip(archive).Some?
            && (BundleAccepted(archive, key, tmpDir, revoked, o) <==>
                  && SnapshotsKept(r, l, read, o) && RevocationsNamed(r) && !Nested(files)
                  && LinesReadBack(files, ReadZip(archive).value, o) && SignatureGiven(files, r.signed, key, o)
                  && o.tickets(read(r.evidencePath).value) !! (revoked + RevokedBy(Lists(r, read, o), o)))
  {
    var l, files := ListingOf(r, read, o).value, Gathered(r, read, o);
    LoadLoads(Plans(r, l, o.names), read);
    LoadedGathers(r, l, files, read, o);
    LoadedIsGood(Plans(r, l, o.names), files, read);
    hide Gathering, PlainNames, Digests, Loaded, Load, Plans, GoodFiles, IsRootDir, ReadZip, Archive, BundleAccepted,
      SnapshotsRead, NamelessAlike, DistinctPaths;
    KeptIsFound(r, l, files, read, o);
    NamedIsNamed(r, l, files, Lists(r, read, o), o);
    GatheringExactly(files, l, Lists(r, read, o), o, r.signed, key, tmpDir, revoked);
  }

  // ----- exports that keep the promise -----

  /** Snapshot paths without backslashes and below their folder, lists with file names, and bundled names that hold
      no line break and do not run into each other. */
  ghost predicate Tidy(r: Request, l: Listing, files: seq<BundleFile>) {
    && (forall s :: s in l.snapshots ==> '\\' !in s.snapshotPath && !NamesFolder(s))
    && RevocationsNamed(r) && !Nested(files)
    && (forall f :: f in files ==> '\n' !in f.path)
  }

  lemma {:induction false} TidyKeepsSnapshots(r: Request, l: Listing, read: Reader, o: Outside)
    requires SnapshotsAccepted(r.runDir, l.snapshots, read, o)
    requires forall s :: s in l.snapshots ==> '\\' !in s.snapshotPath && !NamesFolder(s)
    ensures SnapshotsKept(r, l, read, o)
  {
    forall s | s in l.snapshots ensures SnapshotKept(r, s, read, o) {
      assert SnapshotAccepted(r.runDir, s, read, o);
      SnapshotSource(r.runDir, s);
    }
  }

  lemma {:induction false} TidyReadsBack(files: seq<BundleFile>, entries: map<string, string>, o: Outside, archive: seq<BundleFile>)
    requires GoodFiles(files) && Digests(o) && IsMapOf(entries, archive) && files <= archive
    requires forall f :: f in files ==> '\n' !in f.path
    ensures LinesReadBack(files, entries, o)
  {
    forall f | f in files ensures LineReadsBack(f, entries, o) {
      assert f in archive;
      OneLineReadsBack(f, entries, o);
    }
  }

  lemma {:induction false} GatheringReadsBack(files: seq<BundleFile>, l: Listing, lists: seq<string>, o: Outside, signed: bool)
    requires Gathering(files, l, lists, o) && GoodFiles(files) && PlainNames(o.names) && Digests(o)
    requires DistinctPaths(Signed(files, o, signed)) && forall f :: f in files ==> '\n' !in f.path
    ensures var zip := ReadZip(Archive(files, o, signed));
            zip.Some? && LinesReadBack(files, zip.value, o)
  {
    hide Gathering, PlainNames, GoodFiles, Digests, ReadZip, DistinctPaths, Zippable, IsMapOf, LinesReadBack;
    var archive := Archive(files, o, signed);
    ArchiveZips(files, l, lists, o, signed);
    ZipReadsMap(archive);
    TidyReadsBack(files, ReadZip(archive).value, o, archive);
  }

  lemma {:induction false} ExportedLinesReadBack(r: Request, read: Reader, o: Outside)
    requires Exportable(r, read, o) && PlainNames(o.names) && Digests(o)
    requires forall f :: f in Gathered(r, read, o) ==> '\n' !in f.path
    ensures var files := Gathered(r, read, o);
            var zip := ReadZip(Archive(files, o, r.signed));
            zip.Some? && LinesReadBack(files, zip.value, o)
  {
    var l, files := ListingOf(r, read, o).value, Gathered(r, read, o);
    LoadLoads(Plans(r, l, o.names), read);
    LoadedGathers(r, l, files, read, o);
    hide Gathering, Digests, Loaded, Load, Plans, ReadZip, SnapshotsRead, NamelessAlike, PlainNames, Lists, GoodFiles, Archive,
      LinesReadBack, DistinctPaths;
    LoadedIsGood(Plans(r, l, o.names), files, read);
    GatheringReadsBack(files, l, Lists(r, read, o), o, r.signed);
  }

  /** Every successful export of tidy names is accepted, in any extraction directory, exactly when a demanded signature
      holds and no decision of the run used a ticket that a bundled list or the caller revokes. */
  lemma {:induction false} ExportedBundleVerifies(
    r: Request, read: Reader, o: Outside, key: Option<string>, tmpDir: string, revoked: set<string>)
    requires Exportable(r, read, o) && PlainNames(o.names) && Digests(o) && IsRootDir(tmpDir)
    requires Tidy(r, ListingOf(r, read, o).value, Gathered(r, read, o))
    ensures BundleAccepted(Archive(Gathered(r, read, o), o, r.signed), key, tmpDir, revoked, o) <==>
            && SignatureGiven(Gathered(r, read, o), r.signed, key, o)
            && o.tickets(read(r.evidencePath).value) !! (revoked + RevokedBy(Lists(r, read, o), o))
  {
    TidyKeepsSnapshots(r, ListingOf(r, read, o).value, read, o);
    hide SnapshotsKept, Load, Plans, ReadZip, BundleAccepted, PlainNames, Digests, LinesReadBack, Archive, IsRootDir,
      DistinctPaths, RevocationsReadable;
    ExportedLinesReadBack(r, read, o);
    ExportedExactly(r, read, o, key, tmpDir, revoked);
  }

  // ----- exports that Verify rejects -----

  /** Evidence with one snapshot, and everything else as it should be. */
  function OneSnapshot(n: Names, digest: string -> string, s: Snapshot): Outside {
    Outside(n, digest, _ => Some(Listing([s], [])), (_, _) => true, (_, _) => true, _ => true, _ => {}, _ => {},
            _ => "", _ => "", (_, _, _) => true)
  }

  ghost predicate DistinctNames(n: Names) {
    && n.contract != n.ledger && n.contract != n.evidence && n.ledger != n.evidence
    && n.manifest !in {n.contract, n.ledger, n.evidence}
  }

  lemma {:induction false} StandardNamesDiffer()
    ensures DistinctNames(STANDARD)
  {
    assert STANDARD.contract[0] == 'c' && STANDARD.ledger[0] == 'e' && STANDARD.evidence[0] == 'e' && STANDARD.manifest[0] == 'b';
    assert |STANDARD.ledger| == 13 && |STANDARD.evidence| == 18;
  }

  lemma {:induction false} LoadFour(
    a: Plan, b: Plan, c: Plan, d: Plan, e: BundleFile, f: BundleFile, g: BundleFile, h: BundleFile, read: Reader)
    requires NewBundleFile(a, read) == Some(e) && NewBundleFile(b, read) == Some(f)
    requires NewBundleFile(c, read) == Some(g) && NewBundleFile(d, read) == Some(h)
    ensures Load([a, b, c, d], read) == Some([e, f, g, h])
  {
    hide NewBundleFile, Load;
    var plans, files := [a, b, c, d], [e, f, g, h];
    LoadIs(plans, files, read, 4);
    assert plans[..4] == plans && files[..4] == files;
  }

  lemma {:induction false} LoadIs(plans: seq<Plan>, files: seq<BundleFile>, read: Reader, n: nat)
    requires n <= |plans| == |files| && forall i :: 0 <= i < |plans| ==> NewBundleFile(plans[i], read) == Some(files[i])
    ensures Load(plans[..n], read) == Some(files[..n])
  {
    if n > 0 {
      LoadIs(plans, files, read, n - 1);
      assert plans[..n][..n - 1] == plans[..n - 1] && files[..n] == files[..n - 1] + [files[n - 1]];
    }
  }

  /** A request without revocations and signature whose three texts can be read. */
  ghost predicate Simple(r: Request, read: Reader) {
    && !Blank(r.contractPath) && !Blank(r.ledgerPath) && !Blank(r.evidencePath) && !Blank(r.outPath)
    && read(r.contractPath).Some? && read(r.ledgerPath).Some? && read(r.evidencePath).Some?
    && r.revocations == [] && !r.signed
  }

  lemma {:induction false} FixedLoads(name: string, source: string, read: Reader)
    requires PlainName(name) && read(source).Some?
    ensures NewBundleFile(Plan(name, source), read) == Some(BundleFile(name, read(source).value))
  {
    SingleName(name);
  }

  lemma {:induction false} SnapshotLoads(runDir: string, s: Snapshot, read: Reader)
    requires Paths.InputSnapshotPath(runDir, s.snapshotPath).Ok? && read(Paths.JoinPath(runDir, s.snapshotPath)).Some?
    ensures NewBundleFile(SnapshotPlan(runDir, s), read) ==
            Some(BundleFile(SnapshotName(s), read(Paths.JoinPath(runDir, s.snapshotPath)).value))
  {
    SnapshotPath(runDir, s);
  }

  lemma {:induction false} OneSnapshotLoads(r: Request, read: Reader, n: Names, s: Snapshot)
    requires Simple(r, read) && PlainNames(n) && Paths.InputSnapshotPath(r.runDir, s.snapshotPath).Ok?
    requires read(Paths.JoinPath(r.runDir, s.snapshotPath)).Some?
    ensures Load(Plans(r, Listing([s], []), n), read) == Some([
              BundleFile(n.contract, read(r.contractPath).value), BundleFile(n.ledger, read(r.ledgerPath).value),
              BundleFile(n.evidence, read(r.evidencePath).value),
              BundleFile(SnapshotName(s), read(Paths.JoinPath(r.runDir, s.snapshotPath)).value)])
  {
    FixedLoads(n.contract, r.contractPath, read);
    FixedLoads(n.ledger, r.ledgerPath, read);
    FixedLoads(n.evidence, r.evidencePath, read);
    SnapshotLoads(r.runDir, s, read);
    PlansOfOne(r, s, n);
    hide NewBundleFile, PlainName, SnapshotName, Load, Paths.InputSnapshotPath, Paths.JoinPath, Blank, SnapshotPlan, Plans;
    LoadFour(
      Plan(n.contract, r.contractPath), Plan(n.ledger, r.ledgerPath), Plan(n.evidence, r.evidencePath),
      SnapshotPlan(r.runDir, s),
      BundleFile(n.contract, read(r.contractPath).value), BundleFile(n.ledger, read(r.ledgerPath).value),
      BundleFile(n.evidence, read(r.evidencePath).value),
      BundleFile(SnapshotName(s), read(Paths.JoinPath(r.runDir, s.snapshotPath)).value), read);
  }

  lemma {:induction false} PlansOfOne(r: Request, s: Snapshot, n: Names)
    requires r.revocations == []
    ensures Plans(r, Listing([s], []), n) ==
            [Plan(n.contract, r.contractPath), Plan(n.ledger, r.ledgerPath), Plan(n.evidence, r.evidencePath),
             SnapshotPlan(r.runDir, s)]
  {
  }

  lemma {:induction false} FourAreDistinct(files: seq<BundleFile>, o: Outside)
    requires |files| == 4 && PlainNames(o.names) && DistinctNames(o.names) && InFolders(files[3].path)
    requires files[0].path == o.names.contract && files[1].path == o.names.ledger && files[2].path == o.names.evidence
    ensures DistinctPaths(Signed(files, o, false))
  {
    FolderNamesDiffer(files[3].path, o.names.contract);
    FolderNamesDiffer(files[3].path, o.names.ledger);
    FolderNamesDiffer(files[3].path, o.names.evidence);
    FolderNamesDiffer(files[3].path, o.names.manifest);
  }

  lemma {:induction false} OneSnapshotExports(r: Request, read: Reader, n: Names, digest: string -> string, s: Snapshot)
    requires Simple(r, read) && PlainNames(n) && DistinctNames(n)
    requires SnapshotAccepted(r.runDir, s, read, OneSnapshot(n, digest, s))
    requires read(Paths.JoinPath(r.runDir, s.snapshotPath)).Some?
    ensures Exportable(r, read, OneSnapshot(n, digest, s))
  {
    var o, l := OneSnapshot(n, digest, s), Listing([s], []);
    assert RunVerified(r, read, o) && RevocationsReadable(r, read, o);
    SnapshotPath(r.runDir, s);
    hide RunVerified, Load, Plans, DistinctPaths, PlainNames, DistinctNames, SnapshotName, Signed;
    OneSnapshotLoads(r, read, n, s);
    FourAreDistinct(Load(Plans(r, l, n), read).value, o);
  }

  function PlainRequest(runDir: string): Request {
    Request("/c", "/l", "/e", runDir, "/w", "/o", [], false)
  }

  /** A file system where the target holds "x" and every other file "y". */
  function TwoTexts(target: string): Reader {
    (p: string) => Some(if p == target then "x" else "y")
  }

  function TwoDigests(first: string, second: string): string -> string {
    (text: string) => if text == "x" then first else second
  }

  lemma {:induction false} PlainIsSimple(runDir: string, target: string)
    ensures Simple(PlainRequest(runDir), TwoTexts(target))
  {
    assert !Blank("/c") && !Blank("/l") && !Blank("/e") && !Blank("/o");
  }

  /** An export whose snapshot is not kept is rejected. */
  lemma {:induction false} UnkeptIsRejected(
    r: Request, read: Reader, digest: string -> string, s: Snapshot, key: Option<string>, tmpDir: string, revoked: set<string>)
    requires Simple(r, read) && SnapshotAccepted(r.runDir, s, read, OneSnapshot(STANDARD, digest, s))
    requires read(Paths.JoinPath(r.runDir, s.snapshotPath)).Some?
    requires (forall text: string :: Checksums.IsHexDigest(digest(text))) && IsRootDir(tmpDir)
    requires !SnapshotKept(r, s, read, OneSnapshot(STANDARD, digest, s))
    ensures var o := OneSnapshot(STANDARD, digest, s);
            && Exportable(r, read, o)
            && !BundleAccepted(Archive(Gathered(r, read, o), o, r.signed), key, tmpDir, revoked, o)
  {
    var o := OneSnapshot(STANDARD, digest, s);
    StandardNamesArePlain();
    StandardNamesDiffer();
    assert ListingOf(r, read, o) == Some(Listing([s], []));
    assert !SnapshotsKept(r, Listing([s], []), read, o) by {
      assert [s][0] == s && s in [s];
    }
    hide PlainNames, DistinctNames, SnapshotKept, SnapshotsKept, Exportable, BundleAccepted, SnapshotAccepted, Simple;
    OneSnapshotExports(r, read, STANDARD, digest, s);
    ExportedExactly(r, read, o, key, tmpDir, revoked);
  }

  /** A snapshot recorded as its folder itself is verified and exported, and the bundle is always rejected: it lies one
      level deeper than where Verify looks. */
  lemma {:induction false} FolderItselfIsRejected(
    runDir: string, digest: string, key: Option<string>, tmpDir: string, revoked: set<string>)
    requires Checksums.IsHexDigest(digest) && IsRootDir(tmpDir)
    ensures var s := Snapshot("input-snapshots", digest);
            var r, read, o := PlainRequest(runDir), TwoTexts(""), OneSnapshot(STANDARD, TwoDigests(digest, digest), s);
            && Exportable(r, read, o)
            && !BundleAccepted(Archive(Gathered(r, read, o), o, r.signed), key, tmpDir, revoked, o)
  {
    var s := Snapshot("input-snapshots", digest);
    var r, read := PlainRequest(runDir), TwoTexts("");
    PlainIsSimple(runDir, "");
    FolderIsItself();
    UnkeptIsRejected(r, read, TwoDigests(digest, digest), s, key, tmpDir, revoked);
  }

  lemma {:induction false} FolderIsItself()
    ensures Paths.SlashClean("input-snapshots") == "input-snapshots"
    ensures forall dir :: Paths.InputSnapshotPath(dir, "input-snapshots") == Ok(Paths.JoinPath(dir, "input-snapshots"))
  {
    FoldersAreProper();
    FolderIsPlain("input-snapshots");
    UnchangedBySlashing("input-snapshots");
    SingleName("input-snapshots");
  }

  // ----- a snapshot recorded with a backslash -----

  lemma {:induction false} BackslashPath(folder: string, name: string)
    requires ProperFolder(folder) && PlainPath(name) && '/' !in name
    ensures Paths.SlashClean(folder + "\\" + name) == folder + "/" + name
    ensures Paths.Segments(folder + "\\" + name) == [folder + "\\" + name] && !Paths.IsAbs(folder + "\\" + name)
  {
    var raw := folder + "\\" + name;
    assert Paths.Slashed(raw) == folder + "/" + name;
    SegmentsUnder(folder, name);
    OneSegment(raw);
  }

  /** Export reads another file than the one that run verification looked at. */
  lemma {:induction false} BackslashSource(runDir: string, folder: string, name: string)
    requires IsRootDir(runDir) && ProperFolder(folder) && PlainPath(name) && '/' !in name
    ensures Paths.JoinPath(runDir, folder + "\\" + name) != Paths.JoinPath(runDir, folder + "/" + name)
  {
    BackslashPath(folder, name);
    SegmentsUnder(folder, name);
    Paths.JoinPathSegments(runDir, folder + "\\" + name);
    Paths.JoinPathSegments(runDir, folder + "/" + name);
    OneSegment(name);
    var base := Paths.Segments(runDir);
    assert |base + [folder + "\\" + name]| != |base + [folder, name]|;
    assert [folder] + [name] == [folder, name];
  }

  lemma {:induction false} BackslashOutcome(dir: string, folder: string, name: string)
    requires ProperFolder(folder) && PlainPath(name) && '/' !in name && folder == "input-snapshots" && '\\' !in name
    ensures Paths.InputSnapshotPath(dir, folder + "\\" + name) == Ok(Paths.JoinPath(dir, folder + "/" + name))
  {
    var raw := folder + "\\" + name;
    BackslashPath(folder, name);
    JoinProper(folder, name);
    UnchangedBySlashing(folder + "/" + name);
    SegmentsUnder(folder, name);
    assert HasPrefix(folder + "/" + name, folder + "/");
    assert Paths.Slashed(raw)[0] == folder[0];
  }

  /** A snapshot that Export reads elsewhere than the verifier of the run did, where another file lies. */
  lemma {:induction false} DivergentIsRejected(
    runDir: string, s: Snapshot, target: string, second: string, key: Option<string>, tmpDir: string, revoked: set<string>)
    requires Paths.InputSnapshotPath(runDir, s.snapshotPath) == Ok(target) && Paths.JoinPath(runDir, s.snapshotPath) != target
    requires Checksums.IsHexDigest(s.digest) && Checksums.IsHexDigest(second) && s.digest != second && IsRootDir(tmpDir)
    ensures var r, read, o := PlainRequest(runDir), TwoTexts(target), OneSnapshot(STANDARD, TwoDigests(s.digest, second), s);
            && Exportable(r, read, o)
            && !BundleAccepted(Archive(Gathered(r, read, o), o, r.signed), key, tmpDir, revoked, o)
  {
    PlainIsSimple(runDir, target);
    hide Paths.InputSnapshotPath, Paths.JoinPath, Simple, Exportable, BundleAccepted, NamesFolder, IsRootDir, Checksums.IsHexDigest;
    UnkeptIsRejected(PlainRequest(runDir), TwoTexts(target), TwoDigests(s.digest, second), s, key, tmpDir, revoked);
  }

  /** A snapshot recorded with a backslash is verified at its slashed path and exported from the path as written; when
      the two files differ the bundle is always rejected. */
  lemma {:induction false} BackslashIsRejected(
    runDir: string, first: string, second: string, key: Option<string>, tmpDir: string, revoked: set<string>)
    requires Checksums.IsHexDigest(first) && Checksums.IsHexDigest(second) && first != second
    requires IsRootDir(runDir) && IsRootDir(tmpDir)
    ensures var s := Snapshot("input-snapshots" + "\\" + "a", first);
            var target := Paths.JoinPath(runDir, "input-snapshots" + "/" + "a");
            var r, read, o := PlainRequest(runDir), TwoTexts(target), OneSnapshot(STANDARD, TwoDigests(first, second), s);
            && Exportable(r, read, o)
            && !BundleAccepted(Archive(Gathered(r, read, o), o, r.signed), key, tmpDir, revoked, o)
  {
    var folder, name := "input-snapshots", "a";
    var s, target := Snapshot(folder + "\\" + name, first), Paths.JoinPath(runDir, folder + "/" + name);
    FoldersAreProper();
    OneSegment(name);
    BackslashOutcome(runDir, folder, name);
    BackslashSource(runDir, folder, name);
    hide Paths.InputSnapshotPath, Paths.JoinPath, Exportable, BundleAccepted, IsRootDir, Checksums.IsHexDigest, ProperFolder, PlainPath;
    DivergentIsRejected(runDir, s, target, second, key, tmpDir, revoked);
  }
}
