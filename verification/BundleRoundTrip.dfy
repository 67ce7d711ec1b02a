/** What becomes of an export when Verify reads it back. */
module BundleRoundTrip {
  import opened Text
  import opened Evidence
  import opened Bundle
  import opened BundleVerify
  import opened BundleNames
  import Checksums
  import Paths

  // ----- loading -----

  lemma {:induction false} LoadAt(plans: seq<Plan>, read: Reader)
    requires Load(plans, read).Some?
    ensures |Load(plans, read).value| == |plans|
    ensures forall i :: 0 <= i < |plans| ==> NewBundleFile(plans[i], read) == Some(Load(plans, read).value[i])
  {
    if plans != [] {
      LoadAt(plans[..|plans| - 1], read);
    }
  }

  /** Whether a bundle path lies in one of the bundle's folders. */
  predicate InFolders(path: string) {
    HasPrefix(path, SNAPSHOTS) || HasPrefix(path, ARTIFACTS) || HasPrefix(path, REVOCATIONS)
  }

  lemma {:induction false} FolderNamesDiffer(path: string, n: string)
    requires InFolders(path) && '/' !in n
    ensures path != n && '/' in path
    ensures IsRevocation(path) ==> !HasPrefix(path, SNAPSHOTS) && !HasPrefix(path, ARTIFACTS)
  {
    if HasPrefix(path, SNAPSHOTS) {
      assert path[15] == SNAPSHOTS[15] == '/' && path[0] == SNAPSHOTS[0] == 'i';
    }
    if HasPrefix(path, ARTIFACTS) {
      assert path[9] == ARTIFACTS[9] == '/' && path[0] == ARTIFACTS[0] == 'a';
    }
    if HasPrefix(path, REVOCATIONS) {
      assert path[11] == REVOCATIONS[11] == '/' && path[0] == REVOCATIONS[0] == 'r';
    }
  }

  lemma {:induction false} SlashFreeIsNoRevocation(n: string)
    requires '/' !in n
    ensures !IsRevocation(n)
  {
    if HasPrefix(n, REVOCATIONS) {
      FolderNamesDiffer(n, n);
    }
  }

  // ----- the archive as a map -----

  /** Every name is its own normal form and new. */
  ghost predicate Zippable(archive: seq<BundleFile>) {
    && DistinctPaths(archive)
    && forall f :: f in archive ==> ValidatesAsItself(f.path)
  }

  lemma {:induction false} ZipReads(archive: seq<BundleFile>)
    requires Zippable(archive)
    ensures ReadZip(archive).Some?
    ensures var entries := ReadZip(archive).value;
            && (forall i :: 0 <= i < |archive| ==> archive[i].path in entries && entries[archive[i].path] == archive[i].contents)
            && (forall name :: name in entries ==> exists i :: 0 <= i < |archive| && archive[i].path == name)
  {
    if archive != [] {
      var n := |archive| - 1;
      var front := archive[..n];
      forall f | f in front ensures ValidatesAsItself(f.path) {
        assert f in archive;
      }
      PrefixDistinct(front, archive);
      ZipReads(front);
      assert archive[n] in archive;
      assert archive[n].path !in ReadZip(front).value;
      assert forall i :: 0 <= i < n ==> archive[i] == front[i];
    }
  }

  // ----- the checksum text reads back -----

  lemma {:induction false} HexHasNoBlank(d: string)
    requires Checksums.IsHexDigest(d)
    ensures ' ' !in d && '\n' !in d && d != "" && !IsSpace(d[0])
  {
  }

  /** Every piece of a file's checksum line, cut at the line breaks of its path, is a line that Verify accepts. */
  ghost predicate LineReadsBack(f: BundleFile, entries: map<string, string>, o: Outside) {
    forall piece :: piece in Split(Checksums.Line(o.digest(f.contents), f.path), '\n') ==> LineAccepted(piece, entries, o)
  }

  lemma {:induction false} SumLine(d: string, path: string)
    requires Checksums.IsHexDigest(d)
    ensures Checksums.SolidStart(Checksums.Line(d, path))
    ensures Checksums.Cut(Checksums.Line(d, path)) == Some((d, path))
    ensures '\n' !in path ==> '\n' !in Checksums.Line(d, path)
    ensures Checksums.SolidEnd(path) ==> Checksums.SolidEnd(Checksums.Line(d, path))
  {
    HexHasNoBlank(d);
    Checksums.CutOfLine(d, path);
    assert Checksums.Line(d, path)[0] == d[0];
  }

  /** A path without line breaks has one piece, which names the file and its digest. */
  lemma {:induction false} OneLineReadsBack(f: BundleFile, entries: map<string, string>, o: Outside)
    requires '\n' !in f.path && ValidatesAsItself(f.path) && Checksums.IsHexDigest(o.digest(f.contents))
    requires f.path in entries && entries[f.path] == f.contents
    ensures LineReadsBack(f, entries, o)
  {
    SumLine(o.digest(f.contents), f.path);
    SplitOne(Checksums.Line(o.digest(f.contents), f.path), '\n');
  }

  /** The pieces of some lines, in order. */
  function Pieces(lines: seq<string>): seq<string> {
    if lines == [] then [] else Split(lines[0], '\n') + Pieces(lines[1..])
  }

  lemma {:induction false} SplitIsPieces(lines: seq<string>)
    requires lines != []
    ensures Split(Join(lines, '\n'), '\n') == Pieces(lines)
  {
    if |lines| > 1 {
      SplitIsPieces(lines[1..]);
      Paths.SplitConcat(lines[0], Join(lines[1..], '\n'), '\n');
      assert lines[0] + ['\n'] + Join(lines[1..], '\n') == lines[0] + "\n" + Join(lines[1..], '\n');
    } else {
      assert lines[1..] == [];
      assert Split(lines[0], '\n') + [] == Split(lines[0], '\n');
    }
  }

  lemma {:induction false} PieceOfLine(lines: seq<string>, piece: string)
    ensures piece in Pieces(lines) <==> exists i :: 0 <= i < |lines| && piece in Split(lines[i], '\n')
  {
    if lines != [] {
      PieceOfLine(lines[1..], piece);
      assert forall i :: 0 < i < |lines| ==> lines[i] == lines[1..][i - 1];
      assert forall i :: 0 <= i < |lines[1..]| ==> lines[1..][i] == lines[i + 1];
    }
  }

  lemma {:induction false} FirstPieceSolid(line: string)
    requires Checksums.SolidStart(line)
    ensures Checksums.SolidStart(Split(line, '\n')[0])
  {
    assert IsSpace('\n');
  }

  /** The sums of files whose last one has a solid name are accepted exactly when every file's line reads back. */
  lemma {:induction false} SumsAccepted(files: seq<BundleFile>, entries: map<string, string>, o: Outside)
    requires files != [] && Checksums.SolidEnd(files[|files| - 1].path)
    requires forall text: string :: Checksums.IsHexDigest(o.digest(text))
    requires o.names.sums in entries && entries[o.names.sums] == Checksums.SumText(SumLines(Entries(files, o)))
    ensures ChecksumsAccepted(entries, o) <==> forall f :: f in files ==> LineReadsBack(f, entries, o)
  {
    var lines := SumLines(Entries(files, o));
    forall i | 0 <= i < |files|
      ensures lines[i] == Checksums.Line(o.digest(files[i].contents), files[i].path)
      ensures Checksums.SolidStart(lines[i]) && (i == |files| - 1 ==> Checksums.SolidEnd(lines[i]))
    {
      SumLine(o.digest(files[i].contents), files[i].path);
    }
    var text, pieces := Checksums.SumText(lines), Pieces(lines);
    Checksums.TextIsJoin(lines);
    Checksums.JoinIsSolid(lines);
    Checksums.TrimFinalNewline(Join(lines, '\n'));
    SplitIsPieces(lines);
    assert Split(TrimSpace(text), '\n') == pieces;
    FirstPieceSolid(lines[0]);
    SolidIsNotBlank(pieces[0]);
    PiecesAccepted(files, lines, entries, o);
  }

  lemma {:induction false} PiecesAccepted(
    files: seq<BundleFile>, lines: seq<string>, entries: map<string, string>, o: Outside)
    requires |lines| == |files|
    requires forall i :: 0 <= i < |files| ==> lines[i] == Checksums.Line(o.digest(files[i].contents), files[i].path)
    ensures (forall i :: 0 <= i < |Pieces(lines)| ==> LineAccepted(Pieces(lines)[i], entries, o)) <==>
            forall f :: f in files ==> LineReadsBack(f, entries, o)
  {
    hide LineAccepted, Split, Checksums.Line;
    var pieces := Pieces(lines);
    if forall f :: f in files ==> LineReadsBack(f, entries, o) {
      forall i | 0 <= i < |pieces| ensures LineAccepted(pieces[i], entries, o) {
        PieceOfLine(lines, pieces[i]);
        var k :| 0 <= k < |lines| && pieces[i] in Split(lines[k], '\n');
        assert files[k] in files;
      }
    }
    if forall i :: 0 <= i < |pieces| ==> LineAccepted(pieces[i], entries, o) {
      forall f, piece | f in files && piece in Split(Checksums.Line(o.digest(f.contents), f.path), '\n')
        ensures LineAccepted(piece, entries, o)
      {
        var k :| 0 <= k < |files| && files[k] == f;
        PieceOfLine(lines, piece);
        var i :| 0 <= i < |pieces| && pieces[i] == piece;
      }
    }
  }

  lemma {:induction false} SolidIsNotBlank(s: string)
    requires Checksums.SolidStart(s)
    ensures !Blank(s)
  {
    assert TrimLeft(s) == s;
    TrimRightKeepsFirst(s);
  }

  lemma {:induction false} TrimRightKeepsFirst(s: string)
    requires Checksums.SolidStart(s)
    ensures TrimRight(s) != ""
  {
    if IsSpace(s[|s| - 1]) {
      TrimRightKeepsFirst(s[..|s| - 1]);
    }
  }

  // ----- what an export gathers -----

  ghost predicate SnapshotIn(f: BundleFile, s: Snapshot) {
    && f.path == SnapshotName(s) && PlainPath(f.path) && HasPrefix(f.path, SNAPSHOTS)
    && Paths.InputSnapshotPath("/", s.snapshotPath).Ok?
  }

  ghost predicate ArtifactIn(f: BundleFile, a: ArtifactRef, o: Outside) {
    && f.path == ARTIFACTS + Paths.SlashClean(a.path) && PlainPath(Paths.SlashClean(a.path))
    && Paths.WorkspaceArtifactPath("/", a.path).Ok? && o.digest(f.contents) == a.digest
    && a.uri == "covenant-artifact://sha256/" + a.digest
  }

  ghost predicate RevocationIn(f: BundleFile, list: string, o: Outside) {
    (f.path == "revocations" || IsRevocation(f.path)) && f.contents == list && o.isRevocationList(list)
  }

  ghost predicate SnapshotsIn(files: seq<BundleFile>, snapshots: seq<Snapshot>) {
    |files| == |snapshots| && forall k :: 0 <= k < |files| ==> SnapshotIn(files[k], snapshots[k])
  }

  ghost predicate ArtifactsIn(files: seq<BundleFile>, artifacts: seq<ArtifactRef>, o: Outside) {
    |files| == |artifacts| && forall k :: 0 <= k < |files| ==> ArtifactIn(files[k], artifacts[k], o)
  }

  ghost predicate RevocationsIn(files: seq<BundleFile>, lists: seq<string>, o: Outside) {
    |files| == |lists| && forall k :: 0 <= k < |files| ==> RevocationIn(files[k], lists[k], o)
  }

  /** The files of a run: contract, ledger and evidence, then snapshots, artifacts and revocation lists in order. */
  ghost predicate Gathering(files: seq<BundleFile>, l: Listing, lists: seq<string>, o: Outside) {
    var a, b := 3 + |l.snapshots|, 3 + |l.snapshots| + |l.artifacts|;
    && |files| == b + |lists|
    && files[0].path == o.names.contract && files[1].path == o.names.ledger && files[2].path == o.names.evidence
    && SnapshotsIn(files[3..a], l.snapshots) && ArtifactsIn(files[a..b], l.artifacts, o)
    && RevocationsIn(files[b..], lists, o)
  }

  lemma {:induction false} GatheringSize(files: seq<BundleFile>, l: Listing, lists: seq<string>, o: Outside)
    requires Gathering(files, l, lists, o)
    ensures |files| == 3 + |l.snapshots| + |l.artifacts| + |lists|
  {
  }

  lemma {:induction false} SnapshotAt(files: seq<BundleFile>, l: Listing, lists: seq<string>, o: Outside, k: nat)
    requires Gathering(files, l, lists, o) && k < |l.snapshots|
    ensures SnapshotIn(files[3 + k], l.snapshots[k])
  {
    assert files[3 + k] == files[3..3 + |l.snapshots|][k];
  }

  lemma {:induction false} ArtifactAt(files: seq<BundleFile>, l: Listing, lists: seq<string>, o: Outside, k: nat)
    requires Gathering(files, l, lists, o) && k < |l.artifacts|
    ensures ArtifactIn(files[3 + |l.snapshots| + k], l.artifacts[k], o)
  {
    var a := 3 + |l.snapshots|;
    assert files[a + k] == files[a..a + |l.artifacts|][k];
  }

  lemma {:induction false} RevocationAt(files: seq<BundleFile>, l: Listing, lists: seq<string>, o: Outside, k: nat)
    requires Gathering(files, l, lists, o) && k < |lists|
    ensures RevocationIn(files[3 + |l.snapshots| + |l.artifacts| + k], lists[k], o)
  {
    var b := 3 + |l.snapshots| + |l.artifacts|;
    assert files[b + k] == files[b..][k];
  }

  ghost predicate GoodFiles(files: seq<BundleFile>) {
    forall f :: f in files ==> ValidatesAsItself(f.path)
  }

  /** Which names the gathered files have. */
  lemma {:induction false} FileKind(files: seq<BundleFile>, l: Listing, lists: seq<string>, o: Outside, i: nat)
    requires Gathering(files, l, lists, o) && PlainNames(o.names) && i < |files|
    ensures i < 3 ==> PlainName(files[i].path) && files[i].path != o.names.sums && files[i].path != o.names.signature
    ensures i >= 3 ==> InFolders(files[i].path) || files[i].path == "revocations"
    ensures IsRevocation(files[i].path) || files[i].path == "revocations" ==> i >= 3 + |l.snapshots| + |l.artifacts|
  {
    var path := files[i].path;
    if i < 3 {
      SlashFreeIsNoRevocation(path);
    } else if i < 3 + |l.snapshots| {
      SnapshotAt(files, l, lists, o, i - 3);
      FolderNamesDiffer(path, "revocations");
    } else if i < 3 + |l.snapshots| + |l.artifacts| {
      var k := i - 3 - |l.snapshots|;
      ArtifactAt(files, l, lists, o, k);
      FolderNamesDiffer(path, "revocations");
    } else {
      var k := i - 3 - |l.snapshots| - |l.artifacts|;
      RevocationAt(files, l, lists, o, k);
    }
  }

  /** A gathered file is neither the snapshots folder nor one of the generated files. */
  lemma {:induction false} FileNamesDiffer(files: seq<BundleFile>, l: Listing, lists: seq<string>, o: Outside, f: BundleFile)
    requires Gathering(files, l, lists, o) && PlainNames(o.names) && f in files
    ensures f.path != "input-snapshots" && f.path != o.names.sums && f.path != o.names.signature
    ensures '/' in f.path ==> InFolders(f.path)
  {
    var i :| 0 <= i < |files| && files[i] == f;
    FileKind(files, l, lists, o, i);
    if i >= 3 && f.path != "revocations" {
      FolderNamesDiffer(f.path, "input-snapshots");
      FolderNamesDiffer(f.path, o.names.sums);
      FolderNamesDiffer(f.path, o.names.signature);
    }
  }

  // ----- the archive -----

  lemma {:induction false} ArchivePathsDistinct(
    files: seq<BundleFile>, l: Listing, lists: seq<string>, o: Outside, signed: bool)
    requires Gathering(files, l, lists, o) && PlainNames(o.names) && DistinctPaths(Signed(files, o, signed))
    ensures DistinctPaths(Archive(files, o, signed))
  {
    var n, all, archive := o.names, Signed(files, o, signed), Archive(files, o, signed);
    forall i, j | 0 <= i < j < |archive| ensures archive[i].path != archive[j].path {
      if j < |all| {
        assert all[i].path != all[j].path;
      } else if i < |files| {
        FileNamesDiffer(files, l, lists, o, files[i]);
      }
    }
  }

  lemma {:induction false} ArchiveZips(files: seq<BundleFile>, l: Listing, lists: seq<string>, o: Outside, signed: bool)
    requires Gathering(files, l, lists, o) && GoodFiles(files) && PlainNames(o.names)
    requires DistinctPaths(Signed(files, o, signed))
    ensures Zippable(Archive(files, o, signed))
  {
    ArchivePathsDistinct(files, l, lists, o, signed);
    SingleName(o.names.manifest);
    SingleName(o.names.signature);
    SingleName(o.names.sums);
  }

  /** The archive as the map that Verify reads. */
  ghost predicate IsMapOf(entries: map<string, string>, archive: seq<BundleFile>) {
    && (forall f :: f in archive ==> f.path in entries && entries[f.path] == f.contents)
    && (forall name :: name in entries ==> exists f :: f in archive && f.path == name)
  }

  lemma {:induction false} ZipReadsMap(archive: seq<BundleFile>)
    requires Zippable(archive)
    ensures ReadZip(archive).Some? && IsMapOf(ReadZip(archive).value, archive)
  {
    ZipReads(archive);
    var entries := ReadZip(archive).value;
    forall name | name in entries ensures exists f :: f in archive && f.path == name {
      var i :| 0 <= i < |archive| && archive[i].path == name;
      assert archive[i] in archive;
    }
  }

  function ManifestOf(files: seq<BundleFile>, o: Outside): string {
    o.manifest(Entries(files, o))
  }

  /** What the archive holds beside the gathered files. */
  lemma {:induction false} GeneratedFiles(files: seq<BundleFile>, o: Outside, signed: bool, f: BundleFile)
    ensures f in Archive(files, o, signed) <==>
            || f in files || f == BundleFile(o.names.manifest, ManifestOf(files, o))
            || (signed && f == BundleFile(o.names.signature, o.sign(ManifestOf(files, o))))
            || f == BundleFile(o.names.sums, Checksums.SumText(SumLines(Entries(Signed(files, o, signed), o))))
  {
  }

  ghost predicate LinesReadBack(files: seq<BundleFile>, entries: map<string, string>, o: Outside) {
    forall f :: f in files ==> LineReadsBack(f, entries, o)
  }

  /** The lines of the generated files always read back. */
  lemma {:induction false} GeneratedReadBack(files: seq<BundleFile>, o: Outside, signed: bool, entries: map<string, string>)
    requires PlainNames(o.names) && forall text: string :: Checksums.IsHexDigest(o.digest(text))
    requires IsMapOf(entries, Archive(files, o, signed))
    ensures LinesReadBack(Signed(files, o, signed), entries, o) <==> LinesReadBack(files, entries, o)
  {
    var n, all := o.names, Signed(files, o, signed);
    var manifest, signature := BundleFile(n.manifest, ManifestOf(files, o)), BundleFile(n.signature, o.sign(ManifestOf(files, o)));
    GeneratedFiles(files, o, signed, manifest);
    GeneratedFiles(files, o, signed, signature);
    SingleName(n.manifest);
    SingleName(n.signature);
    OneLineReadsBack(manifest, entries, o);
    if signed {
      OneLineReadsBack(signature, entries, o);
    }
    hide LineReadsBack, IsMapOf, PlainNames;
    assert forall f :: f in all <==> f in files || f == manifest || (signed && f == signature);
  }

  /** The archive holds every required entry, and its checksum text is accepted exactly when the lines of all
      gathered files read back. */
  lemma {:induction false} ArchiveIsSound(
    files: seq<BundleFile>, l: Listing, lists: seq<string>, o: Outside, signed: bool, entries: map<string, string>)
    requires Gathering(files, l, lists, o) && PlainNames(o.names)
    requires forall text: string :: Checksums.IsHexDigest(o.digest(text))
    requires IsMapOf(entries, Archive(files, o, signed))
    ensures HasRequired(entries, o.names) && (ChecksumsAccepted(entries, o) <==> LinesReadBack(files, entries, o))
  {
    var n, all, archive := o.names, Signed(files, o, signed), Archive(files, o, signed);
    var manifest := BundleFile(n.manifest, ManifestOf(files, o));
    var sums := BundleFile(n.sums, Checksums.SumText(SumLines(Entries(all, o))));
    GeneratedFiles(files, o, signed, manifest);
    GeneratedFiles(files, o, signed, sums);
    assert files[0] in archive && files[1] in archive && files[2] in archive;
    GeneratedReadBack(files, o, signed, entries);
    assert Checksums.SolidEnd(all[|all| - 1].path);
    hide LineReadsBack, Gathering, PlainNames, ChecksumsAccepted;
    SumsAccepted(all, entries, o);
  }

  /** What a public key demands of an export. */
  predicate SignatureGiven(files: seq<BundleFile>, signed: bool, key: Option<string>, o: Outside) {
    key.Some? ==> signed && o.signatureOk(key.value, ManifestOf(files, o), o.sign(ManifestOf(files, o)))
  }

  lemma {:induction false} SignatureIsGiven(
    files: seq<BundleFile>, l: Listing, lists: seq<string>, o: Outside, signed: bool, entries: map<string, string>,
    key: Option<string>)
    requires Gathering(files, l, lists, o) && PlainNames(o.names) && IsMapOf(entries, Archive(files, o, signed))
    requires HasRequired(entries, o.names)
    ensures SignatureAccepted(entries, key, o) <==> SignatureGiven(files, signed, key, o)
  {
    var n, archive := o.names, Archive(files, o, signed);
    var manifest, signature := BundleFile(n.manifest, ManifestOf(files, o)), BundleFile(n.signature, o.sign(ManifestOf(files, o)));
    GeneratedFiles(files, o, signed, manifest);
    GeneratedFiles(files, o, signed, signature);
    if n.signature in entries && !signed {
      var f :| f in archive && f.path == n.signature;
      GeneratedFiles(files, o, signed, f);
      FileNamesDiffer(files, l, lists, o, f);
    }
  }

  // ----- the layout -----

  lemma {:induction false} LandsUnder(tmpDir: string, folder: string, n: string)
    requires IsRootDir(tmpDir) && PlainPath(n) && Paths.NormalSeg(folder) && folder != ".."
    ensures Paths.JoinPath(Paths.JoinPath(tmpDir, folder), n) == Paths.JoinPath(tmpDir, folder + "/" + n)
  {
    var dir := Paths.JoinPath(tmpDir, folder);
    SegmentsUnder(folder, n);
    OneSegment(folder);
    Paths.JoinPathSegments(tmpDir, folder);
    Paths.CleanIdempotent(tmpDir + "/" + folder);
    Paths.JoinPathSegments(dir, n);
    Paths.JoinPathSegments(tmpDir, folder + "/" + n);
    assert (Paths.Segments(tmpDir) + [folder]) + Paths.Segments(n) == Paths.Segments(tmpDir) + ([folder] + Paths.Segments(n));
  }

  lemma {:induction false} FolderFileIsPlaced(
    f: BundleFile, tmpDir: string, entries: map<string, string>, archive: seq<BundleFile>, n: Names)
    requires IsMapOf(entries, archive) && f in archive && InFolders(f.path) && PlainNames(n)
    ensures PlacedAt(tmpDir, entries, n, f.path, Paths.JoinPath(tmpDir, f.path)) && entries[f.path] == f.contents
  {
    FolderNamesDiffer(f.path, n.manifest);
    FolderNamesDiffer(f.path, n.sums);
  }

  /** The bundled file is the one that the snapshot's digest is of, and lies below the folder. */
  ghost predicate SnapshotFound(f: BundleFile, s: Snapshot, o: Outside) {
    !NamesFolder(s) && o.digest(f.contents) == s.digest
  }

  ghost predicate SnapshotsFound(files: seq<BundleFile>, l: Listing, o: Outside) {
    |files| >= 3 + |l.snapshots| && forall k :: 0 <= k < |l.snapshots| ==> SnapshotFound(files[3 + k], l.snapshots[k], o)
  }

  lemma {:induction false} SnapshotTarget(tmpDir: string, s: Snapshot)
    requires Paths.InputSnapshotPath("/", s.snapshotPath).Ok?
    ensures Paths.InputSnapshotPath(tmpDir, s.snapshotPath) == Ok(Paths.JoinPath(tmpDir, Paths.SlashClean(s.snapshotPath)))
    ensures GoodName(Paths.SlashClean(s.snapshotPath))
  {
    AcceptedIsGood(s.snapshotPath);
  }

  /** A snapshot is found exactly when its entry lies at its own normal path and has its digest. */
  lemma {:induction false} SnapshotLandsExactly(
    f: BundleFile, s: Snapshot, tmpDir: string, entries: map<string, string>, archive: seq<BundleFile>, o: Outside)
    requires IsMapOf(entries, archive) && f in archive && SnapshotIn(f, s) && PlainNames(o.names)
    requires IsRootDir(tmpDir) && GoodNames(entries) && "input-snapshots" !in entries
    ensures SnapshotLanded(tmpDir, entries, s, o) <==> SnapshotFound(f, s, o)
  {
    var n := Paths.SlashClean(s.snapshotPath);
    SnapshotTarget(tmpDir, s);
    FolderFileIsPlaced(f, tmpDir, entries, archive, o.names);
    if SnapshotLanded(tmpDir, entries, s, o) {
      var name :| PlacedAt(tmpDir, entries, o.names, name, Paths.JoinPath(tmpDir, n)) && o.digest(entries[name]) == s.digest;
      LandsApart(tmpDir, name, n);
    }
  }

  lemma {:induction false} EachSnapshotLands(
    files: seq<BundleFile>, l: Listing, lists: seq<string>, o: Outside, signed: bool, entries: map<string, string>,
    tmpDir: string, k: nat)
    requires Gathering(files, l, lists, o) && PlainNames(o.names) && IsMapOf(entries, Archive(files, o, signed))
    requires IsRootDir(tmpDir) && GoodNames(entries) && k < |l.snapshots|
    ensures SnapshotLanded(tmpDir, entries, l.snapshots[k], o) <==> SnapshotFound(files[3 + k], l.snapshots[k], o)
  {
    NoFolderEntry(files, l, lists, o, signed, entries);
    SnapshotAt(files, l, lists, o, k);
    hide SnapshotIn, SnapshotLanded, SnapshotFound, GoodNames, PlainNames, IsRootDir, IsMapOf;
    GeneratedFiles(files, o, signed, files[3 + k]);
    SnapshotLandsExactly(files[3 + k], l.snapshots[k], tmpDir, entries, Archive(files, o, signed), o);
  }

  /** The snapshots lie where the verifier looks for them exactly when each is below the folder and has its digest. */
  lemma {:induction false} SnapshotsLand(
    files: seq<BundleFile>, l: Listing, lists: seq<string>, o: Outside, signed: bool, entries: map<string, string>, tmpDir: string)
    requires Gathering(files, l, lists, o) && PlainNames(o.names) && IsMapOf(entries, Archive(files, o, signed))
    requires IsRootDir(tmpDir) && GoodNames(entries)
    ensures AllSnapshotsLanded(tmpDir, entries, l, o) <==> SnapshotsFound(files, l, o)
  {
    hide SnapshotLanded, SnapshotFound, Gathering, PlainNames, IsRootDir, IsMapOf, GoodNames, Archive;
    GatheringSize(files, l, lists, o);
    forall k: nat | k < |l.snapshots|
      ensures SnapshotLanded(tmpDir, entries, l.snapshots[k], o) <==> SnapshotFound(files[3 + k], l.snapshots[k], o)
    {
      EachSnapshotLands(files, l, lists, o, signed, entries, tmpDir, k);
    }
    if SnapshotsFound(files, l, o) {
      forall s | s in l.snapshots ensures SnapshotLanded(tmpDir, entries, s, o) {
        var k :| 0 <= k < |l.snapshots| && l.snapshots[k] == s;
        assert SnapshotFound(files[3 + k], l.snapshots[k], o);
      }
    }
    if AllSnapshotsLanded(tmpDir, entries, l, o) {
      forall k: nat | k < |l.snapshots| ensures SnapshotFound(files[3 + k], l.snapshots[k], o) {
        assert l.snapshots[k] in l.snapshots;
      }
    }
  }

  lemma {:induction false} NoFolderEntry(
    files: seq<BundleFile>, l: Listing, lists: seq<string>, o: Outside, signed: bool, entries: map<string, string>)
    requires Gathering(files, l, lists, o) && PlainNames(o.names) && IsMapOf(entries, Archive(files, o, signed))
    ensures "input-snapshots" !in entries
  {
    if "input-snapshots" in entries {
      var f :| f in Archive(files, o, signed) && f.path == "input-snapshots";
      GeneratedFiles(files, o, signed, f);
      assert FolderName(f.path);
      assert f in files;
      FileNamesDiffer(files, l, lists, o, f);
    }
  }

  /** Every artifact lies where the verifier looks for it. */
  lemma {:induction false} ArtifactsLand(
    files: seq<BundleFile>, l: Listing, lists: seq<string>, o: Outside, signed: bool, entries: map<string, string>, tmpDir: string)
    requires Gathering(files, l, lists, o) && PlainNames(o.names) && IsMapOf(entries, Archive(files, o, signed))
    requires IsRootDir(tmpDir)
    ensures AllArtifactsLanded(tmpDir, entries, l, o)
  {
    hide ArtifactIn, ArtifactLanded, PlainNames, IsRootDir, IsMapOf, Archive;
    forall a | a in l.artifacts ensures ArtifactLanded(tmpDir, entries, a, o) {
      var k :| 0 <= k < |l.artifacts| && l.artifacts[k] == a;
      GatheringSize(files, l, lists, o);
      var f := files[3 + |l.snapshots| + k];
      ArtifactAt(files, l, lists, o, k);
      GeneratedFiles(files, o, signed, f);
      ArtifactLands(f, a, tmpDir, entries, Archive(files, o, signed), o);
    }
  }

  lemma {:induction false} ArtifactLands(
    f: BundleFile, a: ArtifactRef, tmpDir: string, entries: map<string, string>, archive: seq<BundleFile>, o: Outside)
    requires IsMapOf(entries, archive) && f in archive && ArtifactIn(f, a, o) && PlainNames(o.names) && IsRootDir(tmpDir)
    ensures ArtifactLanded(tmpDir, entries, a, o)
  {
    FolderFileIsPlaced(f, tmpDir, entries, archive, o.names);
    ArtifactOutcome(tmpDir, a);
  }

  lemma {:induction false} ArtifactOutcome(tmpDir: string, a: ArtifactRef)
    requires Paths.WorkspaceArtifactPath("/", a.path).Ok? && IsRootDir(tmpDir) && PlainPath(Paths.SlashClean(a.path))
    ensures Paths.WorkspaceArtifactPath(Paths.JoinPath(tmpDir, "artifacts"), a.path) ==
            Ok(Paths.JoinPath(tmpDir, ARTIFACTS + Paths.SlashClean(a.path)))
  {
    LandsUnder(tmpDir, "artifacts", Paths.SlashClean(a.path));
    assert ARTIFACTS + Paths.SlashClean(a.path) == "artifacts" + "/" + Paths.SlashClean(a.path);
  }

  // ----- files inside files -----

  /** A gathered file would have to be the folder of another. */
  ghost predicate Nested(files: seq<BundleFile>) {
    exists f, g :: f in files && g in files && HasPrefix(g.path, f.path + "/")
  }

  lemma {:induction false} FolderOfPath(path: string, n: string)
    requires InFolders(path) && '/' !in n && HasPrefix(path, n + "/")
    ensures FolderName(n)
  {
    assert path[|n|] == (n + "/")[|n|] == '/';
    assert n == path[..|n|];
    if HasPrefix(path, SNAPSHOTS) {
      FirstSlash(path, n, "input-snapshots");
    } else if HasPrefix(path, ARTIFACTS) {
      FirstSlash(path, n, "artifacts");
    } else {
      FirstSlash(path, n, "revocations");
    }
  }

  lemma {:induction false} FirstSlash(path: string, a: string, b: string)
    requires '/' !in a && '/' !in b && HasPrefix(path, a + "/") && HasPrefix(path, b + "/")
    ensures a == b
  {
    assert path[|a|] == (a + "/")[|a|] == '/' && path[|b|] == (b + "/")[|b|] == '/';
    assert path[..|a|] == a && path[..|b|] == b;
  }

  /** Only gathered files can collide. */
  lemma {:induction false} OnlyFilesNest(
    files: seq<BundleFile>, l: Listing, lists: seq<string>, o: Outside, signed: bool, f: BundleFile, g: BundleFile)
    requires Gathering(files, l, lists, o) && PlainNames(o.names)
    requires f in Archive(files, o, signed) && g in Archive(files, o, signed) && HasPrefix(g.path, f.path + "/")
    ensures f in files && g in files
  {
    GeneratedFiles(files, o, signed, f);
    GeneratedFiles(files, o, signed, g);
    assert g.path[|f.path|] == (f.path + "/")[|f.path|] == '/';
    assert '/' in g.path && g in files;
    FileNamesDiffer(files, l, lists, o, g);
    if f !in files {
      FolderOfPath(g.path, f.path);
    }
  }

  lemma {:induction false} NestedExactly(
    files: seq<BundleFile>, l: Listing, lists: seq<string>, o: Outside, signed: bool, entries: map<string, string>)
    requires Gathering(files, l, lists, o) && PlainNames(o.names) && IsMapOf(entries, Archive(files, o, signed))
    requires DistinctPaths(Signed(files, o, signed))
    ensures FolderIsFile(entries, o.names) <==> Nested(files)
  {
    var archive, n := Archive(files, o, signed), o.names;
    if FolderIsFile(entries, n) {
      var name :| name in entries && Extractable(name, n) && IsFolder(entries, n, name);
      var other :| other in entries && Extractable(other, n) && HasPrefix(other, name + "/");
      var f :| f in archive && f.path == name;
      var g :| g in archive && g.path == other;
      OnlyFilesNest(files, l, lists, o, signed, f, g);
    }
    if f, g :| f in files && g in files && HasPrefix(g.path, f.path + "/") {
      FilesAreExtracted(files, l, lists, o, signed, f);
      FilesAreExtracted(files, l, lists, o, signed, g);
      assert IsFolder(entries, n, f.path);
    }
  }

  lemma {:induction false} FilesAreExtracted(
    files: seq<BundleFile>, l: Listing, lists: seq<string>, o: Outside, signed: bool, f: BundleFile)
    requires Gathering(files, l, lists, o) && PlainNames(o.names) && DistinctPaths(Signed(files, o, signed)) && f in files
    ensures Extractable(f.path, o.names) && f in Archive(files, o, signed)
  {
    FileNamesDiffer(files, l, lists, o, f);
    var i :| 0 <= i < |files| && files[i] == f;
    var all := Signed(files, o, signed);
    assert all[i] == f && all[|files|].path == o.names.manifest;
  }

  // ----- revocations -----

  function RevokedBy(lists: seq<string>, o: Outside): set<string> {
    set list, id | list in lists && id in o.revokes(list) :: id
  }

  /** A revocation entry of the archive is one of the lists. */
  lemma {:induction false} RevocationEntry(
    files: seq<BundleFile>, l: Listing, lists: seq<string>, o: Outside, signed: bool, entries: map<string, string>, name: string)
    requires Gathering(files, l, lists, o) && PlainNames(o.names) && IsMapOf(entries, Archive(files, o, signed))
    requires name in entries && (IsRevocation(name) || name == "revocations")
    ensures entries[name] in lists && o.isRevocationList(entries[name])
    ensures exists f :: f in files && f.path == name
  {
    var n, archive := o.names, Archive(files, o, signed);
    SlashFreeIsNoRevocation(n.manifest);
    SlashFreeIsNoRevocation(n.signature);
    SlashFreeIsNoRevocation(n.sums);
    assert FolderName("revocations");
    var f :| f in archive && f.path == name;
    GeneratedFiles(files, o, signed, f);
    assert f in files;
    var i :| 0 <= i < |files| && files[i] == f;
    FileKind(files, l, lists, o, i);
    var k := i - (3 + |l.snapshots| + |l.artifacts|);
    RevocationAt(files, l, lists, o, k);
  }

  /** No list was stored as the revocations folder itself. */
  ghost predicate ListsNamed(files: seq<BundleFile>) {
    forall f :: f in files ==> f.path != "revocations"
  }

  lemma {:induction false} FolderReadableExactly(
    files: seq<BundleFile>, l: Listing, lists: seq<string>, o: Outside, signed: bool, entries: map<string, string>)
    requires Gathering(files, l, lists, o) && PlainNames(o.names) && IsMapOf(entries, Archive(files, o, signed))
    ensures FolderReadable(entries, o.names) <==> ListsNamed(files)
  {
    assert FolderName("revocations");
    if "revocations" in entries {
      RevocationEntry(files, l, lists, o, signed, entries, "revocations");
    }
    if f :| f in files && f.path == "revocations" {
      assert f in Archive(files, o, signed);
    }
  }

  lemma {:induction false} RevocationsLand(
    files: seq<BundleFile>, l: Listing, lists: seq<string>, o: Outside, signed: bool, entries: map<string, string>)
    requires Gathering(files, l, lists, o) && PlainNames(o.names) && IsMapOf(entries, Archive(files, o, signed))
    ensures ListsReadable(entries, o) && (ListsNamed(files) ==> BundledRevoked(entries, o) == RevokedBy(lists, o))
  {
    forall name | name in entries && IsRevocation(name)
      ensures entries[name] in lists && o.isRevocationList(entries[name])
    {
      RevocationEntry(files, l, lists, o, signed, entries, name);
    }
    if ListsNamed(files) {
      forall list | list in lists ensures exists name :: name in entries && IsRevocation(name) && entries[name] == list {
        var k :| 0 <= k < |lists| && lists[k] == list;
        var f := files[3 + |l.snapshots| + |l.artifacts| + k];
        RevocationAt(files, l, lists, o, k);
        assert f in files && f in Archive(files, o, signed);
        assert entries[f.path] == list;
      }
    }
  }
}
