/** Evidence bundles: what Export writes and what Verify demands of it. */
module Bundle {
  import opened Text
  import opened Evidence
  import Checksums
  import Paths

  datatype BundleFile = BundleFile(path: string, contents: string)

  datatype Entry = Entry(path: string, sha256: string, sizeBytes: nat)

  datatype Snapshot = Snapshot(snapshotPath: string, digest: string)

  /** The files that an evidence pack refers to. */
  datatype Listing = Listing(snapshots: seq<Snapshot>, artifacts: seq<ArtifactRef>)

  /** Reading a file by its absolute path. */
  type Reader = string -> Option<string>

  /** The entries that every bundle has. */
  datatype Names = Names(
    contract: string,
    ledger: string,
    evidence: string,
    manifest: string,
    signature: string,
    sums: string)

  const STANDARD: Names :=
    Names("contract.json", "events.ndjson", "evidence-pack.json", "bundle-manifest.json", "bundle-signature.json", "SHA256SUMS")

  /** What lies outside the bundle code: hashing, JSON and signatures, and the parts of run verification that
      depend on the texts of contract, ledger and evidence alone; and the names of the fixed entries. */
  datatype Outside = Outside(
    names: Names,
    digest: string -> string,
    decode: string -> Option<Listing>,
    contractMatches: (string, string) -> bool,
    ledgerAccepted: (string, string) -> bool,
    isRevocationList: string -> bool,
    revokes: string -> set<string>,
    tickets: string -> set<string>,
    manifest: seq<Entry> -> string,
    sign: string -> string,
    signatureOk: (string, string, string) -> bool)

  datatype Request = Request(
    contractPath: string,
    ledgerPath: string,
    evidencePath: string,
    runDir: string,
    workspaceDir: string,
    outPath: string,
    revocations: seq<string>,
    signed: bool)

  // ----- the file checks of run verification -----

  predicate FileHas(read: Reader, o: Outside, target: string, digest: string) {
    read(target).Some? && o.digest(read(target).value) == digest
  }

  predicate ArtifactAccepted(workspaceDir: string, a: ArtifactRef, read: Reader, o: Outside) {
    var target := Paths.WorkspaceArtifactPath(workspaceDir, a.path);
    a.uri == "covenant-artifact://sha256/" + a.digest && target.Ok? && FileHas(read, o, target.value, a.digest)
  }

  predicate SnapshotAccepted(runDir: string, s: Snapshot, read: Reader, o: Outside) {
    var target := Paths.InputSnapshotPath(runDir, s.snapshotPath);
    target.Ok? && FileHas(read, o, target.value, s.digest)
  }

  predicate SnapshotsAccepted(runDir: string, snapshots: seq<Snapshot>, read: Reader, o: Outside) {
    forall s :: s in snapshots ==> SnapshotAccepted(runDir, s, read, o)
  }

  predicate ArtifactsAccepted(workspaceDir: string, artifacts: seq<ArtifactRef>, read: Reader, o: Outside) {
    forall a :: a in artifacts ==> ArtifactAccepted(workspaceDir, a, read, o)
  }

  predicate FilesAccepted(runDir: string, workspaceDir: string, l: Listing, read: Reader, o: Outside) {
    SnapshotsAccepted(runDir, l.snapshots, read, o) && ArtifactsAccepted(workspaceDir, l.artifacts, read, o)
  }

  method VerifyArtifacts(workspaceDir: string, artifacts: seq<ArtifactRef>, read: Reader, o: Outside)
    returns (problem: Option<ArtifactRef>)
    ensures problem.None? <==> ArtifactsAccepted(workspaceDir, artifacts, read, o)
    ensures problem.Some? ==> problem.value in artifacts && !ArtifactAccepted(workspaceDir, problem.value, read, o)
  {
    for i := 0 to |artifacts|
      invariant forall k :: 0 <= k < i ==> ArtifactAccepted(workspaceDir, artifacts[k], read, o)
    {
      var a := artifacts[i];
      assert a in artifacts;
      if a.uri != "covenant-artifact://sha256/" + a.digest {
        return Some(a);
      }
      var target := Paths.WorkspaceArtifactPath(workspaceDir, a.path);
      if target.Err? {
        return Some(a);
      }
      var contents := read(target.value);
      if contents.None? || o.digest(contents.value) != a.digest {
        return Some(a);
      }
    }
    problem := None;
  }

  method VerifyInputSnapshots(runDir: string, snapshots: seq<Snapshot>, read: Reader, o: Outside)
    returns (problem: Option<Snapshot>)
    ensures problem.None? <==> SnapshotsAccepted(runDir, snapshots, read, o)
    ensures problem.Some? ==> problem.value in snapshots && !SnapshotAccepted(runDir, problem.value, read, o)
  {
    for i := 0 to |snapshots|
      invariant forall k :: 0 <= k < i ==> SnapshotAccepted(runDir, snapshots[k], read, o)
    {
      assert snapshots[i] in snapshots;
      var target := Paths.InputSnapshotPath(runDir, snapshots[i].snapshotPath);
      if target.Err? {
        return Some(snapshots[i]);
      }
      var contents := read(target.value);
      if contents.None? || o.digest(contents.value) != snapshots[i].digest {
        return Some(snapshots[i]);
      }
    }
    problem := None;
  }

  // ----- gathering -----

  /** A bundle path and the file whose contents go there. */
  datatype Plan = Plan(path: string, source: string)

  /** path.Base of a clean path. */
  function Base(p: string): string {
    if p == "/" then "/" else var parts := Split(p, '/'); parts[|parts| - 1]
  }

  function SnapshotPlan(runDir: string, s: Snapshot): Plan {
    Plan(Paths.SlashJoin("input-snapshots", Drop(Paths.SlashClean(s.snapshotPath), "input-snapshots/")),
         Paths.JoinPath(runDir, s.snapshotPath))
  }

  function ArtifactPlan(workspaceDir: string, a: ArtifactRef): Plan {
    Plan(Paths.SlashJoin("artifacts", Paths.SlashClean(a.path)), Paths.JoinPath(workspaceDir, Paths.SlashClean(a.path)))
  }

  function RevocationPlan(p: string): Plan {
    Plan(Paths.SlashJoin("revocations", Base(Paths.SlashClean(p))), p)
  }

  function FixedPlans(r: Request, n: Names): seq<Plan> {
    [Plan(n.contract, r.contractPath), Plan(n.ledger, r.ledgerPath), Plan(n.evidence, r.evidencePath)]
  }

  function SnapshotPlans(r: Request, l: Listing): seq<Plan> {
    seq(|l.snapshots|, i requires 0 <= i < |l.snapshots| => SnapshotPlan(r.runDir, l.snapshots[i]))
  }

  function ArtifactPlans(r: Request, l: Listing): seq<Plan> {
    seq(|l.artifacts|, i requires 0 <= i < |l.artifacts| => ArtifactPlan(r.workspaceDir, l.artifacts[i]))
  }

  function RevocationPlans(r: Request): seq<Plan> {
    seq(|r.revocations|, i requires 0 <= i < |r.revocations| => RevocationPlan(r.revocations[i]))
  }

  function Plans(r: Request, l: Listing, n: Names): seq<Plan> {
    FixedPlans(r, n) + SnapshotPlans(r, l) + ArtifactPlans(r, l) + RevocationPlans(r)
  }

  function NewBundleFile(p: Plan, read: Reader): Option<BundleFile> {
    match Paths.ValidateBundlePath(p.path)
    case Err(_) => None
    case Ok(normalized) =>
      match read(p.source)
      case None => None
      case Some(contents) => Some(BundleFile(normalized, contents))
  }

  /** All planned files, or nothing when one of them cannot be had. */
  function Load(plans: seq<Plan>, read: Reader): Option<seq<BundleFile>> {
    if plans == [] then Some([])
    else
      var n := |plans| - 1;
      match Load(plans[..n], read)
      case None => None
      case Some(files) =>
        match NewBundleFile(plans[n], read)
        case None => None
        case Some(file) => Some(files + [file])
  }

  method LoadFiles(plans: seq<Plan>, read: Reader) returns (files: Option<seq<BundleFile>>)
    ensures files == Load(plans, read)
    ensures files.None? ==> exists plan :: plan in plans && NewBundleFile(plan, read).None?
  {
    var loaded: seq<BundleFile> := [];
    for i := 0 to |plans|
      invariant Load(plans[..i], read) == Some(loaded)
    {
      assert plans[..i + 1][..i] == plans[..i];
      var file := NewBundleFile(plans[i], read);
      if file.None? {
        LoadStops(plans, read, i);
        assert plans[i] in plans;
        return None;
      }
      loaded := loaded + [file.value];
    }
    assert plans[..|plans|] == plans;
    files := Some(loaded);
  }

  lemma {:induction false} LoadStops(plans: seq<Plan>, read: Reader, i: nat)
    requires i < |plans| && NewBundleFile(plans[i], read).None?
    ensures Load(plans, read).None?
    decreases |plans|
  {
    if i < |plans| - 1 {
      LoadStops(plans[..|plans| - 1], read, i);
    }
  }

  // ----- entries and checksums -----

  function EntryFor(f: BundleFile, o: Outside): Entry {
    Entry(f.path, o.digest(f.contents), |f.contents|)
  }

  function Entries(files: seq<BundleFile>, o: Outside): seq<Entry> {
    seq(|files|, i requires 0 <= i < |files| => EntryFor(files[i], o))
  }

  predicate DistinctPaths(files: seq<BundleFile>) {
    forall i, j :: 0 <= i < j < |files| ==> files[i].path != files[j].path
  }

  method EntriesForFiles(files: seq<BundleFile>, o: Outside) returns (entries: Option<seq<Entry>>)
    ensures entries == if DistinctPaths(files) then Some(Entries(files, o)) else None
  {
    var seen: set<string> := {};
    var list: seq<Entry> := [];
    for i := 0 to |files|
      invariant list == Entries(files[..i], o)
      invariant seen == set k | 0 <= k < i :: files[k].path
      invariant forall k, m :: 0 <= k < m < i ==> files[k].path != files[m].path
    {
      if files[i].path in seen {
        return None;
      }
      seen := seen + {files[i].path};
      list := list + [EntryFor(files[i], o)];
      assert files[..i + 1] == files[..i] + [files[i]];
    }
    assert files[..|files|] == files;
    entries := Some(list);
  }

  function SumLines(entries: seq<Entry>): seq<string> {
    seq(|entries|, i requires 0 <= i < |entries| => Checksums.Line(entries[i].sha256, entries[i].path))
  }

  method ChecksumsForEntries(entries: seq<Entry>) returns (text: string)
    ensures text == Checksums.SumText(SumLines(entries))
  {
    text := "";
    for i := 0 to |entries|
      invariant text == Checksums.SumText(SumLines(entries)[..i])
    {
      assert SumLines(entries)[..i + 1][..i] == SumLines(entries)[..i];
      text := text + Checksums.Line(entries[i].sha256, entries[i].path) + "\n";
    }
    assert SumLines(entries)[..|entries|] == SumLines(entries);
  }

  /** The gathered files with the manifest and, when asked for, its signature. */
  function Signed(files: seq<BundleFile>, o: Outside, signed: bool): seq<BundleFile> {
    var manifest := o.manifest(Entries(files, o));
    files + [BundleFile(o.names.manifest, manifest)] + if signed then [BundleFile(o.names.signature, o.sign(manifest))] else []
  }

  /** The whole archive: its last file sums up all the others. */
  function Archive(files: seq<BundleFile>, o: Outside, signed: bool): seq<BundleFile> {
    var all := Signed(files, o, signed);
    all + [BundleFile(o.names.sums, Checksums.SumText(SumLines(Entries(all, o))))]
  }

  // ----- export -----

  predicate Blank(s: string) {
    TrimSpace(s) == ""
  }

  predicate RevocationReadable(p: string, read: Reader, o: Outside) {
    !Blank(p) && read(p).Some? && o.isRevocationList(read(p).value)
  }

  function ListingOf(r: Request, read: Reader, o: Outside): Option<Listing> {
    match read(r.evidencePath) case None => None case Some(text) => o.decode(text)
  }

  /** The run that is to be bundled is present, verified and matches its contract. */
  predicate RunVerified(r: Request, read: Reader, o: Outside) {
    && !Blank(r.contractPath) && !Blank(r.ledgerPath) && !Blank(r.evidencePath) && !Blank(r.outPath)
    && read(r.contractPath).Some? && read(r.ledgerPath).Some? && read(r.evidencePath).Some?
    && ListingOf(r, read, o).Some?
    && var l := ListingOf(r, read, o).value;
       && o.ledgerAccepted(read(r.ledgerPath).value, read(r.evidencePath).value)
       && FilesAccepted(r.runDir, r.workspaceDir, l, read, o)
       && o.contractMatches(read(r.contractPath).value, read(r.evidencePath).value)
  }

  predicate RevocationsReadable(r: Request, read: Reader, o: Outside) {
    forall p :: p in r.revocations ==> RevocationReadable(p, read, o)
  }

  /** What Export insists on before it writes. */
  predicate Exportable(r: Request, read: Reader, o: Outside) {
    && RunVerified(r, read, o) && RevocationsReadable(r, read, o)
    && var files := Load(Plans(r, ListingOf(r, read, o).value, o.names), read);
       files.Some? && DistinctPaths(Signed(files.value, o, r.signed))
  }

  /** The files that an export gathers. */
  function Gathered(r: Request, read: Reader, o: Outside): seq<BundleFile>
    requires Exportable(r, read, o)
  {
    Load(Plans(r, ListingOf(r, read, o).value, o.names), read).value
  }

  datatype ExportProblem =
    | PathMissing
    | RunRejected
    | ContractMismatch
    | SourceUnavailable
    | BadRevocation(path: string)
    | DuplicatePath

  method LoadRevocations(r: Request, read: Reader, o: Outside) returns (bad: Option<string>)
    ensures bad.None? <==> RevocationsReadable(r, read, o)
    ensures bad.Some? ==> bad.value in r.revocations && !RevocationReadable(bad.value, read, o)
  {
    for i := 0 to |r.revocations|
      invariant forall k :: 0 <= k < i ==> RevocationReadable(r.revocations[k], read, o)
    {
      var p := r.revocations[i];
      assert p in r.revocations;
      if Blank(p) {
        return Some(p);
      }
      var contents := read(p);
      if contents.None? || !o.isRevocationList(contents.value) {
        return Some(p);
      }
    }
    bad := None;
  }

  /** Every path that the request must give is given. */
  predicate PathsGiven(r: Request) {
    !Blank(r.contractPath) && !Blank(r.ledgerPath) && !Blank(r.evidencePath) && !Blank(r.outPath)
  }

  predicate SourcesPresent(r: Request, read: Reader) {
    read(r.contractPath).Some? && read(r.ledgerPath).Some? && read(r.evidencePath).Some?
  }

  /** The run as it lies there would be verified. */
  predicate RunAccepted(r: Request, read: Reader, o: Outside)
    requires SourcesPresent(r, read)
  {
    && o.decode(read(r.evidencePath).value).Some?
    && o.ledgerAccepted(read(r.ledgerPath).value, read(r.evidencePath).value)
    && FilesAccepted(r.runDir, r.workspaceDir, o.decode(read(r.evidencePath).value).value, read, o)
  }

  /** The first thing that keeps the run from being bundled. */
  ghost predicate RunProblem(problem: ExportProblem, r: Request, read: Reader, o: Outside) {
    match problem
    case PathMissing => !PathsGiven(r)
    case SourceUnavailable => PathsGiven(r) && !SourcesPresent(r, read)
    case RunRejected => PathsGiven(r) && SourcesPresent(r, read) && !RunAccepted(r, read, o)
    case ContractMismatch =>
      && PathsGiven(r) && SourcesPresent(r, read) && RunAccepted(r, read, o)
      && !o.contractMatches(read(r.contractPath).value, read(r.evidencePath).value)
    case _ => false
  }

  /** The first thing that keeps an export from being written. */
  ghost predicate ExportFails(problem: ExportProblem, r: Request, read: Reader, o: Outside) {
    if !RunVerified(r, read, o) then RunProblem(problem, r, read, o)
    else match problem
      case BadRevocation(p) => p in r.revocations && !RevocationReadable(p, read, o)
      case SourceUnavailable =>
        RevocationsReadable(r, read, o) && exists plan :: plan in Plans(r, ListingOf(r, read, o).value, o.names) && NewBundleFile(plan, read).None?
      case DuplicatePath =>
        && RevocationsReadable(r, read, o) && Load(Plans(r, ListingOf(r, read, o).value, o.names), read).Some?
        && !DistinctPaths(Signed(Load(Plans(r, ListingOf(r, read, o).value, o.names), read).value, o, r.signed))
      case _ => false
  }

  method CheckRun(r: Request, read: Reader, o: Outside) returns (listing: Result<Listing, ExportProblem>)
    ensures listing.Ok? <==> RunVerified(r, read, o)
    ensures listing.Err? ==> RunProblem(listing.error, r, read, o)
    ensures listing.Ok? ==> ListingOf(r, read, o) == Some(listing.value)
  {
    if Blank(r.contractPath) || Blank(r.ledgerPath) || Blank(r.evidencePath) || Blank(r.outPath) {
      return Err(PathMissing);
    }
    var contract, ledger, evidence := read(r.contractPath), read(r.ledgerPath), read(r.evidencePath);
    if contract.None? || ledger.None? || evidence.None? {
      return Err(SourceUnavailable);
    }
    var decoded := o.decode(evidence.value);
    if decoded.None? || !o.ledgerAccepted(ledger.value, evidence.value) {
      return Err(RunRejected);
    }
    var badSnapshot := VerifyInputSnapshots(r.runDir, decoded.value.snapshots, read, o);
    if badSnapshot.Some? {
      return Err(RunRejected);
    }
    var badArtifact := VerifyArtifacts(r.workspaceDir, decoded.value.artifacts, read, o);
    if badArtifact.Some? {
      return Err(RunRejected);
    }
    if !o.contractMatches(contract.value, evidence.value) {
      return Err(ContractMismatch);
    }
    listing := Ok(decoded.value);
  }

  method Export(r: Request, read: Reader, o: Outside) returns (archive: Result<seq<BundleFile>, ExportProblem>)
    ensures archive.Ok? <==> Exportable(r, read, o)
    ensures archive.Ok? ==> archive.value == Archive(Gathered(r, read, o), o, r.signed)
    ensures archive.Err? ==> ExportFails(archive.error, r, read, o)
  {
    var listing := CheckRun(r, read, o);
    if listing.Err? {
      return Err(listing.error);
    }
    var bad := LoadRevocations(r, read, o);
    if bad.Some? {
      return Err(BadRevocation(bad.value));
    }
    var loaded := LoadFiles(Plans(r, listing.value, o.names), read);
    if loaded.None? {
      return Err(SourceUnavailable);
    }
    archive := Assemble(loaded.value, o, r.signed);
  }

  method Assemble(files: seq<BundleFile>, o: Outside, signed: bool) returns (archive: Result<seq<BundleFile>, ExportProblem>)
    ensures archive == if DistinctPaths(Signed(files, o, signed)) then Ok(Archive(files, o, signed)) else Err(DuplicatePath)
  {
    var entries := EntriesForFiles(files, o);
    if entries.None? {
      PrefixDistinct(files, Signed(files, o, signed));
      return Err(DuplicatePath);
    }
    var manifest := o.manifest(entries.value);
    var all := files + [BundleFile(o.names.manifest, manifest)];
    if signed {
      all := all + [BundleFile(o.names.signature, o.sign(manifest))];
    }
    assert all == Signed(files, o, signed);
    entries := EntriesForFiles(all, o);
    if entries.None? {
      return Err(DuplicatePath);
    }
    var text := ChecksumsForEntries(entries.value);
    archive := Ok(all + [BundleFile(o.names.sums, text)]);
  }

  lemma {:induction false} PrefixDistinct(files: seq<BundleFile>, all: seq<BundleFile>)
    requires files <= all
    ensures DistinctPaths(all) ==> DistinctPaths(files)
  {
    assert forall i :: 0 <= i < |files| ==> files[i] == all[i];
  }

  // ----- verification -----

  /** The archive as a map, when every name is acceptable and new. */
  function ReadZip(archive: seq<BundleFile>): Option<map<string, string>> {
    if archive == [] then Some(map[])
    else
      var n := |archive| - 1;
      match ReadZip(archive[..n])
      case None => None
      case Some(entries) =>
        match Paths.ValidateBundlePath(archive[n].path)
        case Err(_) => None
        case Ok(name) => if name in entries then None else Some(entries[name := archive[n].contents])
  }

  method ReadZipEntries(archive: seq<BundleFile>) returns (entries: Option<map<string, string>>)
    ensures entries == ReadZip(archive)
  {
    var found: map<string, string> := map[];
    for i := 0 to |archive|
      invariant ReadZip(archive[..i]) == Some(found)
    {
      assert archive[..i + 1][..i] == archive[..i];
      var name := Paths.ValidateBundlePath(archive[i].path);
      if name.Err? || name.value in found {
        ReadZipStops(archive, i + 1);
        return None;
      }
      found := found[name.value := archive[i].contents];
    }
    assert archive[..|archive|] == archive;
    entries := Some(found);
  }

  lemma {:induction false} ReadZipStops(archive: seq<BundleFile>, i: nat)
    requires i <= |archive| && ReadZip(archive[..i]).None?
    ensures ReadZip(archive).None?
    decreases |archive|
  {
    if i == |archive| {
      assert archive[..i] == archive;
    } else {
      assert archive[..|archive| - 1][..i] == archive[..i];
      ReadZipStops(archive[..|archive| - 1], i);
    }
  }

  predicate HasRequired(entries: map<string, string>, n: Names) {
    n.contract in entries && n.ledger in entries && n.evidence in entries && n.manifest in entries && n.sums in entries
  }

  predicate LineAccepted(line: string, entries: map<string, string>, o: Outside) {
    match Checksums.Cut(line)
    case None => false
    case Some((digest, path)) =>
      var name := Paths.ValidateBundlePath(path);
      name.Ok? && name.value in entries && o.digest(entries[name.value]) == digest
  }

  predicate ChecksumsAccepted(entries: map<string, string>, o: Outside)
    requires o.names.sums in entries
  {
    var lines := Split(TrimSpace(entries[o.names.sums]), '\n');
    !Blank(lines[0]) && forall i :: 0 <= i < |lines| ==> LineAccepted(lines[i], entries, o)
  }

  /** The text is blank, or this is a line of it that is not accepted. */
  predicate BadSumLine(line: string, entries: map<string, string>, o: Outside)
    requires o.names.sums in entries
  {
    var lines := Split(TrimSpace(entries[o.names.sums]), '\n');
    if Blank(lines[0]) then line == "" else line in lines && !LineAccepted(line, entries, o)
  }

  method VerifyBundleChecksums(entries: map<string, string>, o: Outside) returns (bad: Option<string>)
    requires o.names.sums in entries
    ensures bad.None? <==> ChecksumsAccepted(entries, o)
    ensures bad.Some? ==> BadSumLine(bad.value, entries, o)
  {
    var lines := Split(TrimSpace(entries[o.names.sums]), '\n');
    if Blank(lines[0]) {
      return Some("");
    }
    for i := 0 to |lines|
      invariant forall k :: 0 <= k < i ==> LineAccepted(lines[k], entries, o)
    {
      var parts := Checksums.Cut(lines[i]);
      if parts.None? {
        return Some(lines[i]);
      }
      var name := Paths.ValidateBundlePath(parts.value.1);
      if name.Err? {
        return Some(lines[i]);
      }
      if name.value !in entries {
        return Some(lines[i]);
      }
      if o.digest(entries[name.value]) != parts.value.0 {
        return Some(lines[i]);
      }
    }
    bad := None;
  }

  predicate Extractable(name: string, n: Names) {
    name != n.manifest && name != n.sums
  }

  predicate PlacedAt(tmpDir: string, entries: map<string, string>, n: Names, name: string, target: string) {
    name in entries && Extractable(name, n) && Paths.JoinPath(tmpDir, name) == target
  }

  /** Where each entry lands under the extraction directory; no two land on one file. */
  ghost predicate CleanExtraction(tmpDir: string, entries: map<string, string>, n: Names) {
    forall a, b, t :: PlacedAt(tmpDir, entries, n, a, t) && PlacedAt(tmpDir, entries, n, b, t) ==> a == b
  }

  ghost predicate IsExtraction(files: map<string, string>, tmpDir: string, entries: map<string, string>, n: Names) {
    && (forall name, target :: PlacedAt(tmpDir, entries, n, name, target) ==>
          target in files && files[target] == entries[name])
    && (forall target :: target in files ==> exists name :: PlacedAt(tmpDir, entries, n, name, target))
  }

  /** An entry that is to be extracted under this name as its folder. */
  predicate IsFolder(entries: map<string, string>, n: Names, name: string) {
    exists other :: other in entries && Extractable(other, n) && HasPrefix(other, name + "/")
  }

  /** Some entry is both a file and the folder of another, which no file system allows. */
  predicate FolderIsFile(entries: map<string, string>, n: Names) {
    exists name :: name in entries && Extractable(name, n) && IsFolder(entries, n, name)
  }

  method Extract(tmpDir: string, entries: map<string, string>, n: Names) returns (files: Option<map<string, string>>)
    requires CleanExtraction(tmpDir, entries, n)
    ensures files.None? <==> FolderIsFile(entries, n)
    ensures files.Some? ==> IsExtraction(files.value, tmpDir, entries, n)
  {
    var written: map<string, string> := map[];
    var left := entries.Keys;
    while left != {}
      invariant left <= entries.Keys
      invariant forall name :: name in entries && name !in left && Extractable(name, n) ==> !IsFolder(entries, n, name)
      invariant forall name, target :: PlacedAt(tmpDir, entries, n, name, target) && name !in left ==>
                  target in written && written[target] == entries[name]
      invariant forall target :: target in written ==> exists name :: PlacedAt(tmpDir, entries, n, name, target)
      decreases |left|
    {
      var name :| name in left;
      left := left - {name};
      if name == n.manifest || name == n.sums {
        continue;
      }
      if IsFolder(entries, n, name) {
        return None;
      }
      var target := Paths.JoinPath(tmpDir, name);
      assert PlacedAt(tmpDir, entries, n, name, target);
      written := written[target := entries[name]];
    }
    files := Some(written);
  }

  function Lookup(files: map<string, string>): Reader {
    (p: string) => if p in files then Some(files[p]) else None
  }
}
