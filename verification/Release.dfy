/** Release directories: the checksum file, and the verification report over manifest, files and checksums. */
module Release {
  import opened Text
  import Checksums
  import Paths

  datatype Target = Target(os: string, arch: string)

  /** A manifested file: a supplemental artifact or an attestation. */
  datatype Item = Item(kind: string, name: string, path: string, sha256: string, sizeBytes: nat)

  datatype Artifact = Artifact(
    name: string,
    target: Target,
    path: string,
    sha256: string,
    sizeBytes: nat,
    attestations: seq<Item>)

  datatype Manifest = Manifest(
    version: string,
    commit: string,
    date: string,
    artifacts: seq<Artifact>,
    supplementals: seq<Item>)

  /** The files of a release directory by their relative paths. */
  type Directory = map<string, string>

  datatype Names = Names(manifest: string, sums: string, signature: string)

  const STANDARD: Names := Names("manifest.json", "SHA256SUMS", "release-signature.json")

  /** Hashing, JSON, the signature check over the manifest text and the build metadata of a binary. */
  datatype Outside = Outside(
    names: Names,
    digest: string -> string,
    encode: Manifest -> string,
    decode: string -> Option<Manifest>,
    sign: string -> string,
    signatureOk: (string, Option<string>) -> bool,
    metadataProblems: (Manifest, Artifact, string) -> nat)

  // ----- the checksum file -----

  /** One line: nothing, a digest and a path, or an error. */
  datatype ParsedLine = BlankLine | Entry(digest: string, path: string) | BadLine

  function ParseLine(raw: string): ParsedLine {
    var line := TrimSpace(raw);
    if line == "" then BlankLine
    else
      var fields := Checksums.Fields(line);
      if |fields| != 2 || |fields[0]| != 64 then BadLine else Entry(fields[0], fields[1])
  }

  function ParseLines(lines: seq<string>): Option<map<string, string>> {
    if lines == [] then Some(map[])
    else
      var n := |lines| - 1;
      match ParseLines(lines[..n])
      case None => None
      case Some(found) =>
        match ParseLine(lines[n])
        case BlankLine => Some(found)
        case Entry(digest, path) => Some(found[path := digest])
        case BadLine => None
  }

  method ReadChecksums(text: string) returns (checksums: Option<map<string, string>>)
    ensures checksums == ParseLines(Split(TrimSpace(text), '\n'))
  {
    var lines := Split(TrimSpace(text), '\n');
    var found: map<string, string> := map[];
    for i := 0 to |lines|
      invariant ParseLines(lines[..i]) == Some(found)
    {
      assert lines[..i + 1][..i] == lines[..i];
      match ParseLine(lines[i]) {
        case BlankLine =>
        case Entry(digest, path) => found := found[path := digest];
        case BadLine =>
          ParseStops(lines, i + 1);
          return None;
      }
    }
    assert lines[..|lines|] == lines;
    checksums := Some(found);
  }

  lemma {:induction false} ParseStops(lines: seq<string>, i: nat)
    requires i <= |lines| && ParseLines(lines[..i]).None?
    ensures ParseLines(lines).None?
    decreases |lines|
  {
    if i == |lines| {
      assert lines[..i] == lines;
    } else {
      assert lines[..|lines| - 1][..i] == lines[..i];
      ParseStops(lines[..|lines| - 1], i);
    }
  }

  // ----- the problems of a file -----

  datatype ProblemKind =
    | InvalidPath
    | EscapingPath
    | DuplicateName
    | ReadFailed
    | DigestMismatch
    | SizeMismatch
    | MissingChecksum
    | ChecksumMismatch
    | MetadataMismatch
    | Unmanifested
    | BadSignature

  datatype Problem = Problem(kind: ProblemKind, name: string)

  function When(condition: bool, kind: ProblemKind, name: string): seq<Problem> {
    if condition then [Problem(kind, name)] else []
  }

  function PathProblem(path: string): Option<ProblemKind> {
    if TrimSpace(path) == "" || Paths.IsAbs(path) then Some(InvalidPath)
    else
      var clean := Paths.Clean(path);
      if clean == "." || clean == ".." || HasPrefix(clean, "../") then Some(EscapingPath) else None
  }

  /** The listed digest of a file: under its path, else under its name. */
  function Listed(checksums: map<string, string>, path: string, name: string): Option<string> {
    if path in checksums then Some(checksums[path]) else if name in checksums then Some(checksums[name]) else None
  }

  function ChecksumProblems(checksums: map<string, string>, name: string, path: string, sha256: string): seq<Problem> {
    match Listed(checksums, path, name)
    case None => [Problem(MissingChecksum, name)]
    case Some(digest) => When(digest != sha256, ChecksumMismatch, name)
  }

  function ContentProblems(
    contents: string, checksums: map<string, string>, name: string, path: string, sha256: string, size: nat, o: Outside): seq<Problem>
  {
    When(o.digest(contents) != sha256, DigestMismatch, name)
    + When(|contents| != size, SizeMismatch, name)
    + ChecksumProblems(checksums, name, path, sha256)
  }

  function ItemProblems(item: Item, dir: Directory, checksums: map<string, string>, o: Outside): seq<Problem> {
    match PathProblem(item.path)
    case Some(kind) => [Problem(kind, item.name)]
    case None =>
      var clean := Paths.Clean(item.path);
      if clean !in dir then [Problem(ReadFailed, item.name)]
      else ContentProblems(dir[clean], checksums, item.name, item.path, item.sha256, item.sizeBytes, o)
  }

  function Repeat(n: nat, p: Problem): seq<Problem> {
    seq(n, i => p)
  }

  /** Whether verification gets as far as the artifact's contents, and so to its attestations. */
  predicate Readable(a: Artifact, dir: Directory) {
    PathProblem(a.path).None? && Paths.Clean(a.path) in dir
  }

  function ReadableProblems(a: Artifact, m: Manifest, contents: string, checksums: map<string, string>, o: Outside): seq<Problem> {
    ContentProblems(contents, checksums, a.name, a.path, a.sha256, a.sizeBytes, o)
    + Repeat(o.metadataProblems(m, a, contents), Problem(MetadataMismatch, a.name))
  }

  function ArtifactProblems(
    a: Artifact, seen: set<string>, m: Manifest, dir: Directory, checksums: map<string, string>, o: Outside): seq<Problem>
  {
    match PathProblem(a.path)
    case Some(kind) => [Problem(kind, a.name)]
    case None =>
      var clean := Paths.Clean(a.path);
      When(a.name in seen, DuplicateName, a.name)
      + if clean !in dir then [Problem(ReadFailed, a.name)]
        else ReadableProblems(a, m, dir[clean], checksums, o)
  }

  function ListProblems(items: seq<Item>, dir: Directory, checksums: map<string, string>, o: Outside): seq<Problem> {
    if items == [] then []
    else ListProblems(items[..|items| - 1], dir, checksums, o) + ItemProblems(items[|items| - 1], dir, checksums, o)
  }

  // ----- the report -----

  datatype ItemReport = ItemReport(item: Item, verified: bool, problems: seq<Problem>)

  datatype ArtifactReport = ArtifactReport(
    artifact: Artifact,
    verified: bool,
    problems: seq<Problem>,
    attestations: seq<ItemReport>)

  /** A file's report is verified exactly when it lists no problem. */
  predicate ItemCoherent(r: ItemReport) {
    r.verified <==> r.problems == []
  }

  predicate AllCoherent(rs: seq<ItemReport>) {
    forall i :: 0 <= i < |rs| ==> ItemCoherent(rs[i])
  }

  predicate AllVerified(rs: seq<ItemReport>) {
    forall i :: 0 <= i < |rs| ==> rs[i].verified
  }

  /** An artifact is verified exactly when its own problems are empty and all its attestations are verified. */
  predicate ArtifactCoherent(r: ArtifactReport) {
    AllCoherent(r.attestations) && (r.verified <==> r.problems == [] && AllVerified(r.attestations))
  }

  function ItemsOf(rs: seq<ItemReport>): (items: seq<Item>)
    ensures |items| == |rs|
  {
    seq(|rs|, i requires 0 <= i < |rs| => rs[i].item)
  }

  /** The report of an item is its problems, and a verdict by them. */
  function ItemReportFor(item: Item, dir: Directory, checksums: map<string, string>, o: Outside): ItemReport {
    var problems := ItemProblems(item, dir, checksums, o);
    ItemReport(item, problems == [], problems)
  }

  /** One report per item, in order. */
  predicate ItemsTold(rs: seq<ItemReport>, items: seq<Item>, dir: Directory, checksums: map<string, string>, o: Outside) {
    |rs| == |items| && forall i :: 0 <= i < |rs| ==> rs[i] == ItemReportFor(items[i], dir, checksums, o)
  }

  /** The report of an artifact is its own problems, and, when its file can be read, one report per attestation. */
  predicate ArtifactTold(
    r: ArtifactReport, a: Artifact, seen: set<string>, m: Manifest, dir: Directory, checksums: map<string, string>, o: Outside)
  {
    && r.artifact == a && r.problems == ArtifactProblems(a, seen, m, dir, checksums, o)
    && ItemsTold(r.attestations, if Readable(a, dir) then a.attestations else [], dir, checksums, o)
  }

  lemma {:induction false} ReportSnoc(rs: seq<ItemReport>, r: ItemReport)
    ensures AllCoherent(rs + [r]) <==> AllCoherent(rs) && ItemCoherent(r)
    ensures AllVerified(rs + [r]) <==> AllVerified(rs) && r.verified
    ensures ItemsOf(rs + [r]) == ItemsOf(rs) + [r.item]
  {
    var more := rs + [r];
    assert more[|rs|] == r;
    assert forall i :: 0 <= i < |rs| ==> more[i] == rs[i];
  }

  lemma {:induction false} NoItems(items: seq<Item>, dir: Directory, checksums: map<string, string>, o: Outside)
    ensures ListProblems(items[..0], dir, checksums, o) == [] && AllCoherent([]) && AllVerified([]) && ItemsOf([]) == items[..0]
    ensures ItemsTold([], items[..0], dir, checksums, o)
  {
  }

  lemma {:induction false} OneMoreItem(
    rs: seq<ItemReport>, items: seq<Item>, i: nat, r: ItemReport, dir: Directory, checksums: map<string, string>, o: Outside)
    requires i < |items| && ItemsTold(rs, items[..i], dir, checksums, o)
    requires r.item == items[i] && r.problems == ItemProblems(items[i], dir, checksums, o) && ItemCoherent(r)
    ensures ItemsTold(rs + [r], items[..i + 1], dir, checksums, o)
    ensures ListProblems(items[..i + 1], dir, checksums, o)
         == ListProblems(items[..i], dir, checksums, o) + ItemProblems(items[i], dir, checksums, o)
  {
    hide ItemProblems;
    assert items[..i + 1][..i] == items[..i];
    assert r == ItemReportFor(items[i], dir, checksums, o);
  }

  lemma {:induction false} Regroup(a: seq<Problem>, b: seq<Problem>, c: seq<Problem>)
    ensures (a + b) + c == a + (b + c)
    ensures b + c == [] <==> b == [] && c == []
  {
    assert |b + c| == |b| + |c|;
  }

  lemma {:induction false} RegroupThree(a: seq<Problem>, b: seq<Problem>, c: seq<Problem>, d: seq<Problem>)
    ensures ((a + b) + c) + d == a + ((b + c) + d)
  {
  }

  /** The report under construction: one bit and the list of all problems so far. */
  class Report {
    var verified: bool
    var problems: seq<Problem>

    predicate Valid()
      reads this
    {
      verified <==> problems == []
    }

    constructor ()
      ensures Valid() && problems == []
    {
      verified, problems := true, [];
    }

    method Add(p: Problem)
      requires Valid()
      modifies this
      ensures Valid() && problems == old(problems) + [p]
    {
      verified := false;
      problems := problems + [p];
    }

    method AddWhen(condition: bool, kind: ProblemKind, name: string, own: seq<Problem>) returns (r: seq<Problem>)
      requires Valid()
      modifies this
      ensures Valid() && problems == old(problems) + When(condition, kind, name)
      ensures r == own + When(condition, kind, name)
    {
      r := own;
      if condition {
        Add(Problem(kind, name));
        r := own + [Problem(kind, name)];
      }
    }

    /** Digest, size and checksum entry of a file that could be read. */
    method CheckContents(
      contents: string, checksums: map<string, string>, name: string, path: string, sha256: string, size: nat, o: Outside,
      own0: seq<Problem>)
      returns (own: seq<Problem>)
      requires Valid()
      modifies this
      ensures Valid()
      ensures problems == old(problems) + ContentProblems(contents, checksums, name, path, sha256, size, o)
      ensures own == own0 + ContentProblems(contents, checksums, name, path, sha256, size, o)
    {
      ghost var digest, length := When(o.digest(contents) != sha256, DigestMismatch, name), When(|contents| != size, SizeMismatch, name);
      RegroupThree(problems, digest, length, ChecksumProblems(checksums, name, path, sha256));
      RegroupThree(own0, digest, length, ChecksumProblems(checksums, name, path, sha256));
      own := AddWhen(o.digest(contents) != sha256, DigestMismatch, name, own0);
      own := AddWhen(|contents| != size, SizeMismatch, name, own);
      var listed: Option<string> := None;
      if path in checksums {
        listed := Some(checksums[path]);
      } else if name in checksums {
        listed := Some(checksums[name]);
      }
      if listed.None? {
        own := AddWhen(true, MissingChecksum, name, own);
      } else {
        own := AddWhen(listed.value != sha256, ChecksumMismatch, name, own);
      }
    }

    /** verifyAttestation and verifySupplementalArtifact, which do the same. */
    method VerifyItem(item: Item, dir: Directory, checksums: map<string, string>, o: Outside) returns (r: ItemReport)
      requires Valid()
      modifies this
      ensures Valid() && problems == old(problems) + r.problems
      ensures r.item == item && r.problems == ItemProblems(item, dir, checksums, o) && ItemCoherent(r)
    {
      var bad := PathProblem(item.path);
      if bad.Some? {
        Add(Problem(bad.value, item.name));
        return ItemReport(item, false, [Problem(bad.value, item.name)]);
      }
      var clean := Paths.Clean(item.path);
      if clean !in dir {
        Add(Problem(ReadFailed, item.name));
        return ItemReport(item, false, [Problem(ReadFailed, item.name)]);
      }
      var own := CheckContents(dir[clean], checksums, item.name, item.path, item.sha256, item.sizeBytes, o, []);
      r := ItemReport(item, own == [], own);
    }

    method VerifyItems(items: seq<Item>, dir: Directory, checksums: map<string, string>, o: Outside)
      returns (rs: seq<ItemReport>)
      requires Valid()
      modifies this
      ensures Valid() && problems == old(problems) + ListProblems(items, dir, checksums, o)
      ensures ItemsOf(rs) == items && AllCoherent(rs) && ItemsTold(rs, items, dir, checksums, o)
      ensures AllVerified(rs) <==> ListProblems(items, dir, checksums, o) == []
    {
      rs := [];
      NoItems(items, dir, checksums, o);
      hide ItemProblems, ListProblems, AllCoherent, AllVerified, ItemsOf, ItemsTold;
      for i := 0 to |items|
        invariant Valid() && problems == old(problems) + ListProblems(items[..i], dir, checksums, o)
        invariant ItemsOf(rs) == items[..i] && AllCoherent(rs) && ItemsTold(rs, items[..i], dir, checksums, o)
        invariant AllVerified(rs) <==> ListProblems(items[..i], dir, checksums, o) == []
      {
        Regroup(old(problems), ListProblems(items[..i], dir, checksums, o), ItemProblems(items[i], dir, checksums, o));
        var r := VerifyItem(items[i], dir, checksums, o);
        ReportSnoc(rs, r);
        OneMoreItem(rs, items, i, r, dir, checksums, o);
        assert items[..i + 1] == items[..i] + [items[i]];
        rs := rs + [r];
      }
      assert items[..|items|] == items;
    }

    method VerifyArtifact(
      a: Artifact, seen: set<string>, m: Manifest, dir: Directory, checksums: map<string, string>, o: Outside)
      returns (r: ArtifactReport)
      requires Valid()
      modifies this
      ensures Valid() && r.artifact == a && ArtifactCoherent(r) && ArtifactTold(r, a, seen, m, dir, checksums, o)
      ensures r.problems == ArtifactProblems(a, seen, m, dir, checksums, o)
      ensures problems == old(problems) + r.problems +
              if Readable(a, dir) then ListProblems(a.attestations, dir, checksums, o) else []
      ensures if Readable(a, dir) then |r.attestations| == |a.attestations| else r.attestations == []
      ensures Readable(a, dir) ==>
                (r.verified <==> r.problems == [] && ListProblems(a.attestations, dir, checksums, o) == [])
      ensures !Readable(a, dir) ==> !r.verified && r.problems != []
    {
      var bad := PathProblem(a.path);
      if bad.Some? {
        Add(Problem(bad.value, a.name));
        return ArtifactReport(a, false, [Problem(bad.value, a.name)], []);
      }
      var own := AddWhen(a.name in seen, DuplicateName, a.name, []);
      ghost var duplicate := When(a.name in seen, DuplicateName, a.name);
      assert [] + duplicate == duplicate;
      var clean := Paths.Clean(a.path);
      if clean !in dir {
        Regroup(old(problems), duplicate, [Problem(ReadFailed, a.name)]);
        own := AddWhen(true, ReadFailed, a.name, own);
        return ArtifactReport(a, false, own, []);
      }
      own := CheckReadable(a, m, dir[clean], checksums, o, own);
      Regroup(old(problems), duplicate, ReadableProblems(a, m, dir[clean], checksums, o));
      var attestations := VerifyItems(a.attestations, dir, checksums, o);
      r := ArtifactReport(a, own == [] && AllVerified(attestations), own, attestations);
    }

    method CheckReadable(
      a: Artifact, m: Manifest, contents: string, checksums: map<string, string>, o: Outside, own0: seq<Problem>)
      returns (own: seq<Problem>)
      requires Valid()
      modifies this
      ensures Valid()
      ensures problems == old(problems) + ReadableProblems(a, m, contents, checksums, o)
      ensures own == own0 + ReadableProblems(a, m, contents, checksums, o)
    {
      ghost var content := ContentProblems(contents, checksums, a.name, a.path, a.sha256, a.sizeBytes, o);
      ghost var metadata := Repeat(o.metadataProblems(m, a, contents), Problem(MetadataMismatch, a.name));
      Regroup(problems, content, metadata);
      Regroup(own0, content, metadata);
      own := CheckContents(contents, checksums, a.name, a.path, a.sha256, a.sizeBytes, o, own0);
      own := CheckMetadata(a, m, contents, o, own);
    }

    method CheckMetadata(a: Artifact, m: Manifest, contents: string, o: Outside, own0: seq<Problem>)
      returns (own: seq<Problem>)
      requires Valid()
      modifies this
      ensures Valid()
      ensures problems == old(problems) + Repeat(o.metadataProblems(m, a, contents), Problem(MetadataMismatch, a.name))
      ensures own == own0 + Repeat(o.metadataProblems(m, a, contents), Problem(MetadataMismatch, a.name))
    {
      var p := Problem(MetadataMismatch, a.name);
      own := own0;
      for i := 0 to o.metadataProblems(m, a, contents)
        invariant Valid() && problems == old(problems) + Repeat(i, p) && own == own0 + Repeat(i, p)
      {
        Add(p);
        own := own + [p];
        assert Repeat(i + 1, p) == Repeat(i, p) + [p];
      }
    }
  }
}
