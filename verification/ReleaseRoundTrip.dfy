/** What Package writes, Verify finds nothing wrong with. */
module ReleaseRoundTrip {
  import opened Text
  import opened Release
  import opened ReleaseVerify
  import opened ReleasePlan
  import opened ReleasePackage
  import Checksums
  import Paths

  // ----- the text of the checksum file -----

  /** A line for each file: its digest, two spaces and its path. */
  function ItemRows(items: seq<Item>): string {
    if items == [] then "" else items[0].sha256 + "  " + items[0].path + "\n" + ItemRows(items[1..])
  }

  /** The line of each artifact, followed by those of its attestations. */
  function ArtifactRows(artifacts: seq<Artifact>): string {
    if artifacts == [] then ""
    else
      var a := artifacts[0];
      a.sha256 + "  " + a.name + "\n" + ItemRows(a.attestations) + ArtifactRows(artifacts[1..])
  }

  lemma {:induction false} SumTextConcat(a: seq<string>, b: seq<string>)
    ensures Checksums.SumText(a + b) == Checksums.SumText(a) + Checksums.SumText(b)
    decreases |b|
  {
    if b == [] {
      assert a + b == a;
    } else {
      var n := |b| - 1;
      assert (a + b)[..|a| + n] == a + b[..n] && (a + b)[|a| + n] == b[n];
      SumTextConcat(a, b[..n]);
    }
  }

  lemma {:induction false} SumTextFirst(line: string, rest: seq<string>)
    ensures Checksums.SumText([line] + rest) == line + "\n" + Checksums.SumText(rest)
  {
    SumTextConcat([line], rest);
    assert [line][..0] == [] && Checksums.SumText([line]) == line + "\n";
  }

  lemma {:induction false} ItemsWritten(items: seq<Item>)
    ensures Checksums.SumText(ItemLines(items)) == ItemRows(items)
  {
    if items != [] {
      ItemsWritten(items[1..]);
      var line := Checksums.Line(items[0].sha256, items[0].path);
      assert ItemLines(items) == [line] + ItemLines(items[1..]);
      hide ItemLines, Checksums.SumText;
      SumTextFirst(line, ItemLines(items[1..]));
    }
  }

  lemma {:induction false} FirstArtifactLines(artifacts: seq<Artifact>)
    requires artifacts != []
    ensures ArtifactsLines(artifacts) == ArtifactLines(artifacts[0]) + ArtifactsLines(artifacts[1..])
  {
    hide ArtifactLines;
    var n := |artifacts| - 1;
    if n == 0 {
      assert artifacts[..0] == [] && artifacts[1..] == [];
      assert [] + ArtifactLines(artifacts[0]) == ArtifactLines(artifacts[0]) + [];
    } else {
      FirstArtifactLines(artifacts[..n]);
      assert artifacts[..n][1..] == artifacts[1..][..n - 1];
      assert ArtifactLines(artifacts[0]) + ArtifactsLines(artifacts[1..][..n - 1]) + ArtifactLines(artifacts[n])
          == ArtifactLines(artifacts[0]) + (ArtifactsLines(artifacts[1..][..n - 1]) + ArtifactLines(artifacts[n]));
    }
  }

  lemma {:induction false} OneArtifactWritten(a: Artifact)
    ensures Checksums.SumText(ArtifactLines(a)) == a.sha256 + "  " + a.name + "\n" + ItemRows(a.attestations)
  {
    ItemsWritten(a.attestations);
    hide ItemLines, Checksums.SumText;
    SumTextFirst(Checksums.Line(a.sha256, a.name), ItemLines(a.attestations));
  }

  lemma {:induction false} ArtifactsWritten(artifacts: seq<Artifact>)
    ensures Checksums.SumText(ArtifactsLines(artifacts)) == ArtifactRows(artifacts)
  {
    if artifacts != [] {
      FirstArtifactLines(artifacts);
      ArtifactsWritten(artifacts[1..]);
      OneArtifactWritten(artifacts[0]);
      hide ArtifactsLines, ArtifactLines, Checksums.SumText;
      SumTextConcat(ArtifactLines(artifacts[0]), ArtifactsLines(artifacts[1..]));
    }
  }

  /** The checksum file lists every artifact, each with its attestations behind it, and then the supplemental files. */
  lemma {:induction false} ChecksumsTell(m: Manifest)
    ensures Checksums.SumText(ManifestLines(m)) == ArtifactRows(m.artifacts) + ItemRows(m.supplementals)
  {
    ArtifactsWritten(m.artifacts);
    ItemsWritten(m.supplementals);
    hide ArtifactsLines, ItemLines, Checksums.SumText;
    SumTextConcat(ArtifactsLines(m.artifacts), ItemLines(m.supplementals));
  }

  // ----- the checksum file reads back -----

  /** One entry of the checksum file. */
  datatype Sum = Sum(digest: string, path: string)

  function ItemSums(items: seq<Item>): (sums: seq<Sum>)
    ensures |sums| == |items|
  {
    seq(|items|, i requires 0 <= i < |items| => Sum(items[i].sha256, items[i].path))
  }

  function ArtifactSums(a: Artifact): seq<Sum> {
    [Sum(a.sha256, a.name)] + ItemSums(a.attestations)
  }

  function ArtifactsSums(artifacts: seq<Artifact>): seq<Sum> {
    if artifacts == [] then []
    else ArtifactsSums(artifacts[..|artifacts| - 1]) + ArtifactSums(artifacts[|artifacts| - 1])
  }

  function ManifestSums(m: Manifest): seq<Sum> {
    ArtifactsSums(m.artifacts) + ItemSums(m.supplementals)
  }

  function LinesOf(sums: seq<Sum>): (lines: seq<string>)
    ensures |lines| == |sums|
  {
    seq(|sums|, i requires 0 <= i < |sums| => Checksums.Line(sums[i].digest, sums[i].path))
  }

  lemma {:induction false} LinesConcat(a: seq<Sum>, b: seq<Sum>)
    ensures LinesOf(a + b) == LinesOf(a) + LinesOf(b)
  {
  }

  lemma {:induction false} ArtifactsLinesAreSums(artifacts: seq<Artifact>)
    ensures ArtifactsLines(artifacts) == LinesOf(ArtifactsSums(artifacts))
  {
    if artifacts != [] {
      var n := |artifacts| - 1;
      ArtifactsLinesAreSums(artifacts[..n]);
      LinesConcat(ArtifactsSums(artifacts[..n]), ArtifactSums(artifacts[n]));
      assert ArtifactLines(artifacts[n]) == LinesOf(ArtifactSums(artifacts[n]));
    }
  }

  lemma {:induction false} ManifestLinesAreSums(m: Manifest)
    ensures ManifestLines(m) == LinesOf(ManifestSums(m))
  {
    ArtifactsLinesAreSums(m.artifacts);
    LinesConcat(ArtifactsSums(m.artifacts), ItemSums(m.supplementals));
    assert ItemLines(m.supplementals) == LinesOf(ItemSums(m.supplementals));
  }

  predicate GoodSum(s: Sum) {
    Checksums.IsHexDigest(s.digest) && Checksums.NoSpaces(s.path) && s.path != ""
  }

  predicate GoodSums(sums: seq<Sum>) {
    forall i :: 0 <= i < |sums| ==> GoodSum(sums[i])
  }

  lemma {:induction false} LineReadsBack(s: Sum)
    requires GoodSum(s)
    ensures var line := Checksums.Line(s.digest, s.path);
            && Checksums.SolidStart(line) && Checksums.SolidEnd(line) && '\n' !in line
            && ParseLine(line) == Entry(s.digest, s.path)
  {
    var line := Checksums.Line(s.digest, s.path);
    Checksums.HexHasNoSpaces(s.digest);
    assert line[0] == s.digest[0] && line[|line| - 1] == s.path[|s.path| - 1];
    Checksums.TrimFinalNewline(line);
    Checksums.FieldsOfLine(s.digest, s.path);
    forall i | 0 <= i < |line| ensures line[i] != '\n' {
      if i < |s.digest| {
        assert line[i] == s.digest[i];
      } else if i >= |s.digest| + 2 {
        assert line[i] == s.path[i - |s.digest| - 2];
      }
    }
  }

  /** The checksum map: later lines win. */
  function SumMap(sums: seq<Sum>): map<string, string> {
    if sums == [] then map[] else SumMap(sums[..|sums| - 1])[sums[|sums| - 1].path := sums[|sums| - 1].digest]
  }

  lemma {:induction false} LinesParse(sums: seq<Sum>)
    requires GoodSums(sums)
    ensures ParseLines(LinesOf(sums)) == Some(SumMap(sums))
  {
    if sums != [] {
      var n := |sums| - 1;
      LinesParse(sums[..n]);
      assert LinesOf(sums)[..n] == LinesOf(sums[..n]);
      LineReadsBack(sums[n]);
    }
  }

  lemma {:induction false} ChecksumsReadBack(sums: seq<Sum>)
    requires GoodSums(sums) && sums != []
    ensures ChecksumsOf(Checksums.SumText(LinesOf(sums))) == Some(SumMap(sums))
  {
    var lines := LinesOf(sums);
    forall i | 0 <= i < |lines|
      ensures Checksums.SolidStart(lines[i]) && Checksums.SolidEnd(lines[i]) && '\n' !in lines[i]
    {
      LineReadsBack(sums[i]);
    }
    Checksums.LinesReadBack(lines);
    LinesParse(sums);
  }

  predicate DistinctSums(sums: seq<Sum>) {
    forall i, j :: 0 <= i < j < |sums| ==> sums[i].path != sums[j].path
  }

  lemma {:induction false} SumMapHolds(sums: seq<Sum>)
    requires DistinctSums(sums)
    ensures forall i :: 0 <= i < |sums| ==> sums[i].path in SumMap(sums) && SumMap(sums)[sums[i].path] == sums[i].digest
    ensures forall p :: p in SumMap(sums) ==> exists i :: 0 <= i < |sums| && sums[i].path == p
  {
    if sums != [] {
      var n := |sums| - 1;
      SumMapHolds(sums[..n]);
      assert forall i :: 0 <= i < n ==> sums[..n][i] == sums[i];
    }
  }

  // ----- the sums are those of the packaged files -----

  function SumPaths(sums: seq<Sum>): (paths: seq<string>)
    ensures |paths| == |sums|
  {
    seq(|sums|, i requires 0 <= i < |sums| => sums[i].path)
  }

  lemma {:induction false} SumPathsConcat(a: seq<Sum>, b: seq<Sum>)
    ensures multiset(SumPaths(a + b)) == multiset(SumPaths(a)) + multiset(SumPaths(b))
  {
    assert SumPaths(a + b) == SumPaths(a) + SumPaths(b);
  }

  lemma {:induction false} ArtifactsSumPaths(artifacts: seq<Artifact>)
    requires forall a :: a in artifacts ==> a.name == a.path
    ensures multiset(SumPaths(ArtifactsSums(artifacts))) == Bag(artifacts)
  {
    if artifacts == [] {
      assert SumPaths([]) == [];
    } else {
      var n := |artifacts| - 1;
      assert artifacts[n] in artifacts;
      forall a | a in artifacts[..n] ensures a.name == a.path {
        assert a in artifacts;
      }
      ArtifactsSumPaths(artifacts[..n]);
      SumPathsConcat(ArtifactsSums(artifacts[..n]), ArtifactSums(artifacts[n]));
      ArtifactSumPaths(artifacts[n]);
    }
  }

  lemma {:induction false} ArtifactSumPaths(a: Artifact)
    requires a.name == a.path
    ensures multiset(SumPaths(ArtifactSums(a))) == ArtifactBag(a)
  {
    SumPathsConcat([Sum(a.sha256, a.name)], ItemSums(a.attestations));
    assert SumPaths([Sum(a.sha256, a.name)]) == [a.path];
    assert SumPaths(ItemSums(a.attestations)) == ItemPaths(a.attestations);
  }

  lemma {:induction false} ManifestSumPaths(m: Manifest)
    requires forall a :: a in m.artifacts ==> a.name == a.path
    ensures multiset(SumPaths(ManifestSums(m))) == AllPaths(m.artifacts, m.supplementals)
  {
    ArtifactsSumPaths(m.artifacts);
    SumPathsConcat(ArtifactsSums(m.artifacts), ItemSums(m.supplementals));
    assert SumPaths(ItemSums(m.supplementals)) == ItemPaths(m.supplementals);
  }

  lemma {:induction false} CountTwo(s: seq<string>, i: nat, j: nat)
    requires i < j < |s| && s[i] == s[j]
    ensures multiset(s)[s[i]] >= 2
  {
    assert s == s[..j] + [s[j]] + s[j + 1..];
    assert s[..j][i] == s[i];
    assert s[i] in multiset(s[..j]);
  }

  lemma {:induction false} OccupiedSumsDistinct(sums: seq<Sum>, occupied: set<string>)
    requires Occupies(multiset(SumPaths(sums)), occupied)
    ensures DistinctSums(sums) && forall i :: 0 <= i < |sums| ==> sums[i].path in occupied
  {
    var paths := SumPaths(sums);
    forall i, j | 0 <= i < j < |sums| ensures sums[i].path != sums[j].path {
      if paths[i] == paths[j] {
        CountTwo(paths, i, j);
      }
    }
    forall i | 0 <= i < |sums| ensures sums[i].path in occupied {
      assert paths[i] in multiset(paths);
    }
  }

  // ----- every packaged file is listed and found -----

  lemma {:induction false} ArtifactSumsListed(artifacts: seq<Artifact>, i: nat)
    requires i < |artifacts|
    ensures forall s :: s in ArtifactSums(artifacts[i]) ==> s in ArtifactsSums(artifacts)
  {
    var n := |artifacts| - 1;
    if i < n {
      ArtifactSumsListed(artifacts[..n], i);
    }
  }

  /** The checksum map lists these files under their paths. */
  ghost predicate Lists(checksums: map<string, string>, sums: seq<Sum>) {
    forall s :: s in sums ==> s.path in checksums && checksums[s.path] == s.digest
  }

  lemma {:induction false} SumMapLists(sums: seq<Sum>)
    requires DistinctSums(sums)
    ensures Lists(SumMap(sums), sums)
  {
    SumMapHolds(sums);
    forall s | s in sums ensures s.path in SumMap(sums) && SumMap(sums)[s.path] == s.digest {
      var i :| 0 <= i < |sums| && sums[i] == s;
    }
  }

  lemma {:induction false} PlainHasNoPathProblem(n: string)
    requires PlainFile(n) && Checksums.NoSpaces(n)
    ensures PathProblem(n).None? && Paths.Clean(n) == n
  {
    PlainIsClean(n);
    assert TrimLeft(n) == n && TrimRight(n) == n;
    assert "../"[2] == '/';
  }

  /** A stored and listed file has no problem. */
  lemma {:induction false} StoredHasNoProblem(
    name: string, path: string, sha256: string, size: nat, dir: Directory, checksums: map<string, string>, o: Outside)
    requires PlainFile(path) && Checksums.NoSpaces(path) && Stored(path, sha256, size, dir, o)
    requires path in checksums && checksums[path] == sha256
    ensures PathProblem(path).None? && path in dir && Paths.Clean(path) == path
    ensures ContentProblems(dir[path], checksums, name, path, sha256, size, o) == []
  {
    PlainHasNoPathProblem(path);
  }

  lemma {:induction false} ItemsHaveNoProblem(items: seq<Item>, dir: Directory, checksums: map<string, string>, o: Outside)
    requires ItemsStored(items, dir, o) && Lists(checksums, ItemSums(items))
    requires forall i :: 0 <= i < |items| ==> PlainFile(items[i].path) && Checksums.NoSpaces(items[i].path)
    ensures ListProblems(items, dir, checksums, o) == []
  {
    if items != [] {
      var n := |items| - 1;
      forall s | s in ItemSums(items[..n]) ensures s in ItemSums(items) {
        var i :| 0 <= i < n && ItemSums(items[..n])[i] == s;
        assert ItemSums(items)[i] == s;
      }
      ItemsHaveNoProblem(items[..n], dir, checksums, o);
      assert ItemSums(items)[n] in ItemSums(items);
      StoredHasNoProblem(items[n].name, items[n].path, items[n].sha256, items[n].sizeBytes, dir, checksums, o);
    }
  }

  lemma {:induction false} BagCounts(artifacts: seq<Artifact>, i: nat)
    requires i < |artifacts|
    ensures Bag(artifacts)[artifacts[i].path] >= 1
  {
    BagContains(artifacts, i);
    assert ArtifactBag(artifacts[i])[artifacts[i].path] >= 1;
  }

  lemma {:induction false} TwoArtifacts(artifacts: seq<Artifact>, i: nat, j: nat)
    requires i < j < |artifacts| && artifacts[i].path == artifacts[j].path
    ensures Bag(artifacts)[artifacts[i].path] >= 2
  {
    var n := |artifacts| - 1;
    var front, p := artifacts[..n], artifacts[i].path;
    if j < n {
      TwoArtifacts(front, i, j);
    } else {
      BagCounts(front, i);
    }
    assert Bag(artifacts)[p] == Bag(front)[p] + ArtifactBag(artifacts[n])[p];
  }

  lemma {:induction false} SeenAreNames(artifacts: seq<Artifact>, x: string)
    requires x in SeenAfter(artifacts)
    ensures exists k :: 0 <= k < |artifacts| && artifacts[k].name == x
  {
    var n := |artifacts| - 1;
    if x in SeenAfter(artifacts[..n]) {
      SeenAreNames(artifacts[..n], x);
      var k :| 0 <= k < n && artifacts[..n][k].name == x;
      assert artifacts[k].name == x;
    } else {
      assert artifacts[n].name == x;
    }
  }

  lemma {:induction false} NameIsNew(artifacts: seq<Artifact>, supplementals: seq<Item>, occupied: set<string>, i: nat)
    requires Occupies(AllPaths(artifacts, supplementals), occupied) && i < |artifacts|
    requires forall a :: a in artifacts ==> a.name == a.path
    ensures artifacts[i].name !in SeenAfter(artifacts[..i])
  {
    assert forall p :: AllPaths(artifacts, supplementals)[p] >= Bag(artifacts)[p];
    if artifacts[i].name in SeenAfter(artifacts[..i]) {
      SeenAreNames(artifacts[..i], artifacts[i].name);
      var k :| 0 <= k < i && artifacts[..i][k].name == artifacts[i].name;
      assert artifacts[k] in artifacts && artifacts[i] in artifacts;
      TwoArtifacts(artifacts, k, i);
    }
  }

  /** No name holds a space. */
  ghost predicate AllSolid(names: set<string>) {
    forall n :: n in names ==> Checksums.NoSpaces(n)
  }

  /** The directory holds these files and the checksums list them. */
  ghost predicate Ready(m: Manifest, dir: Directory, checksums: map<string, string>, occupied: set<string>, o: Outside) {
    && Packed(m.artifacts, m.supplementals, dir, occupied, o) && AllPlain(occupied) && AllSolid(occupied)
    && Lists(checksums, ManifestSums(m))
  }

  lemma {:induction false} ArtifactIsClean(
    m: Manifest, dir: Directory, checksums: map<string, string>, occupied: set<string>, o: Outside, i: nat)
    requires Ready(m, dir, checksums, occupied, o) && i < |m.artifacts|
    requires m.artifacts[i].path in dir ==> o.metadataProblems(m, m.artifacts[i], dir[m.artifacts[i].path]) == 0
    ensures ArtifactClean(m.artifacts[i], SeenAfter(m.artifacts[..i]), m, dir, checksums, o)
    ensures Readable(m.artifacts[i], dir)
  {
    var a := m.artifacts[i];
    assert a in m.artifacts && ArtifactStored(a, dir, o);
    ArtifactPathsOccupied(m.artifacts, m.supplementals, occupied, i);
    ArtifactSumsListed(m.artifacts, i);
    assert ArtifactSums(a)[0] == Sum(a.sha256, a.name) && ArtifactSums(a)[0] in ManifestSums(m);
    StoredHasNoProblem(a.name, a.path, a.sha256, a.sizeBytes, dir, checksums, o);
    NameIsNew(m.artifacts, m.supplementals, occupied, i);
    forall s | s in ItemSums(a.attestations) ensures s in ManifestSums(m) {
      assert s in ArtifactSums(a);
    }
    ItemsHaveNoProblem(a.attestations, dir, checksums, o);
  }

  lemma {:induction false} ArtifactsAreClean(
    m: Manifest, dir: Directory, checksums: map<string, string>, occupied: set<string>, o: Outside, n: nat)
    requires Ready(m, dir, checksums, occupied, o) && n <= |m.artifacts|
    requires MetadataOk(m, dir, o)
    ensures ArtifactsClean(m.artifacts[..n], m, dir, checksums, o)
  {
    if n > 0 {
      ArtifactsAreClean(m, dir, checksums, occupied, o, n - 1);
      assert m.artifacts[n - 1] in m.artifacts;
      ArtifactIsClean(m, dir, checksums, occupied, o, n - 1);
      ArtifactsSnoc(m.artifacts, n - 1, m, dir, checksums, o);
    }
  }

  lemma {:induction false} AllReadable(
    m: Manifest, dir: Directory, checksums: map<string, string>, occupied: set<string>, o: Outside)
    requires Ready(m, dir, checksums, occupied, o)
    requires MetadataOk(m, dir, o)
    ensures forall a :: a in m.artifacts ==> Readable(a, dir)
  {
    forall a | a in m.artifacts ensures Readable(a, dir) {
      var i :| 0 <= i < |m.artifacts| && m.artifacts[i] == a;
      ArtifactIsClean(m, dir, checksums, occupied, o, i);
    }
  }

  lemma {:induction false} ArtifactsSumsKeyed(artifacts: seq<Artifact>, dir: Directory)
    requires forall a :: a in artifacts ==> Readable(a, dir)
    ensures forall s :: s in ArtifactsSums(artifacts) ==> s.path in ArtifactsKeys(artifacts, dir)
  {
    if artifacts != [] {
      var n := |artifacts| - 1;
      assert forall a :: a in artifacts[..n] ==> a in artifacts;
      ArtifactsSumsKeyed(artifacts[..n], dir);
      assert artifacts[n] in artifacts;
      forall s | s in ArtifactsSums(artifacts) ensures s.path in ArtifactsKeys(artifacts, dir) {
        if s in ArtifactSums(artifacts[n]) {
          SumIsKeyed(artifacts[n], dir, s);
        }
      }
    }
  }

  lemma {:induction false} SumIsKeyed(a: Artifact, dir: Directory, s: Sum)
    requires Readable(a, dir) && s in ArtifactSums(a)
    ensures s.path in ArtifactKeys(a, dir)
  {
    if s in ItemSums(a.attestations) {
      ItemSumIsKeyed(a.attestations, s);
    }
  }

  lemma {:induction false} ItemSumIsKeyed(items: seq<Item>, s: Sum)
    requires s in ItemSums(items)
    ensures s.path in ItemKeys(items)
  {
    var i :| 0 <= i < |items| && ItemSums(items)[i] == s;
    assert items[i] in items;
  }

  lemma {:induction false} SupplementalsAreClean(
    m: Manifest, dir: Directory, checksums: map<string, string>, occupied: set<string>, o: Outside)
    requires Ready(m, dir, checksums, occupied, o)
    ensures ListProblems(m.supplementals, dir, checksums, o) == []
  {
    forall i | 0 <= i < |m.supplementals| ensures m.supplementals[i].path in occupied {
      ItemPathsOccupied(m.artifacts, m.supplementals, occupied, i);
    }
    ItemsHaveNoProblem(m.supplementals, dir, checksums, o);
  }

  // ----- the round trip -----

  /** Every packaged file of `files` is in `dir` as it was. */
  ghost predicate KeepsFiles(files: Directory, dir: Directory, occupied: set<string>) {
    && (forall p :: p in occupied && p in files ==> p in dir && dir[p] == files[p])
    && (forall p :: p in occupied && p in dir ==> p in files)
  }

  /** The manifest, checksums and signature are written beside the packaged files, not over them. */
  lemma {:induction false} FinishingKeepsFiles(
    m: Manifest, files: Directory, occupied: set<string>, signed: bool, o: Outside)
    requires Packed(m.artifacts, m.supplementals, files, occupied, o) && AllPlain(occupied)
    requires o.names.manifest !in occupied && o.names.sums !in occupied && o.names.signature !in occupied
    ensures KeepsFiles(files, Finished(files, m, signed, o), occupied)
    ensures Packed(m.artifacts, m.supplementals, Finished(files, m, signed, o), occupied, o)
  {
    assert KeepsFiles(files, Finished(files, m, signed, o), occupied);
    PackedKept(m, files, Finished(files, m, signed, o), occupied, o);
  }

  lemma {:induction false} PackedKept(m: Manifest, files: Directory, dir: Directory, occupied: set<string>, o: Outside)
    requires Packed(m.artifacts, m.supplementals, files, occupied, o) && AllPlain(occupied)
    requires KeepsFiles(files, dir, occupied)
    ensures Packed(m.artifacts, m.supplementals, dir, occupied, o)
  {
    forall i | 0 <= i < |m.artifacts| ensures ArtifactStored(m.artifacts[i], dir, o) {
      var a := m.artifacts[i];
      assert ArtifactStored(a, files, o);
      ArtifactPathsOccupied(m.artifacts, m.supplementals, occupied, i);
      PlainIsClean(a.path);
      ItemsKept(a.attestations, files, dir, occupied, o);
    }
    forall i | 0 <= i < |m.supplementals| ensures m.supplementals[i].path in occupied {
      ItemPathsOccupied(m.artifacts, m.supplementals, occupied, i);
    }
    ItemsKept(m.supplementals, files, dir, occupied, o);
  }

  lemma {:induction false} ItemsKept(items: seq<Item>, files: Directory, dir: Directory, occupied: set<string>, o: Outside)
    requires ItemsStored(items, files, o) && AllPlain(occupied)
    requires forall i :: 0 <= i < |items| ==> items[i].path in occupied
    requires forall p :: p in occupied && p in files ==> p in dir && dir[p] == files[p]
    ensures ItemsStored(items, dir, o)
  {
    forall i | 0 <= i < |items| ensures Stored(items[i].path, items[i].sha256, items[i].sizeBytes, dir, o) {
      PlainIsClean(items[i].path);
    }
  }

  /** Hexadecimal digests, a manifest that decodes to itself, and three names for the generated files, none of them a
      binary's. */
  ghost predicate Encodes(m: Manifest, o: Outside) {
    && (forall text: string :: Checksums.IsHexDigest(o.digest(text)))
    && o.decode(o.encode(m)) == Some(m) && GeneratedApart(o.names)
  }

  predicate GeneratedApart(n: Names) {
    && n.manifest != n.sums && n.manifest != n.signature && n.sums != n.signature
    && !HasPrefix(n.manifest, BINARY_PREFIX) && !HasPrefix(n.sums, BINARY_PREFIX) && !HasPrefix(n.signature, BINARY_PREFIX)
  }

  /** A signature that checks, where one is demanded. */
  predicate Trusted(m: Manifest, signed: bool, key: bool, o: Outside) {
    key ==> signed && o.signatureOk(o.encode(m), Some(o.sign(o.encode(m))))
  }

  /** The directory holds every recorded file with its digest and size. */
  ghost predicate StillStored(m: Manifest, dir: Directory, o: Outside) {
    ArtifactsStored(m.artifacts, dir, o) && ItemsStored(m.supplementals, dir, o)
  }

  lemma {:induction false} PackagedSums(m: Manifest, files: Directory, occupied: set<string>, o: Outside)
    requires Packed(m.artifacts, m.supplementals, files, occupied, o) && AllPlain(occupied) && AllSolid(occupied)
    requires m.artifacts != []
    requires forall text: string :: Checksums.IsHexDigest(o.digest(text))
    ensures var sums := ManifestSums(m);
            sums != [] && DistinctSums(sums) && GoodSums(sums)
  {
    var sums := ManifestSums(m);
    ManifestSumPaths(m);
    OccupiedSumsDistinct(sums, occupied);
    ArtifactSumsListed(m.artifacts, 0);
    assert ArtifactSums(m.artifacts[0])[0] in sums;
    forall i | 0 <= i < |sums| ensures GoodSum(sums[i]) {
      SumIsHex(m, files, occupied, o, sums[i]);
    }
  }

  lemma {:induction false} SumIsHex(m: Manifest, files: Directory, occupied: set<string>, o: Outside, s: Sum)
    requires Packed(m.artifacts, m.supplementals, files, occupied, o) && AllPlain(occupied) && s in ManifestSums(m)
    requires forall text: string :: Checksums.IsHexDigest(o.digest(text))
    ensures Checksums.IsHexDigest(s.digest)
  {
    if s in ItemSums(m.supplementals) {
      ItemSumIsHex(m.supplementals, files, o, s);
    } else {
      ArtifactsSumIsHex(m.artifacts, files, o, s);
    }
  }

  lemma {:induction false} ItemSumIsHex(items: seq<Item>, files: Directory, o: Outside, s: Sum)
    requires ItemsStored(items, files, o) && s in ItemSums(items)
    requires forall text: string :: Checksums.IsHexDigest(o.digest(text))
    ensures Checksums.IsHexDigest(s.digest)
  {
    var i :| 0 <= i < |items| && ItemSums(items)[i] == s;
    assert Stored(items[i].path, items[i].sha256, items[i].sizeBytes, files, o);
  }

  lemma {:induction false} ArtifactsSumIsHex(artifacts: seq<Artifact>, files: Directory, o: Outside, s: Sum)
    requires ArtifactsStored(artifacts, files, o) && s in ArtifactsSums(artifacts)
    requires forall text: string :: Checksums.IsHexDigest(o.digest(text))
    ensures Checksums.IsHexDigest(s.digest)
  {
    var n := |artifacts| - 1;
    if s in ArtifactsSums(artifacts[..n]) {
      assert ArtifactsStored(artifacts[..n], files, o) by {
        forall k | 0 <= k < n ensures ArtifactStored(artifacts[..n][k], files, o) {
          assert ArtifactStored(artifacts[k], files, o);
        }
      }
      ArtifactsSumIsHex(artifacts[..n], files, o, s);
    } else {
      assert ArtifactStored(artifacts[n], files, o);
      if s in ItemSums(artifacts[n].attestations) {
        ItemSumIsHex(artifacts[n].attestations, files, o, s);
      }
    }
  }

  /** What is still stored after the manifest, checksums and signature are written is complete and fully listed. */
  lemma {:induction false} PackagedIsReady(
    opts: Options, m: Manifest, files: Directory, occupied: set<string>, o: Outside)
    requires IsPackage(m, files, occupied, opts, o) && AllPlain(occupied) && AllSolid(occupied)
    requires Encodes(m, o) && StillStored(m, Finished(files, m, opts.signed, o), o)
    ensures var dir, sums := Finished(files, m, opts.signed, o), ManifestSums(m);
            && Ready(m, dir, SumMap(sums), occupied, o) && DistinctSums(sums)
            && ChecksumsOf(Checksums.SumText(ManifestLines(m))) == Some(SumMap(sums))
  {
    var sums := ManifestSums(m);
    PackagedSums(m, files, occupied, o);
    ManifestLinesAreSums(m);
    ChecksumsReadBack(sums);
    SumMapLists(sums);
  }

  lemma {:induction false} SolidReleaseVerifies(
    opts: Options, m: Manifest, files: Directory, occupied: set<string>, key: bool, o: Outside)
    requires IsPackage(m, files, occupied, opts, o) && AllPlain(occupied) && AllSolid(occupied)
    requires Encodes(m, o) && StillStored(m, Finished(files, m, opts.signed, o), o)
    requires MetadataOk(m, Finished(files, m, opts.signed, o), o)
    requires var dir := Finished(files, m, opts.signed, o);
             key ==> o.names.manifest in dir && SignatureAccepted(dir, o)
    ensures Legible(Finished(files, m, opts.signed, o), o) && Clean(Finished(files, m, opts.signed, o), key, o)
  {
    var dir, checksums := Finished(files, m, opts.signed, o), SumMap(ManifestSums(m));
    hide Packed, Ready, MetadataOk, IsPackage, DistinctSums, ArtifactsClean, ListProblems, SumMap, Finished, ManifestKeys;
    PackagedIsReady(opts, m, files, occupied, o);
    FinishedIsLegible(m, files, opts.signed, o);
    ArtifactsAreClean(m, dir, checksums, occupied, o, |m.artifacts|);
    assert m.artifacts[..|m.artifacts|] == m.artifacts;
    SupplementalsAreClean(m, dir, checksums, occupied, o);
    SumsAreManifested(m, dir, checksums, occupied, o);
  }

  /** A packaged release whose names are plain, without spaces and unreserved verifies without a problem. */
  lemma {:induction false} PackagedReleaseVerifies(
    opts: Options, m: Manifest, files: Directory, occupied: set<string>, key: bool, o: Outside)
    requires IsPackage(m, files, occupied, opts, o) && AllPlain(occupied) && AllSolid(occupied)
    requires o.names.manifest !in occupied && o.names.sums !in occupied && o.names.signature !in occupied
    requires Encodes(m, o) && Trusted(m, opts.signed, key, o)
    requires MetadataOk(m, files, o)
    ensures Legible(Finished(files, m, opts.signed, o), o) && Clean(Finished(files, m, opts.signed, o), key, o)
  {
    var dir := Finished(files, m, opts.signed, o);
    FinishingKeepsFiles(m, files, occupied, opts.signed, o);
    MetadataKept(m, files, dir, occupied, o);
    FinishedIsLegible(m, files, opts.signed, o);
    hide Finished, IsPackage, MetadataOk, Encodes, Clean, KeepsFiles;
    SolidReleaseVerifies(opts, m, files, occupied, key, o);
  }

  /** The metadata of every artifact matches what its binary reports. */
  ghost predicate MetadataOk(m: Manifest, dir: Directory, o: Outside) {
    forall a :: a in m.artifacts && a.path in dir ==> o.metadataProblems(m, a, dir[a.path]) == 0
  }

  lemma {:induction false} MetadataKept(m: Manifest, files: Directory, dir: Directory, occupied: set<string>, o: Outside)
    requires Packed(m.artifacts, m.supplementals, files, occupied, o)
    requires KeepsFiles(files, dir, occupied) && MetadataOk(m, files, o)
    ensures MetadataOk(m, dir, o)
  {
    forall a | a in m.artifacts && a.path in dir ensures o.metadataProblems(m, a, dir[a.path]) == 0 {
      var i :| 0 <= i < |m.artifacts| && m.artifacts[i] == a;
      ArtifactPathsOccupied(m.artifacts, m.supplementals, occupied, i);
    }
  }

  lemma {:induction false} FinishedIsLegible(m: Manifest, files: Directory, signed: bool, o: Outside)
    requires o.names.manifest != o.names.sums && o.names.manifest != o.names.signature && o.names.sums != o.names.signature
    ensures var dir := Finished(files, m, signed, o);
            && o.names.manifest in dir && dir[o.names.manifest] == o.encode(m)
            && o.names.sums in dir && dir[o.names.sums] == Checksums.SumText(ManifestLines(m))
            && (signed ==> o.names.signature in dir && dir[o.names.signature] == o.sign(o.encode(m)))
  {
  }

  lemma {:induction false} SumsAreManifested(
    m: Manifest, dir: Directory, checksums: map<string, string>, occupied: set<string>, o: Outside)
    requires Ready(m, dir, checksums, occupied, o) && MetadataOk(m, dir, o)
    requires DistinctSums(ManifestSums(m)) && checksums == SumMap(ManifestSums(m))
    ensures checksums.Keys <= ManifestKeys(m, dir)
  {
    AllReadable(m, dir, checksums, occupied, o);
    var sums := ManifestSums(m);
    ArtifactsSumsKeyed(m.artifacts, dir);
    SumMapHolds(sums);
    forall p | p in checksums ensures p in ManifestKeys(m, dir) {
      var i :| 0 <= i < |sums| && sums[i].path == p;
      assert sums[i] in ArtifactsSums(m.artifacts) || sums[i] in ItemSums(m.supplementals);
      if sums[i] in ItemSums(m.supplementals) {
        ItemSumIsKeyed(m.supplementals, sums[i]);
      }
    }
  }
}
