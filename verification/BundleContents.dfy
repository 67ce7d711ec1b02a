/** What an exported archive holds, file by file, and which archives can be read as a map. */
module BundleContents {
  import opened Text
  import opened Bundle
  import BundleRoundTrip
  import Checksums
  import Paths

  // ----- reading archives -----

  /** The name under which an archive's file is found. */
  function NameOf(f: BundleFile): string {
    Paths.SlashClean(f.path)
  }

  ghost predicate Named(f: BundleFile) {
    Paths.ValidateBundlePath(f.path).Ok?
  }

  /** Every file has an acceptable path, and no two are found under one name. */
  ghost predicate Readable(archive: seq<BundleFile>) {
    && (forall i :: 0 <= i < |archive| ==> Named(archive[i]))
    && forall i, j :: 0 <= i < j < |archive| ==> NameOf(archive[i]) != NameOf(archive[j])
  }

  /** The entries are the archive's files and nothing else. */
  ghost predicate Holds(entries: map<string, string>, archive: seq<BundleFile>) {
    && (forall i :: 0 <= i < |archive| ==> NameOf(archive[i]) in entries && entries[NameOf(archive[i])] == archive[i].contents)
    && forall name :: name in entries ==> exists i :: 0 <= i < |archive| && NameOf(archive[i]) == name
  }

  lemma {:induction false} ReadableSnoc(archive: seq<BundleFile>)
    requires archive != []
    ensures var n := |archive| - 1;
            Readable(archive) <==> Readable(archive[..n]) && Named(archive[n])
                                   && forall i :: 0 <= i < n ==> NameOf(archive[i]) != NameOf(archive[n])
  {
    hide Named, NameOf;
    var n := |archive| - 1;
    assert forall i :: 0 <= i < n ==> archive[..n][i] == archive[i];
  }

  lemma {:induction false} HoldsSnoc(entries: map<string, string>, archive: seq<BundleFile>)
    requires archive != [] && Holds(entries, archive[..|archive| - 1]) && NameOf(archive[|archive| - 1]) !in entries
    ensures Holds(entries[NameOf(archive[|archive| - 1]) := archive[|archive| - 1].contents], archive)
  {
    hide NameOf;
    var n := |archive| - 1;
    assert forall i :: 0 <= i < n ==> archive[..n][i] == archive[i];
    var more := entries[NameOf(archive[n]) := archive[n].contents];
    forall name | name in more ensures exists i :: 0 <= i < |archive| && NameOf(archive[i]) == name {
      if name == NameOf(archive[n]) {
        assert NameOf(archive[n]) == name;
      } else {
        var i :| 0 <= i < n && NameOf(archive[..n][i]) == name;
        assert NameOf(archive[i]) == name;
      }
    }
  }

  /** An archive is read exactly when its paths are acceptable and found under different names, and then the entries are
      its files. */
  lemma {:induction false} ZipExactly(archive: seq<BundleFile>)
    ensures ReadZip(archive).Some? <==> Readable(archive)
    ensures ReadZip(archive).Some? ==> Holds(ReadZip(archive).value, archive)
  {
    if archive != [] {
      var n := |archive| - 1;
      ZipExactly(archive[..n]);
      ReadableSnoc(archive);
      NamedName(archive[n]);
      hide Readable, Holds, Named, NameOf;
      if ReadZip(archive[..n]).Some? {
        NamesInEntries(archive, ReadZip(archive[..n]).value);
        if NameOf(archive[n]) !in ReadZip(archive[..n]).value {
          HoldsSnoc(ReadZip(archive[..n]).value, archive);
        }
      }
    }
  }

  lemma {:induction false} NamedName(f: BundleFile)
    ensures Named(f) <==> Paths.ValidateBundlePath(f.path).Ok?
    ensures Named(f) ==> Paths.ValidateBundlePath(f.path).value == NameOf(f)
  {
  }

  lemma {:induction false} NamesInEntries(archive: seq<BundleFile>, entries: map<string, string>)
    requires archive != [] && Holds(entries, archive[..|archive| - 1])
    ensures var n := |archive| - 1;
            NameOf(archive[n]) in entries <==> exists i :: 0 <= i < n && NameOf(archive[i]) == NameOf(archive[n])
  {
    hide NameOf;
    var n := |archive| - 1;
    assert forall i :: 0 <= i < n ==> archive[..n][i] == archive[i];
    if NameOf(archive[n]) in entries {
      var i :| 0 <= i < n && NameOf(archive[..n][i]) == NameOf(archive[n]);
      assert NameOf(archive[i]) == NameOf(archive[n]);
    }
  }

  // ----- what an export writes -----

  /** Where the i-th gathered file comes from: contract, ledger and evidence, the snapshots, the artifacts, the lists. */
  function SourceAt(r: Request, l: Listing, i: nat): string {
    var a, b := 3 + |l.snapshots|, 3 + |l.snapshots| + |l.artifacts|;
    if i == 0 then r.contractPath
    else if i == 1 then r.ledgerPath
    else if i == 2 then r.evidencePath
    else if i < a then Paths.JoinPath(r.runDir, l.snapshots[i - 3].snapshotPath)
    else if i < b then Paths.JoinPath(r.workspaceDir, Paths.SlashClean(l.artifacts[i - a].path))
    else if i < b + |r.revocations| then r.revocations[i - b]
    else ""
  }

  function GatheredCount(r: Request, l: Listing): nat {
    3 + |l.snapshots| + |l.artifacts| + |r.revocations|
  }

  lemma {:induction false} PlanSources(r: Request, l: Listing, n: Names, i: nat)
    requires i < GatheredCount(r, l)
    ensures |Plans(r, l, n)| == GatheredCount(r, l) && Plans(r, l, n)[i].source == SourceAt(r, l, i)
  {
    hide Paths.JoinPath, Paths.SlashJoin, Paths.SlashClean, Base;
  }

  /** One line for each file: its digest, two spaces and its path. */
  function SumsOf(files: seq<BundleFile>, o: Outside): string
    decreases |files|
  {
    if files == [] then ""
    else
      var f := files[|files| - 1];
      SumsOf(files[..|files| - 1], o) + (o.digest(f.contents) + "  " + f.path) + "\n"
  }

  lemma {:induction false} SumsAreLines(files: seq<BundleFile>, o: Outside)
    ensures Checksums.SumText(SumLines(Entries(files, o))) == SumsOf(files, o)
    decreases |files|
  {
    var lines := SumLines(Entries(files, o));
    if files != [] {
      var n := |files| - 1;
      SumsAreLines(files[..n], o);
      LastLine(files, o);
      hide SumLines, Entries;
      assert Checksums.SumText(lines) == Checksums.SumText(lines[..n]) + lines[n] + "\n";
    }
  }

  lemma {:induction false} LastLine(files: seq<BundleFile>, o: Outside)
    requires files != []
    ensures var n, lines := |files| - 1, SumLines(Entries(files, o));
            && |lines| == n + 1 && lines[..n] == SumLines(Entries(files[..n], o))
            && lines[n] == o.digest(files[n].contents) + "  " + files[n].path
  {
  }

  /** The manifest lists, in order, exactly the files before it with their digests and sizes. */
  ghost predicate Manifests(text: string, files: seq<BundleFile>, o: Outside) {
    exists entries: seq<Entry> ::
      && text == o.manifest(entries) && |entries| == |files|
      && forall i :: 0 <= i < |files| ==>
           entries[i].path == files[i].path && entries[i].sha256 == o.digest(files[i].contents)
           && entries[i].sizeBytes == |files[i].contents|
  }

  lemma {:induction false} ArchiveParts(files: seq<BundleFile>, o: Outside, signed: bool)
    ensures var archive, n := Archive(files, o, signed), |files|;
            var last := if signed then n + 2 else n + 1;
            && |archive| == last + 1 && archive[..n] == files
            && archive[n].path == o.names.manifest && Manifests(archive[n].contents, files, o)
            && (signed ==> archive[n + 1] == BundleFile(o.names.signature, o.sign(archive[n].contents)))
            && archive[last].path == o.names.sums && archive[last].contents == SumsOf(archive[..last], o)
  {
    var archive, all := Archive(files, o, signed), Signed(files, o, signed);
    SumsAreLines(all, o);
    hide SumLines, SumsOf, Checksums.SumText;
    ManifestIs(files, o);
    hide Entries, Manifests;
    assert archive[..|all|] == all && archive[..|files|] == files;
  }

  lemma {:induction false} ManifestIs(files: seq<BundleFile>, o: Outside)
    ensures Manifests(o.manifest(Entries(files, o)), files, o)
  {
    var entries := Entries(files, o);
    assert forall i :: 0 <= i < |files| ==> entries[i] == EntryFor(files[i], o);
  }

  lemma {:induction false} GatheredFrom(r: Request, read: Reader, o: Outside, i: nat)
    requires Exportable(r, read, o)
    ensures ListingOf(r, read, o).Some?
    ensures var l, files := ListingOf(r, read, o).value, Gathered(r, read, o);
            |files| == GatheredCount(r, l) && (i < |files| ==> read(SourceAt(r, l, i)) == Some(files[i].contents))
  {
    var l := ListingOf(r, read, o).value;
    var plans := Plans(r, l, o.names);
    BundleRoundTrip.LoadAt(plans, read);
    PlanSources(r, l, o.names, 0);
    if i < |plans| {
      PlanSources(r, l, o.names, i);
    }
    hide Plans, Load, SourceAt, Paths.ValidateBundlePath;
  }

  /** Every export holds the gathered files, each read from its source, then the manifest of exactly these, then, when
      asked for, the signature of that manifest, and last the checksums of all files before them. */
  lemma {:induction false} ArchiveTells(r: Request, read: Reader, o: Outside)
    requires Exportable(r, read, o)
    ensures var archive := Archive(Gathered(r, read, o), o, r.signed);
            var l := ListingOf(r, read, o).value;
            var n := GatheredCount(r, l);
            var last := if r.signed then n + 2 else n + 1;
            && |archive| == last + 1
            && (forall i :: 0 <= i < n ==> read(SourceAt(r, l, i)) == Some(archive[i].contents))
            && archive[n].path == o.names.manifest && Manifests(archive[n].contents, archive[..n], o)
            && (r.signed ==> archive[n + 1] == BundleFile(o.names.signature, o.sign(archive[n].contents)))
            && archive[last].path == o.names.sums && archive[last].contents == SumsOf(archive[..last], o)
  {
    hide *;
    GatheredFrom(r, read, o, 0);
    var files, l := Gathered(r, read, o), ListingOf(r, read, o).value;
    ArchiveParts(files, o, r.signed);
    forall i | 0 <= i < |files| ensures read(SourceAt(r, l, i)) == Some(files[i].contents) {
      GatheredFrom(r, read, o, i);
    }
    assert forall i :: 0 <= i < |files| ==> Archive(files, o, r.signed)[..|files|][i] == Archive(files, o, r.signed)[i];
  }
}
