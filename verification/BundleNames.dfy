/** The names under which Export stores its files, and where it reads them. */
module BundleNames {
  import opened Text
  import opened Evidence
  import opened Bundle
  import opened BundleVerify
  import Checksums
  import Paths

  // ----- names inside folders -----

  /** A normal relative path that never climbs. */
  ghost predicate PlainPath(p: string) {
    !Paths.IsAbs(p) && Paths.Clean(p) == p && p != "." && ".." !in Paths.Segments(p) && '\\' !in p
  }

  lemma {:induction false} SegmentsUnder(folder: string, p: string)
    requires Paths.NormalSeg(folder) && folder != ".." && PlainPath(p)
    ensures Paths.Segments(folder + "/" + p) == [folder] + Paths.Segments(p)
    ensures Paths.Clean(folder + "/" + p) == folder + "/" + p
    ensures !Paths.IsAbs(folder + "/" + p)
  {
    Paths.SegmentsAreNormal(p);
    var segs := [folder] + Paths.Segments(p);
    assert Paths.Segments(p) != [];
    assert segs[1..] == Paths.Segments(p);
    assert Paths.Normal(false, segs);
    assert Paths.Render(false, segs) == folder + "/" + p;
    Paths.RenderRoundTrip(false, segs);
  }

  lemma {:induction false} UnchangedBySlashing(p: string)
    requires '\\' !in p
    ensures Paths.Slashed(p) == p
  {
  }

  /** A folder name followed by a plain path is what joining them gives, and a good entry name. */
  lemma {:induction false} JoinUnder(folder: string, p: string)
    requires Paths.NormalSeg(folder) && |folder| > 1 && folder != ".." && '\\' !in folder && ':' !in folder && PlainPath(p)
    ensures Paths.SlashJoin(folder, p) == folder + "/" + p
    ensures Paths.ValidateBundlePath(folder + "/" + p) == Ok(folder + "/" + p)
  {
    var whole := folder + "/" + p;
    SegmentsUnder(folder, p);
    UnchangedBySlashing(whole);
    assert whole[0] == folder[0] && whole[1] == folder[1];
    Paths.EscapesExactly(whole);
  }

  lemma {:induction false} SingleName(n: string)
    requires Paths.NormalSeg(n) && n != ".." && '\\' !in n && ':' !in n
    ensures Paths.ValidateBundlePath(n) == Ok(n)
  {
    var segs := [n];
    assert Paths.Normal(false, segs);
    Paths.RenderRoundTrip(false, segs);
    UnchangedBySlashing(n);
    assert Paths.Clean(n) == n;
    Paths.EscapesExactly(n);
  }

  lemma {:induction false} OneSegment(n: string)
    requires Paths.NormalSeg(n) && n != ".."
    ensures Paths.Segments(n) == [n] && !Paths.IsAbs(n)
  {
    assert Paths.Normal(false, [n]);
    Paths.RenderRoundTrip(false, [n]);
  }

  predicate ValidatesAsItself(path: string) {
    Paths.ValidateBundlePath(path) == Ok(path)
  }

  /** The folders of a bundle. */
  predicate FolderName(n: string) {
    n == "input-snapshots" || n == "artifacts" || n == "revocations"
  }

  /** A name of one segment, other than a folder's, that survives every check and ends a line cleanly. */
  ghost predicate PlainName(n: string) {
    && Paths.NormalSeg(n) && n != ".." && '\\' !in n && ':' !in n && '\n' !in n && Checksums.SolidEnd(n) && !FolderName(n)
  }

  ghost predicate PlainNames(n: Names) {
    && PlainName(n.contract) && PlainName(n.ledger) && PlainName(n.evidence)
    && PlainName(n.manifest) && PlainName(n.signature) && PlainName(n.sums)
    && NamesApart(n) && n.manifest != n.sums && n.signature !in {n.contract, n.ledger, n.evidence, n.manifest, n.sums}
  }

  predicate NameChar(c: char) {
    'a' <= c <= 'z' || 'A' <= c <= 'Z' || IsDigit(c) || c == '-' || c == '.'
  }

  lemma {:induction false} NameCharsArePlain(n: string)
    requires |n| > 2 && (forall i :: 0 <= i < |n| ==> NameChar(n[i])) && n[0] !in {'i', 'a', 'r'}
    ensures PlainName(n)
  {
    assert NameChar(n[|n| - 1]);
    assert "input-snapshots"[0] == 'i' && "artifacts"[0] == 'a' && "revocations"[0] == 'r';
  }

  lemma {:induction false} RunNamesArePlain()
    ensures PlainName(STANDARD.contract) && PlainName(STANDARD.ledger) && PlainName(STANDARD.evidence)
  {
    NameCharsArePlain(STANDARD.contract);
    NameCharsArePlain(STANDARD.ledger);
    NameCharsArePlain(STANDARD.evidence);
  }

  lemma {:induction false} BundleNamesArePlain()
    ensures PlainName(STANDARD.manifest) && PlainName(STANDARD.signature) && PlainName(STANDARD.sums)
  {
    NameCharsArePlain(STANDARD.manifest);
    NameCharsArePlain(STANDARD.signature);
    NameCharsArePlain(STANDARD.sums);
  }

  /** The names that bundles use. */
  lemma {:induction false} StandardNamesArePlain()
    ensures PlainNames(STANDARD)
  {
    RunNamesArePlain();
    BundleNamesArePlain();
    assert STANDARD.contract[0] == 'c' && STANDARD.ledger[0] == 'e' && STANDARD.evidence[0] == 'e'
        && STANDARD.manifest[0] == 'b' && STANDARD.signature[0] == 'b' && STANDARD.sums[0] == 'S';
    assert |STANDARD.manifest| == 20 && |STANDARD.signature| == 21;
  }

  // ----- where the planned files go -----

  const SNAPSHOTS := "input-snapshots/"
  const ARTIFACTS := "artifacts/"

  lemma {:induction false} CleanIsPlain(raw: string)
    requires !Paths.Escapes(Paths.SlashClean(raw)) && Paths.SlashClean(raw) != "."
    ensures PlainPath(Paths.SlashClean(raw))
  {
    Paths.NoBackslashAfterClean(raw);
    Paths.CleanIdempotent(Paths.Slashed(raw));
    Paths.EscapesExactly(Paths.SlashClean(raw));
  }

  lemma {:induction false} ArtifactPath(workspaceDir: string, a: ArtifactRef)
    requires Paths.WorkspaceArtifactPath(workspaceDir, a.path).Ok?
    ensures var n := Paths.SlashClean(a.path);
            && PlainPath(n)
            && Paths.ValidateBundlePath(ArtifactPlan(workspaceDir, a).path) == Ok(ARTIFACTS + n)
            && ArtifactPlan(workspaceDir, a).source == Paths.WorkspaceArtifactPath(workspaceDir, a.path).value
  {
    CleanIsPlain(a.path);
    JoinUnder("artifacts", Paths.SlashClean(a.path));
    assert ARTIFACTS == "artifacts" + "/";
  }

  /** A snapshot recorded as the folder itself. */
  predicate NamesFolder(s: Snapshot) {
    Paths.SlashClean(s.snapshotPath) == "input-snapshots"
  }

  /** The entry that Export makes of a snapshot. */
  function SnapshotName(s: Snapshot): string {
    if NamesFolder(s) then SNAPSHOTS + "input-snapshots" else Paths.SlashClean(s.snapshotPath)
  }

  lemma {:induction false} BelowIsPlain(p: string)
    requires PlainPath(p) && HasPrefix(p, SNAPSHOTS)
    ensures PlainPath(p[|SNAPSHOTS|..]) && p == SNAPSHOTS + p[|SNAPSHOTS|..]
  {
    var rest := p[|SNAPSHOTS|..];
    var segs := Paths.Segments(p);
    Paths.SegmentsAreNormal(p);
    assert p == "input-snapshots" + ['/'] + rest;
    SplitHead("input-snapshots", rest, '/');
    assert p == Join(segs, '/');
    assert segs != [];
    forall i | 0 <= i < |segs| ensures '/' !in segs[i] {
      assert Paths.NormalSeg(segs[i]);
    }
    SplitOfJoin(segs, '/');
    assert segs == ["input-snapshots"] + Split(rest, '/');
    assert segs[1..] == Split(rest, '/');
    assert Paths.Normal(false, segs[1..]) by {
      assert forall i :: 0 <= i < |segs| - 1 ==> segs[1..][i] == segs[i + 1];
    }
    assert segs[1..][0] == segs[1] && Paths.NormalSeg(segs[1]);
    JoinOfSplit(rest, '/');
    Paths.RenderRoundTrip(false, segs[1..]);
    assert Paths.Render(false, segs[1..]) == rest;
    forall x | x in segs[1..] ensures x != ".." {
      assert x in segs;
    }
    assert rest != "." by {
      SplitOne(".", '/');
    }
  }

  lemma {:induction false} JoinOfSplit(s: string, sep: char)
    ensures Join(Split(s, sep), sep) == s
  {
    if s != "" {
      JoinOfSplit(s[1..], sep);
      var rest := Split(s[1..], sep);
      if s[0] == sep {
        assert ([""] + rest)[1..] == rest;
        assert "" + [sep] + Join(rest, sep) == s;
      } else {
        var parts := [[s[0]] + rest[0]] + rest[1..];
        assert parts[1..] == rest[1..];
        assert s == [s[0]] + s[1..];
      }
    }
  }

  /** A folder's own name. */
  ghost predicate ProperFolder(folder: string) {
    Paths.NormalSeg(folder) && |folder| > 1 && folder != ".." && '\\' !in folder && ':' !in folder
  }

  lemma {:induction false} FoldersAreProper()
    ensures ProperFolder("input-snapshots") && ProperFolder("revocations")
  {
    assert "input-snapshots"[0] == 'i' && "revocations"[0] == 'r';
  }

  lemma {:induction false} FolderIsPlain(folder: string)
    requires ProperFolder(folder)
    ensures PlainPath(folder)
  {
    OneSegment(folder);
  }

  lemma {:induction false} FolderInItself(folder: string)
    requires ProperFolder(folder)
    ensures Paths.SlashJoin(folder, Drop(folder, folder + "/")) == folder + "/" + folder
    ensures Paths.ValidateBundlePath(folder + "/" + folder) == Ok(folder + "/" + folder) && PlainPath(folder + "/" + folder)
  {
    assert !HasPrefix(folder, folder + "/");
    FolderIsPlain(folder);
    JoinUnder(folder, folder);
    SegmentsUnder(folder, folder);
  }

  /** The segments of what stands under a folder. */
  lemma {:induction false} ReduceUnder(folder: string, rest: string)
    requires ProperFolder(folder)
    ensures Paths.Segments(folder + "/" + rest) == Paths.Reduce(Split(rest, '/'), false, [folder])
    ensures !Paths.IsAbs(folder + "/" + rest)
  {
    var whole := folder + "/" + rest;
    assert whole == folder + ['/'] + rest && whole[0] == folder[0];
    SplitHead(folder, rest, '/');
    assert ([folder] + Split(rest, '/'))[1..] == Split(rest, '/');
    assert [] + [folder] == [folder];
  }

  lemma {:induction false} NamelessName(folder: string, base: string)
    requires ProperFolder(folder) && (base == "." || base == "/")
    ensures Paths.ValidateBundlePath(Paths.SlashJoin(folder, base)) == Ok(folder)
  {
    ReduceUnder(folder, base);
    if base == "." {
      SplitOne(".", '/');
      assert ["."][1..] == [];
    } else {
      assert "/" == "" + ['/'] + "";
      SplitHead("", "", '/');
      assert ["", ""][1..] == [""] && [""][1..] == [];
      assert Paths.Reduce(["", ""], false, [folder]) == Paths.Reduce([""], false, [folder]);
    }
    SingleName(folder);
    OneSegment(folder);
    UnchangedBySlashing(folder);
  }

  lemma {:induction false} ClimbingName(folder: string)
    requires ProperFolder(folder)
    ensures Paths.ValidateBundlePath(Paths.SlashJoin(folder, "..")).Err?
  {
    ReduceUnder(folder, "..");
    SplitOne("..", '/');
    assert [".."][1..] == [] && [folder][..0] == [];
    DotIsClean();
  }

  lemma {:induction false} DotIsClean()
    ensures Paths.SlashClean(".") == "."
  {
    UnchangedBySlashing(".");
    SplitOne(".", '/');
  }

  lemma {:induction false} SnapshotPath(runDir: string, s: Snapshot)
    requires Paths.InputSnapshotPath(runDir, s.snapshotPath).Ok?
    ensures PlainPath(SnapshotName(s)) && HasPrefix(SnapshotName(s), SNAPSHOTS)
    ensures Paths.ValidateBundlePath(SnapshotPlan(runDir, s).path) == Ok(SnapshotName(s))
  {
    var folder, n := "input-snapshots", Paths.SlashClean(s.snapshotPath);
    CleanIsPlain(s.snapshotPath);
    FoldersAreProper();
    assert SNAPSHOTS == folder + "/";
    hide PlainPath, ProperFolder;
    if n == folder {
      FolderInItself(folder);
    } else {
      BelowIsPlain(n);
      JoinProper(folder, n[|SNAPSHOTS|..]);
    }
  }

  lemma {:induction false} JoinProper(folder: string, p: string)
    requires ProperFolder(folder) && PlainPath(p)
    ensures Paths.SlashJoin(folder, p) == folder + "/" + p
    ensures Paths.ValidateBundlePath(folder + "/" + p) == Ok(folder + "/" + p)
  {
    JoinUnder(folder, p);
  }

  /** Joining any directory and a path that does not climb normalises the path. */
  lemma {:induction false} SourceIsTarget(dir: string, p: string)
    requires PlainPath(Paths.Clean(p))
    ensures Paths.JoinPath(dir, p) == Paths.JoinPath(dir, Paths.Clean(p))
  {
    var c, rooted := Paths.Clean(p), Paths.IsAbs(dir + "/" + p);
    Paths.SegmentsAreNormal(p);
    Paths.RenderRoundTrip(Paths.IsAbs(p), Paths.Segments(p));
    Paths.SplitConcat(dir, p, '/');
    Paths.SplitConcat(dir, c, '/');
    Paths.ReduceAppends(Split(dir, '/'), Split(p, '/'), rooted, []);
    Paths.ReduceAppends(Split(dir, '/'), Split(c, '/'), rooted, []);
    var base := Paths.Reduce(Split(dir, '/'), rooted, []);
    assert base + [] == base;
    Paths.ReduceFromBase(Split(p, '/'), rooted, base, []);
    Paths.ReduceFromBase(Split(c, '/'), rooted, base, []);
  }

  /** Without backslashes Export reads a snapshot where the verifier of the run found it. */
  lemma {:induction false} SnapshotSource(runDir: string, s: Snapshot)
    requires Paths.InputSnapshotPath(runDir, s.snapshotPath).Ok? && '\\' !in s.snapshotPath
    ensures SnapshotPlan(runDir, s).source == Paths.InputSnapshotPath(runDir, s.snapshotPath).value
  {
    CleanIsPlain(s.snapshotPath);
    UnchangedBySlashing(s.snapshotPath);
    SourceIsTarget(runDir, s.snapshotPath);
  }

  /** A revocation list whose path cleans to a directory without a name. */
  predicate Nameless(p: string) {
    Paths.SlashClean(p) == "." || Paths.SlashClean(p) == "/"
  }

  /** The last segment of a clean path. */
  lemma {:induction false} BaseOfClean(p: string)
    ensures !Nameless(p) ==> Paths.NormalSeg(Base(Paths.SlashClean(p)))
    ensures Paths.SlashClean(p) == "." ==> Base(Paths.SlashClean(p)) == "."
  {
    var q, c := Paths.Slashed(p), Paths.SlashClean(p);
    var segs := Paths.Segments(q);
    Paths.SegmentsAreNormal(q);
    if segs == [] {
      SplitOne(".", '/');
    } else {
      forall i | 0 <= i < |segs| ensures '/' !in segs[i] {
        assert Paths.NormalSeg(segs[i]);
      }
      SplitOfJoin(segs, '/');
      var joined := Join(segs, '/');
      assert Paths.NormalSeg(segs[|segs| - 1]);
      if Paths.IsAbs(q) {
        assert c == "" + ['/'] + joined;
        SplitHead("", joined, '/');
      }
    }
  }

  lemma {:induction false} RevocationPath(p: string)
    requires Paths.ValidateBundlePath(RevocationPlan(p).path).Ok?
    ensures var base, path := Base(Paths.SlashClean(p)), Paths.ValidateBundlePath(RevocationPlan(p).path).value;
            if Nameless(p) then path == "revocations" else path == REVOCATIONS + base && IsRevocation(path)
  {
    var folder, base := "revocations", Base(Paths.SlashClean(p));
    FoldersAreProper();
    BaseOfClean(p);
    assert REVOCATIONS == folder + "/";
    if Nameless(p) {
      NamelessName(folder, base);
    } else if base == ".." {
      ClimbingName(folder);
    } else {
      Paths.NoBackslashAfterClean(p);
      SplitKeepsChars(Paths.SlashClean(p), '/', '\\');
      OneSegment(base);
      JoinProper(folder, base);
      assert (REVOCATIONS + base)[|REVOCATIONS|..] == base;
    }
  }
}
