/** Slash-separated path discipline: path.Clean and the four validators built on it. */
module Paths {
  import opened Text

  datatype PathProblem =
    | PathRequired(what: string)
    | PathEscapes(what: string, raw: string)
    | NotUnderSnapshots

  // ----- path.Clean, by its documented lexical rules -----

  function Reduce(segs: seq<string>, rooted: bool, kept: seq<string>): seq<string>
    decreases |segs|
  {
    if segs == [] then kept
    else if segs[0] == "" || segs[0] == "." then Reduce(segs[1..], rooted, kept)
    else if segs[0] == ".." then
      if kept != [] && kept[|kept| - 1] != ".." then Reduce(segs[1..], rooted, kept[..|kept| - 1])
      else if rooted then Reduce(segs[1..], rooted, kept)
      else Reduce(segs[1..], rooted, kept + [".."])
    else Reduce(segs[1..], rooted, kept + [segs[0]])
  }

  predicate IsAbs(p: string) {
    HasPrefix(p, "/")
  }

  function Segments(p: string): seq<string> {
    Reduce(Split(p, '/'), IsAbs(p), [])
  }

  function Render(rooted: bool, segs: seq<string>): string {
    if rooted then "/" + Join(segs, '/')
    else if segs == [] then "."
    else Join(segs, '/')
  }

  function Clean(p: string): string {
    Render(IsAbs(p), Segments(p))
  }

  function Slashed(raw: string): string {
    ReplaceChar(raw, '\\', '/')
  }

  /** slashClean, normalizeResource and the inline copies of it. */
  function SlashClean(raw: string): string {
    Clean(Slashed(raw))
  }

  /** filepath.Join of a base and a relative path on a slash-separated system. */
  function JoinPath(base: string, rel: string): string {
    Clean(base + "/" + rel)
  }

  predicate HasDrivePrefix(p: string) {
    |p| >= 2 && ('A' <= p[0] <= 'Z' || 'a' <= p[0] <= 'z') && p[1] == ':'
  }

  predicate Escapes(normalized: string) {
    IsAbs(normalized) || HasDrivePrefix(normalized) || normalized == ".." || HasPrefix(normalized, "../")
  }

  // ----- the validators -----

  function ValidateRelativePath(raw: string, what: string): Option<PathProblem> {
    if TrimSpace(raw) == "" then Some(PathRequired(what))
    else if Escapes(SlashClean(raw)) then Some(PathEscapes(what, raw))
    else None
  }

  function SafeJoin(base: string, p: string): Result<string, PathProblem> {
    var normalized := SlashClean(p);
    if normalized == "" || normalized == "." then Ok(base)
    else if HasPrefix(Slashed(p), "//") then Err(PathEscapes("path", p))
    else if Escapes(normalized) then Err(PathEscapes("path", p))
    else Ok(JoinPath(base, normalized))
  }

  function WorkspaceArtifactPath(workspaceDir: string, p: string): Result<string, PathProblem> {
    var normalized := SlashClean(p);
    if normalized == "" || normalized == "." then Err(PathRequired("artifact path"))
    else if HasPrefix(Slashed(p), "//") then Err(PathEscapes("workspace", p))
    else if Escapes(normalized) then Err(PathEscapes("workspace", p))
    else Ok(JoinPath(workspaceDir, normalized))
  }

  function InputSnapshotPath(runDir: string, p: string): Result<string, PathProblem> {
    var normalized := SlashClean(p);
    if normalized == "" || normalized == "." then Err(PathRequired("snapshot path"))
    else if HasPrefix(Slashed(p), "//") then Err(PathEscapes("run directory", p))
    else if Escapes(normalized) then Err(PathEscapes("run directory", p))
    else if normalized != "input-snapshots" && !HasPrefix(normalized, "input-snapshots/") then Err(NotUnderSnapshots)
    else Ok(JoinPath(runDir, normalized))
  }

  function ValidateBundlePath(raw: string): Result<string, PathProblem> {
    var normalized := SlashClean(raw);
    if normalized == "" || normalized == "." then Err(PathRequired("bundle path"))
    else if HasPrefix(Slashed(raw), "//") then Err(PathEscapes("archive", raw))
    else if Escapes(normalized) then Err(PathEscapes("archive", raw))
    else Ok(normalized)
  }

  function SlashJoin(first: string, second: string): string {
    SlashClean(if second == "" then Clean(first) else Clean(first + "/" + second))
  }

  // ----- normal forms -----

  predicate NormalSeg(s: string) {
    s != "" && s != "." && '/' !in s
  }

  /** The shape of a reduced path: dot-dot only leads, and never when rooted. */
  predicate Normal(rooted: bool, segs: seq<string>) {
    && (forall i :: 0 <= i < |segs| ==> NormalSeg(segs[i]))
    && (forall i, j :: 0 <= j <= i < |segs| && segs[i] == ".." ==> !rooted && segs[j] == "..")
  }

  predicate SlashFree(segs: seq<string>) {
    forall i :: 0 <= i < |segs| ==> '/' !in segs[i]
  }

  lemma {:induction false} ReduceIsNormal(segs: seq<string>, rooted: bool, kept: seq<string>)
    requires Normal(rooted, kept) && SlashFree(segs)
    ensures Normal(rooted, Reduce(segs, rooted, kept))
    decreases |segs|
  {
    if segs != [] {
      if segs[0] == "" || segs[0] == "." {
        ReduceIsNormal(segs[1..], rooted, kept);
      } else if segs[0] == ".." {
        if kept != [] && kept[|kept| - 1] != ".." {
          ReduceIsNormal(segs[1..], rooted, kept[..|kept| - 1]);
        } else if rooted {
          ReduceIsNormal(segs[1..], rooted, kept);
        } else {
          ReduceIsNormal(segs[1..], rooted, kept + [".."]);
        }
      } else {
        ReduceIsNormal(segs[1..], rooted, kept + [segs[0]]);
      }
    }
  }

  lemma {:induction false} ReduceOfNormal(segs: seq<string>, rooted: bool, kept: seq<string>)
    requires Normal(rooted, kept + segs)
    ensures Reduce(segs, rooted, kept) == kept + segs
    decreases |segs|
  {
    if segs != [] {
      assert kept + segs == (kept + [segs[0]]) + segs[1..];
      assert (kept + segs)[|kept|] == segs[0];
      if segs[0] == ".." && kept != [] {
        assert (kept + segs)[|kept| - 1] == "..";
      }
      ReduceOfNormal(segs[1..], rooted, kept + [segs[0]]);
    }
  }

  lemma {:induction false} ReduceAppends(a: seq<string>, b: seq<string>, rooted: bool, kept: seq<string>)
    ensures Reduce(a + b, rooted, kept) == Reduce(b, rooted, Reduce(a, rooted, kept))
    decreases |a|
  {
    if a == [] {
      assert a + b == b;
    } else {
      assert (a + b)[1..] == a[1..] + b;
      if a[0] == "" || a[0] == "." {
        ReduceAppends(a[1..], b, rooted, kept);
      } else if a[0] == ".." {
        if kept != [] && kept[|kept| - 1] != ".." {
          ReduceAppends(a[1..], b, rooted, kept[..|kept| - 1]);
        } else if rooted {
          ReduceAppends(a[1..], b, rooted, kept);
        } else {
          ReduceAppends(a[1..], b, rooted, kept + [".."]);
        }
      } else {
        ReduceAppends(a[1..], b, rooted, kept + [a[0]]);
      }
    }
  }

  lemma {:induction false} SegmentsAreNormal(p: string)
    ensures Normal(IsAbs(p), Segments(p))
  {
    ReduceIsNormal(Split(p, '/'), IsAbs(p), []);
  }

  /** Splitting a joined normal path and reducing gives the segments back. */
  lemma {:induction false} SegmentsOfJoin(rooted: bool, segs: seq<string>)
    requires Normal(rooted, segs)
    ensures Reduce(Split(Join(segs, '/'), '/'), rooted, []) == segs
  {
    if segs == [] {
      assert Split("", '/') == [""];
    } else {
      SplitOfJoin(segs, '/');
      assert [] + segs == segs;
      ReduceOfNormal(segs, rooted, []);
    }
  }

  lemma {:induction false} RelativeJoinHasNoLeadingSlash(segs: seq<string>)
    requires segs != [] && Normal(false, segs)
    ensures Join(segs, '/') != "" && !IsAbs(Join(segs, '/'))
  {
    assert NormalSeg(segs[0]);
    assert Join(segs, '/')[0] == segs[0][0];
  }

  lemma {:induction false} RenderRoundTrip(rooted: bool, segs: seq<string>)
    requires Normal(rooted, segs)
    ensures IsAbs(Render(rooted, segs)) == rooted
    ensures Segments(Render(rooted, segs)) == segs
  {
    SegmentsOfJoin(rooted, segs);
    if rooted {
      var body := Join(segs, '/');
      assert "" + ['/'] + body == "/" + body;
      SplitHead("", body, '/');
      assert Split("/" + body, '/')[1..] == Split(body, '/');
    } else if segs == [] {
      SplitOne(".", '/');
    } else {
      RelativeJoinHasNoLeadingSlash(segs);
    }
  }

  lemma {:induction false} ReduceKeepsChars(segs: seq<string>, rooted: bool, kept: seq<string>, c: char)
    requires forall i :: 0 <= i < |segs| ==> c !in segs[i]
    requires forall i :: 0 <= i < |kept| ==> c !in kept[i]
    ensures forall i :: 0 <= i < |Reduce(segs, rooted, kept)| ==> c !in Reduce(segs, rooted, kept)[i]
    decreases |segs|
  {
    if segs != [] {
      if segs[0] == "" || segs[0] == "." {
        ReduceKeepsChars(segs[1..], rooted, kept, c);
      } else if segs[0] == ".." {
        if kept != [] && kept[|kept| - 1] != ".." {
          ReduceKeepsChars(segs[1..], rooted, kept[..|kept| - 1], c);
        } else if rooted {
          ReduceKeepsChars(segs[1..], rooted, kept, c);
        } else {
          assert c !in segs[0];
          ReduceKeepsChars(segs[1..], rooted, kept + [".."], c);
        }
      } else {
        ReduceKeepsChars(segs[1..], rooted, kept + [segs[0]], c);
      }
    }
  }

  // ----- cleaning is idempotent, and verdicts see only the normal form -----

  lemma {:induction false} CleanIdempotent(p: string)
    ensures Clean(Clean(p)) == Clean(p)
  {
    SegmentsAreNormal(p);
    RenderRoundTrip(IsAbs(p), Segments(p));
  }

  lemma {:induction false} NoBackslashAfterClean(raw: string)
    ensures '\\' !in SlashClean(raw)
    ensures Slashed(SlashClean(raw)) == SlashClean(raw)
  {
    var p := Slashed(raw);
    SplitKeepsChars(p, '/', '\\');
    ReduceKeepsChars(Split(p, '/'), IsAbs(p), [], '\\');
    JoinKeepsChars(Segments(p), '/', '\\');
    assert '\\' !in SlashClean(raw);
    assert forall i :: 0 <= i < |SlashClean(raw)| ==> SlashClean(raw)[i] != '\\';
  }

  lemma {:induction false} SlashCleanIdempotent(raw: string)
    ensures SlashClean(SlashClean(raw)) == SlashClean(raw)
  {
    NoBackslashAfterClean(raw);
    CleanIdempotent(Slashed(raw));
  }

  /** A raw path that opens with two slashes is rooted, so the separate guard never decides alone. */
  lemma {:induction false} DoubleSlashIsRooted(raw: string)
    requires HasPrefix(Slashed(raw), "//")
    ensures IsAbs(SlashClean(raw)) && SlashClean(raw) != "."
  {
    assert "//"[..1] == "/";
    assert Slashed(raw)[..2] == "//";
    assert IsAbs(Slashed(raw));
  }

  /** safeJoin succeeds or fails, and lands, by the normal form of its argument alone. */
  lemma {:induction false} SafeJoinSeesNormalForm(base: string, p: string, q: string)
    requires SlashClean(p) == SlashClean(q)
    ensures SafeJoin(base, p).Ok? == SafeJoin(base, q).Ok?
    ensures SafeJoin(base, p).Ok? ==> SafeJoin(base, p) == SafeJoin(base, q)
  {
    if HasPrefix(Slashed(p), "//") {
      DoubleSlashIsRooted(p);
    }
    if HasPrefix(Slashed(q), "//") {
      DoubleSlashIsRooted(q);
    }
  }

  /** The textual escape test is exactly: rooted, or drive-prefixed, or some segment is dot-dot. */
  lemma {:induction false} EscapesExactly(p: string)
    ensures Escapes(Clean(p)) <==>
            IsAbs(p) || HasDrivePrefix(Clean(p)) || exists i :: 0 <= i < |Segments(p)| && Segments(p)[i] == ".."
  {
    var segs := Segments(p);
    SegmentsAreNormal(p);
    RenderRoundTrip(IsAbs(p), segs);
    if !IsAbs(p) && segs != [] {
      LeadingDotDot(segs);
      assert segs[0] == ".." <==> exists i :: 0 <= i < |segs| && segs[i] == "..";
    }
  }

  lemma {:induction false} LeadingDotDot(segs: seq<string>)
    requires segs != [] && SlashFree(segs)
    ensures var text := Join(segs, '/'); text == ".." || HasPrefix(text, "../") <==> segs[0] == ".."
  {
    var text := Join(segs, '/');
    assert forall k :: 0 <= k < |segs[0]| ==> text[k] != '/' by {
      assert forall k :: 0 <= k < |segs[0]| ==> text[k] == segs[0][k];
    }
    assert "../"[2] == '/' && "../"[..2] == "..";
    assert HasPrefix(text, "../") ==> text[2] == '/' && text[0] == '.' && text[1] == '.';
    if |segs| > 1 {
      assert text[|segs[0]|] == '/';
      assert '/' in text && '/' !in "..";
      assert text[..|segs[0]|] == segs[0];
      if segs[0] == ".." {
        assert text[..3] == "../";
      }
    }
  }

  // ----- an accepted path stays under its base -----

  /** The target's segments are the base's followed by the path's own, and none is dot-dot. */
  lemma {:induction false} SafeJoinStaysInside(base: string, p: string)
    requires IsAbs(base) && Clean(base) == base
    requires SafeJoin(base, p).Ok?
    ensures var target := SafeJoin(base, p).value;
            && IsAbs(target) && Clean(target) == target
            && Segments(target) == Segments(base) + Segments(Slashed(p))
            && ".." !in Segments(target)
            && (target == base || base == "/" || HasPrefix(target, base + "/"))
  {
    var q := Slashed(p);
    var normalized := Clean(q);
    SegmentsAreNormal(base);
    SegmentsAreNormal(q);
    RenderRoundTrip(IsAbs(q), Segments(q));
    if normalized == "." {
      assert Segments(base) + [] == Segments(base);
      assert Segments(q) == [] by { DotHasNoSegments(q); }
    } else {
      EscapesExactly(q);
      JoinPathSegments(base, normalized);
      var target := JoinPath(base, normalized);
      CleanIdempotent(base + "/" + normalized);
      JoinAppends(Segments(base), Segments(q), '/');
    }
  }

  lemma {:induction false} DotHasNoSegments(q: string)
    requires Clean(q) == "."
    ensures Segments(q) == []
  {
    SegmentsAreNormal(q);
    RenderRoundTrip(IsAbs(q), Segments(q));
    SplitOne(".", '/');
    assert Segments(".") == [];
  }

  lemma {:induction false} JoinPathSegments(base: string, rel: string)
    requires IsAbs(base) && Clean(base) == base
    requires !IsAbs(rel) && ".." !in Segments(rel)
    ensures Segments(JoinPath(base, rel)) == Segments(base) + Segments(rel)
    ensures IsAbs(JoinPath(base, rel))
    ensures JoinPath(base, rel) == "/" + Join(Segments(base) + Segments(rel), '/')
  {
    var whole := base + "/" + rel;
    assert whole[..1] == base[..1] == "/";
    SplitConcat(base, rel, '/');
    ReduceAppends(Split(base, '/'), Split(rel, '/'), true, []);
    SegmentsAreNormal(base);
    SegmentsAreNormal(rel);
    assert Segments(base) + [] == Segments(base);
    ReduceFromBase(Split(rel, '/'), true, Segments(base), []);
    assert Segments(whole) == Segments(base) + Segments(rel);
    SegmentsAreNormal(whole);
    RenderRoundTrip(true, Segments(whole));
  }

  /** Reducing a path with no surviving dot-dot on top of a base never eats into the base. */
  lemma {:induction false} ReduceFromBase(segs: seq<string>, rooted: bool, base: seq<string>, kept: seq<string>)
    requires Normal(false, kept) && ".." !in Reduce(segs, false, kept)
    requires SlashFree(segs)
    ensures Reduce(segs, rooted, base + kept) == base + Reduce(segs, false, kept)
    decreases |segs|
  {
    if segs == [] {
    } else if segs[0] == "" || segs[0] == "." {
      ReduceFromBase(segs[1..], rooted, base, kept);
    } else if segs[0] == ".." {
      if kept != [] && kept[|kept| - 1] != ".." {
        assert (base + kept)[..|base + kept| - 1] == base + kept[..|kept| - 1];
        ReduceFromBase(segs[1..], rooted, base, kept[..|kept| - 1]);
      } else {
        LeadingDotDotSurvives(segs[1..], kept + [".."]);
        assert false;
      }
    } else {
      assert base + kept + [segs[0]] == base + (kept + [segs[0]]);
      ReduceFromBase(segs[1..], rooted, base, kept + [segs[0]]);
    }
  }

  lemma {:induction false} LeadingDotDotSurvives(segs: seq<string>, kept: seq<string>)
    requires kept != [] && kept[0] == ".." && Normal(false, kept)
    requires SlashFree(segs)
    ensures ".." in Reduce(segs, false, kept)
    decreases |segs|
  {
    if segs != [] {
      if segs[0] == "" || segs[0] == "." {
        LeadingDotDotSurvives(segs[1..], kept);
      } else if segs[0] == ".." {
        if kept[|kept| - 1] != ".." {
          LeadingDotDotSurvives(segs[1..], kept[..|kept| - 1]);
        } else {
          LeadingDotDotSurvives(segs[1..], kept + [".."]);
        }
      } else {
        LeadingDotDotSurvives(segs[1..], kept + [segs[0]]);
      }
    }
  }

  lemma {:induction false} SplitConcat(a: string, b: string, sep: char)
    ensures Split(a + [sep] + b, sep) == Split(a, sep) + Split(b, sep)
  {
    var s := a + [sep] + b;
    if a == "" {
      assert s[1..] == b;
    } else {
      assert s[1..] == a[1..] + [sep] + b;
      SplitConcat(a[1..], b, sep);
    }
  }

  lemma {:induction false} JoinAppends(a: seq<string>, b: seq<string>, sep: char)
    ensures Join(a + b, sep) == if a == [] then Join(b, sep) else if b == [] then Join(a, sep)
                                else Join(a, sep) + [sep] + Join(b, sep)
  {
    if a == [] {
      assert a + b == b;
    } else if b == [] {
      assert a + b == a;
    } else {
      assert (a + b)[1..] == a[1..] + b;
      JoinAppends(a[1..], b, sep);
    }
  }

  // ----- the validators agree -----

  /** Contract validation and safeJoin accept the same non-blank paths. */
  lemma {:induction false} ValidateAgreesWithSafeJoin(raw: string, what: string, base: string)
    ensures ValidateRelativePath(raw, what).None? <==> TrimSpace(raw) != "" && SafeJoin(base, raw).Ok?
  {
    if HasPrefix(Slashed(raw), "//") {
      DoubleSlashIsRooted(raw);
    }
    SegmentsAreNormal(Slashed(raw));
    RenderRoundTrip(IsAbs(Slashed(raw)), Segments(Slashed(raw)));
  }

  /** What the executor may touch is, once normalised, exactly what the verifier looks up. */
  lemma {:induction false} ArtifactPathAgreesWithSafeJoin(base: string, p: string)
    ensures WorkspaceArtifactPath(base, SlashClean(p)).Ok? <==> SafeJoin(base, p).Ok? && SlashClean(p) != "."
    ensures WorkspaceArtifactPath(base, SlashClean(p)).Ok? ==>
              WorkspaceArtifactPath(base, SlashClean(p)) == SafeJoin(base, p)
  {
    SlashCleanIdempotent(p);
    NoBackslashAfterClean(p);
    if HasPrefix(Slashed(p), "//") {
      DoubleSlashIsRooted(p);
    }
    if HasPrefix(SlashClean(p), "//") {
      DoubleSlashIsRooted(SlashClean(p));
    }
    SegmentsAreNormal(Slashed(p));
    RenderRoundTrip(IsAbs(Slashed(p)), Segments(Slashed(p)));
  }

  /** A bundle entry for an accepted artifact path sits at artifacts/ followed by its normal form. */
  lemma {:induction false} BundlePathAgreesWithArtifactPath(base: string, p: string)
    requires WorkspaceArtifactPath(base, p).Ok?
    ensures SlashJoin("artifacts", SlashClean(p)) == "artifacts/" + SlashClean(p)
    ensures ValidateBundlePath(SlashJoin("artifacts", SlashClean(p))) == Ok("artifacts/" + SlashClean(p))
  {
    UnderFolder("artifacts", p);
  }

  /** Prefixing an accepted path with a plain folder name keeps it normal and accepted. */
  lemma {:induction false} UnderFolder(folder: string, p: string)
    requires NormalSeg(folder) && folder != ".." && '\\' !in folder && ':' !in folder
    requires SlashClean(p) != "." && !Escapes(SlashClean(p))
    ensures SlashJoin(folder, SlashClean(p)) == folder + "/" + SlashClean(p)
    ensures ValidateBundlePath(folder + "/" + SlashClean(p)) == Ok(folder + "/" + SlashClean(p))
    ensures SlashClean(folder + "/" + SlashClean(p)) == folder + "/" + SlashClean(p)
  {
    var q := Slashed(p);
    var n := SlashClean(p);
    SegmentsAreNormal(q);
    RenderRoundTrip(IsAbs(q), Segments(q));
    EscapesExactly(q);
    var segs := [folder] + Segments(q);
    assert segs[1..] == Segments(q);
    assert Segments(q) != [];
    assert Normal(false, segs);
    assert n == Join(Segments(q), '/');
    assert Render(false, segs) == folder + "/" + n;
    RenderRoundTrip(false, segs);
    assert Clean(folder + "/" + n) == folder + "/" + n;
    NoBackslashAfterClean(p);
    assert Slashed(folder + "/" + n) == folder + "/" + n;
    assert !IsAbs(folder + "/" + n);
    assert (folder + "/" + n)[0] == folder[0];
    if |folder| == 1 {
      assert (folder + "/" + n)[1] == '/';
    } else {
      assert (folder + "/" + n)[1] == folder[1];
    }
    EscapesExactly(folder + "/" + n);
    if HasPrefix(folder + "/" + n, "//") {
      DoubleSlashIsRooted(folder + "/" + n);
    }
  }
}
