/** What cleaning a path means: it leads from every directory where the path leads, and it is the only normal path
    that does. And what each of the path validators accepts, and how each refuses. */
module PathWalk {
  import opened Text
  import opened Paths

  // ----- walking -----

  /** From a directory, given by its names from the root, one segment further. */
  function Next(dir: seq<string>, seg: string): seq<string> {
    if seg == "" || seg == "." then dir
    else if seg == ".." then (if dir == [] then [] else dir[..|dir| - 1])
    else dir + [seg]
  }

  /** Where the segments lead, one after the other; the root is its own parent. */
  function Walk(dir: seq<string>, segs: seq<string>): seq<string>
    decreases |segs|
  {
    if segs == [] then dir else Walk(Next(dir, segs[0]), segs[1..])
  }

  /** Where a path leads from this directory. */
  function Leads(dir: seq<string>, p: string): seq<string> {
    Walk(if IsAbs(p) then [] else dir, Split(p, '/'))
  }

  lemma {:induction false} WalkSnoc(dir: seq<string>, segs: seq<string>, seg: string)
    ensures Walk(dir, segs + [seg]) == Next(Walk(dir, segs), seg)
    decreases |segs|
  {
    if segs == [] {
      assert ([] + [seg])[1..] == [];
      assert segs + [seg] == [seg];
    } else {
      assert (segs + [seg])[1..] == segs[1..] + [seg];
      WalkSnoc(Next(dir, segs[0]), segs[1..], seg);
    }
  }

  lemma {:induction false} WalkLast(dir: seq<string>, kept: seq<string>)
    requires kept != []
    ensures Walk(dir, kept) == Next(Walk(dir, kept[..|kept| - 1]), kept[|kept| - 1])
  {
    var n := |kept| - 1;
    assert kept == kept[..n] + [kept[n]];
    WalkSnoc(dir, kept[..n], kept[n]);
  }

  lemma {:induction false} ReduceWalks(segs: seq<string>, rooted: bool, kept: seq<string>, dir: seq<string>)
    requires Normal(rooted, kept) && SlashFree(segs) && (rooted ==> dir == [])
    ensures Walk(dir, Reduce(segs, rooted, kept)) == Walk(Walk(dir, kept), segs)
    decreases |segs|
  {
    if segs != [] {
      var here := Walk(dir, kept);
      if segs[0] == "" || segs[0] == "." {
        ReduceWalks(segs[1..], rooted, kept, dir);
      } else if segs[0] == ".." {
        if kept != [] && kept[|kept| - 1] != ".." {
          WalkLast(dir, kept);
          assert Next(here, "..") == Walk(dir, kept[..|kept| - 1]);
          ReduceWalks(segs[1..], rooted, kept[..|kept| - 1], dir);
        } else if rooted {
          assert kept == [];
          ReduceWalks(segs[1..], rooted, kept, dir);
        } else {
          WalkSnoc(dir, kept, "..");
          ReduceWalks(segs[1..], rooted, kept + [".."], dir);
        }
      } else {
        WalkSnoc(dir, kept, segs[0]);
        ReduceWalks(segs[1..], rooted, kept + [segs[0]], dir);
      }
    }
  }

  lemma {:induction false} WalkSplit(dir: seq<string>, rooted: bool, segs: seq<string>)
    requires Normal(rooted, segs)
    ensures Leads(dir, Render(rooted, segs)) == Walk(if rooted then [] else dir, segs)
  {
    var p := Render(rooted, segs);
    RenderRoundTrip(rooted, segs);
    var from := if rooted then [] else dir;
    assert Normal(rooted, []);
    ReduceWalks(Split(p, '/'), rooted, [], from);
    assert Walk(from, []) == from;
  }

  /** From every directory the cleaned path leads where the path leads. */
  lemma {:induction false} CleanLeads(dir: seq<string>, p: string)
    ensures Leads(dir, Clean(p)) == Leads(dir, p)
  {
    var from := if IsAbs(p) then [] else dir;
    SegmentsAreNormal(p);
    WalkSplit(dir, IsAbs(p), Segments(p));
    assert Normal(IsAbs(p), []);
    ReduceWalks(Split(p, '/'), IsAbs(p), [], from);
    assert Walk(from, []) == from;
  }

  // ----- only one normal path leads there -----

  function Names(segs: seq<string>): seq<string> {
    if segs != [] && segs[0] == ".." then Names(segs[1..]) else segs
  }

  /** A normal relative path goes up some steps and then down its names. */
  lemma {:induction false} NormalWalks(segs: seq<string>, dir: seq<string>)
    requires Normal(false, segs) && |segs| <= |dir|
    ensures |Names(segs)| <= |segs| && (forall i :: 0 <= i < |Names(segs)| ==> Names(segs)[i] != "..")
    ensures segs == Ups(|segs| - |Names(segs)|) + Names(segs)
    ensures Walk(dir, segs) == dir[..|dir| - (|segs| - |Names(segs)|)] + Names(segs)
    decreases |segs|
  {
    if segs != [] && segs[0] == ".." {
      assert Normal(false, segs[1..]) by { NormalTail(segs); }
      NormalWalks(segs[1..], dir[..|dir| - 1]);
    } else {
      NoLaterDots(segs);
      WalkDown(segs, dir);
      assert dir[..|dir|] == dir;
    }
  }

  lemma {:induction false} NoLaterDots(segs: seq<string>)
    requires Normal(false, segs) && (segs != [] ==> segs[0] != "..")
    ensures forall i :: 0 <= i < |segs| ==> segs[i] != ".."
  {
  }

  function Ups(n: nat): seq<string> {
    if n == 0 then [] else [".."] + Ups(n - 1)
  }

  lemma {:induction false} NormalTail(segs: seq<string>)
    requires segs != [] && Normal(false, segs)
    ensures Normal(false, segs[1..])
  {
    var rest := segs[1..];
    forall i, j | 0 <= j <= i < |rest| && rest[i] == ".." ensures rest[j] == ".." {
      assert segs[i + 1] == ".." && segs[j + 1] == "..";
    }
  }

  lemma {:induction false} WalkDown(segs: seq<string>, dir: seq<string>)
    requires forall i :: 0 <= i < |segs| ==> NormalSeg(segs[i]) && segs[i] != ".."
    ensures Walk(dir, segs) == dir + segs
    decreases |segs|
  {
    if segs != [] {
      WalkDown(segs[1..], dir + [segs[0]]);
      assert dir + [segs[0]] + segs[1..] == dir + segs;
    }
  }

  /** A directory deep enough, whose names are all this one. */
  function Deep(name: string, n: nat): (dir: seq<string>)
    ensures |dir| == n && forall i :: 0 <= i < n ==> dir[i] == name
  {
    seq(n, i => name)
  }

  lemma {:induction false} CutAt(dir: seq<string>, name: string, i: nat, a: seq<string>, k: nat)
    requires i <= |dir| && forall k :: 0 <= k < |dir| ==> dir[k] == name
    ensures var cut := dir[..|dir| - i] + a;
            k < |cut| ==> cut[k] == if k < |dir| - i then name else a[k - (|dir| - i)]
  {
  }

  lemma {:induction false} CutsAgree(dir: seq<string>, name: string, i: nat, a: seq<string>, j: nat, b: seq<string>)
    requires i <= |dir| && j <= |dir| && forall k :: 0 <= k < |dir| ==> dir[k] == name
    requires (a != [] ==> a[0] != name) && (b != [] ==> b[0] != name)
    requires dir[..|dir| - i] + a == dir[..|dir| - j] + b
    ensures i == j && a == b
  {
    var n := |dir|;
    var left, right := dir[..n - i] + a, dir[..n - j] + b;
    assert |left| == n - i + |a| && |right| == n - j + |b|;
    CutAt(dir, name, i, a, n - i);
    CutAt(dir, name, j, b, n - i);
    CutAt(dir, name, i, a, n - j);
    CutAt(dir, name, j, b, n - j);
    assert left[n - i..] == a && right[n - j..] == b;
  }

  /** A name that is none of these two. */
  function Other(a: seq<string>, b: seq<string>): (name: string)
    ensures (a != [] ==> a[0] != name) && (b != [] ==> b[0] != name)
  {
    var x, y := if a == [] then "" else a[0], if b == [] then "" else b[0];
    var name := x + y + "x";
    assert |name| > |x| && |name| > |y|;
    name
  }

  /** Two normal relative paths that lead to one place from every directory are the same. */
  lemma {:induction false} NormalUnique(a: seq<string>, b: seq<string>)
    requires Normal(false, a) && Normal(false, b)
    requires forall dir: seq<string> :: Walk(dir, a) == Walk(dir, b)
    ensures a == b
  {
    var name := Other(Names(a), Names(b));
    var dir := Deep(name, |a| + |b|);
    NormalWalks(a, dir);
    NormalWalks(b, dir);
    hide Names, Walk, Normal, Ups, Other;
    assert Walk(dir, a) == Walk(dir, b);
    CutsAgree(dir, name, |a| - |Names(a)|, Names(a), |b| - |Names(b)|, Names(b));
  }

  lemma {:induction false} RootedUnique(a: seq<string>, b: seq<string>)
    requires Normal(true, a) && Normal(true, b) && Walk([], a) == Walk([], b)
    ensures a == b
  {
    WalkDown(a, []);
    WalkDown(b, []);
    assert [] + a == a && [] + b == b;
  }

  lemma {:induction false} SameWalk(p: string, segs: seq<string>, dir: seq<string>)
    requires Normal(IsAbs(p), segs) && Leads(dir, Render(IsAbs(p), segs)) == Leads(dir, p)
    ensures IsAbs(p) ==> Walk([], segs) == Walk([], Segments(p))
    ensures !IsAbs(p) ==> Walk(dir, segs) == Walk(dir, Segments(p))
  {
    SegmentsAreNormal(p);
    CleanLeads(dir, p);
    WalkSplit(dir, IsAbs(p), segs);
    WalkSplit(dir, IsAbs(p), Segments(p));
  }

  /** Cleaning finds the only normal path, rooted like p, that leads where p leads from every directory. */
  lemma {:induction false} CleanIsTheNormalForm(p: string, segs: seq<string>)
    requires Normal(IsAbs(p), segs)
    ensures (forall dir :: Leads(dir, Render(IsAbs(p), segs)) == Leads(dir, p)) <==> Render(IsAbs(p), segs) == Clean(p)
  {
    forall dir ensures Leads(dir, Clean(p)) == Leads(dir, p) {
      CleanLeads(dir, p);
    }
    if forall dir :: Leads(dir, Render(IsAbs(p), segs)) == Leads(dir, p) {
      SegmentsAreNormal(p);
      forall dir: seq<string>
        ensures !IsAbs(p) ==> Walk(dir, segs) == Walk(dir, Segments(p))
      {
        SameWalk(p, segs, dir);
      }
      SameWalk(p, segs, []);
      if IsAbs(p) {
        RootedUnique(segs, Segments(p));
      } else {
        NormalUnique(segs, Segments(p));
      }
    }
  }

  // ----- the validators -----

  /** The path leads out of the directory it starts from: it is rooted, or its normal form climbs above the start or
      begins with a drive letter. */
  ghost predicate LeadsOut(raw: string) {
    var p := Slashed(raw);
    IsAbs(p) || ".." in Segments(p) || HasDrivePrefix(Clean(p))
  }

  /** The path leads to the directory it starts from. */
  ghost predicate StaysPut(raw: string) {
    forall dir :: Leads(dir, Slashed(raw)) == dir
  }

  lemma {:induction false} LeadsOutExactly(raw: string)
    ensures Escapes(SlashClean(raw)) <==> LeadsOut(raw)
    ensures HasPrefix(Slashed(raw), "//") ==> LeadsOut(raw)
  {
    EscapesExactly(Slashed(raw));
    if HasPrefix(Slashed(raw), "//") {
      DoubleSlashIsRooted(raw);
    }
  }

  lemma {:induction false} StaysPutExactly(raw: string)
    ensures SlashClean(raw) == "." <==> StaysPut(raw)
    ensures SlashClean(raw) != ""
  {
    var p := Slashed(raw);
    SegmentsAreNormal(p);
    RenderRoundTrip(IsAbs(p), Segments(p));
    if SlashClean(raw) == "." {
      forall dir ensures Leads(dir, p) == dir {
        CleanLeads(dir, p);
        SplitOne(".", '/');
        assert ["."][1..] == [];
      }
    }
    if StaysPut(raw) {
      var here: seq<string> := ["x"];
      assert Leads(here, p) == here && Leads([], p) == [];
      if !IsAbs(p) {
        assert Normal(false, []);
        forall dir ensures Leads(dir, Render(false, [])) == Leads(dir, p) {
          SplitOne(".", '/');
          assert ["."][1..] == [];
          assert Leads(dir, p) == dir;
        }
        CleanIsTheNormalForm(p, []);
      }
    }
    if !IsAbs(p) && Segments(p) != [] {
      RelativeJoinHasNoLeadingSlash(Segments(p));
    }
  }

  /** What each validator answers: a blank or idle path is missing where one is required, a path that leads out escapes,
      and any other is taken in its normal form. */
  lemma {:induction false} VerdictsExactly(base: string, raw: string, what: string)
    ensures ValidateRelativePath(raw, what) ==
            if TrimSpace(raw) == "" then Some(PathRequired(what))
            else if LeadsOut(raw) then Some(PathEscapes(what, raw)) else None
    ensures SafeJoin(base, raw) ==
            if StaysPut(raw) then Ok(base) else if LeadsOut(raw) then Err(PathEscapes("path", raw))
            else Ok(JoinPath(base, SlashClean(raw)))
    ensures WorkspaceArtifactPath(base, raw) ==
            if StaysPut(raw) then Err(PathRequired("artifact path"))
            else if LeadsOut(raw) then Err(PathEscapes("workspace", raw)) else Ok(JoinPath(base, SlashClean(raw)))
    ensures ValidateBundlePath(raw) ==
            if StaysPut(raw) then Err(PathRequired("bundle path"))
            else if LeadsOut(raw) then Err(PathEscapes("archive", raw)) else Ok(SlashClean(raw))
  {
    LeadsOutExactly(raw);
    StaysPutExactly(raw);
    hide LeadsOut, StaysPut, Escapes, SlashClean, JoinPath, TrimSpace;
  }

  /** The path leads to this folder or below it. */
  predicate Under(raw: string, folder: string) {
    Segments(Slashed(raw)) != [] && Segments(Slashed(raw))[0] == folder
  }

  lemma {:induction false} FirstSegment(segs: seq<string>, name: string)
    requires segs != [] && SlashFree(segs) && '/' !in name
    ensures var text := Join(segs, '/'); text == name || HasPrefix(text, name + "/") <==> segs[0] == name
  {
    var text, m := Join(segs, '/'), |segs[0]|;
    assert text[..m] == segs[0] && forall k :: 0 <= k < m ==> text[k] != '/';
    assert |segs| > 1 ==> text[m] == '/';
    assert |segs| > 1 ==> '/' in text;
    if HasPrefix(text, name + "/") {
      var n := |name|;
      assert text[n] == (name + "/")[n] == '/';
      assert forall k :: 0 <= k < n ==> text[k] == (name + "/")[k] == name[k];
      assert text[..n] == name;
    }
    if segs[0] == name && |segs| > 1 {
      assert text[..m + 1] == name + "/";
    }
  }

  /** A snapshot path is taken exactly when it leads to the snapshots' folder or below it. */
  lemma {:induction false} SnapshotVerdictExactly(base: string, raw: string)
    ensures InputSnapshotPath(base, raw) ==
            if StaysPut(raw) then Err(PathRequired("snapshot path"))
            else if LeadsOut(raw) then Err(PathEscapes("run directory", raw))
            else if !Under(raw, "input-snapshots") then Err(NotUnderSnapshots)
            else Ok(JoinPath(base, SlashClean(raw)))
  {
    LeadsOutExactly(raw);
    StaysPutExactly(raw);
    if !LeadsOut(raw) && !StaysPut(raw) {
      SegmentsAreNormal(Slashed(raw));
      assert Segments(Slashed(raw)) != [];
      FirstSegment(Segments(Slashed(raw)), "input-snapshots");
      assert "input-snapshots" + "/" == "input-snapshots/";
    }
    hide StaysPut, Escapes, JoinPath;
  }
}
