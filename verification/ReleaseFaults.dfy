/** The problems that the verification of a release reports, by what is wrong with the files: each one is real, and each
    fault is reported. */
module ReleaseFaults {
  import opened Text
  import opened Release
  import opened ReleaseVerify
  import Paths

  // ----- one file -----

  /** A relative path to something inside the directory. */
  predicate PathGood(path: string) {
    TrimSpace(path) != "" && !Paths.IsAbs(path) && Paths.Segments(path) != [] && ".." !in Paths.Segments(path)
  }

  lemma {:induction false} PathProblemExactly(path: string)
    ensures PathProblem(path) ==
            if TrimSpace(path) == "" || Paths.IsAbs(path) then Some(InvalidPath)
            else if PathGood(path) then None else Some(EscapingPath)
  {
    hide TrimSpace;
    if !Paths.IsAbs(path) {
      var segs := Paths.Segments(path);
      Paths.SegmentsAreNormal(path);
      if segs != [] {
        Paths.RelativeJoinHasNoLeadingSlash(segs);
        Paths.LeadingDotDot(segs);
        DotIsNoSegment(segs);
        hide Paths.Segments;
        assert ".." in segs <==> segs[0] == "..";
      }
    }
  }

  lemma {:induction false} DotIsNoSegment(segs: seq<string>)
    requires segs != [] && Paths.Normal(false, segs)
    ensures Join(segs, '/') != "."
  {
    var text := Join(segs, '/');
    assert Paths.NormalSeg(segs[0]);
    if |segs| > 1 {
      assert text[|segs[0]|] == '/';
      assert '/' in text;
    }
  }

  predicate FileReadable(path: string, dir: Directory) {
    PathGood(path) && Paths.Clean(path) in dir
  }

  /** What can be wrong with a recorded file. */
  ghost predicate FileFault(
    kind: ProblemKind, path: string, name: string, sha256: string, size: nat, dir: Directory, checksums: map<string, string>,
    o: Outside)
  {
    var invalid := TrimSpace(path) == "" || Paths.IsAbs(path);
    var readable := FileReadable(path, dir);
    match kind
    case InvalidPath => invalid
    case EscapingPath => !invalid && !PathGood(path)
    case ReadFailed => PathGood(path) && Paths.Clean(path) !in dir
    case DigestMismatch => readable && o.digest(dir[Paths.Clean(path)]) != sha256
    case SizeMismatch => readable && |dir[Paths.Clean(path)]| != size
    case MissingChecksum => readable && path !in checksums && name !in checksums
    case ChecksumMismatch =>
      && readable
      && if path in checksums then checksums[path] != sha256 else name in checksums && checksums[name] != sha256
    case _ => false
  }

  lemma {:induction false} WhenHas(p: Problem, condition: bool, kind: ProblemKind, name: string)
    ensures p in When(condition, kind, name) <==> condition && p == Problem(kind, name)
  {
  }

  lemma {:induction false} ContentsExactly(
    p: Problem, contents: string, checksums: map<string, string>, name: string, path: string, sha256: string, size: nat, o: Outside)
    ensures p in ContentProblems(contents, checksums, name, path, sha256, size, o) <==>
            p.name == name &&
            match p.kind
            case DigestMismatch => o.digest(contents) != sha256
            case SizeMismatch => |contents| != size
            case MissingChecksum => path !in checksums && name !in checksums
            case ChecksumMismatch =>
              if path in checksums then checksums[path] != sha256 else name in checksums && checksums[name] != sha256
            case _ => false
  {
    WhenHas(p, o.digest(contents) != sha256, DigestMismatch, name);
    WhenHas(p, |contents| != size, SizeMismatch, name);
    ChecksumExactly(p, checksums, name, path, sha256);
    InThree(p, When(o.digest(contents) != sha256, DigestMismatch, name), When(|contents| != size, SizeMismatch, name),
            ChecksumProblems(checksums, name, path, sha256));
    hide When, ChecksumProblems;
  }

  lemma {:induction false} InThree(p: Problem, a: seq<Problem>, b: seq<Problem>, c: seq<Problem>)
    ensures p in a + b + c <==> p in a || p in b || p in c
  {
  }

  lemma {:induction false} ChecksumExactly(p: Problem, checksums: map<string, string>, name: string, path: string, sha256: string)
    ensures p in ChecksumProblems(checksums, name, path, sha256) <==>
            || (p == Problem(MissingChecksum, name) && path !in checksums && name !in checksums)
            || (p == Problem(ChecksumMismatch, name)
                && if path in checksums then checksums[path] != sha256 else name in checksums && checksums[name] != sha256)
  {
  }

  ghost predicate ItemFault(p: Problem, t: Item, dir: Directory, checksums: map<string, string>, o: Outside) {
    p.name == t.name && FileFault(p.kind, t.path, t.name, t.sha256, t.sizeBytes, dir, checksums, o)
  }

  lemma {:induction false} ItemFaultExactly(p: Problem, t: Item, dir: Directory, checksums: map<string, string>, o: Outside)
    ensures p in ItemProblems(t, dir, checksums, o) <==> ItemFault(p, t, dir, checksums, o)
  {
    PathProblemExactly(t.path);
    if FileReadable(t.path, dir) {
      ContentsExactly(p, dir[Paths.Clean(t.path)], checksums, t.name, t.path, t.sha256, t.sizeBytes, o);
    }
    hide PathProblem, PathGood, ContentProblems, TrimSpace, Paths.IsAbs, Paths.Clean;
  }

  ghost predicate ItemsFault(p: Problem, items: seq<Item>, dir: Directory, checksums: map<string, string>, o: Outside) {
    exists t :: t in items && ItemFault(p, t, dir, checksums, o)
  }

  lemma {:induction false} ItemsFaultExactly(p: Problem, items: seq<Item>, dir: Directory, checksums: map<string, string>, o: Outside)
    ensures p in ListProblems(items, dir, checksums, o) <==> ItemsFault(p, items, dir, checksums, o)
  {
    hide ItemProblems, ItemFault;
    if items != [] {
      var n := |items| - 1;
      ItemsFaultExactly(p, items[..n], dir, checksums, o);
      ItemFaultExactly(p, items[n], dir, checksums, o);
      assert forall t :: t in items <==> t in items[..n] || t == items[n];
    }
  }

  // ----- artifacts -----

  /** What can be wrong with an artifact itself; its name may be that of one before it whose path was good. */
  ghost predicate ArtifactFault(
    p: Problem, a: Artifact, earlier: seq<Artifact>, m: Manifest, dir: Directory, checksums: map<string, string>, o: Outside)
  {
    && p.name == a.name
    && match p.kind
       case DuplicateName => PathGood(a.path) && exists b :: b in earlier && b.name == a.name && PathGood(b.path)
       case MetadataMismatch => FileReadable(a.path, dir) && o.metadataProblems(m, a, dir[Paths.Clean(a.path)]) > 0
       case _ => FileFault(p.kind, a.path, a.name, a.sha256, a.sizeBytes, dir, checksums, o)
  }

  lemma {:induction false} SeenExactly(earlier: seq<Artifact>, name: string)
    ensures name in SeenAfter(earlier) <==> exists b :: b in earlier && b.name == name && PathGood(b.path)
  {
    hide PathProblem, PathGood;
    if earlier != [] {
      var n := |earlier| - 1;
      SeenExactly(earlier[..n], name);
      PathProblemExactly(earlier[n].path);
      GoodIsValid(earlier[n].path);
      assert forall b :: b in earlier <==> b in earlier[..n] || b == earlier[n];
    }
  }

  lemma {:induction false} GoodIsValid(path: string)
    ensures PathGood(path) ==> TrimSpace(path) != "" && !Paths.IsAbs(path)
  {
  }

  lemma {:induction false} RepeatHas(n: nat, q: Problem, p: Problem)
    ensures p in Repeat(n, q) <==> n > 0 && p == q
  {
    if n > 0 {
      assert Repeat(n, q)[0] == q;
    }
  }

  lemma {:induction false} ArtifactFaultExactly(
    p: Problem, a: Artifact, earlier: seq<Artifact>, m: Manifest, dir: Directory, checksums: map<string, string>, o: Outside)
    ensures p in ArtifactProblems(a, SeenAfter(earlier), m, dir, checksums, o) <==>
            ArtifactFault(p, a, earlier, m, dir, checksums, o)
  {
    PathProblemExactly(a.path);
    GoodIsValid(a.path);
    SeenExactly(earlier, a.name);
    WhenHas(p, a.name in SeenAfter(earlier), DuplicateName, a.name);
    if FileReadable(a.path, dir) {
      var contents := dir[Paths.Clean(a.path)];
      ContentsExactly(p, contents, checksums, a.name, a.path, a.sha256, a.sizeBytes, o);
      RepeatHas(o.metadataProblems(m, a, contents), Problem(MetadataMismatch, a.name), p);
    }
    hide PathProblem, PathGood, ContentProblems, TrimSpace, Paths.IsAbs, Paths.Clean, SeenAfter, Repeat, When;
  }

  /** A fault of some artifact or, where its file can be read, of one of its attestations. */
  ghost predicate ArtifactsFault(
    p: Problem, artifacts: seq<Artifact>, m: Manifest, dir: Directory, checksums: map<string, string>, o: Outside)
  {
    exists i :: 0 <= i < |artifacts| &&
      (ArtifactFault(p, artifacts[i], artifacts[..i], m, dir, checksums, o)
       || (FileReadable(artifacts[i].path, dir) && ItemsFault(p, artifacts[i].attestations, dir, checksums, o)))
  }

  lemma {:induction false} ArtifactHasExactly(
    p: Problem, a: Artifact, earlier: seq<Artifact>, m: Manifest, dir: Directory, checksums: map<string, string>, o: Outside)
    ensures ArtifactHas(p, a, SeenAfter(earlier), m, dir, checksums, o) <==>
              || ArtifactFault(p, a, earlier, m, dir, checksums, o)
              || (FileReadable(a.path, dir) && ItemsFault(p, a.attestations, dir, checksums, o))
  {
    ArtifactFaultExactly(p, a, earlier, m, dir, checksums, o);
    ItemsFaultExactly(p, a.attestations, dir, checksums, o);
    PathProblemExactly(a.path);
    GoodIsValid(a.path);
    hide PathProblem, PathGood, ArtifactFault, ItemsFault, ArtifactProblems, ListProblems, SeenAfter, TrimSpace, Paths.IsAbs, Paths.Clean;
  }

  // ----- the whole release -----

  /** The checksum file lists this path and no manifested file has it as its path or name; an artifact whose file cannot
      be read does not speak for its attestations. */
  ghost predicate Unaccounted(m: Manifest, dir: Directory, checksums: map<string, string>, path: string) {
    && path in checksums && !NamesFile(m.supplementals, path)
    && forall a :: a in m.artifacts ==>
         path != a.path && path != a.name && !(FileReadable(a.path, dir) && NamesFile(a.attestations, path))
  }

  lemma {:induction false} KeysOf(artifacts: seq<Artifact>, dir: Directory, path: string)
    ensures path in ArtifactsKeys(artifacts, dir) <==>
            exists a :: a in artifacts && (path == a.path || path == a.name || (FileReadable(a.path, dir) && NamesFile(a.attestations, path)))
  {
    hide FileReadable, Readable;
    if artifacts != [] {
      var n := |artifacts| - 1;
      KeysOf(artifacts[..n], dir, path);
      ReadableExactly(artifacts[n], dir);
      assert forall a :: a in artifacts <==> a in artifacts[..n] || a == artifacts[n];
    }
  }

  lemma {:induction false} ReadableExactly(a: Artifact, dir: Directory)
    ensures Readable(a, dir) <==> FileReadable(a.path, dir)
  {
    PathProblemExactly(a.path);
    GoodIsValid(a.path);
    hide PathProblem, PathGood, TrimSpace, Paths.IsAbs, Paths.Clean;
  }

  ghost predicate ReleaseFault(
    p: Problem, m: Manifest, dir: Directory, checksums: map<string, string>, key: bool, o: Outside)
    requires o.names.manifest in dir
  {
    || (key && p == Problem(BadSignature, "")
        && !o.signatureOk(dir[o.names.manifest], if o.names.signature in dir then Some(dir[o.names.signature]) else None))
    || ArtifactsFault(p, m.artifacts, m, dir, checksums, o)
    || ItemsFault(p, m.supplementals, dir, checksums, o)
    || (p.kind.Unmanifested? && Unaccounted(m, dir, checksums, p.name))
  }

  /** The report of a release names exactly its faults. */
  lemma {:induction false} ReportExactly(
    p: Problem, m: Manifest, dir: Directory, checksums: map<string, string>, key: bool, o: Outside)
    requires o.names.manifest in dir
    ensures ReleaseHas(p, m, dir, checksums, key, o) <==> ReleaseFault(p, m, dir, checksums, key, o)
  {
    ItemsFaultExactly(p, m.supplementals, dir, checksums, o);
    KeysOf(m.artifacts, dir, p.name);
    forall i | 0 <= i < |m.artifacts|
      ensures ArtifactHas(p, m.artifacts[i], SeenAfter(m.artifacts[..i]), m, dir, checksums, o) <==>
                || ArtifactFault(p, m.artifacts[i], m.artifacts[..i], m, dir, checksums, o)
                || (FileReadable(m.artifacts[i].path, dir) && ItemsFault(p, m.artifacts[i].attestations, dir, checksums, o))
    {
      ArtifactHasExactly(p, m.artifacts[i], m.artifacts[..i], m, dir, checksums, o);
    }
    hide ItemsFault, ListProblems, ArtifactHas, ArtifactFault, FileReadable, SeenAfter, ArtifactsKeys;
  }

  // ----- the order of the problems of one file -----

  /** The number of the check that reports a problem. */
  function CheckOf(kind: ProblemKind): nat {
    match kind
    case InvalidPath => 0
    case EscapingPath => 0
    case DuplicateName => 1
    case ReadFailed => 2
    case DigestMismatch => 3
    case SizeMismatch => 4
    case MissingChecksum => 5
    case ChecksumMismatch => 5
    case MetadataMismatch => 6
    case _ => 7
  }

  /** Each check reports at most one problem, in the order of the checks. */
  ghost predicate InCheckOrder(problems: seq<Problem>) {
    forall i, j :: 0 <= i < j < |problems| ==> CheckOf(problems[i].kind) < CheckOf(problems[j].kind)
  }

  /** At most one problem, found by this check. */
  predicate OneOf(problems: seq<Problem>, check: nat) {
    |problems| <= 1 && forall p :: p in problems ==> CheckOf(p.kind) == check
  }

  lemma {:induction false} ThreeInOrder(a: seq<Problem>, b: seq<Problem>, c: seq<Problem>)
    requires OneOf(a, 3) && OneOf(b, 4) && OneOf(c, 5)
    ensures InCheckOrder(a + b + c) && forall p :: p in a + b + c ==> 3 <= CheckOf(p.kind) <= 5
  {
    hide CheckOf;
    assert forall i :: 0 <= i < |a| ==> a[i] in a;
    assert forall i :: 0 <= i < |b| ==> b[i] in b;
    assert forall i :: 0 <= i < |c| ==> c[i] in c;
  }

  lemma {:induction false} ContentsInOrder(
    contents: string, checksums: map<string, string>, name: string, path: string, sha256: string, size: nat, o: Outside)
    ensures var problems := ContentProblems(contents, checksums, name, path, sha256, size, o);
            InCheckOrder(problems) && forall p :: p in problems ==> 3 <= CheckOf(p.kind) <= 5
  {
    var sums := ChecksumProblems(checksums, name, path, sha256);
    assert OneOf(sums, 5);
    hide ChecksumProblems, InCheckOrder;
    ThreeInOrder(When(o.digest(contents) != sha256, DigestMismatch, name), When(|contents| != size, SizeMismatch, name), sums);
  }

  lemma {:induction false} ItemInOrder(t: Item, dir: Directory, checksums: map<string, string>, o: Outside)
    ensures InCheckOrder(ItemProblems(t, dir, checksums, o))
  {
    if FileReadable(t.path, dir) {
      ContentsInOrder(dir[Paths.Clean(t.path)], checksums, t.name, t.path, t.sha256, t.sizeBytes, o);
    }
    PathProblemExactly(t.path);
    hide PathGood, ContentProblems, TrimSpace, Paths.IsAbs, Paths.Clean, CheckOf;
  }

  /** An artifact's own problems come in the order of the checks, and last one for each disagreement of its metadata. */
  lemma {:induction false} ArtifactInOrder(
    a: Artifact, seen: set<string>, m: Manifest, dir: Directory, checksums: map<string, string>, o: Outside)
    returns (k: nat)
    ensures var problems := ArtifactProblems(a, seen, m, dir, checksums, o);
            && k <= |problems| && InCheckOrder(problems[..k])
            && (forall i :: 0 <= i < k ==> CheckOf(problems[i].kind) < 6)
            && (forall i :: k <= i < |problems| ==> problems[i] == Problem(MetadataMismatch, a.name))
            && |problems| - k == if FileReadable(a.path, dir) then o.metadataProblems(m, a, dir[Paths.Clean(a.path)]) else 0
  {
    k := |ArtifactProblems(a, seen, m, dir, checksums, o)|;
    if FileReadable(a.path, dir) {
      var contents := dir[Paths.Clean(a.path)];
      var again, found := When(a.name in seen, DuplicateName, a.name),
                          ContentProblems(contents, checksums, a.name, a.path, a.sha256, a.sizeBytes, o);
      ContentsInOrder(contents, checksums, a.name, a.path, a.sha256, a.sizeBytes, o);
      ReadableParts(a, seen, m, dir, checksums, o);
      k := |again| + |found|;
      hide ContentProblems, FileReadable, Paths.Clean, ArtifactProblems;
      InOrderTogether(again, found, Repeat(o.metadataProblems(m, a, contents), Problem(MetadataMismatch, a.name)));
    } else {
      PathProblemExactly(a.path);
      hide ContentProblems, PathGood, TrimSpace, Paths.IsAbs, Paths.Clean, ReadableProblems;
    }
  }

  lemma {:induction false} ReadableParts(
    a: Artifact, seen: set<string>, m: Manifest, dir: Directory, checksums: map<string, string>, o: Outside)
    requires FileReadable(a.path, dir)
    ensures var contents := dir[Paths.Clean(a.path)];
            ArtifactProblems(a, seen, m, dir, checksums, o) ==
            When(a.name in seen, DuplicateName, a.name)
            + (ContentProblems(contents, checksums, a.name, a.path, a.sha256, a.sizeBytes, o)
               + Repeat(o.metadataProblems(m, a, contents), Problem(MetadataMismatch, a.name)))
  {
    PathProblemExactly(a.path);
    GoodIsValid(a.path);
    hide ContentProblems, PathGood, TrimSpace, Paths.IsAbs, Paths.Clean, When, Repeat;
  }

  lemma {:induction false} InOrderTogether(a: seq<Problem>, b: seq<Problem>, c: seq<Problem>)
    requires |a| <= 1 && forall p :: p in a ==> CheckOf(p.kind) == 1
    requires InCheckOrder(b) && forall p :: p in b ==> 3 <= CheckOf(p.kind) <= 5
    ensures var all, k := a + (b + c), |a| + |b|;
            && InCheckOrder(all[..k]) && (forall i :: 0 <= i < k ==> CheckOf(all[i].kind) < 6)
            && all[k..] == c
  {
    hide CheckOf;
    var all, k := a + (b + c), |a| + |b|;
    assert all[..k] == a + b;
    assert forall i :: 0 <= i < |a| ==> a[i] in a;
    assert forall i :: 0 <= i < |b| ==> b[i] in b;
    forall i | 0 <= i < k ensures CheckOf(all[i].kind) < 6 {
      assert all[i] == all[..k][i];
    }
  }
}
